/** The mutable `ProcessTree` of hermian-core/src/proctree.rs, proved against the value
    functions of module ProcTree. Hash-map iteration picks an arbitrary element, so
    what is proved holds for every order. */
module ProcessTreeClass {
  import opened Common
  import opened ProcTree

  class ProcessTree {
    var procs: map<Pid, ProcInfo>
    var exited: map<Pid, Time>
    var execAt: map<Pid, Time>

    ghost function View(): Tree
      reads this
    {
      Tree(procs, exited, execAt)
    }

    constructor ()
      ensures View() == Tree(map[], map[], map[]) && Valid(View())
    {
      procs, exited, execAt := map[], map[], map[];
    }

    method Upsert(info: ProcInfo)
      requires Valid(View())
      modifies this
      ensures Valid(View())
      ensures View() == Tree(old(procs)[info.pid := info], old(exited) - {info.pid}, old(execAt))
    {
      exited := exited - {info.pid};
      procs := procs[info.pid := info];
    }

    method UpsertExec(ev: ExecEvent)
      requires Valid(View())
      modifies this
      ensures View() == Exec(old(View()), ev) && Valid(View())
    {
      ghost var before := View();
      var reused := ev.pid in exited;
      exited := exited - {ev.pid};
      var previous := [];
      if !reused && ev.pid in procs {
        var prior := procs[ev.pid];
        if prior.ppid != ev.ppid {
        } else if prior.comm == ev.comm && prior.exe == ev.exe {
          previous := prior.previous;
        } else {
          var n := if |prior.previous| < MAX_PREVIOUS - 1 then |prior.previous| else MAX_PREVIOUS - 1;
          previous := [PrevImage(prior.comm, prior.exe)] + prior.previous[..n];
        }
      }
      assert previous == History(before, ev);
      var info := ProcInfo(ev.pid, ev.ppid, ev.uid, ev.comm, ShownExe(ev), if ev.ts > 0 then ev.ts else 0,
                           ev.tty, ev.container, ev.containerId, ev.ts, previous);
      procs := procs[ev.pid := info];
      execAt := execAt[ev.pid := ev.ts];
      ExecHistory(before, ev);
    }

    method Touch(pid: Pid, now: Time)
      requires Valid(View())
      modifies this`procs
      ensures Valid(View())
      ensures procs == if pid in old(procs) then old(procs)[pid := old(procs)[pid].(seenAt := now)] else old(procs)
    {
      if pid in procs {
        procs := procs[pid := procs[pid].(seenAt := now)];
      }
    }

    method Remove(pid: Pid)
      modifies this
      ensures View() == Tree(old(procs) - {pid}, old(exited) - {pid}, old(execAt) - {pid})
    {
      procs := procs - {pid};
      exited := exited - {pid};
      execAt := execAt - {pid};
    }

    /** Drop every pid of `pids`, one by one. */
    method RemoveAll(pids: set<Pid>)
      modifies this
      ensures View() == Drop(old(View()), pids)
    {
      var todo := pids;
      ghost var gone := {};
      while todo != {}
        invariant todo + gone == pids
        invariant View() == Drop(old(View()), gone)
        decreases todo
      {
        var pid :| pid in todo;
        Remove(pid);
        todo, gone := todo - {pid}, gone + {pid};
      }
      assert gone == pids;
    }

    method Prune(cutoff: Time)
      requires Valid(View())
      modifies this
      ensures Valid(View())
      ensures var stale := set p | p in old(procs) && old(procs)[p].seenAt < cutoff;
              View() == Tree(old(procs) - stale, old(exited) - stale, old(execAt) - stale)
    {
      var stale := set p | p in procs && procs[p].seenAt < cutoff;
      RemoveAll(stale);
    }

    /** First half of `reap`: note who is missing, forget exits of pids that are alive. */
    method Mark(alive: set<Pid>, now: Time)
      requires Valid(View())
      modifies this`exited
      ensures exited == Marked(old(View()), alive, now)
      ensures forall p :: p in exited <==> p in old(procs) && p !in alive
      ensures forall p :: p in exited ==> exited[p] == if p in old(exited) then old(exited)[p] else now
    {
      var todo := procs.Keys;
      while todo != {}
        invariant todo <= procs.Keys
        invariant forall p :: p in exited <==> p in old(exited) || (p in procs && p !in todo && p !in alive)
        invariant forall p :: p in exited ==> exited[p] == if p in old(exited) then old(exited)[p] else now
        decreases todo
      {
        var pid :| pid in todo;
        if pid !in alive && pid !in exited {
          exited := exited[pid := now];
        }
        todo := todo - {pid};
      }
      exited := map p | p in exited && p !in alive :: exited[p];
    }

    /** The ancestors of live processes, as the nested loops collect them. */
    method CollectAncestors(live: set<Pid>) returns (kept: set<Pid>)
      requires live <= procs.Keys
      ensures exists order :: IsOrder(order, live) && kept == Collect(procs, order, {})
    {
      kept := {};
      ghost var order: seq<Pid> := [];
      var todo := live;
      while todo != {}
        invariant todo <= live
        invariant IsOrder(order, live - todo)
        invariant kept == Collect(procs, order, {})
        decreases todo
      {
        var p :| p in todo;
        var cur: Pid := procs[p].ppid;
        var depth := 0;
        ghost var before := kept;
        while cur > 1 && depth < MAX_DEPTH && cur !in kept
          invariant depth <= MAX_DEPTH
          invariant Walk(procs, cur, depth, kept) == Walk(procs, procs[p].ppid, 0, before)
          decreases MAX_DEPTH - depth
        {
          kept := kept + {cur};
          cur := if cur in procs then procs[cur].ppid else 0;
          depth := depth + 1;
        }
        assert (order + [p])[..|order|] == order;
        order := order + [p];
        todo := todo - {p};
      }
      assert IsOrder(order, live);
    }

    /** Mark, collect, and drop what is due and not collected. */
    method Reap(alive: set<Pid>, now: Time) returns (ghost order: seq<Pid>)
      requires Valid(View())
      modifies this
      ensures Valid(View())
      ensures IsOrder(order, Live(old(View()), alive))
      ensures View() == ReapWith(old(View()), alive, now, order)
    {
      ghost var before := View();
      Mark(alive, now);
      var cutoff := now - EXIT_GRACE_SECS;
      var live := set p | p in procs && p !in exited;
      assert live == Live(before, alive);
      var kept := CollectAncestors(live);
      order :| IsOrder(order, live) && kept == Collect(procs, order, {});
      var expired := set p | p in exited && exited[p] < cutoff && p !in kept;
      RemoveAll(expired);
      ReapValid(before, alive, now, order);
    }

    /** The loop that reads parents one by one. */
    method AncestorsOf(pid: Pid) returns (out: seq<ProcInfo>)
      requires Valid(View())
      ensures out == Ancestors(procs, pid)
    {
      out := [];
      if pid !in procs {
        return;
      }
      var current: Pid := procs[pid].ppid;
      var depth := 0;
      while depth < MAX_DEPTH && current != 0
        invariant depth <= MAX_DEPTH
        invariant out + AncestorsFrom(procs, pid, current, depth) == Ancestors(procs, pid)
        decreases MAX_DEPTH - depth
      {
        if current !in procs || procs[current].pid == pid {
          break;
        }
        out := out + [procs[current]];
        current := procs[current].ppid;
        depth := depth + 1;
      }
    }

    static method PushExpanded(chain: seq<ProcInfo>, info: ProcInfo) returns (r: seq<ProcInfo>)
      ensures r == chain + Expand(info)
    {
      r := chain;
      var i := |info.previous|;
      while i > 0
        invariant 0 <= i <= |info.previous|
        invariant r == chain + Expand(info)[..|info.previous| - i]
      {
        i := i - 1;
        r := r + [info.(comm := info.previous[i].comm, exe := info.previous[i].exe, previous := [])];
      }
      r := r + [info.(previous := [])];
    }

    /** The ancestors in reverse, then the process, each expanded. */
    method ChainOf(pid: Pid) returns (chain: seq<ProcInfo>)
      requires Valid(View())
      ensures chain == Chain(procs, pid)
    {
      chain := [];
      var ancestors := AncestorsOf(pid);
      var i := |ancestors|;
      while i > 0
        invariant 0 <= i <= |ancestors|
        invariant chain == ExpandRootFirst(ancestors[i..])
      {
        i := i - 1;
        assert ancestors[i..][1..] == ancestors[i + 1..];
        chain := PushExpanded(chain, ancestors[i]);
      }
      assert ancestors[0..] == ancestors;
      if pid in procs {
        chain := PushExpanded(chain, procs[pid]);
      }
    }
  }
}
