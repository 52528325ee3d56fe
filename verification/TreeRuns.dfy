/** The grace period over whole runs of a process tree: execs, inserts, refreshes, removals,
    prunes and reaps in any order, each reap with its own set of live pids, clock and
    iteration order. What a reap drops was missing at every reap from one more than 300
    seconds ago on. */
module TreeRuns {
  import opened Common
  import opened ProcTree

  datatype Op =
    | Reaping(alive: set<Pid>, now: Time, order: seq<Pid>)
    | Execing(ev: ExecEvent)
    | Inserting(info: ProcInfo)
    | Touching(pid: Pid, at: Time)
    | Removing(pid: Pid)
    | Pruning(cutoff: Time)

  /** A reap walks the live processes in some order. */
  ghost predicate Can(t: Tree, op: Op) {
    op.Reaping? ==> IsOrder(op.order, Live(t, op.alive))
  }

  ghost function Does(t: Tree, op: Op): Tree
    requires Can(t, op)
  {
    match op
    case Reaping(alive, now, order) => ReapWith(t, alive, now, order)
    case Execing(ev) => Exec(t, ev)
    case Inserting(info) => Tree(t.procs[info.pid := info], t.exited - {info.pid}, t.execAt)
    case Touching(pid, at) => if pid in t.procs then t.(procs := t.procs[pid := t.procs[pid].(seenAt := at)]) else t
    case Removing(pid) => Drop(t, {pid})
    case Pruning(cutoff) => Drop(t, set p | p in t.procs && t.procs[p].seenAt < cutoff)
  }

  ghost predicate Turn(before: Tree, op: Op, t: Tree) {
    Can(before, op) && t == Does(before, op)
  }

  /** `t` is reached from an empty tree by these operations. */
  ghost predicate Run(ops: seq<Op>, t: Tree)
    decreases |ops|
  {
    if ops == [] then t == Tree(map[], map[], map[])
    else
      var init, op := ops[..|ops| - 1], ops[|ops| - 1];
      exists before :: Run(init, before) && Turn(before, op, t)
  }

  /** The operation shows that `p` runs: a reap that finds it alive, an exec or an insert. */
  predicate Sees(op: Op, p: Pid) {
    match op
    case Reaping(alive, _, _) => p in alive
    case Execing(ev) => ev.pid == p
    case Inserting(info) => info.pid == p
    case _ => false
  }

  /** The `i`-th operation is a reap, and nothing from there on shows that `p` runs. */
  ghost predicate MissedFrom(ops: seq<Op>, p: Pid, i: nat) {
    i < |ops| && ops[i].Reaping? && forall j :: i <= j < |ops| ==> !Sees(ops[j], p)
  }

  /** It is the first such reap. */
  ghost predicate FirstMissed(ops: seq<Op>, p: Pid, i: nat) {
    MissedFrom(ops, p, i) && forall j: nat :: j < i ==> !MissedFrom(ops, p, j)
  }

  lemma MissedStep(ops: seq<Op>, op: Op, p: Pid, i: nat)
    requires i <= |ops|
    ensures MissedFrom(ops + [op], p, i) <==> !Sees(op, p) && if i < |ops| then MissedFrom(ops, p, i) else op.Reaping?
  {
    if MissedFrom(ops + [op], p, i) {
      assert (ops + [op])[|ops|] == op;
      forall j | i <= j < |ops|
        ensures !Sees(ops[j], p)
      {
        assert (ops + [op])[j] == ops[j];
      }
    }
  }

  /** What the exit marks say after these operations. */
  ghost predicate Noted(ops: seq<Op>, t: Tree, p: Pid) {
    p in t.procs ==>
      && (p in t.exited ==> exists i: nat :: FirstMissed(ops, p, i) && t.exited[p] == ops[i].now)
      && (p !in t.exited ==> forall i: nat :: !MissedFrom(ops, p, i))
  }

  lemma FirstStep(ops: seq<Op>, op: Op, p: Pid, i: nat)
    requires i < |ops| && !Sees(op, p) && FirstMissed(ops, p, i)
    ensures FirstMissed(ops + [op], p, i) && (ops + [op])[i] == ops[i]
  {
    MissedStep(ops, op, p, i);
    forall j: nat | j < i
      ensures !MissedFrom(ops + [op], p, j)
    {
      MissedStep(ops, op, p, j);
    }
  }

  lemma NotedStep(ops: seq<Op>, op: Op, t: Tree, p: Pid)
    requires Valid(t) && Noted(ops, t, p) && Can(t, op)
    ensures Noted(ops + [op], Does(t, op), p)
  {
    var ops', t' := ops + [op], Does(t, op);
    if p in t'.procs {
      forall i: nat | i <= |ops|
        ensures MissedFrom(ops', p, i) <==> !Sees(op, p) && if i < |ops| then MissedFrom(ops, p, i) else op.Reaping?
      {
        MissedStep(ops, op, p, i);
      }
      if p in t'.exited {
        if p in t.exited {
          var i: nat :| FirstMissed(ops, p, i) && t.exited[p] == ops[i].now;
          FirstStep(ops, op, p, i);
        } else {
          assert FirstMissed(ops', p, |ops|);
        }
      }
    }
  }

  lemma ValidStep(t: Tree, op: Op)
    requires Valid(t) && Can(t, op)
    ensures Valid(Does(t, op))
  {
  }

  /** Over every run the exit mark of a tracked process is the time of the first reap since
      it was last seen, and there is none exactly if there was no such reap. */
  lemma {:induction false} ExitedSince(ops: seq<Op>, t: Tree, p: Pid)
    requires Run(ops, t)
    ensures Valid(t) && Noted(ops, t, p)
    decreases |ops|
  {
    if ops != [] {
      var init, op := ops[..|ops| - 1], ops[|ops| - 1];
      var before :| Run(init, before) && Turn(before, op, t);
      ExitedSince(init, before, p);
      NotedStep(init, op, before, p);
      ValidStep(before, op);
      assert ops == init + [op];
    }
  }

  /** What a reap drops at `now` has been missing, and unseen, since a reap more than 300
      seconds before. */
  lemma DroppedWasMissing(ops: seq<Op>, t: Tree, alive: set<Pid>, now: Time, order: seq<Pid>, p: Pid)
    requires Run(ops, t) && IsOrder(order, Live(t, alive))
    requires p in t.procs && p !in ReapWith(t, alive, now, order).procs
    ensures p !in alive && exists i: nat :: FirstMissed(ops, p, i) && ops[i].now < now - 300
  {
    ExitedSince(ops, t, p);
    ReapBounds(t, alive, now, order, p);
  }

  /** Within the depth bound that, with no live process below it, is when it goes. */
  lemma DroppedExactly(ops: seq<Op>, t: Tree, alive: set<Pid>, now: Time, order: seq<Pid>, p: Pid)
    requires Run(ops, t) && IsOrder(order, Live(t, alive)) && WithinDepth(t.procs, Live(t, alive)) && p in t.procs
    ensures p !in ReapWith(t, alive, now, order).procs <==>
            && p !in alive && !HasLiveDescendant(t.procs, Live(t, alive), p)
            && exists i: nat :: FirstMissed(ops, p, i) && ops[i].now < now - 300
  {
    ExitedSince(ops, t, p);
    ReapRemovesExactly(t, alive, now, order);
    forall i: nat, k: nat | FirstMissed(ops, p, i) && FirstMissed(ops, p, k)
      ensures i == k
    {
    }
  }
}
