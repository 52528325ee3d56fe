/** The process tree of hermian-core/src/proctree.rs: three maps changed by exec,
    prune and reap. `reap` garbage-collects exited processes with a walk that stops
    early at anything already collected and after 32 steps; the lemmas here say when
    that walk still keeps every ancestor of every live process, whatever order the
    hash map is iterated in. */
module ProcTree {
  import opened Common

  type Pid = nat
  type Time = int

  datatype PrevImage = PrevImage(comm: string, exe: string)

  datatype ProcInfo = ProcInfo(
    pid: Pid, ppid: Pid, uid: nat, comm: string, exe: string, start: nat, tty: int,
    container: bool, containerId: Option<string>, seenAt: Time, previous: seq<PrevImage>)

  datatype ExecEvent = ExecEvent(
    ts: Time, pid: Pid, ppid: Pid, uid: nat, comm: string, exe: string,
    deletedExe: bool, tty: int, container: bool, containerId: Option<string>)

  type Procs = map<Pid, ProcInfo>

  /** The three maps of `ProcessTree`, as a value. */
  datatype Tree = Tree(procs: Procs, exited: map<Pid, Time>, execAt: map<Pid, Time>)

  const EXIT_GRACE_SECS: int := 300
  const MAX_DEPTH: nat := 32
  const MAX_PREVIOUS: nat := 4

  predicate Valid(t: Tree) {
    && (forall p :: p in t.procs ==> t.procs[p].pid == p)
    && t.exited.Keys <= t.procs.Keys
    && t.execAt.Keys <= t.procs.Keys
  }

  // ---------------------------------------------------------------------
  // Ancestry, independently of how the code walks it
  // ---------------------------------------------------------------------

  /** One step up, never past init: pids 0 and 1 and untracked pids lead to 0. */
  function Up(procs: Procs, x: Pid): Pid {
    if x > 1 && x in procs then procs[x].ppid else 0
  }

  /** `k` steps up from `x`. */
  function Climb(procs: Procs, x: Pid, k: nat): Pid {
    if k == 0 then x else Up(procs, Climb(procs, x, k - 1))
  }

  /** `x` is a proper ancestor of `p` below init. */
  ghost predicate IsAncestor(procs: Procs, p: Pid, x: Pid)
    requires p in procs
  {
    x > 1 && exists k: nat :: Climb(procs, procs[p].ppid, k) == x
  }

  ghost function TrackedAncestors(procs: Procs, p: Pid): (r: set<Pid>)
    requires p in procs
  {
    set x | x in procs && IsAncestor(procs, p, x)
  }

  ghost predicate HasLiveDescendant(procs: Procs, live: set<Pid>, x: Pid)
    requires live <= procs.Keys
  {
    exists p :: p in live && IsAncestor(procs, p, x)
  }

  /** Every live process has at most 32 distinct tracked ancestors; parent cycles are
      allowed. */
  ghost predicate WithinDepth(procs: Procs, live: set<Pid>)
    requires live <= procs.Keys
  {
    forall p :: p in live ==> |TrackedAncestors(procs, p)| <= 32
  }

  // ---------------------------------------------------------------------
  // Reap
  // ---------------------------------------------------------------------

  /** The inner walk: collect `cur` and its parents until init, an already collected
      pid, or the depth cap. */
  function Walk(procs: Procs, cur: Pid, depth: nat, kept: set<Pid>): (r: set<Pid>)
    ensures kept <= r
    decreases MAX_DEPTH - depth
  {
    if cur > 1 && depth < MAX_DEPTH && cur !in kept then
      Walk(procs, if cur in procs then procs[cur].ppid else 0, depth + 1, kept + {cur})
    else kept
  }

  /** The outer loop over the live processes, in some iteration order. */
  function Collect(procs: Procs, order: seq<Pid>, kept: set<Pid>): (r: set<Pid>)
    requires forall p :: p in order ==> p in procs
  {
    if order == [] then kept
    else Walk(procs, procs[order[|order| - 1]].ppid, 0, Collect(procs, order[..|order| - 1], kept))
  }

  /** `exited` after marking the missing and forgetting the alive. */
  function Marked(t: Tree, alive: set<Pid>, now: Time): (r: map<Pid, Time>)
    ensures r.Keys == (t.procs.Keys + t.exited.Keys) - alive
  {
    map p | p in (t.procs.Keys + t.exited.Keys) - alive :: if p in t.exited then t.exited[p] else now
  }

  function Live(t: Tree, alive: set<Pid>): (r: set<Pid>)
    ensures r <= t.procs.Keys
  {
    set p | p in t.procs && p in alive
  }

  /** An order in which a loop may meet these pids: each of them, once. */
  ghost predicate IsOrder(order: seq<Pid>, live: set<Pid>) {
    && (forall p :: p in order <==> p in live)
    && forall i, j :: 0 <= i < j < |order| ==> order[i] != order[j]
  }

  /** What a reap drops, given the collected ancestors. */
  function Expired(marked: map<Pid, Time>, now: Time, kept: set<Pid>): set<Pid> {
    set p | p in marked && marked[p] < now - EXIT_GRACE_SECS && p !in kept
  }

  function Drop(t: Tree, gone: set<Pid>): Tree {
    Tree(t.procs - gone, t.exited - gone, t.execAt - gone)
  }

  function ReapWith(t: Tree, alive: set<Pid>, now: Time, order: seq<Pid>): Tree
    requires forall p :: p in order ==> p in t.procs
  {
    var marked := Marked(t, alive, now);
    Drop(t.(exited := marked), Expired(marked, now, Collect(t.procs, order, {})))
  }

  // ---------------------------------------------------------------------
  // Ancestors and chains, as the code reads them
  // ---------------------------------------------------------------------

  function AncestorsFrom(procs: Procs, pid: Pid, cur: Pid, depth: nat): (r: seq<ProcInfo>)
    requires depth <= MAX_DEPTH
    decreases MAX_DEPTH - depth
  {
    if depth == MAX_DEPTH || cur == 0 || cur !in procs || procs[cur].pid == pid then []
    else [procs[cur]] + AncestorsFrom(procs, pid, procs[cur].ppid, depth + 1)
  }

  /** What reading parents from `pid` gives, starting with its own parent. */
  function Ancestors(procs: Procs, pid: Pid): seq<ProcInfo> {
    if pid in procs then AncestorsFrom(procs, pid, procs[pid].ppid, 0) else []
  }

  /** One node per image a process ran, oldest first. */
  function Expand(info: ProcInfo): (r: seq<ProcInfo>)
    ensures |r| == |info.previous| + 1
  {
    var n := |info.previous|;
    seq(n, i requires 0 <= i < n =>
      info.(comm := info.previous[n - 1 - i].comm, exe := info.previous[n - 1 - i].exe, previous := []))
    + [info.(previous := [])]
  }

  /** Expansion of a nearest-first list, root first. */
  function ExpandRootFirst(infos: seq<ProcInfo>): seq<ProcInfo> {
    if infos == [] then [] else ExpandRootFirst(infos[1..]) + Expand(infos[0])
  }

  function Chain(procs: Procs, pid: Pid): seq<ProcInfo> {
    ExpandRootFirst(Ancestors(procs, pid)) + if pid in procs then Expand(procs[pid]) else []
  }

  function Concat(parts: seq<seq<ProcInfo>>): seq<ProcInfo> {
    if parts == [] then [] else parts[0] + Concat(parts[1..])
  }

  lemma {:induction false} ConcatLast(parts: seq<seq<ProcInfo>>, last: seq<ProcInfo>)
    ensures Concat(parts + [last]) == Concat(parts) + last
  {
    if parts == [] {
      assert parts + [last] == [last];
      assert Concat([last]) == last;
    } else {
      assert (parts + [last])[1..] == parts[1..] + [last];
      ConcatLast(parts[1..], last);
    }
  }

  /** What the chain of `pid` shows from left to right: first the farthest of its ancestors
      `above`, which are listed nearest first, and last the process itself. */
  function Line(above: seq<ProcInfo>, own: ProcInfo): seq<seq<ProcInfo>> {
    seq(|above| + 1, i requires 0 <= i <= |above| => if i < |above| then Expand(above[|above| - 1 - i]) else Expand(own))
  }

  lemma {:induction false} RootFirst(above: seq<ProcInfo>, own: ProcInfo)
    ensures Concat(Line(above, own)) == ExpandRootFirst(above) + Expand(own)
  {
    if above == [] {
      assert Line(above, own) == [Expand(own)];
      assert Concat([Expand(own)]) == Expand(own);
    } else {
      var near := above[0];
      assert Line(above, own) == Line(above[1..], near) + [Expand(own)];
      RootFirst(above[1..], near);
      ConcatLast(Line(above[1..], near), Expand(own));
    }
  }

  /** The chain is that line, whatever way it is put together. */
  lemma ChainIsLine(procs: Procs, pid: Pid)
    requires pid in procs
    ensures Chain(procs, pid) == Concat(Line(Ancestors(procs, pid), procs[pid]))
  {
    RootFirst(Ancestors(procs, pid), procs[pid]);
  }

  // ---------------------------------------------------------------------
  // The collected set is closed under parents
  // ---------------------------------------------------------------------

  /** Every collected process has its tracked parent collected too. */
  ghost predicate Closed(procs: Procs, kept: set<Pid>) {
    forall x :: x in kept && x in procs && procs[x].ppid > 1 && procs[x].ppid in procs ==> procs[x].ppid in kept
  }

  /** Closed, except that `edge` may still be missing: the state inside a walk. */
  ghost predicate ClosedBut(procs: Procs, kept: set<Pid>, edge: Pid) {
    forall x :: x in kept && x in procs && procs[x].ppid > 1 && procs[x].ppid in procs
                ==> procs[x].ppid in kept || procs[x].ppid == edge
  }

  lemma ClimbStep(procs: Procs, x: Pid, k: nat)
    ensures Climb(procs, x, k + 1) == Up(procs, Climb(procs, x, k))
  {
  }

  /** A walk that has collected `own` on its way from a live process, all of it tracked,
      ends closed: if it hits the depth cap it has already seen every ancestor. */
  lemma {:induction false} WalkCloses(procs: Procs, p: Pid, k: nat, kept: set<Pid>, own: set<Pid>)
    requires p in procs && |TrackedAncestors(procs, p)| <= MAX_DEPTH
    requires |own| == k <= MAX_DEPTH && own <= kept && own <= TrackedAncestors(procs, p)
    requires ClosedBut(procs, kept, Climb(procs, procs[p].ppid, k))
    ensures Closed(procs, Walk(procs, Climb(procs, procs[p].ppid, k), k, kept))
    ensures var cur := Climb(procs, procs[p].ppid, k);
            cur > 1 && cur in procs ==> cur in Walk(procs, cur, k, kept)
    decreases MAX_DEPTH - k
  {
    var cur := Climb(procs, procs[p].ppid, k);
    if cur > 1 && cur in procs {
      assert cur in TrackedAncestors(procs, p);
      if k == MAX_DEPTH {
        SubsetCardinality(own, TrackedAncestors(procs, p));
      } else if cur !in kept {
        ClimbStep(procs, procs[p].ppid, k);
        WalkCloses(procs, p, k + 1, kept + {cur}, own + {cur});
      }
    } else if cur > 1 && k < MAX_DEPTH && cur !in kept {
      assert Walk(procs, cur, k, kept) == kept + {cur};
    }
  }

  lemma {:induction false} CollectCloses(procs: Procs, order: seq<Pid>)
    requires forall p :: p in order ==> p in procs && |TrackedAncestors(procs, p)| <= MAX_DEPTH
    ensures Closed(procs, Collect(procs, order, {}))
    ensures forall p :: p in order && procs[p].ppid > 1 && procs[p].ppid in procs
                        ==> procs[p].ppid in Collect(procs, order, {})
  {
    if order != [] {
      var last := order[|order| - 1];
      CollectCloses(procs, order[..|order| - 1]);
      WalkCloses(procs, last, 0, Collect(procs, order[..|order| - 1], {}), {});
      assert order == order[..|order| - 1] + [last];
    }
  }

  lemma {:induction false} ClosedHoldsAncestors(procs: Procs, kept: set<Pid>, x: Pid, k: nat)
    requires Closed(procs, kept)
    requires x > 1 && x in procs ==> x in kept
    ensures var y := Climb(procs, x, k); y > 1 && y in procs ==> y in kept
  {
    if k > 0 {
      ClosedHoldsAncestors(procs, kept, x, k - 1);
    }
  }

  /** Completeness of the collection within the depth bound. */
  lemma CollectComplete(procs: Procs, order: seq<Pid>, p: Pid, x: Pid)
    requires forall q :: q in order ==> q in procs && |TrackedAncestors(procs, q)| <= MAX_DEPTH
    requires p in order && x in procs && IsAncestor(procs, p, x)
    ensures x in Collect(procs, order, {})
  {
    CollectCloses(procs, order);
    var k: nat :| Climb(procs, procs[p].ppid, k) == x;
    ClosedHoldsAncestors(procs, Collect(procs, order, {}), procs[p].ppid, k);
  }

  /** Soundness, with no depth bound: whatever a walk adds is an ancestor. */
  lemma {:induction false} WalkSound(procs: Procs, p: Pid, k: nat, kept: set<Pid>, x: Pid)
    requires p in procs && k <= MAX_DEPTH
    requires x in Walk(procs, Climb(procs, procs[p].ppid, k), k, kept)
    ensures x in kept || IsAncestor(procs, p, x)
    decreases MAX_DEPTH - k
  {
    var cur := Climb(procs, procs[p].ppid, k);
    if cur > 1 && k < MAX_DEPTH && cur !in kept {
      assert IsAncestor(procs, p, cur);
      ClimbStep(procs, procs[p].ppid, k);
      WalkSound(procs, p, k + 1, kept + {cur}, x);
    }
  }

  lemma {:induction false} CollectSound(procs: Procs, order: seq<Pid>, x: Pid)
    requires forall p :: p in order ==> p in procs
    requires x in Collect(procs, order, {})
    ensures exists p :: p in order && IsAncestor(procs, p, x)
  {
    if order != [] {
      var last := order[|order| - 1];
      var before := Collect(procs, order[..|order| - 1], {});
      WalkSound(procs, last, 0, before, x);
      if x in before {
        CollectSound(procs, order[..|order| - 1], x);
        var q :| q in order[..|order| - 1] && IsAncestor(procs, q, x);
        assert q in order;
      }
    }
  }

  // ---------------------------------------------------------------------
  // What a reap removes, and what it cannot change
  // ---------------------------------------------------------------------

  lemma ReapValid(t: Tree, alive: set<Pid>, now: Time, order: seq<Pid>)
    requires Valid(t) && IsOrder(order, Live(t, alive))
    ensures Valid(ReapWith(t, alive, now, order))
  {
  }

  /** `p` is missing, and an earlier reap noted so more than 300 seconds ago. */
  predicate Due(t: Tree, alive: set<Pid>, now: Time, p: Pid) {
    p !in alive && p in t.exited && t.exited[p] < now - 300
  }

  /** What a reap leaves of one process: one that is missed for the first time is kept and
      noted as gone since `now`, an earlier note stays as it is, a live process has none;
      and what goes, goes from all three maps. */
  lemma ReapNotes(t: Tree, alive: set<Pid>, now: Time, order: seq<Pid>, p: Pid)
    requires Valid(t) && IsOrder(order, Live(t, alive)) && p in t.procs
    ensures var t' := ReapWith(t, alive, now, order);
            && (p in alive ==> p in t'.procs && p !in t'.exited)
            && (p !in alive && p !in t.exited ==> p in t'.procs && p in t'.exited && t'.exited[p] == now)
            && (p !in alive && p in t.exited && p in t'.procs ==> p in t'.exited && t'.exited[p] == t.exited[p])
            && (p in t'.procs ==> t'.procs[p] == t.procs[p] && (p in t'.execAt <==> p in t.execAt))
            && (p in t'.execAt ==> t'.execAt[p] == t.execAt[p])
            && (p !in t'.procs ==> p !in t'.exited && p !in t'.execAt)
  {
  }

  /** Whatever the depth: a reap never drops a live process or one still in its grace
      period, and always drops an expired process with no live descendant. */
  lemma ReapBounds(t: Tree, alive: set<Pid>, now: Time, order: seq<Pid>, p: Pid)
    requires Valid(t) && IsOrder(order, Live(t, alive)) && p in t.procs
    ensures p !in ReapWith(t, alive, now, order).procs ==> Due(t, alive, now, p)
    ensures Due(t, alive, now, p) && !HasLiveDescendant(t.procs, Live(t, alive), p)
            ==> p !in ReapWith(t, alive, now, order).procs
  {
    if p in Collect(t.procs, order, {}) {
      CollectSound(t.procs, order, p);
    }
  }

  /** Within the depth bound a reap drops exactly the processes that exited more than
      the grace period ago and have no live descendant. */
  lemma ReapRemovesExactly(t: Tree, alive: set<Pid>, now: Time, order: seq<Pid>)
    requires Valid(t) && IsOrder(order, Live(t, alive)) && WithinDepth(t.procs, Live(t, alive))
    ensures var t' := ReapWith(t, alive, now, order);
            forall p :: p in t.procs ==>
              (p !in t'.procs <==> Due(t, alive, now, p) && !HasLiveDescendant(t.procs, Live(t, alive), p))
    ensures var t' := ReapWith(t, alive, now, order);
            forall p :: p in t'.procs ==> p in t.procs && t'.procs[p] == t.procs[p]
  {
    forall p | p in t.procs && HasLiveDescendant(t.procs, Live(t, alive), p)
      ensures p in Collect(t.procs, order, {})
    {
      var q :| q in Live(t, alive) && IsAncestor(t.procs, q, p);
      CollectComplete(t.procs, order, q, p);
    }
    forall p | p in t.procs
      ensures Due(t, alive, now, p) && !HasLiveDescendant(t.procs, Live(t, alive), p)
              ==> p !in ReapWith(t, alive, now, order).procs
    {
      ReapBounds(t, alive, now, order, p);
    }
  }

  lemma {:induction false} SameAncestors(procs: Procs, gone: set<Pid>, p: Pid, k: nat)
    requires p in procs && k <= MAX_DEPTH
    requires 1 !in gone && (1 in procs ==> procs[1].ppid == 0)
    requires forall x :: x in gone && x in procs ==> !IsAncestor(procs, p, x)
    ensures var cur := Climb(procs, procs[p].ppid, k);
            AncestorsFrom(procs - gone, p, cur, k) == AncestorsFrom(procs, p, cur, k)
    decreases MAX_DEPTH - k
  {
    var cur := Climb(procs, procs[p].ppid, k);
    if k < MAX_DEPTH && cur != 0 && cur in procs {
      assert cur > 1 ==> IsAncestor(procs, p, cur);
      ClimbStep(procs, procs[p].ppid, k);
      SameAncestors(procs, gone, p, k + 1);
    }
  }

  /** The main guarantee: within the depth bound, with init alive at the root, a reap
      changes neither the ancestors nor the chain of any live process. */
  lemma ReapKeepsAncestry(t: Tree, alive: set<Pid>, now: Time, order: seq<Pid>, p: Pid)
    requires Valid(t) && IsOrder(order, Live(t, alive)) && WithinDepth(t.procs, Live(t, alive))
    requires 1 in alive && (1 in t.procs ==> t.procs[1].ppid == 0)
    requires p in Live(t, alive)
    ensures var t' := ReapWith(t, alive, now, order);
            && p in t'.procs && t'.procs[p] == t.procs[p]
            && Ancestors(t'.procs, p) == Ancestors(t.procs, p)
            && Chain(t'.procs, p) == Chain(t.procs, p)
  {
    var gone := Expired(Marked(t, alive, now), now, Collect(t.procs, order, {}));
    forall x | x in gone && x in t.procs
      ensures !IsAncestor(t.procs, p, x)
    {
      if IsAncestor(t.procs, p, x) {
        CollectComplete(t.procs, order, p, x);
      }
    }
    SameAncestors(t.procs, gone, p, 0);
  }

  lemma {:induction false} ClimbInSubtree(procs: Procs, gone: set<Pid>, x: Pid, k: nat)
    ensures var y := Climb(procs - gone, x, k); y == 0 || y == Climb(procs, x, k)
  {
    if k > 0 {
      ClimbInSubtree(procs, gone, x, k - 1);
    }
  }

  lemma SubtreeWithinDepth(procs: Procs, gone: set<Pid>)
    requires WithinDepth(procs, procs.Keys)
    ensures WithinDepth(procs - gone, (procs - gone).Keys)
  {
    forall p | p in procs - gone
      ensures |TrackedAncestors(procs - gone, p)| <= MAX_DEPTH
    {
      forall x | x in TrackedAncestors(procs - gone, p)
        ensures x in TrackedAncestors(procs, p)
      {
        var k: nat :| Climb(procs - gone, (procs - gone)[p].ppid, k) == x;
        ClimbInSubtree(procs, gone, procs[p].ppid, k);
      }
      SubsetCardinality(TrackedAncestors(procs - gone, p), TrackedAncestors(procs, p));
    }
  }

  datatype ReapCall = ReapCall(alive: set<Pid>, now: Time, order: seq<Pid>)

  /** `last` is reached from `t` by these reaps, each with some iteration order of its own. */
  ghost predicate ReapRun(t: Tree, calls: seq<ReapCall>, last: Tree)
    decreases |calls|
  {
    if calls == [] then last == t
    else
      var c := calls[0];
      && IsOrder(c.order, Live(t, c.alive))
      && ReapRun(ReapWith(t, c.alive, c.now, c.order), calls[1..], last)
  }

  /** What a process alive throughout relies on from one reap to the next. */
  ghost predicate Settled(t: Tree, p: Pid) {
    && Valid(t) && WithinDepth(t.procs, t.procs.Keys)
    && p in t.procs && (1 in t.procs ==> t.procs[1].ppid == 0)
  }

  lemma ReapSettled(t: Tree, c: ReapCall, p: Pid)
    requires Settled(t, p) && IsOrder(c.order, Live(t, c.alive)) && 1 in c.alive && p in c.alive
    ensures var t' := ReapWith(t, c.alive, c.now, c.order);
            Settled(t', p) && Chain(t'.procs, p) == Chain(t.procs, p)
  {
    ReapKeepsAncestry(t, c.alive, c.now, c.order, p);
    ReapValid(t, c.alive, c.now, c.order);
    SubtreeWithinDepth(t.procs, Expired(Marked(t, c.alive, c.now), c.now, Collect(t.procs, c.order, {})));
  }

  /** Over any number of reaps, a process alive throughout keeps its whole chain. */
  lemma {:induction false} ReapRunKeepsChain(t: Tree, calls: seq<ReapCall>, last: Tree, p: Pid)
    requires Settled(t, p) && ReapRun(t, calls, last)
    requires forall c :: c in calls ==> 1 in c.alive && p in c.alive
    ensures p in last.procs && Chain(last.procs, p) == Chain(t.procs, p)
    decreases |calls|
  {
    if calls != [] {
      assert calls[0] in calls;
      ReapSettled(t, calls[0], p);
      ReapRunKeepsChain(ReapWith(t, calls[0].alive, calls[0].now, calls[0].order), calls[1..], last, p);
    }
  }

  /** The reading loop follows recorded parents and stops only at the cap, at pid 0, at
      an untracked parent or back at `pid`. */
  lemma {:induction false} AncestorsFollowParents(procs: Procs, pid: Pid, k: nat, i: nat)
    requires pid in procs && k <= MAX_DEPTH
    requires forall q :: q in procs ==> procs[q].pid == q
    requires 1 in procs ==> procs[1].ppid == 0
    ensures var r := AncestorsFrom(procs, pid, Climb(procs, procs[pid].ppid, k), k);
            && |r| <= MAX_DEPTH - k
            && (i < |r| ==> var x := Climb(procs, procs[pid].ppid, k + i);
                            x in procs && x != 0 && x != pid && r[i] == procs[x])
            && (|r| < MAX_DEPTH - k ==> var x := Climb(procs, procs[pid].ppid, k + |r|);
                            x == 0 || x == pid || x !in procs)
    decreases MAX_DEPTH - k
  {
    var cur := Climb(procs, procs[pid].ppid, k);
    if k < MAX_DEPTH && cur != 0 && cur in procs && cur != pid {
      ClimbStep(procs, procs[pid].ppid, k);
      AncestorsFollowParents(procs, pid, k + 1, if i > 0 then i - 1 else 0);
    }
  }

  // ---------------------------------------------------------------------
  // The bound is tight
  // ---------------------------------------------------------------------

  function Plain(pid: Pid, ppid: Pid): ProcInfo {
    ProcInfo(pid, ppid, 0, "", "", 0, 0, false, None, 0, [])
  }

  function Span(lo: nat, hi: nat): (r: set<nat>)
    ensures forall x :: x in r <==> lo <= x < hi
    decreases hi - lo
  {
    if lo >= hi then {} else {lo} + Span(lo + 1, hi)
  }

  /** A live pid 2 at the foot of a dead line 3, 4, ..., `top` under init, and a live
      pid `top + 1` that joins the line at 4. */
  function DeepProcs(top: nat): (r: Procs)
    ensures r.Keys == Span(1, top + 2)
    ensures forall p :: p in r ==> r[p] == Plain(p, DeepParent(top, p))
  {
    map p | p in Span(1, top + 2) :: Plain(p, DeepParent(top, p))
  }

  function DeepParent(top: nat, p: Pid): Pid {
    if p == 1 then 0 else if p == top then 1 else if p == top + 1 then 4 else p + 1
  }

  function DeepTree(top: nat): Tree {
    var dead := Span(3, top + 1);
    Tree(DeepProcs(top), map p | p in dead :: -1000, map[])
  }

  lemma {:induction false} DeepClimb(top: nat, start: Pid, k: nat)
    requires 2 <= start && start + k <= top
    ensures Climb(DeepProcs(top), start, k) == start + k
  {
    if k > 0 {
      DeepClimb(top, start, k - 1);
    }
  }

  lemma {:induction false} WalkReach(procs: Procs, start: Pid, k: nat, kept: set<Pid>, x: Pid)
    requires k <= MAX_DEPTH && x in Walk(procs, Climb(procs, start, k), k, kept)
    ensures x in kept || exists j: nat :: j < MAX_DEPTH && Climb(procs, start, j) == x
    decreases MAX_DEPTH - k
  {
    var cur := Climb(procs, start, k);
    if cur > 1 && k < MAX_DEPTH && cur !in kept {
      ClimbStep(procs, start, k);
      WalkReach(procs, start, k + 1, kept + {cur}, x);
    }
  }

  lemma {:induction false} DeepReads35(top: nat, d: nat)
    requires 35 <= top && d <= 31
    ensures DeepProcs(top)[35] in AncestorsFrom(DeepProcs(top), top + 1, 4 + d, d)
    decreases 31 - d
  {
    if d < 31 {
      DeepReads35(top, d + 1);
    }
  }

  lemma {:induction false} AncestorsTracked(procs: Procs, pid: Pid, cur: Pid, depth: nat, a: ProcInfo)
    requires depth <= MAX_DEPTH && a in AncestorsFrom(procs, pid, cur, depth)
    ensures a in procs.Values
    decreases MAX_DEPTH - depth
  {
    if a != procs[cur] {
      AncestorsTracked(procs, pid, procs[cur].ppid, depth + 1, a);
    }
  }

  function DeepOrder(top: nat): seq<Pid> {
    [1] + [2] + [top + 1]
  }

  lemma DeepKept(top: nat, start: Pid)
    requires 35 <= top && start == 3
    ensures Collect(DeepProcs(top), DeepOrder(top), {}) == Walk(DeepProcs(top), start, 0, {})
  {
    var procs := DeepProcs(top);
    var one, two := [1], [1] + [2];
    assert DeepOrder(top)[..2] == two && two[..1] == one && one[..0] == [];
    assert Collect(procs, one, {}) == {};
    assert Collect(procs, two, {}) == Walk(procs, start, 0, {});
    var next := start + 1;
    assert Walk(procs, start, 0, {}) == Walk(procs, next, 1, {} + {start});
    assert next in Walk(procs, next, 1, {} + {start});
  }

  lemma DeepMisses35(top: nat, start: Pid)
    requires 35 <= top && start == 3
    ensures 35 !in Walk(DeepProcs(top), start, 0, {})
  {
    var procs := DeepProcs(top);
    assert Climb(procs, start, 0) == start;
    if 35 in Walk(procs, start, 0, {}) {
      WalkReach(procs, start, 0, {}, 35);
      var j: nat :| j < MAX_DEPTH && Climb(procs, start, j) == 35;
      DeepClimb(top, start, j);
    }
  }

  lemma DeepValid(top: nat)
    requires 35 <= top
    ensures Valid(DeepTree(top)) && IsOrder(DeepOrder(top), Live(DeepTree(top), {1, 2, top + 1}))
  {
    assert DeepOrder(top) == [1, 2, top + 1];
  }

  lemma DeepReap(top: nat)
    requires 35 <= top
    ensures Valid(DeepTree(top)) && IsOrder(DeepOrder(top), Live(DeepTree(top), {1, 2, top + 1}))
    ensures var procs' := ReapWith(DeepTree(top), {1, 2, top + 1}, 0, DeepOrder(top)).procs;
            && 35 !in procs' && top + 1 in procs' && procs'[top + 1] == DeepProcs(top)[top + 1]
            && forall p :: p in procs' ==> procs'[p].pid == p
  {
    DeepValid(top);
    DeepKept(top, 3);
    DeepMisses35(top, 3);
  }

  lemma DeepAncestorsDiffer(top: nat, procs': Procs, join: Pid)
    requires 35 <= top && join == 4 && 35 !in procs'
    requires top + 1 in procs' && procs'[top + 1] == DeepProcs(top)[top + 1]
    requires forall p :: p in procs' ==> procs'[p].pid == p
    ensures Ancestors(procs', top + 1) != Ancestors(DeepProcs(top), top + 1)
  {
    var procs := DeepProcs(top);
    var d := join - 4;
    DeepReads35(top, d);
    assert procs[35] in AncestorsFrom(procs, top + 1, join, d);
    if procs[35] in AncestorsFrom(procs', top + 1, join, d) {
      AncestorsTracked(procs', top + 1, join, d, procs[35]);
    }
  }

  /** For every line longer than the bound a reap can cut the chain of a live process:
      the walk from pid 2 stops one short of 35, and the walk from the other live pid
      stops at once because 4 is already collected. */
  lemma ReapCanCutDeepChain(top: nat)
    requires 35 <= top
    ensures Valid(DeepTree(top)) && IsOrder(DeepOrder(top), Live(DeepTree(top), {1, 2, top + 1}))
    ensures DeepTree(top).procs[1].ppid == 0
    ensures Ancestors(ReapWith(DeepTree(top), {1, 2, top + 1}, 0, DeepOrder(top)).procs, top + 1)
            != Ancestors(DeepTree(top).procs, top + 1)
  {
    DeepReap(top);
    DeepAncestorsDiffer(top, ReapWith(DeepTree(top), {1, 2, top + 1}, 0, DeepOrder(top)).procs, 4);
  }

  lemma {:induction false} DeepRange(top: nat, start: Pid, k: nat)
    requires start == 3 <= top
    ensures var x := Climb(DeepProcs(top), start, k); x <= 1 || 3 <= x <= top
  {
    if k > 0 {
      DeepRange(top, start, k - 1);
    }
  }

  lemma {:induction false} SpanCardinality(lo: nat, hi: nat)
    requires lo <= hi
    ensures |Span(lo, hi)| == hi - lo
    decreases hi - lo
  {
    if lo < hi {
      SpanCardinality(lo + 1, hi);
      assert Span(lo, hi) == {lo} + Span(lo + 1, hi);
    }
  }

  /** With `top == 35` the deepest live process has 33 ancestors, one over the bound. */
  lemma DeepCount(top: nat, start: Pid)
    requires 35 <= top && start == 3
    ensures TrackedAncestors(DeepProcs(top), 2) == Span(start, top + 1)
    ensures |TrackedAncestors(DeepProcs(top), 2)| == top - 2
  {
    var procs := DeepProcs(top);
    forall x
      ensures x in TrackedAncestors(procs, 2) <==> x in Span(start, top + 1)
    {
      if x in TrackedAncestors(procs, 2) {
        var k: nat :| Climb(procs, procs[2].ppid, k) == x;
        DeepRange(top, start, k);
      }
      if x in Span(start, top + 1) {
        DeepClimb(top, start, x - start);
      }
    }
    SpanCardinality(start, top + 1);
  }

  /** The ancestors of the process that joins the line at 4 are the rest of the line. */
  lemma JoinCount(top: nat, start: Pid, p: Pid)
    requires 35 <= top && start == 4 && p == top + 1
    ensures TrackedAncestors(DeepProcs(top), p) == Span(start, p)
    ensures |TrackedAncestors(DeepProcs(top), p)| == top - 3
  {
    var procs := DeepProcs(top);
    forall x
      ensures x in TrackedAncestors(procs, p) <==> x in Span(start, p)
    {
      if x in TrackedAncestors(procs, p) {
        var k: nat :| Climb(procs, procs[p].ppid, k) == x;
        JoinRange(top, start, k);
      }
      if x in Span(start, p) {
        DeepClimb(top, start, x - start);
      }
    }
    SpanCardinality(start, p);
  }

  lemma {:induction false} JoinRange(top: nat, start: Pid, k: nat)
    requires start == 4 <= top
    ensures var x := Climb(DeepProcs(top), start, k); x <= 1 || 4 <= x <= top
  {
    if k > 0 {
      JoinRange(top, start, k - 1);
    }
  }

  /** That tree after a reap in the losing order. */
  ghost function DeepReaped(top: nat): Tree
    requires 35 <= top
  {
    DeepValid(top);
    ReapWith(DeepTree(top), {1, 2, top + 1}, 0, DeepOrder(top))
  }

  /** A process within the bound is not safe if another is beyond it: with `top == 35` the
      one that joins the line has 32 ancestors, and a reap changes them. */
  lemma OwnBoundNotEnough(top: nat, p: Pid)
    requires top == 35 && p == top + 1
    ensures |TrackedAncestors(DeepProcs(top), p)| == 32
    ensures Ancestors(DeepReaped(top).procs, p) != Ancestors(DeepTree(top).procs, p)
  {
    JoinCount(top, 4, p);
    ReapCanCutDeepChain(top);
  }

  // ---------------------------------------------------------------------
  // Exec
  // ---------------------------------------------------------------------

  const DELETED: string := " (deleted)"

  function ShownExe(ev: ExecEvent): string {
    if ev.deletedExe && !EndsWith(ev.exe, "(deleted)") then ev.exe + DELETED else ev.exe
  }

  predicate EndsWith(s: string, suffix: string) {
    |suffix| <= |s| && s[|s| - |suffix|..] == suffix
  }

  predicate SameImage(t: Tree, ev: ExecEvent)
    requires ev.pid in t.procs
  {
    t.procs[ev.pid].comm == ev.comm && t.procs[ev.pid].exe == ev.exe
  }

  function History(t: Tree, ev: ExecEvent): seq<PrevImage> {
    if ev.pid in t.exited || ev.pid !in t.procs then []
    else
      var prior := t.procs[ev.pid];
      if prior.ppid != ev.ppid then []
      else if SameImage(t, ev) then prior.previous
      else [PrevImage(prior.comm, prior.exe)]
           + prior.previous[..if |prior.previous| < MAX_PREVIOUS - 1 then |prior.previous| else MAX_PREVIOUS - 1]
  }

  function Exec(t: Tree, ev: ExecEvent): Tree {
    var info := ProcInfo(ev.pid, ev.ppid, ev.uid, ev.comm, ShownExe(ev), if ev.ts > 0 then ev.ts else 0,
                         ev.tty, ev.container, ev.containerId, ev.ts, History(t, ev));
    Tree(t.procs[ev.pid := info], t.exited - {ev.pid}, t.execAt[ev.pid := ev.ts])
  }

  /** The images a process ran, oldest first. */
  function Images(info: ProcInfo): (r: seq<PrevImage>)
    ensures |r| == |info.previous| + 1
  {
    var n := |info.previous|;
    seq(n + 1, i requires 0 <= i <= n =>
      if i < n then info.previous[n - 1 - i] else PrevImage(info.comm, info.exe))
  }

  /** The chain shows one node per image, in that order, each carrying the real pid. */
  lemma ExpandShowsImages(info: ProcInfo, i: nat)
    requires i < |Expand(info)|
    ensures Expand(info)[i] == info.(comm := Images(info)[i].comm, exe := Images(info)[i].exe, previous := [])
  {
  }

  /** An exec by the process that holds the pid appends its image to what the chain
      shows, forgetting only the oldest beyond four; re-running the same image replaces
      the last node; a reused pid starts a new history. */
  lemma ExecHistory(t: Tree, ev: ExecEvent)
    requires Valid(t)
    ensures Valid(Exec(t, ev)) && ev.pid !in Exec(t, ev).exited
    ensures Exec(t, ev).procs - {ev.pid} == t.procs - {ev.pid}
    ensures var after := Images(Exec(t, ev).procs[ev.pid]);
            var image := PrevImage(ev.comm, after[|after| - 1].exe);
            if ev.pid in t.exited || ev.pid !in t.procs || t.procs[ev.pid].ppid != ev.ppid then after == [image]
            else
              var before := Images(t.procs[ev.pid]);
              if t.procs[ev.pid].comm == ev.comm && t.procs[ev.pid].exe == ev.exe then after == before[..|before| - 1] + [image]
              else after == before[if |before| > 4 then |before| - 4 else 0..] + [image]
  {
    var info := Exec(t, ev).procs[ev.pid];
    assert info.previous == History(t, ev) && info.comm == ev.comm && info.exe == ShownExe(ev);
  }

  /** What is seen of a process after its exec: its ancestors start with the recorded
      parent, and the last node of its chain is the event, with a deleted file marked as
      such once. Exec times of other processes and their exits are as before. */
  lemma ExecSeen(t: Tree, ev: ExecEvent)
    requires Valid(t)
    ensures var t' := Exec(t, ev);
            var above := Ancestors(t'.procs, ev.pid);
            ev.ppid in t.procs && ev.ppid != 0 && ev.ppid != ev.pid ==> |above| > 0 && above[0] == t.procs[ev.ppid]
    ensures var chain := Chain(Exec(t, ev).procs, ev.pid);
            && |chain| > 0
            && var seen := chain[|chain| - 1];
               && seen.pid == ev.pid && seen.ppid == ev.ppid && seen.uid == ev.uid && seen.comm == ev.comm
               && seen.tty == ev.tty && seen.container == ev.container && seen.containerId == ev.containerId
               && seen.seenAt == ev.ts && (ev.ts >= 0 ==> seen.start == ev.ts) && (ev.ts < 0 ==> seen.start == 0)
               && seen.exe == if ev.deletedExe && (|ev.exe| < 9 || ev.exe[|ev.exe| - 9..] != "(deleted)")
                              then ev.exe + " (deleted)" else ev.exe
    ensures Exec(t, ev).execAt == t.execAt[ev.pid := ev.ts] && Exec(t, ev).exited == t.exited - {ev.pid}
  {
    var procs := Exec(t, ev).procs;
    var chain := Chain(procs, ev.pid);
    assert chain == ExpandRootFirst(Ancestors(procs, ev.pid)) + Expand(procs[ev.pid]);
    assert chain[|chain| - 1] == procs[ev.pid].(previous := []);
  }
}
