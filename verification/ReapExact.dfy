/** When a reap spares a process, exactly, at any depth and for every order in which the
    hash map may be walked. The walk of one live process can end at the cap of 32 steps and
    hide what lies above from a later walk, which stops at anything already collected;
    `Secure` is the condition on the recorded parents under which that cannot happen. */
module ReapExact {
  import opened Common
  import opened ProcTree

  // ---------------------------------------------------------------------
  // The way up from a process
  // ---------------------------------------------------------------------

  /** The pid `i` steps above the parent of `q`. */
  function Way(procs: Procs, q: Pid, i: nat): Pid
    requires q in procs
  {
    Climb(procs, procs[q].ppid, i)
  }

  /** `q` meets `x` within the cap. */
  ghost predicate Near(procs: Procs, q: Pid, x: Pid)
    requires q in procs
  {
    exists i: nat :: i < 32 && Way(procs, q, i) == x
  }

  /** Every live process that meets, within the cap, anything on the first `k` steps of
      `q` also meets `x` within the cap. */
  ghost predicate Clear(procs: Procs, live: set<Pid>, q: Pid, x: Pid, k: nat)
    requires live <= procs.Keys && q in procs
  {
    forall j: nat, r :: j < k && r in live && Near(procs, r, Way(procs, q, j)) ==> Near(procs, r, x)
  }

  /** Some live process meets `x` within the cap by a clear way. */
  ghost predicate Secure(procs: Procs, live: set<Pid>, x: Pid)
    requires live <= procs.Keys
  {
    exists q, k: nat :: q in live && k < 32 && Way(procs, q, k) == x && Clear(procs, live, q, x, k)
  }

  lemma {:induction false} ClimbOn(procs: Procs, x: Pid, i: nat, j: nat)
    ensures Climb(procs, Climb(procs, x, i), j) == Climb(procs, x, i + j)
  {
    if j > 0 {
      ClimbOn(procs, x, i, j - 1);
    }
  }

  /** Ways that meet go on together. */
  lemma Together(procs: Procs, a: Pid, i: nat, b: Pid, j: nat, d: nat)
    requires a in procs && b in procs && Way(procs, a, i) == Way(procs, b, j)
    ensures Way(procs, a, i + d) == Way(procs, b, j + d)
  {
    ClimbOn(procs, procs[a].ppid, i, d);
    ClimbOn(procs, procs[b].ppid, j, d);
  }

  /** Nothing above init: once at 0 or 1 a way meets no other process. */
  lemma {:induction false} WayBelow(procs: Procs, q: Pid, i: nat, k: nat)
    requires q in procs && i <= k && Way(procs, q, k) > 1
    ensures Way(procs, q, i) > 1
    decreases k
  {
    if i < k {
      WayBelow(procs, q, i, k - 1);
    }
  }

  /** `k` is where `q` first meets `x`. */
  ghost predicate First(procs: Procs, q: Pid, x: Pid, k: nat)
    requires q in procs
  {
    Way(procs, q, k) == x && forall j: nat :: j < k ==> Way(procs, q, j) != x
  }

  lemma {:induction false} FirstExists(procs: Procs, q: Pid, x: Pid, k: nat) returns (f: nat)
    requires q in procs && Way(procs, q, k) == x
    ensures f <= k && First(procs, q, x, f)
    decreases k
  {
    if j: nat :| j < k && Way(procs, q, j) == x {
      f := FirstExists(procs, q, x, j);
    } else {
      f := k;
    }
  }

  /** No way repeats itself before it first meets `x`. */
  lemma NoRepeat(procs: Procs, q: Pid, x: Pid, k: nat, i: nat, n: nat)
    requires q in procs && First(procs, q, x, k) && i < n <= k
    ensures Way(procs, q, i) != Way(procs, q, n)
  {
    if Way(procs, q, i) == Way(procs, q, n) {
      Together(procs, q, i, q, n, k - n);
    }
  }

  // ---------------------------------------------------------------------
  // One walk
  // ---------------------------------------------------------------------

  /** What one walk adds: the first `n` steps, all new and below init, where it goes on to
      the cap, to init or to something collected. */
  ghost predicate Walked(procs: Procs, q: Pid, kept: set<Pid>, after: set<Pid>, n: nat)
    requires q in procs
  {
    && n <= MAX_DEPTH
    && (forall y :: y in after <==> y in kept || Stepped(procs, q, n, y))
    && (forall i: nat :: i < n ==> Way(procs, q, i) !in kept && Way(procs, q, i) > 1)
    && (n < MAX_DEPTH ==> Way(procs, q, n) <= 1 || Way(procs, q, n) in after)
  }

  /** Among the first `n` steps of `q`. */
  ghost predicate Stepped(procs: Procs, q: Pid, n: nat, y: Pid)
    requires q in procs
  {
    exists i: nat :: i < n && Way(procs, q, i) == y
  }

  lemma SteppedMore(procs: Procs, q: Pid, n: nat, y: Pid)
    requires q in procs
    ensures Stepped(procs, q, n + 1, y) <==> Stepped(procs, q, n, y) || y == Way(procs, q, n)
  {
  }

  lemma {:induction false} WalkFrom(procs: Procs, q: Pid, kept: set<Pid>, k: nat, now: set<Pid>) returns (n: nat)
    requires q in procs && k <= MAX_DEPTH
    requires forall y :: y in now <==> y in kept || Stepped(procs, q, k, y)
    requires forall i: nat :: i < k ==> Way(procs, q, i) !in kept && Way(procs, q, i) > 1
    ensures Walked(procs, q, kept, Walk(procs, Way(procs, q, k), k, now), n)
    decreases MAX_DEPTH - k
  {
    var cur := Way(procs, q, k);
    if cur > 1 && k < MAX_DEPTH && cur !in now {
      ClimbStep(procs, procs[q].ppid, k);
      forall y
        ensures y in now + {cur} <==> y in kept || Stepped(procs, q, k + 1, y)
      {
        SteppedMore(procs, q, k, y);
      }
      n := WalkFrom(procs, q, kept, k + 1, now + {cur});
    } else {
      n := k;
    }
  }

  lemma WalkOf(procs: Procs, q: Pid, kept: set<Pid>) returns (n: nat)
    requires q in procs
    ensures Walked(procs, q, kept, Walk(procs, procs[q].ppid, 0, kept), n)
  {
    n := WalkFrom(procs, q, kept, 0, kept);
  }

  // ---------------------------------------------------------------------
  // A secure process is collected in every order
  // ---------------------------------------------------------------------

  /** Anything collected on the first `k` steps of `q` has `x` collected with it. */
  ghost predicate Guarded(procs: Procs, q: Pid, x: Pid, k: nat, kept: set<Pid>)
    requires q in procs
  {
    forall j: nat :: j < k && Way(procs, q, j) in kept ==> x in kept
  }

  /** A walk that meets the way of `q` at a new step reaches `x` too. */
  lemma WalkThrough(procs: Procs, q: Pid, x: Pid, k: nat, j: nat, kept: set<Pid>,
                    r: Pid, m: nat, i: nat, n: nat, after: set<Pid>)
    requires q in procs && r in procs && x > 1 && First(procs, q, x, k) && Guarded(procs, q, x, k, kept)
    requires Walked(procs, r, kept, after, n) && x !in kept
    requires j < k && i < n && Way(procs, r, i) == Way(procs, q, j)
    requires First(procs, r, x, m) && m < MAX_DEPTH
    ensures x in after
  {
    if m > n {
      WayBelow(procs, r, n, m);
      if Way(procs, r, n) in kept {
        if n - i < k - j {
          Together(procs, r, i, q, j, n - i);
        } else {
          Together(procs, r, i, q, j, k - j);
        }
      } else {
        var i': nat :| i' < n && Way(procs, r, i') == Way(procs, r, n);
        NoRepeat(procs, r, x, m, i', n);
      }
    }
  }

  lemma WalkGuards(procs: Procs, live: set<Pid>, q: Pid, x: Pid, k: nat, kept: set<Pid>, r: Pid)
    requires live <= procs.Keys && q in live && r in live && x > 1
    requires First(procs, q, x, k) && Clear(procs, live, q, x, k) && Guarded(procs, q, x, k, kept)
    ensures Guarded(procs, q, x, k, Walk(procs, procs[r].ppid, 0, kept))
  {
    var after := Walk(procs, procs[r].ppid, 0, kept);
    var n := WalkOf(procs, r, kept);
    forall j: nat | j < k && Way(procs, q, j) in after
      ensures x in after
    {
      if x !in kept {
        var i: nat :| i < n && Way(procs, r, i) == Way(procs, q, j);
        assert Near(procs, r, Way(procs, q, j));
        var m0: nat :| m0 < MAX_DEPTH && Way(procs, r, m0) == x;
        var m := FirstExists(procs, r, x, m0);
        WalkThrough(procs, q, x, k, j, kept, r, m, i, n, after);
      }
    }
  }

  lemma OwnWalkCollects(procs: Procs, q: Pid, x: Pid, k: nat, kept: set<Pid>)
    requires q in procs && x > 1 && k < MAX_DEPTH && First(procs, q, x, k) && Guarded(procs, q, x, k, kept)
    ensures x in Walk(procs, procs[q].ppid, 0, kept)
  {
    var n := WalkOf(procs, q, kept);
    if k > n {
      WayBelow(procs, q, n, k);
      if Way(procs, q, n) !in kept {
        var i: nat :| i < n && Way(procs, q, i) == Way(procs, q, n);
        NoRepeat(procs, q, x, k, i, n);
      }
    }
  }

  lemma {:induction false} SecureCollected(procs: Procs, live: set<Pid>, order: seq<Pid>, q: Pid, x: Pid, k: nat)
    requires live <= procs.Keys && q in live && x > 1 && k < MAX_DEPTH
    requires First(procs, q, x, k) && Clear(procs, live, q, x, k)
    requires forall p :: p in order ==> p in live
    ensures Guarded(procs, q, x, k, Collect(procs, order, {}))
    ensures q in order ==> x in Collect(procs, order, {})
  {
    if order != [] {
      var init, last := order[..|order| - 1], order[|order| - 1];
      assert order == init + [last];
      SecureCollected(procs, live, init, q, x, k);
      WalkGuards(procs, live, q, x, k, Collect(procs, init, {}), last);
      if last == q {
        OwnWalkCollects(procs, q, x, k, Collect(procs, init, {}));
      }
    }
  }

  // ---------------------------------------------------------------------
  // Any other process is missed in some order
  // ---------------------------------------------------------------------

  /** `r` does meet `x`, first at `d`, but not within the cap. */
  ghost predicate Far(procs: Procs, r: Pid, x: Pid, d: nat)
    requires r in procs
  {
    First(procs, r, x, d) && d >= MAX_DEPTH
  }

  /** Everything within the cap of `r` is collected. */
  ghost predicate Covered(procs: Procs, r: Pid, kept: set<Pid>)
    requires r in procs
  {
    forall i: nat :: i < MAX_DEPTH ==> Way(procs, r, i) in kept
  }

  /** `kept` is what the far walkers `s` leave: all within their caps, and nothing else. */
  ghost predicate FarKept(procs: Procs, s: set<Pid>, kept: set<Pid>)
    requires s <= procs.Keys
  {
    && (forall r :: r in s ==> Covered(procs, r, kept))
    && forall y :: y in kept ==> exists r :: r in s && Near(procs, r, y)
  }

  /** Two far walkers that share a pid are equally far from `x` there. */
  lemma SameDistance(procs: Procs, x: Pid, r: Pid, n: nat, d: nat, s: Pid, m: nat, e: nat)
    requires r in procs && s in procs && First(procs, r, x, d) && First(procs, s, x, e)
    requires n <= d && m <= e && Way(procs, r, n) == Way(procs, s, m)
    ensures d - n == e - m
  {
    if d - n < e - m {
      Together(procs, r, n, s, m, d - n);
    } else if d - n > e - m {
      Together(procs, r, n, s, m, e - m);
    }
  }

  /** A far walker after all nearer ones still ends with everything within its cap
      collected: whoever stops it went at least as far. */
  lemma FarWalk(procs: Procs, s: set<Pid>, x: Pid, kept: set<Pid>, r: Pid, d: nat)
    requires s <= procs.Keys && r in procs && x > 1 && Far(procs, r, x, d) && FarKept(procs, s, kept)
    requires forall q :: q in s ==> exists e: nat :: Far(procs, q, x, e) && e <= d
    ensures Covered(procs, r, Walk(procs, procs[r].ppid, 0, kept))
  {
    var after := Walk(procs, procs[r].ppid, 0, kept);
    var n := WalkOf(procs, r, kept);
    if n < MAX_DEPTH {
      WayBelow(procs, r, n, d);
      if Way(procs, r, n) !in kept {
        var i: nat :| i < n && Way(procs, r, i) == Way(procs, r, n);
        NoRepeat(procs, r, x, d, i, n);
        assert false;
      }
      var q :| q in s && Near(procs, q, Way(procs, r, n));
      var m: nat :| m < MAX_DEPTH && Way(procs, q, m) == Way(procs, r, n);
      var e: nat :| Far(procs, q, x, e) && e <= d;
      SameDistance(procs, x, r, n, d, q, m, e);
      forall i: nat | n <= i < MAX_DEPTH
        ensures Way(procs, r, i) in after
      {
        Together(procs, r, n, q, m, i - n);
        assert Way(procs, q, m + (i - n)) in kept;
      }
    }
  }

  lemma FarWalkKept(procs: Procs, s: set<Pid>, x: Pid, kept: set<Pid>, r: Pid, d: nat)
    requires s <= procs.Keys && r in procs && x > 1 && Far(procs, r, x, d) && FarKept(procs, s, kept)
    requires forall q :: q in s ==> exists e: nat :: Far(procs, q, x, e) && e <= d
    ensures FarKept(procs, s + {r}, Walk(procs, procs[r].ppid, 0, kept))
  {
    var after := Walk(procs, procs[r].ppid, 0, kept);
    var n := WalkOf(procs, r, kept);
    FarWalk(procs, s, x, kept, r, d);
    forall y | y in after
      ensures exists q :: q in s + {r} && Near(procs, q, y)
    {
      if y in kept {
        var q :| q in s && Near(procs, q, y);
        assert q in s + {r};
      } else {
        var i: nat :| i < n && Way(procs, r, i) == y;
        assert Near(procs, r, y) && r in s + {r};
      }
    }
  }

  /** The farthest of a set of far walkers. */
  lemma {:induction false} Farthest(procs: Procs, s: set<Pid>, x: Pid) returns (r: Pid, d: nat)
    requires s != {} && s <= procs.Keys && forall q :: q in s ==> exists e: nat :: Far(procs, q, x, e)
    ensures r in s && Far(procs, r, x, d)
    ensures forall q :: q in s ==> exists e: nat :: Far(procs, q, x, e) && e <= d
  {
    var p :| p in s;
    var c: nat :| Far(procs, p, x, c);
    r, d := p, c;
    if s != {p} {
      var r', d' := Farthest(procs, s - {p}, x);
      if d' > c {
        r, d := r', d';
      }
      forall q | q in s
        ensures exists e: nat :: Far(procs, q, x, e) && e <= d
      {
        if q != p {
          assert q in s - {p};
          var e: nat :| Far(procs, q, x, e) && e <= d';
          assert e <= d;
        }
      }
    }
  }

  /** An order of far walkers, the nearest to `x` first, that leaves everything within
      their caps collected. */
  lemma {:induction false} FarOrder(procs: Procs, s: set<Pid>, x: Pid) returns (order: seq<Pid>)
    requires s <= procs.Keys && x > 1 && forall q :: q in s ==> exists e: nat :: Far(procs, q, x, e)
    ensures IsOrder(order, s) && FarKept(procs, s, Collect(procs, order, {}))
    decreases s
  {
    if s == {} {
      order := [];
    } else {
      var r, d := Farthest(procs, s, x);
      var rest := s - {r};
      var init := FarOrder(procs, rest, x);
      order := init + [r];
      assert order[..|init|] == init && rest + {r} == s;
      FarWalkKept(procs, rest, x, Collect(procs, init, {}), r, d);
    }
  }

  lemma {:induction false} AnyOrder(s: set<Pid>) returns (order: seq<Pid>)
    ensures IsOrder(order, s)
    decreases s
  {
    order := [];
    if s != {} {
      var p :| p in s;
      order := AnyOrder(s - {p});
      order := order + [p];
    }
  }

  lemma OrderBoth(a: seq<Pid>, s: set<Pid>, b: seq<Pid>, t: set<Pid>)
    requires IsOrder(a, s) && IsOrder(b, t) && s !! t
    ensures IsOrder(a + b, s + t)
  {
    var all := a + b;
    forall i, j | 0 <= i < j < |all|
      ensures all[i] != all[j]
    {
      if i < |a| <= j {
        assert all[i] in s && all[j] == b[j - |a|] && b[j - |a|] in t;
      }
    }
  }

  /** A walker that cannot collect `x` once `kept` is: it never meets `x`, or its way to
      `x` is cut. */
  ghost predicate Cut(procs: Procs, q: Pid, x: Pid, kept: set<Pid>)
    requires q in procs
  {
    forall k: nat :: k < MAX_DEPTH && Way(procs, q, k) == x ==>
      exists j: nat :: j < k && Way(procs, q, j) in kept
  }

  lemma CutWalk(procs: Procs, q: Pid, x: Pid, kept: set<Pid>)
    requires q in procs && Cut(procs, q, x, kept) && x !in kept
    ensures x !in Walk(procs, procs[q].ppid, 0, kept)
  {
    var n := WalkOf(procs, q, kept);
  }

  lemma CutMore(procs: Procs, q: Pid, x: Pid, kept: set<Pid>, more: set<Pid>)
    requires q in procs && Cut(procs, q, x, kept) && kept <= more
    ensures Cut(procs, q, x, more)
  {
    forall k: nat | k < MAX_DEPTH && Way(procs, q, k) == x
      ensures exists j: nat :: j < k && Way(procs, q, j) in more
    {
      var j: nat :| j < k && Way(procs, q, j) in kept;
    }
  }

  lemma {:induction false} CutRest(procs: Procs, far: seq<Pid>, rest: seq<Pid>, x: Pid)
    requires forall p :: p in far + rest ==> p in procs
    requires x !in Collect(procs, far, {})
    requires forall q :: q in rest ==> Cut(procs, q, x, Collect(procs, far, {}))
    ensures x !in Collect(procs, far + rest, {}) && Collect(procs, far, {}) <= Collect(procs, far + rest, {})
    decreases |rest|
  {
    if rest == [] {
      assert far + rest == far;
    } else {
      var init, last := rest[..|rest| - 1], rest[|rest| - 1];
      assert rest == init + [last];
      assert (far + rest)[..|far + rest| - 1] == far + init && (far + rest)[|far + rest| - 1] == last;
      forall p | p in far + init
        ensures p in procs
      {
        assert p in far + rest;
      }
      CutRest(procs, far, init, x);
      assert last in far + rest;
      CutMore(procs, last, x, Collect(procs, far, {}), Collect(procs, far + init, {}));
      CutWalk(procs, last, x, Collect(procs, far + init, {}));
    }
  }

  /** The far walkers of a live set. */
  ghost function FarSet(procs: Procs, live: set<Pid>, x: Pid): set<Pid>
    requires live <= procs.Keys
  {
    set r | r in live && exists d: nat :: Far(procs, r, x, d)
  }

  lemma FarMisses(procs: Procs, live: set<Pid>, x: Pid, kept: set<Pid>)
    requires live <= procs.Keys && FarKept(procs, FarSet(procs, live, x), kept)
    ensures x !in kept
  {
    forall r | r in FarSet(procs, live, x)
      ensures !Near(procs, r, x)
    {
      var d: nat :| Far(procs, r, x, d);
    }
  }

  /** If `x` is not secure, the far walkers cut every way to it. */
  lemma InsecureCut(procs: Procs, live: set<Pid>, x: Pid, kept: set<Pid>, q: Pid)
    requires live <= procs.Keys && x > 1 && !Secure(procs, live, x) && q in live
    requires FarKept(procs, FarSet(procs, live, x), kept)
    ensures Cut(procs, q, x, kept)
  {
    forall k: nat | k < MAX_DEPTH && Way(procs, q, k) == x
      ensures exists j: nat :: j < k && Way(procs, q, j) in kept
    {
      assert !Clear(procs, live, q, x, k);
      var j: nat, r :| j < k && r in live && Near(procs, r, Way(procs, q, j)) && !Near(procs, r, x);
      var i: nat :| i < MAX_DEPTH && Way(procs, r, i) == Way(procs, q, j);
      Together(procs, r, i, q, j, k - j);
      var d := FirstExists(procs, r, x, i + (k - j));
      assert Far(procs, r, x, d);
      assert Covered(procs, r, kept);
      assert Way(procs, q, j) in kept;
    }
  }

  lemma InsecureMissed(procs: Procs, live: set<Pid>, x: Pid) returns (order: seq<Pid>)
    requires live <= procs.Keys && x > 1 && !Secure(procs, live, x)
    ensures IsOrder(order, live) && x !in Collect(procs, order, {})
  {
    var s := FarSet(procs, live, x);
    var far := FarOrder(procs, s, x);
    var rest := AnyOrder(live - s);
    OrderBoth(far, s, rest, live - s);
    assert s + (live - s) == live;
    order := far + rest;
    FarMisses(procs, live, x, Collect(procs, far, {}));
    forall q | q in rest
      ensures Cut(procs, q, x, Collect(procs, far, {}))
    {
      InsecureCut(procs, live, x, Collect(procs, far, {}), q);
    }
    CutRest(procs, far, rest, x);
  }

  // ---------------------------------------------------------------------
  // What a reap keeps, exactly
  // ---------------------------------------------------------------------

  /** The walks collect `x` in every order exactly if it is secure. */
  lemma CollectExactly(procs: Procs, live: set<Pid>, x: Pid)
    requires live <= procs.Keys && x > 1
    ensures (forall order :: IsOrder(order, live) ==> x in Collect(procs, order, {})) <==> Secure(procs, live, x)
  {
    if Secure(procs, live, x) {
      var q, k0: nat :| q in live && k0 < MAX_DEPTH && Way(procs, q, k0) == x && Clear(procs, live, q, x, k0);
      var k := FirstExists(procs, q, x, k0);
      forall order | IsOrder(order, live)
        ensures x in Collect(procs, order, {})
      {
        SecureCollected(procs, live, order, q, x, k);
      }
    } else {
      var order := InsecureMissed(procs, live, x);
    }
  }

  /** Not yet due, or secure: the condition under which a reap leaves `x` alone. */
  ghost predicate Spared(t: Tree, alive: set<Pid>, now: Time, x: Pid)
    requires x in t.procs
  {
    !Due(t, alive, now, x) || (x > 1 && Secure(t.procs, Live(t, alive), x))
  }

  lemma {:induction false} InitNotCollected(procs: Procs, order: seq<Pid>, x: Pid)
    requires (forall p :: p in order ==> p in procs) && x <= 1
    ensures x !in Collect(procs, order, {})
  {
    if order != [] {
      InitNotCollected(procs, order[..|order| - 1], x);
      var n := WalkOf(procs, order[|order| - 1], Collect(procs, order[..|order| - 1], {}));
    }
  }

  /** A reap keeps a process in every order exactly if it is spared. */
  lemma ReapSparesExactly(t: Tree, alive: set<Pid>, now: Time, x: Pid)
    requires Valid(t) && x in t.procs
    ensures (forall order :: IsOrder(order, Live(t, alive)) ==> x in ReapWith(t, alive, now, order).procs)
            <==> Spared(t, alive, now, x)
  {
    if x > 1 {
      CollectExactly(t.procs, Live(t, alive), x);
    } else {
      var some := AnyOrder(Live(t, alive));
      InitNotCollected(t.procs, some, x);
    }
  }

  /** The reading loop gives the same after dropping `gone` exactly if it read none of it. */
  lemma {:induction false} SameReading(procs: Procs, gone: set<Pid>, p: Pid, cur: Pid, depth: nat)
    requires depth <= MAX_DEPTH && forall q :: q in procs ==> procs[q].pid == q
    ensures var before, after := AncestorsFrom(procs, p, cur, depth), AncestorsFrom(procs - gone, p, cur, depth);
            && after <= before
            && (after == before <==> forall a :: a in before ==> a.pid !in gone)
    decreases MAX_DEPTH - depth
  {
    if depth < MAX_DEPTH && cur != 0 && cur in procs && cur != p {
      var rest := AncestorsFrom(procs, p, procs[cur].ppid, depth + 1);
      SameReading(procs, gone, p, procs[cur].ppid, depth + 1);
      assert AncestorsFrom(procs, p, cur, depth) == [procs[cur]] + rest;
      if cur !in gone {
        assert AncestorsFrom(procs - gone, p, cur, depth)
               == [procs[cur]] + AncestorsFrom(procs - gone, p, procs[cur].ppid, depth + 1);
      } else {
        assert procs[cur] in [procs[cur]] + rest;
      }
    }
  }

  lemma {:induction false} LongerChain(a: seq<ProcInfo>, b: seq<ProcInfo>)
    requires a <= b
    ensures |ExpandRootFirst(b)| >= |ExpandRootFirst(a)| + (|b| - |a|)
    decreases |b|
  {
    if b != [] {
      LongerChain(if a == [] then [] else a[1..], b[1..]);
    }
  }

  /** The chain shows the same exactly if the ancestors are the same. */
  lemma ChainSame(t: Tree, alive: set<Pid>, now: Time, order: seq<Pid>, p: Pid)
    requires Valid(t) && IsOrder(order, Live(t, alive)) && p in Live(t, alive)
    ensures var t' := ReapWith(t, alive, now, order);
            Chain(t'.procs, p) == Chain(t.procs, p) <==> Ancestors(t'.procs, p) == Ancestors(t.procs, p)
  {
    var gone := Expired(Marked(t, alive, now), now, Collect(t.procs, order, {}));
    SameReading(t.procs, gone, p, t.procs[p].ppid, 0);
    LongerChain(Ancestors(t.procs - gone, p), Ancestors(t.procs, p));
  }

  /** In one order: the ancestors of a live process are as before exactly if the reap
      dropped none of them. */
  lemma AncestorsSame(t: Tree, alive: set<Pid>, now: Time, order: seq<Pid>, p: Pid)
    requires Valid(t) && IsOrder(order, Live(t, alive)) && p in Live(t, alive)
    ensures var t' := ReapWith(t, alive, now, order);
            && p in t'.procs && t'.procs[p] == t.procs[p]
            && (Ancestors(t'.procs, p) == Ancestors(t.procs, p)
                <==> forall a :: a in Ancestors(t.procs, p) ==> a.pid in t'.procs)
  {
    var gone := Expired(Marked(t, alive, now), now, Collect(t.procs, order, {}));
    SameReading(t.procs, gone, p, t.procs[p].ppid, 0);
    forall a | a in Ancestors(t.procs, p)
      ensures a.pid in t.procs
    {
      AncestorsTracked(t.procs, p, t.procs[p].ppid, 0, a);
    }
  }

  /** Every ancestor the process shows is spared. */
  ghost predicate AncestorsSpared(t: Tree, alive: set<Pid>, now: Time, p: Pid) {
    forall a :: a in Ancestors(t.procs, p) ==> a.pid in t.procs && Spared(t, alive, now, a.pid)
  }

  /** The main result, at any depth: a reap leaves the ancestors and the chain of a live
      process as they were in every order exactly if each ancestor it shows is spared. */
  lemma AncestrySurvivesExactly(t: Tree, alive: set<Pid>, now: Time, p: Pid)
    requires Valid(t) && p in Live(t, alive)
    ensures (forall order :: IsOrder(order, Live(t, alive)) ==>
               Ancestors(ReapWith(t, alive, now, order).procs, p) == Ancestors(t.procs, p))
            <==> AncestorsSpared(t, alive, now, p)
    ensures (forall order :: IsOrder(order, Live(t, alive)) ==>
               Chain(ReapWith(t, alive, now, order).procs, p) == Chain(t.procs, p))
            <==> AncestorsSpared(t, alive, now, p)
  {
    forall a | a in Ancestors(t.procs, p)
      ensures a.pid in t.procs
    {
      AncestorsTracked(t.procs, p, t.procs[p].ppid, 0, a);
    }
    forall order | IsOrder(order, Live(t, alive))
      ensures Ancestors(ReapWith(t, alive, now, order).procs, p) == Ancestors(t.procs, p)
              <==> forall a :: a in Ancestors(t.procs, p) ==> a.pid in ReapWith(t, alive, now, order).procs
    {
      AncestorsSame(t, alive, now, order, p);
    }
    forall order | IsOrder(order, Live(t, alive))
      ensures Chain(ReapWith(t, alive, now, order).procs, p) == Chain(t.procs, p)
              <==> Ancestors(ReapWith(t, alive, now, order).procs, p) == Ancestors(t.procs, p)
    {
      ChainSame(t, alive, now, order, p);
    }
    forall a | a in Ancestors(t.procs, p)
      ensures (forall order :: IsOrder(order, Live(t, alive)) ==> a.pid in ReapWith(t, alive, now, order).procs)
              <==> Spared(t, alive, now, a.pid)
    {
      ReapSparesExactly(t, alive, now, a.pid);
    }
  }

  /** A reap drops a process in every order exactly if it is due and no live process meets
      it within the cap; init, which no walk collects, exactly if it is due. */
  lemma ReapDropsExactly(t: Tree, alive: set<Pid>, now: Time, x: Pid)
    requires Valid(t) && x in t.procs
    ensures (forall order :: IsOrder(order, Live(t, alive)) ==> x !in ReapWith(t, alive, now, order).procs)
            <==> && Due(t, alive, now, x)
                 && (x <= 1 || forall q :: q in Live(t, alive) ==> !Near(t.procs, q, x))
  {
    var live := Live(t, alive);
    var some := AnyOrder(live);
    if x <= 1 {
      forall order | IsOrder(order, live)
        ensures x !in Collect(t.procs, order, {})
      {
        InitNotCollected(t.procs, order, x);
      }
    } else if q :| q in live && Near(t.procs, q, x) {
      var order := NearFirst(t.procs, live, q, x);
    } else {
      forall order | IsOrder(order, live)
        ensures x !in Collect(t.procs, order, {})
      {
        NeverNear(t.procs, live, order, x);
      }
    }
  }

  /** Walked first, a process collects all it meets within the cap. */
  lemma NearFirst(procs: Procs, live: set<Pid>, q: Pid, x: Pid) returns (order: seq<Pid>)
    requires live <= procs.Keys && q in live && x > 1 && Near(procs, q, x)
    ensures IsOrder(order, live) && x in Collect(procs, order, {})
  {
    var k0: nat :| k0 < MAX_DEPTH && Way(procs, q, k0) == x;
    var k := FirstExists(procs, q, x, k0);
    OwnWalkCollects(procs, q, x, k, {});
    var rest := AnyOrder(live - {q});
    order := [q] + rest;
    OrderBoth([q], {q}, rest, live - {q});
    assert {q} + (live - {q}) == live;
    assert [q][..0] == [];
    assert x in Collect(procs, [q], {});
    CollectGrows(procs, [q], rest);
  }

  lemma {:induction false} CollectGrows(procs: Procs, a: seq<Pid>, b: seq<Pid>)
    requires (forall p :: p in a ==> p in procs) && forall p :: p in a + b ==> p in procs
    ensures Collect(procs, a, {}) <= Collect(procs, a + b, {})
    decreases |b|
  {
    if b == [] {
      assert a + b == a;
    } else {
      var init := b[..|b| - 1];
      assert (a + b)[..|a + b| - 1] == a + init;
      CollectGrows(procs, a, init);
    }
  }

  lemma {:induction false} NeverNear(procs: Procs, live: set<Pid>, order: seq<Pid>, x: Pid)
    requires live <= procs.Keys && (forall p :: p in order ==> p in live) && forall q :: q in live ==> !Near(procs, q, x)
    ensures x !in Collect(procs, order, {})
  {
    if order != [] {
      var init, last := order[..|order| - 1], order[|order| - 1];
      NeverNear(procs, live, init, x);
      assert last in live;
      var n := WalkOf(procs, last, Collect(procs, init, {}));
    }
  }

  lemma ShownNear(procs: Procs, p: Pid, i: nat, shown: seq<ProcInfo>)
    requires p in procs && (forall q :: q in procs ==> procs[q].pid == q) && (1 in procs ==> procs[1].ppid == 0)
    requires shown == Ancestors(procs, p) && i < |shown|
    ensures shown[i].pid in procs && shown[i].pid > 0 && Near(procs, p, shown[i].pid)
  {
    AncestorsFollowParents(procs, p, 0, i);
    assert Way(procs, p, i) == Climb(procs, procs[p].ppid, 0 + i);
  }

  /** Init's own way meets nothing. */
  lemma {:induction false} InitWay(procs: Procs, i: nat)
    requires 1 in procs && procs[1].ppid == 0
    ensures Way(procs, 1, i) == 0
  {
    if i > 0 {
      InitWay(procs, i - 1);
    }
  }

  lemma OwnSecure(procs: Procs, live: set<Pid>, p: Pid, x: Pid)
    requires live <= procs.Keys && p in live && live <= {1, p} && (1 in procs ==> procs[1].ppid == 0)
    requires x > 1 && Near(procs, p, x)
    ensures Secure(procs, live, x)
  {
    var k: nat :| k < MAX_DEPTH && Way(procs, p, k) == x;
    forall j: nat, r | j < k && r in live && Near(procs, r, Way(procs, p, j))
      ensures Near(procs, r, x)
    {
      if r != p {
        var i: nat :| i < MAX_DEPTH && Way(procs, r, i) == Way(procs, p, j);
        InitWay(procs, i);
        WayBelow(procs, p, j, k);
      }
    }
    assert Clear(procs, live, p, x, k);
  }

  lemma ShownSpared(t: Tree, alive: set<Pid>, now: Time, p: Pid, i: nat, shown: seq<ProcInfo>)
    requires Valid(t) && p in Live(t, alive) && Live(t, alive) <= {1, p} && (1 in t.procs ==> t.procs[1].ppid == 0)
    requires 1 in t.procs ==> Spared(t, alive, now, 1)
    requires shown == Ancestors(t.procs, p) && i < |shown|
    ensures shown[i].pid in t.procs && Spared(t, alive, now, shown[i].pid)
  {
    ShownNear(t.procs, p, i, shown);
    if shown[i].pid > 1 {
      OwnSecure(t.procs, Live(t, alive), p, shown[i].pid);
    }
  }

  /** If nothing else but init lives, nothing a process shows is lost, at any depth, as long
      as init's recorded parent is 0 and init is not due itself. */
  lemma OneLiveSpared(t: Tree, alive: set<Pid>, now: Time, p: Pid)
    requires Valid(t) && p in Live(t, alive) && Live(t, alive) <= {1, p} && (1 in t.procs ==> t.procs[1].ppid == 0)
    requires 1 in t.procs ==> Spared(t, alive, now, 1)
    ensures AncestorsSpared(t, alive, now, p)
  {
    var shown := Ancestors(t.procs, p);
    forall i: nat | i < |shown|
      ensures shown[i].pid in t.procs && Spared(t, alive, now, shown[i].pid)
    {
      ShownSpared(t, alive, now, p, i, shown);
    }
  }
}
