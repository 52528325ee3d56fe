/** Learned destinations and their network index, hermian-core/src/baseline.rs. The index
    is not saved but derived from the set at each load. What holds over
    whole runs of observations and reloads is that it agrees with the plain set. */
module BaselineModel {
  import opened Common
  import opened Addresses

  const MAX_LEARNED: nat := 50_000

  /** The first 24 bits of an IPv4 destination, also one inside IPv6, or 64 of an IPv6 one. */
  function DestNet(ip: Ip): Ip
    decreases ip.V6?
  {
    match ip
    case V4(b) => V4(And(b, Mask(32, 24)))
    case V6(b) =>
      match Mapped(ip)
      case Some(v4) => DestNet(v4)
      case None => V6(And(b, Mask(128, 64)))
  }

  /** The address a packet really goes to: IPv4 inside IPv6 is IPv4. */
  function Real(ip: Ip): Ip {
    match Mapped(ip)
    case Some(v4) => v4
    case None => ip
  }

  /** Two destinations share a network exactly if, unwrapped, they are of one family and
      agree on 24 bits, or 64 for IPv6. */
  lemma SameNet(a: Ip, b: Ip)
    ensures DestNet(a) == DestNet(b) <==>
            && Real(a).V4? == Real(b).V4?
            && var n := if Real(a).V4? then 24 else 64; Real(a).bits[..n] == Real(b).bits[..n]
  {
    var x, y := Real(a), Real(b);
    assert DestNet(a) == DestNet(x) && DestNet(b) == DestNet(y);
    if x.V4? == y.V4? {
      MaskedEqual(x.bits, y.bits, if x.V4? then 24 else 64);
    }
  }

  datatype Learned = Learned(dests: set<Ip>, nets: set<Ip>)

  function Image(dests: set<Ip>): (r: set<Ip>)
    ensures forall d :: d in dests ==> DestNet(d) in r
  {
    set d | d in dests :: DestNet(d)
  }

  function Elems(xs: seq<Ip>): set<Ip> {
    set x | x in xs
  }

  function Insert(s: set<Ip>, x: Ip): set<Ip> {
    if |s| < MAX_LEARNED then s + {x} else s
  }

  predicate Ignored(ip: Ip) {
    Unspecified(ip) || Loopback(ip)
  }

  /** What is ignored, by number: 0.0.0.0, 127.0.0.0/8, `::` and `::1`. */
  lemma IgnoredExactly(ip: Ip)
    ensures var n := NumberOf(ip.bits);
            Ignored(ip) <==> if ip.V4? then n == 0 || 0x7f00_0000 <= n < 0x8000_0000 else n <= 1
  {
    UnspecifiedByNumber(ip);
    LoopbackByNumber(ip);
  }

  function Observed(l: Learned, ip: Ip): Learned {
    if Ignored(ip) then l else Learned(Insert(l.dests, ip), Insert(l.nets, DestNet(ip)))
  }

  predicate Known(l: Learned, ip: Ip) {
    ip in l.dests || DestNet(ip) in l.nets
  }

  /** Saved, loaded and indexed again. */
  function Reloaded(l: Learned): Learned {
    Learned(l.dests, Image(l.dests))
  }

  class Baseline {
    var knownDests: set<Ip>
    var knownDestNets: set<Ip>

    ghost function View(): Learned
      reads this
    {
      Learned(knownDests, knownDestNets)
    }

    /** As deserialized: the index is empty. */
    constructor (saved: set<Ip>)
      ensures View() == Learned(saved, {})
    {
      knownDests, knownDestNets := saved, {};
    }

    method ObserveDest(ip: Ip)
      modifies this
      ensures View() == Observed(old(View()), ip)
    {
      if Ignored(ip) {
        return;
      }
      if |knownDests| < MAX_LEARNED {
        knownDests := knownDests + {ip};
      }
      if |knownDestNets| < MAX_LEARNED {
        knownDestNets := knownDestNets + {DestNet(ip)};
      }
    }

    /** Rebuild the network set, in any order, stopping at the cap. With no more
        destinations than the cap it never stops early. */
    method IndexDests()
      modifies this`knownDestNets
      ensures knownDestNets <= old(knownDestNets) + Image(knownDests)
      ensures knownDestNets == old(knownDestNets) + Image(knownDests) || |knownDestNets| >= MAX_LEARNED
      ensures old(knownDestNets) == {} && |knownDests| <= MAX_LEARNED ==> View() == Reloaded(old(View()))
    {
      ImageBound(knownDests);
      var nets := NetsOf(knownDests);
      knownDestNets := InsertUpTo(nets, knownDestNets);
      var index, image := knownDestNets, Image(knownDests);
      if old(knownDestNets) == {} && |knownDests| <= MAX_LEARNED {
        SubsetCardinality(index, image);
      }
    }

    /** The networks of `dests`, in any order. */
    static method NetsOf(dests: set<Ip>) returns (nets: seq<Ip>)
      ensures Elems(nets) == Image(dests)
    {
      nets := [];
      var todo := dests;
      ghost var done := {};
      while todo != {}
        invariant done + todo == dests && Elems(nets) == Image(done)
        decreases todo
      {
        var ip :| ip in todo;
        ImageMore(done, ip);
        nets := nets + [DestNet(ip)];
        todo, done := todo - {ip}, done + {ip};
      }
      assert done == dests;
    }

    static method InsertUpTo(xs: seq<Ip>, before: set<Ip>) returns (nets: set<Ip>)
      ensures nets <= before + Elems(xs)
      ensures nets == before + Elems(xs) || |nets| >= MAX_LEARNED
    {
      nets := before;
      var i := 0;
      while i < |xs|
        invariant 0 <= i <= |xs| && nets == before + Elems(xs[..i])
      {
        if |nets| >= MAX_LEARNED {
          ElemsWithin(xs, i);
          return;
        }
        ElemsMore(xs, i);
        nets := nets + {xs[i]};
        i := i + 1;
      }
      assert xs[..i] == xs;
    }

    method DestIsKnown(ip: Ip) returns (known: bool)
      ensures known == Known(View(), ip)
    {
      known := ip in knownDests || DestNet(ip) in knownDestNets;
    }
  }

  lemma ElemsMore(xs: seq<Ip>, i: nat)
    requires i < |xs|
    ensures Elems(xs[..i + 1]) == Elems(xs[..i]) + {xs[i]}
  {
    assert xs[..i + 1] == xs[..i] + [xs[i]];
  }

  lemma ElemsWithin(xs: seq<Ip>, i: nat)
    requires i <= |xs|
    ensures Elems(xs[..i]) <= Elems(xs)
  {
  }

  lemma ImageMore(dests: set<Ip>, ip: Ip)
    ensures Image(dests + {ip}) == Image(dests) + {DestNet(ip)}
  {
  }

  lemma {:induction false} ImageBound(dests: set<Ip>)
    ensures |Image(dests)| <= |dests|
  {
    if dests != {} {
      var d :| d in dests;
      ImageBound(dests - {d});
      assert dests == (dests - {d}) + {d};
      ImageMore(dests - {d}, d);
    }
  }

  // ---------------------------------------------------------------------
  // Runs
  // ---------------------------------------------------------------------

  datatype Op = Observe(ip: Ip) | Reload

  function Step(l: Learned, op: Op): Learned {
    match op
    case Observe(ip) => Observed(l, ip)
    case Reload => Reloaded(l)
  }

  function Play(l: Learned, ops: seq<Op>): Learned {
    if ops == [] then l else Step(Play(l, ops[..|ops| - 1]), ops[|ops| - 1])
  }

  /** The index holds every learned network, and below the cap nothing else. */
  ghost predicate Agrees(l: Learned) {
    && |l.dests| <= 50_000 && |l.nets| <= 50_000
    && Image(l.dests) <= l.nets
    && (|l.dests| < 50_000 ==> l.nets == Image(l.dests))
  }

  lemma LoadAgrees(dests: set<Ip>)
    requires |dests| <= MAX_LEARNED
    ensures Agrees(Reloaded(Learned(dests, {})))
  {
    ImageBound(dests);
  }

  lemma ObserveAgrees(l: Learned, ip: Ip)
    requires Agrees(l)
    ensures Agrees(Observed(l, ip))
  {
    if !Ignored(ip) && |l.dests| < MAX_LEARNED {
      ImageBound(l.dests);
      ImageMore(l.dests, ip);
    }
  }

  /** From any load of at most 50000 destinations, every run of observations and reloads
      keeps the index in agreement with the set. */
  lemma {:induction false} IndexAgrees(dests: set<Ip>, ops: seq<Op>)
    requires |dests| <= 50_000
    ensures Agrees(Play(Reloaded(Learned(dests, {})), ops))
  {
    var start := Reloaded(Learned(dests, {}));
    if ops == [] {
      LoadAgrees(dests);
    } else {
      var init, last := ops[..|ops| - 1], ops[|ops| - 1];
      IndexAgrees(dests, init);
      var l := Play(start, init);
      match last
      case Observe(ip) => ObserveAgrees(l, ip);
      case Reload => LoadAgrees(l.dests);
    }
  }

  ghost predicate SharesNet(l: Learned, ip: Ip) {
    exists d :: d in l.dests && DestNet(d) == DestNet(ip)
  }

  /** After any such run a destination whose network was learned is known, and below the
      cap only such a destination is. */
  lemma KnownByNetwork(dests: set<Ip>, ops: seq<Op>, ip: Ip)
    requires |dests| <= 50_000
    ensures var l := Play(Reloaded(Learned(dests, {})), ops);
            && (SharesNet(l, ip) ==> Known(l, ip))
            && (|l.dests| < 50_000 ==> (Known(l, ip) <==> SharesNet(l, ip)))
  {
    IndexAgrees(dests, ops);
    var l := Play(Reloaded(Learned(dests, {})), ops);
    if SharesNet(l, ip) {
      var d :| d in l.dests && DestNet(d) == DestNet(ip);
      assert DestNet(ip) in Image(l.dests);
    }
  }

  /** What is known before and after a reload. */
  lemma KnownReloaded(l: Learned, ip: Ip)
    requires Agrees(l)
    ensures Known(l, ip) <==> DestNet(ip) in l.nets
    ensures Known(Reloaded(l), ip) <==> SharesNet(l, ip)
  {
    if ip in l.dests {
      assert DestNet(ip) in Image(l.dests);
    }
  }

  /** After an observation and a reload the destination is known exactly if there was room
      for it or one of its network was learned before. */
  lemma ObservedReloaded(l: Learned, ip: Ip)
    requires Agrees(l) && !Ignored(ip)
    ensures Known(Reloaded(Observed(l, ip)), ip) <==> |l.dests| < 50_000 || SharesNet(l, ip)
  {
    var l' := Observed(l, ip);
    ObserveAgrees(l, ip);
    KnownReloaded(l', ip);
    if SharesNet(l, ip) {
      var d :| d in l.dests && DestNet(d) == DestNet(ip);
      assert d in l'.dests;
    }
  }

  /** With an index that matches the set, observing and then reloading changes no answer
      exactly if the destination is ignored, is learned, has a learned network, or found
      the index full too. */
  lemma ReloadChangesNothing(l: Learned, ip: Ip)
    requires |l.dests| <= 50_000 && l == Reloaded(l)
    ensures var l' := Observed(l, ip);
            (forall x :: Known(Reloaded(l'), x) <==> Known(l', x)) <==>
            Ignored(ip) || |l.dests| < 50_000 || SharesNet(l, ip) || |l.nets| >= 50_000
  {
    LoadAgrees(l.dests);
    if Ignored(ip) || |l.dests| < MAX_LEARNED || SharesNet(l, ip) || |l.nets| >= MAX_LEARNED {
      ObservedSame(l, ip);
    } else {
      ForgottenByReload(l, ip);
    }
  }

  lemma ObservedSame(l: Learned, ip: Ip)
    requires Agrees(l) && l == Reloaded(l)
    requires Ignored(ip) || |l.dests| < MAX_LEARNED || SharesNet(l, ip) || |l.nets| >= MAX_LEARNED
    ensures Reloaded(Observed(l, ip)) == Observed(l, ip)
  {
    ImageMore(l.dests, ip);
    ImageBound(l.dests);
    if SharesNet(l, ip) {
      assert DestNet(ip) in Image(l.dests);
      assert Image(l.dests) + {DestNet(ip)} == Image(l.dests);
    }
  }

  /** The failing family: with the set full and the index not, a destination of a new
      network is known when observed and unknown after the next reload. */
  lemma ForgottenByReload(l: Learned, ip: Ip)
    requires Agrees(l) && !Ignored(ip)
    requires |l.dests| == 50_000 && |l.nets| < 50_000 && !SharesNet(l, ip)
    ensures Known(Observed(l, ip), ip) && !Known(Reloaded(Observed(l, ip)), ip)
  {
    ObservedReloaded(l, ip);
  }

  lemma BelowCapSame(l: Learned)
    requires Agrees(l) && |l.dests| < MAX_LEARNED
    ensures Reloaded(l) == l
  {
  }

  lemma KnownStep(l: Learned, op: Op, ip: Ip)
    requires Agrees(l) && Known(l, ip) && (op.Reload? ==> |l.dests| < MAX_LEARNED)
    ensures Agrees(Step(l, op)) && Known(Step(l, op), ip)
  {
    match op
    case Observe(x) => ObserveAgrees(l, x);
    case Reload => BelowCapSame(l);
  }

  /** An observed destination is known from then on, through any later observations and
      through reloads below the cap. */
  lemma {:induction false} KnownStays(l: Learned, ops: seq<Op>, ip: Ip)
    requires Agrees(l) && Known(l, ip)
    requires forall k: nat :: k < |ops| && ops[k].Reload? ==> |Play(l, ops[..k]).dests| < 50_000
    ensures Agrees(Play(l, ops)) && Known(Play(l, ops), ip)
  {
    if ops != [] {
      var n := |ops| - 1;
      var init, last := ops[..n], ops[n];
      assert forall k: nat :: k < n ==> init[..k] == ops[..k];
      KnownStays(l, init, ip);
      KnownStep(Play(l, init), last, ip);
    }
  }

  // ---------------------------------------------------------------------
  // A member of the failing family
  // ---------------------------------------------------------------------

  /** The `n`-th address of one IPv6 /64. */
  function Neighbour(front: Bits, n: nat): Ip
    requires |front| == 112
  {
    V6(front + BitsOf(n, 16))
  }

  function NeighbourOf(front: Bits): nat -> Ip
    requires |front| == 112
  {
    (n: nat) => Neighbour(front, n)
  }

  lemma NeighboursDiffer(front: Bits, m: nat, n: nat, k: nat)
    requires |front| == 112 && k == 16 && m < Pow2(k) && n < Pow2(k) && Neighbour(front, m) == Neighbour(front, n)
    ensures m == n
  {
    assert (front + BitsOf(m, k))[112..] == BitsOf(m, k) && (front + BitsOf(n, k))[112..] == BitsOf(n, k);
    BitsRoundTrip(m, k);
    BitsRoundTrip(n, k);
  }

  /** The first `n` addresses of a numbering. */
  ghost function Firsts(addr: nat -> Ip, n: nat): set<Ip> {
    if n == 0 then {} else Firsts(addr, n - 1) + {addr(n - 1)}
  }

  ghost predicate Differ(addr: nat -> Ip, bound: nat) {
    forall i: nat, j: nat :: i < bound && j < bound && addr(i) == addr(j) ==> i == j
  }

  lemma {:induction false} FirstsNew(addr: nat -> Ip, n: nat, m: nat, bound: nat)
    requires Differ(addr, bound) && n <= m < bound
    ensures addr(m) !in Firsts(addr, n)
  {
    if n > 0 {
      FirstsNew(addr, n - 1, m, bound);
    }
  }

  lemma {:induction false} FirstsCount(addr: nat -> Ip, n: nat, bound: nat)
    requires Differ(addr, bound) && n <= bound
    ensures |Firsts(addr, n)| == n
  {
    if n > 0 {
      FirstsCount(addr, n - 1, bound);
      FirstsNew(addr, n - 1, n - 1, bound);
    }
  }

  lemma {:induction false} FirstsAre(addr: nat -> Ip, n: nat, x: Ip)
    requires x in Firsts(addr, n)
    ensures exists i: nat :: i < n && x == addr(i)
  {
    if x in Firsts(addr, n - 1) {
      FirstsAre(addr, n - 1, x);
    }
  }

  lemma NeighboursCount(front: Bits, n: nat, bound: nat)
    requires |front| == 112 && bound == Pow2(16) && n <= bound
    ensures |Firsts(NeighbourOf(front), n)| == n
  {
    var addr := NeighbourOf(front);
    forall i: nat, j: nat | i < bound && j < bound && addr(i) == addr(j)
      ensures i == j
    {
      NeighboursDiffer(front, i, j, 16);
    }
    FirstsCount(addr, n, bound);
  }

  lemma NeighbourNet(front: Bits, n: nat)
    requires |front| == 112 && front[0]
    ensures DestNet(Neighbour(front, n)) == V6(front[..64] + Zero(64))
  {
    var ip := Neighbour(front, n);
    assert ip.bits[0] && !(Zero(80) + Ones(16))[0];
    assert ip.bits[..96][0];
    AndMask(ip.bits, 64);
    assert ip.bits[..64] == front[..64];
  }

  /** 50000 addresses of one IPv6 network fill the set and leave the index almost empty, so
      every IPv4 destination observed then is new again after a reload. */
  lemma FullSetForgets(front: Bits, ip: Ip, n: nat)
    requires |front| == 112 && front[0] && ip.V4? && !Ignored(ip) && n == 50_000
    ensures var l := Reloaded(Learned(Firsts(NeighbourOf(front), n), {}));
            Agrees(l) && Known(Observed(l, ip), ip) && !Known(Reloaded(Observed(l, ip)), ip)
  {
    var dests, net := Firsts(NeighbourOf(front), n), V6(front[..64] + Zero(64));
    PowValues(4);
    NeighboursCount(front, n, Pow2(16));
    forall d | d in dests
      ensures DestNet(d) == net
    {
      FirstsAre(NeighbourOf(front), n, d);
      var i: nat :| i < n && d == NeighbourOf(front)(i);
      NeighbourNet(front, i);
    }
    OneNetForgets(dests, net, ip);
  }

  lemma OneNetForgets(dests: set<Ip>, net: Ip, ip: Ip)
    requires |dests| == MAX_LEARNED && net.V6? && ip.V4? && !Ignored(ip) && forall d :: d in dests ==> DestNet(d) == net
    ensures var l := Reloaded(Learned(dests, {}));
            Agrees(l) && Known(Observed(l, ip), ip) && !Known(Reloaded(Observed(l, ip)), ip)
  {
    var l := Reloaded(Learned(dests, {}));
    LoadAgrees(dests);
    assert l.nets <= {net};
    SubsetCardinality(l.nets, {net});
    assert DestNet(ip).V4?;
    ForgottenByReload(l, ip);
  }
}
