/** How often a signature pages through the engine, with the event times the clamp lets
    through: up to a minute ahead of the wall clock and up to a day behind. Windows are
    judged by event times but forgotten by the wall clock, so a late repeat can end a window
    that is still open. */
module EngineRate {
  import opened Common
  import opened Dedup
  import DedupRuns
  import RefIds
  import opened EngineModel

  // ---------------------------------------------------------------------
  // Pace
  // ---------------------------------------------------------------------

  /** Two pages of `sig` with none between. */
  ghost predicate Consecutive(alerts: seq<Alert>, sig: string, i: int, j: int) {
    && 0 <= i < j < |alerts| && IsPage(alerts[i], sig) && IsPage(alerts[j], sig)
    && forall k :: i < k < j ==> !IsPage(alerts[k], sig)
  }

  /** A page that is not more severe than the one before comes at least `w` after it, in
      event time. */
  ghost predicate Paced(alerts: seq<Alert>, sig: string, w: int) {
    forall i, j :: Consecutive(alerts, sig, i, j) ==> PacedPair(alerts[i], alerts[j], w)
  }

  predicate PacedPair(a: Alert, b: Alert, w: int) {
    b.severity.Rank() <= a.severity.Rank() ==> a.ts + w <= b.ts
  }

  /** What follows holds no page of `sig`. */
  ghost predicate NoPages(more: seq<Alert>, sig: string) {
    forall i :: 0 <= i < |more| ==> !IsPage(more[i], sig)
  }

  lemma PageKept(alerts: seq<Alert>, more: seq<Alert>, sig: string, k: int)
    requires NoPages(more, sig) && 0 <= k < |alerts + more|
    ensures IsPage((alerts + more)[k], sig) <==> k < |alerts| && IsPage(alerts[k], sig)
  {
    if k >= |alerts| {
      assert (alerts + more)[k] == more[k - |alerts|];
    }
  }

  lemma LastKept(alerts: seq<Alert>, more: seq<Alert>, sig: string, i: int)
    requires NoPages(more, sig)
    ensures LastPage(alerts + more, sig, i) <==> LastPage(alerts, sig, i)
  {
    var all := alerts + more;
    forall k | 0 <= k < |all|
      ensures IsPage(all[k], sig) <==> k < |alerts| && IsPage(alerts[k], sig)
    {
      PageKept(alerts, more, sig, k);
    }
    if LastPage(all, sig, i) {
      forall j | i < j < |alerts|
        ensures !IsPage(alerts[j], sig)
      {
        assert !IsPage(all[j], sig);
      }
    }
  }

  lemma PairKept(alerts: seq<Alert>, more: seq<Alert>, sig: string, i: int, j: int)
    requires Consecutive(alerts + more, sig, i, j) && j < |alerts|
    ensures Consecutive(alerts, sig, i, j)
  {
    forall k | i < k < j
      ensures !IsPage(alerts[k], sig)
    {
      assert !IsPage((alerts + more)[k], sig);
    }
  }

  lemma PacedKept(alerts: seq<Alert>, more: seq<Alert>, sig: string, w: int)
    requires Paced(alerts, sig, w) && NoPages(more, sig)
    ensures Paced(alerts + more, sig, w)
    ensures forall i :: LastPage(alerts + more, sig, i) <==> LastPage(alerts, sig, i)
  {
    var all := alerts + more;
    forall i, j | Consecutive(all, sig, i, j)
      ensures PacedPair(all[i], all[j], w)
    {
      PageKept(alerts, more, sig, j);
      PairKept(alerts, more, sig, i, j);
    }
    forall i
      ensures LastPage(all, sig, i) <==> LastPage(alerts, sig, i)
    {
      LastKept(alerts, more, sig, i);
    }
  }

  lemma PairNew(alerts: seq<Alert>, a: Alert, sig: string, i: int, j: int)
    requires Consecutive(alerts + [a], sig, i, j) && j == |alerts|
    ensures LastPage(alerts, sig, i)
  {
    forall k | i < k < |alerts|
      ensures !IsPage(alerts[k], sig)
    {
      assert !IsPage((alerts + [a])[k], sig);
    }
  }

  lemma PacedMore(alerts: seq<Alert>, a: Alert, sig: string, w: int)
    requires Paced(alerts, sig, w) && IsPage(a, sig)
    requires forall i :: LastPage(alerts, sig, i) ==> PacedPair(alerts[i], a, w)
    ensures Paced(alerts + [a], sig, w) && LastPage(alerts + [a], sig, |alerts|)
  {
    var all := alerts + [a];
    forall i, j | Consecutive(all, sig, i, j)
      ensures PacedPair(all[i], all[j], w)
    {
      if j < |alerts| {
        PairKept(alerts, [a], sig, i, j);
      } else {
        PairNew(alerts, a, sig, i, j);
      }
    }
  }

  // ---------------------------------------------------------------------
  // Runs with a steady clock and bounded lateness
  // ---------------------------------------------------------------------

  /** None of these evicts `sig`, and they come no earlier than `from` if they are of it. */
  predicate Calm(found: seq<Raised>, sig: string, ts: int, from: int) {
    forall i :: 0 <= i < |found| ==> found[i].victim != sig && (found[i].f.signature == sig ==> from <= ts)
  }

  /** The operation does not start the deduper afresh, does not evict `sig`, and brings
      findings of it at most `late` seconds behind the wall clock. */
  predicate CalmOp(op: Op, sig: string, late: nat) {
    match op
    case Event(ts, wall, found) => Calm(found, sig, Clamp(ts, wall.secs), wall.secs - late)
    case TickOp(wall, digest, order) => Calm(digest, sig, wall.secs, wall.secs)
    case External(wall, finding) => finding.victim != sig
    case Reconfigure(_, same) => same
    case Restart(_, _) => false
  }

  predicate SteadyRun(ops: seq<Op>, start: Wall, sig: string, late: nat) {
    Steady(ops, start) && forall i :: 0 <= i < |ops| ==> LegalOp(ops[i]) && CalmOp(ops[i], sig, late)
  }

  /** The alert opened the entry, and nothing of the signature came more than `late` seconds
      before it since. */
  predicate Opened(a: Alert, e: Entry, late: nat, clock: int) {
    && a.ts == e.lastEmitted && a.severity.Rank() <= e.severity.Rank()
    && a.wall - late <= e.lastSeen && a.wall <= clock && a.ts <= a.wall + MAX_FUTURE_SKEW_SECS
  }

  /** Enough silence since the alert to have forgotten it. */
  predicate LongAgo(a: Alert, w: int, late: nat, clock: int) {
    a.wall + RETENTION_WINDOWS * w - late <= clock && a.ts <= a.wall + MAX_FUTURE_SKEW_SECS
  }

  ghost predicate Known(e: Eng, alerts: seq<Alert>, sig: string, late: nat, clock: int) {
    if sig in e.entries then exists i :: LastPage(alerts, sig, i) && Opened(alerts[i], e.entries[sig], late, clock)
    else forall i :: LastPage(alerts, sig, i) ==> LongAgo(alerts[i], e.window, late, clock)
  }

  ghost predicate PaceInv(e: Eng, alerts: seq<Alert>, sig: string, late: nat, clock: int) {
    Paced(alerts, sig, e.window) && Known(e, alerts, sig, late, clock)
  }

  lemma OtherFinding(e: Eng, x: Raised, ts: int, wall: Wall, alerts: seq<Alert>, sig: string, late: nat, clock: int)
    requires e.window >= 1 && PaceInv(e, alerts, sig, late, clock) && clock <= wall.secs
    requires x.f.signature != sig && x.victim != sig
    ensures var (e', more) := RaiseOne(e, x, ts, wall); PaceInv(e', alerts + more, sig, late, wall.secs)
  {
    var (e', more) := RaiseOne(e, x, ts, wall);
    assert sig in e'.entries <==> sig in e.entries;
    assert sig in e.entries ==> e'.entries[sig] == e.entries[sig];
    PacedKept(alerts, more, sig, e.window);
  }

  lemma NextPagePaced(e: Eng, f: Finding, ts: int, wall: Wall, alerts: seq<Alert>, late: nat, clock: int, a: Alert)
    requires e.window >= 1 && 2 * late + MAX_FUTURE_SKEW_SECS <= (RETENTION_WINDOWS - 1) * e.window
    requires Known(e, alerts, f.signature, late, clock) && clock <= wall.secs && wall.secs - late <= ts
    requires f.signature in e.entries ==> Escalates(e.entries[f.signature], f) || !Open(e.window, e.entries[f.signature], ts)
    requires a.ts == ts && a.severity == f.severity
    ensures forall i :: LastPage(alerts, f.signature, i) ==> PacedPair(alerts[i], a, e.window)
  {
    var sig := f.signature;
    if sig in e.entries {
      var i :| LastPage(alerts, sig, i) && Opened(alerts[i], e.entries[sig], late, clock);
      assert forall j :: LastPage(alerts, sig, j) ==> j == i;
      assert PacedPair(alerts[i], a, e.window);
    }
  }

  lemma OwnFinding(e: Eng, x: Raised, ts: int, wall: Wall, alerts: seq<Alert>, sig: string, late: nat, clock: int)
    requires e.window >= 1 && 2 * late + MAX_FUTURE_SKEW_SECS <= (RETENTION_WINDOWS - 1) * e.window
    requires PaceInv(e, alerts, sig, late, clock) && clock <= wall.secs
    requires x.f.signature == sig && wall.secs - late <= ts <= wall.secs + MAX_FUTURE_SKEW_SECS
    ensures var (e', more) := RaiseOne(e, x, ts, wall); PaceInv(e', alerts + more, sig, late, wall.secs)
  {
    var (e', more) := RaiseOne(e, x, ts, wall);
    if sig in e.entries {
      DedupRuns.AgainTimes(e.window, e.entries[sig], ts, x.f);
    }
    if more == [] {
      assert alerts + more == alerts;
      var i :| LastPage(alerts, sig, i) && Opened(alerts[i], e.entries[sig], late, clock);
      assert Opened(alerts[i], e'.entries[sig], late, wall.secs);
    } else {
      var a := more[0];
      assert more == [a] && IsPage(a, sig) && a.ts == ts && a.wall == wall.secs && a.severity == x.f.severity;
      NextPagePaced(e, x.f, ts, wall, alerts, late, clock, a);
      PacedMore(alerts, a, sig, e.window);
      OpenedNow(e, x, ts, wall, late, a);
      assert LastPage(alerts + more, sig, |alerts|) && (alerts + more)[|alerts|] == a;
    }
  }

  lemma OpenedNow(e: Eng, x: Raised, ts: int, wall: Wall, late: nat, a: Alert)
    requires e.window >= 1 && wall.secs - late <= ts <= wall.secs + MAX_FUTURE_SKEW_SECS
    requires RaiseOne(e, x, ts, wall).1 == [a]
    ensures x.f.signature in RaiseOne(e, x, ts, wall).0.entries
    ensures Opened(a, RaiseOne(e, x, ts, wall).0.entries[x.f.signature], late, wall.secs)
  {
  }

  lemma {:induction false} RaisePaced(e: Eng, xs: seq<Raised>, ts: int, wall: Wall, alerts: seq<Alert>, sig: string, late: nat, clock: int)
    requires e.window >= 1 && 2 * late + MAX_FUTURE_SKEW_SECS <= (RETENTION_WINDOWS - 1) * e.window
    requires PaceInv(e, alerts, sig, late, clock) && clock <= wall.secs && ts <= wall.secs + MAX_FUTURE_SKEW_SECS
    requires Calm(xs, sig, ts, wall.secs - late)
    ensures var (e', more) := Raise(e, xs, ts, wall); PaceInv(e', alerts + more, sig, late, wall.secs)
  {
    if xs == [] {
      assert alerts + [] == alerts;
      LaterKnown(e, alerts, sig, late, clock, wall.secs);
    } else {
      var init, x := xs[..|xs| - 1], xs[|xs| - 1];
      RaisePaced(e, init, ts, wall, alerts, sig, late, clock);
      var (e1, as1) := Raise(e, init, ts, wall);
      if x.f.signature == sig {
        OwnFinding(e1, x, ts, wall, alerts + as1, sig, late, wall.secs);
      } else {
        OtherFinding(e1, x, ts, wall, alerts + as1, sig, late, wall.secs);
      }
      var as2 := RaiseOne(e1, x, ts, wall).1;
      assert alerts + as1 + as2 == alerts + (as1 + as2);
    }
  }

  lemma LaterKnown(e: Eng, alerts: seq<Alert>, sig: string, late: nat, clock: int, clock': int)
    requires PaceInv(e, alerts, sig, late, clock) && clock <= clock'
    ensures PaceInv(e, alerts, sig, late, clock')
  {
    if sig in e.entries {
      var i :| LastPage(alerts, sig, i) && Opened(alerts[i], e.entries[sig], late, clock);
      assert Opened(alerts[i], e.entries[sig], late, clock');
    }
  }

  lemma TickPaced(e: Eng, alerts: seq<Alert>, sig: string, late: nat, now: int)
    requires e.window >= 1 && PaceInv(e, alerts, sig, late, now)
    ensures PaceInv(e.(entries := Tick(e.window, e.entries, now)), alerts, sig, late, now)
  {
    DedupRuns.TickKeeps(e.window, e.entries, now, sig);
    if sig in e.entries {
      DedupRuns.ClosedTimes(e.window, e.entries[sig], now);
      var i :| LastPage(alerts, sig, i) && Opened(alerts[i], e.entries[sig], late, now);
      if sig !in Tick(e.window, e.entries, now) {
        assert forall j :: LastPage(alerts, sig, j) ==> j == i;
        assert LongAgo(alerts[i], e.window, late, now);
      } else {
        assert Opened(alerts[i], Tick(e.window, e.entries, now)[sig], late, now);
      }
    }
  }

  lemma TickOpPaced(e: Eng, wall: Wall, digest: seq<Raised>, order: seq<string>, alerts: seq<Alert>, sig: string, late: nat, clock: int)
    requires e.window >= 1 && 2 * late + MAX_FUTURE_SKEW_SECS <= (RETENTION_WINDOWS - 1) * e.window
    requires PaceInv(e, alerts, sig, late, clock) && clock <= wall.secs && Calm(digest, sig, wall.secs, wall.secs)
    ensures var (e', more) := TickEng(e, wall, digest, order); PaceInv(e', alerts + more, sig, late, wall.secs)
  {
    var e0 := e.(counters := Rolled(e.counters, RefIds.DayKey(wall.date)));
    RaisePaced(e0, digest, wall.secs, wall, alerts, sig, late, clock);
    var (e1, as1) := Raise(e0, digest, wall.secs, wall);
    TickPaced(e1, alerts + as1, sig, late, wall.secs);
    var e2 := e1.(entries := Tick(e1.window, e1.entries, wall.secs));
    SummariesPaced(e2, order, wall, alerts + as1, sig, late);
    var as2 := IssueSummaries(e2, order, wall).1;
    assert alerts + as1 + as2 == alerts + (as1 + as2);
  }

  lemma SummariesPaced(e: Eng, order: seq<string>, wall: Wall, alerts: seq<Alert>, sig: string, late: nat)
    requires e.window >= 1 && PaceInv(e, alerts, sig, late, wall.secs)
    ensures var (e', more) := IssueSummaries(e, order, wall); PaceInv(e', alerts + more, sig, late, wall.secs)
  {
    var more := IssueSummaries(e, order, wall).1;
    SummariesAre(e, order, wall);
    PacedKept(alerts, more, sig, e.window);
    if sig in e.entries {
      var i :| LastPage(alerts, sig, i) && Opened(alerts[i], e.entries[sig], late, wall.secs);
      assert LastPage(alerts + more, sig, i) && (alerts + more)[i] == alerts[i];
    }
  }

  lemma StepPaced(e: Eng, op: Op, alerts: seq<Alert>, sig: string, late: nat, clock: int, clock': int)
    requires e.window >= 1 && 2 * late + MAX_FUTURE_SKEW_SECS <= (RETENTION_WINDOWS - 1) * e.window
    requires LegalOp(op) && CalmOp(op, sig, late) && PaceInv(e, alerts, sig, late, clock)
    requires clock <= clock' && clock' == if op.Reconfigure? then clock else op.wall.secs
    ensures PaceInv(Step(e, op).0, alerts + Step(e, op).1, sig, late, clock') && Step(e, op).0.window == e.window
  {
    match op
    case Event(ts, wall, found) =>
      RaisePaced(Begun(e, wall), found, Clamp(ts, wall.secs), wall, alerts, sig, late, clock);
    case TickOp(wall, digest, order) => TickOpPaced(e, wall, digest, order, alerts, sig, late, clock);
    case External(wall, x) =>
      if x.f.signature == sig {
        OwnFinding(e, x, wall.secs, wall, alerts, sig, late, clock);
      } else {
        OtherFinding(e, x, wall.secs, wall, alerts, sig, late, clock);
      }
    case Reconfigure(_, _) => assert alerts + [] == alerts;
  }

  lemma {:induction false} PlayPaced(ops: seq<Op>, w: int, start: Wall, sig: string, late: nat)
    requires w >= 1 && 2 * late + MAX_FUTURE_SKEW_SECS <= (RETENTION_WINDOWS - 1) * w && SteadyRun(ops, start, sig, late)
    ensures var (e, alerts) := Play(ops, w, start);
            e.window == w && PaceInv(e, alerts, sig, late, Clock(ops, start))
  {
    if ops != [] {
      var init, last := ops[..|ops| - 1], ops[|ops| - 1];
      assert ops == init + [last];
      PlayPaced(init, w, start, sig, late);
      var (e, alerts) := Play(init, w, start);
      StepPaced(e, last, alerts, sig, late, Clock(init, start), Clock(ops, start));
    }
  }

  // ---------------------------------------------------------------------
  // A run that loses the pace
  // ---------------------------------------------------------------------

  /** One more operation. */
  lemma PlayMore(ops: seq<Op>, op: Op, w: int, start: Wall)
    requires w >= 1 && (forall o :: o in ops ==> LegalOp(o)) && LegalOp(op)
    ensures forall o :: o in ops + [op] ==> LegalOp(o)
    ensures var (e, alerts) := Play(ops, w, start);
            Play(ops + [op], w, start) == (Step(e, op).0, alerts + Step(e, op).1)
    ensures Steady(ops + [op], start) <==> Steady(ops, start) && Clock(ops, start) <= Clock(ops + [op], start)
  {
    assert (ops + [op])[..|ops|] == ops;
  }

  lemma EventOne(e: Eng, ts: int, wall: Wall, x: Raised)
    requires e.window >= 1 && RefIds.ValidDate(wall.date)
    ensures Step(e, Event(ts, wall, [x])) == RaiseOne(Begun(e, wall), x, Clamp(ts, wall.secs), wall)
  {
    var begun, now := Begun(e, wall), Clamp(ts, wall.secs);
    RaiseMore(begun, [], x, now, wall);
    assert [] + [x] == [x];
    assert Raise(begun, [], now, wall) == (begun, []);
    assert [] + RaiseOne(begun, x, now, wall).1 == RaiseOne(begun, x, now, wall).1;
  }

  /** The entry of a finding that paged at `begun`, last seen at `seen`, never stretched. */
  predicate Single(e: Eng, f: Finding, begun: int, seen: int) {
    && f.signature in e.entries
    && var n := e.entries[f.signature];
       n.lastEmitted == begun && n.lastSeen == seen && n.streak == 0 && n.severity == f.severity
  }

  predicate PageOf(more: seq<Alert>, f: Finding, ts: int) {
    |more| == 1 && IsPage(more[0], f.signature) && more[0].ts == ts && more[0].severity == f.severity
  }

  lemma UnknownPages(e: Eng, ts: int, wall: Wall, x: Raised)
    requires e.window >= 1 && RefIds.ValidDate(wall.date) && x.f.signature !in e.entries
    requires wall.secs - MAX_PAST_SKEW_SECS <= ts <= wall.secs + MAX_FUTURE_SKEW_SECS
    ensures var (e', more) := Step(e, Event(ts, wall, [x]));
            Single(e', x.f, ts, ts) && PageOf(more, x.f, ts) && e'.window == e.window
  {
    EventOne(e, ts, wall, x);
  }

  lemma RepeatQuiet(e: Eng, ts: int, wall: Wall, x: Raised, begun: int, seen: int)
    requires e.window >= 1 && RefIds.ValidDate(wall.date) && Single(e, x.f, begun, seen) && ts < begun + e.window
    requires wall.secs - MAX_PAST_SKEW_SECS <= ts <= wall.secs + MAX_FUTURE_SKEW_SECS
    ensures var (e', more) := Step(e, Event(ts, wall, [x]));
            Single(e', x.f, begun, ts) && more == [] && e'.window == e.window
  {
    EventOne(e, ts, wall, x);
    assert Window(e.window, 0) == e.window;
  }

  lemma TickForgets(e: Eng, wall: Wall, order: seq<string>, f: Finding, begun: int, seen: int)
    requires e.window >= 1 && RefIds.ValidDate(wall.date) && Single(e, f, begun, seen)
    requires seen + RETENTION_WINDOWS * e.window <= wall.secs
    ensures var (e', more) := Step(e, TickOp(wall, [], order));
            f.signature !in e'.entries && NoPages(more, f.signature) && e'.window == e.window
  {
    var e0 := e.(counters := Rolled(e.counters, RefIds.DayKey(wall.date)));
    assert Raise(e0, [], wall.secs, wall) == (e0, []);
    DedupRuns.TickGone(e.window, e.entries, wall.secs, f.signature);
    DedupRuns.ClosedTimes(e.window, e.entries[f.signature], wall.secs);
    assert Window(e.window, 0) == e.window;
    var e1 := e0.(entries := Tick(e.window, e.entries, wall.secs));
    SummariesAre(e1, order, wall);
    assert [] + IssueSummaries(e1, order, wall).1 == IssueSummaries(e1, order, wall).1;
  }

  /** When twelve windows have passed since a time `late` seconds before 0. */
  function TickTime(w: int, late: nat): (r: int)
    requires w >= 1
    ensures 0 <= r && RETENTION_WINDOWS * w - late <= r
  {
    if late < RETENTION_WINDOWS * w then RETENTION_WINDOWS * w - late else 0
  }

  /** A page stamped a minute ahead and a repeat stamped `late` behind. */
  predicate StartsLate(ops: seq<Op>, late: nat, d: RefIds.Date, x: Raised) {
    |ops| >= 2 && ops[0] == Event(MAX_FUTURE_SKEW_SECS, Wall(0, d), [x]) && ops[1] == Event(0 - late, Wall(0, d), [x])
  }

  /** The same, then a tick as soon as that repeat is twelve windows old, and a finding
      stamped `late` behind that. */
  predicate LateOps(ops: seq<Op>, late: nat, now: int, d: RefIds.Date, x: Raised, order: seq<string>) {
    && |ops| == 4 && StartsLate(ops, late, d, x)
    && ops[2] == TickOp(Wall(now, d), [], order) && ops[3] == Event(now - late, Wall(now, d), [x])
  }

  lemma FirstTwo(w: int, late: nat, d: RefIds.Date, x: Raised, start: Wall) returns (ops: seq<Op>, first: seq<Alert>)
    requires w >= 1 && late <= MAX_PAST_SKEW_SECS && RefIds.ValidDate(d) && start == Wall(0, d)
    ensures |ops| == 2 && StartsLate(ops, late, d, x) && forall o :: o in ops ==> LegalOp(o)
    ensures Steady(ops, start) && Clock(ops, start) == 0
    ensures var (e, alerts) := Play(ops, w, start);
            e.window == w && Single(e, x.f, MAX_FUTURE_SKEW_SECS, 0 - late) && alerts == first
    ensures PageOf(first, x.f, MAX_FUTURE_SKEW_SECS)
  {
    var here := Wall(0, d);
    var op1, op2 := Event(MAX_FUTURE_SKEW_SECS, here, [x]), Event(0 - late, here, [x]);
    var e0 := Play([], w, start).0;
    PlayMore([], op1, w, start);
    UnknownPages(e0, MAX_FUTURE_SKEW_SECS, here, x);
    var (e1, a1) := Step(e0, op1);
    PlayMore([] + [op1], op2, w, start);
    RepeatQuiet(e1, 0 - late, here, x, MAX_FUTURE_SKEW_SECS, MAX_FUTURE_SKEW_SECS);
    first := a1;
    assert [] + a1 == a1 && a1 + [] == a1;
    ops := [] + [op1] + [op2];
  }

  lemma LastTwo(w: int, two: seq<Op>, f: Finding, seen: int, now: int, op3: Op, start: Wall) returns (more: seq<Alert>)
    requires w >= 1 && (forall o :: o in two ==> LegalOp(o)) && Steady(two, start) && Clock(two, start) <= now
    requires LegalOp(op3) && op3.TickOp? && op3.wall.secs == now && op3.digest == []
    requires var e := Play(two, w, start).0; e.window == w && Single(e, f, MAX_FUTURE_SKEW_SECS, seen)
    requires seen + RETENTION_WINDOWS * w <= now
    ensures (forall o :: o in two + [op3] ==> LegalOp(o)) && Steady(two + [op3], start) && Clock(two + [op3], start) == now
    ensures var (e, alerts) := Play(two + [op3], w, start);
            e.window == w && f.signature !in e.entries && alerts == Play(two, w, start).1 + more && NoPages(more, f.signature)
  {
    PlayMore(two, op3, w, start);
    TickForgets(Play(two, w, start).0, op3.wall, op3.order, f, MAX_FUTURE_SKEW_SECS, seen);
    more := Step(Play(two, w, start).0, op3).1;
  }

  lemma LastPaged(w: int, three: seq<Op>, x: Raised, op4: Op, start: Wall) returns (last: seq<Alert>)
    requires w >= 1 && (forall o :: o in three ==> LegalOp(o)) && Steady(three, start)
    requires op4.Event? && RefIds.ValidDate(op4.wall.date) && op4.found == [x] && Clock(three, start) <= op4.wall.secs
    requires op4.wall.secs - MAX_PAST_SKEW_SECS <= op4.ts <= op4.wall.secs + MAX_FUTURE_SKEW_SECS
    requires var e := Play(three, w, start).0; e.window == w && x.f.signature !in e.entries
    ensures (forall o :: o in three + [op4] ==> LegalOp(o)) && Steady(three + [op4], start)
    ensures Play(three + [op4], w, start).1 == Play(three, w, start).1 + last && PageOf(last, x.f, op4.ts)
  {
    PlayMore(three, op4, w, start);
    UnknownPages(Play(three, w, start).0, op4.ts, op4.wall, x);
    last := Step(Play(three, w, start).0, op4).1;
  }

  /** That run, with a page, no page, and a page `now - late`. */
  lemma LatePlay(w: int, late: nat, now: int, d: RefIds.Date, x: Raised, order: seq<string>, start: Wall)
    returns (ops: seq<Op>, first: seq<Alert>, more: seq<Alert>, last: seq<Alert>)
    requires w >= 1 && late <= MAX_PAST_SKEW_SECS && RefIds.ValidDate(d) && start == Wall(0, d) && now == TickTime(w, late)
    ensures LateOps(ops, late, now, d, x, order) && (forall o :: o in ops ==> LegalOp(o)) && Steady(ops, start)
    ensures Play(ops, w, start).1 == first + more + last
    ensures PageOf(first, x.f, MAX_FUTURE_SKEW_SECS) && NoPages(more, x.f.signature) && PageOf(last, x.f, now - late)
  {
    var op3, op4 := TickOp(Wall(now, d), [], order), Event(now - late, Wall(now, d), [x]);
    var two;
    two, first := FirstTwo(w, late, d, x, start);
    more := LastTwo(w, two, x.f, 0 - late, now, op3, start);
    last := LastPaged(w, two + [op3], x, op4, start);
    ops := two + [op3] + [op4];
  }

  lemma Unpaced(first: seq<Alert>, more: seq<Alert>, last: seq<Alert>, f: Finding, t: int, t': int, w: int)
    requires PageOf(first, f, t) && NoPages(more, f.signature) && PageOf(last, f, t') && t' < t + w
    ensures !Paced(first + more + last, f.signature, w)
  {
    var all, n := first + more + last, |more| + 1;
    assert all[0] == first[0] && all[n] == last[0];
    forall k | 0 < k < n
      ensures !IsPage(all[k], f.signature)
    {
      assert all[k] == more[k - 1];
    }
    assert Consecutive(all, f.signature, 0, n);
  }

  lemma LateCalm(ops: seq<Op>, late: nat, now: int, d: RefIds.Date, x: Raised, order: seq<string>, start: Wall)
    requires LateOps(ops, late, now, d, x, order) && (forall o :: o in ops ==> LegalOp(o)) && Steady(ops, start)
    requires late <= MAX_PAST_SKEW_SECS && x.victim != x.f.signature
    ensures SteadyRun(ops, start, x.f.signature, late)
  {
    forall i | 0 <= i < |ops|
      ensures LegalOp(ops[i]) && CalmOp(ops[i], x.f.signature, late)
    {
      assert ops[i] in ops;
    }
  }

  // ---------------------------------------------------------------------
  // When the pace is kept
  // ---------------------------------------------------------------------

  /** The page rate through the clamp, exactly. In every run with a steady clock in which the
      deduper is not started afresh, the signature is not evicted and its findings are at
      most `late` seconds late, a page of it that is no more severe than the one before is
      a window after it, if and only if twice `late` and the minute ahead fit into eleven
      windows. */
  lemma SteadyRateExactly(w: int, late: nat, d: RefIds.Date, x: Raised)
    requires w >= 1 && late <= 86_400 && RefIds.ValidDate(d) && x.victim != x.f.signature
    ensures (forall ops, start, sig :: SteadyRun(ops, start, sig, late) ==> PacedAfter(ops, w, start, sig))
            <==> 2 * late + 60 <= 11 * w
  {
    if 2 * late + MAX_FUTURE_SKEW_SECS <= (RETENTION_WINDOWS - 1) * w {
      forall ops, start, sig | SteadyRun(ops, start, sig, late)
        ensures PacedAfter(ops, w, start, sig)
      {
        PlayPaced(ops, w, start, sig, late);
      }
    } else {
      var start := Wall(0, d);
      var now := TickTime(w, late);
      var ops := LateLosesPace(w, late, now, d, x, [], start);
    }
  }

  ghost predicate PacedAfter(ops: seq<Op>, w: int, start: Wall, sig: string)
    requires w >= 1 && forall i :: 0 <= i < |ops| ==> LegalOp(ops[i])
  {
    Paced(Play(ops, w, start).1, sig, w)
  }

  /** Beyond that the run above loses the pace. */
  lemma LateLosesPace(w: int, late: nat, now: int, d: RefIds.Date, x: Raised, order: seq<string>, start: Wall)
    returns (ops: seq<Op>)
    requires w >= 1 && late <= 86_400 && RefIds.ValidDate(d) && start == Wall(0, d) && now == TickTime(w, late)
    requires x.victim != x.f.signature && 2 * late + 60 > 11 * w
    ensures LateOps(ops, late, now, d, x, order) && SteadyRun(ops, start, x.f.signature, late)
    ensures !PacedAfter(ops, w, start, x.f.signature)
  {
    var first, more, last;
    ops, first, more, last := LatePlay(w, late, now, d, x, order, start);
    LateCalm(ops, late, now, d, x, order, start);
    Unpaced(first, more, last, x.f, MAX_FUTURE_SKEW_SECS, now - late, w);
  }

  /** With all the clamp lets through the rate is kept exactly for windows of 15715 seconds
      and more; with the default of 300 it is lost from 1621 seconds of lateness on. */
  lemma ClampRate(w: int, d: RefIds.Date, x: Raised)
    requires w >= 1 && RefIds.ValidDate(d) && x.victim != x.f.signature
    ensures (forall ops, start, sig :: SteadyRun(ops, start, sig, 86_400) ==> PacedAfter(ops, w, start, sig))
            <==> w >= 15_715
  {
    SteadyRateExactly(w, MAX_PAST_SKEW_SECS, d, x);
  }
}
