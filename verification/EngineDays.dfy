/** The daily counters of the engine, hermian-core/src/engine.rs: what one event, tick or
    restart leaves in them, and over whole runs, that they count exactly the alerts made
    since the day they stand for began. */
module EngineDays {
  import opened Common
  import opened Dedup
  import RefIds
  import opened EngineModel

  /** How many of these alerts have severity `s`. */
  function Of(alerts: seq<Alert>, s: Severity): nat {
    if alerts == [] then 0
    else Of(alerts[..|alerts| - 1], s) + if alerts[|alerts| - 1].severity == s then 1 else 0
  }

  lemma {:induction false} OfBoth(a: seq<Alert>, b: seq<Alert>, s: Severity)
    ensures Of(a + b, s) == Of(a, s) + Of(b, s)
    decreases |b|
  {
    if b == [] {
      assert a + b == a;
    } else {
      var init := b[..|b| - 1];
      assert (a + b)[..|a + b| - 1] == a + init;
      OfBoth(a, init, s);
    }
  }

  lemma OfNone(s: Severity)
    ensures Of([], s) == 0
  {
  }

  /** `c'` is `c` with these alerts counted, on the same day. */
  ghost predicate Adds(c: Counters, c': Counters, more: seq<Alert>) {
    && c'.day == c.day && c'.events == c.events && c'.today == c.today + |more|
    && forall s: Severity :: Count(c', s) == Count(c, s) + Of(more, s)
  }

  lemma AddsNone(c: Counters)
    ensures Adds(c, c, [])
  {
    forall s: Severity
      ensures Of([], s) == 0
    {
      OfNone(s);
    }
  }

  lemma AddsBoth(c: Counters, c1: Counters, c2: Counters, a: seq<Alert>, b: seq<Alert>)
    requires Adds(c, c1, a) && Adds(c1, c2, b)
    ensures Adds(c, c2, a + b)
  {
    forall s: Severity
      ensures Of(a + b, s) == Of(a, s) + Of(b, s)
    {
      OfBoth(a, b, s);
    }
  }

  lemma IssueAdds(e: Eng, signature: string, summary: bool, severity: Severity, ts: int, wall: Wall)
    ensures var (e', a) := Issue(e, signature, summary, severity, ts, wall); Adds(e.counters, e'.counters, [a])
  {
    var a := Issue(e, signature, summary, severity, ts, wall).1;
    assert [a][..0] == [];
  }

  lemma RaiseOneAdds(e: Eng, x: Raised, ts: int, wall: Wall)
    requires e.window >= 1
    ensures var (e', more) := RaiseOne(e, x, ts, wall); Adds(e.counters, e'.counters, more)
  {
    var (entries, d) := Record(e.window, e.entries, x.f.signature, ts, x.f, x.victim);
    IssueAdds(e.(entries := entries), x.f.signature, false, x.f.severity, ts, wall);
    AddsNone(e.counters);
  }

  lemma {:induction false} RaiseAdds(e: Eng, xs: seq<Raised>, ts: int, wall: Wall)
    requires e.window >= 1
    ensures var (e', more) := Raise(e, xs, ts, wall); Adds(e.counters, e'.counters, more)
  {
    if xs == [] {
      AddsNone(e.counters);
    } else {
      RaiseAdds(e, xs[..|xs| - 1], ts, wall);
      var (e1, as1) := Raise(e, xs[..|xs| - 1], ts, wall);
      RaiseOneAdds(e1, xs[|xs| - 1], ts, wall);
      var (e2, as2) := RaiseOne(e1, xs[|xs| - 1], ts, wall);
      AddsBoth(e.counters, e1.counters, e2.counters, as1, as2);
    }
  }

  lemma {:induction false} SummariesAdd(e: Eng, order: seq<string>, wall: Wall)
    ensures var (e', more) := IssueSummaries(e, order, wall); Adds(e.counters, e'.counters, more)
  {
    if order == [] {
      AddsNone(e.counters);
    } else {
      SummariesAdd(e, order[..|order| - 1], wall);
      var (e1, as1) := IssueSummaries(e, order[..|order| - 1], wall);
      var sig := "summary|" + order[|order| - 1];
      IssueAdds(e1, sig, true, Low, wall.secs, wall);
      var (e2, a) := Issue(e1, sig, true, Low, wall.secs, wall);
      AddsBoth(e.counters, e1.counters, e2.counters, as1, [a]);
    }
  }

  // ---------------------------------------------------------------------
  // One step
  // ---------------------------------------------------------------------

  /** What the counters say after a step on `day` that made these alerts: on a new day just
      them, on the same day them in addition. */
  ghost predicate DayCounts(c: Counters, c': Counters, day: string, more: seq<Alert>) {
    && c'.day == day
    && c'.today == (if c.day == day then c.today else 0) + |more|
    && forall s: Severity :: Count(c', s) == (if c.day == day then Count(c, s) else 0) + Of(more, s)
  }

  lemma RolledCounts(c: Counters, c': Counters, day: string, more: seq<Alert>)
    requires Adds(Rolled(c, day), c', more)
    ensures DayCounts(c, c', day, more) && c'.events == c.events
  {
  }

  /** An event is counted once, and its alerts under the day the wall clock shows. */
  lemma EventCounts(e: Eng, ts: int, wall: Wall, xs: seq<Raised>)
    requires e.window >= 1
    ensures var (e', more) := Process(e, ts, wall, xs);
            DayCounts(e.counters, e'.counters, RefIds.DayKey(wall.date), more) && e'.counters.events == e.counters.events + 1
  {
    var now := Clamp(ts, wall.secs);
    RaiseAdds(Begun(e, wall), xs, now, wall);
    var (e', more) := Raise(Begun(e, wall), xs, now, wall);
    BegunCounts(e, wall, e'.counters, more, RefIds.DayKey(wall.date));
  }

  lemma BegunCounts(e: Eng, wall: Wall, c': Counters, more: seq<Alert>, day: string)
    requires day == RefIds.DayKey(wall.date) && Adds(Begun(e, wall).counters, c', more)
    ensures DayCounts(e.counters, c', day, more) && c'.events == e.counters.events + 1
  {
    var c := e.counters.(events := e.counters.events + 1);
    assert Begun(e, wall).counters == Rolled(c, day);
    RolledCounts(c, c', day, more);
  }

  lemma TickCounts(e: Eng, wall: Wall, digest: seq<Raised>, order: seq<string>)
    requires e.window >= 1
    ensures var (e', more) := TickEng(e, wall, digest, order);
            DayCounts(e.counters, e'.counters, RefIds.DayKey(wall.date), more) && e'.counters.events == e.counters.events
  {
    var e0 := e.(counters := Rolled(e.counters, RefIds.DayKey(wall.date)));
    RaiseAdds(e0, digest, wall.secs, wall);
    var (e1, as1) := Raise(e0, digest, wall.secs, wall);
    var e2 := e1.(entries := Tick(e1.window, e1.entries, wall.secs));
    SummariesAdd(e2, order, wall);
    var (e3, as2) := IssueSummaries(e2, order, wall);
    AddsBoth(e0.counters, e1.counters, e3.counters, as1, as2);
    RolledCounts(e.counters, e3.counters, RefIds.DayKey(wall.date), as1 + as2);
  }

  /** A restart on the same day goes on counting; on another it starts again, events too. */
  lemma RestartCounts(e: Eng, window: int, wall: Wall)
    requires window >= 1
    ensures var c', same := Restarted(e, window, wall).counters, e.counters.day == RefIds.DayKey(wall.date);
            && DayCounts(e.counters, c', RefIds.DayKey(wall.date), [])
            && c'.events == if same then e.counters.events else 0
  {
    forall s: Severity
      ensures Of([], s) == 0
    {
      OfNone(s);
    }
  }

  // ---------------------------------------------------------------------
  // Runs
  // ---------------------------------------------------------------------

  /** The operations that look at the date for the counters: external findings do not. */
  predicate Dated(op: Op) {
    op.Event? || op.TickOp? || op.Restart?
  }

  /** The day of the last operation that looked at the date, or of the start. */
  function DayOf(ops: seq<Op>, start: Wall): string {
    if ops == [] then RefIds.DayKey(start.date)
    else if Dated(ops[|ops| - 1]) then RefIds.DayKey(ops[|ops| - 1].wall.date)
    else DayOf(ops[..|ops| - 1], start)
  }

  /** The `j`-th operation finds another date than the one before it that looked. */
  predicate Turns(ops: seq<Op>, start: Wall, j: nat)
    requires j < |ops|
  {
    Dated(ops[j]) && RefIds.DayKey(ops[j].wall.date) != DayOf(ops[..j], start)
  }

  /** The day the run ends on began with the `k`-th operation. */
  ghost predicate DayBegins(ops: seq<Op>, start: Wall, k: nat) {
    && k <= |ops| && (k == 0 || (k < |ops| && Turns(ops, start, k)))
    && forall j: nat :: k < j < |ops| ==> !Turns(ops, start, j)
  }

  /** The alerts of a run that its first `k` operations did not make. */
  function Since(ops: seq<Op>, window: int, start: Wall, k: nat): seq<Alert>
    requires window >= 1 && (forall op :: op in ops ==> LegalOp(op)) && k <= |ops|
    decreases |ops|
  {
    if k == |ops| then []
    else
      var init, last := ops[..|ops| - 1], ops[|ops| - 1];
      assert ops == init + [last];
      Since(init, window, start, k) + Step(Play(init, window, start).0, last).1
  }

  lemma {:induction false} SinceMore(init: seq<Op>, last: Op, window: int, start: Wall, k: nat, more: seq<Alert>)
    requires window >= 1 && (forall op :: op in init ==> LegalOp(op)) && LegalOp(last) && k <= |init|
    requires more == Step(Play(init, window, start).0, last).1
    ensures Since(init + [last], window, start, k) == Since(init, window, start, k) + more
  {
    assert (init + [last])[..|init|] == init;
  }

  lemma {:induction false} PlayMore(init: seq<Op>, last: Op, window: int, start: Wall, more: seq<Alert>)
    requires window >= 1 && (forall op :: op in init ==> LegalOp(op)) && LegalOp(last)
    requires more == Step(Play(init, window, start).0, last).1
    ensures Play(init + [last], window, start).1 == Play(init, window, start).1 + more
  {
    assert (init + [last])[..|init|] == init;
  }

  lemma Regroup(a: seq<Alert>, b: seq<Alert>, c: seq<Alert>)
    ensures a + b + c == a + (b + c)
  {
  }

  ghost predicate Rest(ops: seq<Op>, window: int, start: Wall, k: nat, head: seq<Alert>)
    requires window >= 1 && (forall op :: op in ops ==> LegalOp(op)) && k <= |ops|
  {
    Play(ops, window, start).1 == head + Since(ops, window, start, k)
  }

  lemma RestMore(init: seq<Op>, last: Op, window: int, start: Wall, k: nat, head: seq<Alert>)
    requires window >= 1 && (forall op :: op in init ==> LegalOp(op)) && LegalOp(last) && k <= |init|
    requires Rest(init, window, start, k, head)
    ensures Rest(init + [last], window, start, k, head)
  {
    var more := Step(Play(init, window, start).0, last).1;
    SinceMore(init, last, window, start, k, more);
    PlayMore(init, last, window, start, more);
    Regroup(head, Since(init, window, start, k), more);
  }

  lemma RestNone(ops: seq<Op>, window: int, start: Wall, k: nat, head: seq<Alert>)
    requires window >= 1 && (forall op :: op in ops ==> LegalOp(op)) && k == |ops| && head == Play(ops, window, start).1
    ensures Rest(ops, window, start, k, head)
  {
    assert head + [] == head;
  }

  /** They are the rest of the alerts. */
  lemma {:induction false} SinceIsRest(ops: seq<Op>, window: int, start: Wall, k: nat, first: seq<Op>, head: seq<Alert>)
    requires window >= 1 && (forall op :: op in ops ==> LegalOp(op)) && k <= |ops|
    requires first == ops[..k] && head == Play(first, window, start).1
    ensures Rest(ops, window, start, k, head)
    decreases |ops|
  {
    if k == |ops| {
      assert first == ops;
      RestNone(ops, window, start, k, head);
    } else {
      var init, last := ops[..|ops| - 1], ops[|ops| - 1];
      assert ops == init + [last] && init[..k] == first;
      SinceIsRest(init, window, start, k, first, head);
      RestMore(init, last, window, start, k, head);
    }
  }

  /** What one step does to the counters, whatever it is. */
  lemma StepCounts(e: Eng, op: Op)
    requires e.window >= 1 && LegalOp(op)
    ensures var (e', more) := Step(e, op);
            && (Dated(op) ==> DayCounts(e.counters, e'.counters, RefIds.DayKey(op.wall.date), more))
            && (!Dated(op) ==> Adds(e.counters, e'.counters, more))
  {
    match op
    case Event(ts, wall, found) => EventCounts(e, ts, wall, found);
    case TickOp(wall, digest, order) => TickCounts(e, wall, digest, order);
    case External(wall, finding) => RaiseOneAdds(e, finding, wall.secs, wall);
    case Reconfigure(window, same) => AddsNone(e.counters);
    case Restart(wall, window) => RestartCounts(e, window, wall);
  }

  /** The counters stand for `alerts`, made on `day`. */
  ghost predicate CountsOf(c: Counters, day: string, alerts: seq<Alert>) {
    c.day == day && c.today == |alerts| && forall s: Severity :: Count(c, s) == Of(alerts, s)
  }

  lemma SameDayCounts(c: Counters, c': Counters, day: string, alerts: seq<Alert>, more: seq<Alert>)
    requires CountsOf(c, day, alerts) && (Adds(c, c', more) || DayCounts(c, c', day, more))
    ensures CountsOf(c', day, alerts + more)
  {
    forall s: Severity
      ensures Of(alerts + more, s) == Of(alerts, s) + Of(more, s)
    {
      OfBoth(alerts, more, s);
    }
  }

  lemma NewDayCounts(c: Counters, c': Counters, day: string, more: seq<Alert>)
    requires DayCounts(c, c', day, more) && c.day != day
    ensures CountsOf(c', day, [] + more)
  {
    assert [] + more == more;
  }

  lemma SomeDayBegins(ops: seq<Op>, start: Wall) returns (k: nat)
    ensures DayBegins(ops, start, k)
  {
    k := |ops|;
    while k > 0 && !(k < |ops| && Turns(ops, start, k))
      invariant k <= |ops| && forall j: nat :: k < j < |ops| ==> !Turns(ops, start, j)
    {
      k := k - 1;
    }
  }

  lemma TurnsEarlier(ops: seq<Op>, start: Wall, j: nat)
    requires j + 1 < |ops|
    ensures Turns(ops[..|ops| - 1], start, j) == Turns(ops, start, j)
  {
    assert ops[..|ops| - 1][..j] == ops[..j];
  }

  lemma BeginsEarlier(ops: seq<Op>, start: Wall, k: nat)
    requires DayBegins(ops, start, k) && k < |ops| - 1
    ensures DayBegins(ops[..|ops| - 1], start, k) && !Turns(ops, start, |ops| - 1)
  {
    var init := ops[..|ops| - 1];
    if k > 0 {
      TurnsEarlier(ops, start, k);
    }
    forall j: nat | k < j < |init|
      ensures !Turns(init, start, j)
    {
      TurnsEarlier(ops, start, j);
      assert !Turns(ops, start, j);
    }
  }

  /** Over any run of events, ticks, external findings, reconfigurations and restarts, with
      any clock, the counters stand for the day the last dated operation saw and count
      exactly the alerts made since the operation that day began with, in total and of each
      severity. */
  lemma {:induction false} CountersAreToday(ops: seq<Op>, window: int, start: Wall, k: nat)
    requires window >= 1 && (forall op :: op in ops ==> LegalOp(op)) && DayBegins(ops, start, k)
    ensures var (e, alerts) := Play(ops, window, start);
            && Play(ops[..k], window, start).1 <= alerts
            && CountsOf(e.counters, DayOf(ops, start), alerts[|Play(ops[..k], window, start).1|..])
  {
    SinceIsRest(ops, window, start, k, ops[..k], Play(ops[..k], window, start).1);
    CountedSince(ops, window, start, k);
  }

  lemma {:induction false} CountedSince(ops: seq<Op>, window: int, start: Wall, k: nat)
    requires window >= 1 && (forall op :: op in ops ==> LegalOp(op)) && DayBegins(ops, start, k)
    ensures CountsOf(Play(ops, window, start).0.counters, DayOf(ops, start), Since(ops, window, start, k))
    decreases |ops|
  {
    if ops == [] {
      forall s: Severity
        ensures Of([], s) == 0
      {
        OfNone(s);
      }
    } else {
      var init, last := ops[..|ops| - 1], ops[|ops| - 1];
      assert ops == init + [last];
      var (e, _) := Play(init, window, start);
      StepCounts(e, last);
      var k0 := k;
      if k < |init| {
        BeginsEarlier(ops, start, k);
      } else {
        k0 := SomeDayBegins(init, start);
      }
      CountedSince(init, window, start, k0);
      CountedMore(ops, window, start, k, e, Since(init, window, start, k0));
    }
  }

  lemma CountedMore(ops: seq<Op>, window: int, start: Wall, k: nat, e: Eng, sofar: seq<Alert>)
    requires window >= 1 && (forall op :: op in ops ==> LegalOp(op)) && DayBegins(ops, start, k) && ops != []
    requires (forall op :: op in ops[..|ops| - 1] ==> LegalOp(op)) && e == Play(ops[..|ops| - 1], window, start).0
    requires k < |ops| - 1 ==> sofar == Since(ops[..|ops| - 1], window, start, k)
    requires CountsOf(e.counters, DayOf(ops[..|ops| - 1], start), sofar)
    ensures CountsOf(Play(ops, window, start).0.counters, DayOf(ops, start), Since(ops, window, start, k))
  {
    var init, last := ops[..|ops| - 1], ops[|ops| - 1];
    var day := DayOf(ops, start);
    var (e', more) := Step(e, last);
    StepCounts(e, last);
    if k < |ops| - 1 {
      BeginsEarlier(ops, start, k);
      SameDayCounts(e.counters, e'.counters, day, sofar, more);
    } else {
      assert Since(ops, window, start, k) == Since(init, window, start, k) + more == [] + more;
      if Turns(ops, start, k) {
        NewDayCounts(e.counters, e'.counters, day, more);
      } else {
        assert init == [];
        FreshCounts(e, window, start, day);
        SameDayCounts(e.counters, e'.counters, day, [], more);
      }
    }
  }

  lemma FreshCounts(e: Eng, window: int, start: Wall, day: string)
    requires window >= 1 && e == Play([], window, start).0 && day == RefIds.DayKey(start.date)
    ensures CountsOf(e.counters, day, [])
  {
    forall s: Severity
      ensures Of([], s) == 0
    {
      OfNone(s);
    }
  }

  // ---------------------------------------------------------------------
  // Events
  // ---------------------------------------------------------------------

  /** The events among these operations. */
  function Events(ops: seq<Op>): nat {
    if ops == [] then 0 else Events(ops[..|ops| - 1]) + if ops[|ops| - 1].Event? then 1 else 0
  }

  /** A restart on another day than the last one seen. */
  predicate Resets(ops: seq<Op>, start: Wall, j: nat)
    requires j < |ops|
  {
    ops[j].Restart? && RefIds.DayKey(ops[j].wall.date) != DayOf(ops[..j], start)
  }

  /** The count of events starts again only with a restart on another day: after a run whose
      operations from the `k`-th on hold none, it has grown by the events among them. */
  lemma {:induction false} EventsCounted(ops: seq<Op>, window: int, start: Wall, k: nat)
    requires window >= 1 && (forall op :: op in ops ==> LegalOp(op)) && k <= |ops|
    requires forall j: nat :: k <= j < |ops| ==> !Resets(ops, start, j)
    ensures Play(ops, window, start).0.counters.events == Play(ops[..k], window, start).0.counters.events + Events(ops[k..])
    decreases |ops|
  {
    if k == |ops| {
      assert ops[..k] == ops && ops[k..] == [];
    } else {
      var init, last := ops[..|ops| - 1], ops[|ops| - 1];
      assert ops == init + [last];
      forall j: nat | k <= j < |init|
        ensures !Resets(init, start, j)
      {
        assert !Resets(ops, start, j) && init[..j] == ops[..j];
      }
      EventsCounted(init, window, start, k);
      EventsMore(init, last, k);
      assert !Resets(ops, start, |init|) && ops[..|init|] == init;
      DayKept(init, window, start);
      StepEvents(Play(init, window, start).0, last);
    }
  }

  lemma EventsMore(init: seq<Op>, last: Op, k: nat)
    requires k <= |init|
    ensures Events((init + [last])[k..]) == Events(init[k..]) + if last.Event? then 1 else 0
    ensures (init + [last])[..k] == init[..k]
  {
    var rest := (init + [last])[k..];
    assert rest == init[k..] + [last] && rest[..|rest| - 1] == init[k..];
  }

  lemma DayKept(ops: seq<Op>, window: int, start: Wall)
    requires window >= 1 && forall op :: op in ops ==> LegalOp(op)
    ensures Play(ops, window, start).0.counters.day == DayOf(ops, start)
  {
    var k := SomeDayBegins(ops, start);
    CountedSince(ops, window, start, k);
  }

  /** Such a restart sets it to zero. */
  lemma {:induction false} ResetEvents(ops: seq<Op>, window: int, start: Wall)
    requires window >= 1 && (forall op :: op in ops ==> LegalOp(op)) && ops != [] && Resets(ops, start, |ops| - 1)
    ensures Play(ops, window, start).0.counters.events == 0
  {
    var init, last := ops[..|ops| - 1], ops[|ops| - 1];
    assert ops == init + [last];
    DayKept(init, window, start);
    StepEvents(Play(init, window, start).0, last);
  }

  lemma StepEvents(e: Eng, op: Op)
    requires e.window >= 1 && LegalOp(op)
    ensures var n := Step(e, op).0.counters.events;
            && (op.Event? ==> n == e.counters.events + 1)
            && (op.Restart? && RefIds.DayKey(op.wall.date) != e.counters.day ==> n == 0)
            && (!op.Event? && (op.Restart? ==> RefIds.DayKey(op.wall.date) == e.counters.day) ==> n == e.counters.events)
  {
    match op
    case Event(ts, wall, found) => EventCounts(e, ts, wall, found);
    case TickOp(wall, digest, order) => TickCounts(e, wall, digest, order);
    case External(wall, finding) => RaiseOneAdds(e, finding, wall.secs, wall);
    case Reconfigure(window, same) =>
    case Restart(wall, window) => RestartCounts(e, window, wall);
  }

  // ---------------------------------------------------------------------
  // What the alerts carry
  // ---------------------------------------------------------------------

  /** `a` was made at `wall` of the finding `f`, for event time `ts`. */
  predicate MadeOf(a: Alert, f: Finding, ts: int, wall: Wall) {
    !a.summary && a.signature == f.signature && a.severity == f.severity && a.ts == ts && a.wall == wall.secs
  }

  /** Each alert of an event is made of one of its findings, at the time the clamp left. */
  lemma {:induction false} AlertsAreFindings(e: Eng, xs: seq<Raised>, ts: int, wall: Wall, i: nat)
    requires e.window >= 1 && i < |Raise(e, xs, ts, wall).1|
    ensures exists k :: 0 <= k < |xs| && MadeOf(Raise(e, xs, ts, wall).1[i], xs[k].f, ts, wall)
  {
    if xs != [] {
      var init := xs[..|xs| - 1];
      var (e1, as1) := Raise(e, init, ts, wall);
      if i < |as1| {
        AlertsAreFindings(e, init, ts, wall, i);
        var k :| 0 <= k < |init| && MadeOf(as1[i], init[k].f, ts, wall);
        assert xs[k] == init[k];
      } else {
        assert MadeOf(RaiseOne(e1, xs[|xs| - 1], ts, wall).1[0], xs[|xs| - 1].f, ts, wall);
      }
    }
  }

  /** A tick makes one LOW alert for each summary, by the clock, under a signature of its own. */
  lemma {:induction false} AlertsAreSummaries(e: Eng, order: seq<string>, wall: Wall, i: nat)
    requires i < |order|
    ensures var alerts := IssueSummaries(e, order, wall).1;
            && |alerts| == |order| && alerts[i].summary && alerts[i].severity == Low
            && alerts[i].signature == "summary|" + order[i] && alerts[i].ts == alerts[i].wall == wall.secs
  {
    if i < |order| - 1 {
      AlertsAreSummaries(e, order[..|order| - 1], wall, i);
    } else if |order| > 1 {
      AlertsAreSummaries(e, order[..|order| - 1], wall, 0);
    }
  }
}
