/** The engine around the detections, hermian-core/src/engine.rs: the clamp on event
    times, and how findings become numbered, counted alerts. Detection rules are not
    modelled: an event brings an arbitrary list of findings. */
module EngineModel {
  import opened Common
  import opened Dedup
  import opened RefIds

  const MAX_FUTURE_SKEW_SECS: int := 60
  const MAX_PAST_SKEW_SECS: int := 86_400

  /** The wall clock: seconds, and the date it shows. */
  datatype Wall = Wall(secs: int, date: Date)

  /** A finding, and which signature goes if recording it needs room. */
  datatype Raised = Raised(f: Finding, victim: string)

  datatype Counters = Counters(events: nat, bySeverity: map<Severity, nat>, today: nat, day: string)

  /** `ref` is the position behind the printed id, `ts` the (clamped) event time. */
  datatype Alert = Alert(ref: Refs, signature: string, summary: bool, severity: Severity, ts: int, wall: int)

  datatype Eng = Eng(window: int, entries: Entries, refs: Refs, counters: Counters)

  // ---------------------------------------------------------------------
  // Counters
  // ---------------------------------------------------------------------

  function Count(c: Counters, s: Severity): nat {
    if s in c.bySeverity then c.bySeverity[s] else 0
  }

  function Counted(c: Counters, s: Severity): Counters {
    c.(bySeverity := c.bySeverity[s := Count(c, s) + 1], today := c.today + 1)
  }

  function Rolled(c: Counters, day: string): Counters {
    if day != c.day then c.(day := day, today := 0, bySeverity := map[]) else c
  }

  /** Today's alerts are the sum over severities. */
  predicate Consistent(c: Counters) {
    c.today == Count(c, Info) + Count(c, Low) + Count(c, High) + Count(c, Critical)
  }

  // ---------------------------------------------------------------------
  // From findings to alerts
  // ---------------------------------------------------------------------

  /** The clamp: times far ahead of or behind the wall clock become the wall clock. */
  function Clamp(ts: int, wall: int): (r: int)
    ensures wall - 86_400 <= ts <= wall + 60 ==> r == ts
    ensures !(wall - 86_400 <= ts <= wall + 60) ==> r == wall
  {
    if ts > wall + MAX_FUTURE_SKEW_SECS || ts < wall - MAX_PAST_SKEW_SECS then wall else ts
  }

  /** Number and count one alert. */
  function Issue(e: Eng, signature: string, summary: bool, severity: Severity, ts: int, wall: Wall): (Eng, Alert) {
    var refs := Advanced(e.refs, DayKey(wall.date));
    (e.(refs := refs, counters := Counted(e.counters, severity)),
     Alert(refs, signature, summary, severity, ts, wall.secs))
  }

  /** One finding through the deduper. */
  function RaiseOne(e: Eng, x: Raised, ts: int, wall: Wall): (Eng, seq<Alert>)
    requires e.window >= 1
  {
    var (entries, d) := Record(e.window, e.entries, x.f.signature, ts, x.f, x.victim);
    var e1 := e.(entries := entries);
    if d == Suppressed then (e1, [])
    else
      var (e2, a) := Issue(e1, x.f.signature, false, x.f.severity, ts, wall);
      (e2, [a])
  }

  function Raise(e: Eng, xs: seq<Raised>, ts: int, wall: Wall): (r: (Eng, seq<Alert>))
    requires e.window >= 1
    ensures r.0.window == e.window
  {
    if xs == [] then (e, [])
    else
      var (e1, as1) := Raise(e, xs[..|xs| - 1], ts, wall);
      var (e2, as2) := RaiseOne(e1, xs[|xs| - 1], ts, wall);
      (e2, as1 + as2)
  }

  /** `xs` are these findings, in order. */
  ghost predicate Carries(xs: seq<Raised>, findings: seq<Finding>) {
    |xs| == |findings| && forall k :: 0 <= k < |xs| ==> xs[k].f == findings[k]
  }

  lemma CarriesMore(xs: seq<Raised>, x: Raised, findings: seq<Finding>, i: nat)
    requires i < |findings| && Carries(xs, findings[..i]) && x.f == findings[i]
    ensures Carries(xs + [x], findings[..i + 1])
  {
  }

  lemma RaiseMore(e: Eng, xs: seq<Raised>, x: Raised, ts: int, wall: Wall)
    requires e.window >= 1
    ensures var (e1, as1) := Raise(e, xs, ts, wall);
            var (e2, as2) := RaiseOne(e1, x, ts, wall);
            Raise(e, xs + [x], ts, wall) == (e2, as1 + as2)
  {
    assert (xs + [x])[..|xs|] == xs;
  }

  function Begun(e: Eng, wall: Wall): Eng {
    e.(counters := Rolled(e.counters.(events := e.counters.events + 1), DayKey(wall.date)))
  }

  /** One event with the findings the rules made of it. */
  function Process(e: Eng, ts: int, wall: Wall, xs: seq<Raised>): (Eng, seq<Alert>)
    requires e.window >= 1
  {
    Raise(Begun(e, wall), xs, Clamp(ts, wall.secs), wall)
  }

  /** The summaries of a tick, issued in some order. */
  function IssueSummaries(e: Eng, order: seq<string>, wall: Wall): (r: (Eng, seq<Alert>))
    ensures r.0.window == e.window && r.0.entries == e.entries
  {
    if order == [] then (e, [])
    else
      var (e1, as1) := IssueSummaries(e, order[..|order| - 1], wall);
      var (e2, a) := Issue(e1, "summary|" + order[|order| - 1], true, Low, wall.secs, wall);
      (e2, as1 + [a])
  }

  ghost predicate Lists(order: seq<string>, keys: set<string>) {
    && (forall k :: k in order <==> k in keys)
    && forall i, j :: 0 <= i < j < |order| ==> order[i] != order[j]
  }

  /** The engine's tick: the digest finding if one is due, then the closed windows. */
  function TickEng(e: Eng, wall: Wall, digest: seq<Raised>, order: seq<string>): (Eng, seq<Alert>)
    requires e.window >= 1
  {
    var (e1, as1) := Raise(e.(counters := Rolled(e.counters, DayKey(wall.date))), digest, wall.secs, wall);
    var (e2, as2) := IssueSummaries(e1.(entries := Tick(e1.window, e1.entries, wall.secs)), order, wall);
    (e2, as1 + as2)
  }

  /** A new engine over what the last one saved. */
  function Restarted(e: Eng, window: int, wall: Wall): Eng {
    var today := DayKey(wall.date);
    Eng(window, map[], Resumed(today, e.refs),
        if e.counters.day == today then e.counters else Counters(0, map[], 0, today))
  }

  // ---------------------------------------------------------------------
  // Runs
  // ---------------------------------------------------------------------

  /** `same` says whether a new configuration leaves the window setting as it was. */
  datatype Op =
    | Event(ts: int, wall: Wall, found: seq<Raised>)
    | TickOp(wall: Wall, digest: seq<Raised>, order: seq<string>)
    | External(wall: Wall, finding: Raised)
    | Reconfigure(window: int, same: bool)
    | Restart(wall: Wall, window: int)

  predicate LegalOp(op: Op) {
    match op
    case Event(_, wall, _) => ValidDate(wall.date)
    case TickOp(wall, _, _) => ValidDate(wall.date)
    case External(wall, _) => ValidDate(wall.date)
    case Reconfigure(window, _) => window >= 1
    case Restart(wall, window) => ValidDate(wall.date) && window >= 1
  }

  function Step(e: Eng, op: Op): (r: (Eng, seq<Alert>))
    requires e.window >= 1 && LegalOp(op)
    ensures r.0.window >= 1
  {
    match op
    case Event(ts, wall, found) => Process(e, ts, wall, found)
    case TickOp(wall, digest, order) => TickEng(e, wall, digest, order)
    case External(wall, finding) => RaiseOne(e, finding, wall.secs, wall)
    case Reconfigure(window, same) => (if same then e else e.(window := window, entries := map[]), [])
    case Restart(wall, window) => (Restarted(e, window, wall), [])
  }

  /** The engine and every alert so far, from a fresh start. */
  function Play(ops: seq<Op>, window: int, start: Wall): (r: (Eng, seq<Alert>))
    requires window >= 1 && forall op :: op in ops ==> LegalOp(op)
    ensures r.0.window >= 1
  {
    if ops == [] then (Eng(window, map[], Fresh(DayKey(start.date)), Counters(0, map[], 0, DayKey(start.date))), [])
    else
      var init, last := ops[..|ops| - 1], ops[|ops| - 1];
      assert ops == init + [last];
      var (e, alerts) := Play(init, window, start);
      var (e', more) := Step(e, last);
      (e', alerts + more)
  }

  // ---------------------------------------------------------------------
  // Bounded blindness
  // ---------------------------------------------------------------------

  /** `a` paged `sig` at event time `t`, at most a minute ahead of its wall clock. */
  predicate Pages(a: Alert, sig: string, t: int) {
    !a.summary && a.signature == sig && a.ts == t && a.ts <= a.wall + MAX_FUTURE_SKEW_SECS
  }

  predicate IsPage(a: Alert, sig: string) {
    !a.summary && a.signature == sig
  }

  /** `alerts[i]` is the last page of `sig`. */
  ghost predicate LastPage(alerts: seq<Alert>, sig: string, i: int) {
    0 <= i < |alerts| && IsPage(alerts[i], sig) && forall j :: i < j < |alerts| ==> !IsPage(alerts[j], sig)
  }

  /** The last page of `sig` was at event time `t`. */
  ghost predicate Paged(alerts: seq<Alert>, sig: string, t: int) {
    exists i :: LastPage(alerts, sig, i) && Pages(alerts[i], sig, t)
  }

  /** Every window that can suppress something was opened by the last page. */
  ghost predicate Witnessed(e: Eng, alerts: seq<Alert>) {
    forall sig :: sig in e.entries ==> Paged(alerts, sig, e.entries[sig].lastEmitted)
  }

  lemma PagedKept(alerts: seq<Alert>, more: seq<Alert>, sig: string, t: int)
    requires Paged(alerts, sig, t) && forall i :: 0 <= i < |more| ==> !IsPage(more[i], sig)
    ensures Paged(alerts + more, sig, t)
  {
    var i :| LastPage(alerts, sig, i) && Pages(alerts[i], sig, t);
    assert LastPage(alerts + more, sig, i) && Pages((alerts + more)[i], sig, t);
  }

  lemma PagedNow(alerts: seq<Alert>, a: Alert, sig: string, t: int)
    requires Pages(a, sig, t)
    ensures Paged(alerts + [a], sig, t)
  {
    assert LastPage(alerts + [a], sig, |alerts|) && Pages((alerts + [a])[|alerts|], sig, t);
  }

  lemma RecordSets(w: int, entries: Entries, sig: string, now: int, f: Finding, victim: string)
    requires w >= 1
    ensures var (entries', d) := Record(w, entries, sig, now, f, victim);
            && sig in entries' && (d == Emit ==> entries'[sig].lastEmitted == now)
            && (d == Suppressed ==> sig in entries && entries'[sig].lastEmitted == entries[sig].lastEmitted)
            && forall k :: k in entries' && k != sig ==> k in entries && entries'[k] == entries[k]
  {
  }

  lemma RaiseOneWitnessed(e: Eng, x: Raised, ts: int, wall: Wall, alerts: seq<Alert>)
    requires e.window >= 1 && ts <= wall.secs + MAX_FUTURE_SKEW_SECS && Witnessed(e, alerts)
    ensures var (e', more) := RaiseOne(e, x, ts, wall); Witnessed(e', alerts + more)
  {
    var (e', more) := RaiseOne(e, x, ts, wall);
    var sig := x.f.signature;
    RecordSets(e.window, e.entries, sig, ts, x.f, x.victim);
    forall k | k in e'.entries
      ensures Paged(alerts + more, k, e'.entries[k].lastEmitted)
    {
      if k == sig && more != [] {
        PagedNow(alerts, more[0], sig, ts);
        assert more == [more[0]];
      } else {
        PagedKept(alerts, more, k, e'.entries[k].lastEmitted);
      }
    }
  }

  lemma {:induction false} RaiseWitnessed(e: Eng, xs: seq<Raised>, ts: int, wall: Wall, alerts: seq<Alert>)
    requires e.window >= 1 && ts <= wall.secs + MAX_FUTURE_SKEW_SECS && Witnessed(e, alerts)
    ensures var (e', more) := Raise(e, xs, ts, wall); Witnessed(e', alerts + more)
  {
    if xs == [] {
      assert alerts + [] == alerts;
    } else {
      RaiseWitnessed(e, xs[..|xs| - 1], ts, wall, alerts);
      var (e1, as1) := Raise(e, xs[..|xs| - 1], ts, wall);
      RaiseOneWitnessed(e1, xs[|xs| - 1], ts, wall, alerts + as1);
      var as2 := RaiseOne(e1, xs[|xs| - 1], ts, wall).1;
      assert alerts + as1 + as2 == alerts + (as1 + as2);
    }
  }

  lemma TickWitnessed(w: int, entries: Entries, now: int, k: string)
    requires w >= 1 && k in Tick(w, entries, now)
    ensures k in entries && Tick(w, entries, now)[k].lastEmitted == entries[k].lastEmitted
  {
  }

  lemma {:induction false} SummariesAre(e: Eng, order: seq<string>, wall: Wall)
    ensures forall i :: 0 <= i < |IssueSummaries(e, order, wall).1| ==>
              IssueSummaries(e, order, wall).1[i].summary && IssueSummaries(e, order, wall).1[i].wall == wall.secs
  {
    if order != [] {
      SummariesAre(e, order[..|order| - 1], wall);
    }
  }

  lemma TickEngWitnessed(e: Eng, wall: Wall, digest: seq<Raised>, order: seq<string>, alerts: seq<Alert>)
    requires e.window >= 1 && Witnessed(e, alerts)
    ensures var (e', more) := TickEng(e, wall, digest, order); Witnessed(e', alerts + more)
  {
    var e0 := e.(counters := Rolled(e.counters, DayKey(wall.date)));
    RaiseWitnessed(e0, digest, wall.secs, wall, alerts);
    var (e1, as1) := Raise(e0, digest, wall.secs, wall);
    var e2 := e1.(entries := Tick(e1.window, e1.entries, wall.secs));
    var as2 := IssueSummaries(e2, order, wall).1;
    assert alerts + as1 + as2 == alerts + (as1 + as2);
    SummariesAre(e2, order, wall);
    forall k | k in e2.entries
      ensures Paged(alerts + as1 + as2, k, e2.entries[k].lastEmitted)
    {
      TickWitnessed(e1.window, e1.entries, wall.secs, k);
      PagedKept(alerts + as1, as2, k, e2.entries[k].lastEmitted);
    }
  }

  lemma QuietStepWitnessed(e: Eng, e': Eng, alerts: seq<Alert>)
    requires Witnessed(e, alerts) && (e'.entries == e.entries || e'.entries == map[])
    ensures Witnessed(e', alerts + [])
  {
    assert alerts + [] == alerts;
  }

  lemma StepWitnessed(e: Eng, op: Op, alerts: seq<Alert>)
    requires e.window >= 1 && LegalOp(op) && Witnessed(e, alerts)
    ensures Witnessed(Step(e, op).0, alerts + Step(e, op).1)
  {
    match op
    case Event(ts, wall, found) =>
      RaiseWitnessed(Begun(e, wall), found, Clamp(ts, wall.secs), wall, alerts);
    case TickOp(wall, digest, order) => TickEngWitnessed(e, wall, digest, order, alerts);
    case External(wall, finding) => RaiseOneWitnessed(e, finding, wall.secs, wall, alerts);
    case Reconfigure(window, same) => QuietStepWitnessed(e, Step(e, op).0, alerts);
    case Restart(wall, window) => QuietStepWitnessed(e, Step(e, op).0, alerts);
  }

  lemma {:induction false} PlayWitnessed(ops: seq<Op>, window: int, start: Wall)
    requires window >= 1 && forall op :: op in ops ==> LegalOp(op)
    ensures var (e, alerts) := Play(ops, window, start); Witnessed(e, alerts)
  {
    if ops != [] {
      var init, last := ops[..|ops| - 1], ops[|ops| - 1];
      assert ops == init + [last];
      PlayWitnessed(init, window, start);
      var (e, alerts) := Play(init, window, start);
      StepWitnessed(e, last, alerts);
    }
  }

  /** What an engine makes of the first `k` findings of an on-time event. */
  function UpTo(e: Eng, wall: Wall, found: seq<Raised>, k: nat): (r: (Eng, seq<Alert>))
    requires e.window >= 1 && k <= |found|
    ensures r.0.window == e.window
  {
    Raise(Begun(e, wall), found[..k], Clamp(wall.secs, wall.secs), wall)
  }

  predicate SuppressedAt(e: Eng, x: Raised, now: int)
    requires e.window >= 1
  {
    Record(e.window, e.entries, x.f.signature, now, x.f, x.victim).1 == Suppressed
  }

  lemma EntryPaged(ops: seq<Op>, window: int, start: Wall, wall: Wall, found: seq<Raised>, k: nat, sig: string)
    requires window >= 1 && (forall op :: op in ops ==> LegalOp(op)) && k <= |found|
    requires sig in UpTo(Play(ops, window, start).0, wall, found, k).0.entries
    ensures var (e, alerts) := Play(ops, window, start);
            var (e1, more) := UpTo(e, wall, found, k);
            Paged(alerts + more, sig, e1.entries[sig].lastEmitted)
  {
    var (e, alerts) := Play(ops, window, start);
    PlayWitnessed(ops, window, start);
    RaiseWitnessed(Begun(e, wall), found[..k], Clamp(wall.secs, wall.secs), wall, alerts);
  }

  lemma SuppressedExactly(e: Eng, x: Raised, now: int)
    requires e.window >= 1
    ensures var sig := x.f.signature;
            SuppressedAt(e, x, now) <==>
            && sig in e.entries && !Escalates(e.entries[sig], x.f)
            && now < e.entries[sig].lastEmitted + Window(e.window, e.entries[sig].streak)
  {
  }

  /** When an on-time finding is suppressed, exactly, after any run with any event times and
      wall clocks: its signature is remembered, it does not escalate, and the clock reads
      less than the time of the signature's last page plus the current window. Findings of
      the same event count as earlier. */
  lemma BlindExactly(ops: seq<Op>, window: int, start: Wall, wall: Wall, found: seq<Raised>, k: nat)
    requires window >= 1 && (forall op :: op in ops ==> LegalOp(op)) && k < |found|
    ensures var (e, alerts) := Play(ops, window, start);
            var (e1, more) := UpTo(e, wall, found, k);
            var sig, earlier := found[k].f.signature, alerts + more;
            SuppressedAt(e1, found[k], wall.secs) <==>
            && sig in e1.entries && !Escalates(e1.entries[sig], found[k].f)
            && exists i :: LastPage(earlier, sig, i) && earlier[i].ts <= earlier[i].wall + 60
                           && wall.secs < earlier[i].ts + Window(e1.window, e1.entries[sig].streak)
  {
    var (e, alerts) := Play(ops, window, start);
    var (e1, more) := UpTo(e, wall, found, k);
    var sig := found[k].f.signature;
    SuppressedExactly(e1, found[k], wall.secs);
    if sig in e1.entries {
      EntryPaged(ops, window, start, wall, found, k, sig);
      var i :| LastPage(alerts + more, sig, i) && Pages((alerts + more)[i], sig, e1.entries[sig].lastEmitted);
      assert forall j :: LastPage(alerts + more, sig, j) ==> j == i;
    }
  }

  /** The time the wall clock showed last. */
  function Clock(ops: seq<Op>, start: Wall): int {
    if ops == [] then start.secs
    else
      match ops[|ops| - 1]
      case Reconfigure(_, _) => Clock(ops[..|ops| - 1], start)
      case op => op.wall.secs
  }

  /** The wall clock never steps back. */
  predicate Steady(ops: seq<Op>, start: Wall) {
    ops == [] || (Steady(ops[..|ops| - 1], start) && Clock(ops[..|ops| - 1], start) <= Clock(ops, start))
  }

  ghost predicate AllStamped(alerts: seq<Alert>, clock: int) {
    forall i :: 0 <= i < |alerts| ==> alerts[i].wall == clock
  }

  lemma {:induction false} RaiseStamped(e: Eng, xs: seq<Raised>, ts: int, wall: Wall)
    requires e.window >= 1
    ensures AllStamped(Raise(e, xs, ts, wall).1, wall.secs)
  {
    if xs != [] {
      RaiseStamped(e, xs[..|xs| - 1], ts, wall);
    }
  }

  lemma StepStamped(e: Eng, op: Op)
    requires e.window >= 1 && LegalOp(op)
    ensures !op.Reconfigure? ==> AllStamped(Step(e, op).1, op.wall.secs)
    ensures op.Reconfigure? ==> Step(e, op).1 == []
  {
    match op
    case Event(ts, wall, found) => RaiseStamped(Begun(e, wall), found, Clamp(ts, wall.secs), wall);
    case TickOp(wall, digest, order) =>
      var e0 := e.(counters := Rolled(e.counters, DayKey(wall.date)));
      RaiseStamped(e0, digest, wall.secs, wall);
      var e1 := Raise(e0, digest, wall.secs, wall).0;
      SummariesAre(e1.(entries := Tick(e1.window, e1.entries, wall.secs)), order, wall);
    case _ =>
  }

  ghost predicate NoneAhead(alerts: seq<Alert>, clock: int) {
    forall i :: 0 <= i < |alerts| ==> alerts[i].wall <= clock
  }

  lemma {:induction false} PlayNoneAhead(ops: seq<Op>, window: int, start: Wall)
    requires window >= 1 && (forall op :: op in ops ==> LegalOp(op)) && Steady(ops, start)
    ensures NoneAhead(Play(ops, window, start).1, Clock(ops, start))
  {
    if ops != [] {
      var init, last := ops[..|ops| - 1], ops[|ops| - 1];
      assert ops == init + [last];
      PlayNoneAhead(init, window, start);
      StepStamped(Play(init, window, start).0, last);
    }
  }

  /** Bounded blindness: after any run with arbitrary event times and a wall clock that
      never steps back, an on-time finding is suppressed only if the last page of its
      signature went out less than max(window, 3600) + 60 seconds of wall time ago. */
  lemma BoundedBlindness(ops: seq<Op>, window: int, start: Wall, wall: Wall, found: seq<Raised>, k: nat)
    requires window >= 1 && (forall op :: op in ops ==> LegalOp(op)) && k < |found|
    requires Steady(ops, start) && Clock(ops, start) <= wall.secs
    requires SuppressedAt(UpTo(Play(ops, window, start).0, wall, found, k).0, found[k], wall.secs)
    ensures var (e, alerts) := Play(ops, window, start);
            var earlier := alerts + UpTo(e, wall, found, k).1;
            exists i :: LastPage(earlier, found[k].f.signature, i)
                        && 0 <= wall.secs - earlier[i].wall < (if e.window > 3600 then e.window else 3600) + 60
  {
    var (e, alerts) := Play(ops, window, start);
    var (e1, more) := UpTo(e, wall, found, k);
    BlindExactly(ops, window, start, wall, found, k);
    PlayNoneAhead(ops, window, start);
    RaiseStamped(Begun(e, wall), found[..k], Clamp(wall.secs, wall.secs), wall);
    var sig, earlier := found[k].f.signature, alerts + more;
    var i :| LastPage(earlier, sig, i) && earlier[i].ts <= earlier[i].wall + MAX_FUTURE_SKEW_SECS
             && wall.secs < earlier[i].ts + Window(e1.window, e1.entries[sig].streak);
    assert earlier[i].wall <= wall.secs;
  }

  /** The clock that steps back: after a single page, the same finding, on time at any
      other clock, is suppressed exactly while that clock reads less than the page's plus
      the window. Stepping back any number of seconds extends the silence by as many. */
  lemma SteppedBack(window: int, start: Wall, paged: Wall, back: Wall, x: Raised)
    requires window >= 1 && ValidDate(paged.date)
    ensures var (e, alerts) := Play([Event(paged.secs, paged, [x])], window, start);
            && |alerts| == 1 && IsPage(alerts[0], x.f.signature) && alerts[0].wall == paged.secs
            && (SuppressedAt(UpTo(e, back, [x], 0).0, x, back.secs) <==> back.secs < paged.secs + window)
  {
    var op := Event(paged.secs, paged, [x]);
    assert [op][..0] == [];
    var (e0, none) := Play([], window, start);
    assert Play([op], window, start) == (Step(e0, op).0, none + Step(e0, op).1);
    var begun := Begun(e0, paged);
    assert [x][..0] == [] && Raise(begun, [], paged.secs, paged) == (begun, []);
    assert Raise(begun, [x], paged.secs, paged) == (RaiseOne(begun, x, paged.secs, paged).0, [] + RaiseOne(begun, x, paged.secs, paged).1);
    var e := Step(e0, op).0;
    assert UpTo(e, back, [x], 0) == (Begun(e, back), []);
    SuppressedExactly(Begun(e, back), x, back.secs);
  }

  // ---------------------------------------------------------------------
  // Ids and counters
  // ---------------------------------------------------------------------

  /** Alerts are numbered in order, none beyond the generator's position. */
  ghost predicate Numbered(e: Eng, alerts: seq<Alert>) {
    && IsDayKey(e.refs.day)
    && (forall i :: 0 <= i < |alerts| ==> IsDayKey(alerts[i].ref.day) && (alerts[i].ref == e.refs || Before(alerts[i].ref, e.refs)))
    && (forall i, j :: 0 <= i < j < |alerts| ==> Before(alerts[i].ref, alerts[j].ref))
  }

  lemma AdvancedAfter(r: Refs, today: string)
    requires IsDayKey(r.day) && IsDayKey(today)
    ensures Before(r, Advanced(r, today)) && IsDayKey(Advanced(r, today).day)
  {
  }

  lemma IssueNumbered(e: Eng, signature: string, summary: bool, severity: Severity, ts: int, wall: Wall, alerts: seq<Alert>)
    requires ValidDate(wall.date) && Numbered(e, alerts)
    ensures var (e', a) := Issue(e, signature, summary, severity, ts, wall); Numbered(e', alerts + [a])
  {
    DayKeyShape(wall.date);
    AdvancedAfter(e.refs, DayKey(wall.date));
    var (e', a) := Issue(e, signature, summary, severity, ts, wall);
    forall i | 0 <= i < |alerts|
      ensures Before(alerts[i].ref, e'.refs)
    {
      if alerts[i].ref != e.refs {
        BeforeTransitive(alerts[i].ref, e.refs, e'.refs);
      }
    }
  }

  lemma IssueConsistent(c: Counters, s: Severity)
    requires Consistent(c)
    ensures Consistent(Counted(c, s))
  {
  }

  lemma RaiseOneNumbered(e: Eng, x: Raised, ts: int, wall: Wall, alerts: seq<Alert>)
    requires e.window >= 1 && ValidDate(wall.date) && Numbered(e, alerts) && Consistent(e.counters)
    ensures var (e', more) := RaiseOne(e, x, ts, wall); Numbered(e', alerts + more) && Consistent(e'.counters)
  {
    var (entries, d) := Record(e.window, e.entries, x.f.signature, ts, x.f, x.victim);
    if d == Emit {
      IssueNumbered(e.(entries := entries), x.f.signature, false, x.f.severity, ts, wall, alerts);
      IssueConsistent(e.counters, x.f.severity);
    } else {
      assert alerts + [] == alerts;
    }
  }

  lemma {:induction false} RaiseNumbered(e: Eng, xs: seq<Raised>, ts: int, wall: Wall, alerts: seq<Alert>)
    requires e.window >= 1 && ValidDate(wall.date) && Numbered(e, alerts) && Consistent(e.counters)
    ensures var (e', more) := Raise(e, xs, ts, wall); Numbered(e', alerts + more) && Consistent(e'.counters)
  {
    if xs == [] {
      assert alerts + [] == alerts;
    } else {
      RaiseNumbered(e, xs[..|xs| - 1], ts, wall, alerts);
      var (e1, as1) := Raise(e, xs[..|xs| - 1], ts, wall);
      RaiseOneNumbered(e1, xs[|xs| - 1], ts, wall, alerts + as1);
      var as2 := RaiseOne(e1, xs[|xs| - 1], ts, wall).1;
      assert alerts + as1 + as2 == alerts + (as1 + as2);
    }
  }

  lemma {:induction false} SummariesNumbered(e: Eng, order: seq<string>, wall: Wall, alerts: seq<Alert>)
    requires ValidDate(wall.date) && Numbered(e, alerts) && Consistent(e.counters)
    ensures var (e', more) := IssueSummaries(e, order, wall); Numbered(e', alerts + more) && Consistent(e'.counters)
  {
    if order == [] {
      assert alerts + [] == alerts;
    } else {
      SummariesNumbered(e, order[..|order| - 1], wall, alerts);
      var (e1, as1) := IssueSummaries(e, order[..|order| - 1], wall);
      IssueNumbered(e1, "summary|" + order[|order| - 1], true, Low, wall.secs, wall, alerts + as1);
      IssueConsistent(e1.counters, Low);
      var a := Issue(e1, "summary|" + order[|order| - 1], true, Low, wall.secs, wall).1;
      assert alerts + as1 + [a] == alerts + (as1 + [a]);
    }
  }

  lemma RestartNumbered(e: Eng, window: int, wall: Wall, alerts: seq<Alert>)
    requires ValidDate(wall.date) && Numbered(e, alerts) && Consistent(e.counters)
    ensures Numbered(Restarted(e, window, wall), alerts) && Consistent(Restarted(e, window, wall).counters)
  {
    DayKeyShape(wall.date);
    var e' := Restarted(e, window, wall);
    forall i | 0 <= i < |alerts|
      ensures alerts[i].ref == e'.refs || Before(alerts[i].ref, e'.refs)
    {
      if e'.refs != e.refs && alerts[i].ref != e.refs {
        BeforeTransitive(alerts[i].ref, e.refs, e'.refs);
      }
    }
  }

  lemma SameRefsNumbered(e: Eng, e': Eng, alerts: seq<Alert>)
    requires Numbered(e, alerts) && e'.refs == e.refs
    ensures Numbered(e', alerts)
  {
  }

  lemma RegroupNumbered(e: Eng, a: seq<Alert>, b: seq<Alert>, c: seq<Alert>)
    requires Numbered(e, a + b + c)
    ensures Numbered(e, a + (b + c))
  {
    assert a + b + c == a + (b + c);
  }

  lemma TickEngNumbered(e: Eng, wall: Wall, digest: seq<Raised>, order: seq<string>, alerts: seq<Alert>)
    requires e.window >= 1 && ValidDate(wall.date) && Numbered(e, alerts) && Consistent(e.counters)
    ensures var (e', more) := TickEng(e, wall, digest, order); Numbered(e', alerts + more) && Consistent(e'.counters)
  {
    var e0 := e.(counters := Rolled(e.counters, DayKey(wall.date)));
    SameRefsNumbered(e, e0, alerts);
    RaiseNumbered(e0, digest, wall.secs, wall, alerts);
    var (e1, as1) := Raise(e0, digest, wall.secs, wall);
    var e2 := e1.(entries := Tick(e1.window, e1.entries, wall.secs));
    SameRefsNumbered(e1, e2, alerts + as1);
    SummariesNumbered(e2, order, wall, alerts + as1);
    var (e3, as2) := IssueSummaries(e2, order, wall);
    RegroupNumbered(e3, alerts, as1, as2);
  }

  lemma QuietStepNumbered(e: Eng, e': Eng, alerts: seq<Alert>)
    requires Numbered(e, alerts) && e'.refs == e.refs
    ensures Numbered(e', alerts + [])
  {
    assert alerts + [] == alerts;
  }

  lemma StepNumbered(e: Eng, op: Op, alerts: seq<Alert>)
    requires e.window >= 1 && LegalOp(op) && Numbered(e, alerts) && Consistent(e.counters)
    ensures Numbered(Step(e, op).0, alerts + Step(e, op).1) && Consistent(Step(e, op).0.counters)
  {
    match op
    case Event(ts, wall, found) =>
      RaiseNumbered(Begun(e, wall), found, Clamp(ts, wall.secs), wall, alerts);
    case TickOp(wall, digest, order) => TickEngNumbered(e, wall, digest, order, alerts);
    case External(wall, finding) => RaiseOneNumbered(e, finding, wall.secs, wall, alerts);
    case Reconfigure(window, same) => QuietStepNumbered(e, Step(e, op).0, alerts);
    case Restart(wall, window) =>
      RestartNumbered(e, window, wall, alerts);
      QuietStepNumbered(Restarted(e, window, wall), Step(e, op).0, alerts);
  }

  lemma {:induction false} PlayNumbered(ops: seq<Op>, window: int, start: Wall)
    requires window >= 1 && ValidDate(start.date) && forall op :: op in ops ==> LegalOp(op)
    ensures var (e, alerts) := Play(ops, window, start); Numbered(e, alerts) && Consistent(e.counters)
  {
    if ops == [] {
      DayKeyShape(start.date);
    } else {
      var init, last := ops[..|ops| - 1], ops[|ops| - 1];
      assert ops == init + [last];
      PlayNumbered(init, window, start);
      var (e, alerts) := Play(init, window, start);
      StepNumbered(e, last, alerts);
    }
  }

  /** Over any run of events, ticks, reconfigurations and restarts, with any clock, today's
      count is the sum over severities, and no two alerts share a printed id. */
  lemma AlertIdsAndCounters(ops: seq<Op>, window: int, start: Wall, i: nat, j: nat)
    requires window >= 1 && ValidDate(start.date) && forall op :: op in ops ==> LegalOp(op)
    ensures Consistent(Play(ops, window, start).0.counters)
    ensures var alerts := Play(ops, window, start).1;
            i < j < |alerts| ==> RefId(alerts[i].ref) != RefId(alerts[j].ref)
  {
    PlayNumbered(ops, window, start);
    var alerts := Play(ops, window, start).1;
    if i < j < |alerts| && RefId(alerts[i].ref) == RefId(alerts[j].ref) {
      RefIdInjective(alerts[i].ref, alerts[j].ref);
      LessIrreflexive(alerts[i].ref.day);
    }
  }
}
