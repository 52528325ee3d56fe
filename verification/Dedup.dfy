/** Signature deduplication, hermian-core/src/dedup.rs: the per-signature state machine,
    its stretching windows, and the mutable `Deduper`. Times are seconds. What holds
    over whole runs is in module DedupRuns. */
module Dedup {
  import opened Common

  const RETENTION_WINDOWS: int := 12
  const MAX_ENTRIES: nat := 20_000
  const MAX_VARIES: nat := 64
  const STREAK_FACTOR: int := 3
  const MAX_STREAK: nat := 16
  const MAX_STREAK_WINDOW_SECS: int := 3_600
  const MAX_WINDOW_SECS: int := 86_400

  datatype Varies = Varies(caption: string, value: string)

  datatype Finding = Finding(signature: string, detection: nat, severity: Severity, title: string, varies: Option<Varies>)

  datatype Entry = Entry(
    lastEmitted: int, lastSeen: int, repeats: nat, detection: nat, severity: Severity, title: string,
    streak: nat, recurring: bool, caption: Option<string>, values: seq<string>, overflow: bool)

  type Entries = map<string, Entry>

  datatype Decision = Emit | Suppressed

  /** The finding a closed window leaves behind. */
  datatype Summary = Summary(detection: nat, title: string, repeats: nat, window: int,
                             caption: Option<string>, values: seq<string>, overflow: bool)

  // ---------------------------------------------------------------------
  // Windows
  // ---------------------------------------------------------------------

  /** The configured window, kept between a second and a day. */
  function Base(windowSecs: nat): (r: int)
    ensures 1 <= r <= 86_400
    ensures 1 <= windowSecs <= 86_400 ==> r == windowSecs
    ensures windowSecs > 86_400 ==> r == 86_400
  {
    if windowSecs < 1 then 1 else if windowSecs > MAX_WINDOW_SECS then MAX_WINDOW_SECS else windowSecs
  }

  /** No window is longer than an hour, or than the base. */
  function Cap(base: int): (r: int)
    ensures r >= base && r >= 3600 && (r == base || r == 3600)
  {
    if base > MAX_STREAK_WINDOW_SECS then base else MAX_STREAK_WINDOW_SECS
  }

  /** `w`, made longer `n` more times, up to `cap`. */
  function Stretch(w: int, cap: int, n: nat): (r: int)
    requires 1 <= w <= cap
    ensures w <= r <= cap
    decreases n
  {
    if n == 0 then w
    else if w * STREAK_FACTOR >= cap then cap
    else Stretch(w * STREAK_FACTOR, cap, n - 1)
  }

  /** The base made longer `streak` times, never beyond `Cap`. */
  function Window(base: int, streak: nat): (r: int)
    requires base >= 1
    ensures base <= r <= Cap(base)
  {
    Stretch(base, Cap(base), streak)
  }

  /** The loop of `window_for`. */
  method WindowFor(base: int, streak: nat) returns (w: int)
    requires base >= 1
    ensures w == Window(base, streak)
  {
    var cap := if base > MAX_STREAK_WINDOW_SECS then base else MAX_STREAK_WINDOW_SECS;
    w := base;
    var i := 0;
    while i < streak
      invariant 0 <= i <= streak && 1 <= w <= cap
      invariant Stretch(base, cap, streak) == Stretch(w, cap, streak - i)
    {
      w := w * STREAK_FACTOR;
      if w >= cap {
        return cap;
      }
      i := i + 1;
    }
  }

  function Pow3(k: nat): (r: int)
    ensures r >= 1
  {
    if k == 0 then 1 else 3 * Pow3(k - 1)
  }

  lemma {:induction false} StretchClosedForm(w: int, cap: int, n: nat)
    requires 1 <= w <= cap
    ensures Stretch(w, cap, n) == if w * Pow3(n) < cap then w * Pow3(n) else cap
    decreases n
  {
    if n > 0 {
      assert w * Pow3(n) == (w * 3) * Pow3(n - 1);
      if w * 3 >= cap {
        assert (w * 3) * Pow3(n - 1) >= w * 3 by {
          MulMono(w * 3, 1, Pow3(n - 1));
        }
      } else {
        StretchClosedForm(w * 3, cap, n - 1);
      }
    }
  }

  lemma MulMono(w: int, a: int, b: int)
    requires w >= 0 && a <= b
    ensures w * a <= w * b
  {
  }

  /** A streak of `k` windows makes the next one 3^k times the base, up to the cap. */
  lemma WindowClosedForm(base: int, k: nat)
    requires base >= 1
    ensures Window(base, k) == if base * Pow3(k) < Cap(base) then base * Pow3(k) else Cap(base)
  {
    StretchClosedForm(base, Cap(base), k);
  }

  /** The documented ladder of the default window: 5, 15 and 45 minutes, then hourly. */
  lemma DefaultLadder(streak: nat)
    ensures Window(300, streak) == if streak == 0 then 300 else if streak == 1 then 900 else if streak == 2 then 2700 else 3600
  {
    if streak >= 3 {
      assert Stretch(300, 3600, streak) == Stretch(900, 3600, streak - 1) == Stretch(2700, 3600, streak - 2);
    }
  }

  // ---------------------------------------------------------------------
  // One entry
  // ---------------------------------------------------------------------

  function NoteVaries(e: Entry, f: Finding): Entry {
    match f.varies
    case None => e
    case Some(v) =>
      var labelled := if e.caption.None? then e.(caption := Some(v.caption)) else e;
      if v.value in e.values then labelled
      else if |e.values| < MAX_VARIES then labelled.(values := e.values + [v.value])
      else labelled.(overflow := true)
  }

  function ResetWindow(e: Entry, now: int, f: Finding): Entry {
    NoteVaries(e.(lastEmitted := now, repeats := 0, values := [], overflow := false), f)
  }

  function NewEntry(now: int, f: Finding): Entry {
    NoteVaries(Entry(now, now, 0, f.detection, f.severity, f.title, 0, false, None, [], false), f)
  }

  predicate Escalates(e: Entry, f: Finding) {
    f.severity.Rank() > e.severity.Rank()
  }

  /** The window of `e` is still open at `now`. */
  predicate Open(base: int, e: Entry, now: int)
    requires base >= 1
  {
    now - e.lastEmitted < Window(base, e.streak)
  }

  /** A known signature is seen again. */
  function Again(base: int, e: Entry, now: int, f: Finding): (Entry, Decision)
    requires base >= 1
  {
    var seen := e.(lastSeen := now);
    if Escalates(e, f) then
      (ResetWindow(seen.(severity := f.severity, title := f.title), now, f), Emit)
    else if Open(base, e, now) then
      (NoteVaries(seen.(repeats := e.repeats + 1), f), Suppressed)
    else
      var streak := if e.recurring || e.repeats > 0 then (if e.streak < MAX_STREAK then e.streak + 1 else MAX_STREAK) else 0;
      (ResetWindow(seen.(streak := streak, recurring := false), now, f), Emit)
  }

  /** A tick looks at one entry. */
  function Closed(base: int, e: Entry, now: int): Entry
    requires base >= 1
  {
    if Open(base, e, now) then e
    else if e.repeats == 0 then e.(recurring := false)
    else if !e.severity.Actionable() then e.(recurring := true, repeats := 0)
    else e.(recurring := true, repeats := 0, values := [], overflow := false)
  }

  function SummaryOf(base: int, e: Entry, now: int): Option<Summary>
    requires base >= 1
  {
    if !Open(base, e, now) && e.repeats > 0 && e.severity.Actionable() then
      Some(Summary(e.detection, e.title, e.repeats, Window(base, e.streak), e.caption, e.values, e.overflow))
    else None
  }

  predicate Retained(base: int, e: Entry, now: int)
    requires base >= 1
  {
    now - e.lastSeen < Window(base, e.streak) * RETENTION_WINDOWS
  }

  // ---------------------------------------------------------------------
  // The whole map
  // ---------------------------------------------------------------------

  /** `k` has been idle longest. */
  ghost predicate Idlest(entries: Entries, k: string) {
    k in entries && forall j :: j in entries ==> entries[k].lastSeen <= entries[j].lastSeen
  }

  predicate Evicts(entries: Entries, sig: string) {
    sig !in entries && |entries| >= MAX_ENTRIES
  }

  /** One record; `victim` is who goes if the map is full. */
  function Record(base: int, entries: Entries, sig: string, now: int, f: Finding, victim: string): (Entries, Decision)
    requires base >= 1
  {
    if sig in entries then
      var (e, d) := Again(base, entries[sig], now, f);
      (entries[sig := e], d)
    else
      ((if Evicts(entries, sig) then entries - {victim} else entries)[sig := NewEntry(now, f)], Emit)
  }

  function ClosedAll(base: int, entries: Entries, now: int): Entries
    requires base >= 1
  {
    map k | k in entries :: Closed(base, entries[k], now)
  }

  function Summaries(base: int, entries: Entries, now: int): map<string, Summary>
    requires base >= 1
  {
    map k | k in entries && SummaryOf(base, entries[k], now).Some? :: SummaryOf(base, entries[k], now).value
  }

  function Kept(base: int, entries: Entries, now: int): Entries
    requires base >= 1
  {
    map k | k in entries && Retained(base, entries[k], now) :: entries[k]
  }

  function Tick(base: int, entries: Entries, now: int): Entries
    requires base >= 1
  {
    Kept(base, ClosedAll(base, entries, now), now)
  }

  /** All entries but those in `todo` are closed, and their summaries collected. */
  ghost predicate HalfClosed(base: int, before: Entries, now: int, todo: set<string>, closed: Entries, summaries: map<string, Summary>)
    requires base >= 1
  {
    && closed.Keys == before.Keys
    && (forall k :: k in before ==> closed[k] == if k in todo then before[k] else Closed(base, before[k], now))
    && (forall k :: k in summaries <==> k in before && k !in todo && SummaryOf(base, before[k], now).Some?)
    && (forall k :: k in summaries ==> SummaryOf(base, before[k], now) == Some(summaries[k]))
  }

  lemma HalfClosedMore(base: int, before: Entries, now: int, todo: set<string>, closed: Entries, summaries: map<string, Summary>, sig: string)
    requires base >= 1 && sig in todo && todo <= before.Keys && HalfClosed(base, before, now, todo, closed, summaries)
    ensures var s := SummaryOf(base, before[sig], now);
            HalfClosed(base, before, now, todo - {sig}, closed[sig := Closed(base, before[sig], now)],
                       if s.Some? then summaries[sig := s.value] else summaries)
  {
  }

  class Deduper {
    const window: int
    var entries: Entries

    ghost predicate Valid()
      reads this
    {
      1 <= window <= MAX_WINDOW_SECS && |entries| <= MAX_ENTRIES
    }

    constructor (windowSecs: nat)
      ensures Valid() && entries == map[]
      ensures window == Base(windowSecs)
    {
      window := Base(windowSecs);
      entries := map[];
    }

    /** The longest-idle signature, scanning the map in any order. */
    method FindIdlest() returns (k: string)
      requires entries != map[]
      ensures Idlest(entries, k)
    {
      var first :| first in entries;
      k := first;
      var todo := entries.Keys - {first};
      while todo != {}
        invariant k in entries && todo <= entries.Keys
        invariant forall j :: j in entries && j !in todo ==> entries[k].lastSeen <= entries[j].lastSeen
        decreases todo
      {
        var j :| j in todo;
        if entries[j].lastSeen < entries[k].lastSeen {
          k := j;
        }
        todo := todo - {j};
      }
    }

    /** A known entry is seen again. */
    method SeeAgain(entry: Entry, now: int, f: Finding) returns (e: Entry, d: Decision)
      requires Valid()
      ensures (e, d) == Again(window, entry, now, f)
    {
      var w := WindowFor(window, entry.streak);
      e := entry.(lastSeen := now);
      if f.severity.Rank() > e.severity.Rank() {
        e := e.(severity := f.severity, title := f.title);
        return ResetWindow(e, now, f), Emit;
      }
      if now - e.lastEmitted < w {
        e := e.(repeats := e.repeats + 1);
        return NoteVaries(e, f), Suppressed;
      }
      e := e.(streak := if e.recurring || e.repeats > 0 then (if e.streak + 1 < MAX_STREAK then e.streak + 1 else MAX_STREAK) else 0);
      e := e.(recurring := false);
      return ResetWindow(e, now, f), Emit;
    }

    method RecordFinding(sig: string, now: int, f: Finding) returns (d: Decision, ghost victim: string)
      requires Valid()
      modifies this`entries
      ensures Valid()
      ensures Evicts(old(entries), sig) ==> Idlest(old(entries), victim)
      ensures (entries, d) == Record(window, old(entries), sig, now, f, victim)
    {
      victim := "";
      if sig in entries {
        var e;
        e, d := SeeAgain(entries[sig], now, f);
        assert entries.Keys == entries[sig := e].Keys;
        entries := entries[sig := e];
      } else {
        if |entries| >= MAX_ENTRIES {
          var idle := FindIdlest();
          victim := idle;
          assert (entries - {idle}).Keys == entries.Keys - {idle};
          entries := entries - {idle};
        }
        assert entries[sig := NewEntry(now, f)].Keys == entries.Keys + {sig};
        entries := entries[sig := NewEntry(now, f)];
        d := Emit;
      }
    }

    /** A tick reaches one entry. */
    method CloseWindow(entry: Entry, now: int) returns (e: Entry, summary: Option<Summary>)
      requires Valid()
      ensures e == Closed(window, entry, now) && summary == SummaryOf(window, entry, now)
    {
      var w := WindowFor(window, entry.streak);
      e, summary := entry, None;
      if now - e.lastEmitted < w {
        return;
      }
      if e.repeats == 0 {
        e := e.(recurring := false);
        return;
      }
      e := e.(recurring := true);
      if !e.severity.Actionable() {
        e := e.(repeats := 0);
        return;
      }
      summary := Some(Summary(e.detection, e.title, e.repeats, w, e.caption, e.values, e.overflow));
      e := e.(repeats := 0, values := [], overflow := false);
    }

    /** The loop over all entries; they are put back closed. */
    method CloseWindows(before: Entries, now: int) returns (closed: Entries, summaries: map<string, Summary>)
      requires Valid()
      ensures closed == ClosedAll(window, before, now)
      ensures summaries == Summaries(window, before, now)
    {
      closed, summaries := before, map[];
      var todo := before.Keys;
      while todo != {}
        invariant todo <= before.Keys && HalfClosed(window, before, now, todo, closed, summaries)
        decreases todo
      {
        var sig :| sig in todo;
        var e, summary := CloseWindow(before[sig], now);
        HalfClosedMore(window, before, now, todo, closed, summaries, sig);
        if summary.Some? {
          summaries := summaries[sig := summary.value];
        }
        closed := closed[sig := e];
        todo := todo - {sig};
      }
      assert closed == ClosedAll(window, before, now);
    }

    /** Every entry closed, exactly the earned summaries, then only the retained entries. */
    method TickAll(now: int) returns (summaries: map<string, Summary>)
      requires Valid()
      modifies this`entries
      ensures Valid()
      ensures entries == Tick(window, old(entries), now)
      ensures summaries == Summaries(window, old(entries), now)
    {
      var closed;
      closed, summaries := CloseWindows(entries, now);
      SubsetCardinality(Kept(window, closed, now).Keys, old(entries).Keys);
      entries := map k | k in closed && Retained(window, closed[k], now) :: closed[k];
    }
  }
}
