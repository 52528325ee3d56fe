/** The mutable engine of hermian-core/src/engine.rs, proved against module EngineModel. */
module EngineClass {
  import opened Common
  import opened Dedup
  import opened RefIds
  import opened EngineModel
  import EngineDays

  class Engine {
    var dedup: Deduper
    var refs: RefGen
    var counters: Counters
    var windowSecs: nat

    ghost function View(): Eng
      reads this, dedup, refs
    {
      Eng(dedup.window, dedup.entries, refs.View(), counters)
    }

    ghost predicate Valid()
      reads this, dedup
    {
      dedup.Valid()
    }

    constructor (configured: nat, wall: Wall)
      ensures Valid() && fresh(dedup) && fresh(refs) && windowSecs == configured
      ensures View() == Eng(Base(configured), map[], Fresh(DayKey(wall.date)), Counters(0, map[], 0, DayKey(wall.date)))
    {
      windowSecs := configured;
      dedup := new Deduper(configured);
      refs := new RefGen(DayKey(wall.date));
      counters := Counters(0, map[], 0, DayKey(wall.date));
    }

    /** Carry on with what the last run saved: its ids, and its counters if they are today's. */
    method Restore(wall: Wall, saved: Refs, counted: Option<Counters>)
      requires Valid()
      modifies this`refs, this`counters
      ensures Valid() && fresh(refs)
      ensures View() == old(View()).(
                refs := Resumed(DayKey(wall.date), saved),
                counters := if counted.Some? && counted.value.day == DayKey(wall.date) then counted.value else old(counters))
    {
      refs := new RefGen.Resume(DayKey(wall.date), saved);
      if counted.Some? && counted.value.day == DayKey(wall.date) {
        counters := counted.value;
      }
    }

    /** A new window setting starts a new deduper. */
    method SetConfig(configured: nat)
      requires Valid()
      modifies this`dedup, this`windowSecs
      ensures Valid() && windowSecs == configured
      ensures View() == Step(old(View()), Reconfigure(Base(configured), configured == old(windowSecs))).0
    {
      if configured != windowSecs {
        dedup := new Deduper(configured);
      }
      windowSecs := configured;
    }

    /** Number and count one alert. */
    method IssueAlert(signature: string, summary: bool, severity: Severity, ts: int, wall: Wall) returns (a: Alert, id: string)
      requires Valid()
      modifies this`counters, refs
      ensures Valid()
      ensures (View(), a) == Issue(old(View()), signature, summary, severity, ts, wall)
      ensures id == RefId(a.ref)
    {
      id := refs.Next(DayKey(wall.date));
      counters := Counted(counters, severity);
      a := Alert(Refs(refs.day, refs.n), signature, summary, severity, ts, wall.secs);
    }

    method RaiseFinding(f: Finding, ts: int, wall: Wall) returns (alerts: seq<Alert>, ghost victim: string)
      requires Valid()
      modifies this`counters, dedup, refs
      ensures Valid()
      ensures (View(), alerts) == RaiseOne(old(View()), Raised(f, victim), ts, wall)
    {
      var d;
      d, victim := dedup.RecordFinding(f.signature, ts, f);
      alerts := [];
      if d == Emit {
        var a, id := IssueAlert(f.signature, false, f.severity, ts, wall);
        alerts := [a];
      }
    }

    /** The next finding, after `xs` from the state `e`. */
    method RaiseNext(f: Finding, ts: int, wall: Wall, sofar: seq<Alert>, ghost e: Eng, ghost xs: seq<Raised>)
      returns (alerts: seq<Alert>, ghost x: Raised)
      requires Valid() && e.window >= 1 && (View(), sofar) == Raise(e, xs, ts, wall)
      modifies this`counters, dedup, refs
      ensures Valid() && x.f == f
      ensures (View(), alerts) == Raise(e, xs + [x], ts, wall)
    {
      ghost var victim;
      var more;
      more, victim := RaiseFinding(f, ts, wall);
      x := Raised(f, victim);
      RaiseMore(e, xs, x, ts, wall);
      alerts := sofar + more;
    }

    method RaiseAll(findings: seq<Finding>, ts: int, wall: Wall) returns (alerts: seq<Alert>, ghost xs: seq<Raised>)
      requires Valid()
      modifies this`counters, dedup, refs
      ensures Valid()
      ensures Carries(xs, findings)
      ensures (View(), alerts) == Raise(old(View()), xs, ts, wall)
    {
      ghost var e := View();
      alerts, xs := [], [];
      var i := 0;
      while i < |findings|
        invariant Valid() && 0 <= i <= |findings| && Carries(xs, findings[..i])
        invariant (View(), alerts) == Raise(e, xs, ts, wall)
      {
        ghost var x;
        alerts, x := RaiseNext(findings[i], ts, wall, alerts, e, xs);
        CarriesMore(xs, x, findings, i);
        xs := xs + [x];
        i := i + 1;
      }
      assert findings[..i] == findings;
    }

    /** One event; `findings` is what the rules made of it. */
    method ProcessAt(ts: int, wall: Wall, findings: seq<Finding>) returns (alerts: seq<Alert>, ghost xs: seq<Raised>)
      requires Valid()
      modifies this`counters, dedup, refs
      ensures Valid()
      ensures Carries(xs, findings)
      ensures (View(), alerts) == Process(old(View()), ts, wall, xs)
      ensures EngineDays.DayCounts(old(counters), counters, DayKey(wall.date), alerts)
      ensures counters.events == old(counters).events + 1
    {
      ghost var e := View();
      var now := ts;
      if now > wall.secs + MAX_FUTURE_SKEW_SECS || now < wall.secs - MAX_PAST_SKEW_SECS {
        now := wall.secs;
      }
      counters := counters.(events := counters.events + 1);
      counters := Rolled(counters, DayKey(wall.date));
      assert View() == Begun(old(View()), wall) && now == Clamp(ts, wall.secs);
      alerts, xs := RaiseAll(findings, now, wall);
      EngineDays.EventCounts(e, ts, wall, xs);
    }

    /** One LOW alert for each of these summaries, in any order. */
    method IssueAll(keys: set<string>, wall: Wall) returns (alerts: seq<Alert>, ghost order: seq<string>)
      requires Valid()
      modifies this`counters, refs
      ensures Valid() && Lists(order, keys)
      ensures (View(), alerts) == IssueSummaries(old(View()), order, wall)
    {
      alerts, order := [], [];
      var todo := keys;
      while todo != {}
        invariant Valid() && todo <= keys && Lists(order, keys - todo)
        invariant (View(), alerts) == IssueSummaries(old(View()), order, wall)
        decreases todo
      {
        var sig :| sig in todo;
        var a, id := IssueAlert("summary|" + sig, true, Low, wall.secs, wall);
        assert (order + [sig])[..|order|] == order;
        alerts, order := alerts + [a], order + [sig];
        todo := todo - {sig};
      }
    }

    /** Housekeeping: the digest if due, then one LOW alert per closed window. */
    method TickNow(wall: Wall, digest: seq<Finding>) returns (alerts: seq<Alert>, ghost xs: seq<Raised>, ghost order: seq<string>)
      requires Valid()
      modifies this`counters, dedup, refs
      ensures Valid()
      ensures Carries(xs, digest)
      ensures (View(), alerts) == TickEng(old(View()), wall, xs, order)
      ensures EngineDays.DayCounts(old(counters), counters, DayKey(wall.date), alerts)
      ensures counters.events == old(counters).events
      ensures var e := Raise(old(View()).(counters := Rolled(old(counters), DayKey(wall.date))), xs, wall.secs, wall).0;
              Lists(order, Summaries(e.window, e.entries, wall.secs).Keys)
    {
      ghost var e0 := View();
      counters := Rolled(counters, DayKey(wall.date));
      alerts, xs := RaiseAll(digest, wall.secs, wall);
      var summaries := dedup.TickAll(wall.secs);
      var more;
      more, order := IssueAll(summaries.Keys, wall);
      alerts := alerts + more;
      EngineDays.TickCounts(e0, wall, xs, order);
    }
  }
  /** A restart: a new engine over what the last one saved. */
  method StartAgain(configured: nat, wall: Wall, saved: Refs, counted: Counters) returns (e: Engine)
    ensures fresh(e) && e.Valid()
    ensures forall last: Eng :: last.refs == saved && last.counters == counted ==>
              e.View() == Restarted(last, Base(configured), wall)
  {
    e := new Engine(configured, wall);
    e.Restore(wall, saved, Some(counted));
  }
}
