/** What deduplication guarantees over whole runs of records and ticks: how often a
    signature can page, where every suppressed repeat ends up, and when windows
    stretch. */
module DedupRuns {
  import opened Common
  import opened Dedup

  /** `victim` is the signature forgotten if the map is full. */
  datatype Op = Rec(sig: string, now: int, f: Finding, victim: string) | Tk(now: int)

  function After(w: int, entries: Entries, op: Op): Entries
    requires w >= 1
  {
    match op
    case Rec(sig, now, f, victim) => Record(w, entries, sig, now, f, victim).0
    case Tk(now) => Tick(w, entries, now)
  }

  /** The entries along a run from an empty map. */
  ghost predicate Run(w: int, ops: seq<Op>, trace: seq<Entries>)
    requires w >= 1
  {
    && |trace| == |ops| + 1 && trace[0] == map[]
    && forall i: nat :: i < |ops| ==> StepAt(w, ops, trace, i)
  }

  ghost predicate StepAt(w: int, ops: seq<Op>, trace: seq<Entries>, i: nat)
    requires w >= 1 && |trace| == |ops| + 1 && i < |ops|
  {
    LegalOp(trace[i], ops[i]) && trace[i + 1] == After(w, trace[i], ops[i])
  }

  ghost predicate LegalOp(entries: Entries, op: Op) {
    op.Rec? && Evicts(entries, op.sig) ==> Idlest(entries, op.victim)
  }

  ghost predicate Nondecreasing(ops: seq<Op>) {
    forall i, j :: 0 <= i < j < |ops| ==> ops[i].now <= ops[j].now
  }

  /** The step forgets `sig` to make room. */
  predicate Loses(entries: Entries, op: Op, sig: string) {
    op.Rec? && Evicts(entries, op.sig) && op.victim == sig
  }

  /** The map never outgrows its cap. */
  lemma {:induction false} EntriesBounded(w: int, ops: seq<Op>, trace: seq<Entries>, i: nat)
    requires w >= 1 && Run(w, ops, trace) && i < |trace|
    ensures |trace[i]| <= 20_000
  {
    if i > 0 {
      EntriesBounded(w, ops, trace, i - 1);
      var entries, op := trace[i - 1], ops[i - 1];
      assert StepAt(w, ops, trace, i - 1);
      match op
      case Tk(now) =>
        SubsetCardinality(trace[i].Keys, entries.Keys);
      case Rec(sig, now, f, victim) =>
        if sig in entries {
          assert trace[i].Keys == entries.Keys;
        } else if Evicts(entries, sig) {
          assert trace[i].Keys == (entries.Keys - {victim}) + {sig};
        } else {
          assert trace[i].Keys == entries.Keys + {sig};
        }
    }
  }

  // ---------------------------------------------------------------------
  // One signature, watched
  // ---------------------------------------------------------------------

  /** One page for the watched signature: when, whether it was an escalation, in which
      life of its entry, and the entry's severity and streak after it. */
  datatype Page = Page(time: int, escalation: bool, life: nat, rank: nat, streak: nat)

  /** Where suppressed repeats went. */
  datatype Tally = Tally(suppressed: nat, summarized: nat, escalated: nat, late: nat, quiet: nat, evicted: nat, pruned: nat)

  function Repeats(entries: Entries, sig: string): nat {
    if sig in entries then entries[sig].repeats else 0
  }

  function Life(pages: seq<Page>): nat {
    if pages == [] then 0 else pages[|pages| - 1].life
  }

  /** The page a record of `sig` causes, if it does. */
  function PageOf(w: int, entries: Entries, op: Op, pages: seq<Page>): seq<Page>
    requires w >= 1 && op.Rec?
  {
    var (after, d) := Record(w, entries, op.sig, op.now, op.f, op.victim);
    if d == Suppressed then []
    else
      var known := op.sig in entries;
      [Page(op.now, known && Escalates(entries[op.sig], op.f), Life(pages) + (if known then 0 else 1),
            after[op.sig].severity.Rank(), after[op.sig].streak)]
  }

  /** How a step moves the watched signature's repeats. */
  function TallyStep(w: int, entries: Entries, op: Op, sig: string, t: Tally): Tally
    requires w >= 1
  {
    match op
    case Rec(s, now, f, victim) =>
      if s != sig then
        (if Loses(entries, op, sig) then t.(evicted := t.evicted + Repeats(entries, sig)) else t)
      else if sig !in entries then t
      else if Escalates(entries[sig], f) then t.(escalated := t.escalated + entries[sig].repeats)
      else if Open(w, entries[sig], now) then t.(suppressed := t.suppressed + 1)
      else t.(late := t.late + entries[sig].repeats)
    case Tk(now) =>
      if sig !in entries then t
      else
        var e := entries[sig];
        var closed := Closed(w, e, now);
        var t1 := match SummaryOf(w, e, now)
          case Some(s) => t.(summarized := t.summarized + s.repeats)
          case None =>
            t.(quiet := t.quiet + if !Open(w, e, now) && !e.severity.Actionable() then e.repeats else 0);
        if Retained(w, closed, now) then t1 else t1.(pruned := t1.pruned + closed.repeats)
  }

  function PagesStep(w: int, entries: Entries, op: Op, sig: string, pages: seq<Page>): seq<Page>
    requires w >= 1
  {
    if op.Rec? && op.sig == sig then pages + PageOf(w, entries, op, pages) else pages
  }

  /** The pages of `sig` after `i` steps. */
  function Pages(w: int, ops: seq<Op>, trace: seq<Entries>, sig: string, i: nat): seq<Page>
    requires w >= 1 && |trace| == |ops| + 1 && i <= |ops|
  {
    if i == 0 then [] else PagesStep(w, trace[i - 1], ops[i - 1], sig, Pages(w, ops, trace, sig, i - 1))
  }

  /** The tally of `sig` after `i` steps. */
  function Tallied(w: int, ops: seq<Op>, trace: seq<Entries>, sig: string, i: nat): Tally
    requires w >= 1 && |trace| == |ops| + 1 && i <= |ops|
  {
    if i == 0 then Tally(0, 0, 0, 0, 0, 0, 0)
    else TallyStep(w, trace[i - 1], ops[i - 1], sig, Tallied(w, ops, trace, sig, i - 1))
  }

  // ---------------------------------------------------------------------
  // Every suppressed repeat is accounted for once
  // ---------------------------------------------------------------------

  function Total(t: Tally): nat {
    t.summarized + t.escalated + t.late + t.quiet + t.evicted + t.pruned
  }

  predicate Balanced(t: Tally, entries: Entries, sig: string) {
    t.suppressed == Total(t) + Repeats(entries, sig)
  }

  lemma RepeatsAfterTick(w: int, entries: Entries, now: int, sig: string)
    requires w >= 1
    ensures Repeats(Tick(w, entries, now), sig)
            == if sig in entries && Retained(w, Closed(w, entries[sig], now), now) then Closed(w, entries[sig], now).repeats else 0
  {
  }

  lemma TickBalances(w: int, entries: Entries, now: int, sig: string, t: Tally)
    requires w >= 1 && Balanced(t, entries, sig)
    ensures Balanced(TallyStep(w, entries, Tk(now), sig, t), Tick(w, entries, now), sig)
  {
    RepeatsAfterTick(w, entries, now, sig);
  }

  lemma RecordBalances(w: int, entries: Entries, op: Op, sig: string, t: Tally)
    requires w >= 1 && op.Rec? && LegalOp(entries, op) && Balanced(t, entries, sig)
    ensures Balanced(TallyStep(w, entries, op, sig, t), Record(w, entries, op.sig, op.now, op.f, op.victim).0, sig)
  {
  }

  lemma StepBalances(w: int, entries: Entries, op: Op, sig: string, t: Tally, entries': Entries, t': Tally)
    requires w >= 1 && LegalOp(entries, op) && Balanced(t, entries, sig)
    requires entries' == After(w, entries, op) && t' == TallyStep(w, entries, op, sig, t)
    ensures Balanced(t', entries', sig)
  {
    if op.Rec? {
      RecordBalances(w, entries, op, sig, t);
    } else {
      TickBalances(w, entries, op.now, sig, t);
    }
  }

  /** With nondecreasing time an entry was last seen no earlier than it last paged, so
      by the time it is pruned its window has closed. */
  ghost predicate Timely(entries: Entries, clock: int) {
    forall k :: k in entries ==> entries[k].lastEmitted <= entries[k].lastSeen <= clock
  }

  /** What seeing an entry again, or closing its window, does to its times. */
  lemma AgainTimes(w: int, e: Entry, now: int, f: Finding)
    requires w >= 1
    ensures var (e', d) := Again(w, e, now, f);
            && e'.lastSeen == now && (d == Emit ==> e'.lastEmitted == now)
            && (d == Suppressed ==> e'.lastEmitted == e.lastEmitted && e'.severity == e.severity && e'.streak == e.streak)
  {
  }

  lemma ClosedTimes(w: int, e: Entry, now: int)
    requires w >= 1
    ensures var e' := Closed(w, e, now);
            e'.lastSeen == e.lastSeen && e'.lastEmitted == e.lastEmitted && e'.severity == e.severity && e'.streak == e.streak
  {
  }

  lemma TickKeeps(w: int, entries: Entries, now: int, k: string)
    requires w >= 1
    ensures var after := Tick(w, entries, now);
            && (k in after ==> k in entries && after[k] == Closed(w, entries[k], now))
            && (k in entries && k !in after ==> !Retained(w, Closed(w, entries[k], now), now))
  {
  }

  lemma TimelyRecord(w: int, entries: Entries, op: Op, clock: int)
    requires w >= 1 && Timely(entries, clock) && clock <= op.now && op.Rec?
    ensures Timely(After(w, entries, op), op.now)
  {
    if op.sig in entries {
      AgainTimes(w, entries[op.sig], op.now, op.f);
    }
  }

  lemma TimelyTick(w: int, entries: Entries, now: int, clock: int)
    requires w >= 1 && Timely(entries, clock) && clock <= now
    ensures Timely(Tick(w, entries, now), now)
  {
    var after := Tick(w, entries, now);
    forall k | k in after
      ensures after[k].lastEmitted <= after[k].lastSeen <= now
    {
      TickKeeps(w, entries, now, k);
      ClosedTimes(w, entries[k], now);
    }
  }

  lemma TimelyStep(w: int, entries: Entries, op: Op, clock: int)
    requires w >= 1 && Timely(entries, clock) && clock <= op.now
    ensures Timely(After(w, entries, op), op.now)
  {
    if op.Rec? {
      TimelyRecord(w, entries, op, clock);
    } else {
      TimelyTick(w, entries, op.now, clock);
    }
  }

  lemma PruneLosesNothing(w: int, entries: Entries, now: int, sig: string, t: Tally)
    requires w >= 1 && Timely(entries, now)
    ensures TallyStep(w, entries, Tk(now), sig, t).pruned == t.pruned
  {
  }

  lemma {:induction false} RunTimely(w: int, ops: seq<Op>, trace: seq<Entries>, i: nat)
    requires w >= 1 && Run(w, ops, trace) && Nondecreasing(ops) && i <= |ops|
    ensures i > 0 ==> Timely(trace[i], ops[i - 1].now)
    ensures i < |ops| ==> Timely(trace[i], ops[i].now)
  {
    if i > 0 {
      RunTimely(w, ops, trace, i - 1);
      assert StepAt(w, ops, trace, i - 1);
      TimelyStep(w, trace[i - 1], ops[i - 1], ops[i - 1].now);
    }
  }

  lemma TalliedStep(w: int, ops: seq<Op>, trace: seq<Entries>, sig: string, i: nat)
    requires w >= 1 && Run(w, ops, trace) && 0 < i <= |ops|
    ensures LegalOp(trace[i - 1], ops[i - 1]) && trace[i] == After(w, trace[i - 1], ops[i - 1])
    ensures Tallied(w, ops, trace, sig, i) == TallyStep(w, trace[i - 1], ops[i - 1], sig, Tallied(w, ops, trace, sig, i - 1))
  {
    assert StepAt(w, ops, trace, i - 1);
  }

  /** Over every run, whatever the clock does: the repeats of a signature suppressed so
      far are those in summaries, those an escalation, a late record, a non-actionable
      close, an eviction or a prune discarded, and those its entry counts now. */
  lemma {:induction false} SuppressedAccounted(w: int, ops: seq<Op>, trace: seq<Entries>, sig: string, i: nat)
    requires w >= 1 && Run(w, ops, trace) && i <= |ops|
    ensures Balanced(Tallied(w, ops, trace, sig, i), trace[i], sig)
  {
    if i > 0 {
      SuppressedAccounted(w, ops, trace, sig, i - 1);
      TalliedStep(w, ops, trace, sig, i);
      StepBalances(w, trace[i - 1], ops[i - 1], sig, Tallied(w, ops, trace, sig, i - 1),
                   trace[i], Tallied(w, ops, trace, sig, i));
    }
  }

  /** With nondecreasing time pruning discards none of them. */
  lemma {:induction false} PruningDiscardsNone(w: int, ops: seq<Op>, trace: seq<Entries>, sig: string, i: nat)
    requires w >= 1 && Run(w, ops, trace) && Nondecreasing(ops) && i <= |ops|
    ensures Tallied(w, ops, trace, sig, i).pruned == 0
  {
    if i > 0 {
      PruningDiscardsNone(w, ops, trace, sig, i - 1);
      if ops[i - 1].Tk? {
        RunTimely(w, ops, trace, i - 1);
        PruneLosesNothing(w, trace[i - 1], ops[i - 1].now, sig, Tallied(w, ops, trace, sig, i - 1));
      }
    }
  }

  /** Every record is either the page the watcher wrote or one suppressed repeat. */
  lemma RecordPagesOrCounts(w: int, entries: Entries, op: Op, pages: seq<Page>, t: Tally)
    requires w >= 1 && op.Rec?
    ensures var d := Record(w, entries, op.sig, op.now, op.f, op.victim).1;
            && (d == Emit <==> |PagesStep(w, entries, op, op.sig, pages)| == |pages| + 1)
            && (d == Suppressed <==> TallyStep(w, entries, op, op.sig, t).suppressed == t.suppressed + 1)
  {
  }

  // ---------------------------------------------------------------------
  // How often a signature pages
  // ---------------------------------------------------------------------

  /** What holds between one page and the next of the same signature. */
  predicate Follows(w: int, a: Page, b: Page)
    requires w >= 1
  {
    && a.time <= b.time && a.life <= b.life && b.rank <= 3
    && (b.escalation ==> b.life == a.life && b.rank > a.rank)
    && (!b.escalation ==> a.time + w <= b.time)
    && (!b.escalation && b.life == a.life ==> b.rank == a.rank && a.time + Window(w, a.streak) <= b.time)
    && (b.life > a.life ==> b.life == a.life + 1 && a.time + 12 * w <= b.time)
  }

  ghost predicate Spaced(w: int, pages: seq<Page>)
    requires w >= 1
  {
    && (pages != [] ==> !pages[0].escalation && pages[0].rank <= 3)
    && forall i :: 0 <= i < |pages| - 1 ==> Follows(w, pages[i], pages[i + 1])
  }

  /** How the entry remembers the last page. */
  ghost predicate Remembers(w: int, entries: Entries, sig: string, pages: seq<Page>, clock: int)
    requires w >= 1
  {
    if pages == [] then sig !in entries
    else
      var last := pages[|pages| - 1];
      if sig in entries then
        && entries[sig].lastEmitted == last.time && entries[sig].severity.Rank() == last.rank
        && entries[sig].streak == last.streak && last.time <= entries[sig].lastSeen <= clock
      else last.time + 12 * w <= clock
  }

  /** One page more, if it follows the last. */
  lemma SpacedMore(w: int, pages: seq<Page>, next: Page)
    requires w >= 1 && Spaced(w, pages)
    requires if pages == [] then !next.escalation && next.rank <= 3 else Follows(w, pages[|pages| - 1], next)
    ensures Spaced(w, pages + [next])
  {
  }

  lemma TickRemembers(w: int, entries: Entries, now: int, sig: string, pages: seq<Page>, clock: int)
    requires w >= 1 && clock <= now && Remembers(w, entries, sig, pages, clock)
    ensures Remembers(w, Tick(w, entries, now), sig, pages, now)
  {
    TickKeeps(w, entries, now, sig);
    if sig in entries {
      ClosedTimes(w, entries[sig], now);
    }
  }

  /** A record of the signature that pages. */
  lemma PageFollows(w: int, entries: Entries, op: Op, pages: seq<Page>, clock: int)
    requires w >= 1 && op.Rec? && clock <= op.now && Remembers(w, entries, op.sig, pages, clock)
    ensures var more := PageOf(w, entries, op, pages);
            && |more| <= 1
            && (|more| == 1 ==> if pages == [] then !more[0].escalation && more[0].rank <= 3
                                else Follows(w, pages[|pages| - 1], more[0]))
  {
    if op.sig in entries {
      AgainTimes(w, entries[op.sig], op.now, op.f);
    }
  }

  lemma RecordRemembers(w: int, entries: Entries, op: Op, pages: seq<Page>, clock: int)
    requires w >= 1 && op.Rec? && clock <= op.now && Remembers(w, entries, op.sig, pages, clock)
    ensures Remembers(w, After(w, entries, op), op.sig, pages + PageOf(w, entries, op, pages), op.now)
  {
    if op.sig in entries {
      AgainTimes(w, entries[op.sig], op.now, op.f);
    }
  }

  lemma StepSpaced(w: int, entries: Entries, op: Op, sig: string, pages: seq<Page>, clock: int)
    requires w >= 1 && clock <= op.now && !Loses(entries, op, sig)
    requires Spaced(w, pages) && Remembers(w, entries, sig, pages, clock)
    ensures var pages' := PagesStep(w, entries, op, sig, pages);
            Spaced(w, pages') && Remembers(w, After(w, entries, op), sig, pages', op.now)
  {
    if op.Tk? {
      TickRemembers(w, entries, op.now, sig, pages, clock);
    } else if op.sig == sig {
      PageFollows(w, entries, op, pages, clock);
      RecordRemembers(w, entries, op, pages, clock);
      var more := PageOf(w, entries, op, pages);
      if |more| == 1 {
        SpacedMore(w, pages, more[0]);
        assert more == [more[0]];
      }
    }
  }

  lemma {:induction false} RunSpaced(w: int, ops: seq<Op>, trace: seq<Entries>, sig: string, i: nat)
    requires w >= 1 && Run(w, ops, trace) && Nondecreasing(ops) && i <= |ops|
    requires forall j :: 0 <= j < |ops| ==> !Loses(trace[j], ops[j], sig)
    ensures var pages := Pages(w, ops, trace, sig, i);
            && Spaced(w, pages)
            && (i > 0 ==> Remembers(w, trace[i], sig, pages, ops[i - 1].now))
            && (i == 0 ==> pages == [])
  {
    if i > 0 {
      RunSpaced(w, ops, trace, sig, i - 1);
      var clock := if i > 1 then ops[i - 2].now else ops[i - 1].now;
      assert StepAt(w, ops, trace, i - 1);
      StepSpaced(w, trace[i - 1], ops[i - 1], sig, Pages(w, ops, trace, sig, i - 1), clock);
    }
  }

  function Escalations(pages: seq<Page>): nat {
    if pages == [] then 0
    else Escalations(pages[..|pages| - 1]) + if pages[|pages| - 1].escalation then 1 else 0
  }

  /** Counting over a stretch of pages: the ordinary ones are a window apart, and each
      life has room for three escalations. */
  lemma {:induction false} StretchOfPages(w: int, pages: seq<Page>)
    requires w >= 1 && pages != [] && pages[0].rank <= 3 && (pages[0].escalation ==> pages[0].rank >= 1)
    requires forall i :: 0 <= i < |pages| - 1 ==> Follows(w, pages[i], pages[i + 1])
    ensures var first, last := pages[0], pages[|pages| - 1];
            && first.life <= last.life && first.time <= last.time && last.rank <= 3
            && (|pages| - Escalations(pages) - 1) * w <= last.time - first.time
            && Escalations(pages) <= 3 * (last.life - first.life) + last.rank
            && (last.life - first.life) * (12 * w) <= last.time - first.time
  {
    if |pages| == 1 {
      assert Escalations(pages[..0]) == 0;
    } else {
      var init := pages[..|pages| - 1];
      StretchOfPages(w, init);
      assert Follows(w, pages[|pages| - 2], pages[|pages| - 1]);
      var n := |init| - Escalations(init) - 1;
      assert (n + 1) * w == n * w + w;
      var d := init[|init| - 1].life - init[0].life;
      assert (d + 1) * (12 * w) == d * (12 * w) + 12 * w;
    }
  }

  lemma CancelFactor(a: int, b: int, w: int)
    requires w >= 1 && a * w < b * w
    ensures a < b
  {
  }

  lemma DivBound(n: int, w: int, t: int)
    requires w >= 1 && n * w <= t
    ensures n <= t / w
  {
    var q := t / w;
    assert (q + 1) * w == q * w + w;
    CancelFactor(n, q + 1, w);
  }

  /** Page rate: over every run with nondecreasing time in which the signature is not
      evicted, two ordinary pages are at least a window apart (pruning and re-creation
      included), and any stretch of pages within `span` seconds counts at most
      span/w + 1 ordinary ones and 3 * (span/12w + 1) escalations. */
  lemma PageRate(w: int, ops: seq<Op>, trace: seq<Entries>, sig: string, i: nat, j: nat, span: nat)
    requires w >= 1 && Run(w, ops, trace) && Nondecreasing(ops)
    requires forall k :: 0 <= k < |ops| ==> !Loses(trace[k], ops[k], sig)
    requires var pages := Pages(w, ops, trace, sig, |ops|);
             i <= j < |pages| && pages[j].time - pages[i].time <= span
    ensures var pages := Pages(w, ops, trace, sig, |ops|);
            && (i < j && !pages[j].escalation ==> pages[i].time + w <= pages[j].time)
            && j - i + 1 <= span / w + 1 + 3 * (span / (12 * w) + 1)
  {
    RunSpaced(w, ops, trace, sig, |ops|);
    var pages := Pages(w, ops, trace, sig, |ops|);
    PagesInOrder(w, pages, i, j);
    PagesWithin(w, pages, i, j, span);
  }

  lemma {:induction false} PagesInOrder(w: int, pages: seq<Page>, i: nat, j: nat)
    requires w >= 1 && Spaced(w, pages) && i <= j < |pages|
    ensures pages[i].time <= pages[j].time
    ensures i < j && !pages[j].escalation ==> pages[i].time + w <= pages[j].time
    ensures pages[j].escalation ==> pages[j].rank >= 1
  {
    if i < j {
      PagesInOrder(w, pages, i, j - 1);
      assert Follows(w, pages[j - 1], pages[j]);
    } else if j > 0 {
      assert Follows(w, pages[j - 1], pages[j]);
    }
  }

  lemma {:induction false} RankBounded(w: int, pages: seq<Page>, i: nat)
    requires w >= 1 && Spaced(w, pages) && i < |pages|
    ensures pages[i].rank <= 3
  {
    if i > 0 {
      assert Follows(w, pages[i - 1], pages[i]);
    }
  }

  lemma PagesWithin(w: int, pages: seq<Page>, i: nat, j: nat, span: nat)
    requires w >= 1 && Spaced(w, pages) && i <= j < |pages| && pages[j].time - pages[i].time <= span
    ensures j - i + 1 <= span / w + 1 + 3 * (span / (12 * w) + 1)
  {
    var part := pages[i..j + 1];
    PagesInOrder(w, pages, i, i);
    RankBounded(w, pages, i);
    forall k | 0 <= k < |part| - 1
      ensures Follows(w, part[k], part[k + 1])
    {
      assert Follows(w, pages[i + k], pages[i + k + 1]);
    }
    StretchOfPages(w, part);
    DivBound(|part| - Escalations(part) - 1, w, span);
    DivBound(part[|part| - 1].life - part[0].life, 12 * w, span);
  }

  /** Over every such run, no life of the signature's entry holds more than three
      escalations. */
  lemma EscalationsPerLife(w: int, ops: seq<Op>, trace: seq<Entries>, sig: string, i: nat, j: nat)
    requires w >= 1 && Run(w, ops, trace) && Nondecreasing(ops)
    requires forall k :: 0 <= k < |ops| ==> !Loses(trace[k], ops[k], sig)
    requires var pages := Pages(w, ops, trace, sig, |ops|); i <= j < |pages| && pages[i].life == pages[j].life
    ensures Escalations(Pages(w, ops, trace, sig, |ops|)[i..j + 1]) <= 3
  {
    RunSpaced(w, ops, trace, sig, |ops|);
    LifeEscalations(w, Pages(w, ops, trace, sig, |ops|), i, j);
  }

  lemma LifeEscalations(w: int, pages: seq<Page>, i: nat, j: nat)
    requires w >= 1 && Spaced(w, pages) && i <= j < |pages| && pages[i].life == pages[j].life
    ensures Escalations(pages[i..j + 1]) <= 3
  {
    var part := pages[i..j + 1];
    PagesInOrder(w, pages, i, i);
    RankBounded(w, pages, i);
    forall k | 0 <= k < |part| - 1
      ensures Follows(w, part[k], part[k + 1])
    {
      assert Follows(w, pages[i + k], pages[i + k + 1]);
    }
    StretchOfPages(w, part);
  }

  /** The entry remembers a sighting at `seen`, or enough silence has passed to forget it. */
  ghost predicate Sighted(w: int, entries: Entries, sig: string, seen: int, clock: int) {
    if sig in entries then seen <= entries[sig].lastSeen else seen + 12 * w <= clock
  }

  lemma SightStep(w: int, entries: Entries, op: Op, sig: string, seen: int, clock: int, entries': Entries)
    requires w >= 1 && seen <= op.now && clock <= op.now && !Loses(entries, op, sig)
    requires Sighted(w, entries, sig, seen, clock) || (op.Rec? && op.sig == sig)
    requires entries' == After(w, entries, op)
    ensures Sighted(w, entries', sig, seen, op.now)
  {
    if op.Tk? {
      TickKeeps(w, entries, op.now, sig);
      if sig in entries {
        ClosedTimes(w, entries[sig], op.now);
      }
    } else if op.sig == sig && sig in entries {
      AgainTimes(w, entries[sig], op.now, op.f);
    }
  }

  lemma {:induction false} SightingKept(w: int, ops: seq<Op>, trace: seq<Entries>, sig: string, h: nat, k: nat)
    requires w >= 1 && Run(w, ops, trace) && Nondecreasing(ops) && h < k <= |ops|
    requires forall j :: 0 <= j < |ops| ==> !Loses(trace[j], ops[j], sig)
    requires ops[h].Rec? && ops[h].sig == sig
    ensures Sighted(w, trace[k], sig, ops[h].now, ops[k - 1].now)
  {
    assert StepAt(w, ops, trace, k - 1);
    var clock := if k > h + 1 then ops[k - 2].now else ops[h].now;
    if k > h + 1 {
      SightingKept(w, ops, trace, sig, h, k - 1);
    }
    SightStep(w, trace[k - 1], ops[k - 1], sig, ops[h].now, clock, trace[k]);
  }

  /** An entry is only ever created afresh at least twelve windows after the signature
      was last seen. */
  lemma NewLifeAfterSilence(w: int, ops: seq<Op>, trace: seq<Entries>, sig: string, h: nat, i: nat)
    requires w >= 1 && Run(w, ops, trace) && Nondecreasing(ops) && h < i < |ops|
    requires forall j :: 0 <= j < |ops| ==> !Loses(trace[j], ops[j], sig)
    requires ops[h].Rec? && ops[h].sig == sig && ops[i].Rec? && ops[i].sig == sig && sig !in trace[i]
    ensures ops[h].now + 12 * w <= ops[i].now
  {
    SightingKept(w, ops, trace, sig, h, i);
  }

  // ---------------------------------------------------------------------
  // When a recurring incident gets a longer window
  // ---------------------------------------------------------------------

  /** The map after these operations. */
  function Through(w: int, entries: Entries, ops: seq<Op>): Entries
    requires w >= 1
  {
    if ops == [] then entries else After(w, Through(w, entries, ops[..|ops| - 1]), ops[|ops| - 1])
  }

  /** None of these records `sig` or evicts it. */
  predicate Elsewhere(w: int, entries: Entries, ops: seq<Op>, sig: string)
    requires w >= 1
  {
    ops == []
    || (var init, last := ops[..|ops| - 1], ops[|ops| - 1];
        && Elsewhere(w, entries, init, sig)
        && (last.Rec? ==> last.sig != sig && !Loses(Through(w, entries, init), last, sig)))
  }

  /** How many of the ticks among these find the window of `e` closed. */
  function ClosedTicks(w: int, e: Entry, ops: seq<Op>): nat
    requires w >= 1
  {
    if ops == [] then 0
    else
      var last := ops[|ops| - 1];
      ClosedTicks(w, e, ops[..|ops| - 1]) + if last.Tk? && !Open(w, e, last.now) then 1 else 0
  }

  /** Every tick among these leaves an entry last seen when `e` was. */
  predicate AllRetain(w: int, e: Entry, ops: seq<Op>)
    requires w >= 1
  {
    forall i :: 0 <= i < |ops| && ops[i].Tk? ==> Retained(w, e, ops[i].now)
  }

  /** What is left of `e` after `n` ticks on its closed window. */
  predicate LeftOf(e: Entry, n: nat, c: Entry) {
    && c.streak == e.streak && c.lastEmitted == e.lastEmitted && c.lastSeen == e.lastSeen && c.severity == e.severity
    && c.repeats == (if n == 0 then e.repeats else 0)
    && c.recurring == (if n == 0 then e.recurring else n == 1 && e.repeats > 0)
  }

  lemma CloseOnce(w: int, e: Entry, n: nat, c: Entry, now: int)
    requires w >= 1 && LeftOf(e, n, c)
    ensures LeftOf(e, n + (if Open(w, e, now) then 0 else 1), Closed(w, c, now))
    ensures Retained(w, Closed(w, c, now), now) == Retained(w, e, now)
  {
  }

  lemma TickGone(w: int, entries: Entries, now: int, sig: string)
    requires w >= 1
    ensures sig in Tick(w, entries, now) <==> sig in entries && Retained(w, Closed(w, entries[sig], now), now)
  {
  }

  /** While nothing happens to `sig` but ticks, its entry stays just as long as each tick
      retains it, and remembers only how many found its window closed. */
  lemma {:induction false} TicksOnly(w: int, entries: Entries, ops: seq<Op>, sig: string, e: Entry)
    requires w >= 1 && sig in entries && entries[sig] == e && Elsewhere(w, entries, ops, sig)
    ensures var after := Through(w, entries, ops);
            && (sig in after <==> AllRetain(w, e, ops))
            && (sig in after ==> LeftOf(e, ClosedTicks(w, e, ops), after[sig]))
  {
    if ops != [] {
      var init, last := ops[..|ops| - 1], ops[|ops| - 1];
      assert ops == init + [last];
      TicksOnly(w, entries, init, sig, e);
      var before := Through(w, entries, init);
      assert AllRetain(w, e, ops) <==> AllRetain(w, e, init) && (last.Tk? ==> Retained(w, e, last.now));
      if last.Tk? {
        TickGone(w, before, last.now, sig);
        if sig in before {
          CloseOnce(w, e, ClosedTicks(w, e, init), before[sig], last.now);
          TickKeeps(w, before, last.now, sig);
        }
      }
    }
  }

  /** Whether the next window gets longer, after `n` ticks on the closed one. */
  predicate GoesOn(e: Entry, n: nat) {
    if n == 0 then e.recurring || e.repeats > 0 else n == 1 && e.repeats > 0
  }

  /** When an incident stretches its window, exactly. Let nothing but ticks happen to a
      signature, and then a finding of it come after its window: it pages, and its next
      window is longer if and only if no tick forgot it (twelve windows after it was last
      seen) and, of the ticks that found the window closed, there was none and the incident
      was recurring, or there was one and the incident had repeats. The second such tick
      takes the silence since the first for a quiet window. */
  lemma StretchExactly(w: int, entries: Entries, ops: seq<Op>, sig: string, e: Entry, now: int, f: Finding, victim: string)
    requires w >= 1 && sig in entries && entries[sig] == e && Elsewhere(w, entries, ops, sig)
    requires !Open(w, e, now) && !Escalates(e, f)
    ensures var (after, d) := Record(w, Through(w, entries, ops), sig, now, f, victim);
            && d == Emit && after[sig].lastEmitted == now && after[sig].repeats == 0
            && (after[sig].streak > 0 <==> AllRetain(w, e, ops) && GoesOn(e, ClosedTicks(w, e, ops)))
            && after[sig].streak == (if AllRetain(w, e, ops) && GoesOn(e, ClosedTicks(w, e, ops)) then Longer(e.streak) else 0)
  {
    TicksOnly(w, entries, ops, sig, e);
  }

  function Longer(streak: nat): (r: nat)
    ensures r > 0
  {
    if streak < MAX_STREAK then streak + 1 else MAX_STREAK
  }

  /** With ticks alone on the closed window of an incident that repeated: the stretch is
      kept if and only if there was no tick, or one that came before twelve windows of
      silence were over. */
  lemma StretchIffOneTick(w: int, entries: Entries, ticks: seq<Op>, sig: string, e: Entry, now: int, f: Finding, victim: string)
    requires w >= 1 && sig in entries && entries[sig] == e && e.repeats > 0
    requires forall i :: 0 <= i < |ticks| ==> ticks[i].Tk? && !Open(w, e, ticks[i].now)
    requires !Open(w, e, now) && !Escalates(e, f)
    ensures var (after, d) := Record(w, Through(w, entries, ticks), sig, now, f, victim);
            d == Emit && (after[sig].streak > 0 <==> |ticks| == 0 || (|ticks| == 1 && Retained(w, e, ticks[0].now)))
  {
    TicksCount(w, entries, ticks, sig, e);
    StretchExactly(w, entries, ticks, sig, e, now, f, victim);
  }

  lemma {:induction false} TicksCount(w: int, entries: Entries, ticks: seq<Op>, sig: string, e: Entry)
    requires w >= 1 && forall i :: 0 <= i < |ticks| ==> ticks[i].Tk? && !Open(w, e, ticks[i].now)
    ensures Elsewhere(w, entries, ticks, sig) && ClosedTicks(w, e, ticks) == |ticks|
  {
    if ticks != [] {
      TicksCount(w, entries, ticks[..|ticks| - 1], sig, e);
    }
  }

  // ---------------------------------------------------------------------
  // The ladder
  // ---------------------------------------------------------------------

  /** Seen once more at `t1`, a tick at `t2`, seen again at `t3`. */
  function Cycle(w: int, entries: Entries, sig: string, t1: int, t2: int, t3: int, f: Finding, victim: string): Entries
    requires w >= 1
  {
    Record(w, Tick(w, Record(w, entries, sig, t1, f, victim).0, t2), sig, t3, f, victim).0
  }

  /** The tick comes after the window of the incident and before twelve windows of silence,
      the first sighting within the window and the second after it. */
  predicate InTime(w: int, e: Entry, t1: int, t2: int, t3: int)
    requires w >= 1
  {
    Open(w, e, t1) && !Open(w, e, t2) && !Open(w, e, t3) && t2 - t1 < Window(w, e.streak) * 12
  }

  /** `maps` is one incident recurring through its windows, each with one tick after it. */
  ghost predicate Recurring(w: int, sig: string, f: Finding, steps: seq<(int, int, int)>, maps: seq<Entries>)
    requires w >= 1
  {
    && |maps| == |steps| + 1 && sig in maps[0] && maps[0][sig].streak == 0 && maps[0][sig].severity == f.severity
    && forall i :: 0 <= i < |steps| ==>
         && sig in maps[i] && InTime(w, maps[i][sig], steps[i].0, steps[i].1, steps[i].2)
         && maps[i + 1] == Cycle(w, maps[i], sig, steps[i].0, steps[i].1, steps[i].2, f, sig)
  }

  lemma CycleStretches(w: int, entries: Entries, sig: string, t1: int, t2: int, t3: int, f: Finding, victim: string)
    requires w >= 1 && sig in entries && InTime(w, entries[sig], t1, t2, t3) && !Escalates(entries[sig], f)
    ensures var after := Cycle(w, entries, sig, t1, t2, t3, f, victim);
            && sig in after && after[sig].streak == Longer(entries[sig].streak)
            && after[sig].lastEmitted == t3 && after[sig].severity == entries[sig].severity
  {
    var e := entries[sig];
    var seen := Again(w, e, t1, f).0;
    AgainTimes(w, e, t1, f);
    assert seen.repeats > 0;
    var noted := Record(w, entries, sig, t1, f, victim).0;
    TickGone(w, noted, t2, sig);
    TickKeeps(w, noted, t2, sig);
    CloseOnce(w, seen, 0, seen, t2);
  }

  lemma {:induction false} Pow3Grows(k: nat, m: nat)
    requires k <= m
    ensures Pow3(k) <= Pow3(m)
    decreases m
  {
    if k < m {
      Pow3Grows(k, m - 1);
    }
  }

  /** From the sixteenth window on the cap is reached. */
  lemma LadderEnds(w: int, k: nat, most: nat)
    requires w >= 1 && most == MAX_STREAK <= k
    ensures Window(w, most) == Cap(w) && w * Pow3(k) >= Cap(w)
  {
    assert Pow3(4) == 81;
    assert Pow3(8) == 6561;
    Pow3Grows(8, most);
    Pow3Grows(most, k);
    MulMono(w, 6561, Pow3(most));
    MulMono(w, Pow3(most), Pow3(k));
    WindowClosedForm(w, most);
  }

  /** The k-th window of a recurring incident is 3^k times the base, up to the cap. */
  lemma {:induction false} RecurringLadder(w: int, sig: string, f: Finding, steps: seq<(int, int, int)>, maps: seq<Entries>, k: nat)
    requires w >= 1 && Recurring(w, sig, f, steps, maps) && k < |maps|
    ensures sig in maps[k] && maps[k][sig].severity == f.severity
    ensures maps[k][sig].streak == (if k < 16 then k else 16)
    ensures Window(w, maps[k][sig].streak) == if w * Pow3(k) < Cap(w) then w * Pow3(k) else Cap(w)
  {
    if k > 0 {
      RecurringLadder(w, sig, f, steps, maps, k - 1);
      CycleStretches(w, maps[k - 1], sig, steps[k - 1].0, steps[k - 1].1, steps[k - 1].2, f, sig);
    }
    if k < MAX_STREAK {
      WindowClosedForm(w, k);
    } else {
      LadderEnds(w, k, MAX_STREAK);
    }
  }
}
