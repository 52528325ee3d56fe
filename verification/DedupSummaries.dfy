/** What the summary of a closed window says, hermian-core/src/dedup.rs: over every run, the
    repeats since the page and the distinct details of all the window's findings. */
module DedupSummaries {
  import opened Common
  import opened Dedup
  import opened DedupRuns

  /** The findings of `sig` recorded by the operations from `i` to before `j`. */
  function Found(ops: seq<Op>, sig: string, i: nat, j: nat): seq<Finding>
    requires i <= j <= |ops|
    decreases j
  {
    if i == j then []
    else Found(ops, sig, i, j - 1) + if ops[j - 1].Rec? && ops[j - 1].sig == sig then [ops[j - 1].f] else []
  }

  /** The details these findings vary in. */
  function Details(fs: seq<Finding>): seq<string> {
    if fs == [] then []
    else Details(fs[..|fs| - 1]) + match fs[|fs| - 1].varies case None => [] case Some(v) => [v.value]
  }

  /** Each value once, where it first occurs. */
  function Distinct(vs: seq<string>): seq<string> {
    if vs == [] then []
    else
      var d := Distinct(vs[..|vs| - 1]);
      if vs[|vs| - 1] in d then d else d + [vs[|vs| - 1]]
  }

  function FirstOf(vs: seq<string>, n: nat): seq<string> {
    if |vs| <= n then vs else vs[..n]
  }

  /** The operations after the `i`-th and before the `j`-th leave the window that the `i`-th
      opened for `sig` open: its findings are suppressed, and ticks come too early to close it
      or to forget it. */
  ghost predicate StaysOpen(w: int, ops: seq<Op>, trace: seq<Entries>, sig: string, i: nat, j: nat)
    requires w >= 1 && |trace| == |ops| + 1 && i < j <= |ops|
  {
    forall k: nat :: i < k < j ==> MoreAt(w, ops, trace, sig, k)
  }

  ghost predicate MoreAt(w: int, ops: seq<Op>, trace: seq<Entries>, sig: string, k: nat)
    requires w >= 1 && |trace| == |ops| + 1 && k < |ops|
  {
    OneMore(w, ops[k], trace[k], trace[k + 1], sig)
  }

  ghost predicate OneMore(w: int, op: Op, before: Entries, after: Entries, sig: string)
    requires w >= 1
  {
    && sig in before && sig in after
    && match op
       case Tk(now) => Open(w, before[sig], now)
       case Rec(s, now, f, victim) => s == sig ==> Record(w, before, sig, now, f, victim).1 == Suppressed
  }

  /** What the entry of `sig` says of the findings `fs` of its window. */
  ghost predicate Says(e: Entry, fs: seq<Finding>) {
    && |fs| > 0 && e.repeats == |fs| - 1
    && e.values == FirstOf(Distinct(Details(fs)), 64)
    && (e.overflow <==> |Distinct(Details(fs))| > 64)
  }

  lemma DetailsMore(fs: seq<Finding>, f: Finding)
    ensures Details(fs + [f]) == match f.varies case None => Details(fs) case Some(v) => Details(fs) + [v.value]
  {
    assert (fs + [f])[..|fs|] == fs;
  }

  lemma DistinctMore(vs: seq<string>, v: string)
    ensures Distinct(vs + [v]) == if v in Distinct(vs) then Distinct(vs) else Distinct(vs) + [v]
  {
    assert (vs + [v])[..|vs|] == vs;
  }

  lemma OneDetail(none: seq<Finding>, f: Finding)
    requires none == []
    ensures Distinct(Details(none + [f])) == match f.varies case None => [] case Some(v) => [v.value]
  {
    DetailsMore(none, f);
    if f.varies.Some? {
      DistinctMore(Details(none), f.varies.value.value);
    }
  }

  /** A page starts the account with its own finding. */
  lemma PageSays(e: Entry, now: int, f: Finding, none: seq<Finding>)
    requires none == []
    ensures Says(ResetWindow(e, now, f), none + [f]) && Says(NewEntry(now, f), none + [f])
  {
    OneDetail(none, f);
  }

  lemma FirstOfMore(d: seq<string>, v: string, n: nat)
    ensures FirstOf(d + [v], n) == if |d| < n then FirstOf(d, n) + [v] else FirstOf(d, n)
    ensures v in FirstOf(d, n) ==> v in d
    ensures |d| <= n ==> FirstOf(d, n) == d
    ensures |d| >= n ==> |FirstOf(d, n)| == n
  {
  }

  /** A suppressed finding adds itself. */
  lemma RepeatSays(e: Entry, f: Finding, fs: seq<Finding>, seen: Entry)
    requires Says(e, fs) && seen.repeats == e.repeats + 1 && seen.values == e.values && seen.overflow == e.overflow
    ensures Says(NoteVaries(seen, f), fs + [f])
  {
    var d := Distinct(Details(fs));
    DetailsMore(fs, f);
    if f.varies.Some? {
      var v := f.varies.value.value;
      DistinctMore(Details(fs), v);
      FirstOfMore(d, v, 64);
    }
  }

  /** Recording another signature, or a tick too early, leaves the entry as it is. */
  lemma EntryStays(w: int, before: Entries, op: Op, sig: string)
    requires w >= 1 && OneMore(w, op, before, After(w, before, op), sig) && (op.Rec? ==> op.sig != sig)
    ensures After(w, before, op)[sig] == before[sig]
  {
  }

  /** The entry a page leaves. */
  function Paged(w: int, entries: Entries, op: Op): Entry
    requires w >= 1 && op.Rec?
  {
    Record(w, entries, op.sig, op.now, op.f, op.victim).0[op.sig]
  }

  predicate Emits(w: int, entries: Entries, op: Op, sig: string)
    requires w >= 1
  {
    op.Rec? && op.sig == sig && Record(w, entries, sig, op.now, op.f, op.victim).1 == Emit
  }

  /** The same page, window and severity. */
  predicate SameWindow(e: Entry, first: Entry) {
    && e.lastEmitted == first.lastEmitted && e.streak == first.streak
    && e.title == first.title && e.detection == first.detection && e.severity == first.severity
  }

  ghost predicate ToldAt(w: int, ops: seq<Op>, trace: seq<Entries>, sig: string, i: nat, j: nat)
    requires w >= 1 && |trace| == |ops| + 1 && i < j <= |ops| && ops[i].Rec?
  {
    Told(trace[j], sig, Found(ops, sig, i, j), Paged(w, trace[i], ops[i]), ops[i].now)
  }

  lemma WindowSays(w: int, ops: seq<Op>, trace: seq<Entries>, sig: string, i: nat, j: nat)
    requires w >= 1 && Run(w, ops, trace) && i < j <= |ops| && StaysOpen(w, ops, trace, sig, i, j)
    requires Emits(w, trace[i], ops[i], sig)
    ensures ToldAt(w, ops, trace, sig, i, j)
  {
    FirstTold(w, ops, trace, sig, i);
    var k := i + 1;
    while k < j
      invariant i < k <= j && ToldAt(w, ops, trace, sig, i, k)
    {
      assert MoreAt(w, ops, trace, sig, k);
      NextTold(w, ops, trace, sig, i, k);
      k := k + 1;
    }
  }

  lemma FirstTold(w: int, ops: seq<Op>, trace: seq<Entries>, sig: string, i: nat)
    requires w >= 1 && Run(w, ops, trace) && i < |ops| && Emits(w, trace[i], ops[i], sig)
    ensures ToldAt(w, ops, trace, sig, i, i + 1)
  {
    assert StepAt(w, ops, trace, i);
    OpenedBy(w, trace[i], ops[i], sig, Found(ops, sig, i, i));
  }

  lemma NextTold(w: int, ops: seq<Op>, trace: seq<Entries>, sig: string, i: nat, k: nat)
    requires w >= 1 && Run(w, ops, trace) && i < k < |ops| && MoreAt(w, ops, trace, sig, k)
    requires ops[i].Rec? && ToldAt(w, ops, trace, sig, i, k)
    ensures ToldAt(w, ops, trace, sig, i, k + 1)
  {
    assert StepAt(w, ops, trace, k);
    SaysOn(w, ops[k], trace[k], trace[k + 1], sig, Found(ops, sig, i, k), Paged(w, trace[i], ops[i]), ops[i].now);
  }

  /** The map holds that account of the window that began at `start` with the entry `first`. */
  ghost predicate Told(entries: Entries, sig: string, fs: seq<Finding>, first: Entry, start: int) {
    && sig in entries && Says(entries[sig], fs)
    && SameWindow(entries[sig], first) && first.lastEmitted == start
  }

  lemma SaysOn(w: int, op: Op, before: Entries, after: Entries, sig: string, fs: seq<Finding>, first: Entry, start: int)
    requires w >= 1 && after == After(w, before, op) && OneMore(w, op, before, after, sig)
    requires Told(before, sig, fs, first, start)
    ensures Told(after, sig, fs + if op.Rec? && op.sig == sig then [op.f] else [], first, start)
  {
    if op.Rec? && op.sig == sig {
      SuppressedSays(w, before, op.now, op.f, sig, op.victim, fs);
    } else {
      EntryStays(w, before, op, sig);
      assert fs + [] == fs;
    }
  }

  lemma OpenedBy(w: int, entries: Entries, op: Op, sig: string, none: seq<Finding>)
    requires w >= 1 && Emits(w, entries, op, sig) && none == []
    ensures Told(After(w, entries, op), sig, none + [op.f], Paged(w, entries, op), op.now)
  {
    var now, f := op.now, op.f;
    if sig in entries {
      var seen := entries[sig].(lastSeen := now);
      PageSays(seen.(severity := f.severity, title := f.title), now, f, none);
      PageSays(seen.(streak := Again(w, entries[sig], now, f).0.streak, recurring := false), now, f, none);
    } else {
      PageSays(NewEntry(now, f), now, f, none);
    }
  }

  lemma SuppressedSays(w: int, entries: Entries, now: int, f: Finding, sig: string, victim: string, fs: seq<Finding>)
    requires w >= 1 && sig in entries && Record(w, entries, sig, now, f, victim).1 == Suppressed && Says(entries[sig], fs)
    ensures var e, e' := entries[sig], Record(w, entries, sig, now, f, victim).0[sig];
            Says(e', fs + [f]) && SameWindow(e', e)
  {
    var e := entries[sig];
    RepeatSays(e, f, fs, e.(lastSeen := now, repeats := e.repeats + 1));
  }

  /** The summary a tick makes of a window, over every run: there is one exactly if the window
      is over, something was suppressed in it and the severity paged is actionable, and then
      it counts the repeats since the page, lists each distinct detail of the window's
      findings once, in the order in which they came, up to 64, and says whether there were
      more. */
  lemma WindowSummary(w: int, ops: seq<Op>, trace: seq<Entries>, sig: string, i: nat, j: nat)
    requires w >= 1 && Run(w, ops, trace) && i < j < |ops| && StaysOpen(w, ops, trace, sig, i, j) && ops[j].Tk?
    requires Emits(w, trace[i], ops[i], sig)
    ensures var fs, first, all := Found(ops, sig, i, j), Paged(w, trace[i], ops[i]), Summaries(w, trace[j], ops[j].now);
            var length := Window(w, first.streak);
            && (sig in all <==> ops[j].now - ops[i].now >= length && |fs| > 1 && first.severity.Actionable())
            && (sig in all ==>
                  && all[sig].repeats == |fs| - 1 && all[sig].window == length
                  && all[sig].title == first.title && all[sig].detection == first.detection
                  && all[sig].values == FirstOf(Distinct(Details(fs)), 64)
                  && (all[sig].overflow <==> |Distinct(Details(fs))| > 64))
  {
    WindowSays(w, ops, trace, sig, i, j);
  }

  /** The title is that of the finding that opened the entry or last escalated it. */
  lemma TitleOfPage(w: int, entries: Entries, op: Op, sig: string)
    requires w >= 1 && Emits(w, entries, op, sig)
    ensures var e, f := Paged(w, entries, op), op.f;
            if sig !in entries then e.title == f.title && e.severity == f.severity && e.detection == f.detection
            else if Escalates(entries[sig], f) then
              e.title == f.title && e.severity == f.severity && e.detection == entries[sig].detection
            else e.title == entries[sig].title && e.severity == entries[sig].severity && e.detection == entries[sig].detection
  {
  }

  /** INFO below LOW below HIGH below CRITICAL; the last two page. */
  lemma EscalatesExactly(e: Entry, f: Finding)
    ensures Escalates(e, f) <==>
            match e.severity
            case Info => f.severity != Info
            case Low => f.severity == High || f.severity == Critical
            case High => f.severity == Critical
            case Critical => false
    ensures e.severity.Actionable() <==> e.severity == High || e.severity == Critical
  {
  }

  /** A tick forgets exactly the signatures last seen twelve of their windows ago or more. */
  lemma TickKeepsExactly(w: int, ops: seq<Op>, trace: seq<Entries>, sig: string, k: nat)
    requires w >= 1 && Run(w, ops, trace) && k < |ops| && ops[k].Tk?
    ensures sig in trace[k + 1] <==>
            && sig in trace[k]
            && ops[k].now - trace[k][sig].lastSeen < 12 * Window(w, trace[k][sig].streak)
  {
    assert StepAt(w, ops, trace, k);
  }

  /** An entry is lost to make room exactly when a new signature comes while the map holds
      20000, and it is one that no other has been idle longer than. */
  lemma LosesExactly(w: int, ops: seq<Op>, trace: seq<Entries>, sig: string, k: nat)
    requires w >= 1 && Run(w, ops, trace) && k < |ops| && ops[k].Rec? && sig in trace[k]
    ensures var entries := trace[k];
            && (sig !in trace[k + 1] <==>
                  |entries| == 20_000 && ops[k].sig !in entries && ops[k].victim == sig)
            && (sig !in trace[k + 1] ==> forall j :: j in entries ==> entries[sig].lastSeen <= entries[j].lastSeen)
  {
    assert StepAt(w, ops, trace, k);
    EntriesBounded(w, ops, trace, k);
  }
}
