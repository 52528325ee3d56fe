/** What `merge` guarantees: it finds everything missing, puts it where it belongs, says
    nothing new, and finds nothing left to do on its own output. */
module ConfMergeFacts {
  import opened Common
  import opened Text
  import opened Sections
  import opened ConfLines
  import opened ConfMerge

  // ---------------------------------------------------------------------
  // Everything the template has is there
  // ---------------------------------------------------------------------

  /** The file has the section with all its settings, on or off, or a commented marker
      of the section. */
  ghost predicate Covered(lines: seq<string>, sec: TemplateSection) {
    match SectionLines(lines, sec.path)
    case Some(body) => forall i :: 0 <= i < |sec.keys| ==> sec.keys[i].key in Keys(body)
    case None => HasMarker(lines, sec.path)
  }

  ghost predicate AllCovered(lines: seq<string>, secs: seq<TemplateSection>) {
    forall i :: 0 <= i < |secs| ==> Covered(lines, secs[i])
  }

  lemma {:induction false} MissingNothing(keys: seq<TemplateKey>, present: set<string>)
    ensures Missing(keys, present) == [] <==> forall i :: 0 <= i < |keys| ==> keys[i].key in present
  {
    if keys != [] {
      MissingNothing(keys[..|keys| - 1], present);
      assert |Offer(keys[|keys| - 1])| > 0;
    }
  }

  lemma {:induction false} MissingHas(keys: seq<TemplateKey>, present: set<string>, i: nat)
    requires i < |keys| && keys[i].key !in present
    ensures CommentOut(keys[i].line) in Missing(keys, present)
  {
    if i < |keys| - 1 {
      MissingHas(keys[..|keys| - 1], present, i);
    } else {
      var r := Missing(keys, present);
      assert r[|r| - 1] == CommentOut(keys[i].line);
    }
  }

  lemma PlanAtEmpty(lines: seq<string>, sec: TemplateSection, notes: Notes, body: Option<(nat, nat)>, plan: Plan)
    requires body.Some? ==> body.value.0 <= body.value.1 <= |lines|
    ensures PlanAt(lines, sec, notes, body, plan) == plan <==>
              match body
              case Some(se) => forall i :: 0 <= i < |sec.keys| ==> sec.keys[i].key in Keys(lines[se.0..se.1])
              case None => HasMarker(lines, sec.path)
    ensures |PlanAt(lines, sec, notes, body, plan).inserts| >= |plan.inserts|
    ensures |PlanAt(lines, sec, notes, body, plan).appended| >= |plan.appended|
  {
    match body
    case Some(se) =>
      MissingNothing(sec.keys, Keys(lines[se.0..se.1]));
    case None =>
      assert |NewSection(sec)| >= 2;
  }

  /** One section is left alone exactly if the file covers it. */
  lemma PlanOneEmpty(lines: seq<string>, sec: TemplateSection, notes: Notes, plan: Plan, plan': Plan)
    requires plan' == PlanOne(lines, sec, notes, plan)
    ensures plan' == plan <==> Covered(lines, sec)
    ensures |plan'.inserts| >= |plan.inserts| && |plan'.appended| >= |plan.appended|
  {
    PlanAtEmpty(lines, sec, notes, SectionBody(lines, sec.path), plan);
  }

  lemma AllCoveredLast(lines: seq<string>, init: seq<TemplateSection>, last: TemplateSection)
    ensures AllCovered(lines, init + [last]) <==> AllCovered(lines, init) && Covered(lines, last)
  {
    var secs := init + [last];
    assert secs[|init|] == last && forall i :: 0 <= i < |init| ==> secs[i] == init[i];
  }

  lemma PlanStaysEmpty(lines: seq<string>, sec: TemplateSection, notes: Notes, plan: Plan, plan': Plan)
    requires plan' == PlanOne(lines, sec, notes, plan)
    ensures plan' == Plan([], []) <==> plan == Plan([], []) && Covered(lines, sec)
  {
    PlanOneEmpty(lines, sec, notes, plan, plan');
    if plan' == Plan([], []) {
      assert plan == Plan([], []);
    }
  }

  lemma PlanAllMore(lines: seq<string>, init: seq<TemplateSection>, last: TemplateSection, notes: Notes)
    ensures PlanAll(lines, init + [last], notes) == PlanOne(lines, last, notes, PlanAll(lines, init, notes))
  {
    assert (init + [last])[..|init|] == init;
  }

  /** The plan is empty just when these sections are covered. */
  ghost predicate EmptyIfCovered(lines: seq<string>, secs: seq<TemplateSection>, plan: Plan) {
    plan == Plan([], []) <==> AllCovered(lines, secs)
  }

  lemma CoverMore(lines: seq<string>, init: seq<TemplateSection>, last: TemplateSection, plan: Plan, plan': Plan)
    requires EmptyIfCovered(lines, init, plan)
    requires plan' == Plan([], []) <==> plan == Plan([], []) && Covered(lines, last)
    ensures EmptyIfCovered(lines, init + [last], plan')
  {
    AllCoveredLast(lines, init, last);
  }

  lemma PlanEmptyMore(lines: seq<string>, init: seq<TemplateSection>, last: TemplateSection, secs: seq<TemplateSection>, notes: Notes)
    requires secs == init + [last] && EmptyIfCovered(lines, init, PlanAll(lines, init, notes))
    ensures EmptyIfCovered(lines, secs, PlanAll(lines, secs, notes))
  {
    var plan, plan' := PlanAll(lines, init, notes), PlanAll(lines, secs, notes);
    PlanAllMore(lines, init, last, notes);
    PlanStaysEmpty(lines, last, notes, plan, plan');
    CoverMore(lines, init, last, plan, plan');
  }

  lemma PlanNone(lines: seq<string>, notes: Notes, secs: seq<TemplateSection>)
    requires secs == []
    ensures EmptyIfCovered(lines, secs, PlanAll(lines, secs, notes))
  {
  }

  lemma {:induction false} PlanEmptyUpTo(lines: seq<string>, secs: seq<TemplateSection>, notes: Notes, n: nat, part: seq<TemplateSection>)
    requires n <= |secs| && part == secs[..n]
    ensures EmptyIfCovered(lines, part, PlanAll(lines, part, notes))
    decreases n
  {
    if n == 0 {
      PlanNone(lines, notes, part);
    } else {
      PlanEmptyUpTo(lines, secs, notes, n - 1, secs[..n - 1]);
      PlanEmptyMore(lines, secs[..n - 1], secs[n - 1], part, notes);
    }
  }

  lemma PlanEmpty(lines: seq<string>, secs: seq<TemplateSection>, notes: Notes)
    ensures EmptyIfCovered(lines, secs, PlanAll(lines, secs, notes))
  {
    PlanEmptyUpTo(lines, secs, notes, |secs|, secs);
  }

  /** `merge` has something to add exactly if some section is not covered. */
  lemma MergedNone(lines: seq<string>, secs: seq<TemplateSection>, notes: Notes)
    ensures Merged(lines, secs, notes).None? <==> AllCovered(lines, secs)
  {
    PlanEmpty(lines, secs, notes);
  }

  // ---------------------------------------------------------------------
  // All additions are comments
  // ---------------------------------------------------------------------

  lemma HashIsComment(line: string)
    requires StartsWith(line, '#')
    ensures Comment(line) && Inert(line)
  {
  }

  /** The notes are explanations: `##` lines. */
  predicate GoodNotes(notes: Notes) {
    Explains(notes.settings) && Explains(notes.sections) && Explains(notes.off)
  }

  predicate Explains(line: string) {
    StartsWith(line, '#') && StartsWith(line[1..], '#')
  }

  predicate AllAre(lines: seq<string>, added: string -> bool) {
    forall i :: 0 <= i < |lines| ==> added(lines[i])
  }

  /** `added` allows every line that `merge` may add for this template. */
  ghost predicate Allows(secs: seq<TemplateSection>, notes: Notes, added: string -> bool) {
    && added([]) && added(notes.settings) && AllAre(AddedNotes(notes), added)
    && forall i :: 0 <= i < |secs| ==> AllowsSection(secs[i], added)
  }

  ghost predicate AllowsSection(sec: TemplateSection, added: string -> bool) {
    && added(Marker(sec.path)) && AllAre(sec.intro, added)
    && forall j :: 0 <= j < |sec.keys| ==> AllAre(Offer(sec.keys[j]), added)
  }

  lemma {:induction false} MissingAllowed(keys: seq<TemplateKey>, present: set<string>, added: string -> bool)
    requires forall j :: 0 <= j < |keys| ==> AllAre(Offer(keys[j]), added)
    ensures AllAre(Missing(keys, present), added)
  {
    if keys != [] {
      MissingAllowed(keys[..|keys| - 1], present, added);
    }
  }

  ghost predicate PlanAllowed(plan: Plan, added: string -> bool) {
    && AllAre(plan.appended, added)
    && forall i :: 0 <= i < |plan.inserts| ==> AllAre(plan.inserts[i].block, added)
  }

  lemma PlanAtAllowed(lines: seq<string>, sec: TemplateSection, notes: Notes, body: Option<(nat, nat)>, plan: Plan, added: string -> bool)
    requires body.Some? ==> body.value.0 <= body.value.1 <= |lines|
    requires PlanAllowed(plan, added) && AllowsSection(sec, added) && added([]) && added(notes.settings)
    ensures PlanAllowed(PlanAt(lines, sec, notes, body, plan), added)
  {
    match body
    case Some(se) => MissingAllowed(sec.keys, Keys(lines[se.0..se.1]), added);
    case None => MissingAllowed(sec.keys, {}, added);
  }

  lemma {:induction false} PlanAllAllowed(lines: seq<string>, secs: seq<TemplateSection>, notes: Notes, added: string -> bool)
    requires Allows(secs, notes, added)
    ensures PlanAllowed(PlanAll(lines, secs, notes), added)
  {
    if secs != [] {
      assert AllowsSection(secs[|secs| - 1], added);
      PlanAllAllowed(lines, secs[..|secs| - 1], notes, added);
      var last := secs[|secs| - 1];
      PlanAtAllowed(lines, last, notes, SectionBody(lines, last.path), PlanAll(lines, secs[..|secs| - 1], notes), added);
    }
  }

  lemma {:induction false} InsertAllExtends(user: seq<string>, lines: seq<string>, inserts: seq<Insert<string>>, added: string -> bool)
    requires Within(inserts, |lines|) && Extends(user, lines, added)
    requires forall i :: 0 <= i < |inserts| ==> AllAre(inserts[i].block, added)
    ensures Extends(user, InsertAll(lines, inserts), added)
    decreases |inserts|
  {
    if inserts != [] {
      ExtendsInsert(user, lines, inserts[0].at, inserts[0].block, added);
      InsertAllExtends(user, InsertLines(lines, inserts[0].at, inserts[0].block), inserts[1..], added);
    }
  }

  lemma SortedAllowed(inserts: seq<Insert<string>>, added: string -> bool)
    requires forall i :: 0 <= i < |inserts| ==> AllAre(inserts[i].block, added)
    ensures forall i :: 0 <= i < |SortDesc(inserts)| ==> AllAre(SortDesc(inserts)[i].block, added)
  {
    forall i | 0 <= i < |SortDesc(inserts)|
      ensures AllAre(SortDesc(inserts)[i].block, added)
    {
      SortHas(inserts, SortDesc(inserts)[i]);
    }
  }

  /** The user's lines stay, in order, and every other line is one `added` allows. */
  lemma MergedExtends(lines: seq<string>, secs: seq<TemplateSection>, notes: Notes, added: string -> bool)
    requires Allows(secs, notes, added) && Merged(lines, secs, notes).Some?
    ensures Extends(lines, Merged(lines, secs, notes).value, added)
  {
    var plan := PlanAll(lines, secs, notes);
    PlanAllAllowed(lines, secs, notes, added);
    ApplyExtends(lines, plan, notes, added);
  }

  lemma ExtendsAppend(user: seq<string>, lines: seq<string>, tail: seq<string>, added: string -> bool)
    requires Extends(user, lines, added) && AllAre(tail, added)
    ensures Extends(user, lines + tail, added)
  {
    ExtendsInsert(user, lines, |lines|, tail, added);
    assert InsertLines(lines, |lines|, tail) == lines + tail;
  }

  lemma ApplyExtends(lines: seq<string>, plan: Plan, notes: Notes, added: string -> bool)
    requires Within(plan.inserts, |lines|) && PlanAllowed(plan, added) && AllAre(AddedNotes(notes), added)
    ensures Extends(lines, Applied(lines, plan, notes), added)
  {
    SortedWithin(plan.inserts, |lines|);
    SortedAllowed(plan.inserts, added);
    TailAllowed(plan, notes, added);
    InsertsThenTail(lines, SortDesc(plan.inserts), Tail(plan.appended, notes), added);
  }

  lemma TailAllowed(plan: Plan, notes: Notes, added: string -> bool)
    requires PlanAllowed(plan, added) && AllAre(AddedNotes(notes), added)
    ensures AllAre(Tail(plan.appended, notes), added)
  {
  }

  lemma InsertsThenTail(lines: seq<string>, inserts: seq<Insert<string>>, tail: seq<string>, added: string -> bool)
    requires Within(inserts, |lines|) && AllAre(tail, added)
    requires forall i :: 0 <= i < |inserts| ==> AllAre(inserts[i].block, added)
    ensures Extends(lines, InsertAll(lines, inserts) + tail, added)
  {
    ExtendsSelf(lines, added);
    InsertAllExtends(lines, lines, inserts, added);
    ExtendsAppend(lines, InsertAll(lines, inserts), tail, added);
  }

  lemma InertAllowed(secs: seq<TemplateSection>, notes: Notes)
    requires GoodSections(secs) && GoodNotes(notes)
    ensures Allows(secs, notes, Inert)
  {
    assert Trim([]) == [];
    HashIsComment(notes.settings);
    HashIsComment(notes.sections);
    HashIsComment(notes.off);
    forall i | 0 <= i < |secs|
      ensures AllowsSection(secs[i], Inert)
    {
      InertSection(secs[i]);
    }
  }

  lemma InertSection(sec: TemplateSection)
    requires GoodSection(sec)
    ensures AllowsSection(sec, Inert)
  {
    HashIsComment(Marker(sec.path));
    forall j | 0 <= j < |sec.keys|
      ensures AllAre(Offer(sec.keys[j]), Inert)
    {
      assert GoodKey(sec.keys[j]);
      CommentOutKey(sec.keys[j].line);
    }
  }

  /** `merge` says nothing new: whatever the template, the lines of its output that are
      not blank or comments are exactly the user's, in order. */
  lemma MergeKeepsActive(lines: seq<string>, secs: seq<TemplateSection>, notes: Notes)
    requires GoodSections(secs) && GoodNotes(notes) && Merged(lines, secs, notes).Some?
    ensures Extends(lines, Merged(lines, secs, notes).value, Inert)
    ensures Active(Merged(lines, secs, notes).value) == Active(lines)
  {
    InertAllowed(secs, notes);
    MergedExtends(lines, secs, notes, Inert);
    ExtendsActive(lines, Merged(lines, secs, notes).value, Inert);
  }

  lemma {:induction false} InsertAllSame(lines: seq<string>, inserts: seq<Insert<string>>, path: string)
    requires Within(inserts, |lines|) && forall i :: 0 <= i < |inserts| ==> AllInert(inserts[i].block)
    ensures SameSection(SectionLines(lines, path), SectionLines(InsertAll(lines, inserts), path))
    decreases |inserts|
  {
    if inserts != [] {
      InsertSame(lines, inserts[0].at, inserts[0].block, path);
      InsertAllSame(InsertLines(lines, inserts[0].at, inserts[0].block), inserts[1..], path);
    }
  }

  /** Both there, saying the same, or both missing. */
  ghost predicate SameSection(a: Option<seq<string>>, b: Option<seq<string>>) {
    a.Some? == b.Some? && (a.Some? ==> Active(a.value) == Active(b.value))
  }

  lemma InsertSame(lines: seq<string>, at: nat, block: seq<string>, path: string)
    requires at <= |lines| && AllInert(block)
    ensures SameSection(SectionLines(lines, path), SectionLines(InsertLines(lines, at, block), path))
  {
    InertOpensNothing(block);
    InsertBodyLines(lines, Header, AnyHeader, at, block, path);
    match Body(lines, Header, AnyHeader, path)
    case None =>
    case Some(se) => GrownActive(lines, at, block, se.0, se.1);
  }

  lemma GrownActive(lines: seq<string>, at: nat, block: seq<string>, s: nat, e: nat)
    requires s <= e <= |lines| && AllInert(block)
    ensures Active(Grown(lines, at, block, s, e)) == Active(lines[s..e])
  {
    if s <= at <= e {
      ActiveAround(lines[s..at], block, lines[at..e]);
      assert lines[s..at] + lines[at..e] == lines[s..e];
    }
  }

  ghost predicate InertPlan(plan: Plan) {
    PlanAllowed(plan, Inert)
  }

  lemma AppliedSame(lines: seq<string>, plan: Plan, notes: Notes, path: string)
    requires Within(plan.inserts, |lines|) && InertPlan(plan) && GoodNotes(notes)
    ensures SameSection(SectionLines(lines, path), SectionLines(Applied(lines, plan, notes), path))
  {
    SortedWithin(plan.inserts, |lines|);
    SortedAllowed(plan.inserts, Inert);
    InsertAllSame(lines, SortDesc(plan.inserts), path);
    TailInert(plan, notes);
    AppendSame(InsertAll(lines, SortDesc(plan.inserts)), Tail(plan.appended, notes), path);
  }

  lemma AppendSame(lines: seq<string>, tail: seq<string>, path: string)
    requires AllInert(tail)
    ensures SameSection(SectionLines(lines, path), SectionLines(lines + tail, path))
  {
    InsertAtEnd(lines, tail);
    SameInserted(lines, tail, lines + tail, path);
  }

  lemma SameInserted(lines: seq<string>, tail: seq<string>, out: seq<string>, path: string)
    requires AllInert(tail) && out == InsertLines(lines, |lines|, tail)
    ensures SameSection(SectionLines(lines, path), SectionLines(out, path))
  {
    InsertSame(lines, |lines|, tail, path);
  }

  lemma TailInert(plan: Plan, notes: Notes)
    requires InertPlan(plan) && GoodNotes(notes)
    ensures AllInert(Tail(plan.appended, notes))
  {
    assert Trim([]) == [];
    HashIsComment(notes.sections);
    HashIsComment(notes.off);
  }

  /** Section by section: no section appears or goes, and each says what it said. */
  lemma MergeKeepsSections(lines: seq<string>, secs: seq<TemplateSection>, notes: Notes, path: string)
    requires GoodSections(secs) && GoodNotes(notes) && Merged(lines, secs, notes).Some?
    ensures SameSection(SectionLines(lines, path), SectionLines(Merged(lines, secs, notes).value, path))
  {
    InertAllowed(secs, notes);
    PlanAllAllowed(lines, secs, notes, Inert);
    AppliedSame(lines, PlanAll(lines, secs, notes), notes, path);
  }

  // ---------------------------------------------------------------------
  // A second run finds nothing to do
  // ---------------------------------------------------------------------

  /** What the plan holds for one section: its missing settings go into its body, or the
      section goes to the end of the file. */
  ghost predicate PlansFor(lines: seq<string>, sec: TemplateSection, body: Option<(nat, nat)>, plan: Plan)
    requires body.Some? ==> body.value.0 <= body.value.1 <= |lines|
  {
    match body
    case Some(se) =>
      forall j :: 0 <= j < |sec.keys| && sec.keys[j].key !in Keys(lines[se.0..se.1]) ==>
        InsertsInto(plan.inserts, se.0, se.1, CommentOut(sec.keys[j].line))
    case None => HasMarker(lines, sec.path) || Marker(sec.path) in plan.appended
  }

  ghost predicate InsertsInto(inserts: seq<Insert<string>>, s: nat, e: nat, line: string) {
    exists i :: 0 <= i < |inserts| && s <= inserts[i].at <= e && line in inserts[i].block
  }

  lemma InsertsMore(inserts: seq<Insert<string>>, x: Insert<string>, s: nat, e: nat, line: string)
    requires InsertsInto(inserts, s, e, line) || (s <= x.at <= e && line in x.block)
    ensures InsertsInto(inserts + [x], s, e, line)
  {
    var more := inserts + [x];
    if InsertsInto(inserts, s, e, line) {
      var i :| 0 <= i < |inserts| && s <= inserts[i].at <= e && line in inserts[i].block;
      assert more[i] == inserts[i];
    } else {
      assert more[|inserts|] == x;
    }
  }

  /** Planning one section adds at most one insertion or one stretch at the end. */
  lemma PlanAtGrows(lines: seq<string>, sec: TemplateSection, notes: Notes, body: Option<(nat, nat)>, plan: Plan)
    requires body.Some? ==> body.value.0 <= body.value.1 <= |lines|
    ensures var plan' := PlanAt(lines, sec, notes, body, plan);
            && (plan'.inserts == plan.inserts || exists x :: plan'.inserts == plan.inserts + [x])
            && plan.appended <= plan'.appended
  {
  }

  lemma PlansForMore(lines: seq<string>, sec: TemplateSection, body: Option<(nat, nat)>, plan: Plan, plan': Plan)
    requires body.Some? ==> body.value.0 <= body.value.1 <= |lines|
    requires PlansFor(lines, sec, body, plan) && plan.appended <= plan'.appended
    requires plan'.inserts == plan.inserts || exists x :: plan'.inserts == plan.inserts + [x]
    ensures PlansFor(lines, sec, body, plan')
  {
    if body.Some? && plan'.inserts != plan.inserts {
      var x :| plan'.inserts == plan.inserts + [x];
      forall j | 0 <= j < |sec.keys| && sec.keys[j].key !in Keys(lines[body.value.0..body.value.1])
        ensures InsertsInto(plan'.inserts, body.value.0, body.value.1, CommentOut(sec.keys[j].line))
      {
        InsertsMore(plan.inserts, x, body.value.0, body.value.1, CommentOut(sec.keys[j].line));
      }
    }
  }

  lemma PlanAtPlans(lines: seq<string>, sec: TemplateSection, notes: Notes, body: Option<(nat, nat)>, plan: Plan)
    requires body.Some? ==> body.value.0 <= body.value.1 <= |lines|
    ensures PlansFor(lines, sec, body, PlanAt(lines, sec, notes, body, plan))
  {
    match body
    case Some(se) =>
      var present := Keys(lines[se.0..se.1]);
      var add := Missing(sec.keys, present);
      forall j | 0 <= j < |sec.keys| && sec.keys[j].key !in present
        ensures InsertsInto(PlanAt(lines, sec, notes, body, plan).inserts, se.0, se.1, CommentOut(sec.keys[j].line))
      {
        MissingHas(sec.keys, present, j);
        InsertsMore(plan.inserts, Insert(AfterText(lines, se.0, se.1), [notes.settings] + add), se.0, se.1,
                    CommentOut(sec.keys[j].line));
      }
    case None =>
      assert NewSection(sec)[1] == Marker(sec.path);
  }

  lemma {:induction false} PlanAllPlans(lines: seq<string>, secs: seq<TemplateSection>, notes: Notes, i: nat)
    requires i < |secs|
    ensures PlansFor(lines, secs[i], SectionBody(lines, secs[i].path), PlanAll(lines, secs, notes))
  {
    var init, last := secs[..|secs| - 1], secs[|secs| - 1];
    var before := PlanAll(lines, init, notes);
    if i == |secs| - 1 {
      PlanAtPlans(lines, last, notes, SectionBody(lines, last.path), before);
    } else {
      PlanAllPlans(lines, init, notes, i);
      PlanAtGrows(lines, last, notes, SectionBody(lines, last.path), before);
      PlansForMore(lines, secs[i], SectionBody(lines, secs[i].path), before, PlanAll(lines, secs, notes));
    }
  }

  /** A line planned for a body is in that body afterwards. */
  lemma AppliedHas(lines: seq<string>, plan: Plan, notes: Notes, path: string, line: string)
    requires Within(plan.inserts, |lines|) && InertPlan(plan) && GoodNotes(notes)
    requires var b := SectionBody(lines, path);
             b.Some? && (line in lines[b.value.0..b.value.1] || InsertsInto(plan.inserts, b.value.0, b.value.1, line))
    ensures var after := SectionLines(Applied(lines, plan, notes), path); after.Some? && line in after.value
  {
    var (s, e) := SectionBody(lines, path).value;
    var inserts := SortDesc(plan.inserts);
    SortedWithin(plan.inserts, |lines|);
    SortDescending(plan.inserts);
    SortedAllowed(plan.inserts, Inert);
    SortedOpensNothing(inserts);
    if line in lines[s..e] {
      InsertAllKeeps(lines, Header, AnyHeader, inserts, path);
    } else {
      var i :| 0 <= i < |plan.inserts| && s <= plan.inserts[i].at <= e && line in plan.inserts[i].block;
      assert plan.inserts[i] in inserts;
      var j :| 0 <= j < |inserts| && inserts[j] == plan.inserts[i];
      InsertAllPlaces(lines, Header, AnyHeader, inserts, j, path);
    }
    TailInert(plan, notes);
    AppendKeeps(InsertAll(lines, inserts), Tail(plan.appended, notes), path);
  }

  lemma SortedOpensNothing(inserts: seq<Insert<string>>)
    requires forall i :: 0 <= i < |inserts| ==> AllAre(inserts[i].block, Inert)
    ensures OpenNothing(inserts, Header, AnyHeader)
  {
    forall i | 0 <= i < |inserts|
      ensures OpensNothing(inserts[i].block, Header, AnyHeader)
    {
      InertOpensNothing(inserts[i].block);
    }
  }

  lemma AppendKeeps(lines: seq<string>, tail: seq<string>, path: string)
    requires AllInert(tail)
    ensures KeepsLines(SectionLines(lines, path), SectionLines(lines + tail, path))
  {
    InertOpensNothing(tail);
    InsertKeeps(lines, Header, AnyHeader, |lines|, tail, path);
    assert InsertLines(lines, |lines|, tail) == lines + tail;
  }

  lemma MarkerKept(lines: seq<string>, lines': seq<string>, path: string)
    requires HasMarker(lines, path) && forall l :: l in lines ==> l in lines'
    ensures HasMarker(lines', path)
  {
    var i :| 0 <= i < |lines| && (Trim(lines[i]) == Marker(path) || Trim(lines[i]) == OldMarker(path));
    assert lines[i] in lines';
    var j :| 0 <= j < |lines'| && lines'[j] == lines[i];
  }

  lemma MarkerAdded(lines: seq<string>, path: string)
    requires Marker(path) in lines
    ensures HasMarker(lines, path)
  {
    var i :| 0 <= i < |lines| && lines[i] == Marker(path);
    TrimSelf(lines[i]);
  }

  lemma {:induction false} ExtendsHas(a: seq<string>, b: seq<string>, added: string -> bool)
    requires Extends(a, b, added)
    ensures forall l :: l in a ==> l in b
    decreases |b|
  {
    if b != [] {
      var init := b[..|b| - 1];
      if a != [] && a[|a| - 1] == b[|b| - 1] && Extends(a[..|a| - 1], init, added) {
        ExtendsHas(a[..|a| - 1], init, added);
        assert a == a[..|a| - 1] + [a[|a| - 1]] && b == init + [b[|b| - 1]];
      } else {
        ExtendsHas(a, init, added);
      }
    }
  }

  lemma AppliedMarker(lines: seq<string>, plan: Plan, notes: Notes, path: string)
    requires Within(plan.inserts, |lines|) && InertPlan(plan) && GoodNotes(notes)
    requires HasMarker(lines, path) || Marker(path) in plan.appended
    ensures HasMarker(Applied(lines, plan, notes), path)
  {
    if HasMarker(lines, path) {
      TailInert(plan, notes);
      assert Trim([]) == [];
      HashIsComment(notes.sections);
      HashIsComment(notes.off);
      ApplyExtends(lines, plan, notes, Inert);
      ExtendsHas(lines, Applied(lines, plan, notes), Inert);
      MarkerKept(lines, Applied(lines, plan, notes), path);
    } else {
      assert Marker(path) in Tail(plan.appended, notes);
      MarkerAdded(Applied(lines, plan, notes), path);
    }
  }

  /** One template section, after the plan is carried out. */
  lemma AppliedCovers(lines: seq<string>, sec: TemplateSection, plan: Plan, notes: Notes)
    requires Within(plan.inserts, |lines|) && InertPlan(plan) && GoodNotes(notes) && GoodSection(sec)
    requires PlansFor(lines, sec, SectionBody(lines, sec.path), plan)
    ensures Covered(Applied(lines, plan, notes), sec)
  {
    var out := Applied(lines, plan, notes);
    AppliedSame(lines, plan, notes, sec.path);
    match SectionBody(lines, sec.path)
    case None => AppliedMarker(lines, plan, notes, sec.path);
    case Some(se) =>
      forall j | 0 <= j < |sec.keys|
        ensures sec.keys[j].key in Keys(SectionLines(out, sec.path).value)
      {
        var k := sec.keys[j];
        var line :| KeyOf(line) == Some(k.key)
                    && (line in lines[se.0..se.1] || InsertsInto(plan.inserts, se.0, se.1, line)) by {
          assert GoodKey(k);
          if k.key !in Keys(lines[se.0..se.1]) {
            CommentOutKey(k.line);
            assert InsertsInto(plan.inserts, se.0, se.1, CommentOut(k.line));
          }
        }
        AppliedHas(lines, plan, notes, sec.path, line);
      }
  }

  /** After a merge every section of the template is covered. */
  lemma MergeCovers(lines: seq<string>, secs: seq<TemplateSection>, notes: Notes)
    requires GoodSections(secs) && GoodNotes(notes) && Merged(lines, secs, notes).Some?
    ensures AllCovered(Merged(lines, secs, notes).value, secs)
  {
    InertAllowed(secs, notes);
    PlanAllAllowed(lines, secs, notes, Inert);
    forall i | 0 <= i < |secs|
      ensures Covered(Merged(lines, secs, notes).value, secs[i])
    {
      PlanAllPlans(lines, secs, notes, i);
      AppliedCovers(lines, secs[i], PlanAll(lines, secs, notes), notes);
    }
  }

  // ---------------------------------------------------------------------
  // Everything goes where it belongs
  // ---------------------------------------------------------------------

  /** The text for those of `keys` that are not present, in order: the explanations of each,
      and its line switched off. */
  function Lacking(keys: seq<TemplateKey>, present: set<string>): seq<string> {
    if keys == [] then []
    else
      var k := keys[0];
      (if k.key in present then [] else k.comments + [if ActiveKey(k.line).Some? then ['#'] + k.line else k.line])
      + Lacking(keys[1..], present)
  }

  lemma {:induction false} LackingLast(keys: seq<TemplateKey>, last: TemplateKey, present: set<string>)
    ensures Lacking(keys + [last], present) == Lacking(keys, present) + Lacking([last], present)
  {
    if keys == [] {
      assert keys + [last] == [last];
    } else {
      assert (keys + [last])[1..] == keys[1..] + [last];
      LackingLast(keys[1..], last, present);
    }
  }

  lemma OneLacking(k: TemplateKey, present: set<string>)
    requires GoodKey(k)
    ensures Lacking([k], present) == if k.key in present then [] else Offer(k)
  {
    if ActiveKey(k.line).Some? && Blank(k.line) {
      InertReads(k.line);
    }
  }

  lemma {:induction false} MissingIsLacking(keys: seq<TemplateKey>, present: set<string>)
    requires forall i :: 0 <= i < |keys| ==> GoodKey(keys[i])
    ensures Missing(keys, present) == Lacking(keys, present)
  {
    if keys != [] {
      var init, last := keys[..|keys| - 1], keys[|keys| - 1];
      assert keys == init + [last];
      MissingIsLacking(init, present);
      LackingLast(init, last, present);
      OneLacking(last, present);
    }
  }

  /** What one template section puts into a body that shows the keys `present`. */
  function BlockOf(sec: TemplateSection, present: set<string>, notes: Notes): seq<string> {
    var add := Lacking(sec.keys, present);
    if add == [] then [] else [notes.settings] + add
  }

  /** The file has the section, or the text of it from an earlier merge. */
  predicate HasSection(lines: seq<string>, path: string) {
    || SectionBody(lines, path).Some?
    || exists i :: 0 <= i < |lines| && (Trim(lines[i]) == "#[" + path + "]" || Trim(lines[i]) == "# [" + path + "]")
  }

  /** The sections the file does not have, in order: each a blank line, its header switched
      off, its introduction and all its settings. */
  function NewText(lines: seq<string>, secs: seq<TemplateSection>): seq<string> {
    if secs == [] then []
    else
      (if HasSection(lines, secs[0].path) then []
       else ["", "#[" + secs[0].path + "]"] + secs[0].intro + Lacking(secs[0].keys, {}))
      + NewText(lines, secs[1..])
  }

  /** What comes at the end of the file: nothing, or those sections below two notes. */
  function EndText(lines: seq<string>, secs: seq<TemplateSection>, notes: Notes): seq<string> {
    if NewText(lines, secs) == [] then [] else ["", notes.sections, notes.off] + NewText(lines, secs)
  }

  lemma {:induction false} NewTextLast(lines: seq<string>, secs: seq<TemplateSection>, last: TemplateSection)
    ensures NewText(lines, secs + [last]) == NewText(lines, secs) + NewText(lines, [last])
  {
    if secs == [] {
      assert secs + [last] == [last];
    } else {
      assert (secs + [last])[1..] == secs[1..] + [last];
      NewTextLast(lines, secs[1..], last);
    }
  }

  lemma MarkersSpelled(path: string)
    ensures Marker(path) == "#[" + path + "]" && OldMarker(path) == "# [" + path + "]"
  {
  }

  lemma OneNewText(lines: seq<string>, sec: TemplateSection, notes: Notes, plan: Plan)
    requires GoodSection(sec)
    ensures PlanOne(lines, sec, notes, plan).appended == plan.appended + NewText(lines, [sec])
  {
    MissingIsLacking(sec.keys, {});
    MarkersSpelled(sec.path);
    assert [sec][1..] == [];
    assert HasSection(lines, sec.path) <==> SectionBody(lines, sec.path).Some? || HasMarker(lines, sec.path);
  }

  lemma {:induction false} AppendedIsNewText(lines: seq<string>, secs: seq<TemplateSection>, notes: Notes)
    requires GoodSections(secs)
    ensures PlanAll(lines, secs, notes).appended == NewText(lines, secs)
  {
    if secs != [] {
      var init, last := secs[..|secs| - 1], secs[|secs| - 1];
      assert secs == init + [last];
      AppendedIsNewText(lines, init, notes);
      OneNewText(lines, last, notes, PlanAll(lines, init, notes));
      NewTextLast(lines, init, last);
    }
  }

  lemma TailText(appended: seq<string>, notes: Notes)
    ensures Tail(appended, notes) == if appended == [] then [] else ["", notes.sections, notes.off] + appended
  {
    assert AddedNotes(notes) == ["", notes.sections, notes.off];
  }

  lemma TailIsEndText(lines: seq<string>, secs: seq<TemplateSection>, notes: Notes)
    requires GoodSections(secs)
    ensures Tail(PlanAll(lines, secs, notes).appended, notes) == EndText(lines, secs, notes)
  {
    AppendedIsNewText(lines, secs, notes);
    TailText(NewText(lines, secs), notes);
  }

  lemma PlanFront(lines: seq<string>, plan: Plan, notes: Notes) returns (front: seq<string>)
    requires Within(plan.inserts, |lines|) && PlanAllowed(plan, Inert)
    ensures Applied(lines, plan, notes) == front + Tail(plan.appended, notes) && Extends(lines, front, Inert)
  {
    SortedWithin(plan.inserts, |lines|);
    SortedAllowed(plan.inserts, Inert);
    front := InsertAll(lines, SortDesc(plan.inserts));
    ExtendsSelf(lines, Inert);
    InsertAllExtends(lines, lines, SortDesc(plan.inserts), Inert);
  }

  /** The output ends with that text, and what comes before it is the file with lines put in
      between. */
  lemma MergeEndsWith(lines: seq<string>, secs: seq<TemplateSection>, notes: Notes) returns (front: seq<string>)
    requires GoodSections(secs) && GoodNotes(notes) && Merged(lines, secs, notes).Some?
    ensures Merged(lines, secs, notes).value == front + EndText(lines, secs, notes)
    ensures Extends(lines, front, Inert)
  {
    InertAllowed(secs, notes);
    PlanAllAllowed(lines, secs, notes, Inert);
    front := PlanFront(lines, PlanAll(lines, secs, notes), notes);
    TailIsEndText(lines, secs, notes);
  }

  /** The blocks of all template sections named `path`, each in front of those before it. */
  function BlocksFor(secs: seq<TemplateSection>, path: string, present: set<string>, notes: Notes): seq<string> {
    if secs == [] then []
    else
      var last := secs[|secs| - 1];
      (if last.path == path then BlockOf(last, present, notes) else [])
      + BlocksFor(secs[..|secs| - 1], path, present, notes)
  }

  lemma HeadersOpen()
    ensures forall l :: Header(l).Some? ==> AnyHeader(l)
  {
    forall l | Header(l).Some?
      ensures AnyHeader(l)
    {
      HeaderIsAnyHeader(l);
    }
  }

  /** No place in the body of one section is in the body of another. */
  lemma PlacesApart(lines: seq<string>, p: string, q: string, at: nat)
    requires p != q && SectionBody(lines, p).Some? && SectionBody(lines, q).Some?
    requires var (s, e) := SectionBody(lines, p).value; s <= at <= e
    ensures var (s, e) := SectionBody(lines, q).value; !(s <= at <= e)
  {
    var (s, e) := SectionBody(lines, p).value;
    var (s', e') := SectionBody(lines, q).value;
    HeadersOpen();
    BodiesApart(lines, Header, AnyHeader, p, s, e, q, s', e');
  }

  /** One template section plans at most one insertion: its block, in its own body. */
  lemma PlanOneInserts(lines: seq<string>, sec: TemplateSection, notes: Notes, plan: Plan)
    requires GoodSection(sec)
    ensures var inserts, body := PlanOne(lines, sec, notes, plan).inserts, SectionBody(lines, sec.path);
            match body
            case None => inserts == plan.inserts
            case Some(se) =>
              var block := BlockOf(sec, Keys(lines[se.0..se.1]), notes);
              inserts == plan.inserts + if block == [] then [] else [Insert(AfterText(lines, se.0, se.1), block)]
  {
    match SectionBody(lines, sec.path)
    case None =>
    case Some(se) => MissingIsLacking(sec.keys, Keys(lines[se.0..se.1]));
  }

  /** The planned insertions into the body of `path` are all after its last text, and stack
      up to its blocks. */
  lemma {:induction false} PlanStacks(lines: seq<string>, secs: seq<TemplateSection>, notes: Notes, path: string, s: nat, e: nat)
    requires SectionBody(lines, path) == Some((s, e)) && GoodSections(secs)
    ensures var inserts, at := PlanAll(lines, secs, notes).inserts, AfterText(lines, s, e);
            && OnePlace(inserts, s, e, at)
            && Stack(inserts, at) == BlocksFor(secs, path, Keys(lines[s..e]), notes)
  {
    if secs != [] {
      var init, last := secs[..|secs| - 1], secs[|secs| - 1];
      PlanStacks(lines, init, notes, path, s, e);
      PlanStacksOne(lines, last, notes, PlanAll(lines, init, notes), path, s, e);
    }
  }

  lemma PlanStacksOne(lines: seq<string>, sec: TemplateSection, notes: Notes, plan: Plan, path: string, s: nat, e: nat)
    requires SectionBody(lines, path) == Some((s, e)) && OnePlace(plan.inserts, s, e, AfterText(lines, s, e)) && GoodSection(sec)
    ensures var inserts, at := PlanOne(lines, sec, notes, plan).inserts, AfterText(lines, s, e);
            && OnePlace(inserts, s, e, at)
            && Stack(inserts, at)
               == (if sec.path == path then BlockOf(sec, Keys(lines[s..e]), notes) else []) + Stack(plan.inserts, at)
  {
    PlanOneInserts(lines, sec, notes, plan);
    match SectionBody(lines, sec.path)
    case None =>
    case Some(se) =>
      var block, own := BlockOf(sec, Keys(lines[se.0..se.1]), notes), AfterText(lines, se.0, se.1);
      if sec.path != path {
        PlacesApart(lines, sec.path, path, own);
      }
      PlanStacksAt(plan.inserts, own, block, s, e, AfterText(lines, s, e), sec.path == path);
  }

  lemma PlanStacksAt(inserts: seq<Insert<string>>, own: nat, block: seq<string>, s: nat, e: nat, at: nat, same: bool)
    requires OnePlace(inserts, s, e, at) && s <= at <= e && (if same then own == at else !(s <= own <= e))
    ensures var inserts' := inserts + if block == [] then [] else [Insert(own, block)];
            && OnePlace(inserts', s, e, at)
            && Stack(inserts', at) == (if same then block else []) + Stack(inserts, at)
  {
    if block == [] {
      assert inserts + [] == inserts;
    } else {
      OneMore(inserts, Insert(own, block), s, e, at);
    }
  }

  lemma OneMore(inserts: seq<Insert<string>>, x: Insert<string>, s: nat, e: nat, at: nat)
    requires OnePlace(inserts, s, e, at) && s <= at <= e && (x.at == at || !(s <= x.at <= e))
    ensures OnePlace(inserts + [x], s, e, at)
    ensures Stack(inserts + [x], at) == (if x.at == at then x.block else []) + Stack(inserts, at)
  {
    StackMore(inserts, x, at);
  }

  /** Every section of the file, whatever the template: after its last line that is not
      blank come exactly the blocks of the template sections of its name, each the note and
      the settings the body lacks with their explanations; everything else in it stays
      put. After the last section follows what is new at the end of the file. */
  lemma MergePlacesExactly(lines: seq<string>, secs: seq<TemplateSection>, notes: Notes, path: string, s: nat, e: nat)
    requires GoodSections(secs) && GoodNotes(notes) && Merged(lines, secs, notes).Some?
    requires SectionBody(lines, path) == Some((s, e))
    ensures var at, tail := AfterText(lines, s, e), if e == |lines| then EndText(lines, secs, notes) else [];
            SectionLines(Merged(lines, secs, notes).value, path)
            == Some(lines[s..at] + BlocksFor(secs, path, Keys(lines[s..e]), notes) + lines[at..e] + tail)
  {
    var plan := PlanAll(lines, secs, notes);
    PlanStacks(lines, secs, notes, path, s, e);
    InertAllowed(secs, notes);
    PlanAllAllowed(lines, secs, notes, Inert);
    AppliedExactly(lines, plan, notes, path, s, e, AfterText(lines, s, e));
    TailIsEndText(lines, secs, notes);
  }

  lemma SortedAt(inserts: seq<Insert<string>>, s: nat, e: nat, at: nat)
    requires OnePlace(inserts, s, e, at)
    ensures OnePlace(SortDesc(inserts), s, e, at)
  {
    forall k | 0 <= k < |SortDesc(inserts)|
      ensures SortDesc(inserts)[k] in inserts
    {
      SortHas(inserts, SortDesc(inserts)[k]);
    }
  }

  lemma AppliedExactly(lines: seq<string>, plan: Plan, notes: Notes, path: string, s: nat, e: nat, at: nat)
    requires Within(plan.inserts, |lines|) && InertPlan(plan) && GoodNotes(notes)
    requires SectionBody(lines, path) == Some((s, e)) && s <= at <= e
    requires OnePlace(plan.inserts, s, e, at)
    ensures SectionLines(Applied(lines, plan, notes), path)
            == Some(lines[s..at] + Stack(plan.inserts, at) + lines[at..e] + if e == |lines| then Tail(plan.appended, notes) else [])
  {
    var inserts := SortDesc(plan.inserts);
    SortedWithin(plan.inserts, |lines|);
    SortDescending(plan.inserts);
    SortedAllowed(plan.inserts, Inert);
    SortedOpensNothing(inserts);
    SortedAt(plan.inserts, s, e, at);
    StackSorted(plan.inserts, at);
    InsertAllStacked(lines, Header, AnyHeader, inserts, path, s, e, at, lines[s..at] + Stack(inserts, at) + lines[at..e]);
    InsertAllEnd(lines, Header, AnyHeader, inserts, path);
    TailInert(plan, notes);
    InertOpensNothing(Tail(plan.appended, notes));
    AppendBody(InsertAll(lines, inserts), Header, AnyHeader, Tail(plan.appended, notes), path);
  }

  // ---------------------------------------------------------------------
  // Removing one `#` never breaks the file
  // ---------------------------------------------------------------------

  /** A line that reads as nothing, a header or a setting. */
  predicate Reads(line: string) {
    Inert(line) || AnyHeader(line) || ActiveKey(line).Some?
  }

  /** Blank, or a comment that reads as a line of the file without its `#`. */
  predicate CanTurnOn(line: string) {
    Blank(line) || (Comment(line) && Reads(TrimStart(line)[1..]))
  }

  /** The template's convention for comments: `##` explains, `#key = value` is off. */
  predicate Tidy(line: string) {
    Comment(line) && (StartsWith(TrimStart(line)[1..], '#') || CommentedKey(line).Some?)
  }

  predicate TidySection(sec: TemplateSection) {
    AllAre(sec.intro, Tidy) && forall j :: 0 <= j < |sec.keys| ==> AllAre(sec.keys[j].comments, Tidy)
  }

  lemma TidyTurnsOn(line: string)
    requires Tidy(line)
    ensures CanTurnOn(line)
  {
    var u := TrimStart(line)[1..];
    if StartsWith(u, '#') {
      assert TrimStart(u) == u;
    }
  }

  lemma SettingTurnsOn(line: string)
    requires KeyOf(line).Some?
    ensures CanTurnOn(CommentOut(line))
  {
    CommentOutKey(line);
    if Comment(line) {
      TidyTurnsOn(line);
    } else {
      assert (['#'] + line)[1..] == line;
    }
  }

  lemma MarkerTurnsOn(path: string)
    ensures CanTurnOn(Marker(path))
  {
    var m := Marker(path);
    assert TrimStart(m) == m && m[1..] == ['['] + path + [']'];
    assert TrimStart(m[1..]) == m[1..];
  }

  lemma ExplanationTurnsOn(line: string)
    requires Explains(line)
    ensures CanTurnOn(line)
  {
    assert TrimStart(line) == line && TrimStart(line[1..]) == line[1..];
  }

  /** Every explanation of the section can lose a `#`. */
  predicate TurnsOn(sec: TemplateSection) {
    AllAre(sec.intro, CanTurnOn) && forall j :: 0 <= j < |sec.keys| ==> AllAre(sec.keys[j].comments, CanTurnOn)
  }

  /** Keeping the convention is enough for that. */
  lemma TidySectionTurnsOn(sec: TemplateSection)
    requires TidySection(sec)
    ensures TurnsOn(sec)
  {
    forall line | Tidy(line)
      ensures CanTurnOn(line)
    {
      TidyTurnsOn(line);
    }
  }

  lemma TurnOnSection(sec: TemplateSection)
    requires GoodSection(sec) && TurnsOn(sec)
    ensures AllowsSection(sec, CanTurnOn)
  {
    MarkerTurnsOn(sec.path);
    forall j | 0 <= j < |sec.keys|
      ensures AllAre(Offer(sec.keys[j]), CanTurnOn)
    {
      TurnOnOffer(sec.keys[j]);
    }
  }

  lemma TurnOnOffer(k: TemplateKey)
    requires GoodKey(k) && AllAre(k.comments, CanTurnOn)
    ensures AllAre(Offer(k), CanTurnOn)
  {
    SettingTurnsOn(k.line);
  }

  lemma {:induction false} ExtendsNothing(out: seq<string>, added: string -> bool)
    requires Extends([], out, added)
    ensures AllAre(out, added)
  {
    if out != [] {
      ExtendsNothing(out[..|out| - 1], added);
    }
  }

  lemma {:induction false} MissingComments(keys: seq<TemplateKey>, present: set<string>, j: nat, c: string)
    requires present == {} && j < |keys| && c in keys[j].comments
    ensures c in Missing(keys, present)
    decreases |keys|
  {
    var init, last := keys[..|keys| - 1], keys[|keys| - 1];
    assert Missing(keys, present) == Missing(init, present) + Offer(last);
    if j < |init| {
      MissingComments(init, present, j, c);
    } else {
      assert c in Offer(last);
    }
  }

  lemma EmptyOne(none: seq<string>, sec: TemplateSection, notes: Notes, plan: Plan)
    requires none == []
    ensures PlanOne(none, sec, notes, plan) == plan.(appended := plan.appended + NewSection(sec))
  {
    assert SectionBody(none, sec.path).None? && !HasMarker(none, sec.path);
  }

  /** Over an empty file the plan is to append every section. */
  lemma {:induction false} EmptyPlan(none: seq<string>, secs: seq<TemplateSection>, notes: Notes, i: nat, l: string)
    requires none == []
    ensures PlanAll(none, secs, notes).inserts == []
    ensures i < |secs| && l in NewSection(secs[i]) ==> l in PlanAll(none, secs, notes).appended
    decreases |secs|
  {
    if secs != [] {
      var init, last := secs[..|secs| - 1], secs[|secs| - 1];
      assert secs == init + [last];
      EmptyPlan(none, init, notes, i, l);
      PlanAllMore(none, init, last, notes);
      EmptyOne(none, last, notes, PlanAll(none, init, notes));
    }
  }

  lemma EmptyFileTurnsOn(none: seq<string>, secs: seq<TemplateSection>, notes: Notes, i: nat)
    requires none == [] && i < |secs|
    requires Merged(none, secs, notes).Some? ==> Extends(none, Merged(none, secs, notes).value, CanTurnOn)
    ensures TurnsOn(secs[i])
  {
    var sec, plan := secs[i], PlanAll(none, secs, notes);
    EmptyPlan(none, secs, notes, i, Marker(sec.path));
    assert Marker(sec.path) in NewSection(sec);
    var out := Merged(none, secs, notes).value;
    assert SortDesc(plan.inserts) == [] && out == [] + Tail(plan.appended, notes);
    ExtendsNothing(out, CanTurnOn);
    forall l | l in NewSection(sec)
      ensures CanTurnOn(l)
    {
      EmptyPlan(none, secs, notes, i, l);
      assert l in out;
    }
    SectionComments(sec);
  }

  /** The explanations of a section are among the lines it would add. */
  lemma SectionComments(sec: TemplateSection)
    requires forall l :: l in NewSection(sec) ==> CanTurnOn(l)
    ensures TurnsOn(sec)
  {
    forall k | 0 <= k < |sec.intro|
      ensures CanTurnOn(sec.intro[k])
    {
      assert sec.intro[k] in NewSection(sec);
    }
    forall j, k | 0 <= j < |sec.keys| && 0 <= k < |sec.keys[j].comments|
      ensures CanTurnOn(sec.keys[j].comments[k])
    {
      MissingComments(sec.keys, {}, j, sec.keys[j].comments[k]);
      assert sec.keys[j].comments[k] in NewSection(sec);
    }
  }

  /** Removing one `#` from any line a merge adds, to whatever file, turns a setting or a
      section on or leaves a comment, exactly if that holds of every explanation in the
      template. */
  lemma AddedLinesTurnOn(secs: seq<TemplateSection>, notes: Notes)
    requires GoodSections(secs) && GoodNotes(notes)
    ensures (forall lines :: Merged(lines, secs, notes).Some? ==> Extends(lines, Merged(lines, secs, notes).value, CanTurnOn))
            <==> forall i :: 0 <= i < |secs| ==> TurnsOn(secs[i])
  {
    if forall i :: 0 <= i < |secs| ==> TurnsOn(secs[i]) {
      TurnOnAllowed(secs, notes);
      forall lines | Merged(lines, secs, notes).Some?
        ensures Extends(lines, Merged(lines, secs, notes).value, CanTurnOn)
      {
        MergedExtends(lines, secs, notes, CanTurnOn);
      }
    }
    if forall lines :: Merged(lines, secs, notes).Some? ==> Extends(lines, Merged(lines, secs, notes).value, CanTurnOn) {
      forall i | 0 <= i < |secs|
        ensures TurnsOn(secs[i])
      {
        EmptyFileTurnsOn([], secs, notes, i);
      }
    }
  }

  lemma TurnOnAllowed(secs: seq<TemplateSection>, notes: Notes)
    requires GoodSections(secs) && GoodNotes(notes) && forall i :: 0 <= i < |secs| ==> TurnsOn(secs[i])
    ensures Allows(secs, notes, CanTurnOn)
  {
    assert Trim([]) == [];
    ExplanationTurnsOn(notes.settings);
    ExplanationTurnsOn(notes.sections);
    ExplanationTurnsOn(notes.off);
    forall i | 0 <= i < |secs|
      ensures AllowsSection(secs[i], CanTurnOn)
    {
      TurnOnSection(secs[i]);
    }
  }

  // ---------------------------------------------------------------------
  // The parsed template has exactly the settings shown under each header
  // ---------------------------------------------------------------------

  /** The path of the last header above line `i`. */
  function SectionAt(lines: seq<string>, i: nat): Option<string>
    requires i <= |lines|
  {
    if i == 0 then None
    else if Header(lines[i - 1]).Some? then Header(lines[i - 1])
    else SectionAt(lines, i - 1)
  }

  /** Line `i` shows `key` under `[path]`. */
  predicate ShowsAt(lines: seq<string>, i: nat, path: string, key: string)
    requires i < |lines|
  {
    && SectionAt(lines, i) == Some(path) && Header(lines[i]).None?
    && (ActiveKey(lines[i]) == Some(key)
        || (path != "allowlist" && ActiveKey(lines[i]).None? && CommentedKey(lines[i]) == Some(key)))
  }

  ghost predicate Shows(lines: seq<string>, path: string, key: string, line: string) {
    exists i: nat :: i < |lines| && lines[i] == line && ShowsAt(lines, i, path, key)
  }

  ghost predicate HasSetting(out: seq<TemplateSection>, path: string, key: string, line: string) {
    exists s :: 0 <= s < |out| && out[s].path == path && HasKey(out[s].keys, key, line)
  }

  predicate HasKey(keys: seq<TemplateKey>, key: string, line: string) {
    exists k :: 0 <= k < |keys| && keys[k].key == key && keys[k].line == line
  }

  lemma {:induction false} SectionAtPrefix(lines: seq<string>, more: seq<string>, i: nat)
    requires i <= |lines|
    ensures SectionAt(lines + more, i) == SectionAt(lines, i)
  {
    if i > 0 {
      SectionAtPrefix(lines, more, i - 1);
    }
  }

  lemma ShowsAtPrefix(init: seq<string>, last: string, i: nat, path: string, key: string)
    requires i < |init|
    ensures ShowsAt(init + [last], i, path, key) <==> ShowsAt(init, i, path, key)
  {
    SectionAtPrefix(init, [last], i);
  }

  lemma ShowsMore(init: seq<string>, last: string, path: string, key: string, line: string)
    ensures Shows(init + [last], path, key, line) <==>
            Shows(init, path, key, line) || (line == last && ShowsAt(init + [last], |init|, path, key))
  {
    var lines := init + [last];
    if Shows(init, path, key, line) {
      var i: nat :| i < |init| && init[i] == line && ShowsAt(init, i, path, key);
      ShowsAtPrefix(init, last, i, path, key);
      assert lines[i] == line;
    }
    if Shows(lines, path, key, line) {
      var i: nat :| i < |lines| && lines[i] == line && ShowsAt(lines, i, path, key);
      if i < |init| {
        ShowsAtPrefix(init, last, i, path, key);
      }
    }
    assert lines[|init|] == last;
  }

  lemma HasSettingLast(init: seq<TemplateSection>, sec: TemplateSection, path: string, key: string, line: string)
    ensures HasSetting(init + [sec], path, key, line) <==>
            HasSetting(init, path, key, line) || (sec.path == path && HasKey(sec.keys, key, line))
  {
    var out := init + [sec];
    assert out[|init|] == sec;
    if HasSetting(init, path, key, line) {
      var s :| 0 <= s < |init| && init[s].path == path && HasKey(init[s].keys, key, line);
      assert out[s] == init[s];
    }
  }

  lemma HasKeyLast(keys: seq<TemplateKey>, last: TemplateKey, key: string, line: string)
    ensures HasKey(keys + [last], key, line) <==> HasKey(keys, key, line) || (last.key == key && last.line == line)
  {
    var more := keys + [last];
    assert more[|keys|] == last;
    if HasKey(keys, key, line) {
      var k :| 0 <= k < |keys| && keys[k].key == key && keys[k].line == line;
      assert more[k] == keys[k];
    }
  }

  lemma InsideShows(sec: TemplateSection, pending: seq<string>, at: string, key: string, line: string)
    ensures var sec' := ParseInside(sec, pending, at).0;
            && sec'.path == sec.path
            && (HasKey(sec'.keys, key, line) <==>
                  HasKey(sec.keys, key, line) || (at == line && SettingOf(sec.path, at) == Some(key)))
  {
    if SettingOf(sec.path, at).Some? {
      HasKeyLast(sec.keys, TemplateKey(SettingOf(sec.path, at).value, pending, at), key, line);
    }
  }

  function LastPath(out: seq<TemplateSection>): Option<string> {
    if out == [] then None else Some(out[|out| - 1].path)
  }

  /** What one more line adds. */
  lemma LineShows(p: Parse, last: string, path: string, key: string, line: string)
    ensures var out := ParseLine(p, last).out;
            && LastPath(out) == (if Header(last).Some? then Header(last) else LastPath(p.out))
            && (HasSetting(out, path, key, line) <==>
                  || HasSetting(p.out, path, key, line)
                  || (line == last && LastPath(p.out) == Some(path) && Header(last).None? && SettingOf(path, last) == Some(key)))
  {
    if Header(last).Some? {
      HasSettingLast(p.out, TemplateSection(Header(last).value, [], []), path, key, line);
    } else if p.out != [] {
      InsideShows(p.out[|p.out| - 1], p.pending, last, key, line);
      var sec := ParseInside(p.out[|p.out| - 1], p.pending, last).0;
      HasSettingLast(p.out[..|p.out| - 1], sec, path, key, line);
      HasSettingLast(p.out[..|p.out| - 1], p.out[|p.out| - 1], path, key, line);
      assert p.out == p.out[..|p.out| - 1] + [p.out[|p.out| - 1]];
    }
  }

  lemma SectionAtEnd(init: seq<string>, last: string)
    ensures SectionAt(init + [last], |init|) == SectionAt(init, |init|)
    ensures SectionAt(init + [last], |init| + 1)
            == if Header(last).Some? then Header(last) else SectionAt(init, |init|)
  {
    SectionAtPrefix(init, [last], |init|);
    assert (init + [last])[|init|] == last;
  }

  lemma ParsedMore(init: seq<string>, last: string)
    ensures Parsed(init + [last]) == ParseLine(Parsed(init), last)
  {
    assert (init + [last])[..|init|] == init;
  }

  /** Nothing of the template is lost or invented: a section has a setting exactly if
      the template shows it under that header. */
  lemma {:induction false} ParsedShows(lines: seq<string>, path: string, key: string, line: string)
    ensures HasSetting(Parsed(lines).out, path, key, line) <==> Shows(lines, path, key, line)
    ensures SectionAt(lines, |lines|) == LastPath(Parsed(lines).out)
  {
    if lines != [] {
      var init, last := lines[..|lines| - 1], lines[|lines| - 1];
      assert lines == init + [last];
      ParsedShows(init, path, key, line);
      ParsedMore(init, last);
      LineShows(Parsed(init), last, path, key, line);
      SectionAtEnd(init, last);
      ShowsMore(init, last, path, key, line);
    }
  }

  // ---------------------------------------------------------------------
  // The same on text
  // ---------------------------------------------------------------------

  predicate OneLine(line: string) {
    '\n' !in line
  }

  predicate OneLineSection(sec: TemplateSection) {
    && OneLine(sec.path) && AllAre(sec.intro, OneLine)
    && forall j :: 0 <= j < |sec.keys| ==> AllAre(Offer(sec.keys[j]), OneLine)
  }

  lemma {:induction false} TrimStartWithin(s: string, c: char)
    requires c in TrimStart(s)
    ensures c in s
  {
    if s != "" && IsSpace(s[0]) {
      TrimStartWithin(s[1..], c);
    }
  }

  lemma {:induction false} TrimEndWithin(s: string, c: char)
    requires c in TrimEnd(s)
    ensures c in s
  {
    if s != "" && IsSpace(s[|s| - 1]) {
      TrimEndWithin(s[..|s| - 1], c);
    }
  }

  lemma TrimWithin(s: string, c: char)
    requires c in Trim(s)
    ensures c in s
  {
    TrimEndWithin(TrimStart(s), c);
    TrimStartWithin(s, c);
  }

  lemma HeaderOneLine(line: string)
    requires OneLine(line) && Header(line).Some?
    ensures OneLine(Header(line).value)
  {
    var t := Trim(line);
    var end := Find(t, ']').value;
    if '\n' in Header(line).value {
      TrimWithin(t[1..end], '\n');
      assert '\n' in t;
      TrimWithin(line, '\n');
    }
  }

  lemma InsideOneLine(sec: TemplateSection, pending: seq<string>, line: string)
    requires OneLineSection(sec) && AllAre(pending, OneLine) && OneLine(line)
    ensures var (sec', pending') := ParseInside(sec, pending, line); OneLineSection(sec') && AllAre(pending', OneLine)
  {
    assert OneLine(CommentOut(line));
    if SettingOf(sec.path, line).Some? {
      assert AllAre(Offer(TemplateKey(SettingOf(sec.path, line).value, pending, line)), OneLine);
    }
  }

  lemma {:induction false} ParsedOneLine(lines: seq<string>)
    requires AllAre(lines, OneLine)
    ensures AllAre(Parsed(lines).pending, OneLine)
    ensures forall i :: 0 <= i < |Parsed(lines).out| ==> OneLineSection(Parsed(lines).out[i])
  {
    if lines != [] {
      var p, line := Parsed(lines[..|lines| - 1]), lines[|lines| - 1];
      ParsedOneLine(lines[..|lines| - 1]);
      if Header(line).Some? {
        HeaderOneLine(line);
      } else if p.out != [] {
        InsideOneLine(p.out[|p.out| - 1], p.pending, line);
      }
    }
  }

  lemma {:induction false} ExtendsAll(a: seq<string>, b: seq<string>, added: string -> bool)
    requires Extends(a, b, added) && AllAre(a, added)
    ensures AllAre(b, added)
    decreases |b|
  {
    if b != [] {
      var init := b[..|b| - 1];
      if a != [] && a[|a| - 1] == b[|b| - 1] && Extends(a[..|a| - 1], init, added) {
        ExtendsAll(a[..|a| - 1], init, added);
      } else {
        ExtendsAll(a, init, added);
      }
    }
  }

  predicate NotesOneLine(notes: Notes) {
    OneLine(notes.settings) && OneLine(notes.sections) && OneLine(notes.off)
  }

  lemma OneLineAllowed(secs: seq<TemplateSection>, notes: Notes)
    requires NotesOneLine(notes) && forall i :: 0 <= i < |secs| ==> OneLineSection(secs[i])
    ensures Allows(secs, notes, OneLine)
  {
    forall i | 0 <= i < |secs|
      ensures AllowsSection(secs[i], OneLine)
    {
      assert OneLineSection(secs[i]);
      assert OneLine(Marker(secs[i].path));
    }
  }

  /** No line of the output holds a newline, so the joined text splits back into them. */
  lemma MergedOneLine(lines: seq<string>, secs: seq<TemplateSection>, notes: Notes)
    requires NotesOneLine(notes) && Merged(lines, secs, notes).Some? && AllAre(lines, OneLine)
    requires forall i :: 0 <= i < |secs| ==> OneLineSection(secs[i])
    ensures AllAre(Merged(lines, secs, notes).value, OneLine)
  {
    OneLineAllowed(secs, notes);
    MergedExtends(lines, secs, notes, OneLine);
    ExtendsAll(lines, Merged(lines, secs, notes).value, OneLine);
  }

  // Reading the joined text back may strip a carriage return from each line.

  lemma StripSection(lines: seq<string>, path: string)
    ensures SectionLines(StripAll(lines), path) ==
            match SectionLines(lines, path) case None => None case Some(body) => Some(StripAll(body))
  {
    StripBody(lines, path);
    match Body(lines, Header, AnyHeader, path)
    case None =>
    case Some(se) => StripSlice(lines, se.0, se.1);
  }

  lemma StripSlice(lines: seq<string>, s: nat, e: nat)
    requires s <= e <= |lines|
    ensures StripAll(lines)[s..e] == StripAll(lines[s..e])
  {
  }

  lemma StripKeys(lines: seq<string>, key: string)
    requires key in Keys(lines)
    ensures key in Keys(StripAll(lines))
  {
    var l :| l in lines && KeyOf(l) == Some(key);
    var i :| 0 <= i < |lines| && lines[i] == l;
    StripCRReads(l);
    assert StripAll(lines)[i] in StripAll(lines);
  }

  lemma StripMarker(lines: seq<string>, path: string)
    requires HasMarker(lines, path)
    ensures HasMarker(StripAll(lines), path)
  {
    var i :| 0 <= i < |lines| && (Trim(lines[i]) == Marker(path) || Trim(lines[i]) == OldMarker(path));
    StripCRReads(lines[i]);
    assert StripAll(lines)[i] == StripCR(lines[i]);
  }

  lemma StripCovered(lines: seq<string>, sec: TemplateSection)
    requires Covered(lines, sec)
    ensures Covered(StripAll(lines), sec)
  {
    StripSection(lines, sec.path);
    match SectionLines(lines, sec.path)
    case None => StripMarker(lines, sec.path);
    case Some(body) =>
      forall i | 0 <= i < |sec.keys|
        ensures sec.keys[i].key in Keys(StripAll(body))
      {
        StripKeys(body, sec.keys[i].key);
      }
  }

  /** Running `merge` on its own output is a no-op: for every user file, every template
      and every outcome of the comparison of settings. */
  lemma MergeTwice(user: string, template: string, notes: Notes, same: (string, string) -> bool, out: string)
    requires GoodNotes(notes) && NotesOneLine(notes)
    requires Merge(user, template, notes, same) == Some(out)
    ensures Merge(out, template, notes, same) == None
  {
    var secs := Parsed(Lines(template)).out;
    var lines := Merged(Lines(user), secs, notes).value;
    ParsedGood(Lines(template));
    MergeCovers(Lines(user), secs, notes);
    ParsedOneLine(Lines(template));
    MergedOneLine(Lines(user), secs, notes);
    LinesOfUnlines(lines);
    forall i | 0 <= i < |secs|
      ensures Covered(StripAll(lines), secs[i])
    {
      StripCovered(lines, secs[i]);
    }
    MergedNone(StripAll(lines), secs, notes);
  }
}
