/** The loops of `merge` in hermian/src/confmerge.rs, proved against module ConfMerge. */
module ConfMergeLoops {
  import opened Common
  import opened Text
  import opened Sections
  import opened ConfLines
  import opened ConfMerge

  method PresentKeys(body: seq<string>) returns (present: set<string>)
    ensures present == Keys(body)
  {
    present := {};
    var i := 0;
    while i < |body|
      invariant 0 <= i <= |body| && present == Keys(body[..i])
    {
      assert body[..i + 1] == body[..i] + [body[i]];
      KeysMore(body[..i], body[i]);
      var key := ActiveKey(body[i]);
      if key.None? {
        key := CommentedKey(body[i]);
      }
      if key.Some? {
        present := present + {key.value};
      }
      i := i + 1;
    }
    assert body[..i] == body;
  }

  lemma KeysMore(lines: seq<string>, l: string)
    ensures Keys(lines + [l]) == Keys(lines) + if KeyOf(l).Some? then {KeyOf(l).value} else {}
  {
    var more := lines + [l];
    forall k | k in Keys(more)
      ensures k in Keys(lines) || KeyOf(l) == Some(k)
    {
      var x :| x in more && KeyOf(x) == Some(k);
    }
    forall k | k in Keys(lines) || KeyOf(l) == Some(k)
      ensures k in Keys(more)
    {
      var x :| (x in lines || x == l) && KeyOf(x) == Some(k);
      assert x in more;
    }
  }

  method MissingLines(keys: seq<TemplateKey>, present: set<string>) returns (add: seq<string>)
    ensures add == Missing(keys, present)
  {
    add := [];
    var i := 0;
    while i < |keys|
      invariant 0 <= i <= |keys| && add == Missing(keys[..i], present)
    {
      assert keys[..i + 1][..i] == keys[..i];
      if keys[i].key !in present {
        add := add + keys[i].comments;
        add := add + [CommentOut(keys[i].line)];
        assert add == Missing(keys[..i], present) + Offer(keys[i]);
      }
      i := i + 1;
    }
    assert keys[..i] == keys;
  }

  method LastText(lines: seq<string>, s: nat, e: nat) returns (at: nat)
    requires s <= e <= |lines|
    ensures at == AfterText(lines, s, e)
  {
    at := e;
    while at > s && Blank(lines[at - 1])
      invariant s <= at <= e && AfterText(lines, s, e) == AfterText(lines, s, at)
    {
      at := at - 1;
    }
  }

  method PlanSection(lines: seq<string>, sec: TemplateSection, notes: Notes, plan: Plan) returns (plan': Plan)
    ensures plan' == PlanOne(lines, sec, notes, plan)
  {
    plan' := plan;
    match SectionBody(lines, sec.path) {
      case Some(se) =>
        var present := PresentKeys(lines[se.0..se.1]);
        var add := MissingLines(sec.keys, present);
        if add == [] {
          return;
        }
        var at := LastText(lines, se.0, se.1);
        plan' := plan.(inserts := plan.inserts + [Insert(at, [notes.settings] + add)]);
      case None =>
        if HasMarker(lines, sec.path) {
          return;
        }
        var offers := MissingLines(sec.keys, {});
        plan' := plan.(appended := plan.appended + ([[], Marker(sec.path)] + sec.intro + offers));
    }
  }

  method MakePlan(lines: seq<string>, secs: seq<TemplateSection>, notes: Notes) returns (plan: Plan)
    ensures plan == PlanAll(lines, secs, notes)
  {
    plan := Plan([], []);
    var i := 0;
    while i < |secs|
      invariant 0 <= i <= |secs| && plan == PlanAll(lines, secs[..i], notes)
    {
      assert secs[..i + 1][..i] == secs[..i];
      plan := PlanSection(lines, secs[i], notes, plan);
      i := i + 1;
    }
    assert secs[..i] == secs;
  }

  /** One block, line by line. */
  method InsertBlock(lines: seq<string>, at: nat, block: seq<string>) returns (out: seq<string>)
    requires at <= |lines|
    ensures out == InsertLines(lines, at, block)
  {
    out := lines;
    var i := 0;
    while i < |block|
      invariant 0 <= i <= |block| && out == InsertLines(lines, at, block[..i])
    {
      assert block[..i + 1] == block[..i] + [block[i]];
      out := out[..at + i] + [block[i]] + out[at + i..];
      i := i + 1;
    }
    assert block[..i] == block;
  }

  method InsertBlocks(lines: seq<string>, inserts: seq<Insert<string>>) returns (out: seq<string>)
    requires Within(inserts, |lines|)
    ensures out == InsertAll(lines, inserts)
  {
    out := lines;
    var i := 0;
    while i < |inserts|
      invariant 0 <= i <= |inserts| && |lines| <= |out| && Within(inserts[i..], |out|)
      invariant InsertAll(lines, inserts) == InsertAll(out, inserts[i..])
    {
      assert inserts[i..][1..] == inserts[i + 1..];
      out := InsertBlock(out, inserts[i].at, inserts[i].block);
      i := i + 1;
    }
  }

  method ApplyPlan(lines: seq<string>, plan: Plan, notes: Notes) returns (out: seq<string>)
    requires Within(plan.inserts, |lines|)
    ensures out == Applied(lines, plan, notes)
  {
    SortedWithin(plan.inserts, |lines|);
    out := InsertBlocks(lines, SortDesc(plan.inserts));
    if plan.appended != [] {
      out := out + AddedNotes(notes);
      out := out + plan.appended;
    }
  }

  /** `merge` as the program runs it: plan, apply, and give the text only if `same` says that
      it reads like the original. */
  method MergeFile(user: string, template: string, notes: Notes, same: (string, string) -> bool) returns (r: Option<string>)
    ensures r == Merge(user, template, notes, same)
  {
    var lines := Lines(user);
    var secs := ParseTemplate(Lines(template));
    var plan := MakePlan(lines, secs, notes);
    if plan.inserts == [] && plan.appended == [] {
      return None;
    }
    var out := ApplyPlan(lines, plan, notes);
    r := if same(user, Unlines(out)) then Some(Unlines(out)) else None;
  }
}
