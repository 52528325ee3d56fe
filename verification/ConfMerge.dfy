/** `merge` of hermian/src/confmerge.rs, as functions on lines: the template parsed, a plan
    of what to put where, and the plan carried out. No setting may change, and a second run
    must find nothing left to do. The final comparison of parsed TOML values is an
    arbitrary predicate here: nothing below relies on it. */
module ConfMerge {
  import opened Common
  import opened Text
  import opened Sections
  import opened ConfLines

  // ---------------------------------------------------------------------
  // The template
  // ---------------------------------------------------------------------

  datatype TemplateKey = TemplateKey(key: string, comments: seq<string>, line: string)

  datatype TemplateSection = TemplateSection(path: string, intro: seq<string>, keys: seq<TemplateKey>)

  /** Sections so far, and the comment lines waiting for their setting. */
  datatype Parse = Parse(out: seq<TemplateSection>, pending: seq<string>)

  const ALLOWLIST: string := "allowlist"

  /** The setting a template line shows in section `path`; exceptions are examples only. */
  function SettingOf(path: string, line: string): Option<string> {
    if ActiveKey(line).Some? then ActiveKey(line)
    else if path != ALLOWLIST then CommentedKey(line)
    else None
  }

  /** One line that is not a header, inside section `sec`. */
  function ParseInside(sec: TemplateSection, pending: seq<string>, line: string): (TemplateSection, seq<string>) {
    match SettingOf(sec.path, line)
    case Some(key) => (sec.(keys := sec.keys + [TemplateKey(key, pending, line)]), [])
    case None =>
      if Comment(line) then
        (if sec.keys == [] then (sec.(intro := sec.intro + [line]), pending) else (sec, pending + [line]))
      else if Blank(line) && sec.keys != [] then (sec, [])
      else (sec, pending)
  }

  function ParseLine(p: Parse, line: string): Parse {
    match Header(line)
    case Some(path) => Parse(p.out + [TemplateSection(path, [], [])], [])
    case None =>
      if p.out == [] then p
      else
        var (sec, pending) := ParseInside(p.out[|p.out| - 1], p.pending, line);
        Parse(p.out[..|p.out| - 1] + [sec], pending)
  }

  function Parsed(lines: seq<string>): Parse {
    if lines == [] then Parse([], []) else ParseLine(Parsed(lines[..|lines| - 1]), lines[|lines| - 1])
  }

  method ParseTemplate(lines: seq<string>) returns (out: seq<TemplateSection>)
    ensures out == Parsed(lines).out
  {
    out := [];
    var pending := [];
    var i := 0;
    while i < |lines|
      invariant 0 <= i <= |lines| && Parse(out, pending) == Parsed(lines[..i])
    {
      var line := lines[i];
      assert lines[..i + 1][..i] == lines[..i];
      i := i + 1;
      var header := Header(line);
      if header.Some? {
        out := out + [TemplateSection(header.value, [], [])];
        pending := [];
      } else if out != [] {
        var sec;
        sec, pending := ParseSectionLine(out[|out| - 1], pending, line);
        out := out[..|out| - 1] + [sec];
      }
    }
    assert lines[..i] == lines;
  }

  method ParseSectionLine(sec: TemplateSection, pending: seq<string>, line: string)
    returns (sec': TemplateSection, pending': seq<string>)
    ensures (sec', pending') == ParseInside(sec, pending, line)
  {
    sec', pending' := sec, pending;
    var key := ActiveKey(line);
    if key.None? && sec.path != ALLOWLIST {
      key := CommentedKey(line);
    }
    if key.Some? {
      sec' := sec.(keys := sec.keys + [TemplateKey(key.value, pending, line)]);
      pending' := [];
    } else if Comment(line) {
      if sec.keys == [] {
        sec' := sec.(intro := sec.intro + [line]);
      } else {
        pending' := pending + [line];
      }
    } else if Blank(line) {
      if sec.keys != [] {
        pending' := [];
      }
    }
  }

  predicate Comments(lines: seq<string>) {
    forall i :: 0 <= i < |lines| ==> Comment(lines[i])
  }

  predicate GoodKey(k: TemplateKey) {
    KeyOf(k.line) == Some(k.key) && Comments(k.comments)
  }

  predicate GoodSection(sec: TemplateSection) {
    Comments(sec.intro) && forall i :: 0 <= i < |sec.keys| ==> GoodKey(sec.keys[i])
  }

  predicate GoodSections(secs: seq<TemplateSection>) {
    forall i :: 0 <= i < |secs| ==> GoodSection(secs[i])
  }

  lemma SettingIsKey(path: string, line: string)
    requires SettingOf(path, line).Some?
    ensures KeyOf(line) == SettingOf(path, line)
  {
  }

  lemma InsideGood(sec: TemplateSection, pending: seq<string>, line: string)
    requires GoodSection(sec) && Comments(pending)
    ensures var (sec', pending') := ParseInside(sec, pending, line);
            GoodSection(sec') && Comments(pending') && sec'.path == sec.path
  {
    if SettingOf(sec.path, line).Some? {
      SettingIsKey(sec.path, line);
      assert GoodKey(TemplateKey(SettingOf(sec.path, line).value, pending, line));
    }
  }

  /** Whatever the template: explanations are comments, and a setting's line shows its key. */
  lemma {:induction false} ParsedGood(lines: seq<string>)
    ensures GoodSections(Parsed(lines).out) && Comments(Parsed(lines).pending)
  {
    if lines != [] {
      var p, line := Parsed(lines[..|lines| - 1]), lines[|lines| - 1];
      ParsedGood(lines[..|lines| - 1]);
      if Header(line).None? && p.out != [] {
        InsideGood(p.out[|p.out| - 1], p.pending, line);
      }
    }
  }

  // ---------------------------------------------------------------------
  // What to add
  // ---------------------------------------------------------------------

  function Keys(lines: seq<string>): (r: set<string>)
    ensures forall l :: l in lines && KeyOf(l).Some? ==> KeyOf(l).value in r
  {
    set l | l in lines && KeyOf(l).Some? :: KeyOf(l).value
  }

  /** A missing setting with its explanation, switched off. */
  function Offer(k: TemplateKey): seq<string> {
    k.comments + [CommentOut(k.line)]
  }

  function Missing(keys: seq<TemplateKey>, present: set<string>): seq<string> {
    if keys == [] then []
    else
      var last := keys[|keys| - 1];
      Missing(keys[..|keys| - 1], present) + (if last.key in present then [] else Offer(last))
  }

  /** The fixed texts `merge` adds, with the version filled in: one above new settings,
      two above new sections. */
  datatype Notes = Notes(settings: string, sections: string, off: string)

  function AddedNotes(notes: Notes): seq<string> {
    [[]] + [notes.sections] + [notes.off]
  }

  function Marker(path: string): string {
    ['#', '['] + path + [']']
  }

  function OldMarker(path: string): string {
    ['#', ' ', '['] + path + [']']
  }

  predicate HasMarker(lines: seq<string>, path: string) {
    exists i :: 0 <= i < |lines| && (Trim(lines[i]) == Marker(path) || Trim(lines[i]) == OldMarker(path))
  }

  /** The position after the last line of `lines[s..at]` that is not blank. */
  function AfterText(lines: seq<string>, s: nat, at: nat): (r: nat)
    requires s <= at <= |lines|
    ensures s <= r <= at
    decreases at
  {
    if at > s && Blank(lines[at - 1]) then AfterText(lines, s, at - 1) else at
  }

  lemma {:induction false} AfterTextIsLast(lines: seq<string>, s: nat, at: nat)
    requires s <= at <= |lines|
    ensures var r := AfterText(lines, s, at);
            (r == s || !Blank(lines[r - 1])) && forall i :: r <= i < at ==> Blank(lines[i])
    decreases at
  {
    if at > s && Blank(lines[at - 1]) {
      AfterTextIsLast(lines, s, at - 1);
    }
  }

  function SectionBody(lines: seq<string>, path: string): (r: Option<(nat, nat)>)
    ensures r.Some? ==> 1 <= r.value.0 <= r.value.1 <= |lines|
  {
    Body(lines, Header, AnyHeader, path)
  }

  function SectionLines(lines: seq<string>, path: string): Option<seq<string>> {
    BodyLines(lines, Header, AnyHeader, path)
  }

  /** Carriage returns at line ends move no section. */
  lemma StripBody(lines: seq<string>, path: string)
    ensures SectionBody(StripAll(lines), path) == SectionBody(lines, path)
  {
    forall i | 0 <= i < |lines|
      ensures Header(StripAll(lines)[i]) == Header(lines[i]) && AnyHeader(StripAll(lines)[i]) == AnyHeader(lines[i])
    {
      StripCRReads(lines[i]);
    }
    SameReadings(lines, StripAll(lines), Header, AnyHeader, path);
  }

  /** A whole section the file does not have. */
  function NewSection(sec: TemplateSection): seq<string> {
    [[], Marker(sec.path)] + sec.intro + Missing(sec.keys, {})
  }

  datatype Plan = Plan(inserts: seq<Insert<string>>, appended: seq<string>)

  /** `sec` against its body in the file, if it has one. */
  function PlanAt(lines: seq<string>, sec: TemplateSection, notes: Notes, body: Option<(nat, nat)>, plan: Plan): (r: Plan)
    requires body.Some? ==> body.value.0 <= body.value.1 <= |lines|
    ensures Within(plan.inserts, |lines|) ==> Within(r.inserts, |lines|)
  {
    match body
    case Some(se) =>
      var add := Missing(sec.keys, Keys(lines[se.0..se.1]));
      if add == [] then plan
      else plan.(inserts := plan.inserts + [Insert(AfterText(lines, se.0, se.1), [notes.settings] + add)])
    case None =>
      if HasMarker(lines, sec.path) then plan
      else plan.(appended := plan.appended + NewSection(sec))
  }

  function PlanOne(lines: seq<string>, sec: TemplateSection, notes: Notes, plan: Plan): Plan {
    PlanAt(lines, sec, notes, SectionBody(lines, sec.path), plan)
  }

  function PlanAll(lines: seq<string>, secs: seq<TemplateSection>, notes: Notes): (r: Plan)
    ensures Within(r.inserts, |lines|)
  {
    if secs == [] then Plan([], [])
    else PlanOne(lines, secs[|secs| - 1], notes, PlanAll(lines, secs[..|secs| - 1], notes))
  }

  lemma SortedWithin(inserts: seq<Insert<string>>, n: nat)
    requires Within(inserts, n)
    ensures Within(SortDesc(inserts), n)
  {
    forall i | 0 <= i < |SortDesc(inserts)|
      ensures SortDesc(inserts)[i].at <= n
    {
      SortHas(inserts, SortDesc(inserts)[i]);
    }
  }

  function Tail(appended: seq<string>, notes: Notes): seq<string> {
    if appended == [] then [] else AddedNotes(notes) + appended
  }

  function Applied(lines: seq<string>, plan: Plan, notes: Notes): seq<string>
    requires Within(plan.inserts, |lines|)
  {
    SortedWithin(plan.inserts, |lines|);
    InsertAll(lines, SortDesc(plan.inserts)) + Tail(plan.appended, notes)
  }

  /** The new lines, or `None` if nothing is missing. */
  function Merged(lines: seq<string>, secs: seq<TemplateSection>, notes: Notes): Option<seq<string>> {
    var plan := PlanAll(lines, secs, notes);
    if plan.inserts == [] && plan.appended == [] then None else Some(Applied(lines, plan, notes))
  }

  /** The whole operation on text. `same` compares the settings of two texts. */
  function Merge(user: string, template: string, notes: Notes, same: (string, string) -> bool): Option<string> {
    match Merged(Lines(user), Parsed(Lines(template)).out, notes)
    case None => None
    case Some(lines) => if same(user, Unlines(lines)) then Some(Unlines(lines)) else None
  }
}
