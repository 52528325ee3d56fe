/** The template of hermian/src/confmerge.rs as it is written: section after section, each an
    introduction and settings with the comments right above them. Reading it line by line
    gives exactly that. */
module TemplateText {
  import opened Common
  import opened Text
  import opened ConfLines
  import opened ConfMerge

  /** What single lines are: the path of a header, the setting shown under a path, a comment,
      a blank line. */
  datatype Kinds = Kinds(
    header: string -> Option<string>, setting: (string, string) -> Option<string>,
    comment: string -> bool, blank: string -> bool)

  /** The kinds of `confmerge.rs`; in the allowlist what is switched off is an example only. */
  function OurKinds(): Kinds {
    Kinds(l => Header(l),
          (path, l) => match ActiveKey(l)
                       case Some(key) => Some(key)
                       case None => if path == "allowlist" then None else CommentedKey(l),
          l => Comment(l), l => Blank(l))
  }

  // ---------------------------------------------------------------------
  // The template, read as a whole
  // ---------------------------------------------------------------------

  /** The comment lines among these. */
  function CommentsOf(t: Kinds, lines: seq<string>): seq<string> {
    if lines == [] then []
    else CommentsOf(t, lines[..|lines| - 1]) + if t.comment(lines[|lines| - 1]) then [lines[|lines| - 1]] else []
  }

  /** What follows the last blank line. */
  function AfterBlank(t: Kinds, lines: seq<string>): seq<string> {
    if lines == [] || t.blank(lines[|lines| - 1]) then []
    else AfterBlank(t, lines[..|lines| - 1]) + [lines[|lines| - 1]]
  }

  /** The position of the first setting. */
  function FirstSetting(t: Kinds, path: string, body: seq<string>): (n: nat)
    ensures n <= |body| && (n < |body| ==> t.setting(path, body[n]).Some?)
  {
    if body == [] || t.setting(path, body[0]).Some? then 0 else FirstSetting(t, path, body[1..]) + 1
  }

  /** The settings of a body, in order, the explanations of each being the comments above it
      since the last setting or blank line. */
  function SettingsIn(t: Kinds, path: string, body: seq<string>): seq<TemplateKey>
    decreases |body|
  {
    var n := FirstSetting(t, path, body);
    if n == |body| then []
    else
      [TemplateKey(t.setting(path, body[n]).value, CommentsOf(t, AfterBlank(t, body[..n])), body[n])]
      + SettingsIn(t, path, body[n + 1..])
  }

  /** One section: the comments above its first setting introduce it, the rest explain. */
  function SectionIn(t: Kinds, path: string, body: seq<string>): TemplateSection {
    var n := FirstSetting(t, path, body);
    if n == |body| then TemplateSection(path, CommentsOf(t, body), [])
    else
      TemplateSection(path, CommentsOf(t, body[..n]),
                      [TemplateKey(t.setting(path, body[n]).value, [], body[n])] + SettingsIn(t, path, body[n + 1..]))
  }

  function FirstHeader(t: Kinds, lines: seq<string>): (n: nat)
    ensures n <= |lines| && (n < |lines| ==> t.header(lines[n]).Some?)
  {
    if lines == [] || t.header(lines[0]).Some? then 0 else FirstHeader(t, lines[1..]) + 1
  }

  /** All sections, each from its header to the next. */
  function SectionsIn(t: Kinds, lines: seq<string>): seq<TemplateSection>
    decreases |lines|, 0
  {
    if lines == [] then []
    else match t.header(lines[0])
      case None => SectionsIn(t, lines[1..])
      case Some(path) => SectionsFrom(t, path, lines[1..], FirstHeader(t, lines[1..]))
  }

  /** The section of `path` up to line `e`, and those from there on. */
  function SectionsFrom(t: Kinds, path: string, rest: seq<string>, e: nat): seq<TemplateSection>
    requires e <= |rest|
    decreases |rest|, 1
  {
    [SectionIn(t, path, rest[..e])] + SectionsIn(t, rest[e..])
  }

  // ---------------------------------------------------------------------
  // Line by line
  // ---------------------------------------------------------------------

  type Reader = (Parse, string) -> Parse

  /** What a line does to the section it is in and to the comments waiting. */
  function Inside(t: Kinds, sec: TemplateSection, pending: seq<string>, line: string): (TemplateSection, seq<string>) {
    match t.setting(sec.path, line)
    case Some(key) => (TemplateSection(sec.path, sec.intro, sec.keys + [TemplateKey(key, pending, line)]), [])
    case None =>
      if sec.keys == [] then
        (TemplateSection(sec.path, sec.intro + if t.comment(line) then [line] else [], []), pending)
      else (sec, if t.blank(line) then [] else pending + if t.comment(line) then [line] else [])
  }

  /** `read` takes lines one by one for what `t` says they are. */
  ghost predicate Reads(read: Reader, t: Kinds) {
    && (forall p, l :: t.header(l).Some? ==> read(p, l) == Parse(p.out + [TemplateSection(t.header(l).value, [], [])], []))
    && (forall l :: t.header(l).None? ==> read(Parse([], []), l) == Parse([], []))
    && (forall out: seq<TemplateSection>, sec, pending, l :: t.header(l).None? ==>
          read(Parse(out + [sec], pending), l)
          == Parse(out + [Inside(t, sec, pending, l).0], Inside(t, sec, pending, l).1))
  }

  /** The state after these lines, from this one. */
  function Fold(p: Parse, lines: seq<string>, read: Reader): Parse
    decreases |lines|
  {
    if lines == [] then p else Fold(read(p, lines[0]), lines[1..], read)
  }

  lemma {:induction false} FoldConcat(p: Parse, a: seq<string>, b: seq<string>, read: Reader)
    ensures Fold(p, a + b, read) == Fold(Fold(p, a, read), b, read)
    decreases |a|
  {
    if a == [] {
      assert a + b == b;
    } else {
      assert (a + b)[1..] == a[1..] + b;
      FoldConcat(read(p, a[0]), a[1..], b, read);
    }
  }

  lemma FoldOne(p: Parse, line: string, read: Reader)
    ensures Fold(p, [line], read) == read(p, line)
  {
    assert [line][1..] == [];
  }

  lemma FoldLast(p: Parse, init: seq<string>, last: string, read: Reader)
    ensures Fold(p, init + [last], read) == read(Fold(p, init, read), last)
  {
    FoldConcat(p, init, [last], read);
    FoldOne(Fold(p, init, read), last, read);
  }

  lemma Onward(p: Parse, chunk: seq<string>, rest: seq<string>, mid: Parse, all: seq<string>, read: Reader)
    requires Fold(p, chunk, read) == mid && all == chunk + rest
    ensures Fold(p, all, read) == Fold(mid, rest, read)
  {
    FoldConcat(p, chunk, rest, read);
  }

  // ---------------------------------------------------------------------
  // Lines without settings
  // ---------------------------------------------------------------------

  predicate NoHeader(t: Kinds, lines: seq<string>) {
    forall i :: 0 <= i < |lines| ==> t.header(lines[i]).None?
  }

  /** None of these lines is a header or shows a setting. */
  predicate Idle(t: Kinds, path: string, lines: seq<string>) {
    NoHeader(t, lines) && forall i :: 0 <= i < |lines| ==> t.setting(path, lines[i]).None?
  }

  lemma CommentsOfLast(t: Kinds, init: seq<string>, last: string)
    ensures CommentsOf(t, init + [last]) == CommentsOf(t, init) + if t.comment(last) then [last] else []
  {
    assert (init + [last])[..|init|] == init;
  }

  /** Above the first setting, comments introduce. */
  lemma {:induction false} IdleIntroduces(t: Kinds, out: seq<TemplateSection>, sec: TemplateSection, gap: seq<string>, read: Reader)
    requires Reads(read, t) && Idle(t, sec.path, gap) && sec.keys == []
    ensures Fold(Parse(out + [sec], []), gap, read)
            == Parse(out + [TemplateSection(sec.path, sec.intro + CommentsOf(t, gap), [])], [])
  {
    if gap == [] {
      assert sec.intro + [] == sec.intro;
    } else {
      var init, last := gap[..|gap| - 1], gap[|gap| - 1];
      assert gap == init + [last];
      IdleIntroduces(t, out, sec, init, read);
      FoldLast(Parse(out + [sec], []), init, last, read);
      var sofar, more := CommentsOf(t, init), if t.comment(last) then [last] else [];
      IdleIn(t, TemplateSection(sec.path, sec.intro + sofar, []), [], last);
      assert sec.intro + sofar + more == sec.intro + (sofar + more);
    }
  }

  lemma IdleIn(t: Kinds, sec: TemplateSection, pending: seq<string>, line: string)
    requires t.setting(sec.path, line).None?
    ensures Inside(t, sec, pending, line)
            == if sec.keys == [] then (TemplateSection(sec.path, sec.intro + if t.comment(line) then [line] else [], []), pending)
               else (sec, if t.blank(line) then [] else pending + if t.comment(line) then [line] else [])
  {
  }

  /** A blank line is no comment. */
  ghost predicate Apart(t: Kinds) {
    forall l :: t.blank(l) ==> !t.comment(l)
  }

  /** Below it, comments since the last blank line wait for the next. */
  lemma {:induction false} IdleWaits(t: Kinds, out: seq<TemplateSection>, sec: TemplateSection, gap: seq<string>, read: Reader)
    requires Reads(read, t) && Apart(t) && Idle(t, sec.path, gap) && sec.keys != []
    ensures Fold(Parse(out + [sec], []), gap, read) == Parse(out + [sec], CommentsOf(t, AfterBlank(t, gap)))
  {
    if gap != [] {
      var init, last := gap[..|gap| - 1], gap[|gap| - 1];
      assert gap == init + [last];
      IdleWaits(t, out, sec, init, read);
      FoldLast(Parse(out + [sec], []), init, last, read);
      CommentsOfLast(t, AfterBlank(t, init), last);
      IdleIn(t, sec, CommentsOf(t, AfterBlank(t, init)), last);
    }
  }

  // ---------------------------------------------------------------------
  // Settings
  // ---------------------------------------------------------------------

  /** A section with one more setting and the lines above it. */
  function Further(t: Kinds, sec: TemplateSection, gap: seq<string>, line: string): TemplateSection
    requires t.setting(sec.path, line).Some?
  {
    var key := t.setting(sec.path, line).value;
    if sec.keys == [] then TemplateSection(sec.path, sec.intro + CommentsOf(t, gap), [TemplateKey(key, [], line)])
    else TemplateSection(sec.path, sec.intro, sec.keys + [TemplateKey(key, CommentsOf(t, AfterBlank(t, gap)), line)])
  }

  lemma OneSetting(t: Kinds, out: seq<TemplateSection>, sec: TemplateSection, gap: seq<string>, line: string, read: Reader)
    requires Reads(read, t) && Apart(t) && Idle(t, sec.path, gap) && t.header(line).None? && t.setting(sec.path, line).Some?
    ensures Fold(Parse(out + [sec], []), gap + [line], read) == Parse(out + [Further(t, sec, gap, line)], [])
  {
    FoldLast(Parse(out + [sec], []), gap, line, read);
    if sec.keys == [] {
      IdleIntroduces(t, out, sec, gap, read);
      var k := TemplateKey(t.setting(sec.path, line).value, [], line);
      var none: seq<TemplateKey> := [];
      assert none + [k] == [k];
    } else {
      IdleWaits(t, out, sec, gap, read);
    }
  }

  lemma {:induction false} NoneBefore(t: Kinds, path: string, body: seq<string>)
    ensures forall i :: 0 <= i < FirstSetting(t, path, body) ==> t.setting(path, body[i]).None?
  {
    if body != [] && t.setting(path, body[0]).None? {
      NoneBefore(t, path, body[1..]);
      assert forall i :: 1 <= i < |body| ==> body[i] == body[1..][i - 1];
    }
  }

  /** The lines of a body up to its first setting, that, and the rest. */
  lemma BodySplits(t: Kinds, path: string, body: seq<string>, n: nat)
    requires NoHeader(t, body) && n == FirstSetting(t, path, body) < |body|
    ensures Idle(t, path, body[..n]) && t.header(body[n]).None? && NoHeader(t, body[n + 1..])
    ensures body == (body[..n] + [body[n]]) + body[n + 1..]
  {
    NoneBefore(t, path, body);
  }

  lemma FirstOfSettings(t: Kinds, path: string, body: seq<string>, n: nat)
    requires n == FirstSetting(t, path, body) < |body|
    ensures SettingsIn(t, path, body)
            == [TemplateKey(t.setting(path, body[n]).value, CommentsOf(t, AfterBlank(t, body[..n])), body[n])]
               + SettingsIn(t, path, body[n + 1..])
  {
  }

  /** The section with these further settings. */
  function WithMore(sec: TemplateSection, more: seq<TemplateKey>): TemplateSection {
    TemplateSection(sec.path, sec.intro, sec.keys + more)
  }

  lemma MoreOn(sec: TemplateSection, next: TemplateSection, one: seq<TemplateKey>, more: seq<TemplateKey>)
    requires next == WithMore(sec, one)
    ensures WithMore(next, more) == WithMore(sec, one + more)
  {
    assert sec.keys + one + more == sec.keys + (one + more);
  }

  lemma {:induction false} BodyRead(t: Kinds, out: seq<TemplateSection>, sec: TemplateSection, body: seq<string>, read: Reader)
    requires Reads(read, t) && Apart(t) && NoHeader(t, body) && sec.keys != []
    ensures Fold(Parse(out + [sec], []), body, read).out == out + [WithMore(sec, SettingsIn(t, sec.path, body))]
    decreases |body|
  {
    var n := FirstSetting(t, sec.path, body);
    NoneBefore(t, sec.path, body);
    if n == |body| {
      IdleWaits(t, out, sec, body, read);
      assert WithMore(sec, []) == sec;
    } else {
      var gap, line, rest := body[..n], body[n], body[n + 1..];
      BodySplits(t, sec.path, body, n);
      FirstOfSettings(t, sec.path, body, n);
      OneSetting(t, out, sec, gap, line, read);
      var next := Further(t, sec, gap, line);
      Onward(Parse(out + [sec], []), gap + [line], rest, Parse(out + [next], []), body, read);
      BodyRead(t, out, next, rest, read);
      MoreOn(sec, next, [next.keys[|sec.keys|]], SettingsIn(t, sec.path, rest));
    }
  }

  lemma WholeBodyRead(t: Kinds, out: seq<TemplateSection>, path: string, body: seq<string>, read: Reader)
    requires Reads(read, t) && Apart(t) && NoHeader(t, body)
    ensures Fold(Parse(out + [TemplateSection(path, [], [])], []), body, read).out == out + [SectionIn(t, path, body)]
  {
    var sec := TemplateSection(path, [], []);
    var n := FirstSetting(t, path, body);
    NoneBefore(t, path, body);
    if n == |body| {
      IdleIntroduces(t, out, sec, body, read);
      assert [] + CommentsOf(t, body) == CommentsOf(t, body);
    } else {
      var gap, line, rest := body[..n], body[n], body[n + 1..];
      BodySplits(t, path, body, n);
      OneSetting(t, out, sec, gap, line, read);
      var next := Further(t, sec, gap, line);
      assert [] + CommentsOf(t, gap) == CommentsOf(t, gap);
      Onward(Parse(out + [sec], []), gap + [line], rest, Parse(out + [next], []), body, read);
      BodyRead(t, out, next, rest, read);
    }
  }

  // ---------------------------------------------------------------------
  // Sections
  // ---------------------------------------------------------------------

  lemma {:induction false} NoHeaderBefore(t: Kinds, lines: seq<string>)
    ensures forall i :: 0 <= i < FirstHeader(t, lines) ==> t.header(lines[i]).None?
  {
    if lines != [] && t.header(lines[0]).None? {
      NoHeaderBefore(t, lines[1..]);
      assert forall i :: 1 <= i < |lines| ==> lines[i] == lines[1..][i - 1];
    }
  }

  /** A section and what follows it. */
  lemma SectionSplits(t: Kinds, lines: seq<string>, rest: seq<string>, e: nat)
    requires lines != [] && t.header(lines[0]).Some? && rest == lines[1..] && e == FirstHeader(t, rest)
    ensures NoHeader(t, rest[..e]) && (rest[e..] == [] || t.header(rest[e..][0]).Some?)
    ensures lines == [lines[0]] + rest && rest == rest[..e] + rest[e..]
  {
    NoHeaderBefore(t, rest);
  }

  lemma {:induction false} SectionsRead(t: Kinds, p: Parse, lines: seq<string>, read: Reader)
    requires Reads(read, t) && Apart(t) && (lines == [] || t.header(lines[0]).Some?)
    ensures Fold(p, lines, read).out == p.out + SectionsIn(t, lines)
    decreases |lines|
  {
    if lines == [] {
      assert p.out + [] == p.out;
    } else {
      var path, rest := t.header(lines[0]).value, lines[1..];
      var e := FirstHeader(t, rest);
      var body, more := rest[..e], rest[e..];
      SectionSplits(t, lines, rest, e);
      var start := Parse(p.out + [TemplateSection(path, [], [])], []);
      FoldOne(p, lines[0], read);
      Onward(p, [lines[0]], rest, start, lines, read);
      WholeBodyRead(t, p.out, path, body, read);
      var mid := Fold(start, body, read);
      Onward(start, body, more, mid, rest, read);
      SectionsRead(t, mid, more, read);
      ThenMore(p.out, SectionIn(t, path, body), SectionsIn(t, more));
    }
  }

  lemma ThenMore(out: seq<TemplateSection>, one: TemplateSection, more: seq<TemplateSection>)
    ensures out + [one] + more == out + ([one] + more)
  {
  }

  /** What comes before the first header is no section. */
  lemma {:induction false} AllRead(t: Kinds, lines: seq<string>, read: Reader)
    requires Reads(read, t) && Apart(t)
    ensures Fold(Parse([], []), lines, read).out == SectionsIn(t, lines)
  {
    if lines != [] {
      if t.header(lines[0]).Some? {
        SectionsRead(t, Parse([], []), lines, read);
        assert [] + SectionsIn(t, lines) == SectionsIn(t, lines);
      } else {
        AllRead(t, lines[1..], read);
      }
    }
  }

  // ---------------------------------------------------------------------
  // The reading of the source
  // ---------------------------------------------------------------------

  function OneLine(): Reader {
    (p, line) => ParseLine(p, line)
  }

  lemma OurLine(out: seq<TemplateSection>, sec: TemplateSection, pending: seq<string>, line: string, t: Kinds)
    requires t == OurKinds() && Header(line).None?
    ensures ParseLine(Parse(out + [sec], pending), line)
            == Parse(out + [Inside(t, sec, pending, line).0], Inside(t, sec, pending, line).1)
  {
    var all := out + [sec];
    assert all[..|all| - 1] == out && all[|all| - 1] == sec;
    assert SettingOf(sec.path, line) == t.setting(sec.path, line);
    BlankNoComment(line);
    assert sec.intro + [] == sec.intro && pending + [] == pending;
  }

  lemma BlankNoComment(line: string)
    ensures Blank(line) ==> !Comment(line)
  {
    TrimFront(line);
  }

  lemma OurReads(read: Reader, t: Kinds)
    requires read == OneLine() && t == OurKinds()
    ensures Reads(read, t) && Apart(t)
  {
    forall out: seq<TemplateSection>, sec, pending, l | t.header(l).None?
      ensures read(Parse(out + [sec], pending), l)
              == Parse(out + [Inside(t, sec, pending, l).0], Inside(t, sec, pending, l).1)
    {
      OurLine(out, sec, pending, l, t);
    }
    forall l
      ensures t.blank(l) ==> !t.comment(l)
    {
      BlankNoComment(l);
    }
  }

  lemma {:induction false} ParsedIsFold(lines: seq<string>)
    ensures Parsed(lines) == Fold(Parse([], []), lines, OneLine())
  {
    if lines != [] {
      var init, last := lines[..|lines| - 1], lines[|lines| - 1];
      assert lines == init + [last];
      ParsedIsFold(init);
      FoldLast(Parse([], []), init, last, OneLine());
    }
  }

  /** The template is read as it is written, whatever it holds: the sections in order, each
      with its introduction and its settings in order, and each setting with just the
      comments above it since the last setting or blank line. */
  lemma ParsedIsRead(lines: seq<string>)
    ensures Parsed(lines).out == SectionsIn(OurKinds(), lines)
  {
    ParsedIsFold(lines);
    OurReads(OneLine(), OurKinds());
    AllRead(OurKinds(), lines, OneLine());
  }
}
