/** Greedy word wrap, `wrap` of hermian-core/src/alert.rs: no word is lost or moved, lines
    fit, and no other breaking of a paragraph needs fewer lines. */
module Wrap {
  import opened Common
  import opened Text
  import opened Greedy

  // ---------------------------------------------------------------------
  // Words
  // ---------------------------------------------------------------------

  function Flush(cur: string): seq<string> {
    if cur == "" then [] else [cur]
  }

  /** The words of `cur + s`, where `cur` is the word read so far. */
  function Split(s: string, cur: string): seq<string>
    decreases |s|
  {
    if s == "" then Flush(cur)
    else if IsSpace(s[0]) then Flush(cur) + Split(s[1..], "")
    else Split(s[1..], cur + [s[0]])
  }

  /** `split_whitespace`. */
  function Words(s: string): seq<string> {
    Split(s, "")
  }

  predicate IsWord(w: string) {
    w != "" && forall i :: 0 <= i < |w| ==> !IsSpace(w[i])
  }

  predicate AllAreWords(ws: seq<string>) {
    forall i :: 0 <= i < |ws| ==> IsWord(ws[i])
  }

  lemma {:induction false} SplitWords(s: string, cur: string)
    requires cur == "" || IsWord(cur)
    ensures AllAreWords(Split(s, cur))
    decreases |s|
  {
    if s != "" {
      if IsSpace(s[0]) {
        SplitWords(s[1..], "");
      } else {
        SplitWords(s[1..], cur + [s[0]]);
      }
    }
  }

  lemma {:induction false} SplitAtSpace(a: string, c: char, b: string, cur: string)
    requires IsSpace(c)
    ensures Split(a + [c] + b, cur) == Split(a, cur) + Words(b)
    decreases |a|
  {
    var s := a + [c] + b;
    if a == "" {
      assert s[0] == c && s[1..] == b;
    } else {
      assert s[0] == a[0] && s[1..] == a[1..] + [c] + b;
      if IsSpace(a[0]) {
        SplitAtSpace(a[1..], c, b, "");
      } else {
        SplitAtSpace(a[1..], c, b, cur + [a[0]]);
      }
    }
  }

  lemma {:induction false} SplitOneWord(w: string, cur: string)
    requires w == "" || IsWord(w)
    ensures Split(w, cur) == Flush(cur + w)
    decreases |w|
  {
    if w == "" {
      assert cur + w == cur;
    } else {
      assert w[1..] == "" || IsWord(w[1..]);
      SplitOneWord(w[1..], cur + [w[0]]);
      assert cur + [w[0]] + w[1..] == cur + w;
    }
  }

  // ---------------------------------------------------------------------
  // Lines
  // ---------------------------------------------------------------------

  /** A line of these words, one blank between two. */
  function Join(ws: seq<string>): string {
    if ws == [] then ""
    else if |ws| == 1 then ws[0]
    else Join(ws[..|ws| - 1]) + [' '] + ws[|ws| - 1]
  }

  /** Reading a line back gives its words. */
  lemma {:induction false} WordsOfJoin(ws: seq<string>)
    requires AllAreWords(ws)
    ensures Words(Join(ws)) == ws
  {
    if ws != [] {
      var init, last := ws[..|ws| - 1], ws[|ws| - 1];
      assert ws == init + [last];
      SplitOneWord(last, "");
      assert "" + last == last;
      if |ws| > 1 {
        WordsOfJoin(init);
        SplitAtSpace(Join(init), ' ', last, "");
      }
    }
  }

  /** A legal line: within the width, or one word that has no choice. */
  predicate Fits(ws: seq<string>, width: nat) {
    |Join(ws)| <= width || |ws| == 1
  }

  function Rule(width: nat): seq<string> -> bool {
    ws => Fits(ws, width)
  }

  /** The lines of one paragraph, as lists of words; an empty paragraph is one empty line. */
  function Lay(ws: seq<string>, width: nat): seq<seq<string>> {
    if ws == [] then [[]] else LinesFrom(Rule(width), ws, 0)
  }

  function JoinAll(groups: seq<seq<string>>): (r: seq<string>)
    ensures |r| == |groups| && forall i :: 0 <= i < |r| ==> r[i] == Join(groups[i])
  {
    seq(|groups|, i requires 0 <= i < |groups| => Join(groups[i]))
  }

  lemma JoinMore(ws: seq<string>, w: string)
    requires ws != []
    ensures Join(ws + [w]) == Join(ws) + [' '] + w
  {
    assert (ws + [w])[..|ws|] == ws;
  }

  /** A word joins a line that is not empty exactly if the longer line is within the width. */
  lemma JoinsLine(ws: seq<string>, s: nat, i: nat, width: nat)
    requires s < i < |ws|
    ensures Join(ws[s..i + 1]) == Join(ws[s..i]) + [' '] + ws[i]
    ensures Fits(ws[s..i + 1], width) <==> |Join(ws[s..i])| + 1 + |ws[i]| <= width
  {
    assert ws[s..i + 1] == ws[s..i] + [ws[i]];
    JoinMore(ws[s..i], ws[i]);
  }

  /** The lines once the current one holds `ws[s..i]`. */
  function Open(ws: seq<string>, s: nat, i: nat, width: nat): seq<seq<string>>
    requires s < i <= |ws|
  {
    var e := End(Rule(width), ws, s, i);
    [ws[s..e]] + LinesFrom(Rule(width), ws, e)
  }

  lemma OpenJoins(ws: seq<string>, s: nat, i: nat, width: nat)
    requires s < i < |ws|
    ensures Fits(ws[s..i + 1], width) ==> Open(ws, s, i, width) == Open(ws, s, i + 1, width)
    ensures !Fits(ws[s..i + 1], width) ==> Open(ws, s, i, width) == [ws[s..i]] + Open(ws, i, i + 1, width)
  {
  }

  lemma OpenEnds(ws: seq<string>, s: nat, width: nat)
    requires s < |ws|
    ensures Open(ws, s, |ws|, width) == [ws[s..|ws|]]
  {
  }

  /** `done` are the finished lines, and the current one holds `ws[s..i]`. */
  ghost predicate Laid(ws: seq<string>, width: nat, done: seq<seq<string>>, s: nat, i: nat) {
    s < i <= |ws| && Lay(ws, width) == done + Open(ws, s, i, width)
  }

  lemma LaidNext(ws: seq<string>, width: nat, done: seq<seq<string>>, s: nat, i: nat)
    requires Laid(ws, width, done, s, i) && i < |ws|
    ensures Fits(ws[s..i + 1], width) ==> Laid(ws, width, done, s, i + 1)
    ensures !Fits(ws[s..i + 1], width) ==> Laid(ws, width, done + [ws[s..i]], i, i + 1)
  {
    OpenJoins(ws, s, i, width);
    if !Fits(ws[s..i + 1], width) {
      assert done + ([ws[s..i]] + Open(ws, i, i + 1, width)) == (done + [ws[s..i]]) + Open(ws, i, i + 1, width);
    }
  }

  lemma LaidStart(ws: seq<string>, width: nat)
    requires ws != []
    ensures Laid(ws, width, [], 0, 1)
  {
  }

  lemma LaidEnd(ws: seq<string>, width: nat, done: seq<seq<string>>, s: nat)
    requires Laid(ws, width, done, s, |ws|)
    ensures Lay(ws, width) == done + [ws[s..]]
  {
    OpenEnds(ws, s, width);
    assert ws[s..|ws|] == ws[s..];
  }

  lemma JoinAllMore(groups: seq<seq<string>>, g: seq<string>)
    ensures JoinAll(groups + [g]) == JoinAll(groups) + [Join(g)]
  {
  }

  /** The loop over the words of one paragraph. */
  method WrapParagraph(ws: seq<string>, width: nat) returns (lines: seq<string>)
    requires AllAreWords(ws)
    ensures lines == JoinAll(Lay(ws, width))
  {
    lines := [];
    var line := "";
    ghost var done: seq<seq<string>>, s: nat := [], 0;
    var i := 0;
    while i < |ws|
      invariant 0 <= i <= |ws|
      invariant i == 0 ==> lines == [] && line == "" && done == [] && s == 0
      invariant i > 0 ==> Laid(ws, width, done, s, i)
      invariant i > 0 ==> lines == JoinAll(done) && line == Join(ws[s..i]) && line != ""
    {
      assert ws[i..i + 1] == [ws[i]] && IsWord(ws[i]);
      if i == 0 {
        LaidStart(ws, width);
      } else {
        LaidNext(ws, width, done, s, i);
        JoinsLine(ws, s, i, width);
        JoinAllMore(done, ws[s..i]);
      }
      lines, line := PutWord(lines, line, ws[i], width);
      if i > 0 && !Fits(ws[s..i + 1], width) {
        done, s := done + [ws[s..i]], i;
      }
      i := i + 1;
    }
    LastLine(ws, width, done, s);
    lines := lines + [line];
  }

  lemma LastLine(ws: seq<string>, width: nat, done: seq<seq<string>>, s: nat)
    requires if ws == [] then done == [] && s == 0 else Laid(ws, width, done, s, |ws|)
    ensures s <= |ws| && JoinAll(Lay(ws, width)) == JoinAll(done) + [Join(ws[s..|ws|])]
  {
    if ws != [] {
      LaidEnd(ws, width, done, s);
      assert ws[s..] == ws[s..|ws|];
    }
    JoinAllMore(done, ws[s..|ws|]);
  }

  /** One word goes on the current line, or on a new one if it no longer fits. */
  method PutWord(lines: seq<string>, line: string, word: string, width: nat) returns (lines': seq<string>, line': string)
    ensures if line == "" then lines' == lines && line' == word
            else if |line| + 1 + |word| > width then lines' == lines + [line] && line' == word
            else lines' == lines && line' == line + [' '] + word
  {
    lines', line' := lines, line;
    if line' != "" && |line'| + 1 + |word| > width {
      lines' := lines' + [line'];
      line' := "";
    }
    if line' != "" {
      line' := line' + [' '];
    }
    line' := line' + word;
  }

  // ---------------------------------------------------------------------
  // Lines fit and are as few as can be
  // ---------------------------------------------------------------------

  lemma {:induction false} JoinLength(a: seq<string>, b: seq<string>)
    requires a != [] && b != []
    ensures |Join(a + b)| == |Join(a)| + 1 + |Join(b)|
    decreases |b|
  {
    if |b| == 1 {
      JoinMore(a, b[0]);
      assert a + b == a + [b[0]];
    } else {
      var init, last := b[..|b| - 1], b[|b| - 1];
      JoinLength(a, init);
      assert a + b == (a + init) + [last] && b == init + [last];
      JoinMore(a + init, last);
      JoinMore(init, last);
    }
  }

  lemma PartShorter(ws: seq<string>, i: nat, j: nat)
    requires i < j <= |ws|
    ensures |Join(ws[i..j])| <= |Join(ws)|
  {
    var mid := ws[i..j];
    if i > 0 {
      JoinLength(ws[..i], mid);
      assert ws[..i] + mid == ws[..j];
    } else {
      assert mid == ws[..j];
    }
    if j < |ws| {
      JoinLength(ws[..j], ws[j..]);
      assert ws[..j] + ws[j..] == ws;
    } else {
      assert ws[..j] == ws;
    }
  }

  /** Fitting a width is a notion greedy breaking is optimal for. */
  lemma RuleSound(width: nat)
    ensures Sound(Rule(width))
  {
    forall s: seq<string>, i: nat, j: nat | i < j <= |s|
      ensures PartFits(Rule(width), s, i, j)
    {
      PartShorter(s, i, j);
    }
  }

  lemma LayLegal(ws: seq<string>, width: nat)
    requires ws != []
    ensures Legal(Rule(width), Lay(ws, width), ws)
  {
    RuleSound(width);
    LinesLegal(Rule(width), ws, 0);
    assert ws[0..] == ws;
  }

  /** One paragraph: the words come out in order with none lost, every line fits the width
      or is a single over-long word, and no legal breaking has fewer lines. */
  lemma LayIsOptimal(ws: seq<string>, width: nat, other: seq<seq<string>>)
    requires ws != [] && Legal(Rule(width), other, ws)
    ensures Legal(Rule(width), Lay(ws, width), ws) && |Lay(ws, width)| <= |other|
  {
    LayLegal(ws, width);
    RuleSound(width);
    assert ws[0..] == ws;
    LinesMinimal(Rule(width), ws, 0, other);
  }

  // ---------------------------------------------------------------------
  // Whole texts
  // ---------------------------------------------------------------------

  /** Splitting at newlines. */
  function Paragraphs(text: string): (r: seq<string>)
    ensures r != []
    decreases |text|
  {
    match Find(text, '\n')
    case None => [text]
    case Some(i) => [text[..i]] + Paragraphs(text[i + 1..])
  }

  /** The lines of one paragraph. */
  function Layer(width: nat): string -> seq<string> {
    para => JoinAll(Lay(Words(para), width))
  }

  function EachLaid(paras: seq<string>, lay: string -> seq<string>): seq<string> {
    if paras == [] then [] else EachLaid(paras[..|paras| - 1], lay) + lay(paras[|paras| - 1])
  }

  function LayAll(paras: seq<string>, width: nat): seq<string> {
    EachLaid(paras, Layer(width))
  }

  lemma EachLaidMore(paras: seq<string>, i: nat, lay: string -> seq<string>)
    requires i < |paras|
    ensures EachLaid(paras[..i + 1], lay) == EachLaid(paras[..i], lay) + lay(paras[i])
  {
    assert paras[..i + 1][..i] == paras[..i];
  }

  /** Without empty lines at the end, but never without any line. */
  function Trimmed(lines: seq<string>): seq<string> {
    if |lines| > 1 && lines[|lines| - 1] == "" then Trimmed(lines[..|lines| - 1]) else lines
  }

  function Wrapped(text: string, width: nat): seq<string> {
    Trimmed(LayAll(Paragraphs(text), width))
  }

  method WrapText(text: string, width: nat) returns (lines: seq<string>)
    ensures lines == Wrapped(text, width)
  {
    lines := [];
    var paras := Paragraphs(text);
    var i := 0;
    while i < |paras|
      invariant 0 <= i <= |paras| && lines == LayAll(paras[..i], width)
    {
      SplitWords(paras[i], "");
      var more := WrapParagraph(Words(paras[i]), width);
      EachLaidMore(paras, i, Layer(width));
      lines := lines + more;
      i := i + 1;
    }
    assert paras[..i] == paras;
    while |lines| > 1 && lines[|lines| - 1] == ""
      invariant Trimmed(lines) == Wrapped(text, width)
      decreases |lines|
    {
      lines := lines[..|lines| - 1];
    }
  }

  function AllWords(lines: seq<string>): seq<string> {
    if lines == [] then [] else AllWords(lines[..|lines| - 1]) + Words(lines[|lines| - 1])
  }

  lemma {:induction false} AllWordsConcat(a: seq<string>, b: seq<string>)
    ensures AllWords(a + b) == AllWords(a) + AllWords(b)
  {
    if b == [] {
      assert a + b == a;
    } else {
      assert (a + b)[..|a + b| - 1] == a + b[..|b| - 1];
      AllWordsConcat(a, b[..|b| - 1]);
    }
  }

  lemma {:induction false} WordsOfGroups(groups: seq<seq<string>>)
    requires forall i :: 0 <= i < |groups| ==> AllAreWords(groups[i])
    ensures AllWords(JoinAll(groups)) == Concat(groups)
    decreases |groups|
  {
    if groups != [] {
      WordsOfGroups(groups[1..]);
      WordsOfJoin(groups[0]);
      JoinAllCons(groups);
      AllWordsOne(Join(groups[0]));
      AllWordsConcat([Join(groups[0])], JoinAll(groups[1..]));
    }
  }

  lemma JoinAllCons(groups: seq<seq<string>>)
    requires groups != []
    ensures JoinAll(groups) == [Join(groups[0])] + JoinAll(groups[1..])
  {
  }

  lemma AllWordsOne(line: string)
    ensures AllWords([line]) == Words(line)
  {
    assert [line][..0] == [];
  }

  lemma {:induction false} GroupsOfWords(groups: seq<seq<string>>)
    requires AllAreWords(Concat(groups))
    ensures forall i :: 0 <= i < |groups| ==> AllAreWords(groups[i])
    decreases |groups|
  {
    if groups != [] {
      var all := Concat(groups);
      assert all[..|groups[0]|] == groups[0] && all[|groups[0]|..] == Concat(groups[1..]);
      GroupsOfWords(groups[1..]);
      assert forall i :: 1 <= i < |groups| ==> groups[i] == groups[1..][i - 1];
    }
  }

  lemma ParagraphWords(para: string, width: nat)
    ensures AllWords(JoinAll(Lay(Words(para), width))) == Words(para)
  {
    var ws := Words(para);
    SplitWords(para, "");
    if ws == [] {
      var blank: seq<seq<string>> := [[]];
      WordsOfGroups(blank);
      assert Concat(blank) == [] + Concat(blank[1..]);
    } else {
      LayLegal(ws, width);
      GroupsOfWords(Lay(ws, width));
      WordsOfGroups(Lay(ws, width));
    }
  }

  lemma {:induction false} LayAllWords(paras: seq<string>, width: nat)
    ensures AllWords(LayAll(paras, width)) == AllWords(paras)
  {
    if paras != [] {
      var init, last := paras[..|paras| - 1], paras[|paras| - 1];
      LayAllWords(init, width);
      ParagraphWords(last, width);
      AllWordsConcat(LayAll(init, width), JoinAll(Lay(Words(last), width)));
    }
  }

  lemma {:induction false} TrimmedWords(lines: seq<string>)
    ensures AllWords(Trimmed(lines)) == AllWords(lines)
  {
    if |lines| > 1 && lines[|lines| - 1] == "" {
      TrimmedWords(lines[..|lines| - 1]);
    }
  }

  lemma {:induction false} ParagraphsWords(text: string)
    ensures AllWords(Paragraphs(text)) == Words(text)
    decreases |text|
  {
    match Find(text, '\n')
    case None => AllWordsOne(text);
    case Some(i) =>
      var rest := text[i + 1..];
      ParagraphsWords(rest);
      AllWordsConcat([text[..i]], Paragraphs(rest));
      AllWordsOne(text[..i]);
      SplitAtSpace(text[..i], '\n', rest, "");
      assert text[..i] + ['\n'] + rest == text;
  }

  /** Within the width, or a single word. */
  predicate FitsOrOne(width: nat, line: string) {
    |line| <= width || |Words(line)| == 1
  }

  lemma {:induction false} EachLaidAll(paras: seq<string>, lay: string -> seq<string>, good: string -> bool)
    requires forall p, l :: l in lay(p) ==> good(l)
    ensures forall l :: l in EachLaid(paras, lay) ==> good(l)
  {
    if paras != [] {
      EachLaidAll(paras[..|paras| - 1], lay, good);
    }
  }

  lemma ParagraphFits(para: string, width: nat)
    ensures forall l :: l in Layer(width)(para) ==> FitsOrOne(width, l)
  {
    var ws := Words(para);
    SplitWords(para, "");
    if ws != [] {
      LayLegal(ws, width);
      var groups := Lay(ws, width);
      GroupsOfWords(groups);
      forall i | 0 <= i < |groups|
        ensures FitsOrOne(width, Join(groups[i]))
      {
        WordsOfJoin(groups[i]);
      }
    }
  }

  lemma {:induction false} TrimmedPrefix(lines: seq<string>)
    ensures Trimmed(lines) <= lines
  {
    if |lines| > 1 && lines[|lines| - 1] == "" {
      TrimmedPrefix(lines[..|lines| - 1]);
    }
  }

  /** A whole text: its words come out in order with none lost, and every line fits the
      width or is one over-long word. */
  lemma WrapIsFaithful(text: string, width: nat)
    ensures AllWords(Wrapped(text, width)) == Words(text)
    ensures forall i :: 0 <= i < |Wrapped(text, width)| ==>
              |Wrapped(text, width)[i]| <= width || |Words(Wrapped(text, width)[i])| == 1
  {
    var paras := Paragraphs(text);
    ParagraphsWords(text);
    LayAllWords(paras, width);
    TrimmedWords(LayAll(paras, width));
    TrimmedPrefix(LayAll(paras, width));
    forall p, l | l in Layer(width)(p)
      ensures FitsOrOne(width, l)
    {
      ParagraphFits(p, width);
    }
    EachLaidAll(paras, Layer(width), l => FitsOrOne(width, l));
    forall i | 0 <= i < |Wrapped(text, width)|
      ensures FitsOrOne(width, Wrapped(text, width)[i])
    {
      assert Wrapped(text, width)[i] in LayAll(paras, width);
    }
  }

  // ---------------------------------------------------------------------
  // Paragraphs stay apart
  // ---------------------------------------------------------------------

  /** These texts with newlines in between. */
  function WithNewlines(paras: seq<string>): string {
    if paras == [] then "" else if |paras| == 1 then paras[0] else paras[0] + ['\n'] + WithNewlines(paras[1..])
  }

  /** The paragraphs of a text are what its newlines separate, each of them. */
  lemma {:induction false} ParagraphsExactly(text: string)
    ensures WithNewlines(Paragraphs(text)) == text && forall i :: 0 <= i < |Paragraphs(text)| ==> '\n' !in Paragraphs(text)[i]
    decreases |text|
  {
    match Find(text, '\n')
    case None =>
    case Some(i) =>
      var rest := text[i + 1..];
      ParagraphsExactly(rest);
      assert Paragraphs(text)[1..] == Paragraphs(rest);
      assert text == text[..i] + ['\n'] + rest;
      assert '\n' !in text[..i];
  }

  lemma {:induction false} EachLaidConcat(a: seq<string>, b: seq<string>, lay: string -> seq<string>)
    ensures EachLaid(a + b, lay) == EachLaid(a, lay) + EachLaid(b, lay)
    decreases |b|
  {
    if b == [] {
      assert a + b == a;
    } else {
      assert (a + b)[..|a + b| - 1] == a + b[..|b| - 1];
      EachLaidConcat(a, b[..|b| - 1], lay);
    }
  }

  lemma EachLaidOne(para: string, lay: string -> seq<string>)
    ensures EachLaid([para], lay) == lay(para)
  {
    assert [para][..0] == [];
  }

  lemma EachLaidThree(a: seq<string>, para: string, b: seq<string>, lay: string -> seq<string>)
    ensures EachLaid(a + ([para] + b), lay) == EachLaid(a, lay) + (lay(para) + EachLaid(b, lay))
  {
    EachLaidConcat(a, [para] + b, lay);
    EachLaidConcat([para], b, lay);
    EachLaidOne(para, lay);
  }

  function Empties(k: nat): seq<string> {
    seq(k, _ => "")
  }

  lemma {:induction false} TrimmedShape(lines: seq<string>) returns (k: nat)
    requires lines != []
    ensures Trimmed(lines) + Empties(k) == lines && Trimmed(lines) != []
    ensures |Trimmed(lines)| > 1 ==> Trimmed(lines)[|Trimmed(lines)| - 1] != ""
  {
    if |lines| > 1 && lines[|lines| - 1] == "" {
      var j := TrimmedShape(lines[..|lines| - 1]);
      k := j + 1;
      assert Empties(k) == Empties(j) + [""];
      assert lines == lines[..|lines| - 1] + [""];
    } else {
      k := 0;
    }
  }

  lemma {:induction false} EachLaidSome(paras: seq<string>, lay: string -> seq<string>)
    requires forall p :: |lay(p)| >= 1
    ensures |EachLaid(paras, lay)| >= |paras|
  {
    if paras != [] {
      EachLaidSome(paras[..|paras| - 1], lay);
    }
  }

  lemma LaySome(ws: seq<string>, width: nat)
    ensures |Lay(ws, width)| >= 1 && (ws == [] ==> JoinAll(Lay(ws, width)) == [""])
  {
  }

  lemma ApartWith(paras: seq<string>, i: nat, lay: string -> seq<string>) returns (before: seq<string>, after: seq<string>)
    requires i < |paras| && forall p :: |lay(p)| >= 1
    ensures EachLaid(paras, lay) == before + (lay(paras[i]) + after) && |before| >= i && |after| >= |paras| - 1 - i
  {
    var a, b := paras[..i], paras[i + 1..];
    EachLaidThree(a, paras[i], b, lay);
    assert paras == a + ([paras[i]] + b);
    EachLaidSome(a, lay);
    EachLaidSome(b, lay);
    before, after := EachLaid(a, lay), EachLaid(b, lay);
  }

  lemma LayerSome(width: nat)
    ensures forall p :: |Layer(width)(p)| >= 1
  {
    forall p
      ensures |Layer(width)(p)| >= 1
    {
      LaySome(Words(p), width);
    }
  }

  /** Every paragraph begins on a line of its own, after the lines of those before it; one
      without words is an empty line; only empty lines at the end are left out, and all of
      them, as long as a line remains. */
  lemma ParagraphsApart(paras: seq<string>, width: nat, i: nat) returns (k: nat, before: seq<string>, after: seq<string>)
    requires i < |paras|
    ensures var ws, lines := Words(paras[i]), Trimmed(LayAll(paras, width));
            && lines + Empties(k) == before + (JoinAll(Lay(ws, width)) + after)
            && (ws == [] ==> JoinAll(Lay(ws, width)) == [""])
            && |before| >= i && |after| >= |paras| - 1 - i
            && lines != [] && (|lines| > 1 ==> lines[|lines| - 1] != "")
  {
    LayerSome(width);
    before, after := ApartWith(paras, i, Layer(width));
    LaySome(Words(paras[i]), width);
    k := TrimmedShape(LayAll(paras, width));
  }
}
