/** How hermian/src/confmerge.rs reads single lines of a config file, and what a whole
    file says. */
module ConfLines {
  import opened Common
  import opened Text
  import opened Sections

  // ---------------------------------------------------------------------
  // Single lines
  // ---------------------------------------------------------------------

  predicate StartsWith(t: string, c: char) {
    t != "" && t[0] == c
  }

  /** An active `[table]` header, as a dotted path. */
  function Header(line: string): Option<string> {
    var t := Trim(line);
    if !StartsWith(t, '[') || StartsWith(t[1..], '[') then None
    else match Find(t, ']')
      case None => None
      case Some(end) =>
        var rest := Trim(t[end + 1..]);
        if rest != "" && !StartsWith(rest, '#') then None else Some(Trim(t[1..end]))
  }

  /** Any active header, `[[array]]` included. */
  predicate AnyHeader(line: string) {
    StartsWith(TrimStart(line), '[')
  }

  predicate IsIdent(k: string) {
    k != "" && forall i :: 0 <= i < |k| ==> 'a' <= k[i] <= 'z' || '0' <= k[i] <= '9' || k[i] == '_'
  }

  /** The identifier before the first `=`. */
  function KeyBefore(t: string): Option<string> {
    match Find(t, '=')
    case None => None
    case Some(i) => var k := Trim(t[..i]); if IsIdent(k) then Some(k) else None
  }

  /** `key` of an active `key = value` line. */
  function ActiveKey(line: string): Option<string> {
    var t := TrimStart(line);
    if StartsWith(t, '#') || StartsWith(t, '[') then None else KeyBefore(t)
  }

  /** `key` of a switched-off `#key = value` line, not of a `##` explanation. */
  function CommentedKey(line: string): Option<string> {
    var t := TrimStart(line);
    if !StartsWith(t, '#') || StartsWith(t[1..], '#') then None else KeyBefore(TrimStart(t[1..]))
  }

  function KeyOf(line: string): Option<string> {
    if ActiveKey(line).Some? then ActiveKey(line) else CommentedKey(line)
  }

  predicate Blank(line: string) {
    Trim(line) == ""
  }

  predicate Comment(line: string) {
    StartsWith(TrimStart(line), '#')
  }

  /** A line that sets nothing and opens nothing. */
  predicate Inert(line: string) {
    Blank(line) || Comment(line)
  }

  function CommentOut(line: string): string {
    if Comment(line) || Blank(line) then line else ['#'] + line
  }

  lemma InertReads(line: string)
    requires Inert(line)
    ensures Header(line).None? && !AnyHeader(line) && ActiveKey(line).None?
  {
    TrimFront(line);
    if Blank(line) {
      assert Find(TrimStart(line), '=').None?;
    }
  }

  lemma HeaderIsAnyHeader(line: string)
    requires Header(line).Some?
    ensures AnyHeader(line) && ActiveKey(line).None?
  {
    TrimFront(line);
  }

  /** Switching a setting off keeps its key readable. */
  lemma CommentOutKey(line: string)
    requires KeyOf(line).Some?
    ensures Comment(CommentOut(line)) && KeyOf(CommentOut(line)) == KeyOf(line)
  {
    if !Comment(line) {
      var off := ['#'] + line;
      assert !Blank(line) by {
        if Blank(line) { InertReads(line); }
      }
      assert TrimStart(off) == off && off[1..] == line;
      assert StartsWith(line, '#') ==> TrimStart(line) == line;
    }
  }

  lemma KeyBeforeCR(t: string)
    ensures KeyBefore(t + ['\r']) == KeyBefore(t)
  {
    FindCR(t, '=');
    match Find(t, '=')
    case Some(i) => assert (t + ['\r'])[..i] == t[..i];
    case None =>
  }

  lemma KeysCR(t: string)
    ensures KeyBefore(t + ['\r']) == KeyBefore(t)
    ensures t != "" ==> KeyBefore(TrimStart((t + ['\r'])[1..])) == KeyBefore(TrimStart(t[1..]))
    ensures t != "" ==> StartsWith((t + ['\r'])[1..], '#') == StartsWith(t[1..], '#')
  {
    KeyBeforeCR(t);
    if t != "" {
      assert (t + ['\r'])[1..] == t[1..] + ['\r'];
      TrimStartCR(t[1..]);
      KeyBeforeCR(TrimStart(t[1..]));
    }
  }

  lemma ReadsCR(s: string, line: string)
    requires line == s + ['\r']
    ensures Header(s) == Header(line) && AnyHeader(s) == AnyHeader(line)
    ensures Trim(s) == Trim(line) && KeyOf(s) == KeyOf(line) && ActiveKey(s) == ActiveKey(line)
  {
    TrimCR(s);
    TrimStartCR(s);
    KeysCR(TrimStart(s));
  }

  /** A carriage return left at the end of a line changes no reading of it. */
  lemma StripCRReads(line: string)
    ensures Header(StripCR(line)) == Header(line) && AnyHeader(StripCR(line)) == AnyHeader(line)
    ensures Trim(StripCR(line)) == Trim(line) && KeyOf(StripCR(line)) == KeyOf(line)
    ensures ActiveKey(StripCR(line)) == ActiveKey(line)
  {
    if StripCR(line) != line {
      assert line == StripCR(line) + ['\r'];
      ReadsCR(StripCR(line), line);
    }
  }

  predicate AllInert(block: seq<string>) {
    forall i :: 0 <= i < |block| ==> Inert(block[i])
  }

  lemma InertOpensNothing(block: seq<string>)
    requires AllInert(block)
    ensures OpensNothing(block, Header, AnyHeader)
  {
    forall i | 0 <= i < |block|
      ensures Header(block[i]).None? && !AnyHeader(block[i])
    {
      InertReads(block[i]);
    }
  }

  // ---------------------------------------------------------------------
  // What a file says
  // ---------------------------------------------------------------------

  /** The lines that say something, in order: settings, headers, values. */
  function Active(lines: seq<string>): seq<string> {
    if lines == [] then []
    else Active(lines[..|lines| - 1]) + (if Inert(lines[|lines| - 1]) then [] else [lines[|lines| - 1]])
  }

  lemma {:induction false} ActiveConcat(a: seq<string>, b: seq<string>)
    ensures Active(a + b) == Active(a) + Active(b)
  {
    if b == [] {
      assert a + b == a;
    } else {
      assert (a + b)[..|a + b| - 1] == a + b[..|b| - 1];
      ActiveConcat(a, b[..|b| - 1]);
    }
  }

  lemma {:induction false} ActiveInert(block: seq<string>)
    requires AllInert(block)
    ensures Active(block) == []
  {
    if block != [] {
      ActiveInert(block[..|block| - 1]);
    }
  }

  lemma ActiveAround(a: seq<string>, block: seq<string>, b: seq<string>)
    requires AllInert(block)
    ensures Active(a + block + b) == Active(a + b)
  {
    ActiveConcat(a + block, b);
    ActiveConcat(a, block);
    ActiveConcat(a, b);
    ActiveInert(block);
  }

  /** `b` is `a` with some lines satisfying `added` put in between. */
  predicate Extends(a: seq<string>, b: seq<string>, added: string -> bool)
    decreases |b|
  {
    if b == [] then a == []
    else
      var last := b[|b| - 1];
      || (a != [] && a[|a| - 1] == last && Extends(a[..|a| - 1], b[..|b| - 1], added))
      || (added(last) && Extends(a, b[..|b| - 1], added))
  }

  lemma {:induction false} ExtendsSelf(a: seq<string>, added: string -> bool)
    ensures Extends(a, a, added)
  {
    if a != [] {
      ExtendsSelf(a[..|a| - 1], added);
    }
  }

  lemma {:induction false} ExtendsInsert(a: seq<string>, b: seq<string>, at: nat, block: seq<string>, added: string -> bool)
    requires at <= |b| && Extends(a, b, added)
    requires forall i :: 0 <= i < |block| ==> added(block[i])
    ensures Extends(a, InsertLines(b, at, block), added)
    decreases |b|, |block|
  {
    var b' := InsertLines(b, at, block);
    if at < |b| {
      var init := b[..|b| - 1];
      assert b'[..|b'| - 1] == InsertLines(init, at, block);
      if a != [] && a[|a| - 1] == b[|b| - 1] && Extends(a[..|a| - 1], init, added) {
        ExtendsInsert(a[..|a| - 1], init, at, block, added);
      } else {
        ExtendsInsert(a, init, at, block, added);
      }
    } else if block == [] {
      assert b' == b;
    } else {
      ExtendsInsert(a, b, at, block[..|block| - 1], added);
      assert b'[..|b'| - 1] == InsertLines(b, at, block[..|block| - 1]);
    }
  }

  /** Inert additions say nothing new. */
  lemma {:induction false} ExtendsActive(a: seq<string>, b: seq<string>, added: string -> bool)
    requires Extends(a, b, added) && forall l :: added(l) ==> Inert(l)
    ensures Active(b) == Active(a)
    decreases |b|
  {
    if b != [] {
      var init := b[..|b| - 1];
      if a != [] && a[|a| - 1] == b[|b| - 1] && Extends(a[..|a| - 1], init, added) {
        ExtendsActive(a[..|a| - 1], init, added);
      } else {
        ExtendsActive(a, init, added);
      }
    }
  }
}
