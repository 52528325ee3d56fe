/** Lines of text as Rust's standard library cuts and trims them. */
module Text {
  import opened Common

  /** `char::is_whitespace`: the Unicode White_Space property. */
  predicate IsSpace(c: char) {
    var n := c as int;
    || 0x9 <= n <= 0xD || n == 0x20 || n == 0x85 || n == 0xA0 || n == 0x1680
    || 0x2000 <= n <= 0x200A || n == 0x2028 || n == 0x2029 || n == 0x202F || n == 0x205F || n == 0x3000
  }

  function TrimStart(s: string): (r: string)
    ensures r != "" ==> !IsSpace(r[0])
  {
    if s != "" && IsSpace(s[0]) then TrimStart(s[1..]) else s
  }

  function TrimEnd(s: string): (r: string)
    ensures r != "" ==> !IsSpace(r[|r| - 1])
  {
    if s != "" && IsSpace(s[|s| - 1]) then TrimEnd(s[..|s| - 1]) else s
  }

  function Trim(s: string): string {
    TrimEnd(TrimStart(s))
  }

  /** Position of the first `c`. */
  function Find(s: string, c: char): (r: Option<nat>)
    ensures r.Some? ==> r.value < |s| && s[r.value] == c && forall i :: 0 <= i < r.value ==> s[i] != c
    ensures r.None? ==> c !in s
  {
    if s == "" then None
    else if s[0] == c then Some(0)
    else match Find(s[1..], c)
      case None => None
      case Some(i) => Some(i + 1)
  }

  lemma FindUnique(s: string, c: char, i: nat)
    requires i < |s| && s[i] == c && forall j :: 0 <= j < i ==> s[j] != c
    ensures Find(s, c) == Some(i)
  {
  }

  lemma {:induction false} TrimEndKeepsFront(s: string)
    requires s != "" && !IsSpace(s[0])
    ensures TrimEnd(s) != "" && TrimEnd(s)[0] == s[0]
  {
    if IsSpace(s[|s| - 1]) {
      TrimEndKeepsFront(s[..|s| - 1]);
    }
  }

  /** Trimming both ends starts where trimming the front does. */
  lemma TrimFront(s: string)
    ensures Trim(s) == "" <==> TrimStart(s) == ""
    ensures Trim(s) != "" ==> Trim(s)[0] == TrimStart(s)[0]
  {
    if TrimStart(s) != "" {
      TrimEndKeepsFront(TrimStart(s));
    }
  }

  /** A line without outer blanks is its own trimming. */
  lemma TrimSelf(s: string)
    requires s != "" && !IsSpace(s[0]) && !IsSpace(s[|s| - 1])
    ensures Trim(s) == s
  {
  }

  // ---------------------------------------------------------------------
  // Splitting and joining
  // ---------------------------------------------------------------------

  /** A line without the carriage return of a CRLF ending. */
  function StripCR(s: string): string {
    if s != "" && s[|s| - 1] == '\r' then s[..|s| - 1] else s
  }

  /** `str::lines`. */
  function Lines(text: string): (r: seq<string>)
    ensures forall i :: 0 <= i < |r| ==> '\n' !in r[i]
    decreases |text|
  {
    if text == "" then []
    else match Find(text, '\n')
      case None => [text]
      case Some(i) => [StripCR(text[..i])] + Lines(text[i + 1..])
  }

  /** The lines joined, with a final newline. */
  function Unlines(lines: seq<string>): string {
    if lines == [] then [] else lines[0] + ['\n'] + Unlines(lines[1..])
  }

  function StripAll(lines: seq<string>): (r: seq<string>)
    ensures |r| == |lines| && forall i :: 0 <= i < |r| ==> r[i] == StripCR(lines[i])
  {
    seq(|lines|, i requires 0 <= i < |lines| => StripCR(lines[i]))
  }

  lemma LinesCons(first: string, rest: string)
    requires '\n' !in first
    ensures Lines(first + ['\n'] + rest) == [StripCR(first)] + Lines(rest)
  {
    var text := first + ['\n'] + rest;
    FindUnique(text, '\n', |first|);
    assert text[..|first|] == first && text[|first| + 1..] == rest;
  }

  lemma StripAllCons(lines: seq<string>)
    requires lines != []
    ensures StripAll(lines) == [StripCR(lines[0])] + StripAll(lines[1..])
  {
  }

  /** Reading back joined lines gives them again, less one carriage return each. */
  lemma {:induction false} LinesOfUnlines(lines: seq<string>)
    requires forall i :: 0 <= i < |lines| ==> '\n' !in lines[i]
    ensures Lines(Unlines(lines)) == StripAll(lines)
    decreases |lines|
  {
    if lines != [] {
      LinesCons(lines[0], Unlines(lines[1..]));
      LinesOfUnlines(lines[1..]);
      StripAllCons(lines);
    }
  }

  // ---------------------------------------------------------------------
  // A trailing carriage return is blank
  // ---------------------------------------------------------------------

  lemma {:induction false} TrimStartCR(s: string)
    ensures TrimStart(s + ['\r']) == if TrimStart(s) == "" then "" else TrimStart(s) + ['\r']
  {
    if s == "" {
      assert s + ['\r'] == ['\r'];
      assert TrimStart(s + ['\r']) == TrimStart((s + ['\r'])[1..]);
    } else if IsSpace(s[0]) {
      assert (s + ['\r'])[1..] == s[1..] + ['\r'];
      TrimStartCR(s[1..]);
    }
  }

  lemma TrimCR(s: string)
    ensures Trim(s + ['\r']) == Trim(s)
  {
    TrimStartCR(s);
    var t := TrimStart(s);
    if t != "" {
      assert (t + ['\r'])[..|t|] == t;
    }
  }

  lemma {:induction false} FindCR(s: string, c: char)
    requires c != '\r'
    ensures Find(s + ['\r'], c) == Find(s, c)
  {
    match Find(s, c)
    case Some(i) => FindUnique(s + ['\r'], c, i);
    case None => assert c !in s + ['\r'];
  }
}
