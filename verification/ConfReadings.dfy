/** What hermian/src/confmerge.rs takes for a setting, a setting that is switched off and a
    section header, exactly, as texts put together from their parts. */
module ConfReadings {
  import opened Common
  import opened Text
  import opened ConfLines

  predicate Spaces(s: string) {
    forall i :: 0 <= i < |s| ==> IsSpace(s[i])
  }

  /** Without white space at either end. */
  predicate Tight(s: string) {
    s == "" || (!IsSpace(s[0]) && !IsSpace(s[|s| - 1]))
  }

  // ---------------------------------------------------------------------
  // Trimming, exactly
  // ---------------------------------------------------------------------

  lemma {:induction false} TrimStartDrops(a: string, t: string)
    requires Spaces(a) && (t == "" || !IsSpace(t[0]))
    ensures TrimStart(a + t) == t
  {
    if a == "" {
      assert a + t == t;
    } else {
      assert (a + t)[1..] == a[1..] + t;
      TrimStartDrops(a[1..], t);
    }
  }

  lemma {:induction false} TrimEndDrops(t: string, b: string)
    requires Spaces(b) && (t == "" || !IsSpace(t[|t| - 1]))
    ensures TrimEnd(t + b) == t
    decreases |b|
  {
    if b == "" {
      assert t + b == t;
    } else {
      assert (t + b)[..|t + b| - 1] == t + b[..|b| - 1];
      TrimEndDrops(t, b[..|b| - 1]);
    }
  }

  lemma TrimDrops(a: string, t: string, b: string)
    requires Spaces(a) && Spaces(b) && Tight(t)
    ensures Trim(a + t + b) == t
  {
    if t == "" {
      assert a + t + b == (a + b) + "";
      TrimStartDrops(a + b, "");
    } else {
      assert a + t + b == a + (t + b);
      TrimStartDrops(a, t + b);
      TrimEndDrops(t, b);
    }
  }

  lemma {:induction false} TrimStartLeaves(s: string) returns (a: string)
    ensures Spaces(a) && s == a + TrimStart(s)
  {
    if s != "" && IsSpace(s[0]) {
      var rest := TrimStartLeaves(s[1..]);
      a := [s[0]] + rest;
      assert s == [s[0]] + s[1..];
    } else {
      a := "";
    }
  }

  lemma {:induction false} TrimEndLeaves(s: string) returns (b: string)
    ensures Spaces(b) && s == TrimEnd(s) + b
  {
    if s != "" && IsSpace(s[|s| - 1]) {
      var rest := TrimEndLeaves(s[..|s| - 1]);
      b := rest + [s[|s| - 1]];
      assert s == s[..|s| - 1] + [s[|s| - 1]];
    } else {
      b := "";
    }
  }

  lemma TrimLeaves(s: string) returns (a: string, b: string)
    ensures Spaces(a) && Spaces(b) && Tight(Trim(s)) && s == a + Trim(s) + b
  {
    a := TrimStartLeaves(s);
    b := TrimEndLeaves(TrimStart(s));
    if Trim(s) != "" {
      TrimFront(s);
    }
  }

  // ---------------------------------------------------------------------
  // Settings
  // ---------------------------------------------------------------------

  /** One or more of `a` to `z`, `0` to `9` and `_`. */
  predicate Name(k: string) {
    |k| > 0 && forall i :: 0 <= i < |k| ==> ('a' <= k[i] && k[i] <= 'z') || ('0' <= k[i] && k[i] <= '9') || k[i] == '_'
  }

  lemma NameIsTight(k: string)
    requires Name(k)
    ensures Tight(k) && IsIdent(k) && '=' !in k && k[0] != '#' && k[0] != '['
  {
  }

  /** `key = value`, with any white space in front of the key and of the sign. */
  predicate Sets(line: string, a: string, k: string, b: string, value: string) {
    Spaces(a) && Name(k) && Spaces(b) && line == a + (k + b + ['='] + value)
  }

  /** `#key = value`, with any white space also after the `#`. */
  predicate SetsOff(line: string, a: string, b: string, k: string, c: string, value: string) {
    Spaces(a) && Spaces(b) && Name(k) && Spaces(c) && line == a + (['#'] + (b + (k + c + ['='] + value)))
  }

  lemma KeyFound(k: string, b: string, value: string)
    requires Name(k) && Spaces(b)
    ensures KeyBefore(k + b + ['='] + value) == Some(k)
  {
    var t := k + b + ['='] + value;
    NameIsTight(k);
    var i := |k + b|;
    assert t[..i] == k + b;
    assert forall j :: 0 <= j < i ==> t[j] != '=' by {
      assert forall j :: 0 <= j < |k| ==> (k + b)[j] == k[j];
      assert forall j :: |k| <= j < i ==> (k + b)[j] == b[j - |k|];
    }
    FindUnique(t, '=', i);
    TrimDrops("", k, b);
    assert "" + k + b == k + b;
  }

  lemma KeySplits(t: string, k: string) returns (a: string, b: string, value: string)
    requires KeyBefore(t) == Some(k)
    ensures Spaces(a) && Name(k) && Spaces(b) && t == a + (k + b + ['='] + value)
  {
    var i := Find(t, '=').value;
    var front := t[..i];
    value := t[i + 1..];
    FoundSplits(t, '=', i);
    a, b := TrimLeaves(front);
    Rejoin(a, k, b, ['='], value);
  }

  lemma FoundSplits(t: string, c: char, i: nat)
    requires i < |t| && t[i] == c
    ensures t == t[..i] + [c] + t[i + 1..]
  {
  }

  lemma Rejoin(a: string, k: string, b: string, sign: string, value: string)
    ensures a + k + b + sign + value == a + (k + b + sign + value)
  {
  }

  lemma ActiveSplits(line: string, k: string) returns (a: string, b: string, value: string)
    requires ActiveKey(line) == Some(k)
    ensures Sets(line, a, k, b, value)
  {
    var front := TrimStartLeaves(line);
    var inner;
    inner, b, value := KeySplits(TrimStart(line), k);
    a := front + inner;
    assert line == front + (inner + (k + b + ['='] + value));
  }

  lemma ActiveRead(line: string, a: string, k: string, b: string, value: string)
    requires Sets(line, a, k, b, value)
    ensures ActiveKey(line) == Some(k)
  {
    var t := k + b + ['='] + value;
    NameIsTight(k);
    assert t[0] == k[0];
    TrimStartDrops(a, t);
    KeyFound(k, b, value);
  }

  /** A line is read as setting `k` exactly if it is so put together. */
  lemma ActiveKeyExactly(line: string, k: string)
    ensures ActiveKey(line) == Some(k) <==> exists a, b, value :: Sets(line, a, k, b, value)
  {
    if ActiveKey(line) == Some(k) {
      var a, b, value := ActiveSplits(line, k);
    }
    if a, b, value :| Sets(line, a, k, b, value) {
      ActiveRead(line, a, k, b, value);
    }
  }

  /** A line is read as setting `k`, switched off, exactly if it is so put together. */
  lemma CommentedKeyExactly(line: string, k: string)
    ensures CommentedKey(line) == Some(k) <==> exists a, b, c, value :: SetsOff(line, a, b, k, c, value)
  {
    if CommentedKey(line) == Some(k) {
      var a, b, c, value := CommentedSplits(line, k);
    }
    if a, b, c, value :| SetsOff(line, a, b, k, c, value) {
      CommentedRead(line, a, b, k, c, value);
    }
  }

  lemma CommentedSplits(line: string, k: string) returns (a: string, b: string, c: string, value: string)
    requires CommentedKey(line) == Some(k)
    ensures SetsOff(line, a, b, k, c, value)
  {
    var t := TrimStart(line);
    a := TrimStartLeaves(line);
    var gap := TrimStartLeaves(t[1..]);
    var rest := TrimStart(t[1..]);
    var inner;
    inner, c, value := KeySplits(rest, k);
    b := gap + inner;
    Behind(t, gap, inner, rest, k + c + ['='] + value);
  }

  lemma Behind(t: string, gap: string, inner: string, rest: string, body: string)
    requires t != "" && t[0] == '#' && t[1..] == gap + rest && rest == inner + body
    ensures t == ['#'] + ((gap + inner) + body)
  {
    assert t == ['#'] + t[1..] && gap + (inner + body) == (gap + inner) + body;
  }

  lemma CommentedRead(line: string, a: string, b: string, k: string, c: string, value: string)
    requires SetsOff(line, a, b, k, c, value)
    ensures CommentedKey(line) == Some(k)
  {
    var body := k + c + ['='] + value;
    var t := ['#'] + (b + body);
    NameIsTight(k);
    assert body[0] == k[0];
    TrimStartDrops(a, t);
    assert t[1..] == b + body;
    assert (b + body)[0] == if b == "" then k[0] else b[0];
    TrimStartDrops(b, body);
    KeyFound(k, c, value);
  }

  // ---------------------------------------------------------------------
  // Headers
  // ---------------------------------------------------------------------

  /** `[path]`, with any white space around the brackets and inside them, and nothing but a
      comment after it; not `[[`. */
  predicate Opens(line: string, a: string, b: string, path: string, c: string, d: string, rest: string) {
    && Spaces(a) && Spaces(b) && Spaces(c) && Spaces(d) && Tight(path) && ']' !in path
    && (b == "" && path != "" ==> path[0] != '[')
    && (rest == "" || rest[0] == '#')
    && line == a + (['['] + (b + path + c) + [']'] + (d + rest))
  }

  lemma AfterSplits(after: string, back: string) returns (d: string, rest: string)
    requires Spaces(back) && (Trim(after) == "" || Trim(after)[0] == '#')
    ensures Spaces(d) && (rest == "" || rest[0] == '#') && after + back == d + rest
  {
    var z;
    d, z := TrimLeaves(after);
    rest := Trim(after) + z + back;
    if Trim(after) == "" {
      assert after + back == (d + z + back) + "";
      d, rest := d + z + back, "";
    }
  }

  lemma BracketSplits(t: string, end: nat) returns (inner: string, after: string)
    requires t != "" && t[0] == '[' && Find(t, ']') == Some(end)
    ensures 1 <= end < |t| && inner == t[1..end] && after == t[end + 1..]
    ensures t == ['['] + inner + [']'] + after && ']' !in inner && (inner != "" ==> inner[0] == t[1])
  {
    inner, after := t[1..end], t[end + 1..];
    forall i | 0 <= i < |inner|
      ensures inner[i] != ']'
    {
      assert inner[i] == t[i + 1];
    }
  }

  lemma HeaderSplits(line: string, path: string) returns (a: string, b: string, c: string, d: string, rest: string)
    requires Header(line) == Some(path)
    ensures Opens(line, a, b, path, c, d, rest)
  {
    var t := Trim(line);
    var inner, after := BracketSplits(t, Find(t, ']').value);
    var back;
    a, back := TrimLeaves(line);
    b, c := TrimLeaves(inner);
    d, rest := AfterSplits(after, back);
    PathHasNone(b, path, c, inner);
    OpensJoined(line, a, inner, after, back, d, rest);
  }

  lemma OpensJoined(line: string, a: string, inner: string, after: string, back: string, d: string, rest: string)
    requires line == a + (['['] + inner + [']'] + after) + back && after + back == d + rest
    ensures line == a + (['['] + inner + [']'] + (d + rest))
  {
    assert line == a + (['['] + inner + [']'] + (after + back));
  }

  lemma PathHasNone(b: string, path: string, c: string, inner: string)
    requires inner == b + path + c && ']' !in inner
    ensures ']' !in path && (path != "" && b == "" ==> inner != "" && inner[0] == path[0])
  {
    forall i | 0 <= i < |path|
      ensures path[i] != ']'
    {
      assert inner[|b| + i] == path[i];
    }
  }

  lemma {:induction false} TrimEndKeeps(t: string, b: string)
    requires t != "" && !IsSpace(t[|t| - 1])
    ensures TrimEnd(t + b) == t + TrimEnd(b)
    decreases |b|
  {
    if b == "" {
      assert t + b == t;
    } else {
      assert (t + b)[..|t + b| - 1] == t + b[..|b| - 1];
      TrimEndKeeps(t, b[..|b| - 1]);
    }
  }

  lemma HashFirst(d: string, back: string)
    requires Spaces(d)
    ensures var x := Trim(d + (['#'] + back)); x != "" && x[0] == '#'
  {
    TrimStartDrops(d, ['#'] + back);
    TrimFront(d + (['#'] + back));
  }

  lemma HashStays(d: string, rest: string)
    requires rest != "" && rest[0] == '#'
    ensures TrimEnd(d + rest) == d + (['#'] + TrimEnd(rest[1..]))
  {
    assert d + rest == (d + ['#']) + rest[1..];
    TrimEndKeeps(d + ['#'], rest[1..]);
  }

  lemma CommentAfter(d: string, rest: string)
    requires Spaces(d) && (rest == "" || rest[0] == '#')
    ensures var x := Trim(TrimEnd(d + rest)); x == "" || x[0] == '#'
  {
    if rest == "" {
      assert d + rest == "" + d;
      TrimEndDrops("", d);
    } else {
      HashStays(d, rest);
      HashFirst(d, TrimEnd(rest[1..]));
    }
  }

  lemma InnerEnd(b: string, path: string, c: string, t: string, tail: string)
    requires Spaces(b) && Spaces(c) && ']' !in path && t == ['['] + (b + path + c) + [']'] + tail
    ensures Find(t, ']') == Some(|b + path + c| + 1)
    ensures t[1..|b + path + c| + 1] == b + path + c && t[|b + path + c| + 2..] == tail
  {
    var inner := b + path + c;
    forall i | 0 <= i < |inner|
      ensures inner[i] != ']'
    {
      if |b| <= i < |b| + |path| {
        assert inner[i] == path[i - |b|];
      } else if i < |b| {
        assert inner[i] == b[i];
      } else {
        assert inner[i] == c[i - |b| - |path|];
      }
    }
    assert forall j :: 1 <= j <= |inner| ==> t[j] == inner[j - 1];
    FindUnique(t, ']', |inner| + 1);
  }

  lemma HeaderJoins(line: string, a: string, b: string, path: string, c: string, d: string, rest: string)
    requires Opens(line, a, b, path, c, d, rest)
    ensures Header(line) == Some(path)
  {
    var inner := b + path + c;
    var head := ['['] + inner + [']'];
    TrimStartDrops(a, head + (d + rest));
    TrimEndKeeps(head, d + rest);
    var t := Trim(line);
    assert t == head + TrimEnd(d + rest);
    InnerEnd(b, path, c, t, TrimEnd(d + rest));
    CommentAfter(d, rest);
    TrimDrops(b, path, c);
    NotDouble(b, path, c, inner);
    assert t[1] == (inner + [']'])[0];
  }

  lemma NotDouble(b: string, path: string, c: string, inner: string)
    requires Spaces(b) && Spaces(c) && (b == "" && path != "" ==> path[0] != '[') && inner == b + path + c
    ensures (inner + [']'])[0] != '['
  {
    if inner != "" {
      assert inner[0] == if b != "" then b[0] else if path != "" then path[0] else c[0];
    }
  }

  /** A line is read as the header of `path` exactly if it is so put together. */
  lemma HeaderExactly(line: string, path: string)
    ensures Header(line) == Some(path) <==> exists a, b, c, d, rest :: Opens(line, a, b, path, c, d, rest)
  {
    if Header(line) == Some(path) {
      var a, b, c, d, rest := HeaderSplits(line, path);
    }
    if a, b, c, d, rest :| Opens(line, a, b, path, c, d, rest) {
      HeaderJoins(line, a, b, path, c, d, rest);
    }
  }

  // ---------------------------------------------------------------------
  // Other lines
  // ---------------------------------------------------------------------

  predicate Begins(line: string, a: string, c: char, rest: string) {
    Spaces(a) && line == a + ([c] + rest)
  }

  lemma BeginsRead(line: string, a: string, c: char, rest: string)
    requires !IsSpace(c) && Begins(line, a, c, rest)
    ensures StartsWith(TrimStart(line), c)
  {
    TrimStartDrops(a, [c] + rest);
  }

  lemma BeginsSplits(line: string, c: char) returns (a: string, rest: string)
    requires StartsWith(TrimStart(line), c)
    ensures Begins(line, a, c, rest)
  {
    var t := TrimStart(line);
    a := TrimStartLeaves(line);
    rest := t[1..];
    assert t == [c] + rest;
  }

  lemma BeginsExactly(line: string, c: char)
    requires !IsSpace(c)
    ensures StartsWith(TrimStart(line), c) <==> exists a, rest :: Begins(line, a, c, rest)
  {
    if StartsWith(TrimStart(line), c) {
      var a, rest := BeginsSplits(line, c);
    }
    if a, rest :| Begins(line, a, c, rest) {
      BeginsRead(line, a, c, rest);
    }
  }

  /** A comment has `#` first, a header of any kind `[`, and a blank line nothing, but for
      white space. */
  lemma OtherLinesExactly(line: string)
    ensures Comment(line) <==> exists a, rest :: Begins(line, a, '#', rest)
    ensures AnyHeader(line) <==> exists a, rest :: Begins(line, a, '[', rest)
    ensures Blank(line) <==> Spaces(line)
  {
    BeginsExactly(line, '#');
    BeginsExactly(line, '[');
    if Blank(line) {
      var a, b := TrimLeaves(line);
    }
    if Spaces(line) {
      assert line + "" + "" == line;
      TrimDrops(line, "", "");
    }
  }
}
