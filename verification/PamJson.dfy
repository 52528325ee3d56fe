/** The datagram the PAM module writes without a JSON library, hermian-pam/src/lib.rs,
    against a reader of JSON strings (section 7 of RFC 8259), integers and flat objects. */
module PamJson {
  import opened Common
  import opened RefIds

  // ---------------------------------------------------------------------
  // Writing
  // ---------------------------------------------------------------------

  function HexDigit(n: nat): char
    requires n < 16
  {
    if n < 10 then '0' + n as char else 'a' + (n - 10) as char
  }

  /** One character, escaped. */
  function Esc(c: char): (r: string)
    ensures r != ""
  {
    if c == '"' then ['\\', '"']
    else if c == '\\' then ['\\', '\\']
    else if c == '\n' then ['\\', 'n']
    else if c == '\r' then ['\\', 'r']
    else if c == '\t' then ['\\', 't']
    else if c < 0x20 as char then
      ['\\', 'u', '0', '0', HexDigit(c as nat / 16 % 16), HexDigit(c as nat % 16)]
    else [c]
  }

  /** Every character rewritten, in order. */
  function FlatMap(f: char -> string, s: string): string {
    if s == "" then "" else FlatMap(f, s[..|s| - 1]) + f(s[|s| - 1])
  }

  function EscAll(s: string): string {
    FlatMap(Esc, s)
  }

  datatype Field = Field(key: string, value: string)

  /** `,"key":"value"` */
  function Emit(f: Field): string {
    [',', '"'] + f.key + ['"', ':', '"'] + EscAll(f.value) + ['"']
  }

  function EmitAll(fields: seq<Field>): string {
    if fields == [] then "" else EmitAll(fields[..|fields| - 1]) + Emit(fields[|fields| - 1])
  }

  function Payload(ts: nat, fields: seq<Field>): string {
    ['{', '"', 't', 's', '"', ':'] + Decimal(ts) + EmitAll(fields) + ['}']
  }

  /** What one authentication report says. */
  function Report(result: string, user: string, rhost: string, service: string, tty: string): seq<Field> {
    [Field("result", result), Field("user", user), Field("rhost", rhost), Field("service", service), Field("tty", tty)]
  }

  method EscapeChar(out: string, c: char) returns (out': string)
    ensures out' == out + Esc(c)
  {
    if c == '"' {
      out' := out + ['\\', '"'];
    } else if c == '\\' {
      out' := out + ['\\', '\\'];
    } else if c == '\n' {
      out' := out + ['\\', 'n'];
    } else if c == '\r' {
      out' := out + ['\\', 'r'];
    } else if c == '\t' {
      out' := out + ['\\', 't'];
    } else if c < 0x20 as char {
      out' := out + ['\\', 'u', '0', '0'];
      out' := out' + [HexDigit(c as nat / 16 % 16)];
      out' := out' + [HexDigit(c as nat % 16)];
    } else {
      out' := out + [c];
    }
  }

  /** `json_escape_into`. */
  method EscapeInto(out: string, s: string) returns (out': string)
    ensures out' == out + EscAll(s)
  {
    out' := out;
    var i := 0;
    while i < |s|
      invariant 0 <= i <= |s| && out' == out + EscAll(s[..i])
    {
      assert s[..i + 1][..i] == s[..i];
      out' := EscapeChar(out', s[i]);
      i := i + 1;
    }
    assert s[..i] == s;
  }

  method WriteField(out: string, f: Field) returns (out': string)
    ensures out' == out + Emit(f)
  {
    out' := out + [',', '"'];
    out' := out' + f.key;
    out' := out' + ['"', ':', '"'];
    out' := EscapeInto(out', f.value);
    out' := out' + ['"'];
  }

  method WriteFields(out: string, fields: seq<Field>) returns (out': string)
    ensures out' == out + EmitAll(fields)
  {
    out' := out;
    var i := 0;
    while i < |fields|
      invariant 0 <= i <= |fields| && out' == out + EmitAll(fields[..i])
    {
      assert fields[..i + 1][..i] == fields[..i];
      out' := WriteField(out', fields[i]);
      i := i + 1;
    }
    assert fields[..i] == fields;
  }

  /** `payload`. */
  method WritePayload(ts: nat, result: string, user: string, rhost: string, service: string, tty: string) returns (out: string)
    ensures out == Payload(ts, Report(result, user, rhost, service, tty))
  {
    out := ['{', '"', 't', 's', '"', ':'];
    out := out + Decimal(ts);
    out := WriteFields(out, Report(result, user, rhost, service, tty));
    out := out + ['}'];
  }

  // ---------------------------------------------------------------------
  // Reading
  // ---------------------------------------------------------------------

  function HexValue(c: char): Option<nat> {
    if '0' <= c <= '9' then Some((c - '0') as nat)
    else if 'a' <= c <= 'f' then Some((c - 'a') as nat + 10)
    else if 'A' <= c <= 'F' then Some((c - 'A') as nat + 10)
    else None
  }

  /** Four hex digits. */
  function Hex4(s: string): Option<nat>
    requires |s| >= 4
  {
    var a, b, c, d := HexValue(s[0]), HexValue(s[1]), HexValue(s[2]), HexValue(s[3]);
    if a.None? || b.None? || c.None? || d.None? then None
    else Some(a.value * 4096 + b.value * 256 + c.value * 16 + d.value)
  }

  /** What a two-character escape stands for. */
  function Simple(c: char): Option<char> {
    if c == '"' || c == '\\' || c == '/' then Some(c)
    else if c == 'b' then Some(0x08 as char)
    else if c == 'f' then Some(0x0C as char)
    else if c == 'n' then Some('\n')
    else if c == 'r' then Some('\r')
    else if c == 't' then Some('\t')
    else None
  }

  datatype Read<+T> = Got(value: T, rest: string) | Bad

  /** One character of a JSON string, escapes undone; surrogates must come in pairs. */
  function ReadChar(s: string): (r: Read<char>)
    requires s != ""
    ensures r.Got? ==> |r.rest| < |s|
  {
    if s[0] < 0x20 as char || s[0] == '"' then Bad
    else if s[0] != '\\' then Got(s[0], s[1..])
    else if |s| < 2 then Bad
    else if s[1] != 'u' then
      (match Simple(s[1]) case Some(c) => Got(c, s[2..]) case None => Bad)
    else if |s| < 6 || Hex4(s[2..]).None? then Bad
    else
      var n := Hex4(s[2..]).value;
      if n < 0xD800 || 0xE000 <= n < 0x10000 then Got(n as char, s[6..])
      else ReadLow(n, s)
  }

  function ReadLow(high: nat, s: string): (r: Read<char>)
    requires |s| >= 6
    ensures r.Got? ==> |r.rest| < |s|
  {
    if high >= 0xDC00 || |s| < 12 || s[6] != '\\' || s[7] != 'u' || Hex4(s[8..]).None? then Bad
    else
      var low := Hex4(s[8..]).value;
      if high < 0xD800 || low < 0xDC00 || low >= 0xE000 then Bad
      else Got((0x10000 + (high - 0xD800) * 0x400 + (low - 0xDC00)) as char, s[12..])
  }

  /** The rest of a string after its opening quote. */
  function ReadString(s: string): (r: Read<string>)
    ensures r.Got? ==> |r.rest| < |s|
    decreases |s|
  {
    if s == "" then Bad
    else if s[0] == '"' then Got("", s[1..])
    else match ReadChar(s)
      case Bad => Bad
      case Got(c, rest) =>
        match ReadString(rest)
        case Bad => Bad
        case Got(tail, rest') => Got([c] + tail, rest')
  }

  function DigitsOf(s: string): (n: nat)
    ensures n <= |s| && AllDigits(s[..n])
    ensures n < |s| ==> !('0' <= s[n] <= '9')
    decreases |s|
  {
    if s == "" || !('0' <= s[0] <= '9') then 0 else 1 + DigitsOf(s[1..])
  }

  /** An integer: digits, with no zero in front unless it is alone. */
  function ReadNat(s: string): (r: Read<nat>)
    ensures r.Got? ==> |r.rest| < |s|
  {
    var n := DigitsOf(s);
    if n == 0 || (s[0] == '0' && n > 1) then Bad else Got(Value(s[..n]), s[n..])
  }

  datatype Json = Number(n: nat) | Text(s: string)

  function ReadValue(s: string): (r: Read<Json>)
    ensures r.Got? ==> |r.rest| < |s|
  {
    if s == "" then Bad
    else if s[0] == '"' then
      (match ReadString(s[1..]) case Got(t, rest) => Got(Text(t), rest) case Bad => Bad)
    else
      match ReadNat(s) case Got(n, rest) => Got(Number(n), rest) case Bad => Bad
  }

  datatype Entry = Entry(key: string, value: Json)

  /** `"key":value` */
  function ReadEntry(s: string): (r: Read<Entry>)
    ensures r.Got? ==> |r.rest| < |s|
  {
    if s == "" || s[0] != '"' then Bad
    else match ReadString(s[1..])
      case Bad => Bad
      case Got(key, rest) =>
        if rest == "" || rest[0] != ':' then Bad
        else match ReadValue(rest[1..])
          case Bad => Bad
          case Got(v, rest') => Got(Entry(key, v), rest')
  }

  /** The entries of an object up to its closing brace. */
  function ReadEntries(s: string): Read<seq<Entry>>
    decreases |s|
  {
    match ReadEntry(s)
    case Bad => Bad
    case Got(e, rest) =>
      if rest == "" then Bad
      else if rest[0] == '}' then Got([e], rest[1..])
      else if rest[0] != ',' then Bad
      else match ReadEntries(rest[1..])
        case Bad => Bad
        case Got(more, rest') => Got([e] + more, rest')
  }

  /** A whole text that is one flat object without blanks. */
  function ReadObject(s: string): Option<seq<Entry>> {
    if s == "" || s[0] != '{' then None
    else match ReadEntries(s[1..])
      case Bad => None
      case Got(entries, rest) => if rest == "" then Some(entries) else None
  }

  // ---------------------------------------------------------------------
  // What is read is what was written
  // ---------------------------------------------------------------------

  lemma EscReads(c: char, rest: string)
    ensures ReadChar(Esc(c) + rest) == Got(c, rest)
    ensures (Esc(c) + rest)[0] != '"'
  {
    var e := Esc(c);
    var s := e + rest;
    if |e| == 6 {
      ControlReads(c);
      assert s[2..][0] == e[2] && s[2..][1] == e[3] && s[2..][2] == e[4] && s[2..][3] == e[5];
      assert s[6..] == rest;
    } else if |e| == 2 {
      assert s[2..] == rest;
    } else {
      assert s[1..] == rest;
    }
  }

  lemma ControlReads(c: char)
    requires c < 0x20 as char
    ensures HexValue(HexDigit(c as nat / 16 % 16)) == Some(c as nat / 16 % 16)
    ensures HexValue(HexDigit(c as nat % 16)) == Some(c as nat % 16)
    ensures c as nat / 16 % 16 * 16 + c as nat % 16 == c as nat
  {
  }

  /** Rewriting from the front. */
  lemma {:induction false} FlatMapCons(f: char -> string, s: string)
    requires s != ""
    ensures FlatMap(f, s) == f(s[0]) + FlatMap(f, s[1..])
    decreases |s|
  {
    if |s| == 1 {
      assert s[..0] == "" && s[1..] == "";
    } else {
      var init, rest := s[..|s| - 1], s[1..];
      FlatMapCons(f, init);
      assert init[1..] == rest[..|rest| - 1] && rest[|rest| - 1] == s[|s| - 1];
      Assoc(f(s[0]), FlatMap(f, init[1..]), f(s[|s| - 1]));
    }
  }

  lemma Assoc(a: string, b: string, c: string)
    ensures (a + b) + c == a + (b + c)
  {
  }

  lemma StringStep(s: string, c: char, rest: string, tail: string, rest': string)
    requires s != "" && s[0] != '"' && ReadChar(s) == Got(c, rest) && ReadString(rest) == Got(tail, rest')
    ensures ReadString(s) == Got([c] + tail, rest')
  {
  }

  lemma StringEnd(s: string, rest: string)
    requires s == ['"'] + rest
    ensures ReadString(s) == Got("", rest)
  {
    assert s[1..] == rest;
  }

  /** The reader takes `f(c)` back to `c`, whatever follows. */
  ghost predicate Undone(f: char -> string, c: char, rest: string) {
    f(c) + rest != "" && (f(c) + rest)[0] != '"' && ReadChar(f(c) + rest) == Got(c, rest)
  }

  ghost predicate AllUndone(f: char -> string) {
    forall c, rest :: Undone(f, c, rest)
  }

  /** The reader gets from `text` to `s` and `rest`. */
  ghost predicate Reads(text: string, s: string, rest: string) {
    ReadString(text) == Got(s, rest)
  }

  lemma FlatStep(f: char -> string, s: string, tail: string, text: string, rest: string)
    requires AllUndone(f) && s != "" && text == f(s[0]) + tail && Reads(tail, s[1..], rest)
    ensures Reads(text, s, rest)
  {
    assert Undone(f, s[0], tail);
    StringStep(text, s[0], tail, s[1..], rest);
    assert s == [s[0]] + s[1..];
  }

  lemma FlatSplit(f: char -> string, s: string, end: string)
    requires s != ""
    ensures FlatMap(f, s) + end == f(s[0]) + (FlatMap(f, s[1..]) + end)
  {
    FlatMapCons(f, s);
    Assoc(f(s[0]), FlatMap(f, s[1..]), end);
  }

  lemma FlatEnd(f: char -> string, text: string, rest: string)
    requires text == FlatMap(f, "") + (['"'] + rest)
    ensures Reads(text, "", rest)
  {
    StringEnd(text, rest);
  }

  lemma {:induction false} FlatRoundTrip(f: char -> string, s: string, end: string, text: string, rest: string)
    requires AllUndone(f) && end == ['"'] + rest && text == FlatMap(f, s) + end
    ensures Reads(text, s, rest)
    decreases |s|
  {
    if s == "" {
      FlatEnd(f, text, rest);
    } else {
      FlatSplit(f, s, end);
      FlatRoundTrip(f, s[1..], end, FlatMap(f, s[1..]) + end, rest);
      FlatStep(f, s, FlatMap(f, s[1..]) + end, text, rest);
    }
  }

  /** The string reader undoes the escaping, whatever the string holds. */
  lemma StringRoundTrip(s: string, rest: string)
    ensures ReadString(EscAll(s) + (['"'] + rest)) == Got(s, rest)
  {
    forall c, tail
      ensures Undone(Esc, c, tail)
    {
      EscReads(c, tail);
    }
    FlatRoundTrip(Esc, s, ['"'] + rest, EscAll(s) + (['"'] + rest), rest);
  }

  /** A key that needs no escaping. */
  predicate PlainKey(k: string) {
    forall i :: 0 <= i < |k| ==> Esc(k[i]) == [k[i]]
  }

  lemma {:induction false} PlainEsc(k: string)
    requires PlainKey(k)
    ensures EscAll(k) == k
  {
    if k != "" {
      PlainEsc(k[..|k| - 1]);
      assert k == k[..|k| - 1] + [k[|k| - 1]];
    }
  }

  lemma KeyReads(k: string, rest: string)
    requires PlainKey(k)
    ensures ReadString(k + (['"'] + rest)) == Got(k, rest)
  {
    PlainEsc(k);
    StringRoundTrip(k, rest);
  }

  lemma EntryStep(s: string, key: string, after: string, v: Json, rest: string)
    requires s != "" && s[0] == '"' && ReadString(s[1..]) == Got(key, [':'] + after) && ReadValue(after) == Got(v, rest)
    ensures ReadEntry(s) == Got(Entry(key, v), rest)
  {
    assert ([':'] + after)[1..] == after;
  }

  lemma TextReads(s: string, t: string, rest: string)
    requires ReadString(s) == Got(t, rest)
    ensures ReadValue(['"'] + s) == Got(Text(t), rest)
  {
    assert (['"'] + s)[1..] == s;
  }

  /** The parts of a written field, as the reader meets them. */
  lemma EmitParts(k: string, e: string, rest: string)
    ensures ([',', '"'] + k + ['"', ':', '"'] + e + ['"'])[1..] + rest
            == ['"'] + (k + (['"'] + ([':'] + (['"'] + (e + (['"'] + rest))))))
  {
  }

  lemma FieldReads(f: Field, rest: string)
    requires PlainKey(f.key)
    ensures ReadEntry(Emit(f)[1..] + rest) == Got(Entry(f.key, Text(f.value)), rest)
  {
    var e := EscAll(f.value);
    EmitParts(f.key, e, rest);
    FieldAt(f.key, f.value, e, rest, ['"'] + (f.key + (['"'] + ([':'] + (['"'] + (e + (['"'] + rest)))))));
  }

  lemma FieldAt(k: string, value: string, e: string, rest: string, s: string)
    requires PlainKey(k) && e == EscAll(value)
    requires s == ['"'] + (k + (['"'] + ([':'] + (['"'] + (e + (['"'] + rest))))))
    ensures ReadEntry(s) == Got(Entry(k, Text(value)), rest)
  {
    var v := e + (['"'] + rest);
    StringRoundTrip(value, rest);
    TextReads(v, value, rest);
    KeyReads(k, [':'] + (['"'] + v));
    assert s[1..] == k + (['"'] + ([':'] + (['"'] + v)));
    EntryStep(s, k, ['"'] + v, Text(value), rest);
  }

  /** `}` after the remaining fields. */
  function Tail(fields: seq<Field>): string {
    if fields == [] then ['}'] else Emit(fields[0]) + Tail(fields[1..])
  }

  lemma {:induction false} EmitTail(fields: seq<Field>, more: seq<Field>)
    ensures EmitAll(fields) + Tail(more) == Tail(fields + more)
    decreases |fields|
  {
    if fields == [] {
      assert fields + more == more;
    } else {
      var init, last := fields[..|fields| - 1], fields[|fields| - 1];
      EmitTail(init, [last] + more);
      assert ([last] + more)[1..] == more;
      assert init + ([last] + more) == fields + more;
      Assoc(EmitAll(init), Emit(last), Tail(more));
    }
  }

  function Sent(fields: seq<Field>): (r: seq<Entry>)
    ensures |r| == |fields|
  {
    seq(|fields|, i requires 0 <= i < |fields| => Entry(fields[i].key, Text(fields[i].value)))
  }

  predicate PlainKeys(fields: seq<Field>) {
    forall i :: 0 <= i < |fields| ==> PlainKey(fields[i].key)
  }

  lemma EntriesEnd(s: string, e: Entry)
    requires ReadEntry(s) == Got(e, ['}'])
    ensures ReadEntries(s) == Got([e], "")
  {
    assert ['}'][1..] == "";
  }

  lemma EntriesStep(s: string, e: Entry, rest: string, more: seq<Entry>)
    requires ReadEntry(s) == Got(e, rest) && rest != "" && rest[0] == ',' && ReadEntries(rest[1..]) == Got(more, "")
    ensures ReadEntries(s) == Got([e] + more, "")
  {
  }

  lemma CutFront(x: string, y: string)
    requires x != ""
    ensures (x + y)[1..] == x[1..] + y && (x + y)[0] == x[0]
  {
  }

  lemma {:induction false} TailReads(fields: seq<Field>)
    requires fields != [] && PlainKeys(fields)
    ensures Tail(fields) != "" && Tail(fields)[0] == ',' && ReadEntries(Tail(fields)[1..]) == Got(Sent(fields), "")
    decreases |fields|
  {
    var f, more := fields[0], fields[1..];
    var e := Entry(f.key, Text(f.value));
    assert Emit(f) != "" && Emit(f)[0] == ',';
    CutFront(Emit(f), Tail(more));
    FieldReads(f, Tail(more));
    assert Sent(fields) == [e] + Sent(more);
    if more == [] {
      EntriesEnd(Emit(f)[1..] + Tail(more), e);
      assert Sent(fields) == [e];
    } else {
      TailReads(more);
      EntriesStep(Emit(f)[1..] + Tail(more), e, Tail(more), Sent(more));
    }
  }

  lemma {:induction false} DigitsExactly(d: string, rest: string)
    requires AllDigits(d) && rest != "" && !('0' <= rest[0] <= '9')
    ensures DigitsOf(d + rest) == |d|
  {
    if d != "" {
      assert (d + rest)[1..] == d[1..] + rest;
      DigitsExactly(d[1..], rest);
    } else {
      assert d + rest == rest;
    }
  }

  lemma {:induction false} DecimalNoZero(n: nat)
    ensures Decimal(n)[0] == '0' ==> |Decimal(n)| == 1
  {
    if n >= 10 {
      DecimalNoZero(n / 10);
    }
  }

  lemma NatReads(n: nat, rest: string)
    requires rest != "" && !('0' <= rest[0] <= '9')
    ensures ReadNat(Decimal(n) + rest) == Got(n, rest)
  {
    var d := Decimal(n);
    DigitsExactly(d, rest);
    DecimalNoZero(n);
    DecimalValue(n);
    assert (d + rest)[..|d|] == d && (d + rest)[|d|..] == rest;
  }

  lemma NumberReads(n: nat, rest: string)
    requires rest != "" && !('0' <= rest[0] <= '9')
    ensures ReadValue(Decimal(n) + rest) == Got(Number(n), rest)
  {
    NatReads(n, rest);
    assert (Decimal(n) + rest)[0] == Decimal(n)[0];
  }

  lemma StampReads(ts: nat, key: string, rest: string)
    requires PlainKey(key) && rest != "" && !('0' <= rest[0] <= '9')
    ensures ReadEntry(['"'] + (key + (['"'] + ([':'] + (Decimal(ts) + rest))))) == Got(Entry(key, Number(ts)), rest)
  {
    var v := Decimal(ts) + rest;
    var s := ['"'] + (key + (['"'] + ([':'] + v)));
    KeyReads(key, [':'] + v);
    NumberReads(ts, rest);
    assert s[1..] == key + (['"'] + ([':'] + v));
    EntryStep(s, key, v, Number(ts), rest);
  }

  lemma PayloadParts(d: string, fields: string, key: string)
    requires key == ['t', 's']
    ensures ['{', '"', 't', 's', '"', ':'] + d + fields + ['}']
            == ['{'] + (['"'] + (key + (['"'] + ([':'] + (d + (fields + ['}']))))))
  {
  }

  lemma ObjectReads(s: string, entries: seq<Entry>)
    requires ReadEntries(s) == Got(entries, "")
    ensures ReadObject(['{'] + s) == Some(entries)
  {
    assert (['{'] + s)[1..] == s;
  }

  /** Reading a datagram gives the timestamp and exactly the fields written, in order,
      whatever quotes, backslashes or control characters their values hold. */
  lemma PayloadRoundTrip(ts: nat, fields: seq<Field>, key: string)
    requires PlainKeys(fields) && key == ['t', 's']
    ensures ReadObject(Payload(ts, fields)) == Some([Entry(key, Number(ts))] + Sent(fields))
  {
    EmitTail(fields, []);
    assert fields + [] == fields;
    PayloadParts(Decimal(ts), EmitAll(fields), key);
    var s := ['"'] + (key + (['"'] + ([':'] + (Decimal(ts) + Tail(fields)))));
    LettersPlain(key);
    StampThenFields(ts, fields, key, s);
    ObjectReads(s, [Entry(key, Number(ts))] + Sent(fields));
  }

  lemma StampThenFields(ts: nat, fields: seq<Field>, key: string, s: string)
    requires PlainKeys(fields) && PlainKey(key) && s == ['"'] + (key + (['"'] + ([':'] + (Decimal(ts) + Tail(fields)))))
    ensures ReadEntries(s) == Got([Entry(key, Number(ts))] + Sent(fields), "")
  {
    var e := Entry(key, Number(ts));
    if fields == [] {
      StampReads(ts, key, ['}']);
      EntriesEnd(s, e);
      assert [e] + Sent(fields) == [e];
    } else {
      TailReads(fields);
      StampReads(ts, key, Tail(fields));
      EntriesStep(s, e, Tail(fields), Sent(fields));
    }
  }

  lemma ReportKeysPlain(result: string, user: string, rhost: string, service: string, tty: string)
    ensures PlainKeys(Report(result, user, rhost, service, tty))
  {
    var fields := Report(result, user, rhost, service, tty);
    LettersPlain("result");
    LettersPlain("user");
    LettersPlain("rhost");
    LettersPlain("service");
    LettersPlain("tty");
  }

  lemma LettersPlain(k: string)
    requires forall i :: 0 <= i < |k| ==> 'a' <= k[i] <= 'z'
    ensures PlainKey(k)
  {
  }

  /** The six members of a report come through. */
  lemma ReportRoundTrip(ts: nat, result: string, user: string, rhost: string, service: string, tty: string, key: string)
    requires key == ['t', 's']
    ensures ReadObject(Payload(ts, Report(result, user, rhost, service, tty)))
            == Some([Entry("ts", Number(ts)), Entry("result", Text(result)), Entry("user", Text(user)),
                     Entry("rhost", Text(rhost)), Entry("service", Text(service)), Entry("tty", Text(tty))])
  {
    var fields := Report(result, user, rhost, service, tty);
    ReportKeysPlain(result, user, rhost, service, tty);
    PayloadRoundTrip(ts, fields, key);
    assert [Entry(key, Number(ts))] + Sent(fields)
           == [Entry("ts", Number(ts)), Entry("result", Text(result)), Entry("user", Text(user)),
               Entry("rhost", Text(rhost)), Entry("service", Text(service)), Entry("tty", Text(tty))];
  }
}
