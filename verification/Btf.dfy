/** The BTF reader of hermian/src/btf.rs: a walk over a binary list of kernel types, shown
    total on arbitrary bytes and right on every encoded list of types. */
module Btf {
  import opened Common

  type byte = x: int | 0 <= x < 256
  type Bytes = seq<byte>
  type u32 = x: int | 0 <= x < 0x1_0000_0000

  const MAGIC: int := 0xEB9F

  const KIND_STRUCT: nat := 4

  // ---------------------------------------------------------------------
  // Little-endian words
  // ---------------------------------------------------------------------

  function U16At(b: Bytes, o: nat): Option<nat> {
    if o + 2 <= |b| then Some((b[o] as int) + 0x100 * (b[o + 1] as int)) else None
  }

  function Word(b0: int, b1: int, b2: int, b3: int): int {
    b0 + 0x100 * (b1 + 0x100 * (b2 + 0x100 * b3))
  }

  function U32At(b: Bytes, o: nat): Option<u32> {
    if o + 4 <= |b| then Some(Word(b[o], b[o + 1], b[o + 2], b[o + 3])) else None
  }

  function Le32(x: u32): (r: Bytes)
    ensures |r| == 4
  {
    var y := x / 0x100;
    var z := y / 0x100;
    [x % 0x100, y % 0x100, z % 0x100, z / 0x100]
  }

  lemma ByteSplit(x: int)
    ensures x == x % 0x100 + 0x100 * (x / 0x100)
  {
  }

  lemma Le32Word(x: u32, b0: int, b1: int, b2: int, b3: int)
    requires Le32(x) == [b0, b1, b2, b3]
    ensures Word(b0, b1, b2, b3) == x
  {
    var y := x / 0x100;
    var z := y / 0x100;
    var w := Le32(x);
    assert w[0] == x % 0x100 && w[1] == y % 0x100 && w[2] == z % 0x100 && w[3] == z / 0x100;
    assert w[0] == b0 && w[1] == b1 && w[2] == b2 && w[3] == b3;
    ByteSplit(x);
    ByteSplit(y);
    ByteSplit(z);
  }

  lemma Le32RoundTrip(x: u32, b: Bytes, o: nat)
    requires o + 4 <= |b| && b[o..o + 4] == Le32(x)
    ensures U32At(b, o) == Some(x)
  {
    var w := b[o..o + 4];
    assert b[o] == w[0] && b[o + 1] == w[1] && b[o + 2] == w[2] && b[o + 3] == w[3];
    Le32Word(x, w[0], w[1], w[2], w[3]);
  }

  // ---------------------------------------------------------------------
  // The file
  // ---------------------------------------------------------------------

  datatype Blob = Blob(types: Bytes, strings: Bytes)

  datatype Error = BadMagic | Short | OutOfRange

  datatype Parsed = Ok(blob: Blob) | Err(error: Error)

  function Section(data: Bytes, hdr: nat, off: nat, len: nat): Option<Bytes> {
    if hdr + off + len <= |data| then Some(data[hdr + off..hdr + off + len]) else None
  }

  function Parse(data: Bytes): Parsed {
    if U16At(data, 0) != Some(MAGIC) then Err(BadMagic)
    else if |data| < 24 then Err(Short)
    else
      var types := Section(data, U32At(data, 4).value, U32At(data, 8).value, U32At(data, 12).value);
      var strings := Section(data, U32At(data, 4).value, U32At(data, 16).value, U32At(data, 20).value);
      if types.None? || strings.None? then Err(OutOfRange) else Ok(Blob(types.value, strings.value))
  }

  /** The string at `off`, up to its NUL; nothing if out of range or not UTF-8. */
  function Name(strings: Bytes, off: nat, utf8: Bytes -> bool): Bytes {
    if off > |strings| then []
    else
      var s := strings[off..FindNul(strings, off)];
      if utf8(s) then s else []
  }

  function FindNul(strings: Bytes, i: nat): (r: nat)
    requires i <= |strings|
    ensures i <= r <= |strings| && (r < |strings| ==> strings[r] == 0)
    ensures forall j :: i <= j < r ==> strings[j] != 0
    decreases |strings| - i
  {
    if i == |strings| || strings[i] == 0 then i else FindNul(strings, i + 1)
  }

  lemma NulAt(strings: Bytes, i: nat, end: nat)
    requires i <= end < |strings| && strings[end] == 0 && forall j :: i <= j < end ==> strings[j] != 0
    ensures FindNul(strings, i) == end
  {
    var found := FindNul(strings, i);
  }

  /** A name is the text from its offset up to the next NUL, if it is UTF-8. */
  lemma NameReads(front: Bytes, text: Bytes, rest: Bytes, utf8: Bytes -> bool)
    requires forall j :: 0 <= j < |text| ==> text[j] != 0
    ensures Name(front + text + [0] + rest, |front|, utf8) == if utf8(text) then text else []
  {
    var all := front + text + [0] + rest;
    forall j | |front| <= j < |front| + |text|
      ensures all[j] != 0
    {
      assert all[j] == text[j - |front|];
    }
    NulAt(all, |front|, |front| + |text|);
    assert all[|front|..|front| + |text|] == text;
  }

  // ---------------------------------------------------------------------
  // The walk
  // ---------------------------------------------------------------------

  /** Bytes after the 12-byte head of a type, or nothing for an unknown kind. */
  function BodyLen(kind: nat, vlen: nat): Option<nat> {
    if kind == 1 || kind == 14 || kind == 17 then Some(4)
    else if kind == 2 || 7 <= kind <= 12 || kind == 16 || kind == 18 then Some(0)
    else if kind == 3 then Some(12)
    else if kind == 4 || kind == 5 || kind == 15 || kind == 19 then Some(12 * vlen)
    else if kind == 6 || kind == 13 then Some(8 * vlen)
    else None
  }

  /** What the info word of a type says: its kind, member count and flag, and with them
      how long its body is. */
  datatype Head = Head(kind: nat, vlen: nat, kflag: bool, len: Option<nat>)

  function HeadOf(info: u32): Head {
    var kind, vlen := info / 0x100_0000 % 32, info % 0x1_0000;
    Head(kind, vlen, info / 0x8000_0000 % 2 == 1, BodyLen(kind, vlen))
  }

  /** The byte offset behind a member's offset word. */
  function ByteOffset(word: u32, kflag: bool): nat {
    (if kflag then word % 0x100_0000 else word) / 8
  }

  /** The walk sees the type section only through its size, its words and the names behind
      them. */
  datatype Reader = Reader(size: nat, word: nat -> Option<u32>, name: u32 -> Bytes)

  function ReaderOf(b: Blob, utf8: Bytes -> bool): Reader {
    Reader(|b.types|, o => U32At(b.types, o), off => Name(b.strings, off, utf8))
  }

  function MemberFrom(r: Reader, body: nat, vlen: nat, kflag: bool, member: Bytes, i: nat): Option<nat>
    requires i <= vlen
    decreases vlen - i
  {
    if i == vlen then None
    else
      var name, off := r.word(body + i * 12), r.word(body + i * 12 + 8);
      if name.None? || off.None? then None
      else if r.name(name.value) == member then Some(ByteOffset(off.value, kflag))
      else MemberFrom(r, body, vlen, kflag, member, i + 1)
  }

  /** Walk the types from offset `o`. */
  function OffsetFrom(r: Reader, head: u32 -> Head, o: nat, name: Bytes, member: Bytes): Option<nat>
    decreases r.size - o
  {
    if o + 12 > r.size then None
    else
      var nameOff, info, word := r.word(o), r.word(o + 4), r.word(o + 8);
      if nameOff.None? || info.None? || word.None? then None
      else
        var h := head(info.value);
        if h.len.None? then None
        else if h.kind == KIND_STRUCT && r.name(nameOff.value) == name then
          MemberFrom(r, o + 12, h.vlen, h.kflag, member, 0)
        else OffsetFrom(r, head, o + 12 + h.len.value, name, member)
  }

  method MemberLoop(r: Reader, body: nat, vlen: nat, kflag: bool, member: Bytes) returns (res: Option<nat>)
    ensures res == MemberFrom(r, body, vlen, kflag, member, 0)
  {
    var i := 0;
    while i < vlen
      invariant 0 <= i <= vlen
      invariant MemberFrom(r, body, vlen, kflag, member, 0) == MemberFrom(r, body, vlen, kflag, member, i)
    {
      var m := body + i * 12;
      var name, off := r.word(m), r.word(m + 8);
      if name.None? || off.None? {
        return None;
      }
      if r.name(name.value) == member {
        return Some(ByteOffset(off.value, kflag));
      }
      i := i + 1;
    }
    res := None;
  }

  method WalkTypes(r: Reader, head: u32 -> Head, name: Bytes, member: Bytes) returns (res: Option<nat>)
    ensures res == OffsetFrom(r, head, 0, name, member)
  {
    var o := 0;
    while o + 12 <= r.size
      invariant OffsetFrom(r, head, 0, name, member) == OffsetFrom(r, head, o, name, member)
      decreases r.size - o
    {
      var nameOff, info, word := r.word(o), r.word(o + 4), r.word(o + 8);
      if nameOff.None? || info.None? || word.None? {
        return None;
      }
      var h := head(info.value);
      if h.len.None? {
        return None;
      }
      if h.kind == KIND_STRUCT && r.name(nameOff.value) == name {
        res := MemberLoop(r, o + 12, h.vlen, h.kflag, member);
        return;
      }
      o := o + 12 + h.len.value;
    }
    res := None;
  }

  function MemberOffset(b: Blob, name: Bytes, member: Bytes, utf8: Bytes -> bool): Option<nat> {
    OffsetFrom(ReaderOf(b, utf8), HeadOf, 0, name, member)
  }

  /** Computes `MemberOffset` on any bytes whatever: every read is in range and both loops
      end. */
  method StructMemberOffset(b: Blob, name: Bytes, member: Bytes, utf8: Bytes -> bool) returns (res: Option<nat>)
    ensures res == MemberOffset(b, name, member, utf8)
  {
    res := WalkTypes(ReaderOf(b, utf8), HeadOf, name, member);
  }

  // ---------------------------------------------------------------------
  // Types and their encoding
  // ---------------------------------------------------------------------

  datatype Member = Member(name: u32, typ: u32, off: u32)

  /** One kernel type. `spare` and `spare2` are the unused bits of the info word; only the
      members of structs matter, other bodies are raw. */
  datatype RawType =
    | Struct(name: u32, word: u32, kflag: bool, spare: nat, spare2: nat, members: seq<Member>)
    | Plain(name: u32, word: u32, kflag: bool, spare: nat, spare2: nat, kind: nat, vlen: nat, body: Bytes)

  function Kind(t: RawType): nat {
    if t.Struct? then 4 else t.kind
  }

  function Vlen(t: RawType): nat {
    if t.Struct? then |t.members| else t.vlen
  }

  /** The format's rule for what follows the head of a type, kind by kind: one word for an
      integer, a variable or a tag of a declaration; nothing for a pointer, forward
      declaration, typedef, qualifier, function, float or tag of a type; three words for an
      array and for each member of a struct or union, variable of a section or value of a
      wide enumeration; two for each value of an enumeration or parameter. */
  predicate Lays(kind: nat, vlen: nat, len: nat) {
    match kind
    case 1 | 14 | 17 => len == 4
    case 2 | 7 | 8 | 9 | 10 | 11 | 12 | 16 | 18 => len == 0
    case 3 => len == 12
    case 4 | 5 | 15 | 19 => len == 12 * vlen
    case 6 | 13 => len == 8 * vlen
    case _ => false
  }

  /** The walk's own table is that rule, and it stops at kinds the rule does not know. */
  lemma BodyLenExactly(kind: nat, vlen: nat, len: nat)
    ensures BodyLen(kind, vlen) == Some(len) <==> Lays(kind, vlen, len)
    ensures BodyLen(kind, vlen).None? <==> kind == 0 || kind > 19
  {
  }

  predicate WellFormed(t: RawType) {
    && t.spare < 0x100 && t.spare2 < 4 && Vlen(t) < 0x1_0000
    && (t.Plain? ==> t.kind != 4 && Lays(t.kind, t.vlen, |t.body|))
  }

  /** A type that fits its encoding: its kind is known and its body is that kind's length. */
  type Type = t: RawType | WellFormed(t) witness Struct(0, 0, false, 0, 0, [])

  function Info(t: Type): u32 {
    Vlen(t) + 0x1_0000 * t.spare + 0x100_0000 * Kind(t) + 0x2000_0000 * t.spare2 + (if t.kflag then 0x8000_0000 else 0)
  }

  function EncodeMember(m: Member): (r: Bytes)
    ensures |r| == 12
  {
    Le32(m.name) + Le32(m.typ) + Le32(m.off)
  }

  function EncodeMembers(ms: seq<Member>): (r: Bytes)
    ensures |r| == 12 * |ms|
  {
    if ms == [] then [] else EncodeMember(ms[0]) + EncodeMembers(ms[1..])
  }

  function BodySize(t: Type): nat {
    if t.Struct? then 12 * |t.members| else |t.body|
  }

  function EncodeBody(t: Type): (r: Bytes)
    ensures |r| == BodySize(t)
  {
    match t
    case Struct(_, _, _, _, _, members) => EncodeMembers(members)
    case Plain(_, _, _, _, _, _, _, body) => body
  }

  function EncodeType(t: Type): (r: Bytes)
    ensures |r| == 12 + BodySize(t)
  {
    Le32(t.name) + Le32(Info(t)) + Le32(t.word) + EncodeBody(t)
  }

  /** Encodings one after the other. */
  function Flat<T>(enc: T -> Bytes, xs: seq<T>): Bytes {
    if xs == [] then [] else enc(xs[0]) + Flat(enc, xs[1..])
  }

  function Encode(types: seq<Type>): Bytes {
    Flat(EncodeType, types)
  }

  // ---------------------------------------------------------------------
  // What a lookup should find
  // ---------------------------------------------------------------------

  function FindMember(ms: seq<Member>, kflag: bool, names: u32 -> Bytes, member: Bytes): Option<nat> {
    if ms == [] then None
    else if names(ms[0].name) == member then Some(if kflag then ms[0].off % 0x100_0000 / 8 else ms[0].off / 8)
    else FindMember(ms[1..], kflag, names, member)
  }

  /** The first matching member of the first struct of that name. */
  function Lookup(types: seq<Type>, names: u32 -> Bytes, name: Bytes, member: Bytes): Option<nat> {
    if types == [] then None
    else if types[0].Struct? && names(types[0].name) == name then
      FindMember(types[0].members, types[0].kflag, names, member)
    else Lookup(types[1..], names, name, member)
  }

  lemma InfoReads(t: Type)
    ensures HeadOf(Info(t)) == Head(Kind(t), Vlen(t), t.kflag, Some(BodySize(t)))
  {
    BodyLenExactly(Kind(t), Vlen(t), BodySize(t));
    InfoBits(Vlen(t), t.spare, Kind(t), t.spare2, if t.kflag then 1 else 0);
  }

  lemma InfoBits(v: int, s: int, k: int, s2: int, f: int)
    requires 0 <= v < 0x1_0000 && 0 <= s < 0x100 && 0 <= k < 32 && 0 <= s2 < 4 && 0 <= f < 2
    ensures var x := v + 0x1_0000 * s + 0x100_0000 * k + 0x2000_0000 * s2 + 0x8000_0000 * f;
            x % 0x1_0000 == v && x / 0x100_0000 % 32 == k && x / 0x8000_0000 % 2 == f
  {
    var x := v + 0x1_0000 * s + 0x100_0000 * k + 0x2000_0000 * s2 + 0x8000_0000 * f;
    assert x == v + 0x1_0000 * (s + 0x100 * k + 0x2000 * s2 + 0x8000 * f);
    assert x / 0x100_0000 == k + 32 * (s2 + 4 * f) by {
      assert 0 <= v + 0x1_0000 * s < 0x100_0000;
    }
    assert x / 0x8000_0000 == f by {
      assert 0 <= v + 0x1_0000 * s + 0x100_0000 * k + 0x2000_0000 * s2 < 0x8000_0000;
    }
  }

  /** `r` reads the members `ms` from `body` on. */
  ghost predicate ReadsMembers(r: Reader, body: nat, ms: seq<Member>) {
    forall j: nat :: j < |ms| ==> ReadsMember(r, body, ms, j)
  }

  predicate ReadsMember(r: Reader, body: nat, ms: seq<Member>, j: nat)
    requires j < |ms|
  {
    r.word(body + j * 12) == Some(ms[j].name) && r.word(body + j * 12 + 8) == Some(ms[j].off)
  }

  lemma {:induction false} MembersRead(r: Reader, body: nat, ms: seq<Member>, i: nat, kflag: bool, member: Bytes)
    requires ReadsMembers(r, body, ms) && i <= |ms|
    ensures MemberFrom(r, body, |ms|, kflag, member, i) == FindMember(ms[i..], kflag, r.name, member)
    decreases |ms| - i
  {
    if i < |ms| {
      assert ReadsMember(r, body, ms, i);
      assert ms[i..][0] == ms[i] && ms[i..][1..] == ms[i + 1..];
      MembersRead(r, body, ms, i + 1, kflag, member);
    }
  }

  /** `r` reads type `t` at `o`. */
  ghost predicate ReadsType(r: Reader, head: u32 -> Head, o: nat, t: Type)
  {
    && o + 12 + BodySize(t) <= r.size
    && r.word(o) == Some(t.name) && r.word(o + 4) == Some(Info(t)) && r.word(o + 8) == Some(t.word)
    && head(Info(t)) == Head(Kind(t), Vlen(t), t.kflag, Some(BodySize(t)))
    && (t.Struct? ==> ReadsMembers(r, o + 12, t.members))
  }

  /** At `o` the walk ends with the struct asked for, or goes on at `next`. */
  predicate StepsOver(r: Reader, head: u32 -> Head, o: nat, t: Type, next: nat, name: Bytes, member: Bytes) {
    OffsetFrom(r, head, o, name, member)
    == if t.Struct? && r.name(t.name) == name then FindMember(t.members, t.kflag, r.name, member)
       else OffsetFrom(r, head, next, name, member)
  }

  /** One type of the walk: a struct of that name ends it, any other type is stepped over. */
  lemma StepReads(r: Reader, head: u32 -> Head, o: nat, t: Type, next: nat, name: Bytes, member: Bytes)
    requires ReadsType(r, head, o, t) && next == o + 12 + BodySize(t)
    ensures StepsOver(r, head, o, t, next, name, member)
  {
    if t.Struct? {
      MembersRead(r, o + 12, t.members, 0, t.kflag, member);
      assert t.members[0..] == t.members;
    }
  }

  /** Where type `i` starts. */
  function Start(types: seq<Type>, i: nat): nat
    requires i <= |types|
  {
    if i == 0 then 0 else Start(types, i - 1) + 12 + BodySize(types[i - 1])
  }

  lemma LookupFrom(types: seq<Type>, i: nat, names: u32 -> Bytes, name: Bytes, member: Bytes)
    requires i < |types|
    ensures Lookup(types[i..], names, name, member)
            == if types[i].Struct? && names(types[i].name) == name then FindMember(types[i].members, types[i].kflag, names, member)
               else Lookup(types[i + 1..], names, name, member)
  {
    assert types[i..][0] == types[i] && types[i..][1..] == types[i + 1..];
  }

  predicate StepsOverAt(r: Reader, head: u32 -> Head, types: seq<Type>, i: nat, name: Bytes, member: Bytes)
    requires i < |types|
  {
    StepsOver(r, head, Start(types, i), types[i], Start(types, i + 1), name, member)
  }

  ghost predicate StepsOverAll(r: Reader, head: u32 -> Head, types: seq<Type>, name: Bytes, member: Bytes) {
    forall i: nat :: i < |types| ==> StepsOverAt(r, head, types, i, name, member)
  }

  /** A walk that steps over every type finds what it should. */
  lemma {:induction false} WalkFinds(r: Reader, head: u32 -> Head, types: seq<Type>, i: nat, name: Bytes, member: Bytes)
    requires r.size == Start(types, |types|) && i <= |types| && StepsOverAll(r, head, types, name, member)
    ensures OffsetFrom(r, head, Start(types, i), name, member) == Lookup(types[i..], r.name, name, member)
    decreases |types| - i
  {
    if i < |types| {
      var found := Lookup(types[i + 1..], r.name, name, member);
      WalkFinds(r, head, types, i + 1, name, member);
      assert StepsOverAt(r, head, types, i, name, member);
      StepThen(r, head, Start(types, i), types[i], Start(types, i + 1), name, member, found);
      LookupFrom(types, i, r.name, name, member);
    }
  }

  lemma StepThen(r: Reader, head: u32 -> Head, o: nat, t: Type, next: nat, name: Bytes, member: Bytes, found: Option<nat>)
    requires StepsOver(r, head, o, t, next, name, member) && OffsetFrom(r, head, next, name, member) == found
    ensures OffsetFrom(r, head, o, name, member)
            == if t.Struct? && r.name(t.name) == name then FindMember(t.members, t.kflag, r.name, member) else found
  {
  }

  // ---------------------------------------------------------------------
  // Encoded types are read back
  // ---------------------------------------------------------------------

  lemma SplitSlice(b: Bytes, o: nat, n: nat, e: nat, first: Bytes, rest: Bytes)
    requires o <= e <= |b| && b[o..e] == first + rest && |first| == n
    ensures o + n <= e && b[o..o + n] == first && b[o + n..e] == rest
  {
    assert |b[o..e]| == e - o;
    assert b[o..o + n] == b[o..e][..n];
    assert b[o + n..e] == b[o..e][n..];
  }

  lemma FiveParts(b: Bytes, o: nat, w0: Bytes, w1: Bytes, w2: Bytes, body: Bytes, rest: Bytes)
    requires o <= |b| && b[o..] == w0 + w1 + w2 + body + rest && |w0| == |w1| == |w2| == 4
    ensures o + 12 + |body| <= |b| && b[o..o + 4] == w0 && b[o + 4..o + 8] == w1 && b[o + 8..o + 12] == w2
    ensures b[o + 12..o + 12 + |body|] == body && b[o + 12 + |body|..] == rest
  {
    var e := |b|;
    assert b[o..e] == b[o..];
    assert w0 + w1 + w2 + body + rest == w0 + (w1 + (w2 + (body + rest)));
    SplitSlice(b, o, 4, e, w0, w1 + (w2 + (body + rest)));
    SplitSlice(b, o + 4, 4, e, w1, w2 + (body + rest));
    SplitSlice(b, o + 8, 4, e, w2, body + rest);
    SplitSlice(b, o + 12, |body|, e, body, rest);
    assert b[o + 12 + |body|..e] == b[o + 12 + |body|..];
  }

  /** Three words, a body and the rest. */
  lemma HeadReads(b: Bytes, o: nat, x: u32, y: u32, z: u32, body: Bytes, rest: Bytes)
    requires o <= |b| && b[o..] == Le32(x) + Le32(y) + Le32(z) + body + rest
    ensures o + 12 + |body| <= |b|
    ensures U32At(b, o) == Some(x) && U32At(b, o + 4) == Some(y) && U32At(b, o + 8) == Some(z)
    ensures b[o + 12..o + 12 + |body|] == body && b[o + 12 + |body|..] == rest
  {
    FiveParts(b, o, Le32(x), Le32(y), Le32(z), body, rest);
    Le32RoundTrip(x, b, o);
    Le32RoundTrip(y, b, o + 4);
    Le32RoundTrip(z, b, o + 8);
  }

  lemma MemberReads(b: Bytes, o: nat, e: nat, m: Member, rest: Bytes)
    requires o <= e <= |b| && b[o..e] == EncodeMember(m) + rest
    ensures U32At(b, o) == Some(m.name) && U32At(b, o + 8) == Some(m.off)
    ensures o + 12 <= e && b[o + 12..e] == rest
  {
    assert EncodeMember(m) + rest == Le32(m.name) + (Le32(m.typ) + (Le32(m.off) + rest));
    SplitSlice(b, o, 4, e, Le32(m.name), Le32(m.typ) + (Le32(m.off) + rest));
    SplitSlice(b, o + 4, 4, e, Le32(m.typ), Le32(m.off) + rest);
    SplitSlice(b, o + 8, 4, e, Le32(m.off), rest);
    Le32RoundTrip(m.name, b, o);
    Le32RoundTrip(m.off, b, o + 8);
  }

  lemma {:induction false} EncodedMembers(b: Bytes, o: nat, e: nat, ms: seq<Member>, j: nat)
    requires o <= e <= |b| && b[o..e] == EncodeMembers(ms) && j < |ms|
    ensures U32At(b, o + j * 12) == Some(ms[j].name) && U32At(b, o + j * 12 + 8) == Some(ms[j].off)
    decreases |ms|
  {
    MemberReads(b, o, e, ms[0], EncodeMembers(ms[1..]));
    if j > 0 {
      EncodedMembers(b, o + 12, e, ms[1..], j - 1);
      assert ms[1..][j - 1] == ms[j];
    }
  }

  /** `r` reads these bytes. */
  ghost predicate ReadsBytes(r: Reader, b: Bytes) {
    r.size == |b| && forall o: nat :: r.word(o) == U32At(b, o)
  }

  lemma MembersEncoded(r: Reader, b: Bytes, body: nat, e: nat, ms: seq<Member>)
    requires ReadsBytes(r, b) && body <= e <= |b| && b[body..e] == EncodeMembers(ms)
    ensures ReadsMembers(r, body, ms)
  {
    forall j: nat | j < |ms|
      ensures ReadsMember(r, body, ms, j)
    {
      EncodedMembers(b, body, e, ms, j);
    }
  }

  lemma EncodedType(r: Reader, b: Bytes, o: nat, t: Type, rest: Bytes)
    requires ReadsBytes(r, b) && o <= |b| && b[o..] == EncodeType(t) + rest
    ensures ReadsType(r, HeadOf, o, t)
    ensures o + 12 + BodySize(t) <= |b| && b[o + 12 + BodySize(t)..] == rest
  {
    HeadReads(b, o, t.name, Info(t), t.word, EncodeBody(t), rest);
    InfoReads(t);
    if t.Struct? {
      MembersEncoded(r, b, o + 12, o + 12 + BodySize(t), t.members);
    }
  }

  lemma {:induction false} FlatConcat<T>(enc: T -> Bytes, a: seq<T>, b: seq<T>)
    ensures Flat(enc, a + b) == Flat(enc, a) + Flat(enc, b)
    decreases |a|
  {
    if a == [] {
      assert a + b == b;
    } else {
      FlatConcat(enc, a[1..], b);
      assert (a + b)[0] == a[0] && (a + b)[1..] == a[1..] + b;
    }
  }

  lemma FlatMore<T>(enc: T -> Bytes, xs: seq<T>, i: nat)
    requires i < |xs|
    ensures Flat(enc, xs[..i + 1]) == Flat(enc, xs[..i]) + enc(xs[i])
    ensures Flat(enc, xs[i..]) == enc(xs[i]) + Flat(enc, xs[i + 1..])
  {
    assert xs[..i + 1] == xs[..i] + [xs[i]];
    FlatConcat(enc, xs[..i], [xs[i]]);
    assert [xs[i]][1..] == [] && enc(xs[i]) + [] == enc(xs[i]);
    assert xs[i..][0] == xs[i] && xs[i..][1..] == xs[i + 1..];
  }

  /** Each element of an encoding takes up its own length. */
  lemma FlatLonger<T>(enc: T -> Bytes, xs: seq<T>, i: nat, size: nat)
    requires i < |xs| && |enc(xs[i])| == size
    ensures |Flat(enc, xs[..i + 1])| == |Flat(enc, xs[..i])| + size
  {
    FlatMore(enc, xs, i);
  }

  lemma {:induction false} StartIsLength(types: seq<Type>, i: nat)
    requires i <= |types|
    ensures |Flat(EncodeType, types[..i])| == Start(types, i)
  {
    if i > 0 {
      StartIsLength(types, i - 1);
      FlatLonger(EncodeType, types, i - 1, 12 + BodySize(types[i - 1]));
    }
  }

  /** The bytes from type `i` on are the encoding of the rest. */
  lemma EncodedFrom(types: seq<Type>, b: Bytes, i: nat)
    requires b == Encode(types) && i <= |types|
    ensures Start(types, i) <= |b| && b[Start(types, i)..] == Flat(EncodeType, types[i..])
  {
    assert types == types[..i] + types[i..];
    FlatConcat(EncodeType, types[..i], types[i..]);
    StartIsLength(types, i);
    CutFirst(b, 0, Flat(EncodeType, types[..i]), Flat(EncodeType, types[i..]));
  }

  lemma CutFirst(b: Bytes, o: nat, first: Bytes, rest: Bytes)
    requires o <= |b| && b[o..] == first + rest
    ensures o + |first| <= |b| && b[o + |first|..] == rest
  {
    assert b[o + |first|..] == b[o..][|first|..];
  }

  lemma TypeAt(r: Reader, b: Bytes, types: seq<Type>, i: nat)
    requires ReadsBytes(r, b) && b == Encode(types) && i < |types|
    ensures ReadsType(r, HeadOf, Start(types, i), types[i])
  {
    EncodedFrom(types, b, i);
    FlatMore(EncodeType, types, i);
    EncodedType(r, b, Start(types, i), types[i], Flat(EncodeType, types[i + 1..]));
  }

  lemma EncodedSteps(r: Reader, b: Bytes, types: seq<Type>, name: Bytes, member: Bytes)
    requires ReadsBytes(r, b) && b == Encode(types)
    ensures StepsOverAll(r, HeadOf, types, name, member)
  {
    forall i: nat | i < |types|
      ensures StepsOverAt(r, HeadOf, types, i, name, member)
    {
      EncodedStep(r, b, types, i, Start(types, i), Start(types, i + 1), name, member);
    }
  }

  lemma EncodedStep(r: Reader, b: Bytes, types: seq<Type>, i: nat, o: nat, next: nat, name: Bytes, member: Bytes)
    requires ReadsBytes(r, b) && b == Encode(types) && i < |types| && o == Start(types, i) && next == Start(types, i + 1)
    ensures StepsOver(r, HeadOf, o, types[i], next, name, member)
  {
    TypeAt(r, b, types, i);
    StepReads(r, HeadOf, o, types[i], next, name, member);
  }

  /** The walk over an encoded list of types finds what it should. */
  lemma WalkEncoded(r: Reader, b: Bytes, types: seq<Type>, name: Bytes, member: Bytes)
    requires ReadsBytes(r, b) && b == Encode(types)
    ensures OffsetFrom(r, HeadOf, 0, name, member) == Lookup(types, r.name, name, member)
  {
    EncodedSteps(r, b, types, name, member);
    EncodedSize(types, b);
    WalkFinds(r, HeadOf, types, 0, name, member);
    assert types[0..] == types;
  }

  lemma EncodedSize(types: seq<Type>, b: Bytes)
    requires b == Encode(types)
    ensures |b| == Start(types, |types|)
  {
    EncodedFrom(types, b, |types|);
    assert |b[Start(types, |types|)..]| == 0;
  }

  // ---------------------------------------------------------------------
  // A whole file
  // ---------------------------------------------------------------------

  /** A file: the header, more header, and the two sections with anything around them. */
  datatype File = File(version: byte, flags: byte, extra: Bytes, gap: Bytes, types: Bytes, gap2: Bytes, strings: Bytes, tail: Bytes)

  predicate Fits(f: File) {
    24 + |f.extra| + |f.gap| + |f.types| + |f.gap2| + |f.strings| < 0x1_0000_0000
  }

  function EncodeFile(f: File): Bytes
    requires Fits(f)
  {
    [0x9F, 0xEB, f.version, f.flags]
    + (Le32(24 + |f.extra|) + (Le32(|f.gap|) + (Le32(|f.types|)
    + (Le32(|f.gap| + |f.types| + |f.gap2|) + (Le32(|f.strings|)
    + (f.extra + (f.gap + (f.types + (f.gap2 + (f.strings + f.tail))))))))))
  }

  /** Where the parts of a file lie. */
  lemma FileLayout(f: File, d: Bytes)
    requires Fits(f) && d == EncodeFile(f)
    ensures |d| >= 24 && d[0..4] == [0x9F, 0xEB, f.version, f.flags] && d[4..8] == Le32(24 + |f.extra|)
    ensures d[8..12] == Le32(|f.gap|) && d[12..16] == Le32(|f.types|)
    ensures d[16..20] == Le32(|f.gap| + |f.types| + |f.gap2|) && d[20..24] == Le32(|f.strings|)
    ensures d[24..] == f.extra + (f.gap + (f.types + (f.gap2 + (f.strings + f.tail))))
  {
    var n := |d|;
    assert d[0..n] == d;
    var r5 := f.extra + (f.gap + (f.types + (f.gap2 + (f.strings + f.tail))));
    var r4 := Le32(|f.strings|) + r5;
    var r3 := Le32(|f.gap| + |f.types| + |f.gap2|) + r4;
    var r2 := Le32(|f.types|) + r3;
    var r1 := Le32(|f.gap|) + r2;
    SplitSlice(d, 0, 4, n, [0x9F, 0xEB, f.version, f.flags], Le32(24 + |f.extra|) + r1);
    SplitSlice(d, 4, 4, n, Le32(24 + |f.extra|), r1);
    SplitSlice(d, 8, 4, n, Le32(|f.gap|), r2);
    SplitSlice(d, 12, 4, n, Le32(|f.types|), r3);
    SplitSlice(d, 16, 4, n, Le32(|f.gap| + |f.types| + |f.gap2|), r4);
    SplitSlice(d, 20, 4, n, Le32(|f.strings|), r5);
    assert d[24..n] == d[24..];
  }

  /** Parsing finds the two sections wherever they lie. */
  lemma ParseEncoded(f: File)
    requires Fits(f)
    ensures Parse(EncodeFile(f)) == Ok(Blob(f.types, f.strings))
  {
    var d := EncodeFile(f);
    FileLayout(f, d);
    MagicReads(d, f.version, f.flags);
    Le32RoundTrip(24 + |f.extra|, d, 4);
    HeaderReads(d, |f.gap|, |f.types|, |f.gap| + |f.types| + |f.gap2|, |f.strings|);
    SectionReads(d, f);
  }

  lemma MagicReads(d: Bytes, version: byte, flags: byte)
    requires |d| >= 24 && d[0..4] == [0x9F, 0xEB, version, flags]
    ensures U16At(d, 0) == Some(MAGIC)
  {
    assert d[0] == d[0..4][0] && d[1] == d[0..4][1];
  }

  lemma HeaderReads(d: Bytes, typeOff: u32, typeLen: u32, strOff: u32, strLen: u32)
    requires |d| >= 24 && d[8..12] == Le32(typeOff) && d[12..16] == Le32(typeLen)
    requires d[16..20] == Le32(strOff) && d[20..24] == Le32(strLen)
    ensures U32At(d, 8) == Some(typeOff) && U32At(d, 12) == Some(typeLen)
    ensures U32At(d, 16) == Some(strOff) && U32At(d, 20) == Some(strLen)
  {
    Le32RoundTrip(typeOff, d, 8);
    Le32RoundTrip(typeLen, d, 12);
    Le32RoundTrip(strOff, d, 16);
    Le32RoundTrip(strLen, d, 20);
  }

  lemma SectionReads(d: Bytes, f: File)
    requires Fits(f) && |d| >= 24 && d[24..] == f.extra + (f.gap + (f.types + (f.gap2 + (f.strings + f.tail))))
    ensures Section(d, 24 + |f.extra|, |f.gap|, |f.types|) == Some(f.types)
    ensures Section(d, 24 + |f.extra|, |f.gap| + |f.types| + |f.gap2|, |f.strings|) == Some(f.strings)
  {
    var n := |d|;
    assert d[24..n] == d[24..];
    var o := 24;
    SplitSlice(d, o, |f.extra|, n, f.extra, f.gap + (f.types + (f.gap2 + (f.strings + f.tail))));
    o := o + |f.extra|;
    SplitSlice(d, o, |f.gap|, n, f.gap, f.types + (f.gap2 + (f.strings + f.tail)));
    o := o + |f.gap|;
    SplitSlice(d, o, |f.types|, n, f.types, f.gap2 + (f.strings + f.tail));
    o := o + |f.types|;
    SplitSlice(d, o, |f.gap2|, n, f.gap2, f.strings + f.tail);
    o := o + |f.gap2|;
    SplitSlice(d, o, |f.strings|, n, f.strings, f.tail);
  }

  /** From file to answer: for every encoded list of types in every such file, the lookup
      gives the byte offset of the first matching member of the first struct of that
      name, low 24 bits only when the kflag is set. */
  lemma LookupEncoded(f: File, types: seq<Type>, name: Bytes, member: Bytes, utf8: Bytes -> bool)
    requires Fits(f) && f.types == Encode(types)
    ensures Parse(EncodeFile(f)).Ok?
    ensures MemberOffset(Parse(EncodeFile(f)).blob, name, member, utf8)
            == Lookup(types, off => Name(f.strings, off, utf8), name, member)
  {
    ParseEncoded(f);
    var b := Blob(f.types, f.strings);
    WalkEncoded(ReaderOf(b, utf8), b.types, types, name, member);
  }
}
