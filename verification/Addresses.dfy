/** IP addresses as bit strings, most significant bit first, and CIDR blocks in the sense
    of section 3.1 of RFC 4632: the mask arithmetic that blocklist.rs, isolate.rs,
    allowlist.rs and baseline.rs share. */
module Addresses {
  import opened Common
  import opened Text
  import opened RefIds

  type Bits = seq<bool>

  datatype RawIp = V4(bits: Bits) | V6(bits: Bits)
  {
    function Width(): nat {
      if V4? then 32 else 128
    }
  }

  /** An address of either family. */
  type Ip = a: RawIp | |a.bits| == a.Width() witness V4(Zero(32))

  function Zero(n: nat): (r: Bits)
    ensures |r| == n
  {
    seq(n, _ => false)
  }

  function Ones(n: nat): (r: Bits)
    ensures |r| == n
  {
    seq(n, _ => true)
  }

  /** `MAX.checked_shl(width - prefix).unwrap_or(0)`: `prefix` ones, then zeros. */
  function Mask(width: nat, prefix: nat): (r: Bits)
    requires prefix <= width
    ensures |r| == width
  {
    Ones(prefix) + Zero(width - prefix)
  }

  function And(a: Bits, b: Bits): (r: Bits)
    requires |a| == |b|
    ensures |r| == |a|
  {
    seq(|a|, i requires 0 <= i < |a| => a[i] && b[i])
  }

  /** Masking keeps the prefix and clears the rest. */
  lemma AndMask(a: Bits, prefix: nat)
    requires prefix <= |a|
    ensures And(a, Mask(|a|, prefix)) == a[..prefix] + Zero(|a| - prefix)
  {
  }

  /** Equal under a mask is equal in the first `prefix` bits. */
  lemma MaskedEqual(a: Bits, b: Bits, prefix: nat)
    requires |a| == |b| && prefix <= |a|
    ensures And(a, Mask(|a|, prefix)) == And(b, Mask(|b|, prefix)) <==> a[..prefix] == b[..prefix]
  {
    AndMask(a, prefix);
    AndMask(b, prefix);
    var x, y := a[..prefix] + Zero(|a| - prefix), b[..prefix] + Zero(|b| - prefix);
    assert x[..prefix] == a[..prefix] && y[..prefix] == b[..prefix];
  }

  // ---------------------------------------------------------------------
  // CIDR blocks
  // ---------------------------------------------------------------------

  datatype RawCidr = Cidr(net: Ip, prefix: nat)

  /** What `parse_cidr` returns: the prefix fits the family. Host bits may be set. */
  type Cidr = c: RawCidr | c.prefix <= c.net.Width() witness RawCidr.Cidr(V4(Zero(32)), 0)

  /** The addresses a block covers: same family, same first `prefix` bits. */
  predicate InBlock(a: Ip, c: Cidr) {
    a.V4? == c.net.V4? && a.bits[..c.prefix] == c.net.bits[..c.prefix]
  }

  ghost predicate Meet(c: Cidr, d: Cidr) {
    exists a: Ip :: InBlock(a, c) && InBlock(a, d)
  }

  /** Two blocks of a family meet exactly if they agree on the shorter prefix: then the
      one with the longer prefix is inside the other. */
  lemma BlocksMeet(c: Cidr, d: Cidr)
    ensures var p := if c.prefix < d.prefix then c.prefix else d.prefix;
            Meet(c, d) <==> c.net.V4? == d.net.V4? && c.net.bits[..p] == d.net.bits[..p]
  {
    var p := if c.prefix < d.prefix then c.prefix else d.prefix;
    if Meet(c, d) {
      var a: Ip :| InBlock(a, c) && InBlock(a, d);
      assert a.bits[..p] == a.bits[..c.prefix][..p] == a.bits[..d.prefix][..p];
      assert c.net.bits[..c.prefix][..p] == c.net.bits[..p] && d.net.bits[..d.prefix][..p] == d.net.bits[..p];
    }
    if c.net.V4? == d.net.V4? && c.net.bits[..p] == d.net.bits[..p] {
      var inner, outer := if c.prefix < d.prefix then d else c, if c.prefix < d.prefix then c else d;
      assert InBlock(inner.net, inner) && InBlock(inner.net, outer);
    }
  }

  // ---------------------------------------------------------------------
  // Reading a CIDR
  // ---------------------------------------------------------------------

  /** `str::parse::<u32>`. */
  function ParseU32(s: string): Option<nat> {
    var digits := if s != "" && s[0] == '+' then s[1..] else s;
    if digits == "" || !AllDigits(digits) || Value(digits) >= 0x1_0000_0000 then None else Some(Value(digits))
  }

  function SplitSlash(s: string): (string, Option<string>) {
    match Find(s, '/')
    case None => (s, None)
    case Some(i) => (s[..i], Some(s[i + 1..]))
  }

  /** What follows the first slash is the prefix, which must fit the family; without a slash
      it is the full width. `parseIp` reads what comes before. */
  function ParseCidr(s: string, parseIp: string -> Option<Ip>): Option<Cidr> {
    var (addr, p) := SplitSlash(s);
    var prefix := match p case None => None case Some(t) => ParseU32(Trim(t));
    if p.Some? && prefix.None? then None
    else match parseIp(Trim(addr))
      case None => None
      case Some(ip) =>
        var n := if prefix.Some? then prefix.value else ip.Width();
        if n > ip.Width() then None else Some(RawCidr.Cidr(ip, n))
  }

  lemma TrimDigits(d: string)
    requires d != "" && AllDigits(d)
    ensures Trim(d) == d
  {
    assert !IsSpace(d[0]) && !IsSpace(d[|d| - 1]);
    TrimSelf(d);
  }

  lemma SplitPrinted(addr: string, d: string)
    requires '/' !in addr && '/' !in d
    ensures SplitSlash(addr + ['/'] + d) == (addr, Some(d))
  {
    var s := addr + ['/'] + d;
    FindUnique(s, '/', |addr|);
    assert s[..|addr|] == addr && s[|addr| + 1..] == d;
  }

  lemma DecimalParses(n: nat, d: string)
    requires n < 0x1_0000_0000 && d == Decimal(n)
    ensures ParseU32(Trim(d)) == Some(n) && '/' !in d
  {
    TrimDigits(d);
    DecimalValue(n);
    assert d[0] != '+';
  }

  lemma ParseParts(s: string, parseIp: string -> Option<Ip>, addr: string, d: string, n: nat, ip: Ip)
    requires SplitSlash(s) == (addr, Some(d)) && ParseU32(Trim(d)) == Some(n) && parseIp(Trim(addr)) == Some(ip)
    ensures ParseCidr(s, parseIp) == if n <= ip.Width() then Some(RawCidr.Cidr(ip, n)) else None
  {
  }

  /** A printed block, `address/prefix`, reads back as that block exactly if the prefix
      fits the family. */
  lemma PrintedCidr(addr: string, n: nat, parseIp: string -> Option<Ip>, ip: Ip, d: string)
    requires '/' !in addr && parseIp(Trim(addr)) == Some(ip) && n < 0x1_0000_0000 && d == Decimal(n)
    ensures ParseCidr(addr + ['/'] + d, parseIp) == if n <= ip.Width() then Some(RawCidr.Cidr(ip, n)) else None
  {
    DecimalParses(n, d);
    SplitPrinted(addr, d);
    ParseParts(addr + ['/'] + d, parseIp, addr, d, n, ip);
  }

  /** `s` is these two parts around its first slash. */
  predicate Slashed(s: string, addr: string, d: string) {
    '/' !in addr && s == addr + ['/'] + d
  }

  /** A decimal number of 32 bits, perhaps with a plus sign. */
  predicate Writes(t: string, digits: string, n: nat) {
    digits != "" && AllDigits(digits) && Value(digits) == n < 0x1_0000_0000 && (t == digits || t == ['+'] + digits)
  }

  lemma ParseU32Exactly(t: string, n: nat)
    ensures ParseU32(t) == Some(n) <==> exists digits :: Writes(t, digits, n)
  {
    if ParseU32(t) == Some(n) {
      var digits := if t != "" && t[0] == '+' then t[1..] else t;
      assert t == digits || t == ['+'] + digits;
      assert Writes(t, digits, n);
    }
    if digits :| Writes(t, digits, n) {
      assert t == ['+'] + digits ==> t[1..] == digits;
      assert t == digits ==> t[0] != '+';
    }
  }

  lemma SlashedParts(s: string, addr: string, d: string)
    ensures SplitSlash(s) == (addr, Some(d)) <==> Slashed(s, addr, d)
  {
    if SplitSlash(s) == (addr, Some(d)) {
      assert s == addr + ['/'] + d;
    }
    if Slashed(s, addr, d) {
      FindUnique(s, '/', |addr|);
      assert s[..|addr|] == addr && s[|addr| + 1..] == d;
    }
  }

  lemma ParseSlashed(s: string, parseIp: string -> Option<Ip>, addr: string, d: string, c: Cidr)
    requires Slashed(s, addr, d)
    ensures ParseCidr(s, parseIp) == Some(c) <==> parseIp(Trim(addr)) == Some(c.net) && ParseU32(Trim(d)) == Some(c.prefix)
  {
    SlashedParts(s, addr, d);
  }

  /** What reads as the block `c`, exactly: a bare address at full width, or an address and a
      prefix that fits its family. Anything else, as a prefix that is no number, does not. */
  lemma ParseCidrExactly(s: string, parseIp: string -> Option<Ip>, c: Cidr)
    ensures ParseCidr(s, parseIp) == Some(c) <==>
            || ('/' !in s && parseIp(Trim(s)) == Some(c.net) && c.prefix == c.net.Width())
            || exists addr, d, digits ::
                 Slashed(s, addr, d) && parseIp(Trim(addr)) == Some(c.net) && Writes(Trim(d), digits, c.prefix)
  {
    match SplitSlash(s)
    case (addr, Some(d)) =>
      SlashedParts(s, addr, d);
      ParseSlashed(s, parseIp, addr, d, c);
      ParseU32Exactly(Trim(d), c.prefix);
      assert s[|addr|] == '/';
      forall addr', d' | Slashed(s, addr', d')
        ensures addr' == addr && d' == d
      {
        SlashedParts(s, addr', d');
      }
    case (addr, None) =>
      forall addr', d' | Slashed(s, addr', d')
        ensures false
      {
        SlashedParts(s, addr', d');
      }
  }

  /** `a` is in one of the configured networks, read by `parse`; entries that do not parse
      hold nothing. */
  ghost predicate InAny(a: Ip, cidrs: seq<string>, parse: string -> Option<Cidr>) {
    exists i :: 0 <= i < |cidrs| && parse(cidrs[i]).Some? && InBlock(a, parse(cidrs[i]).value)
  }

  // ---------------------------------------------------------------------
  // Bits and numbers
  // ---------------------------------------------------------------------

  function Pow2(k: nat): (r: nat)
    ensures r >= 1
  {
    if k == 0 then 1 else 2 * Pow2(k - 1)
  }

  /** The lowest `k` bits of a number. */
  function BitsOf(n: nat, k: nat): (r: Bits)
    ensures |r| == k
  {
    if k == 0 then [] else BitsOf(n / 2, k - 1) + [n % 2 == 1]
  }

  /** The number a bit string writes. */
  function NumberOf(b: Bits): nat {
    if b == [] then 0 else NumberOf(b[..|b| - 1]) * 2 + if b[|b| - 1] then 1 else 0
  }

  lemma {:induction false} BitsRoundTrip(n: nat, k: nat)
    requires n < Pow2(k)
    ensures NumberOf(BitsOf(n, k)) == n
  {
    if k > 0 {
      BitsRoundTrip(n / 2, k - 1);
      assert BitsOf(n, k)[..k - 1] == BitsOf(n / 2, k - 1);
    }
  }

  lemma {:induction false} NumberBelow(b: Bits)
    ensures NumberOf(b) < Pow2(|b|)
  {
    if b != [] {
      NumberBelow(b[..|b| - 1]);
    }
  }

  /** Bit strings of one length write different numbers. */
  lemma {:induction false} NumberInjective(a: Bits, b: Bits)
    requires |a| == |b|
    ensures NumberOf(a) == NumberOf(b) <==> a == b
  {
    if a != [] {
      var n := |a| - 1;
      NumberInjective(a[..n], b[..n]);
      assert a == a[..n] + [a[n]] && b == b[..n] + [b[n]];
    }
  }

  lemma NumberLast(init: Bits, last: bool)
    ensures NumberOf(init + [last]) == NumberOf(init) * 2 + if last then 1 else 0
  {
    assert (init + [last])[..|init|] == init;
  }

  lemma OneMoreBit(x: nat, p: nat, y: nat, bit: nat)
    ensures (x * p + y) * 2 + bit == x * (2 * p) + (y * 2 + bit)
  {
  }

  lemma JoinedMore(a: Bits, init: Bits, last: bool)
    requires NumberOf(a + init) == NumberOf(a) * Pow2(|init|) + NumberOf(init)
    ensures NumberOf(a + init + [last]) == NumberOf(a) * Pow2(|init| + 1) + NumberOf(init + [last])
  {
    NumberLast(a + init, last);
    NumberLast(init, last);
    OneMoreBit(NumberOf(a), Pow2(|init|), NumberOf(init), if last then 1 else 0);
  }

  lemma {:induction false} NumberJoined(a: Bits, b: Bits)
    ensures NumberOf(a + b) == NumberOf(a) * Pow2(|b|) + NumberOf(b)
    decreases |b|
  {
    if b == [] {
      assert a + b == a;
    } else {
      var init, n := b[..|b| - 1], |b| - 1;
      NumberJoined(a, init);
      assert a + b == a + init + [b[n]] && b == init + [b[n]];
      JoinedMore(a, init, b[n]);
    }
  }

  lemma {:induction false} NumberZero(k: nat)
    ensures NumberOf(Zero(k)) == 0
  {
    if k > 0 {
      NumberZero(k - 1);
      assert Zero(k)[..k - 1] == Zero(k - 1);
    }
  }

  lemma {:induction false} NumberOnes(k: nat)
    ensures NumberOf(Ones(k)) == Pow2(k) - 1
  {
    if k > 0 {
      NumberOnes(k - 1);
      assert Ones(k)[..k - 1] == Ones(k - 1);
    }
  }

  lemma MulMono(x: nat, y: nat, step: nat)
    requires x <= y
    ensures x * step <= y * step
  {
  }

  lemma SameQuotient(x: nat, r: nat, y: nat, step: nat, total: nat, low: nat)
    requires r < step && total == x * step + r && low == y * step
    ensures low <= total < low + step <==> x == y
  {
    if x < y {
      MulMono(x + 1, y, step);
    } else if y < x {
      MulMono(y + 1, x, step);
    }
  }

  lemma JoinedNumber(front: Bits, rest: Bits, step: nat) returns (x: nat, r: nat, total: nat)
    requires step == Pow2(|rest|)
    ensures x == NumberOf(front) && r == NumberOf(rest) < step
    ensures total == NumberOf(front + rest) == x * step + r
  {
    NumberJoined(front, rest);
    NumberBelow(rest);
    x, r, total := NumberOf(front), NumberOf(rest), NumberOf(front + rest);
  }

  /** Starting with the bits `q` is a range of numbers. */
  lemma PrefixRange(b: Bits, q: Bits, step: nat, low: nat)
    requires |q| <= |b| && step == Pow2(|b| - |q|) && low == NumberOf(q) * step
    ensures b[..|q|] == q <==> low <= NumberOf(b) < low + step
  {
    var front, rest := b[..|q|], b[|q|..];
    assert b == front + rest;
    var x, r, total := JoinedNumber(front, rest, step);
    NumberInjective(front, q);
    SameQuotient(x, r, NumberOf(q), step, total, low);
  }

  lemma {:induction false} PowSum(i: nat, j: nat)
    ensures Pow2(i + j) == Pow2(i) * Pow2(j)
  {
    if i > 0 {
      PowSum(i - 1, j);
      assert 2 * (Pow2(i - 1) * Pow2(j)) == (2 * Pow2(i - 1)) * Pow2(j);
    }
  }

  /** The powers the address ranges need. */
  lemma PowValues(k: nat)
    requires k == 4
    ensures Pow2(k) == 16 && Pow2(2 * k) == 0x100 && Pow2(4 * k) == 0x1_0000 && Pow2(6 * k) == 0x100_0000
    ensures Pow2(7 * k) == 0x1000_0000 && Pow2(8 * k) == 0x1_0000_0000
  {
    assert Pow2(k) == 2 * Pow2(k - 1) && Pow2(k - 1) == 2 * Pow2(k - 2) && Pow2(k - 2) == 2 * Pow2(k - 3) && Pow2(k - 3) == 2;
    PowSum(k, k);
    PowSum(2 * k, 2 * k);
    PowSum(2 * k, 4 * k);
    PowSum(k, 6 * k);
    PowSum(4 * k, 4 * k);
  }

  lemma PowWide(k: nat)
    requires k == 4
    ensures Pow2(30 * k) == 0x100_0000_0000_0000_0000_0000_0000_0000
    ensures Pow2(29 * k + 2) == 0x40_0000_0000_0000_0000_0000_0000_0000
    ensures Pow2(24 * k) == 0x1_0000_0000_0000_0000_0000_0000 && Pow2(32 * k) == 0x1_0000_0000_0000_0000_0000_0000_0000_0000
  {
    PowValues(k);
    PowSum(8 * k, 8 * k);
    PowSum(8 * k, 16 * k);
    PowSum(6 * k, 24 * k);
    PowSum(8 * k, 24 * k);
    assert Pow2(30 * k) == 2 * Pow2(29 * k + 3) && Pow2(29 * k + 3) == 2 * Pow2(29 * k + 2);
  }

  // ---------------------------------------------------------------------
  // IPv4 inside IPv6
  // ---------------------------------------------------------------------

  /** `to_ipv4_mapped`: `::ffff:a.b.c.d`. */
  function Mapped(a: Ip): (r: Option<Ip>)
    ensures r.Some? ==> a.V6? && r.value.V4?
  {
    if a.V6? && a.bits[..96] == Zero(80) + Ones(16) then Some(V4(a.bits[96..])) else None
  }

  function MappedOf(b: Bits): Ip
    requires |b| == 32
  {
    V6(Zero(80) + Ones(16) + b)
  }

  lemma MappedRoundTrip(a: Ip)
    ensures Mapped(a).Some? ==> a == MappedOf(Mapped(a).value.bits)
    ensures a.V4? ==> Mapped(MappedOf(a.bits)) == Some(a)
  {
    if Mapped(a).Some? {
      assert a.bits == a.bits[..96] + a.bits[96..];
    }
    if a.V4? {
      var b := Zero(80) + Ones(16) + a.bits;
      assert b[..96] == Zero(80) + Ones(16) && b[96..] == a.bits;
    }
  }

  // ---------------------------------------------------------------------
  // Special addresses
  // ---------------------------------------------------------------------

  /** The bits of a byte. */
  function Byte(n: nat): (r: Bits)
    requires n < 256
    ensures |r| == 8
  {
    BitsOf(n, 8)
  }

  /** Four bytes in a row, as in a dotted address. */
  function Quad(k: nat, l: nat, m: nat, n: nat): (r: Bits)
    requires k < 256 && l < 256 && m < 256 && n < 256
    ensures |r| == 32
  {
    Byte(k) + Byte(l) + Byte(m) + Byte(n)
  }

  predicate Unspecified(a: Ip) {
    a.bits == Zero(a.Width())
  }

  predicate Loopback(a: Ip) {
    if a.V4? then a.bits[..8] == Byte(127) else a.bits == Zero(127) + [true]
  }

  predicate Multicast(a: Ip) {
    if a.V4? then a.bits[..4] == BitsOf(14, 4) else a.bits[..8] == Ones(8)
  }

  predicate LinkLocal(a: Ip) {
    if a.V4? then a.bits[..16] == Byte(169) + Byte(254) else a.bits[..10] == BitsOf(0x3fa, 10)
  }

  predicate Broadcast(a: Ip) {
    a.V4? && a.bits == Ones(32)
  }

  // ---------------------------------------------------------------------
  // The same by number
  // ---------------------------------------------------------------------

  lemma ByteNumber(n: nat)
    requires n < 256
    ensures NumberOf(Byte(n)) == n
  {
    PowValues(4);
    BitsRoundTrip(n, 8);
  }

  /** `a` is one IPv4 address inside IPv6, `::ffff:0:0` with the IPv4 address in the lowest
      bits. */
  lemma MappedByNumber(a: Ip, v4: Ip)
    ensures Mapped(a) == Some(v4) <==> a.V6? && v4.V4? && NumberOf(a.bits) == 0xffff_0000_0000 + NumberOf(v4.bits)
  {
    if a.V6? && v4.V4? {
      var front := Zero(80) + Ones(16);
      NumberJoined(front, v4.bits);
      NumberJoined(Zero(80), Ones(16));
      NumberZero(80);
      NumberOnes(16);
      PowValues(4);
      NumberInjective(a.bits, front + v4.bits);
      assert a.bits == a.bits[..96] + a.bits[96..];
      assert (front + v4.bits)[..96] == front && (front + v4.bits)[96..] == v4.bits;
    }
  }

  lemma UnspecifiedByNumber(a: Ip)
    ensures Unspecified(a) <==> NumberOf(a.bits) == 0
  {
    NumberInjective(a.bits, Zero(a.Width()));
    NumberZero(a.Width());
  }

  lemma BroadcastByNumber(a: Ip)
    ensures Broadcast(a) <==> a.V4? && NumberOf(a.bits) == 0xffff_ffff
  {
    if a.V4? {
      NumberInjective(a.bits, Ones(32));
      NumberOnes(32);
      PowValues(4);
    }
  }

  /** 127.0.0.0/8 and ::1. */
  lemma LoopbackByNumber(a: Ip)
    ensures var n := NumberOf(a.bits); Loopback(a) <==> if a.V4? then 0x7f00_0000 <= n < 0x8000_0000 else n == 1
  {
    if a.V4? {
      ByteNumber(127);
      PowValues(4);
      PrefixRange(a.bits, Byte(127), 0x100_0000, 0x7f00_0000);
    } else {
      NumberInjective(a.bits, Zero(127) + [true]);
      NumberLast(Zero(127), true);
      NumberZero(127);
    }
  }

  /** 224.0.0.0/4 and ff00::/8. */
  lemma MulticastByNumber(a: Ip)
    ensures var n := NumberOf(a.bits);
            Multicast(a) <==> if a.V4? then 0xe000_0000 <= n < 0xf000_0000
                              else n >= 0xff00_0000_0000_0000_0000_0000_0000_0000
  {
    PowValues(4);
    PowWide(4);
    if a.V4? {
      BitsRoundTrip(14, 4);
      PrefixRange(a.bits, BitsOf(14, 4), 0x1000_0000, 0xe000_0000);
    } else {
      NumberOnes(8);
      PrefixRange(a.bits, Ones(8), 0x100_0000_0000_0000_0000_0000_0000_0000, 0xff00_0000_0000_0000_0000_0000_0000_0000);
      NumberBelow(a.bits);
    }
  }

  /** 169.254.0.0/16 and fe80::/10. */
  lemma LinkLocalByNumber(a: Ip)
    ensures var n := NumberOf(a.bits);
            LinkLocal(a) <==> if a.V4? then 0xa9fe_0000 <= n < 0xa9ff_0000
                              else 0xfe80_0000_0000_0000_0000_0000_0000_0000 <= n
                                   < 0xfec0_0000_0000_0000_0000_0000_0000_0000
  {
    if a.V4? {
      TwoBytes(169, 254);
      LinkV4(a.bits, Byte(169) + Byte(254));
    } else {
      LinkBits(0x3fa, 10);
      LinkV6(a.bits, BitsOf(0x3fa, 10));
    }
  }

  lemma LinkV4(b: Bits, q: Bits)
    requires |b| == 32 && |q| == 16 && NumberOf(q) == 0xa9fe
    ensures b[..16] == q <==> 0xa9fe_0000 <= NumberOf(b) < 0xa9ff_0000
  {
    PowValues(4);
    PrefixRange(b, q, 0x1_0000, 0xa9fe_0000);
  }

  lemma LinkV6(b: Bits, q: Bits)
    requires |b| == 128 && |q| == 10 && NumberOf(q) == 0x3fa
    ensures b[..10] == q <==> 0xfe80_0000_0000_0000_0000_0000_0000_0000 <= NumberOf(b)
                              < 0xfec0_0000_0000_0000_0000_0000_0000_0000
  {
    PowWide(4);
    PrefixRange(b, q, 0x40_0000_0000_0000_0000_0000_0000_0000, 0xfe80_0000_0000_0000_0000_0000_0000_0000);
  }

  lemma ByteMore(front: Bits, n: nat)
    requires n < 256
    ensures NumberOf(front + Byte(n)) == NumberOf(front) * 256 + n
  {
    ByteNumber(n);
    PowValues(4);
    NumberJoined(front, Byte(n));
  }

  lemma TwoBytes(m: nat, n: nat)
    requires m < 256 && n < 256
    ensures NumberOf(Byte(m) + Byte(n)) == m * 256 + n
  {
    ByteNumber(m);
    ByteMore(Byte(m), n);
  }

  lemma QuadNumber(k: nat, l: nat, m: nat, n: nat)
    requires k < 256 && l < 256 && m < 256 && n < 256
    ensures NumberOf(Quad(k, l, m, n)) == ((k * 256 + l) * 256 + m) * 256 + n
  {
    TwoBytes(k, l);
    ByteMore(Byte(k) + Byte(l), m);
    ByteMore(Byte(k) + Byte(l) + Byte(m), n);
  }

  lemma LinkBits(n: nat, k: nat)
    requires k == 10 && n < 1024
    ensures NumberOf(BitsOf(n, k)) == n
  {
    TenBits(k);
    BitsRoundTrip(n, k);
  }

  lemma TenBits(k: nat)
    requires k == 10
    ensures Pow2(k) == 1024
  {
    PowValues(4);
    PowSum(k - 8, 8);
    assert Pow2(k - 8) == 2 * Pow2(k - 9) && Pow2(k - 9) == 2;
  }
}
