/** What blocking an address covers and when it is refused, hermian/src/blocklist.rs, and
    how allowlist rules match, hermian-core/src/allowlist.rs. */
module Blocklist {
  import opened Common
  import opened Addresses

  /** The element a block adds to the firewall's sets. */
  datatype BlockKey = One(addr: Bits) | Net64(net: Bits)

  function KeyOf(ip: Ip): BlockKey {
    match ip
    case V4(b) => One(b)
    case V6(b) =>
      match Mapped(ip)
      case Some(v4) => One(v4.bits)
      case None => Net64(And(b, Mask(128, 64)))
  }

  predicate Covers(key: BlockKey, a: Ip) {
    match key
    case One(b) => a == V4(b)
    case Net64(net) => a.V6? && And(a.bits, Mask(128, 64)) == net
  }

  predicate CidrContains(c: Cidr, ip: Ip) {
    && c.net.V4? == ip.V4?
    && And(c.net.bits, Mask(c.net.Width(), c.prefix)) == And(ip.bits, Mask(ip.Width(), c.prefix))
  }

  /** Equal in the bits that both the network and a /64 fix. */
  predicate OverlapsV6(c: Cidr, ip: Ip) {
    && c.net.V6? && ip.V6?
    && var p := if c.prefix < 64 then c.prefix else 64;
       And(c.net.bits, Mask(128, p)) == And(ip.bits, Mask(128, p))
  }

  predicate Special(ip: Ip) {
    Loopback(ip) || Unspecified(ip) || Broadcast(ip) || Multicast(ip) || LinkLocal(ip)
  }

  predicate Managed(c: Cidr, ip: Ip) {
    CidrContains(c, ip) || OverlapsV6(c, ip)
  }

  /** The special addresses by number. IPv4: 0.0.0.0, 127.0.0.0/8, 169.254.0.0/16,
      224.0.0.0/4 and 255.255.255.255. IPv6: `::`, `::1`, fe80::/10 and ff00::/8. */
  predicate SpecialNumber(ip: Ip) {
    var n := NumberOf(ip.bits);
    if ip.V4? then
      || n == 0 || 0x7f00_0000 <= n < 0x8000_0000 || 0xa9fe_0000 <= n < 0xa9ff_0000
      || 0xe000_0000 <= n < 0xf000_0000 || n == 0xffff_ffff
    else
      || n <= 1
      || 0xfe80_0000_0000_0000_0000_0000_0000_0000 <= n < 0xfec0_0000_0000_0000_0000_0000_0000_0000
      || n >= 0xff00_0000_0000_0000_0000_0000_0000_0000
  }

  lemma SpecialByNumber(ip: Ip)
    ensures Special(ip) <==> SpecialNumber(ip)
  {
    LoopbackByNumber(ip);
    UnspecifiedByNumber(ip);
    BroadcastByNumber(ip);
    MulticastByNumber(ip);
    LinkLocalByNumber(ip);
  }

  datatype Refusal = SpecialAddress | ManagementNetwork(cidr: string) | AllowlistedSource

  /** Whether the rule's block holds the address; an IPv4 rule also holds it inside IPv6. */
  predicate IpMatches(ip: Ip, c: Cidr)
    decreases ip.V6?
  {
    if ip.V4? == c.net.V4? then
      c.prefix == 0 || And(ip.bits, Mask(ip.Width(), c.prefix)) == And(c.net.bits, Mask(c.net.Width(), c.prefix))
    else if ip.V6? then
      match Mapped(ip)
      case None => false
      case Some(v4) => IpMatches(v4, c)
    else false
  }

  predicate SourceAllowed(ip: Ip, sources: seq<string>, parse: string -> Option<Cidr>) {
    exists i :: 0 <= i < |sources|
      && parse(sources[i]).Some? && IpMatches(ip, parse(sources[i]).value)
  }

  /** The first management block from `i` on that holds part of what would be blocked. */
  function FirstManaged(ip: Ip, cidrs: seq<string>, parse: string -> Option<Cidr>, i: nat): (r: Option<nat>)
    requires i <= |cidrs|
    ensures r.Some? ==> i <= r.value < |cidrs| && parse(cidrs[r.value]).Some?
                        && Managed(parse(cidrs[r.value]).value, ip)
    ensures r.None? ==> forall j :: i <= j < |cidrs| && parse(cidrs[j]).Some?
                          ==> !Managed(parse(cidrs[j]).value, ip)
    decreases |cidrs| - i
  {
    if i == |cidrs| then None
    else match parse(cidrs[i])
      case Some(c) => if Managed(c, ip) then Some(i) else FirstManaged(ip, cidrs, parse, i + 1)
      case None => FirstManaged(ip, cidrs, parse, i + 1)
  }

  /** The first reason that applies: a special address, a management network, an allowlisted source. */
  function Refuse(ip: Ip, cidrs: seq<string>, sources: seq<string>, parse: string -> Option<Cidr>): Option<Refusal> {
    if Special(ip) then Some(SpecialAddress)
    else match FirstManaged(ip, cidrs, parse, 0)
      case Some(i) => Some(ManagementNetwork(cidrs[i]))
      case None => if SourceAllowed(ip, sources, parse) then Some(AllowlistedSource) else None
  }

  // ---------------------------------------------------------------------
  // The management test is exact
  // ---------------------------------------------------------------------

  /** The block a key names. */
  function Range(ip: Ip): Cidr {
    RawCidr.Cidr(ip, if ip.V4? then 32 else 64)
  }

  /** For native addresses the key covers exactly that block. */
  lemma KeyCovers(ip: Ip, a: Ip)
    requires Mapped(ip).None?
    ensures Covers(KeyOf(ip), a) <==> InBlock(a, Range(ip))
    ensures Covers(KeyOf(ip), a) <==> if ip.V4? then a == ip else a.V6? && a.bits[..64] == ip.bits[..64]
  {
    match ip
    case V4(b) =>
      if InBlock(a, Range(ip)) {
        assert a.bits[..32] == a.bits && b[..32] == b;
      }
    case V6(b) =>
      if a.V6? {
        MaskedEqual(a.bits, b, 64);
      }
  }

  /** Blocking another address of the block names the same key, and only those do. */
  lemma SameKey(ip: Ip, a: Ip)
    requires Mapped(ip).None? && Mapped(a).None?
    ensures KeyOf(a) == KeyOf(ip) <==> InBlock(a, Range(ip))
  {
    if a.V6? && ip.V6? {
      MaskedEqual(a.bits, ip.bits, 64);
    } else if a.V4? && ip.V4? {
      assert a.bits[..32] == a.bits && ip.bits[..32] == ip.bits;
    }
  }

  /** The management test fires exactly if the network and the address's own range, in
      the family it was given in, share an address. */
  lemma ManagedExactly(c: Cidr, ip: Ip)
    ensures Managed(c, ip) <==> Meet(c, Range(ip))
  {
    BlocksMeet(c, Range(ip));
    if c.net.V4? == ip.V4? {
      MaskedEqual(c.net.bits, ip.bits, c.prefix);
      if ip.V6? {
        MaskedEqual(c.net.bits, ip.bits, if c.prefix < 64 then c.prefix else 64);
        if CidrContains(c, ip) && c.prefix > 64 {
          assert c.net.bits[..64] == c.net.bits[..c.prefix][..64] && ip.bits[..64] == ip.bits[..c.prefix][..64];
        }
      }
    }
  }

  /** A block that is not refused covers no address of any management network. */
  lemma BlockSparesManagement(ip: Ip, cidrs: seq<string>, sources: seq<string>, parse: string -> Option<Cidr>, a: Ip)
    requires Mapped(ip).None? && Refuse(ip, cidrs, sources, parse).None? && Covers(KeyOf(ip), a)
    ensures !InAny(a, cidrs, parse)
  {
    if InAny(a, cidrs, parse) {
      var i :| 0 <= i < |cidrs| && parse(cidrs[i]).Some? && InBlock(a, parse(cidrs[i]).value);
      ManagedExactly(parse(cidrs[i]).value, ip);
      KeyCovers(ip, a);
    }
  }

  /** Whether blocking `ip` is refused or spares every management network. */
  ghost predicate Safe(ip: Ip, cidrs: seq<string>, sources: seq<string>, parse: string -> Option<Cidr>) {
    Refuse(ip, cidrs, sources, parse).None? ==> forall a: Ip :: Covers(KeyOf(ip), a) ==> !InAny(a, cidrs, parse)
  }

  /** Some network of a list meets the range of `ip`, in the family it was given in. */
  ghost predicate AnyMeets(ip: Ip, cidrs: seq<string>, parse: string -> Option<Cidr>) {
    exists i :: 0 <= i < |cidrs| && parse(cidrs[i]).Some? && Meet(parse(cidrs[i]).value, Range(ip))
  }

  lemma FirstManagedExactly(ip: Ip, cidrs: seq<string>, parse: string -> Option<Cidr>)
    ensures FirstManaged(ip, cidrs, parse, 0).Some? <==> AnyMeets(ip, cidrs, parse)
  {
    forall c: Cidr
      ensures Managed(c, ip) <==> Meet(c, Range(ip))
    {
      ManagedExactly(c, ip);
    }
  }

  /** An IPv4 address given inside IPv6 is blocked as IPv4 but tested as given. For it the
      guarantee fails exactly if a management network holds the IPv4 address, none meets
      the IPv6 /64 it came in, and no allowlisted source matches it. */
  lemma MappedBlock(ip: Ip, cidrs: seq<string>, sources: seq<string>, parse: string -> Option<Cidr>)
    requires Mapped(ip).Some?
    ensures !Safe(ip, cidrs, sources, parse) <==>
            && InAny(Mapped(ip).value, cidrs, parse)
            && !AnyMeets(ip, cidrs, parse)
            && !SourceAllowed(ip, sources, parse)
  {
    var v4 := Mapped(ip).value;
    assert forall a: Ip :: Covers(KeyOf(ip), a) <==> a == v4;
    MappedRoundTrip(ip);
    MappedNotSpecial(v4.bits);
    FirstManagedExactly(ip, cidrs, parse);
  }

  lemma MappedNotSpecial(b: Bits)
    requires |b| == 32
    ensures !Special(MappedOf(b))
  {
    var ip := MappedOf(b);
    MappedRoundTrip(V4(b));
    MappedByNumber(ip, V4(b));
    NumberBelow(b);
    PowValues(4);
    SpecialByNumber(ip);
  }

  /** The failing family: with one IPv4 management network, each of its addresses given
      inside IPv6 is accepted for blocking, and the block covers it. */
  lemma MappedSlipsThrough(v4: Ip, s: string, parse: string -> Option<Cidr>)
    requires v4.V4? && parse(s).Some? && InBlock(v4, parse(s).value)
    ensures var ip := MappedOf(v4.bits);
            Refuse(ip, [s], [], parse).None? && Covers(KeyOf(ip), v4) && !Safe(ip, [s], [], parse)
  {
    var ip := MappedOf(v4.bits);
    MappedRoundTrip(v4);
    MappedNotSpecial(v4.bits);
    assert FirstManaged(ip, [s], parse, 1).None?;
    assert [s][0] == s && InAny(v4, [s], parse);
  }

  /** A refusal for a management network is right: the named network really holds an
      address the block would cover. */
  lemma RefusalIsReal(ip: Ip, cidrs: seq<string>, sources: seq<string>, parse: string -> Option<Cidr>)
    requires Mapped(ip).None? && Refuse(ip, cidrs, sources, parse).Some?
    requires Refuse(ip, cidrs, sources, parse).value.ManagementNetwork?
    ensures var s := Refuse(ip, cidrs, sources, parse).value.cidr;
            && s in cidrs && parse(s).Some?
            && exists a: Ip :: Covers(KeyOf(ip), a) && InBlock(a, parse(s).value)
  {
    var i := FirstManaged(ip, cidrs, parse, 0).value;
    var c := parse(cidrs[i]).value;
    ManagedExactly(c, ip);
    var a: Ip :| InBlock(a, c) && InBlock(a, Range(ip));
    KeyCovers(ip, a);
  }

  /** An allowlist rule matches exactly the addresses of its block, IPv4 ones also when
      they come inside IPv6. */
  lemma MatchesExactly(ip: Ip, c: Cidr)
    ensures IpMatches(ip, c) <==> InBlock(ip, c) || (c.net.V4? && Mapped(ip).Some? && InBlock(Mapped(ip).value, c))
  {
    if ip.V4? == c.net.V4? {
      MaskedEqual(ip.bits, c.net.bits, c.prefix);
    } else if Mapped(ip).Some? && c.net.V4? {
      MaskedEqual(Mapped(ip).value.bits, c.net.bits, c.prefix);
    }
  }

  // ---------------------------------------------------------------------
  // When a block is refused, exactly
  // ---------------------------------------------------------------------

  /** The block holds the address, or the IPv4 address that it is inside IPv6. */
  ghost predicate Holds(c: Cidr, ip: Ip) {
    || InBlock(ip, c)
    || exists v4: Ip :: v4.V4? && InBlock(v4, c) && ip.V6? && NumberOf(ip.bits) == 0xffff_0000_0000 + NumberOf(v4.bits)
  }

  ghost predicate AnyHolds(ip: Ip, sources: seq<string>, parse: string -> Option<Cidr>) {
    exists i :: 0 <= i < |sources| && parse(sources[i]).Some? && Holds(parse(sources[i]).value, ip)
  }

  lemma MatchesHolds(ip: Ip, c: Cidr)
    ensures IpMatches(ip, c) <==> Holds(c, ip)
  {
    MatchesExactly(ip, c);
    forall v4: Ip
      ensures Mapped(ip) == Some(v4) <==> ip.V6? && v4.V4? && NumberOf(ip.bits) == 0xffff_0000_0000 + NumberOf(v4.bits)
    {
      MappedByNumber(ip, v4);
    }
    if Mapped(ip).Some? && InBlock(Mapped(ip).value, c) {
      assert Holds(c, ip);
    }
  }

  lemma AllowedExactly(ip: Ip, sources: seq<string>, parse: string -> Option<Cidr>)
    ensures SourceAllowed(ip, sources, parse) <==> AnyHolds(ip, sources, parse)
  {
    forall c: Cidr
      ensures IpMatches(ip, c) <==> Holds(c, ip)
    {
      MatchesHolds(ip, c);
    }
  }

  /** The `i`-th entry is the first whose network meets the range of `ip`. */
  ghost predicate FirstMeeting(ip: Ip, cidrs: seq<string>, parse: string -> Option<Cidr>, i: nat) {
    && i < |cidrs| && parse(cidrs[i]).Some? && Meet(parse(cidrs[i]).value, Range(ip))
    && forall j: nat :: j < i && parse(cidrs[j]).Some? ==> !Meet(parse(cidrs[j]).value, Range(ip))
  }

  lemma {:induction false} FirstManagedFirst(ip: Ip, cidrs: seq<string>, parse: string -> Option<Cidr>, i: nat, j: nat)
    requires i <= j < |cidrs| && FirstManaged(ip, cidrs, parse, i).Some? && j < FirstManaged(ip, cidrs, parse, i).value
    requires parse(cidrs[j]).Some?
    ensures !Managed(parse(cidrs[j]).value, ip)
    decreases j - i
  {
    if i < j {
      FirstManagedFirst(ip, cidrs, parse, i + 1, j);
    }
  }

  /** Every answer, exactly: special addresses first, then the first management network in
      the list that meets the address's range, then an allowlisted source. */
  lemma RefusedExactly(ip: Ip, cidrs: seq<string>, sources: seq<string>, parse: string -> Option<Cidr>)
    ensures var r := Refuse(ip, cidrs, sources, parse);
            && (r == Some(SpecialAddress) <==> SpecialNumber(ip))
            && (r.Some? && r.value.ManagementNetwork? <==> !SpecialNumber(ip) && AnyMeets(ip, cidrs, parse))
            && (r.Some? && r.value.ManagementNetwork? ==>
                  exists i: nat :: FirstMeeting(ip, cidrs, parse, i) && r.value.cidr == cidrs[i])
            && (r == Some(AllowlistedSource) <==>
                  !SpecialNumber(ip) && !AnyMeets(ip, cidrs, parse) && AnyHolds(ip, sources, parse))
  {
    SpecialByNumber(ip);
    FirstManagedExactly(ip, cidrs, parse);
    AllowedExactly(ip, sources, parse);
    forall c: Cidr
      ensures Managed(c, ip) <==> Meet(c, Range(ip))
    {
      ManagedExactly(c, ip);
    }
    var first := FirstManaged(ip, cidrs, parse, 0);
    if first.Some? {
      forall j: nat | j < first.value && parse(cidrs[j]).Some?
        ensures !Managed(parse(cidrs[j]).value, ip)
      {
        FirstManagedFirst(ip, cidrs, parse, 0, j);
      }
      assert FirstMeeting(ip, cidrs, parse, first.value);
    }
  }

  /** An IPv4 address given inside IPv6 is blocked as that IPv4 address and nothing else. */
  lemma MappedCovers(ip: Ip, v4: Ip, a: Ip)
    requires ip.V6? && v4.V4? && NumberOf(ip.bits) == 0xffff_0000_0000 + NumberOf(v4.bits)
    ensures Covers(KeyOf(ip), a) <==> a == v4
  {
    MappedByNumber(ip, v4);
  }
}
