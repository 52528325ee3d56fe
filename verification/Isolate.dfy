/** The firewall ruleset of hermian/src/isolate.rs, with nft rules as data: each rule
    accepts the packets that meet all its matches, and a chain drops what no rule accepts.
    The chains are shown to mean the isolation policy, packet by packet. */
module Isolate {
  import opened Common
  import opened Addresses

  datatype Icmp6Kind = NeighborSolicit | NeighborAdvert | RouterSolicit | RouterAdvert | OtherIcmp6

  datatype Proto = Icmp | Icmp6(kind: Icmp6Kind) | Tcp(sport: nat, dport: nat) | Udp(sport: nat, dport: nat) | OtherProto

  /** Connection-tracking states. */
  datatype Ct = NewFlow | Established | Related | Invalid | Untracked

  datatype Packet = Packet(src: Ip, dst: Ip, proto: Proto, ct: Ct, iifLo: bool, oifLo: bool)

  datatype Match =
    | IifLo
    | OifLo
    | CtRelated
    | CtEstablished
    | IcmpOrIcmp6
    | UdpOrTcp
    | Saddr(block: Cidr)
    | Daddr(block: Cidr)
    | TcpSport(port: nat)
    | TcpDport(port: nat)
    | UdpSport(port: nat)
    | UdpDport(port: nat)
    | ThSport(port: nat)
    | Discovery

  type Rule = seq<Match>

  datatype Chain = Forward | Input | Output

  /** Resolvers, and notification targets with their ports. */
  datatype Egress = Egress(resolvers: seq<Ip>, notify: seq<(Ip, nat)>)

  predicate Hit(m: Match, p: Packet) {
    match m
    case IifLo => p.iifLo
    case OifLo => p.oifLo
    case CtRelated => p.ct.Related?
    case CtEstablished => p.ct.Established?
    case IcmpOrIcmp6 => p.proto.Icmp? || p.proto.Icmp6?
    case UdpOrTcp => p.proto.Udp? || p.proto.Tcp?
    case Saddr(block) => InBlock(p.src, block)
    case Daddr(block) => InBlock(p.dst, block)
    case TcpSport(port) => p.proto.Tcp? && p.proto.sport == port
    case TcpDport(port) => p.proto.Tcp? && p.proto.dport == port
    case UdpSport(port) => p.proto.Udp? && p.proto.sport == port
    case UdpDport(port) => p.proto.Udp? && p.proto.dport == port
    case ThSport(port) => (p.proto.Tcp? || p.proto.Udp?) && p.proto.sport == port
    case Discovery => p.proto.Icmp6? && !p.proto.kind.OtherIcmp6?
  }

  predicate Fires(rule: Rule, p: Packet) {
    forall i :: 0 <= i < |rule| ==> Hit(rule[i], p)
  }

  /** The chain's verdict: accept if a rule fires, else the drop policy. */
  predicate Accepts(rules: seq<Rule>, p: Packet) {
    exists i :: 0 <= i < |rules| && Fires(rules[i], p)
  }

  // ---------------------------------------------------------------------
  // The generated rules
  // ---------------------------------------------------------------------

  /** `normalize_cidr`: host bits cleared. */
  function Normal(c: Cidr): (r: Cidr)
    ensures r.net.V4? == c.net.V4? && r.prefix == c.prefix
  {
    var bits := And(c.net.bits, Mask(c.net.Width(), c.prefix));
    RawCidr.Cidr(if c.net.V4? then V4(bits) else V6(bits), c.prefix)
  }

  function Host(ip: Ip): Cidr {
    RawCidr.Cidr(ip, ip.Width())
  }

  /** The management networks that parse, normalized. */
  function Nets(cidrs: seq<string>, parse: string -> Option<Cidr>): seq<Cidr> {
    if cidrs == [] then []
    else Nets(cidrs[..|cidrs| - 1], parse) + OneNet(parse(cidrs[|cidrs| - 1]))
  }

  function OneNet(c: Option<Cidr>): seq<Cidr> {
    match c
    case None => []
    case Some(net) => [Normal(net)]
  }

  /** 169.254.169.254 and fd00:ec2::254, the cloud metadata service. */
  function Metadata(): (r: seq<Ip>)
    ensures |r| == 2
  {
    [V4(Quad(169, 254, 169, 254)), V6(Quad(0xfd, 0, 0x0e, 0xc2) + Zero(64) + Quad(0, 0, 0x02, 0x54))]
  }

  const RELATED_ICMP: Rule := [CtRelated, IcmpOrIcmp6]

  /** One rule for each element. */
  function Each<T>(xs: seq<T>, rule: T -> Rule): (r: seq<Rule>)
    ensures |r| == |xs| && forall i :: 0 <= i < |xs| ==> r[i] == rule(xs[i])
  {
    seq(|xs|, i requires 0 <= i < |xs| => rule(xs[i]))
  }

  function BothWays(nets: seq<Cidr>): seq<Rule> {
    if nets == [] then []
    else BothWays(nets[..|nets| - 1]) + [[Saddr(nets[|nets| - 1])], [Daddr(nets[|nets| - 1])]]
  }

  function ForwardRules(nets: seq<Cidr>): seq<Rule> {
    [RELATED_ICMP] + BothWays(nets)
  }

  function InputRules(nets: seq<Cidr>, e: Egress): seq<Rule> {
    [[IifLo], RELATED_ICMP]
    + Each(nets, n => [Saddr(n)])
    + Each(Metadata(), ip => [Saddr(Host(ip)), TcpSport(80), CtEstablished])
    + Each(e.resolvers, ip => [Saddr(Host(ip)), UdpOrTcp, ThSport(53), CtEstablished])
    + Each(e.notify, (t: (Ip, nat)) => [Saddr(Host(t.0)), TcpSport(t.1), CtEstablished])
    + [[Discovery], [UdpSport(67), UdpDport(68)], [UdpSport(547), UdpDport(546)]]
  }

  function DnsBothWays(resolvers: seq<Ip>): seq<Rule> {
    if resolvers == [] then []
    else
      var last := resolvers[|resolvers| - 1];
      DnsBothWays(resolvers[..|resolvers| - 1]) + [[Daddr(Host(last)), UdpDport(53)], [Daddr(Host(last)), TcpDport(53)]]
  }

  function OutputRules(nets: seq<Cidr>, e: Egress): seq<Rule> {
    [[OifLo], RELATED_ICMP]
    + Each(nets, n => [Daddr(n)])
    + Each(Metadata(), ip => [Daddr(Host(ip)), TcpDport(80)])
    + [[Discovery], [UdpSport(68), UdpDport(67)], [UdpSport(546), UdpDport(547)]]
    + DnsBothWays(e.resolvers)
    + Each(e.notify, (t: (Ip, nat)) => [Daddr(Host(t.0)), TcpDport(t.1)])
  }

  function RulesOf(chain: Chain, cidrs: seq<string>, parse: string -> Option<Cidr>, e: Egress): seq<Rule> {
    var nets := Nets(cidrs, parse);
    match chain
    case Forward => ForwardRules(nets)
    case Input => InputRules(nets, e)
    case Output => OutputRules(nets, e)
  }

  // ---------------------------------------------------------------------
  // The loops that generate them
  // ---------------------------------------------------------------------

  method NormalNets(cidrs: seq<string>, parse: string -> Option<Cidr>) returns (nets: seq<Cidr>)
    ensures nets == Nets(cidrs, parse)
  {
    nets := [];
    var i := 0;
    while i < |cidrs|
      invariant 0 <= i <= |cidrs| && nets == Nets(cidrs[..i], parse)
    {
      assert cidrs[..i + 1][..i] == cidrs[..i];
      match parse(cidrs[i]) {
        case None =>
        case Some(c) => nets := nets + [Normal(c)];
      }
      i := i + 1;
    }
    assert cidrs[..i] == cidrs;
  }

  method AppendEach<T>(rules: seq<Rule>, xs: seq<T>, rule: T -> Rule) returns (out: seq<Rule>)
    ensures out == rules + Each(xs, rule)
  {
    out := rules;
    var i := 0;
    while i < |xs|
      invariant 0 <= i <= |xs| && out == rules + Each(xs[..i], rule)
    {
      out := out + [rule(xs[i])];
      i := i + 1;
    }
    assert xs[..i] == xs;
  }

  method ForwardChain(nets: seq<Cidr>) returns (out: seq<Rule>)
    ensures out == ForwardRules(nets)
  {
    out := [RELATED_ICMP];
    var i := 0;
    while i < |nets|
      invariant 0 <= i <= |nets| && out == [RELATED_ICMP] + BothWays(nets[..i])
    {
      assert nets[..i + 1][..i] == nets[..i];
      out := out + [[Saddr(nets[i])], [Daddr(nets[i])]];
      i := i + 1;
    }
    assert nets[..i] == nets;
  }

  method AppendDns(rules: seq<Rule>, resolvers: seq<Ip>) returns (out: seq<Rule>)
    ensures out == rules + DnsBothWays(resolvers)
  {
    out := rules;
    var i := 0;
    while i < |resolvers|
      invariant 0 <= i <= |resolvers| && out == rules + DnsBothWays(resolvers[..i])
    {
      assert resolvers[..i + 1][..i] == resolvers[..i];
      out := out + [[Daddr(Host(resolvers[i])), UdpDport(53)], [Daddr(Host(resolvers[i])), TcpDport(53)]];
      i := i + 1;
    }
    assert resolvers[..i] == resolvers;
  }

  /** The chains of the generated table. */
  method Ruleset(cidrs: seq<string>, parse: string -> Option<Cidr>, e: Egress)
    returns (forward: seq<Rule>, input: seq<Rule>, output: seq<Rule>)
    ensures forward == RulesOf(Forward, cidrs, parse, e)
    ensures input == RulesOf(Input, cidrs, parse, e)
    ensures output == RulesOf(Output, cidrs, parse, e)
  {
    var nets := NormalNets(cidrs, parse);
    forward := ForwardChain(nets);
    input := AppendEach([[IifLo], RELATED_ICMP], nets, n => [Saddr(n)]);
    input := AppendEach(input, Metadata(), ip => [Saddr(Host(ip)), TcpSport(80), CtEstablished]);
    input := AppendEach(input, e.resolvers, ip => [Saddr(Host(ip)), UdpOrTcp, ThSport(53), CtEstablished]);
    input := AppendEach(input, e.notify, (t: (Ip, nat)) => [Saddr(Host(t.0)), TcpSport(t.1), CtEstablished]);
    input := input + [[Discovery], [UdpSport(67), UdpDport(68)], [UdpSport(547), UdpDport(546)]];
    output := AppendEach([[OifLo], RELATED_ICMP], nets, n => [Daddr(n)]);
    output := AppendEach(output, Metadata(), ip => [Daddr(Host(ip)), TcpDport(80)]);
    output := output + [[Discovery], [UdpSport(68), UdpDport(67)], [UdpSport(546), UdpDport(547)]];
    output := AppendDns(output, e.resolvers);
    output := AppendEach(output, e.notify, (t: (Ip, nat)) => [Daddr(Host(t.0)), TcpDport(t.1)]);
  }

  // ---------------------------------------------------------------------
  // The policy
  // ---------------------------------------------------------------------

  predicate RelatedIcmp(p: Packet) {
    p.ct.Related? && (p.proto.Icmp? || p.proto.Icmp6?)
  }

  predicate NeighborDiscovery(p: Packet) {
    p.proto.Icmp6? && !p.proto.kind.OtherIcmp6?
  }

  predicate UdpBetween(p: Packet, sport: nat, dport: nat) {
    p.proto == Udp(sport, dport)
  }

  /** 169.254.169.254 or fd00:ec2::254, by number. */
  predicate MetadataNumber(a: Ip) {
    NumberOf(a.bits) == if a.V4? then 0xa9fe_a9fe else 0xfd00_0ec2_0000_0000_0000_0000_0000_0254
  }

  /** To the metadata service, a configured resolver or a notification endpoint. */
  predicate AllowedCall(p: Packet, e: Egress) {
    || (p.proto.Tcp? && p.proto.dport == 80 && MetadataNumber(p.dst))
    || ((p.proto.Tcp? || p.proto.Udp?) && p.proto.dport == 53 && p.dst in e.resolvers)
    || (p.proto.Tcp? && (p.dst, p.proto.dport) in e.notify)
  }

  /** The packet as its sender saw it. */
  function Turned(p: Packet): Packet {
    p.(src := p.dst, dst := p.src, iifLo := p.oifLo, oifLo := p.iifLo,
       proto := match p.proto
                case Tcp(s, d) => Tcp(d, s)
                case Udp(s, d) => Udp(d, s)
                case x => x)
  }

  /** An established answer to such a call. */
  predicate AllowedAnswer(p: Packet, e: Egress) {
    p.ct.Established? && AllowedCall(Turned(p), e)
  }

  /** The documented policy of an isolated host. */
  ghost predicate Allowed(chain: Chain, cidrs: seq<string>, parse: string -> Option<Cidr>, e: Egress, p: Packet) {
    match chain
    case Forward =>
      RelatedIcmp(p) || InAny(p.src, cidrs, parse) || InAny(p.dst, cidrs, parse)
    case Input =>
      || p.iifLo || RelatedIcmp(p) || InAny(p.src, cidrs, parse) || AllowedAnswer(p, e)
      || NeighborDiscovery(p) || UdpBetween(p, 67, 68) || UdpBetween(p, 547, 546)
    case Output =>
      || p.oifLo || RelatedIcmp(p) || InAny(p.dst, cidrs, parse) || AllowedCall(p, e)
      || NeighborDiscovery(p) || UdpBetween(p, 68, 67) || UdpBetween(p, 546, 547)
  }

  // ---------------------------------------------------------------------
  // The rules mean the policy
  // ---------------------------------------------------------------------

  lemma AcceptsConcat(a: seq<Rule>, b: seq<Rule>, p: Packet)
    ensures Accepts(a + b, p) <==> Accepts(a, p) || Accepts(b, p)
  {
    var all := a + b;
    if Accepts(a, p) {
      var i :| 0 <= i < |a| && Fires(a[i], p);
      assert all[i] == a[i];
    }
    if Accepts(b, p) {
      var i :| 0 <= i < |b| && Fires(b[i], p);
      assert all[|a| + i] == b[i];
    }
  }

  lemma EachAccepts<T>(xs: seq<T>, rule: T -> Rule, p: Packet)
    ensures Accepts(Each(xs, rule), p) <==> exists i :: 0 <= i < |xs| && Fires(rule(xs[i]), p)
  {
    var rules := Each(xs, rule);
    if i :| 0 <= i < |xs| && Fires(rule(xs[i]), p) {
      assert rules[i] == rule(xs[i]);
    }
  }

  lemma OneAccepts(rule: Rule, p: Packet)
    ensures Accepts([rule], p) <==> Fires(rule, p)
  {
    assert [rule][0] == rule;
  }

  lemma HostBlock(a: Ip, ip: Ip)
    ensures InBlock(a, Host(ip)) <==> a == ip
  {
    if InBlock(a, Host(ip)) {
      assert a.bits == a.bits[..a.Width()] && ip.bits == ip.bits[..ip.Width()];
    }
  }

  /** Clearing host bits changes no membership. */
  lemma NormalSame(a: Ip, c: Cidr)
    ensures InBlock(a, Normal(c)) <==> InBlock(a, c)
  {
    AndMask(c.net.bits, c.prefix);
    assert Normal(c).net.bits[..c.prefix] == c.net.bits[..c.prefix];
  }

  /** What is printed has no host bits. */
  lemma NormalClears(c: Cidr, i: nat)
    requires c.prefix <= i < c.net.Width()
    ensures !Normal(c).net.bits[i]
  {
    AndMask(c.net.bits, c.prefix);
  }

  ghost predicate InNets(a: Ip, nets: seq<Cidr>) {
    exists i :: 0 <= i < |nets| && InBlock(a, nets[i])
  }

  lemma InNetsMore(a: Ip, nets: seq<Cidr>, more: seq<Cidr>)
    ensures InNets(a, nets + more) <==> InNets(a, nets) || InNets(a, more)
  {
    var all := nets + more;
    if InNets(a, nets) {
      var i :| 0 <= i < |nets| && InBlock(a, nets[i]);
      assert all[i] == nets[i];
    }
    if InNets(a, more) {
      var i :| 0 <= i < |more| && InBlock(a, more[i]);
      assert all[|nets| + i] == more[i];
    }
  }

  lemma OneNetExactly(a: Ip, c: Option<Cidr>)
    ensures InNets(a, OneNet(c)) <==> c.Some? && InBlock(a, c.value)
  {
    if c.Some? {
      NormalSame(a, c.value);
      assert OneNet(c)[0] == Normal(c.value);
    }
  }

  lemma {:induction false} NetsExactly(a: Ip, cidrs: seq<string>, parse: string -> Option<Cidr>)
    ensures InNets(a, Nets(cidrs, parse)) <==> InAny(a, cidrs, parse)
  {
    if cidrs != [] {
      var init, last := cidrs[..|cidrs| - 1], cidrs[|cidrs| - 1];
      NetsExactly(a, init, parse);
      InAnyLast(a, init, last, parse);
      assert cidrs == init + [last];
      var c := parse(last);
      InNetsMore(a, Nets(init, parse), OneNet(c));
      OneNetExactly(a, c);
    }
  }

  lemma InAnyLast(a: Ip, init: seq<string>, last: string, parse: string -> Option<Cidr>)
    ensures InAny(a, init + [last], parse) <==>
            InAny(a, init, parse) || (parse(last).Some? && InBlock(a, parse(last).value))
  {
    var all := init + [last];
    assert all[|init|] == last;
    if InAny(a, init, parse) {
      var i :| 0 <= i < |init| && parse(init[i]).Some? && InBlock(a, parse(init[i]).value);
      assert all[i] == init[i];
    }
  }

  lemma {:induction false} BothWaysAccepts(nets: seq<Cidr>, p: Packet)
    ensures Accepts(BothWays(nets), p) <==> InNets(p.src, nets) || InNets(p.dst, nets)
  {
    if nets != [] {
      var init, last := nets[..|nets| - 1], nets[|nets| - 1];
      BothWaysAccepts(init, p);
      var s, d := [Saddr(last)], [Daddr(last)];
      assert BothWays(nets) == BothWays(init) + ([s] + [d]);
      AcceptsConcat(BothWays(init), [s] + [d], p);
      AcceptsConcat([s], [d], p);
      OneAccepts(s, p);
      OneAccepts(d, p);
      assert s[0] == Saddr(last) && d[0] == Daddr(last);
      assert nets == init + [last];
      InNetsMore(p.src, init, [last]);
      InNetsMore(p.dst, init, [last]);
      assert [last][0] == last;
    }
  }

  lemma RelatedFires(p: Packet)
    ensures Fires(RELATED_ICMP, p) <==> RelatedIcmp(p)
  {
    var r := RELATED_ICMP;
    assert r[0] == CtRelated && r[1] == IcmpOrIcmp6;
  }

  /** Three fixed rules in a row. */
  lemma ThreeAccept(a: Rule, b: Rule, c: Rule, p: Packet)
    ensures Accepts([a, b, c], p) <==> Fires(a, p) || Fires(b, p) || Fires(c, p)
  {
    var rules := [a, b, c];
    assert rules[0] == a && rules[1] == b && rules[2] == c;
  }

  lemma TwoAccept(a: Rule, b: Rule, p: Packet)
    ensures Accepts([a, b], p) <==> Fires(a, p) || Fires(b, p)
  {
    var rules := [a, b];
    assert rules[0] == a && rules[1] == b;
  }

  lemma OneHit(m: Match, p: Packet)
    ensures Fires([m], p) <==> Hit(m, p)
  {
    assert [m][0] == m;
  }

  lemma TwoHits(m: Match, n: Match, p: Packet)
    ensures Fires([m, n], p) <==> Hit(m, p) && Hit(n, p)
  {
    assert [m, n][0] == m && [m, n][1] == n;
  }

  lemma ThreeHits(m: Match, n: Match, o: Match, p: Packet)
    ensures Fires([m, n, o], p) <==> Hit(m, p) && Hit(n, p) && Hit(o, p)
  {
    assert [m, n, o][0] == m && [m, n, o][1] == n && [m, n, o][2] == o;
  }

  lemma FourHits(m: Match, n: Match, o: Match, q: Match, p: Packet)
    ensures Fires([m, n, o, q], p) <==> Hit(m, p) && Hit(n, p) && Hit(o, p) && Hit(q, p)
  {
    var r := [m, n, o, q];
    assert r[0] == m && r[1] == n && r[2] == o && r[3] == q;
  }

  lemma NetRules(nets: seq<Cidr>, p: Packet)
    ensures Accepts(Each(nets, n => [Saddr(n)]), p) <==> InNets(p.src, nets)
    ensures Accepts(Each(nets, n => [Daddr(n)]), p) <==> InNets(p.dst, nets)
  {
    EachAccepts(nets, n => [Saddr(n)], p);
    EachAccepts(nets, n => [Daddr(n)], p);
    forall i | 0 <= i < |nets|
      ensures Fires([Saddr(nets[i])], p) <==> InBlock(p.src, nets[i])
      ensures Fires([Daddr(nets[i])], p) <==> InBlock(p.dst, nets[i])
    {
      OneHit(Saddr(nets[i]), p);
      OneHit(Daddr(nets[i]), p);
    }
  }

  lemma FarApart(front: Bits, gap: Bits, low: Bits)
    requires NumberOf(gap) == 0
    ensures NumberOf(front + gap + low) == NumberOf(front) * Pow2(|gap| + |low|) + NumberOf(low)
  {
    assert front + gap + low == front + (gap + low);
    NumberJoined(front, gap + low);
    NumberJoined(gap, low);
  }

  lemma MetadataV4(b: Bits, q: Bits)
    requires |b| == 32 && q == Quad(169, 254, 169, 254)
    ensures b == q <==> NumberOf(b) == 0xa9fe_a9fe
  {
    QuadNumber(169, 254, 169, 254);
    NumberInjective(b, q);
  }

  lemma MetadataV6(b: Bits, front: Bits, gap: Bits, low: Bits)
    requires |b| == 128 && front == Quad(0xfd, 0, 0x0e, 0xc2) && gap == Zero(64) && low == Quad(0, 0, 0x02, 0x54)
    ensures b == front + gap + low <==> NumberOf(b) == 0xfd00_0ec2_0000_0000_0000_0000_0000_0254
  {
    QuadNumber(0xfd, 0, 0x0e, 0xc2);
    QuadNumber(0, 0, 0x02, 0x54);
    NumberZero(64);
    FarApart(front, gap, low);
    PowWide(4);
    NumberInjective(b, front + gap + low);
  }

  /** The addresses the rules name are those of the policy. */
  lemma MetadataByNumber(a: Ip)
    ensures a in Metadata() <==> MetadataNumber(a)
  {
    if a.V4? {
      MetadataV4(a.bits, Quad(169, 254, 169, 254));
    } else {
      MetadataV6(a.bits, Quad(0xfd, 0, 0x0e, 0xc2), Zero(64), Quad(0, 0, 0x02, 0x54));
    }
  }

  lemma MetadataRules(ips: seq<Ip>, p: Packet)
    ensures Accepts(Each(ips, ip => [Saddr(Host(ip)), TcpSport(80), CtEstablished]), p) <==>
            p.src in ips && p.proto.Tcp? && p.proto.sport == 80 && p.ct.Established?
    ensures Accepts(Each(ips, ip => [Daddr(Host(ip)), TcpDport(80)]), p) <==>
            p.dst in ips && p.proto.Tcp? && p.proto.dport == 80
  {
    EachAccepts(ips, ip => [Saddr(Host(ip)), TcpSport(80), CtEstablished], p);
    EachAccepts(ips, ip => [Daddr(Host(ip)), TcpDport(80)], p);
    forall i | 0 <= i < |ips|
      ensures Fires([Saddr(Host(ips[i])), TcpSport(80), CtEstablished], p) <==>
              p.src == ips[i] && p.proto.Tcp? && p.proto.sport == 80 && p.ct.Established?
      ensures Fires([Daddr(Host(ips[i])), TcpDport(80)], p) <==> p.dst == ips[i] && p.proto.Tcp? && p.proto.dport == 80
    {
      ThreeHits(Saddr(Host(ips[i])), TcpSport(80), CtEstablished, p);
      TwoHits(Daddr(Host(ips[i])), TcpDport(80), p);
      HostBlock(p.src, ips[i]);
      HostBlock(p.dst, ips[i]);
    }
  }

  lemma ResolverAnswers(ips: seq<Ip>, p: Packet)
    ensures Accepts(Each(ips, ip => [Saddr(Host(ip)), UdpOrTcp, ThSport(53), CtEstablished]), p) <==>
            p.src in ips && (p.proto.Udp? || p.proto.Tcp?) && p.proto.sport == 53 && p.ct.Established?
  {
    EachAccepts(ips, ip => [Saddr(Host(ip)), UdpOrTcp, ThSport(53), CtEstablished], p);
    forall i | 0 <= i < |ips|
      ensures Fires([Saddr(Host(ips[i])), UdpOrTcp, ThSport(53), CtEstablished], p) <==>
              p.src == ips[i] && (p.proto.Udp? || p.proto.Tcp?) && p.proto.sport == 53 && p.ct.Established?
    {
      FourHits(Saddr(Host(ips[i])), UdpOrTcp, ThSport(53), CtEstablished, p);
      HostBlock(p.src, ips[i]);
    }
  }

  lemma {:induction false} ResolverCalls(ips: seq<Ip>, p: Packet)
    ensures Accepts(DnsBothWays(ips), p) <==> p.dst in ips && (p.proto.Udp? || p.proto.Tcp?) && p.proto.dport == 53
  {
    if ips != [] {
      var init, last := ips[..|ips| - 1], ips[|ips| - 1];
      ResolverCalls(init, p);
      assert ips == init + [last];
      AcceptsConcat(DnsBothWays(init), [[Daddr(Host(last)), UdpDport(53)], [Daddr(Host(last)), TcpDport(53)]], p);
      TwoAccept([Daddr(Host(last)), UdpDport(53)], [Daddr(Host(last)), TcpDport(53)], p);
      TwoHits(Daddr(Host(last)), UdpDport(53), p);
      TwoHits(Daddr(Host(last)), TcpDport(53), p);
      HostBlock(p.dst, last);
    }
  }

  lemma NotifyRules(ends: seq<(Ip, nat)>, p: Packet)
    ensures Accepts(Each(ends, (t: (Ip, nat)) => [Saddr(Host(t.0)), TcpSport(t.1), CtEstablished]), p) <==>
            p.proto.Tcp? && (p.src, p.proto.sport) in ends && p.ct.Established?
    ensures Accepts(Each(ends, (t: (Ip, nat)) => [Daddr(Host(t.0)), TcpDport(t.1)]), p) <==>
            p.proto.Tcp? && (p.dst, p.proto.dport) in ends
  {
    EachAccepts(ends, (t: (Ip, nat)) => [Saddr(Host(t.0)), TcpSport(t.1), CtEstablished], p);
    EachAccepts(ends, (t: (Ip, nat)) => [Daddr(Host(t.0)), TcpDport(t.1)], p);
    forall i | 0 <= i < |ends|
      ensures Fires([Saddr(Host(ends[i].0)), TcpSport(ends[i].1), CtEstablished], p) <==>
              p.proto.Tcp? && ends[i] == (p.src, p.proto.sport) && p.ct.Established?
      ensures Fires([Daddr(Host(ends[i].0)), TcpDport(ends[i].1)], p) <==> p.proto.Tcp? && ends[i] == (p.dst, p.proto.dport)
    {
      ThreeHits(Saddr(Host(ends[i].0)), TcpSport(ends[i].1), CtEstablished, p);
      TwoHits(Daddr(Host(ends[i].0)), TcpDport(ends[i].1), p);
      HostBlock(p.src, ends[i].0);
      HostBlock(p.dst, ends[i].0);
    }
  }

  lemma LinkRules(s: nat, d: nat, s6: nat, d6: nat, p: Packet)
    ensures Accepts([[Discovery], [UdpSport(s), UdpDport(d)], [UdpSport(s6), UdpDport(d6)]], p) <==>
            NeighborDiscovery(p) || UdpBetween(p, s, d) || UdpBetween(p, s6, d6)
  {
    ThreeAccept([Discovery], [UdpSport(s), UdpDport(d)], [UdpSport(s6), UdpDport(d6)], p);
    OneHit(Discovery, p);
    TwoHits(UdpSport(s), UdpDport(d), p);
    TwoHits(UdpSport(s6), UdpDport(d6), p);
  }

  lemma InputMeans(nets: seq<Cidr>, e: Egress, p: Packet)
    ensures Accepts(InputRules(nets, e), p) <==>
            || p.iifLo || RelatedIcmp(p) || InNets(p.src, nets) || AllowedAnswer(p, e)
            || NeighborDiscovery(p) || UdpBetween(p, 67, 68) || UdpBetween(p, 547, 546)
  {
    var own := [[IifLo], RELATED_ICMP];
    var mgmt := Each(nets, n => [Saddr(n)]);
    var meta := Each(Metadata(), ip => [Saddr(Host(ip)), TcpSport(80), CtEstablished]);
    var dns := Each(e.resolvers, ip => [Saddr(Host(ip)), UdpOrTcp, ThSport(53), CtEstablished]);
    var ends := Each(e.notify, (t: (Ip, nat)) => [Saddr(Host(t.0)), TcpSport(t.1), CtEstablished]);
    var link := [[Discovery], [UdpSport(67), UdpDport(68)], [UdpSport(547), UdpDport(546)]];
    SixParts(own, mgmt, meta, dns, ends, link, p);
    TwoAccept([IifLo], RELATED_ICMP, p);
    OneHit(IifLo, p);
    RelatedFires(p);
    NetRules(nets, p);
    MetadataRules(Metadata(), p);
    MetadataByNumber(p.src);
    MetadataByNumber(p.dst);
    ResolverAnswers(e.resolvers, p);
    NotifyRules(e.notify, p);
    LinkRules(67, 68, 547, 546, p);
  }

  lemma SixParts(a: seq<Rule>, b: seq<Rule>, c: seq<Rule>, d: seq<Rule>, e: seq<Rule>, f: seq<Rule>, p: Packet)
    ensures Accepts(a + b + c + d + e + f, p) <==>
            Accepts(a, p) || Accepts(b, p) || Accepts(c, p) || Accepts(d, p) || Accepts(e, p) || Accepts(f, p)
  {
    AcceptsConcat(a, b, p);
    AcceptsConcat(a + b, c, p);
    AcceptsConcat(a + b + c, d, p);
    AcceptsConcat(a + b + c + d, e, p);
    AcceptsConcat(a + b + c + d + e, f, p);
  }

  lemma OutputMeans(nets: seq<Cidr>, e: Egress, p: Packet)
    ensures Accepts(OutputRules(nets, e), p) <==>
            || p.oifLo || RelatedIcmp(p) || InNets(p.dst, nets) || AllowedCall(p, e)
            || NeighborDiscovery(p) || UdpBetween(p, 68, 67) || UdpBetween(p, 546, 547)
  {
    var own := [[OifLo], RELATED_ICMP];
    var mgmt := Each(nets, n => [Daddr(n)]);
    var meta := Each(Metadata(), ip => [Daddr(Host(ip)), TcpDport(80)]);
    var link := [[Discovery], [UdpSport(68), UdpDport(67)], [UdpSport(546), UdpDport(547)]];
    var ends := Each(e.notify, (t: (Ip, nat)) => [Daddr(Host(t.0)), TcpDport(t.1)]);
    SixParts(own, mgmt, meta, link, DnsBothWays(e.resolvers), ends, p);
    TwoAccept([OifLo], RELATED_ICMP, p);
    OneHit(OifLo, p);
    RelatedFires(p);
    NetRules(nets, p);
    MetadataRules(Metadata(), p);
    MetadataByNumber(p.src);
    MetadataByNumber(p.dst);
    ResolverCalls(e.resolvers, p);
    NotifyRules(e.notify, p);
    LinkRules(68, 67, 546, 547, p);
  }

  lemma ForwardMeans(nets: seq<Cidr>, p: Packet)
    ensures Accepts(ForwardRules(nets), p) <==> RelatedIcmp(p) || InNets(p.src, nets) || InNets(p.dst, nets)
  {
    AcceptsConcat([RELATED_ICMP], BothWays(nets), p);
    OneAccepts(RELATED_ICMP, p);
    RelatedFires(p);
    BothWaysAccepts(nets, p);
  }

  /** The ruleset means its policy: for every list of networks, every egress set and every
      packet, a chain accepts exactly what the policy allows and drops the rest. */
  lemma RulesetMeansPolicy(chain: Chain, cidrs: seq<string>, parse: string -> Option<Cidr>, e: Egress, p: Packet)
    ensures Accepts(RulesOf(chain, cidrs, parse, e), p) <==> Allowed(chain, cidrs, parse, e, p)
  {
    var nets := Nets(cidrs, parse);
    NetsExactly(p.src, cidrs, parse);
    NetsExactly(p.dst, cidrs, parse);
    match chain
    case Forward => ForwardMeans(nets, p);
    case Input => InputMeans(nets, e, p);
    case Output => OutputMeans(nets, e, p);
  }

  // ---------------------------------------------------------------------
  // What follows for flows
  // ---------------------------------------------------------------------

  /** A lease request or its answer, IPv4 or IPv6. */
  predicate Dhcp(p: Packet) {
    UdpBetween(p, 67, 68) || UdpBetween(p, 68, 67) || UdpBetween(p, 546, 547) || UdpBetween(p, 547, 546)
  }

  /** No rule accepts a flow for being established: an established packet that is not
      loopback, link upkeep or an answer to an allowed call passes no chain unless one end
      is in a management network. */
  lemma OpenConnectionsAreCut(chain: Chain, cidrs: seq<string>, parse: string -> Option<Cidr>, e: Egress, p: Packet)
    requires p.ct.Established? && !p.iifLo && !p.oifLo && !NeighborDiscovery(p) && !Dhcp(p)
    requires !InAny(p.src, cidrs, parse) && !InAny(p.dst, cidrs, parse)
    requires !AllowedCall(p, e) && !AllowedCall(Turned(p), e)
    ensures !Accepts(RulesOf(chain, cidrs, parse, e), p)
  {
    RulesetMeansPolicy(chain, cidrs, parse, e, p);
  }

  /** The established answer to a packet is accepted inbound exactly if the packet itself
      would be accepted outbound as the first of a new flow; so every packet accepted
      outbound gets its answer, except an ICMP error accepted only as related. */
  lemma AnswersComeBack(cidrs: seq<string>, parse: string -> Option<Cidr>, e: Egress, p: Packet)
    ensures Accepts(RulesOf(Input, cidrs, parse, e), Turned(p).(ct := Established)) <==>
            Accepts(RulesOf(Output, cidrs, parse, e), p.(ct := NewFlow))
    ensures Accepts(RulesOf(Output, cidrs, parse, e), p) ==>
            RelatedIcmp(p) || Accepts(RulesOf(Output, cidrs, parse, e), p.(ct := NewFlow))
  {
    var answer, first := Turned(p).(ct := Established), p.(ct := NewFlow);
    RulesetMeansPolicy(Output, cidrs, parse, e, p);
    RulesetMeansPolicy(Output, cidrs, parse, e, first);
    RulesetMeansPolicy(Input, cidrs, parse, e, answer);
    assert Turned(answer) == p.(ct := Established);
    assert AllowedCall(first, e) == AllowedCall(p, e) == AllowedCall(Turned(answer), e);
  }

  /** The operator's way in stays open: every packet from or to a management network
      passes, whatever its connection state. */
  lemma ManagementStaysOpen(cidrs: seq<string>, parse: string -> Option<Cidr>, e: Egress, p: Packet)
    ensures InAny(p.src, cidrs, parse) ==>
              Accepts(RulesOf(Input, cidrs, parse, e), p) && Accepts(RulesOf(Forward, cidrs, parse, e), p)
    ensures InAny(p.dst, cidrs, parse) ==>
              Accepts(RulesOf(Output, cidrs, parse, e), p) && Accepts(RulesOf(Forward, cidrs, parse, e), p)
  {
    RulesetMeansPolicy(Input, cidrs, parse, e, p);
    RulesetMeansPolicy(Output, cidrs, parse, e, p);
    RulesetMeansPolicy(Forward, cidrs, parse, e, p);
  }
}
