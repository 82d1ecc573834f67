/** The bare-metal rulebase compiler: per-vsys zones and rules become nftables sets and
    chains whose evaluation gives every packet its own vsys's verdict. */
module Nft {
  import opened Words

  // ---- configuration -------------------------------------------------------------

  datatype Zone = Zone(name: string, ifaces: seq<string>)

  /** Any action text other than the first three is let through like allow. */
  datatype RuleAction = Allow | Deny | Refuse | OtherAction

  /** Protocols a rule may name; any other text restricts nothing. */
  datatype RuleProto = TcpRule | UdpRule | IcmpRule | AnyRule

  /** Zones and addresses absent mean any. */
  datatype Rule = Rule(name: string, fromZone: Option<string>, toZone: Option<string>,
                       src: Option<string>, dst: Option<string>, proto: RuleProto, dports: seq<nat>,
                       action: RuleAction, inspect: bool, log: bool, enabled: bool)

  datatype Vsys = Vsys(name: string, zones: seq<Zone>, rules: seq<Rule>, id: int, queue: int)

  datatype Dos = Dos(enable: bool, connLimit: int)

  datatype Verdict = Accept | Drop | Reject | Queue(num: int, bypass: bool)

  datatype Config = Config(vsys: seq<Vsys>, bypass: bool, policy: Verdict, dos: Dos)

  /** All interfaces of a vsys, each once, in zone order. */
  function AddNew(out: seq<string>, more: seq<string>): (r: seq<string>)
    ensures forall x :: x in r <==> x in out || x in more
    decreases |more|
  {
    if more == [] then out
    else AddNew(if more[0] in out then out else out + [more[0]], more[1..])
  }

  function Interfaces(zones: seq<Zone>): (r: seq<string>)
    ensures forall x :: x in r <==> exists i :: 0 <= i < |zones| && x in zones[i].ifaces
  {
    if zones == [] then []
    else AddNew(Interfaces(zones[..|zones| - 1]), zones[|zones| - 1].ifaces)
  }

  // ---- packets and the ruleset language ---------------------------------------------

  datatype CtState = Invalid | New | Established | Related

  datatype L4 = Tcp | Udp | Icmp | Icmpv6 | OtherL4

  /** syn: of FIN, SYN, RST and ACK only SYN is set. */
  datatype Packet = Packet(iif: string, oif: string, state: CtState, l4: L4, syn: bool, v4: bool,
                           saddr: string, daddr: string, dport: nat)

  /** What the kernel decides outside the ruleset: address matching and the limiters. */
  datatype Kernel = Kernel(inCidr: (string, string) -> bool,
                           synOver: bool, udpOver: bool, icmpOver: bool, connOver: bool)

  datatype Limiter = SynLimit | UdpLimit | IcmpLimit | ConnLimit

  datatype Match =
    | StateIn(states: set<CtState>)
    | IifIn(setName: string)
    | OifIn(setName: string)
    | SrcIn(cidr: string)
    | DstIn(cidr: string)
    | L4In(protos: set<L4>)
    | DportIn(proto: L4, ports: seq<nat>)
    | SynOnly
    | Over(limiter: Limiter)

  datatype Act = Do(verdict: Verdict) | Jump(chain: string) | SetCtMark(id: int) | SetMetaMark(id: int) | LogOnly

  datatype Line = Line(matches: seq<Match>, act: Act)

  /** Named sets and chains; repeated declarations of a name add up. */
  datatype Ruleset = Ruleset(sets: seq<(string, seq<string>)>, chains: seq<(string, seq<Line>)>)

  predicate InSet(sets: seq<(string, seq<string>)>, name: string, x: string)
  {
    exists i :: 0 <= i < |sets| && sets[i].0 == name && x in sets[i].1
  }

  function ChainLines(chains: seq<(string, seq<Line>)>, name: string): (ls: seq<Line>)
  {
    if chains == [] then []
    else (if chains[0].0 == name then chains[0].1 else []) + ChainLines(chains[1..], name)
  }

  predicate MatchHolds(sets: seq<(string, seq<string>)>, m: Match, p: Packet, k: Kernel)
  {
    match m
    case StateIn(states) => p.state in states
    case IifIn(name) => InSet(sets, name, p.iif)
    case OifIn(name) => InSet(sets, name, p.oif)
    case SrcIn(cidr) => p.v4 && k.inCidr(cidr, p.saddr)
    case DstIn(cidr) => p.v4 && k.inCidr(cidr, p.daddr)
    case L4In(protos) => p.l4 in protos
    case DportIn(proto, ports) => p.l4 == proto && p.dport in ports
    case SynOnly => p.l4 == Tcp && p.syn
    case Over(SynLimit) => k.synOver
    case Over(UdpLimit) => k.udpOver
    case Over(IcmpLimit) => k.icmpOver
    case Over(ConnLimit) => k.connOver
  }

  predicate AllHold(sets: seq<(string, seq<string>)>, ms: seq<Match>, p: Packet, k: Kernel)
  {
    forall i :: 0 <= i < |ms| ==> MatchHolds(sets, ms[i], p, k)
  }

  predicate LineMatches(sets: seq<(string, seq<string>)>, l: Line, p: Packet, k: Kernel)
  {
    AllHold(sets, l.matches, p, k)
  }

  /** The flow and packet marks, if set. */
  datatype Marks = Marks(ct: Option<int>, meta: Option<int>)

  /** The outcome of walking lines: a verdict or falling off the end, and the marks. */
  datatype Walk = Walk(verdict: Option<Verdict>, marks: Marks)

  /** nftables keeps at most 16 jumps open. */
  const MAX_JUMPS := 16

  function Eval(rs: Ruleset, lines: seq<Line>, p: Packet, k: Kernel, marks: Marks, jumps: nat): (w: Walk)
    decreases jumps, |lines|
  {
    if lines == [] then Walk(None, marks)
    else
      var w := EvalLine(rs, lines[0], p, k, marks, jumps);
      if w.verdict.Some? then w else Eval(rs, lines[1..], p, k, w.marks, jumps)
  }

  function EvalLine(rs: Ruleset, l: Line, p: Packet, k: Kernel, marks: Marks, jumps: nat): (w: Walk)
    decreases jumps, 0
  {
    if !LineMatches(rs.sets, l, p, k) then Walk(None, marks)
    else
      match l.act
      case Do(v) => Walk(Some(v), marks)
      case SetCtMark(id) => Walk(None, marks.(ct := Some(id)))
      case SetMetaMark(id) => Walk(None, marks.(meta := Some(id)))
      case LogOnly => Walk(None, marks)
      case Jump(c) =>
        if jumps == 0 then Walk(None, marks) else Eval(rs, ChainLines(rs.chains, c), p, k, marks, jumps - 1)
  }

  // ---- generation -------------------------------------------------------------------------

  function ZoneSet(v: string, z: string): (n: string) { v + "_zone_" + z }

  function IfaceSet(v: string): (n: string) { v + "_ifaces" }

  function ChainName(v: string): (n: string) { v + "_forward" }

  function ZoneSets(v: string, zones: seq<Zone>): (r: seq<(string, seq<string>)>)
  {
    seq(|zones|, i requires 0 <= i < |zones| => (ZoneSet(v, zones[i].name), zones[i].ifaces))
  }

  function Sets(vs: seq<Vsys>): (r: seq<(string, seq<string>)>)
  {
    if vs == [] then []
    else
      var v := vs[|vs| - 1];
      Sets(vs[..|vs| - 1]) + ZoneSets(v.name, v.zones) + [(IfaceSet(v.name), Interfaces(v.zones))]
  }

  function PortMatches(r: Rule): (ms: seq<Match>)
  {
    match r.proto
    case TcpRule => if r.dports != [] then [DportIn(Tcp, r.dports)] else [L4In({Tcp})]
    case UdpRule => if r.dports != [] then [DportIn(Udp, r.dports)] else [L4In({Udp})]
    case IcmpRule => [L4In({Icmp, Icmpv6})]
    case AnyRule => []
  }

  function ProtoMatches(r: Rule): (ms: seq<Match>)
  {
    (if r.src.Some? then [SrcIn(r.src.value)] else [])
    + (if r.dst.Some? then [DstIn(r.dst.value)] else [])
    + PortMatches(r)
  }

  function RuleVerdict(c: Config, v: Vsys, r: Rule): (x: Verdict)
  {
    if r.action == Deny then Drop
    else if r.action == Refuse then Reject
    else if r.inspect then Queue(v.queue, c.bypass)
    else Accept
  }

  function RuleLine(c: Config, v: Vsys, r: Rule): (l: Line)
  {
    Line((if r.fromZone.Some? then [IifIn(ZoneSet(v.name, r.fromZone.value))] else [])
         + (if r.toZone.Some? then [OifIn(ZoneSet(v.name, r.toZone.value))] else [])
         + ProtoMatches(r),
         Do(RuleVerdict(c, v, r)))
  }

  function RuleLines(c: Config, v: Vsys, rules: seq<Rule>): (ls: seq<Line>)
  {
    if rules == [] then []
    else (if rules[0].enabled then [RuleLine(c, v, rules[0])] else []) + RuleLines(c, v, rules[1..])
  }

  /** Only rules spelled allow make a vsys inspect its established traffic. */
  predicate Inspects(v: Vsys) { exists i :: 0 <= i < |v.rules| && v.rules[i].inspect && v.rules[i].action == Allow && v.rules[i].enabled }

  function VsysChain(c: Config, v: Vsys): (ls: seq<Line>)
  {
    [Line([], SetCtMark(v.id)), Line([], SetMetaMark(v.id)),
     Line([StateIn({Established, Related})], Do(if Inspects(v) then Queue(v.queue, c.bypass) else Accept))]
    + RuleLines(c, v, v.rules)
  }

  function DosLines(d: Dos): (ls: seq<Line>)
  {
    if !d.enable then []
    else
      [Line([StateIn({New}), SynOnly, Over(SynLimit)], Do(Drop)),
       Line([StateIn({New}), L4In({Udp}), Over(UdpLimit)], Do(Drop)),
       Line([StateIn({New}), L4In({Icmp, Icmpv6}), Over(IcmpLimit)], Do(Drop))]
      + if d.connLimit > 0 then [Line([StateIn({New}), Over(ConnLimit)], Do(Drop))] else []
  }

  function Dispatch(vs: seq<Vsys>): (ls: seq<Line>)
  {
    seq(|vs|, i requires 0 <= i < |vs| => Line([IifIn(IfaceSet(vs[i].name))], Jump(ChainName(vs[i].name))))
  }

  function ForwardChain(c: Config): (ls: seq<Line>)
  {
    [Line([StateIn({Invalid})], Do(Drop))] + DosLines(c.dos) + Dispatch(c.vsys) + [Line([], LogOnly)]
  }

  function VsysChains(c: Config, vs: seq<Vsys>): (cs: seq<(string, seq<Line>)>)
  {
    seq(|vs|, i requires 0 <= i < |vs| => (ChainName(vs[i].name), VsysChain(c, vs[i])))
  }

  function Compile(c: Config): (rs: Ruleset)
  {
    Ruleset(Sets(c.vsys), [("forward", ForwardChain(c))] + VsysChains(c, c.vsys))
  }

  /** The generator's loops, appending sets, dispatch lines and chains. */
  method Render(c: Config) returns (rs: Ruleset)
    ensures rs == Compile(c)
  {
    var sets := RenderSets(c.vsys);
    var fwd := [Line([StateIn({Invalid})], Do(Drop))] + DosLines(c.dos);
    var jumps := RenderDispatch(c.vsys);
    fwd := fwd + jumps + [Line([], LogOnly)];
    var chains := [("forward", fwd)];
    for i := 0 to |c.vsys|
      invariant chains == [("forward", fwd)] + VsysChains(c, c.vsys[..i])
    {
      hide VsysChain, ForwardChain;
      var v := c.vsys[i];
      var lines := RenderVsys(c, v);
      chains := chains + [(ChainName(v.name), lines)];
      assert VsysChains(c, c.vsys[..i + 1]) == VsysChains(c, c.vsys[..i]) + [(ChainName(v.name), VsysChain(c, v))];
    }
    assert c.vsys[..|c.vsys|] == c.vsys;
    return Ruleset(sets, chains);
  }

  method RenderSets(vs: seq<Vsys>) returns (sets: seq<(string, seq<string>)>)
    ensures sets == Sets(vs)
  {
    sets := [];
    for i := 0 to |vs|
      invariant sets == Sets(vs[..i])
    {
      hide Interfaces, ZoneSet, IfaceSet;
      var v := vs[i];
      for j := 0 to |v.zones|
        invariant sets == Sets(vs[..i]) + ZoneSets(v.name, v.zones[..j])
      {
        sets := sets + [(ZoneSet(v.name, v.zones[j].name), v.zones[j].ifaces)];
        assert ZoneSets(v.name, v.zones[..j + 1])
            == ZoneSets(v.name, v.zones[..j]) + [(ZoneSet(v.name, v.zones[j].name), v.zones[j].ifaces)];
      }
      assert v.zones[..|v.zones|] == v.zones;
      sets := sets + [(IfaceSet(v.name), Interfaces(v.zones))];
      assert vs[..i + 1][..i] == vs[..i];
    }
    assert vs[..|vs|] == vs;
  }

  method RenderDispatch(vs: seq<Vsys>) returns (lines: seq<Line>)
    ensures lines == Dispatch(vs)
  {
    lines := [];
    for i := 0 to |vs|
      invariant lines == Dispatch(vs[..i])
    {
      lines := lines + [Line([IifIn(IfaceSet(vs[i].name))], Jump(ChainName(vs[i].name)))];
    }
    assert vs[..|vs|] == vs;
  }

  method RenderVsys(c: Config, v: Vsys) returns (lines: seq<Line>)
    ensures lines == VsysChain(c, v)
  {
    lines := [Line([], SetCtMark(v.id)), Line([], SetMetaMark(v.id)),
              Line([StateIn({Established, Related})], Do(if Inspects(v) then Queue(v.queue, c.bypass) else Accept))];
    ghost var head := lines;
    for i := 0 to |v.rules|
      invariant lines + RuleLines(c, v, v.rules[i..]) == head + RuleLines(c, v, v.rules)
    {
      if v.rules[i].enabled { lines := lines + [RuleLine(c, v, v.rules[i])]; }
      assert v.rules[i..][1..] == v.rules[i + 1..];
    }
    assert RuleLines(c, v, v.rules[|v.rules|..]) == [];
  }

  // ---- what the configuration means ---------------------------------------------------------

  /** An interface is in the named zone; no name means any interface. */
  predicate ZoneHas(v: Vsys, zone: Option<string>, iface: string)
  {
    zone.Some? ==> exists i :: 0 <= i < |v.zones| && v.zones[i].name == zone.value && iface in v.zones[i].ifaces
  }

  predicate RuleApplies(v: Vsys, r: Rule, p: Packet, k: Kernel)
  {
    && ZoneHas(v, r.fromZone, p.iif) && ZoneHas(v, r.toZone, p.oif)
    && (r.src.Some? ==> p.v4 && k.inCidr(r.src.value, p.saddr))
    && (r.dst.Some? ==> p.v4 && k.inCidr(r.dst.value, p.daddr))
    && ProtoApplies(r, p)
  }

  /** Ports restrict only rules for TCP and UDP. */
  predicate ProtoApplies(r: Rule, p: Packet)
  {
    match r.proto
    case TcpRule => p.l4 == Tcp && (r.dports == [] || p.dport in r.dports)
    case UdpRule => p.l4 == Udp && (r.dports == [] || p.dport in r.dports)
    case IcmpRule => p.l4 == Icmp || p.l4 == Icmpv6
    case AnyRule => true
  }

  /** The verdict of the first enabled rule that applies. */
  function FirstRule(c: Config, v: Vsys, rules: seq<Rule>, p: Packet, k: Kernel): (x: Option<Verdict>)
  {
    if rules == [] then None
    else if rules[0].enabled && RuleApplies(v, rules[0], p, k) then Some(RuleVerdict(c, v, rules[0]))
    else FirstRule(c, v, rules[1..], p, k)
  }

  /** The limiters drop the packet. */
  predicate Flooding(d: Dos, p: Packet, k: Kernel)
  {
    && d.enable && p.state == New
    && (|| (p.l4 == Tcp && p.syn && k.synOver)
        || (p.l4 == Udp && k.udpOver)
        || ((p.l4 == Icmp || p.l4 == Icmpv6) && k.icmpOver)
        || (d.connLimit > 0 && k.connOver))
  }

  predicate Owns(v: Vsys, p: Packet) { p.iif in Interfaces(v.zones) }

  /** What a vsys says about its own packet. */
  function VsysSays(c: Config, v: Vsys, p: Packet, k: Kernel): (x: Option<Verdict>)
  {
    if p.state == Established || p.state == Related
    then Some(if Inspects(v) then Queue(v.queue, c.bypass) else Accept)
    else FirstRule(c, v, v.rules, p, k)
  }

  const UNMARKED := Marks(None, None)

  function Or(x: Option<Verdict>, dflt: Verdict): (v: Verdict) { if x.Some? then x.value else dflt }

  // ---- names ----------------------------------------------------------------------------------

  /** The names a configuration gives one vsys and its zones. */
  datatype Names = Names(vsys: string, zones: seq<string>)

  function NamesOf(v: Vsys): (n: Names)
  {
    Names(v.name, seq(|v.zones|, i requires 0 <= i < |v.zones| => v.zones[i].name))
  }

  function AllNames(vs: seq<Vsys>): (ns: seq<Names>)
  {
    seq(|vs|, i requires 0 <= i < |vs| => NamesOf(vs[i]))
  }

  /** No set of one vsys is generated under the name of another's, and none with zones shares
      its name. */
  ghost predicate Clear(ns: seq<Names>)
  {
    && (forall i, j :: 0 <= i < |ns| && 0 <= j < |ns| && i != j && ns[j].zones != [] ==> ns[i].vsys != ns[j].vsys)
    && (forall i, j, z :: 0 <= i < |ns| && 0 <= j < |ns| && i != j && z in ns[i].zones ==>
          ZoneSet(ns[i].vsys, z) != IfaceSet(ns[j].vsys))
    && (forall i, j, y, z :: 0 <= i < |ns| && 0 <= j < |ns| && i != j && z in ns[i].zones && y in ns[j].zones ==>
          ZoneSet(ns[i].vsys, z) != ZoneSet(ns[j].vsys, y))
  }

  predicate Declares(v: Vsys, z: string) { z in NamesOf(v).zones }

  /** Each zone an enabled rule names is one of its own vsys. */
  predicate RuleDeclared(v: Vsys, r: Rule)
  {
    (r.fromZone.Some? ==> Declares(v, r.fromZone.value)) && (r.toZone.Some? ==> Declares(v, r.toZone.value))
  }

  ghost predicate ZonesDeclared(vs: seq<Vsys>)
  {
    forall i, n :: 0 <= i < |vs| && 0 <= n < |vs[i].rules| && vs[i].rules[n].enabled ==> RuleDeclared(vs[i], vs[i].rules[n])
  }

  /** No interface in two vsys. */
  ghost predicate Disjoint(vs: seq<Vsys>)
  {
    forall i, j, x :: 0 <= i < j < |vs| && x in Interfaces(vs[i].zones) ==> x !in Interfaces(vs[j].zones)
  }

  /** Names that do not collide, zones that exist, and no interface in two vsys. */
  ghost predicate WellFormed(vs: seq<Vsys>) { Clear(AllNames(vs)) && ZonesDeclared(vs) && Disjoint(vs) }

  lemma SameEnd(a: string, b: string, end: string)
    ensures a + end == b + end <==> a == b
  {
    if a + end == b + end { assert (a + end)[..|a|] == a && (b + end)[..|b|] == b; }
  }

  /** Names generated for one vsys never collide, and those that end alike only for one name. */
  lemma OwnNames(v: string, w: string, z: string, y: string)
    ensures IfaceSet(v) == IfaceSet(w) <==> v == w
    ensures ChainName(v) == ChainName(w) <==> v == w
    ensures ZoneSet(v, z) == ZoneSet(v, y) <==> z == y
    ensures ZoneSet(v, z) != IfaceSet(v) && ChainName(v) != "forward"
  {
    SameEnd(v, w, "_ifaces");
    SameEnd(v, w, "_forward");
    assert ZoneSet(v, z)[|v| + 6..] == z && ZoneSet(v, y)[|v| + 6..] == y;
    assert ZoneSet(v, z)[|v| + 1] == 'z' && IfaceSet(v)[|v| + 1] == 'i';
  }

  predicate Plain(s: string) { '_' !in s }

  lemma FirstUnderscore(a: string, x: string)
    requires Plain(a)
    ensures (a + "_" + x)[|a|] == '_' && forall i :: 0 <= i < |a| ==> (a + "_" + x)[i] != '_'
  {
    assert forall i :: 0 <= i < |a| ==> (a + "_" + x)[i] == a[i] && a[i] in a;
  }

  lemma SplitAtUnderscore(a: string, x: string, b: string, y: string)
    requires Plain(a) && Plain(b)
    ensures a + "_" + x == b + "_" + y <==> a == b && x == y
  {
    FirstUnderscore(a, x);
    FirstUnderscore(b, y);
    var s, t := a + "_" + x, b + "_" + y;
    if s == t {
      assert |a| == |b|;
      assert s[..|a|] == a && t[..|b|] == b;
      assert s[|a| + 1..] == x && t[|b| + 1..] == y;
    }
  }

  lemma NamesApart(v: string, w: string, z: string, y: string)
    requires Plain(v) && Plain(w)
    ensures ZoneSet(v, z) == ZoneSet(w, y) <==> v == w && z == y
    ensures IfaceSet(v) == IfaceSet(w) <==> v == w
    ensures ChainName(v) == ChainName(w) <==> v == w
    ensures ZoneSet(v, z) != IfaceSet(w) && ChainName(v) != "forward"
  {
    assert ZoneSet(v, z) == v + "_" + ("zone_" + z) && ZoneSet(w, y) == w + "_" + ("zone_" + y);
    assert IfaceSet(v) == v + "_" + "ifaces" && IfaceSet(w) == w + "_" + "ifaces";
    assert ChainName(v) == v + "_" + "forward" && ChainName(w) == w + "_" + "forward";
    assert ("zone_" + z)[5..] == z && ("zone_" + y)[5..] == y && ("zone_" + z)[0] == 'z';
    SplitAtUnderscore(v, "zone_" + z, w, "zone_" + y);
    SplitAtUnderscore(v, "ifaces", w, "ifaces");
    SplitAtUnderscore(v, "forward", w, "forward");
    SplitAtUnderscore(v, "zone_" + z, w, "ifaces");
  }

  /** Distinct names without underscores are enough, whatever the zones are called. */
  lemma PlainNamesAreClear(ns: seq<Names>)
    requires forall i :: 0 <= i < |ns| ==> Plain(ns[i].vsys)
    requires forall i, j :: 0 <= i < j < |ns| ==> ns[i].vsys != ns[j].vsys
    ensures Clear(ns)
  {
    hide ZoneSet, IfaceSet, Plain;
    forall i, j, y, z | 0 <= i < |ns| && 0 <= j < |ns| && i != j && z in ns[i].zones && y in ns[j].zones
      ensures ZoneSet(ns[i].vsys, z) != ZoneSet(ns[j].vsys, y)
    {
      NamesApart(ns[i].vsys, ns[j].vsys, z, y);
    }
    forall i, j, z | 0 <= i < |ns| && 0 <= j < |ns| && i != j && z in ns[i].zones
      ensures ZoneSet(ns[i].vsys, z) != IfaceSet(ns[j].vsys)
    {
      NamesApart(ns[i].vsys, ns[j].vsys, z, "");
    }
  }

  // ---- sets and chains resolve to their own vsys --------------------------------------------------

  /** Vsys v puts x into the set called name. */
  predicate Contributes(v: Vsys, name: string, x: string)
  {
    || (exists j :: 0 <= j < |v.zones| && ZoneSet(v.name, v.zones[j].name) == name && x in v.zones[j].ifaces)
    || (IfaceSet(v.name) == name && x in Interfaces(v.zones))
  }

  lemma {:induction false} SetsContain(vs: seq<Vsys>, name: string, x: string)
    ensures InSet(Sets(vs), name, x) <==> exists i :: 0 <= i < |vs| && Contributes(vs[i], name, x)
  {
    hide ZoneSet, IfaceSet, Interfaces, ZoneSets, InSet;
    if vs == [] {
      NoSets(name, x);
    } else {
      var n := |vs| - 1;
      var v := vs[n];
      SetsContain(vs[..n], name, x);
      assert forall i :: 0 <= i < n ==> vs[..n][i] == vs[i];
      InSetConcat(Sets(vs[..n]), ZoneSets(v.name, v.zones), name, x);
      InSetConcat(Sets(vs[..n]) + ZoneSets(v.name, v.zones), [(IfaceSet(v.name), Interfaces(v.zones))], name, x);
      ZoneSetsContain(v, name, x);
      OneSet(IfaceSet(v.name), Interfaces(v.zones), name, x);
    }
  }

  lemma NoSets(name: string, x: string)
    ensures !InSet([], name, x)
  {
  }

  lemma OneSet(set': string, members: seq<string>, name: string, x: string)
    ensures InSet([(set', members)], name, x) <==> set' == name && x in members
  {
    assert [(set', members)][0] == (set', members);
  }

  lemma ZoneSetsContain(v: Vsys, name: string, x: string)
    ensures InSet(ZoneSets(v.name, v.zones), name, x)
            <==> exists j :: 0 <= j < |v.zones| && ZoneSet(v.name, v.zones[j].name) == name && x in v.zones[j].ifaces
  {
    hide ZoneSet;
    var zs := ZoneSets(v.name, v.zones);
    assert forall j :: 0 <= j < |v.zones| ==> zs[j] == (ZoneSet(v.name, v.zones[j].name), v.zones[j].ifaces);
  }

  lemma InSetConcat(a: seq<(string, seq<string>)>, b: seq<(string, seq<string>)>, name: string, x: string)
    ensures InSet(a + b, name, x) <==> InSet(a, name, x) || InSet(b, name, x)
  {
    assert forall i :: 0 <= i < |a| ==> (a + b)[i] == a[i];
    assert forall i :: 0 <= i < |b| ==> (a + b)[|a| + i] == b[i];
    if InSet(a + b, name, x) {
      var i :| 0 <= i < |a + b| && (a + b)[i].0 == name && x in (a + b)[i].1;
      if i >= |a| { assert b[i - |a|] == (a + b)[i]; }
    }
  }

  /** Each vsys's sets hold its own interfaces and nobody else's. */
  lemma SetsMean(vs: seq<Vsys>, i: nat, zone: Option<string>, x: string)
    requires Clear(AllNames(vs)) && i < |vs| && (zone.Some? ==> Declares(vs[i], zone.value))
    ensures InSet(Sets(vs), IfaceSet(vs[i].name), x) <==> x in Interfaces(vs[i].zones)
    ensures zone.Some? ==> (InSet(Sets(vs), ZoneSet(vs[i].name, zone.value), x) <==> ZoneHas(vs[i], zone, x))
  {
    hide ZoneSet, IfaceSet, Interfaces, Sets, InSet, Clear;
    SetsContain(vs, IfaceSet(vs[i].name), x);
    forall j | 0 <= j < |vs|
      ensures Contributes(vs[j], IfaceSet(vs[i].name), x) <==> j == i && x in Interfaces(vs[i].zones)
    {
      OnlyOwn(vs, i, j, None);
      NoZonesNoInterfaces(vs[j], x);
    }
    if zone.Some? {
      SetsContain(vs, ZoneSet(vs[i].name, zone.value), x);
      forall j | 0 <= j < |vs|
        ensures Contributes(vs[j], ZoneSet(vs[i].name, zone.value), x) <==> j == i && ZoneHas(vs[i], zone, x)
      {
        OnlyOwn(vs, i, j, zone);
      }
    }
  }

  lemma NoZonesNoInterfaces(v: Vsys, x: string)
    ensures x in Interfaces(v.zones) ==> v.zones != []
  {
  }

  lemma OnlyOwn(vs: seq<Vsys>, i: nat, j: nat, zone: Option<string>)
    requires Clear(AllNames(vs)) && i < |vs| && j < |vs| && (zone.Some? ==> Declares(vs[i], zone.value))
    ensures i != j && vs[j].zones != [] ==> IfaceSet(vs[j].name) != IfaceSet(vs[i].name)
    ensures forall k :: 0 <= k < |vs[j].zones| ==> ZoneSet(vs[j].name, vs[j].zones[k].name) != IfaceSet(vs[i].name)
    ensures zone.Some? ==> IfaceSet(vs[j].name) != ZoneSet(vs[i].name, zone.value)
    ensures zone.Some? ==> forall k :: 0 <= k < |vs[j].zones| ==>
              (ZoneSet(vs[j].name, vs[j].zones[k].name) == ZoneSet(vs[i].name, zone.value) <==> i == j && vs[j].zones[k].name == zone.value)
  {
    hide ZoneSet, IfaceSet;
    var ns := AllNames(vs);
    var z := if zone.Some? then zone.value else "";
    OwnNames(vs[i].name, vs[j].name, z, "");
    assert i != j && ns[j].zones != [] ==> ns[i].vsys != ns[j].vsys;
    forall k | 0 <= k < |vs[j].zones|
      ensures ZoneSet(vs[j].name, vs[j].zones[k].name) != IfaceSet(vs[i].name)
      ensures zone.Some? ==>
                (ZoneSet(vs[j].name, vs[j].zones[k].name) == ZoneSet(vs[i].name, zone.value) <==> i == j && vs[j].zones[k].name == zone.value)
    {
      var y := vs[j].zones[k].name;
      assert ns[j].zones[k] == y;
      OwnNames(vs[j].name, vs[i].name, y, z);
    }
  }

  lemma {:induction false} ChainMeans(c: Config, vs: seq<Vsys>, i: nat)
    requires i < |vs| && forall j :: 0 <= j < |vs| && j != i ==> vs[j].name != vs[i].name
    ensures ChainLines(VsysChains(c, vs), ChainName(vs[i].name)) == VsysChain(c, vs[i])
  {
    hide VsysChain, ChainName, Interfaces;
    var n := |vs| - 1;
    assert VsysChains(c, vs) == [(ChainName(vs[0].name), VsysChain(c, vs[0]))] + VsysChains(c, vs[1..]);
    assert VsysChains(c, vs)[1..] == VsysChains(c, vs[1..]);
    OwnNames(vs[0].name, vs[i].name, "", "");
    if i > 0 {
      ChainMeans(c, vs[1..], i - 1);
    } else {
      forall j | 1 <= j < |vs|
        ensures ChainName(vs[j].name) != ChainName(vs[0].name)
      {
        OwnNames(vs[0].name, vs[j].name, "", "");
      }
      NoOtherChain(c, vs[1..], ChainName(vs[0].name));
    }
  }

  lemma {:induction false} NoOtherChain(c: Config, vs: seq<Vsys>, name: string)
    requires forall j :: 0 <= j < |vs| ==> ChainName(vs[j].name) != name
    ensures ChainLines(VsysChains(c, vs), name) == []
  {
    hide VsysChain, ChainName;
    if vs != [] {
      NoOtherChain(c, vs[1..], name);
      assert VsysChains(c, vs)[1..] == VsysChains(c, vs[1..]);
    }
  }

  // ---- walking the generated chains ---------------------------------------------------------------

  lemma AllHoldConcat(sets: seq<(string, seq<string>)>, a: seq<Match>, b: seq<Match>, p: Packet, k: Kernel)
    ensures AllHold(sets, a + b, p, k) <==> AllHold(sets, a, p, k) && AllHold(sets, b, p, k)
  {
    hide MatchHolds;
    assert forall i :: 0 <= i < |a| ==> (a + b)[i] == a[i];
    assert forall i :: 0 <= i < |b| ==> (a + b)[|a| + i] == b[i];
  }

  lemma AllHoldOne(sets: seq<(string, seq<string>)>, m: Match, p: Packet, k: Kernel)
    ensures AllHold(sets, [m], p, k) <==> MatchHolds(sets, m, p, k)
    ensures AllHold(sets, [], p, k)
  {
    hide MatchHolds;
    assert [m][0] == m;
  }

  lemma ProtoMatchesMean(sets: seq<(string, seq<string>)>, r: Rule, p: Packet, k: Kernel)
    ensures AllHold(sets, ProtoMatches(r), p, k) <==>
            && (r.src.Some? ==> p.v4 && k.inCidr(r.src.value, p.saddr))
            && (r.dst.Some? ==> p.v4 && k.inCidr(r.dst.value, p.daddr))
            && ProtoApplies(r, p)
  {
    var a := if r.src.Some? then [SrcIn(r.src.value)] else [];
    var b := if r.dst.Some? then [DstIn(r.dst.value)] else [];
    AllHoldConcat(sets, a, b, p, k);
    AllHoldConcat(sets, a + b, PortMatches(r), p, k);
    hide AllHold;
    AllHoldOne(sets, if r.src.Some? then a[0] else SynOnly, p, k);
    AllHoldOne(sets, if r.dst.Some? then b[0] else SynOnly, p, k);
    AllHoldOne(sets, if PortMatches(r) != [] then PortMatches(r)[0] else SynOnly, p, k);
  }

  /** A generated line matches exactly the packets its rule applies to. */
  lemma {:induction false} RuleLineMeans(c: Config, vs: seq<Vsys>, i: nat, r: Rule, p: Packet, k: Kernel)
    requires Clear(AllNames(vs)) && i < |vs| && RuleDeclared(vs[i], r)
    ensures LineMatches(Sets(vs), RuleLine(c, vs[i], r), p, k) <==> RuleApplies(vs[i], r, p, k)
  {
    var v, sets := vs[i], Sets(vs);
    var a := if r.fromZone.Some? then [IifIn(ZoneSet(v.name, r.fromZone.value))] else [];
    var b := if r.toZone.Some? then [OifIn(ZoneSet(v.name, r.toZone.value))] else [];
    hide ZoneSet, Sets, InSet, Interfaces, ProtoMatches, ProtoApplies, AllHold, Clear, Declares;
    SetsMean(vs, i, r.fromZone, p.iif);
    SetsMean(vs, i, r.toZone, p.oif);
    AllHoldConcat(sets, a, b, p, k);
    AllHoldConcat(sets, a + b, ProtoMatches(r), p, k);
    ProtoMatchesMean(sets, r, p, k);
    AllHoldOne(sets, if r.fromZone.Some? then a[0] else SynOnly, p, k);
    AllHoldOne(sets, if r.toZone.Some? then b[0] else SynOnly, p, k);
  }

  lemma {:induction false} EvalConcat(rs: Ruleset, a: seq<Line>, b: seq<Line>, p: Packet, k: Kernel, marks: Marks, jumps: nat)
    ensures var w := Eval(rs, a, p, k, marks, jumps);
            Eval(rs, a + b, p, k, marks, jumps) == if w.verdict.Some? then w else Eval(rs, b, p, k, w.marks, jumps)
    decreases |a|
  {
    hide EvalLine;
    if a == [] {
      assert a + b == b;
    } else {
      var w := EvalLine(rs, a[0], p, k, marks, jumps);
      assert (a + b)[0] == a[0] && (a + b)[1..] == a[1..] + b;
      EvalConcat(rs, a[1..], b, p, k, w.marks, jumps);
    }
  }

  lemma EvalOne(rs: Ruleset, l: Line, p: Packet, k: Kernel, marks: Marks, jumps: nat)
    ensures Eval(rs, [l], p, k, marks, jumps) == EvalLine(rs, l, p, k, marks, jumps)
  {
    hide EvalLine;
    var w := EvalLine(rs, l, p, k, marks, jumps);
    assert [l][1..] == [];
    assert Eval(rs, [], p, k, w.marks, jumps) == Walk(None, w.marks);
  }

  lemma {:induction false} RulesWalk(c: Config, rs: Ruleset, i: nat, rules: seq<Rule>, p: Packet, k: Kernel, marks: Marks, jumps: nat)
    requires Clear(AllNames(c.vsys)) && i < |c.vsys| && rs.sets == Sets(c.vsys)
    requires forall n :: 0 <= n < |rules| && rules[n].enabled ==> RuleDeclared(c.vsys[i], rules[n])
    ensures Eval(rs, RuleLines(c, c.vsys[i], rules), p, k, marks, jumps)
         == Walk(FirstRule(c, c.vsys[i], rules, p, k), marks)
    decreases |rules|
  {
    hide Clear, RuleLine, RuleApplies, Sets, LineMatches, RuleDeclared;
    if rules != [] {
      var v, r := c.vsys[i], rules[0];
      RulesWalk(c, rs, i, rules[1..], p, k, marks, jumps);
      if r.enabled { RuleLineMeans(c, c.vsys, i, r, p, k); }
      var head := if r.enabled then [RuleLine(c, v, r)] else [];
      EvalConcat(rs, head, RuleLines(c, v, rules[1..]), p, k, marks, jumps);
      if r.enabled {
        EvalOne(rs, RuleLine(c, v, r), p, k, marks, jumps);
        RuleLineActs(c, v, r);
      }
    }
  }

  lemma RuleLineActs(c: Config, v: Vsys, r: Rule)
    ensures RuleLine(c, v, r).act == Do(RuleVerdict(c, v, r))
  {
  }

  /** A vsys chain marks the packet with its own id and says what the vsys says. */
  lemma VsysWalk(c: Config, rs: Ruleset, i: nat, p: Packet, k: Kernel, jumps: nat)
    requires Clear(AllNames(c.vsys)) && ZonesDeclared(c.vsys) && i < |c.vsys| && rs.sets == Sets(c.vsys)
    ensures var v := c.vsys[i];
            Eval(rs, VsysChain(c, v), p, k, UNMARKED, jumps)
            == Walk(VsysSays(c, v, p, k), Marks(Some(v.id), Some(v.id)))
  {
    hide Clear, RuleDeclared, Sets, RuleLines, FirstRule, Inspects;
    var v := c.vsys[i];
    var l0, l1 := Line([], SetCtMark(v.id)), Line([], SetMetaMark(v.id));
    var l2 := Line([StateIn({Established, Related})], Do(if Inspects(v) then Queue(v.queue, c.bypass) else Accept));
    var rest := RuleLines(c, v, v.rules);
    var m1, m2 := Marks(Some(v.id), None), Marks(Some(v.id), Some(v.id));
    EvalConcat(rs, [l0, l1, l2], rest, p, k, UNMARKED, jumps);
    EvalConcat(rs, [l0, l1], [l2], p, k, UNMARKED, jumps);
    EvalConcat(rs, [l0], [l1], p, k, UNMARKED, jumps);
    EvalOne(rs, l0, p, k, UNMARKED, jumps);
    EvalOne(rs, l1, p, k, m1, jumps);
    EvalOne(rs, l2, p, k, m2, jumps);
    RulesWalk(c, rs, i, v.rules, p, k, m2, jumps);
    assert [l0, l1] + [l2] == [l0, l1, l2] && [l0] + [l1] == [l0, l1];
    assert LineMatches(rs.sets, l2, p, k) <==> p.state == Established || p.state == Related by {
      assert l2.matches[0] == StateIn({Established, Related});
    }
  }

  lemma DosWalk(d: Dos, rs: Ruleset, p: Packet, k: Kernel, marks: Marks, jumps: nat)
    ensures Eval(rs, DosLines(d), p, k, marks, jumps)
         == Walk(if Flooding(d, p, k) then Some(Drop) else None, marks)
  {
    hide Eval, AllHold;
    EvalNone(rs, p, k, marks, jumps);
    if d.enable {
      var l0 := Line([StateIn({New}), SynOnly, Over(SynLimit)], Do(Drop));
      var l1 := Line([StateIn({New}), L4In({Udp}), Over(UdpLimit)], Do(Drop));
      var l2 := Line([StateIn({New}), L4In({Icmp, Icmpv6}), Over(IcmpLimit)], Do(Drop));
      var l3 := Line([StateIn({New}), Over(ConnLimit)], Do(Drop));
      DropLine(rs, l0, p, k, marks, jumps);
      DropLine(rs, l1, p, k, marks, jumps);
      DropLine(rs, l2, p, k, marks, jumps);
      DropLine(rs, l3, p, k, marks, jumps);
      EvalConcat(rs, [l0], [l1], p, k, marks, jumps);
      EvalConcat(rs, [l0, l1], [l2], p, k, marks, jumps);
      EvalConcat(rs, [l0, l1, l2], [l3], p, k, marks, jumps);
      assert [l0] + [l1] == [l0, l1] && [l0, l1] + [l2] == [l0, l1, l2];
      assert DosLines(d) == [l0, l1, l2] + if d.connLimit > 0 then [l3] else [];
      assert [l0, l1, l2] + [] == [l0, l1, l2];
      AllHoldThree(rs.sets, StateIn({New}), SynOnly, Over(SynLimit), p, k);
      AllHoldThree(rs.sets, StateIn({New}), L4In({Udp}), Over(UdpLimit), p, k);
      AllHoldThree(rs.sets, StateIn({New}), L4In({Icmp, Icmpv6}), Over(IcmpLimit), p, k);
      AllHoldTwo(rs.sets, StateIn({New}), Over(ConnLimit), p, k);
    }
  }

  lemma AllHoldTwo(sets: seq<(string, seq<string>)>, a: Match, b: Match, p: Packet, k: Kernel)
    ensures AllHold(sets, [a, b], p, k) <==> MatchHolds(sets, a, p, k) && MatchHolds(sets, b, p, k)
  {
    hide MatchHolds;
    assert [a, b][0] == a && [a, b][1] == b;
  }

  lemma AllHoldThree(sets: seq<(string, seq<string>)>, a: Match, b: Match, c: Match, p: Packet, k: Kernel)
    ensures AllHold(sets, [a, b, c], p, k) <==> MatchHolds(sets, a, p, k) && MatchHolds(sets, b, p, k) && MatchHolds(sets, c, p, k)
  {
    hide MatchHolds;
    assert [a, b, c][0] == a && [a, b, c][1] == b && [a, b, c][2] == c;
  }

  lemma EvalNone(rs: Ruleset, p: Packet, k: Kernel, marks: Marks, jumps: nat)
    ensures Eval(rs, [], p, k, marks, jumps) == Walk(None, marks)
  {
  }

  lemma DropLine(rs: Ruleset, l: Line, p: Packet, k: Kernel, marks: Marks, jumps: nat)
    requires l.act == Do(Drop)
    ensures Eval(rs, [l], p, k, marks, jumps) == Walk(if LineMatches(rs.sets, l, p, k) then Some(Drop) else None, marks)
  {
    EvalOne(rs, l, p, k, marks, jumps);
  }

  // ---- the forward hook ------------------------------------------------------------------------------

  /** The verdict and marks the kernel gives a forwarded packet under a ruleset. */
  function Forward(rs: Ruleset, policy: Verdict, p: Packet, k: Kernel): (r: (Verdict, Marks))
  {
    var w := Eval(rs, ChainLines(rs.chains, "forward"), p, k, UNMARKED, MAX_JUMPS);
    (Or(w.verdict, policy), w.marks)
  }

  /** One dispatch line: the packet goes through the vsys chain exactly if the vsys owns it. */
  lemma DispatchLine(c: Config, i: nat, p: Packet, k: Kernel, marks: Marks)
    requires WellFormed(c.vsys) && i < |c.vsys|
    requires Owns(c.vsys[i], p) ==> marks == UNMARKED
    ensures var v := c.vsys[i];
            Eval(Compile(c), [Line([IifIn(IfaceSet(v.name))], Jump(ChainName(v.name)))], p, k, marks, MAX_JUMPS)
            == if Owns(v, p) then Walk(VsysSays(c, v, p, k), Marks(Some(v.id), Some(v.id))) else Walk(None, marks)
  {
    hide IfaceSet, ChainName, Interfaces, Sets, InSet, ForwardChain, VsysChain, VsysSays, AllHold, Clear;
    var v, rs := c.vsys[i], Compile(c);
    var l := Line([IifIn(IfaceSet(v.name))], Jump(ChainName(v.name)));
    EvalOne(rs, l, p, k, marks, MAX_JUMPS);
    SetsMean(c.vsys, i, None, p.iif);
    AllHoldOne(rs.sets, IifIn(IfaceSet(v.name)), p, k);
    if Owns(v, p) {
      NoZonesNoInterfaces(v, p.iif);
      OwnChain(c, i);
      VsysWalk(c, rs, i, p, k, MAX_JUMPS - 1);
    }
  }

  lemma OwnChain(c: Config, i: nat)
    requires Clear(AllNames(c.vsys)) && i < |c.vsys| && c.vsys[i].zones != []
    ensures ChainLines(Compile(c).chains, ChainName(c.vsys[i].name)) == VsysChain(c, c.vsys[i])
  {
    hide ChainName, ForwardChain, VsysChain;
    var ns := AllNames(c.vsys);
    assert forall j :: 0 <= j < |ns| && j != i ==> ns[j].vsys != ns[i].vsys;
    assert forall j :: 0 <= j < |ns| ==> ns[j].vsys == c.vsys[j].name;
    ChainMeans(c, c.vsys, i);
    OwnNames(c.vsys[i].name, c.vsys[i].name, "", "");
    var chains := Compile(c).chains;
    assert chains[0].0 == "forward" && chains[1..] == VsysChains(c, c.vsys);
  }

  lemma ForwardOnly(c: Config)
    ensures ChainLines(Compile(c).chains, "forward") == ForwardChain(c)
  {
    hide ChainName, ForwardChain, VsysChain;
    forall j | 0 <= j < |c.vsys|
      ensures ChainName(c.vsys[j].name) != "forward"
    {
      OwnNames(c.vsys[j].name, c.vsys[j].name, "", "");
    }
    NoOtherChain(c, c.vsys, "forward");
    var chains := Compile(c).chains;
    assert chains[0] == ("forward", ForwardChain(c)) && chains[1..] == VsysChains(c, c.vsys);
  }

  /** Dispatch over the first n vsys: the owner's word if it is among them, else nothing. */
  lemma {:induction false} DispatchWalk(c: Config, n: nat, p: Packet, k: Kernel)
    requires WellFormed(c.vsys) && n <= |c.vsys|
    ensures forall i :: 0 <= i < n && Owns(c.vsys[i], p) ==>
              Eval(Compile(c), Dispatch(c.vsys[..n]), p, k, UNMARKED, MAX_JUMPS)
              == Walk(VsysSays(c, c.vsys[i], p, k), Marks(Some(c.vsys[i].id), Some(c.vsys[i].id)))
    ensures (forall i :: 0 <= i < n ==> !Owns(c.vsys[i], p)) ==>
              Eval(Compile(c), Dispatch(c.vsys[..n]), p, k, UNMARKED, MAX_JUMPS) == Walk(None, UNMARKED)
  {
    hide IfaceSet, ChainName, Interfaces, Compile, VsysSays;
    if n > 0 {
      var v := c.vsys[n - 1];
      var line := Line([IifIn(IfaceSet(v.name))], Jump(ChainName(v.name)));
      assert Dispatch(c.vsys[..n]) == Dispatch(c.vsys[..n - 1]) + [line];
      DispatchWalk(c, n - 1, p, k);
      var w := Eval(Compile(c), Dispatch(c.vsys[..n - 1]), p, k, UNMARKED, MAX_JUMPS);
      EvalConcat(Compile(c), Dispatch(c.vsys[..n - 1]), [line], p, k, UNMARKED, MAX_JUMPS);
      DispatchLine(c, n - 1, p, k, if Owns(v, p) then UNMARKED else w.marks);
      OwnerIsUnique(c.vsys, p, n - 1);
    }
  }

  lemma OwnerIsUnique(vs: seq<Vsys>, p: Packet, j: nat)
    requires WellFormed(vs) && j < |vs|
    ensures Owns(vs[j], p) ==> forall i :: 0 <= i < |vs| && i != j ==> !Owns(vs[i], p)
  {
  }

  lemma ForwardWalk(c: Config, p: Packet, k: Kernel)
    requires WellFormed(c.vsys)
    ensures Forward(Compile(c), c.policy, p, k) ==
            if p.state == Invalid || Flooding(c.dos, p, k) then (Drop, UNMARKED)
            else
              var w := Eval(Compile(c), Dispatch(c.vsys), p, k, UNMARKED, MAX_JUMPS);
              (Or(w.verdict, c.policy), w.marks)
  {
    hide Compile, Dispatch, DosLines, Flooding, WellFormed, Eval;
    ForwardOnly(c);
    var rs := Compile(c);
    var first, last := Line([StateIn({Invalid})], Do(Drop)), Line([], LogOnly);
    var head := [first] + DosLines(c.dos);
    EvalConcat(rs, head + Dispatch(c.vsys), [last], p, k, UNMARKED, MAX_JUMPS);
    EvalConcat(rs, head, Dispatch(c.vsys), p, k, UNMARKED, MAX_JUMPS);
    EvalConcat(rs, [first], DosLines(c.dos), p, k, UNMARKED, MAX_JUMPS);
    DropLine(rs, first, p, k, UNMARKED, MAX_JUMPS);
    AllHoldOne(rs.sets, StateIn({Invalid}), p, k);
    DosWalk(c.dos, rs, p, k, UNMARKED, MAX_JUMPS);
    var w := Eval(rs, Dispatch(c.vsys), p, k, UNMARKED, MAX_JUMPS);
    EvalOne(rs, last, p, k, w.marks, MAX_JUMPS);
  }

  /** The ruleset treats the packet as the configuration says: its own vsys's verdict, queue and
      marks, the default where no enabled rule applies, no vsys for an interface nobody owns, and
      a drop for invalid or flooding packets. */
  ghost predicate Preserved(c: Config, p: Packet, k: Kernel)
  {
    var r, refused := Forward(Compile(c), c.policy, p, k), p.state == Invalid || Flooding(c.dos, p, k);
    && (refused ==> r == (Drop, UNMARKED))
    && (!refused ==> forall i :: 0 <= i < |c.vsys| && Owns(c.vsys[i], p) ==>
          r == (Or(VsysSays(c, c.vsys[i], p, k), c.policy), Marks(Some(c.vsys[i].id), Some(c.vsys[i].id))))
    && (!refused && (forall i :: 0 <= i < |c.vsys| ==> !Owns(c.vsys[i], p)) ==> r == (c.policy, UNMARKED))
  }

  /** The compiler preserves the meaning of every well-formed configuration, for every packet. */
  lemma CompiledMeansConfigured(c: Config, p: Packet, k: Kernel)
    requires WellFormed(c.vsys)
    ensures Preserved(c, p, k)
  {
    hide Forward, Compile, Dispatch, Flooding, WellFormed, VsysSays, Eval, Owns;
    ForwardWalk(c, p, k);
    DispatchWalk(c, |c.vsys|, p, k);
    assert c.vsys[..|c.vsys|] == c.vsys;
  }

  /** The first enabled rule that applies decides, and without one there is no decision. */
  lemma {:induction false} FirstRuleMeans(c: Config, v: Vsys, rules: seq<Rule>, p: Packet, k: Kernel)
    ensures FirstRule(c, v, rules, p, k).None? <==>
            forall i :: 0 <= i < |rules| && rules[i].enabled ==> !RuleApplies(v, rules[i], p, k)
    ensures FirstRule(c, v, rules, p, k).Some? ==> exists i ::
              && 0 <= i < |rules| && rules[i].enabled && RuleApplies(v, rules[i], p, k)
              && FirstRule(c, v, rules, p, k) == Some(RuleVerdict(c, v, rules[i]))
              && forall j :: 0 <= j < i && rules[j].enabled ==> !RuleApplies(v, rules[j], p, k)
  {
    hide RuleApplies, RuleVerdict;
    if rules != [] {
      FirstRuleMeans(c, v, rules[1..], p, k);
      assert forall i :: 1 <= i < |rules| ==> rules[i] == rules[1..][i - 1];
      if !(rules[0].enabled && RuleApplies(v, rules[0], p, k)) && FirstRule(c, v, rules[1..], p, k).Some? {
        var i :| && 0 <= i < |rules[1..]| && rules[1..][i].enabled && RuleApplies(v, rules[1..][i], p, k)
                 && FirstRule(c, v, rules[1..], p, k) == Some(RuleVerdict(c, v, rules[1..][i]))
                 && forall j :: 0 <= j < i && rules[1..][j].enabled ==> !RuleApplies(v, rules[1..][j], p, k);
        assert rules[i + 1] == rules[1..][i];
        forall j | 0 <= j < i + 1 && rules[j].enabled
          ensures !RuleApplies(v, rules[j], p, k)
        {
          if j > 0 { assert rules[1..][j - 1] == rules[j]; }
        }
      }
    }
  }

  /** Isolation: reconfiguring other vsys never changes what happens to this one's packets. */
  lemma OthersDoNotMatter(c: Config, d: Config, i: nat, j: nat, p: Packet, k: Kernel)
    requires WellFormed(c.vsys) && WellFormed(d.vsys) && i < |c.vsys| && j < |d.vsys|
    requires c.vsys[i] == d.vsys[j] && Owns(c.vsys[i], p)
    requires c.bypass == d.bypass && c.policy == d.policy && c.dos == d.dos
    ensures Forward(Compile(c), c.policy, p, k) == Forward(Compile(d), d.policy, p, k)
  {
    hide Forward, Compile, Flooding, WellFormed, Owns;
    CompiledMeansConfigured(c, p, k);
    CompiledMeansConfigured(d, p, k);
    SameSays(c, d, c.vsys[i], c.vsys[i].rules, p, k);
  }

  lemma {:induction false} SameSays(c: Config, d: Config, v: Vsys, rules: seq<Rule>, p: Packet, k: Kernel)
    requires c.bypass == d.bypass
    ensures FirstRule(c, v, rules, p, k) == FirstRule(d, v, rules, p, k)
  {
    if rules != [] { SameSays(c, d, v, rules[1..], p, k); }
  }

  /** An enabled rule that sends new packets to the inspection queue. */
  predicate QueuesNew(c: Config, v: Vsys, i: nat)
    requires i < |v.rules|
  {
    v.rules[i].enabled && RuleVerdict(c, v, v.rules[i]).Queue?
  }

  /** Inspecting a session's first packets means inspecting the rest of it, in every vsys with such
      a rule, if and only if one of those rules is spelled allow: where all of them carry some other
      action text, established packets are accepted past the inspection. */
  lemma EstablishedInspectedIff(c: Config, v: Vsys, p: Packet, k: Kernel)
    requires p.state == Established || p.state == Related
    requires exists i :: 0 <= i < |v.rules| && QueuesNew(c, v, i)
    ensures VsysSays(c, v, p, k) == Some(Queue(v.queue, c.bypass)) || VsysSays(c, v, p, k) == Some(Accept)
    ensures VsysSays(c, v, p, k) == Some(Accept) <==>
            forall i :: 0 <= i < |v.rules| && QueuesNew(c, v, i) ==> v.rules[i].action == OtherAction
  {
    if Inspects(v) {
      var i :| 0 <= i < |v.rules| && v.rules[i].inspect && v.rules[i].action == Allow && v.rules[i].enabled;
      assert QueuesNew(c, v, i);
    }
  }

  /** Rule n is the first enabled rule of the vsys that applies to the packet. */
  ghost predicate Decides(v: Vsys, n: nat, p: Packet, k: Kernel)
  {
    && n < |v.rules| && v.rules[n].enabled && RuleApplies(v, v.rules[n], p, k)
    && forall j :: 0 <= j < n && v.rules[j].enabled ==> !RuleApplies(v, v.rules[j], p, k)
  }

  /** The forward hook carries out what the deciding rule of the owner says: a denied packet is
      dropped, a rejected one rejected, and any other goes to the owner's queue, with the configured
      bypass, if the rule inspects and is accepted if it does not. */
  lemma RuleIsCarriedOut(c: Config, i: nat, n: nat, p: Packet, k: Kernel)
    requires WellFormed(c.vsys) && i < |c.vsys| && Owns(c.vsys[i], p) && p.state == New && !Flooding(c.dos, p, k)
    requires Decides(c.vsys[i], n, p, k)
    ensures var r, x := c.vsys[i].rules[n], Forward(Compile(c), c.policy, p, k).0;
            && (x == Drop <==> r.action == Deny)
            && (x == Reject <==> r.action == Refuse)
            && (r.action != Deny && r.action != Refuse ==>
                  x == if r.inspect then Queue(c.vsys[i].queue, c.bypass) else Accept)
  {
    hide Forward, Compile, Flooding, WellFormed, Owns, RuleApplies;
    CompiledMeansConfigured(c, p, k);
    FirstIsDeciding(c, c.vsys[i], c.vsys[i].rules, p, k, n);
  }

  lemma {:induction false} FirstIsDeciding(c: Config, v: Vsys, rules: seq<Rule>, p: Packet, k: Kernel, n: nat)
    requires n < |rules| && rules[n].enabled && RuleApplies(v, rules[n], p, k)
    requires forall j :: 0 <= j < n && rules[j].enabled ==> !RuleApplies(v, rules[j], p, k)
    ensures FirstRule(c, v, rules, p, k) == Some(RuleVerdict(c, v, rules[n]))
  {
    hide RuleApplies, RuleVerdict;
    if n > 0 { FirstIsDeciding(c, v, rules[1..], p, k, n - 1); }
  }

  /** Where no enabled rule applies the packet gets the configured default. */
  lemma DefaultIsCarriedOut(c: Config, i: nat, p: Packet, k: Kernel)
    requires WellFormed(c.vsys) && i < |c.vsys| && Owns(c.vsys[i], p) && p.state == New && !Flooding(c.dos, p, k)
    requires forall n :: 0 <= n < |c.vsys[i].rules| && c.vsys[i].rules[n].enabled ==> !RuleApplies(c.vsys[i], c.vsys[i].rules[n], p, k)
    ensures Forward(Compile(c), c.policy, p, k).0 == c.policy
  {
    hide Forward, Compile, Flooding, WellFormed, Owns, RuleApplies;
    CompiledMeansConfigured(c, p, k);
    FirstRuleMeans(c, c.vsys[i], c.vsys[i].rules, p, k);
  }

  /** Established traffic goes to the owner's queue exactly when an enabled allow rule of the owner
      inspects, and is accepted otherwise. */
  lemma EstablishedIsCarriedOut(c: Config, i: nat, p: Packet, k: Kernel)
    requires WellFormed(c.vsys) && i < |c.vsys| && Owns(c.vsys[i], p) && (p.state == Established || p.state == Related)
    ensures var v := c.vsys[i];
            Forward(Compile(c), c.policy, p, k).0 ==
            if exists n :: 0 <= n < |v.rules| && v.rules[n].enabled && v.rules[n].inspect && v.rules[n].action == Allow
            then Queue(v.queue, c.bypass) else Accept
  {
    hide Forward, Compile, WellFormed, Owns;
    CompiledMeansConfigured(c, p, k);
  }
}
