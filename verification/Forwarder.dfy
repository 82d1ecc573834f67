/** The portable forwarder: packet parsing, the per-packet path through the flow cache,
    the command loop that swaps policy banks, and what holds over whole runs of both. */
module Forwarder {
  import opened Words
  import opened FlowTable
  import opened Policy

  // ---- parsing -----------------------------------------------------------------

  const ETH_HLEN := 14
  const IP4_MIN_HLEN := 20
  const ETHERTYPE_IPV4: U16 := 0x0800
  const ETHERTYPE_VLAN: U16 := 0x8100

  datatype Parsed = Good(tuple: Tuple) | Bad(rc: Rc)

  function Be16(b: seq<U8>, i: nat): (v: U16)
    requires i + 2 <= |b|
  {
    0x100 * (b[i] as int) + b[i + 1] as int
  }

  /** Frame to 5-tuple, with at most one 802.1Q tag. */
  function Parse(pkt: seq<U8>, vsys: U8): (r: Parsed)
  {
    if |pkt| < ETH_HLEN + IP4_MIN_HLEN then Bad(ErrShort)
    else if Be16(pkt, 12) == ETHERTYPE_VLAN then
      if |pkt| < ETH_HLEN + 4 + IP4_MIN_HLEN then Bad(ErrShort)
      else if Be16(pkt, 16) != ETHERTYPE_IPV4 then Bad(ErrNotIp)
      else ParseIp(pkt[ETH_HLEN + 4..], vsys)
    else if Be16(pkt, 12) != ETHERTYPE_IPV4 then Bad(ErrNotIp)
    else ParseIp(pkt[ETH_HLEN..], vsys)
  }

  function ParseIp(ip: seq<U8>, vsys: U8): (r: Parsed)
    requires |ip| >= IP4_MIN_HLEN
  {
    var ihl := ip[0] as int % 16 * 4;
    if ihl < IP4_MIN_HLEN || ihl > |ip| then Bad(ErrShort)
    else
      var t := Tuple(LdBe32(ip[12..]), LdBe32(ip[16..]), 0, 0, ip[9], vsys, 0);
      if t.proto != TCP && t.proto != UDP then Good(t)
      else if ihl + 4 > |ip| then Bad(ErrShort)
      else Good(t.(sport := Be16(ip, ihl), dport := Be16(ip, ihl + 2),
                   tcpFlags := if t.proto == TCP && ihl + 14 <= |ip| then ip[ihl + 13] else 0))
  }

  /** An IPv4 frame by its parts: MAC addresses, an optional 802.1Q tag, the header bytes
      around protocol and addresses, IP options, and the rest of the packet. */
  datatype Frame = Frame(macs: seq<U8>, tag: Option<seq<U8>>, head: seq<U8>, proto: U8, sum: seq<U8>,
                         src: U32, dst: U32, options: seq<U8>, body: seq<U8>)

  ghost predicate ValidFrame(f: Frame)
  {
    && |f.macs| == 12 && (f.tag.Some? ==> |f.tag.value| == 2) && |f.head| == 8 && |f.sum| == 2
    && |f.options| <= 40 && |f.options| % 4 == 0
  }

  ghost function EmitIp(f: Frame): (b: seq<U8>)
    requires ValidFrame(f)
  {
    [0x45 + |f.options| / 4] + f.head + [f.proto] + f.sum + StBe32(f.src) + StBe32(f.dst) + f.options + f.body
  }

  ghost function Emit(f: Frame): (b: seq<U8>)
    requires ValidFrame(f)
  {
    f.macs + (if f.tag.Some? then [0x81, 0x00] + f.tag.value else []) + [0x08, 0x00] + EmitIp(f)
  }

  /** The tuple a frame carries; ports and flags only where its protocol has them. */
  ghost function TupleIn(f: Frame, vsys: U8): (t: Tuple)
    requires f.proto == TCP || f.proto == UDP ==> |f.body| >= 4
  {
    if f.proto == TCP || f.proto == UDP
    then Tuple(f.src, f.dst, Be16(f.body, 0), Be16(f.body, 2), f.proto, vsys,
               if f.proto == TCP && |f.body| >= 14 then f.body[13] else 0)
    else Tuple(f.src, f.dst, 0, 0, f.proto, vsys, 0)
  }

  /** Parsing recovers the tuple of every emitted frame; only a TCP or UDP packet too short
      for its ports is refused. */
  lemma ParseEmitted(f: Frame, vsys: U8)
    requires ValidFrame(f)
    ensures (f.proto == TCP || f.proto == UDP) && |f.body| < 4 ==> Parse(Emit(f), vsys) == Bad(ErrShort)
    ensures !((f.proto == TCP || f.proto == UDP) && |f.body| < 4) ==> Parse(Emit(f), vsys) == Good(TupleIn(f, vsys))
  {
    ParseEmittedIp(f, vsys);
    var pkt, off := Emit(f), if f.tag.Some? then 18 else 14;
    assert pkt[off..] == EmitIp(f);
    assert Be16(pkt, off - 2) == ETHERTYPE_IPV4;
    assert f.tag.Some? ==> Be16(pkt, 12) == ETHERTYPE_VLAN;
  }

  lemma ParseEmittedIp(f: Frame, vsys: U8)
    requires ValidFrame(f)
    ensures |EmitIp(f)| >= IP4_MIN_HLEN
    ensures (f.proto == TCP || f.proto == UDP) && |f.body| < 4 ==> ParseIp(EmitIp(f), vsys) == Bad(ErrShort)
    ensures !((f.proto == TCP || f.proto == UDP) && |f.body| < 4) ==>
              ParseIp(EmitIp(f), vsys) == Good(TupleIn(f, vsys))
  {
    hide EmitIp, StBe32, LdBe32;
    IpFields(f);
    var ip, ihl := EmitIp(f), 20 + |f.options|;
    assert forall j :: 0 <= j < |f.body| ==> ip[ihl + j] == ip[ihl..][j];
  }

  lemma IpFields(f: Frame)
    requires ValidFrame(f)
    ensures var ip, ihl := EmitIp(f), 20 + |f.options|;
            && |ip| == ihl + |f.body| && ip[0] as int % 16 * 4 == ihl && ip[9] == f.proto
            && LdBe32(ip[12..]) == f.src && LdBe32(ip[16..]) == f.dst && ip[ihl..] == f.body
  {
    hide StBe32, LdBe32;
    var ip := EmitIp(f);
    var tail := StBe32(f.dst) + f.options + f.body;
    LoadStore32(f.src, tail);
    LoadStore32(f.dst, f.options + f.body);
    assert ip[12..] == StBe32(f.src) + tail;
    assert ip[16..] == StBe32(f.dst) + (f.options + f.body);
  }

  // ---- state ---------------------------------------------------------------------

  datatype Counters = Counters(
    rx: U64, tx: U64, txFail: U64, forward: U64, inspect: U64, drop: U64, punt: U64, local: U64,
    cacheHit: U64, classify: U64, parseErr: U64, flowFull: U64)

  const NO_COUNTS := Counters(0, 0, 0, 0, 0, 0, 0, 0, 0, 0, 0, 0)

  type I32 = x: int | -0x8000_0000 <= x < 0x8000_0000

  datatype Dp = Dp(tables: Tables, dflt: I32, bank: U32, stop: bool,
                   slots: nat, flows: map<FlowKey, FlowEnt>, stats: Counters)

  /** A started forwarder: no rules, drop by default, an empty cache. */
  function Init(slots: nat): (dp: Dp) { Dp(EMPTY_TABLES, DROP, 0, false, slots, map[], NO_COUNTS) }

  datatype Result = Result(outcome: Outcome, fromCache: bool, reset: bool)

  // ---- one packet ------------------------------------------------------------------

  /** The uncached decision: first match, or the default when no row matches. */
  function Decide(t: Tables, dflt: I32, k: Tuple): (o: Outcome)
  {
    var o := FirstMatch(t.rows, k);
    if o.decision == NOMATCH then o.(decision := dflt) else o
  }

  /** Decisions the cache may replay; punt, local and unknown codes are re-evaluated. */
  predicate Cacheable(decision: int) { decision == FORWARD || decision == INSPECT || decision == DROP }

  /** What a cached entry answers. */
  function Replay(e: FlowEnt): (o: Outcome)
  {
    Outcome(if e.verdict != Allow then DROP else if e.inspect then INSPECT else FORWARD, e.ruleId, e.egress)
  }

  function Touch(e: FlowEnt, len: nat): (r: FlowEnt)
  {
    e.(pkts := Wrap32(e.pkts + 1), bytes := Wrap64(e.bytes + len))
  }

  /** Caching a decision in an entry. */
  function Remember(e: FlowEnt, o: Outcome, len: nat): (r: FlowEnt)
  {
    Touch(e, len).(ruleId := o.ruleId, egress := o.egress,
                   verdict := if o.decision == FORWARD || o.decision == INSPECT then Allow
                              else if o.decision == DROP then FlowTable.Drop else Unset,
                   inspect := e.inspect || o.decision == INSPECT)
  }

  lemma RememberKeepsKey(e: FlowEnt, o: Outcome, len: nat)
    ensures Remember(e, o, len).key == e.key && Remember(e, o, len).used == e.used
  {
  }

  function CountDecision(s: Counters, decision: int): (r: Counters)
  {
    if decision == FORWARD then s.(forward := Wrap64(s.forward + 1))
    else if decision == INSPECT then s.(inspect := Wrap64(s.inspect + 1))
    else if decision == DROP then s.(drop := Wrap64(s.drop + 1))
    else if decision == PUNT then s.(punt := Wrap64(s.punt + 1))
    else if decision == LOCAL then s.(local := Wrap64(s.local + 1))
    else s
  }

  predicate Answers(dp: Dp, k: FlowKey) { k in dp.flows && dp.flows[k].verdict != Unset }

  function ProcessHit(dp: Dp, k: FlowKey, len: nat): (r: (Dp, Result))
    requires k in dp.flows
  {
    var e := dp.flows[k];
    var s := dp.stats.(cacheHit := Wrap64(dp.stats.cacheHit + 1));
    (dp.(flows := dp.flows[k := Touch(e, len)], stats := CountDecision(s, Replay(e).decision)),
     Result(Replay(e), true, e.verdict == Reset))
  }

  function ProcessMiss(dp: Dp, t: Tuple, len: nat): (r: (Dp, Result))
  {
    var k, o := KeyOf(t), Decide(dp.tables, dp.dflt, t);
    var s := dp.stats.(classify := Wrap64(dp.stats.classify + 1));
    var room := k in dp.flows || |dp.flows| < dp.slots;
    var e := if k in dp.flows then dp.flows[k] else FreshEnt(k);
    var s' := if room then s else s.(flowFull := Wrap64(s.flowFull + 1));
    (dp.(flows := if room then dp.flows[k := Remember(e, o, len)] else dp.flows,
         stats := CountDecision(s', o.decision)),
     Result(o, false, false))
  }

  /** The per-packet path: parse, look up, replay or classify and remember. */
  function Process(dp: Dp, pkt: seq<U8>, vsys: U8): (r: (Dp, Result))
  {
    match Parse(pkt, vsys)
    case Bad(rc) =>
      (dp.(stats := dp.stats.(parseErr := Wrap64(dp.stats.parseErr + 1))),
       Result(Outcome(if rc == ErrNotIp then LOCAL else DROP, 0, 0), false, false))
    case Good(t) =>
      if Answers(dp, KeyOf(t)) then ProcessHit(dp, KeyOf(t), |pkt|) else ProcessMiss(dp, t, |pkt|)
  }

  /** The counters never influence a decision. */
  lemma ResultIgnoresCounters(dp: Dp, s: Counters, pkt: seq<U8>, vsys: U8)
    ensures Process(dp.(stats := s), pkt, vsys).1 == Process(dp, pkt, vsys).1
  {
    hide Parse, FirstMatch, KeyOf, CountDecision, Remember, Touch;
  }

  // ---- commands --------------------------------------------------------------------

  const CMD_SET_BANK: U16 := 2
  const CMD_SET_DEFAULT: U16 := 4
  const CMD_FLUSH_FLOWS: U16 := 5
  const CMD_SHUTDOWN: U16 := 6

  const OFF_BANK0 := 0x4000
  const BANK_SIZE := 0x40_0000
  const OFF_BANK1 := OFF_BANK0 + BANK_SIZE

  /** The conversion of a 64-bit command argument to a 32-bit signed int. */
  function ToI32(a: U64): (r: I32)
  {
    var w := Wrap32(a);
    if w < 0x8000_0000 then w else w - 0x1_0000_0000
  }

  /** The bytes a bank offers the loader, or the code the request is refused with before loading. */
  function BankBytes(region: Option<seq<U8>>, bank: U32): (r: (Rc, seq<U8>))
  {
    if region.None? || bank > 1 then (ErrBank, [])
    else
      var off := if bank == 0 then OFF_BANK0 else OFF_BANK1;
      if off + HDR_SIZE > |region.value| then (ErrShort, [])
      else if |region.value| - off > BANK_SIZE then (Ok, region.value[off..off + BANK_SIZE])
      else (Ok, region.value[off..])
  }

  function ActivateBank(dp: Dp, region: Option<seq<U8>>, bank: U32): (r: (Dp, Rc))
  {
    var (rc, blob) := BankBytes(region, bank);
    if rc != Ok then (dp, rc)
    else
      var loaded := dp.(tables := Loaded(blob));
      if CheckHeader(blob) != Ok then (loaded, CheckHeader(blob))
      else (loaded.(bank := bank, flows := map[]), Ok)
  }

  /** What happens to a forwarder: a packet arrives (and, if it is to be sent, the send
      succeeds or fails), or a command is popped while the shared region holds some bytes. */
  datatype Event =
    | Packet(pkt: seq<U8>, vsys: U8, sent: bool)
    | Command(op: U16, arg: U64, region: Option<seq<U8>>)

  function Serve(dp: Dp, op: U16, arg: U64, region: Option<seq<U8>>): (r: Dp)
  {
    if op == CMD_SET_BANK then ActivateBank(dp, region, Wrap32(arg)).0
    else if op == CMD_SET_DEFAULT then dp.(dflt := ToI32(arg))
    else if op == CMD_FLUSH_FLOWS then dp.(flows := map[])
    else if op == CMD_SHUTDOWN then dp.(stop := true)
    else dp
  }

  predicate Sends(decision: int) { decision == FORWARD || decision == INSPECT }

  function CountSend(s: Counters, decision: int, sent: bool): (r: Counters)
  {
    if !Sends(decision) then s
    else if sent then s.(tx := Wrap64(s.tx + 1))
    else s.(txFail := Wrap64(s.txFail + 1))
  }

  /** One packet of a poll: count it, process it, and count the send. */
  function Poll(dp: Dp, pkt: seq<U8>, vsys: U8, sent: bool): (r: Dp)
  {
    var s := dp.stats;
    var (dp', res) := Process(dp.(stats := s.(rx := Wrap64(s.rx + 1))), pkt, vsys);
    dp'.(stats := CountSend(dp'.stats, res.outcome.decision, sent))
  }

  function Step(dp: Dp, ev: Event): (r: Dp)
  {
    match ev
    case Packet(pkt, vsys, sent) => Poll(dp, pkt, vsys, sent)
    case Command(op, arg, region) => Serve(dp, op, arg, region)
  }

  function Run(dp: Dp, evs: seq<Event>): (r: Dp)
  {
    if evs == [] then dp else Step(Run(dp, evs[..|evs| - 1]), evs[|evs| - 1])
  }

  lemma PollUnfolds(dp: Dp, pkt: seq<U8>, vsys: U8, sent: bool, mid: Dp, res: Result)
    requires (mid, res) == Process(dp.(stats := dp.stats.(rx := Wrap64(dp.stats.rx + 1))), pkt, vsys)
    ensures Step(dp, Packet(pkt, vsys, sent)) == mid.(stats := CountSend(mid.stats, res.outcome.decision, sent))
  {
    hide Process, CountSend, Wrap64;
  }

  lemma RunAppend(dp: Dp, evs: seq<Event>, ev: Event)
    ensures Run(dp, evs + [ev]) == Step(Run(dp, evs), ev)
  {
    hide Step;
    assert (evs + [ev])[..|evs|] == evs;
  }

  // ---- the forwarder in place ---------------------------------------------------------

  class Context {
    var tables: Tables
    var dflt: I32
    var bank: U32
    var stop: bool
    var stats: Counters
    const flows: Table

    ghost predicate Valid()
      reads this, flows, flows.ent
    {
      flows.Valid()
    }

    ghost function View(): (dp: Dp)
      requires Valid()
      reads this, flows, flows.ent
    {
      Dp(tables, dflt, bank, stop, flows.slots, flows.View(), stats)
    }

    /** Starts empty and failing closed; a request for no slots gets the default size. */
    constructor (size: U32, hash: FlowKey -> U32)
      requires size <= 0x8000_0000
      ensures Valid() && fresh(flows) && fresh(flows.ent)
      ensures View() == Init(flows.slots)
      ensures flows.slots >= if size == 0 then 0x4_0000 else size
    {
      tables, dflt, bank, stop, stats := EMPTY_TABLES, DROP, 0, false, NO_COUNTS;
      flows := new Table(if size == 0 then 0x4_0000 else size, hash);
    }

    method ProcessPacket(pkt: seq<U8>, vsys: U8) returns (out: Result)
      requires Valid()
      modifies this`stats, flows`count, flows.ent
      ensures Valid()
      ensures View() == Process(old(View()), pkt, vsys).0
      ensures out == Process(old(View()), pkt, vsys).1
    {
      var parsed := Parse(pkt, vsys);
      if parsed.Bad? {
        stats := stats.(parseErr := Wrap64(stats.parseErr + 1));
        return Result(Outcome(if parsed.rc == ErrNotIp then LOCAL else DROP, 0, 0), false, false);
      }
      var k := KeyOf(parsed.tuple);
      var at := flows.Lookup(k);
      if at.Some? {
        HeldIsStored(flows.ent[..], at.value, k);
        if flows.ent[at.value].verdict != Unset {
          out := ReplayEntry(k, at.value, |pkt|);
          return;
        }
      }
      out := ClassifyPacket(parsed.tuple, at, |pkt|);
    }

    /** Counts a received packet and processes it. */
    method Receive(pkt: seq<U8>, vsys: U8) returns (out: Result)
      requires Valid()
      modifies this`stats, flows`count, flows.ent
      ensures Valid()
      ensures var dp := old(View());
              (View(), out) == Process(dp.(stats := dp.stats.(rx := Wrap64(dp.stats.rx + 1))), pkt, vsys)
    {
      hide Process, Wrap64;
      stats := stats.(rx := Wrap64(stats.rx + 1));
      out := ProcessPacket(pkt, vsys);
    }

    method ReplayEntry(k: FlowKey, i: nat, len: nat) returns (out: Result)
      requires Valid() && Holds(flows.ent[..], i, k)
      requires k in flows.View() && flows.View()[k] == flows.ent[i]
      modifies this`stats, flows.ent
      ensures Valid()
      ensures (View(), out) == ProcessHit(old(View()), k, len)
    {
      var e := flows.ent[i];
      stats := CountDecision(stats.(cacheHit := Wrap64(stats.cacheHit + 1)), Replay(e).decision);
      flows.Write(i, Touch(e, len));
      return Result(Replay(e), true, e.verdict == Reset);
    }

    method ClassifyPacket(t: Tuple, at: Option<nat>, len: nat) returns (out: Result)
      requires Valid()
      requires at.Some? <==> KeyOf(t) in flows.View()
      requires at.Some? ==> Holds(flows.ent[..], at.value, KeyOf(t))
      modifies this`stats, flows`count, flows.ent
      ensures Valid()
      ensures (View(), out) == ProcessMiss(old(View()), t, len)
    {
      hide KeyOf, FirstMatch, Remember, CountDecision, FreshEnt, Contents, PathsUsed, DistinctKeys, Holds, Pow2, Wrap64;
      var o := Classify(tables, t);
      if o.decision == NOMATCH { o := o.(decision := dflt); }
      stats := stats.(classify := Wrap64(stats.classify + 1));
      var stored := Store(KeyOf(t), at, o, len);
      if !stored { stats := stats.(flowFull := Wrap64(stats.flowFull + 1)); }
      stats := CountDecision(stats, o.decision);
      return Result(o, false, false);
    }

    /** Caches a decision in the key's entry, inserting one if there is room. */
    method Store(k: FlowKey, at: Option<nat>, o: Outcome, len: nat) returns (stored: bool)
      requires Valid()
      requires at.Some? <==> k in flows.View()
      requires at.Some? ==> Holds(flows.ent[..], at.value, k)
      modifies flows`count, flows.ent
      ensures Valid()
      ensures stored <==> k in old(flows.View()) || |old(flows.View())| < flows.slots
      ensures flows.View() ==
              if !stored then old(flows.View())
              else var m := old(flows.View()); m[k := Remember(if k in m then m[k] else FreshEnt(k), o, len)]
    {
      hide Remember, FreshEnt, Contents, PathsUsed, DistinctKeys;
      var i := at;
      if i.None? { i := flows.Insert(k); }
      FullIff(old(flows.ent[..]));
      if i.None? { return false; }
      HeldIsStored(flows.ent[..], i.value, k);
      RememberKeepsKey(flows.ent[i.value], o, len);
      flows.Write(i.value, Remember(flows.ent[i.value], o, len));
      return true;
    }

    method ServeCommand(op: U16, arg: U64, region: Option<seq<U8>>)
      requires Valid()
      modifies this`tables, this`dflt, this`bank, this`stop, flows`count, flows.ent
      ensures Valid()
      ensures View() == Serve(old(View()), op, arg, region)
    {
      if op == CMD_SET_BANK {
        var (rc, blob) := BankBytes(region, Wrap32(arg));
        if rc == Ok {
          tables, rc := TablesLoad(blob);
          if rc == Ok {
            bank := Wrap32(arg);
            flows.Flush();
          }
        }
      } else if op == CMD_SET_DEFAULT {
        dflt := ToI32(arg);
      } else if op == CMD_FLUSH_FLOWS {
        flows.Flush();
      } else if op == CMD_SHUTDOWN {
        stop := true;
      }
    }
  }
}
