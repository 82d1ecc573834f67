/** What the forwarder's inputs mean: which frames it can read, which policy a bank switch puts in
    force, and what each counter and each cache entry counts. */
module ForwarderMeaning {
  import opened Words
  import opened FlowTable
  import opened Policy
  import opened Forwarder
  import opened ForwarderRuns

  // ---- frames -------------------------------------------------------------------------------

  /** Where the IP header starts: behind one 802.1Q tag if the frame carries one. */
  function HeaderAt(pkt: seq<U8>): (off: nat)
    requires |pkt| >= 34
  {
    if pkt[12] == 0x81 && pkt[13] == 0x00 then 18 else 14
  }

  predicate LongEnough(pkt: seq<U8>) { |pkt| >= 34 && |pkt| >= HeaderAt(pkt) + 20 }

  predicate CarriesIp(pkt: seq<U8>)
    requires LongEnough(pkt)
  {
    pkt[HeaderAt(pkt) - 2] == 0x08 && pkt[HeaderAt(pkt) - 1] == 0x00
  }

  /** The header is at least 20 bytes and fits, and so do the ports of TCP and UDP. */
  predicate HeaderFits(pkt: seq<U8>)
    requires LongEnough(pkt)
  {
    var off := HeaderAt(pkt);
    var ihl := 4 * (pkt[off] as int % 16);
    20 <= ihl && off + ihl + (if pkt[off + 9] in {6, 17} then 4 else 0) <= |pkt|
  }

  /** A frame is not IP, malformed or readable exactly as its bytes say; what is not IP goes to the
      local stack and what is malformed is dropped, under no rule, whatever the policy. */
  lemma FramesSorted(dp: Dp, pkt: seq<U8>, vsys: U8)
    ensures Parse(pkt, vsys) == Bad(ErrNotIp) <==> LongEnough(pkt) && !CarriesIp(pkt)
    ensures Parse(pkt, vsys).Good? <==> LongEnough(pkt) && CarriesIp(pkt) && HeaderFits(pkt)
    ensures LongEnough(pkt) && !CarriesIp(pkt) ==> Process(dp, pkt, vsys).1.outcome == Outcome(4, 0, 0)
    ensures !LongEnough(pkt) || (CarriesIp(pkt) && !HeaderFits(pkt)) ==> Process(dp, pkt, vsys).1.outcome == Outcome(3, 0, 0)
  {
    hide ProcessHit, ProcessMiss, KeyOf, LdBe32;
    if LongEnough(pkt) {
      var off := HeaderAt(pkt);
      assert pkt[off..][0] == pkt[off] && pkt[off..][9] == pkt[off + 9] && |pkt[off..]| == |pkt| - off;
    }
  }

  // ---- commands ----------------------------------------------------------------------------------

  /** The region holds a generated image at an offset. */
  ghost predicate HoldsImage(region: seq<U8>, off: nat, rules: seq<Rule>)
  {
    && |rules| <= 16384 && (forall r :: r in rules ==> ValidRule(r))
    && off + 36 + 32 * |rules| <= |region| && region[off..off + 36 + 32 * |rules|] == Image(rules)
  }

  /** Rule i is the first of the list that applies to the tuple. */
  ghost predicate FirstApplies(rules: seq<Rule>, k: Tuple, i: int)
    requires forall r :: r in rules ==> ValidRule(r)
  {
    0 <= i < |rules| && RuleApplies(rules[i], k) && forall j :: 0 <= j < i ==> !RuleApplies(rules[j], k)
  }

  lemma {:induction false} FirstRuleAt(rules: seq<Rule>, rid: nat, k: Tuple)
    requires (forall r :: r in rules ==> ValidRule(r)) && rid + |rules| <= 0x1_0000
    ensures forall i :: FirstApplies(rules, k, i) ==> FirstRule(rules, rid, k) == Outcome(ActionCode(rules[i].action), rid + i, EGRESS_NONE)
    ensures (forall i :: 0 <= i < |rules| ==> !RuleApplies(rules[i], k)) ==> FirstRule(rules, rid, k) == NO_MATCH
  {
    hide RuleApplies;
    if rules != [] {
      FirstRuleAt(rules[1..], rid + 1, k);
      forall i | FirstApplies(rules, k, i) && i > 0
        ensures FirstRule(rules, rid, k) == Outcome(ActionCode(rules[i].action), rid + i, EGRESS_NONE)
      {
        assert FirstApplies(rules[1..], k, i - 1);
      }
    }
  }

  lemma ImageSize(rules: seq<Rule>)
    requires |rules| <= 16384 && forall r :: r in rules ==> ValidRule(r)
    ensures |Image(rules)| == 36 + 32 * |rules|
  {
    hide PackRow;
    FlattenLength(PackedRows(rules));
  }

  /** The tuple is decided by the first applicable rule, under its number, or by the default. */
  ghost predicate InForce(t: Tables, dflt: I32, rules: seq<Rule>, k: Tuple)
  {
    && |rules| <= 16384 && (forall r :: r in rules ==> ValidRule(r))
    && (forall i :: FirstApplies(rules, k, i) ==>
          Decide(t, dflt, k) == Outcome(match rules[i].action case AllowTraffic => 0 case InspectTraffic => 1
                                        case DropTraffic => 3 case LocalTraffic => 4, i + 1, 0xFFFF))
    && ((forall i :: 0 <= i < |rules| ==> !RuleApplies(rules[i], k)) ==> Decide(t, dflt, k) == Outcome(dflt, 0, 0xFFFF))
  }

  /** The command to switch to a bank puts exactly that bank's policy in force: with one image at
      0x4000 and another at 0x404000, every tuple is decided by the first applicable rule of the
      chosen one, under its number, or by the default; the bank is recorded and the cache empty. */
  lemma BankSwitchMeans(dp: Dp, region: seq<U8>, a: seq<Rule>, b: seq<Rule>, arg: U64, k: Tuple)
    requires HoldsImage(region, 0x4000, a) && HoldsImage(region, 0x404000, b)
    requires arg % 0x1_0000_0000 in {0, 1}
    ensures var r := Serve(dp, 2, arg, Some(region));
            && r.bank == arg % 0x1_0000_0000 && r.flows == map[] && r.dflt == dp.dflt && r.stats == dp.stats && r.stop == dp.stop
            && InForce(r.tables, r.dflt, if arg % 0x1_0000_0000 == 0 then a else b, k)
  {
    hide Image, Loaded, CheckHeader, FirstRule, FirstMatch, RuleApplies;
    var bank := Wrap32(arg);
    var rules, off := if bank == 0 then a else b, if bank == 0 then 0x4000 else 0x404000;
    ImageSize(rules);
    var blob := BankBytes(Some(region), bank).1;
    var rest := blob[|Image(rules)|..];
    assert blob[..|Image(rules)|] == region[off..off + |Image(rules)|];
    assert blob == Image(rules) + rest;
    ImageRoundTrip(rules, rest);
    PolicyImagePreservesMeaning(rules, rest, k);
    FirstRuleAt(rules, 1, k);
  }

  /** A bank that does not exist, a region that is not there or ends before the bank's header:
      the command changes nothing. */
  lemma BankRefused(dp: Dp, region: Option<seq<U8>>, arg: U64)
    requires || region.None? || arg % 0x1_0000_0000 > 1
             || |region.value| < 36 + (if arg % 0x1_0000_0000 == 0 then 0x4000 else 0x404000)
    ensures Serve(dp, 2, arg, region) == dp
  {
  }

  /** The other commands: a default decides what no rule does, a flush empties the cache, a
      shutdown stops the loop, and anything else does nothing. */
  lemma OtherCommandsMean(dp: Dp, op: U16, arg: U64, region: Option<seq<U8>>, k: Tuple)
    requires op != 2
    ensures var r := Serve(dp, op, arg, region);
            && r.tables == dp.tables && r.stats == dp.stats && r.bank == dp.bank && r.slots == dp.slots
            && r.flows == (if op == 5 then map[] else dp.flows) && r.stop == (op == 6 || dp.stop)
            && (op != 4 ==> r.dflt == dp.dflt)
            && (op == 4 ==> (r.dflt as int - arg) % 0x1_0000_0000 == 0)
            && (op == 4 && (forall i :: 0 <= i < |dp.tables.rows| ==> !Matches(dp.tables.rows[i], k)) ==>
                  Decide(r.tables, r.dflt, k) == Outcome(r.dflt, 0, 0xFFFF))
  {
    hide Matches;
    NoneMatches(dp.tables.rows, k);
  }

  lemma {:induction false} NoneMatches(rows: seq<PolicyRow>, k: Tuple)
    ensures (forall i :: 0 <= i < |rows| ==> !Matches(rows[i], k)) ==> FirstMatch(rows, k) == NO_MATCH
  {
    if rows != [] { NoneMatches(rows[1..], k); }
  }

  // ---- what the counters count ------------------------------------------------------------------

  datatype Kind = Arrived | BadFrame | Replayed | Classified | NoRoom | DecidedAs(d: int) | SentOut | SendFailed

  /** The event is a packet of that kind, in the state it meets. */
  ghost predicate Happens(dp: Dp, ev: Event, kind: Kind)
  {
    ev.Packet? &&
    var parsed, d := Parse(ev.pkt, ev.vsys), Process(dp, ev.pkt, ev.vsys).1.outcome.decision;
    match kind
    case Arrived => true
    case BadFrame => parsed.Bad?
    case Replayed => parsed.Good? && Answers(dp, KeyOf(parsed.tuple))
    case Classified => parsed.Good? && !Answers(dp, KeyOf(parsed.tuple))
    case NoRoom => parsed.Good? && KeyOf(parsed.tuple) !in dp.flows && |dp.flows| >= dp.slots
    case DecidedAs(x) => parsed.Good? && d == x
    case SentOut => (d == FORWARD || d == INSPECT) && ev.sent
    case SendFailed => (d == FORWARD || d == INSPECT) && !ev.sent
  }

  ghost function Tally(dp: Dp, evs: seq<Event>, kind: Kind): (n: nat)
  {
    if evs == [] then 0
    else
      var n := |evs| - 1;
      Tally(dp, evs[..n], kind) + (if Happens(Run(dp, evs[..n]), evs[n], kind) then 1 else 0)
  }

  function Counter(s: Counters, kind: Kind): (v: U64)
    requires kind.DecidedAs? ==> FORWARD <= kind.d <= LOCAL
  {
    match kind
    case Arrived => s.rx
    case BadFrame => s.parseErr
    case Replayed => s.cacheHit
    case Classified => s.classify
    case NoRoom => s.flowFull
    case DecidedAs(d) => if d == FORWARD then s.forward else if d == INSPECT then s.inspect else if d == PUNT then s.punt
                       else if d == DROP then s.drop else s.local
    case SentOut => s.tx
    case SendFailed => s.txFail
  }

  /** The counters after a readable packet: received, replayed or classified, perhaps without room,
      disposed of, perhaps sent. */
  lemma ReadableStats(dp: Dp, ev: Event)
    requires ev.Packet? && Parse(ev.pkt, ev.vsys).Good?
    ensures var k := KeyOf(Parse(ev.pkt, ev.vsys).tuple);
            var full := if k !in dp.flows && |dp.flows| >= dp.slots then Wrap64(dp.stats.flowFull + 1) else dp.stats.flowFull;
            Step(dp, ev).stats == Decided(dp.stats, Answers(dp, k), full, Process(dp, ev.pkt, ev.vsys).1.outcome.decision, ev.sent)
  {
    hide Parse, KeyOf, FirstMatch, Remember, Touch, FreshEnt, Wrap64, CountDecision, CountSend;
  }

  lemma UnreadableStats(dp: Dp, ev: Event)
    requires ev.Packet? && Parse(ev.pkt, ev.vsys).Bad?
    ensures Step(dp, ev).stats == dp.stats.(rx := Wrap64(dp.stats.rx + 1), parseErr := Wrap64(dp.stats.parseErr + 1))
    ensures !Sends(Process(dp, ev.pkt, ev.vsys).1.outcome.decision)
  {
    hide Parse, KeyOf, FirstMatch, Remember, Touch, FreshEnt, Wrap64;
  }

  lemma StepCounts(dp: Dp, ev: Event, kind: Kind)
    requires kind.DecidedAs? ==> FORWARD <= kind.d <= LOCAL
    ensures Counter(Step(dp, ev).stats, kind) == Wrap64(Counter(dp.stats, kind) + (if Happens(dp, ev, kind) then 1 else 0))
  {
    hide Step, Process, Parse, KeyOf, Wrap64, Decided;
    if ev.Command? {
      Unwrapped(Counter(dp.stats, kind));
      ServedStats(dp, ev);
    } else if Parse(ev.pkt, ev.vsys).Bad? {
      Unwrapped(Counter(dp.stats, kind));
      UnreadableStats(dp, ev);
    } else {
      ReadableCounts(dp, ev, kind);
    }
  }

  lemma ReadableCounts(dp: Dp, ev: Event, kind: Kind)
    requires ev.Packet? && Parse(ev.pkt, ev.vsys).Good? && (kind.DecidedAs? ==> FORWARD <= kind.d <= LOCAL)
    ensures Counter(Step(dp, ev).stats, kind) == Wrap64(Counter(dp.stats, kind) + (if Happens(dp, ev, kind) then 1 else 0))
  {
    hide Step, Process, Parse, KeyOf, Wrap64;
    Unwrapped(Counter(dp.stats, kind));
    ReadableStats(dp, ev);
  }

  lemma ServedStats(dp: Dp, ev: Event)
    requires ev.Command?
    ensures Step(dp, ev).stats == dp.stats
  {
    ServeKeepsCounts(dp, ev.op, ev.arg, ev.region);
  }

  lemma Unwrapped(v: U64)
    ensures Wrap64(v + 0) == v
  {
  }

  /** Over every run each counter is the number of packets of its own kind, modulo 2^64: received,
      unreadable, replayed, classified, without room in the cache, decided each way, sent, not sent. */
  lemma {:induction false} CountersCount(slots: nat, evs: seq<Event>, kind: Kind)
    requires kind.DecidedAs? ==> FORWARD <= kind.d <= LOCAL
    ensures Counter(Run(Init(slots), evs).stats, kind) == Wrap64(Tally(Init(slots), evs, kind))
  {
    hide Step, Happens;
    if evs != [] {
      var n := |evs| - 1;
      CountersCount(slots, evs[..n], kind);
      StepCounts(Run(Init(slots), evs[..n]), evs[n], kind);
      AddAfterWrap(Tally(Init(slots), evs[..n], kind), if Happens(Run(Init(slots), evs[..n]), evs[n], kind) then 1 else 0);
    }
  }

  lemma AddAfterWrap(a: nat, b: nat)
    ensures Wrap64(Wrap64(a) + b) == Wrap64(a + b)
  {
  }

  lemma AddAfterWrap32(a: nat, b: nat)
    ensures Wrap32(Wrap32(a) + b) == Wrap32(a + b)
  {
  }

  // ---- what a cache entry counts ------------------------------------------------------------------

  /** The event is a readable packet of that conversation. */
  ghost predicate OfFlow(ev: Event, k: FlowKey)
  {
    ev.Packet? && Parse(ev.pkt, ev.vsys).Good? && KeyOf(Parse(ev.pkt, ev.vsys).tuple) == k
  }

  /** Packets and bytes of the conversation since the last flush. */
  ghost function SeenPackets(dp: Dp, evs: seq<Event>, k: FlowKey): (n: nat)
  {
    if evs == [] then 0
    else
      var n := |evs| - 1;
      if Flushes(Run(dp, evs[..n]), evs[n]) then 0 else SeenPackets(dp, evs[..n], k) + (if OfFlow(evs[n], k) then 1 else 0)
  }

  ghost function SeenBytes(dp: Dp, evs: seq<Event>, k: FlowKey): (n: nat)
  {
    if evs == [] then 0
    else
      var n := |evs| - 1;
      if Flushes(Run(dp, evs[..n]), evs[n]) then 0 else SeenBytes(dp, evs[..n], k) + (if OfFlow(evs[n], k) then |evs[n].pkt| else 0)
  }

  /** What one event does to the totals of conversation k. */
  lemma StepTotals(dp: Dp, ev: Event, k: FlowKey)
    ensures var r := Step(dp, ev).flows; var p, b := (if OfFlow(ev, k) then 1 else 0), (if OfFlow(ev, k) then |ev.pkt| else 0);
            && (Flushes(dp, ev) ==> r == map[])
            && (!Flushes(dp, ev) ==> dp.flows.Keys <= r.Keys)
            && (!Flushes(dp, ev) && k in dp.flows ==> r[k].pkts == Wrap32(dp.flows[k].pkts + p) && r[k].bytes == Wrap64(dp.flows[k].bytes + b))
            && (!Flushes(dp, ev) && k !in dp.flows && k in r ==>
                  OfFlow(ev, k) && |dp.flows| < dp.slots && r[k].pkts == Wrap32(p) && r[k].bytes == Wrap64(b))
            && (!Flushes(dp, ev) && k !in r && OfFlow(ev, k) ==> |dp.flows| >= dp.slots)
            && Step(dp, ev).slots == dp.slots
  {
    hide Parse, KeyOf, FirstMatch, CountDecision, CountSend, BankBytes, Loaded, CheckHeader;
    if ev.Packet? {
      ResultIgnoresCounters(dp, dp.stats.(rx := Wrap64(dp.stats.rx + 1)), ev.pkt, ev.vsys);
    }
  }

  /** Every cached entry has counted every packet of its conversation since the last flush, and
      every byte: a conversation gets its entry with its first packet or, the cache being full, not
      until it is flushed. */
  lemma {:induction false} EntryTotals(slots: nat, evs: seq<Event>, k: FlowKey)
    ensures var r, n, b := Run(Init(slots), evs), SeenPackets(Init(slots), evs, k), SeenBytes(Init(slots), evs, k);
            && r.slots == slots
            && (k in r.flows ==> r.flows[k].pkts == Wrap32(n) && r.flows[k].bytes == Wrap64(b))
            && (k !in r.flows ==> (n == 0 && b == 0) || |r.flows| >= slots)
  {
    hide Step, Flushes, Parse, KeyOf, Wrap32, Wrap64;
    if evs == [] {
    } else {
      var n := |evs| - 1;
      var before, ev := Run(Init(slots), evs[..n]), evs[n];
      EntryTotals(slots, evs[..n], k);
      StepTotals(before, ev, k);
      var p, b := SeenPackets(Init(slots), evs[..n], k), SeenBytes(Init(slots), evs[..n], k);
      AddAfterWrap32(p, if OfFlow(ev, k) then 1 else 0);
      AddAfterWrap(b, if OfFlow(ev, k) then |ev.pkt| else 0);
      if before.flows.Keys <= Step(before, ev).flows.Keys { MoreKeys(before.flows, Step(before, ev).flows); }
    }
  }

  lemma MoreKeys(a: map<FlowKey, FlowEnt>, b: map<FlowKey, FlowEnt>)
    requires a.Keys <= b.Keys
    ensures |a| <= |b|
  {
    var rest := b.Keys - a.Keys;
    assert b.Keys == a.Keys + rest;
    assert |b.Keys| == |a.Keys| + |rest|;
  }
}
