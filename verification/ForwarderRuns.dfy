/** What the forwarder keeps over every run of packets and commands: where cached
    verdicts come from, when they still agree with the policy in force, and how the
    counters add up. */
module ForwarderRuns {
  import opened Words
  import opened FlowTable
  import opened Policy
  import opened Forwarder

  // ---- shape of the cache ---------------------------------------------------------

  /** Every entry sits under its own key, is never marked reset, and carries the
      inspect flag only while its verdict is allow. */
  ghost predicate GoodFlows(m: map<FlowKey, FlowEnt>)
  {
    forall k :: k in m ==> GoodEnt(m[k]) && m[k].key == k
  }

  predicate GoodEnt(e: FlowEnt) { e.used && e.verdict != Reset && (e.inspect ==> e.verdict == Allow) }

  /** What one event does to the cache. */
  lemma StepFlows(dp: Dp, ev: Event)
    ensures ev.Command? ==> Step(dp, ev).flows == if Flushes(dp, ev) then map[] else dp.flows
    ensures ev.Packet? && Parse(ev.pkt, ev.vsys).Bad? ==> Step(dp, ev).flows == dp.flows
    ensures ev.Packet? && Parse(ev.pkt, ev.vsys).Good? ==>
              var t := Parse(ev.pkt, ev.vsys).tuple;
              var k := KeyOf(t);
              if Answers(dp, k) then Step(dp, ev).flows == dp.flows[k := Touch(dp.flows[k], |ev.pkt|)]
              else || Step(dp, ev).flows == dp.flows
                   || Step(dp, ev).flows == dp.flows[k := Remember(if k in dp.flows then dp.flows[k] else FreshEnt(k),
                                                                   Decide(dp.tables, dp.dflt, t), |ev.pkt|)]
  {
    hide Decide, Loaded, CheckHeader, CountDecision, Parse, Remember, Touch, KeyOf, BankBytes, FreshEnt;
  }

  /** A first or renewed verdict is exactly the decision just made. */
  lemma RememberReplays(e: FlowEnt, o: Outcome, len: nat)
    requires GoodEnt(e) && e.verdict == Unset
    ensures GoodEnt(Remember(e, o, len))
    ensures Remember(e, o, len).key == e.key
    ensures Remember(e, o, len).verdict != Unset <==> Cacheable(o.decision)
    ensures Cacheable(o.decision) ==> Replay(Remember(e, o, len)) == o
  {
  }

  lemma StepKeepsGood(dp: Dp, ev: Event)
    requires GoodFlows(dp.flows)
    ensures GoodFlows(Step(dp, ev).flows)
  {
    hide Step, Remember, Decide, Flushes, Parse;
    StepFlows(dp, ev);
    if ev.Packet? && Parse(ev.pkt, ev.vsys).Good? {
      var t := Parse(ev.pkt, ev.vsys).tuple;
      var k := KeyOf(t);
      if !Answers(dp, k) {
        RememberReplays(if k in dp.flows then dp.flows[k] else FreshEnt(k), Decide(dp.tables, dp.dflt, t), |ev.pkt|);
      }
    }
  }

  lemma {:induction false} RunKeepsGood(dp: Dp, evs: seq<Event>)
    requires GoodFlows(dp.flows)
    ensures GoodFlows(Run(dp, evs).flows)
  {
    if evs != [] {
      RunKeepsGood(dp, evs[..|evs| - 1]);
      StepKeepsGood(Run(dp, evs[..|evs| - 1]), evs[|evs| - 1]);
    }
  }

  // ---- provenance of cached verdicts --------------------------------------------------

  /** Packet tuple w belongs to the entry's conversation and, decided afresh under the
      given tables and default, gets exactly what the entry replays. */
  ghost predicate Explains(t: Tables, dflt: I32, w: Tuple, e: FlowEnt)
  {
    KeyOf(w) == e.key && Decide(t, dflt, w) == Replay(e)
  }

  /** The event empties the cache: an explicit flush or a successful bank switch. */
  predicate Flushes(dp: Dp, ev: Event)
  {
    && ev.Command?
    && (|| ev.op == CMD_FLUSH_FLOWS
        || (ev.op == CMD_SET_BANK && ActivateBank(dp, ev.region, Wrap32(ev.arg)).1 == Ok))
  }

  /** The number of events up to and including the last flush. */
  ghost function LastFlush(dp: Dp, evs: seq<Event>): (n: nat)
    ensures n <= |evs|
  {
    if evs == [] then 0
    else
      var n := |evs| - 1;
      if Flushes(Run(dp, evs[..n]), evs[n]) then |evs| else LastFlush(dp, evs[..n])
  }

  /** Event i is a packet that explains entry e under the configuration it met. */
  ghost predicate CachedAt(dp: Dp, evs: seq<Event>, i: int, e: FlowEnt)
  {
    && 0 <= i < |evs| && evs[i].Packet?
    && Parse(evs[i].pkt, evs[i].vsys).Good?
    && var before := Run(dp, evs[..i]);
       Explains(before.tables, before.dflt, Parse(evs[i].pkt, evs[i].vsys).tuple, e)
  }

  /** One event either leaves an answering entry's answer as it was, or is itself the
      packet that explains it. */
  lemma StepExplains(dp: Dp, ev: Event, k: FlowKey)
    requires GoodFlows(dp.flows)
    ensures Answers(Step(dp, ev), k) ==>
              && !Flushes(dp, ev)
              && (|| (Answers(dp, k) && Replay(Step(dp, ev).flows[k]) == Replay(dp.flows[k])
                      && Step(dp, ev).flows[k].key == dp.flows[k].key)
                  || (&& ev.Packet? && Parse(ev.pkt, ev.vsys).Good?
                      && Explains(dp.tables, dp.dflt, Parse(ev.pkt, ev.vsys).tuple, Step(dp, ev).flows[k])))
  {
    hide Step, Remember, Decide, ActivateBank, Parse;
    StepFlows(dp, ev);
    if ev.Packet? && Parse(ev.pkt, ev.vsys).Good? {
      var t := Parse(ev.pkt, ev.vsys).tuple;
      if !Answers(dp, KeyOf(t)) {
        RememberReplays(if KeyOf(t) in dp.flows then dp.flows[KeyOf(t)] else FreshEnt(KeyOf(t)),
                        Decide(dp.tables, dp.dflt, t), |ev.pkt|);
      }
    }
  }

  /** Every verdict the cache would replay was decided, since the last flush, for an
      actual packet of the same conversation, under the configuration then in force. */
  lemma {:induction false} CacheProvenance(dp: Dp, evs: seq<Event>, k: FlowKey)
    requires dp.flows == map[] && Answers(Run(dp, evs), k)
    ensures exists i :: LastFlush(dp, evs) <= i && CachedAt(dp, evs, i, Run(dp, evs).flows[k])
  {
    var n := |evs| - 1;
    var front, before := evs[..n], Run(dp, evs[..n]);
    var e := Run(dp, evs).flows[k];
    RunKeepsGood(dp, front);
    StepExplains(before, evs[n], k);
    if Answers(before, k) && Replay(e) == Replay(before.flows[k]) && e.key == before.flows[k].key {
      CacheProvenance(dp, front, k);
      var i :| LastFlush(dp, front) <= i && CachedAt(dp, front, i, before.flows[k]);
      assert evs[..i] == front[..i];
      assert CachedAt(dp, evs, i, e);
    } else {
      assert CachedAt(dp, evs, n, e);
    }
  }

  // ---- agreement with the policy in force ----------------------------------------------

  /** Every answering entry has a packet of its conversation that explains it. */
  ghost predicate Coherent(t: Tables, dflt: I32, m: map<FlowKey, FlowEnt>)
  {
    forall k :: k in m && m[k].verdict != Unset ==> exists w :: Explains(t, dflt, w, m[k])
  }

  /** The event changes the tables or the default without flushing: a load refused after
      the table was cleared, or a different default. */
  predicate Disturbs(dp: Dp, ev: Event)
  {
    && ev.Command?
    && (|| (ev.op == CMD_SET_DEFAULT && ToI32(ev.arg) != dp.dflt)
        || (ev.op == CMD_SET_BANK && var (rc, blob) := BankBytes(ev.region, Wrap32(ev.arg));
                                     rc == Ok && CheckHeader(blob) != Ok))
  }

  lemma UndisturbedConfig(dp: Dp, ev: Event)
    requires !Flushes(dp, ev) && !Disturbs(dp, ev)
    ensures Step(dp, ev).tables == dp.tables && Step(dp, ev).dflt == dp.dflt
  {
    hide FirstMatch, Loaded, CheckHeader, CountDecision, Parse, Remember;
  }

  lemma {:induction false} ConfigSinceFlush(dp: Dp, evs: seq<Event>, i: nat)
    requires LastFlush(dp, evs) <= i <= |evs|
    requires forall j :: LastFlush(dp, evs) <= j < |evs| ==> !Disturbs(Run(dp, evs[..j]), evs[j])
    ensures Run(dp, evs[..i]).tables == Run(dp, evs).tables
    ensures Run(dp, evs[..i]).dflt == Run(dp, evs).dflt
    decreases |evs|
  {
    hide Disturbs, Flushes, Step;
    if i == |evs| {
      assert evs[..i] == evs;
    } else {
      var n := |evs| - 1;
      var front := evs[..n];
      assert LastFlush(dp, front) == LastFlush(dp, evs);
      forall j | LastFlush(dp, front) <= j < n
        ensures !Disturbs(Run(dp, front[..j]), front[j])
      {
        assert front[..j] == evs[..j];
      }
      ConfigSinceFlush(dp, front, i);
      assert front[..i] == evs[..i];
      UndisturbedConfig(Run(dp, front), evs[n]);
    }
  }

  /** As long as no load was refused and the default did not change since the last flush,
      the cache agrees with the tables and default now in force. */
  lemma CacheCoherent(dp: Dp, evs: seq<Event>)
    requires dp.flows == map[]
    requires forall j :: LastFlush(dp, evs) <= j < |evs| ==> !Disturbs(Run(dp, evs[..j]), evs[j])
    ensures Coherent(Run(dp, evs).tables, Run(dp, evs).dflt, Run(dp, evs).flows)
  {
    var now := Run(dp, evs);
    forall k | k in now.flows && now.flows[k].verdict != Unset
      ensures exists w :: Explains(now.tables, now.dflt, w, now.flows[k])
    {
      CacheProvenance(dp, evs, k);
      var i :| LastFlush(dp, evs) <= i && CachedAt(dp, evs, i, now.flows[k]);
      ConfigSinceFlush(dp, evs, i);
      assert Explains(now.tables, now.dflt, Parse(evs[i].pkt, evs[i].vsys).tuple, now.flows[k]);
    }
  }

  /** Replacing the default keeps every coherent cache coherent, whatever the tables,
      exactly when it is not replaced at all or its old value is never cached. */
  lemma DefaultChangeSafeIff(d: I32, d': I32)
    ensures (forall t, m :: Coherent(t, d, m) ==> Coherent(t, d', m)) <==> d == d' || !Cacheable(d)
  {
    if d == d' || !Cacheable(d) {
      forall t: Tables, m: map<FlowKey, FlowEnt> | Coherent(t, d, m)
        ensures Coherent(t, d', m)
      {
        forall k | k in m && m[k].verdict != Unset
          ensures exists w :: Explains(t, d', w, m[k])
        {
          var w :| Explains(t, d, w, m[k]);
          assert Explains(t, d', w, m[k]);
        }
      }
    } else {
      var e := Remember(FreshEnt(ZERO_KEY), Outcome(d, 0, EGRESS_NONE), 0);
      var m := map[ZERO_KEY := e];
      assert Explains(EMPTY_TABLES, d, Tuple(0, 0, 0, 0, 0, 0, 0), e);
      assert Coherent(EMPTY_TABLES, d, m);
      assert !Coherent(EMPTY_TABLES, d', m) by {
        assert forall w :: Decide(EMPTY_TABLES, d', w).decision == d';
        assert m[ZERO_KEY].verdict != Unset;
      }
    }
  }

  /** A refused load leaves the cache coherent exactly when every answering entry already
      replays the bare default: rule 0, no egress. */
  lemma RefusedLoadSafeIff(t: Tables, d: I32, m: map<FlowKey, FlowEnt>)
    requires Coherent(t, d, m)
    ensures Coherent(EMPTY_TABLES, d, m) <==>
            forall k :: k in m && m[k].verdict != Unset ==> Replay(m[k]) == Outcome(d, 0, EGRESS_NONE)
  {
    forall k | k in m && m[k].verdict != Unset
      ensures (exists w :: Explains(EMPTY_TABLES, d, w, m[k])) <==> Replay(m[k]) == Outcome(d, 0, EGRESS_NONE)
    {
      var w :| Explains(t, d, w, m[k]);
      assert forall v :: Decide(EMPTY_TABLES, d, v) == Outcome(d, 0, EGRESS_NONE);
      assert Replay(m[k]) == Outcome(d, 0, EGRESS_NONE) ==> Explains(EMPTY_TABLES, d, w, m[k]);
    }
  }

  lemma RunThree(dp: Dp, a: Event, b: Event, c: Event)
    ensures Run(dp, [a, b, c]) == Step(Step(Step(dp, a), b), c)
  {
    hide Step;
    RunAppend(dp, [], a);
    RunAppend(dp, [a], b);
    RunAppend(dp, [a, b], c);
    assert [] + [a] == [a] && [a] + [b] == [a, b] && [a, b] + [c] == [a, b, c];
  }

  /** Such a stale cache is reached: after any good bank, a packet its rows forward and any
      refused bank, the empty table would drop the packet's tuple, yet the cache still forwards it. */
  lemma StaleAfterRefusedLoad(slots: nat, good: Option<seq<U8>>, bad: Option<seq<U8>>, pkt: seq<U8>, vsys: U8)
    requires slots > 0 && Parse(pkt, vsys).Good?
    requires ActivateBank(Init(slots), good, 0).1 == Ok
    requires Decide(ActivateBank(Init(slots), good, 0).0.tables, DROP, Parse(pkt, vsys).tuple).decision == FORWARD
    requires BankBytes(bad, 0).0 == Ok && CheckHeader(BankBytes(bad, 0).1) != Ok
    ensures var end := Run(Init(slots), [Command(CMD_SET_BANK, 0, good), Packet(pkt, vsys, true),
                                         Command(CMD_SET_BANK, 0, bad)]);
            && Decide(end.tables, end.dflt, Parse(pkt, vsys).tuple).decision == DROP
            && Process(end, pkt, vsys).1.outcome.decision == FORWARD
            && !Coherent(end.tables, end.dflt, end.flows)
  {
    hide Run, Parse, CheckHeader, KeyOf, BankBytes, LoadRow;
    var t := Parse(pkt, vsys).tuple;
    var first, second := Command(CMD_SET_BANK, 0, good), Packet(pkt, vsys, true);
    var a := Step(Init(slots), first);
    var b := Step(a, second);
    var end := Step(b, Command(CMD_SET_BANK, 0, bad));
    RunThree(Init(slots), first, second, Command(CMD_SET_BANK, 0, bad));
    assert end.tables == EMPTY_TABLES && end.dflt == DROP && end.flows == b.flows;
    assert Answers(b, KeyOf(t)) && Replay(b.flows[KeyOf(t)]).decision == FORWARD;
    assert forall w :: Decide(end.tables, end.dflt, w).decision == DROP;
  }

  /** Such a run exists: the image of a rule that allows everything, in a region of its own, any
      well-formed frame of an IP protocol without ports, and a region of zeros. */
  lemma StaleRunExists(slots: nat, f: Frame)
    requires slots > 0 && ValidFrame(f) && f.proto != TCP && f.proto != UDP
    ensures var good := Some(seq(OFF_BANK0, i => 0) + Image([ALLOW_ALL]));
            var bad := Some(seq(OFF_BANK0 + HDR_SIZE, i => 0));
            var end := Run(Init(slots), [Command(CMD_SET_BANK, 0, good), Packet(Emit(f), 1, true), Command(CMD_SET_BANK, 0, bad)]);
            Decide(end.tables, end.dflt, TupleIn(f, 1)).decision == DROP && Process(end, Emit(f), 1).1.outcome.decision == FORWARD
  {
    hide Run, Process, Decide, Emit, Image, ActivateBank, Parse;
    var good: Option<seq<U8>> := Some(seq(OFF_BANK0, i => 0) + Image([ALLOW_ALL]));
    var bad: Option<seq<U8>> := Some(seq(OFF_BANK0 + HDR_SIZE, i => 0));
    ParseEmitted(f, 1);
    GoodBank(slots, TupleIn(f, 1));
    BadBank();
    StaleAfterRefusedLoad(slots, good, bad, Emit(f), 1);
  }

  const ALLOW_ALL := Rule(AllowTraffic, 0, Any, Any, 0)

  lemma GoodBank(slots: nat, t: Tuple)
    requires t.vsys == 1
    ensures var good := Some(seq(OFF_BANK0, i => 0) + Image([ALLOW_ALL])); var a := ActivateBank(Init(slots), good, 0);
            a.1 == Ok && Decide(a.0.tables, DROP, t).decision == FORWARD
  {
    hide CheckHeader, Loaded, FirstMatch, PackHeader, PackRow, Flatten;
    HeaderFields(1);
    var image: seq<U8> := Image([ALLOW_ALL]);
    var region: seq<U8> := seq(OFF_BANK0, i => 0) + image;
    ImageRoundTrip([ALLOW_ALL], []);
    PolicyImagePreservesMeaning([ALLOW_ALL], [], t);
    FlattenLength(PackedRows([ALLOW_ALL]));
    assert image + [] == image && region[OFF_BANK0..] == image && |image| == HDR_SIZE + ROW_SIZE;
    assert FirstRule([ALLOW_ALL], 1, t) == Outcome(FORWARD, 1, EGRESS_NONE);
  }

  lemma BadBank()
    ensures var bad := Some(seq(OFF_BANK0 + HDR_SIZE, i => 0)); BankBytes(bad, 0).0 == Ok && CheckHeader(BankBytes(bad, 0).1) != Ok
  {
    var region: seq<U8> := seq(OFF_BANK0 + HDR_SIZE, i => 0);
    var blob := region[OFF_BANK0..];
    assert blob[..4][0] == 0;
  }

  /** A changed default leaves the cache stale too: a packet of any kind met before any rules is
      dropped and cached; forwarding by default from then on, the cache still drops it. */
  lemma StaleAfterDefaultChange(slots: nat, pkt: seq<U8>, vsys: U8)
    requires slots > 0 && Parse(pkt, vsys).Good?
    ensures var end := Run(Init(slots), [Packet(pkt, vsys, false), Command(CMD_SET_DEFAULT, FORWARD, None)]);
            && Decide(end.tables, end.dflt, Parse(pkt, vsys).tuple).decision == FORWARD
            && Process(end, pkt, vsys).1.outcome.decision == DROP
            && !Coherent(end.tables, end.dflt, end.flows)
  {
    hide Parse, KeyOf;
    var t := Parse(pkt, vsys).tuple;
    var evs := [Packet(pkt, vsys, false), Command(CMD_SET_DEFAULT, FORWARD, None)];
    var a := Step(Init(slots), evs[0]);
    var end := Step(a, evs[1]);
    assert Run(Init(slots), evs) == end by {
      RunAppend(Init(slots), [], evs[0]);
      RunAppend(Init(slots), [evs[0]], evs[1]);
      assert [] + [evs[0]] == [evs[0]] && [evs[0]] + [evs[1]] == evs;
    }
    assert end.tables == EMPTY_TABLES && end.dflt == FORWARD && end.flows == a.flows;
    assert Answers(a, KeyOf(t)) && Replay(a.flows[KeyOf(t)]).decision == DROP;
    assert forall w :: Decide(end.tables, end.dflt, w).decision == FORWARD;
  }

  // ---- the cache is invisible where the policy treats both directions alike --------------

  lemma {:induction false} FlagsDoNotMatter(rows: seq<PolicyRow>, a: Tuple, b: Tuple)
    requires SameDirection(a, b)
    ensures FirstMatch(rows, a) == FirstMatch(rows, b)
  {
    if rows != [] {
      FlagsDoNotMatter(rows[1..], a, b);
      assert Matches(rows[0], a) == Matches(rows[0], b);
    }
  }

  lemma ReplayIsFresh(t: Tables, d: I32, m: map<FlowKey, FlowEnt>, p: Tuple)
    requires GoodFlows(m) && Coherent(t, d, m)
    requires KeyOf(p) in m && m[KeyOf(p)].verdict != Unset
    requires Decide(t, d, p) == Decide(t, d, Swap(p))
    ensures Replay(m[KeyOf(p)]) == Decide(t, d, p)
  {
    var w :| Explains(t, d, w, m[KeyOf(p)]);
    KeyIdentifiesConversation(w, p);
    if SameDirection(w, p) {
      FlagsDoNotMatter(t.rows, w, p);
    } else {
      FlagsDoNotMatter(t.rows, w, Swap(p));
    }
  }

  /** The cached path refines the uncached one: on an undisturbed run, a packet whose two
      directions the policy decides alike gets exactly the classifier's answer. */
  lemma CacheInvisible(dp: Dp, evs: seq<Event>, pkt: seq<U8>, vsys: U8)
    requires dp.flows == map[]
    requires forall j :: LastFlush(dp, evs) <= j < |evs| ==> !Disturbs(Run(dp, evs[..j]), evs[j])
    requires Parse(pkt, vsys).Good?
    requires var now, t := Run(dp, evs), Parse(pkt, vsys).tuple;
             Decide(now.tables, now.dflt, t) == Decide(now.tables, now.dflt, Swap(t))
    ensures var now := Run(dp, evs);
            Process(now, pkt, vsys).1.outcome == Decide(now.tables, now.dflt, Parse(pkt, vsys).tuple)
  {
    hide Parse, KeyOf, Decide, CountDecision, Remember, Touch, Run, LastFlush;
    var now, t := Run(dp, evs), Parse(pkt, vsys).tuple;
    CacheCoherent(dp, evs);
    RunKeepsGood(dp, evs);
    if Answers(now, KeyOf(t)) {
      ReplayIsFresh(now.tables, now.dflt, now.flows, t);
    }
  }

  ghost predicate PacketsOnly(evs: seq<Event>) { forall i :: 0 <= i < |evs| ==> evs[i].Packet? }

  /** Whatever packets came before, every packet gets the classifier's answer. */
  ghost predicate Invisible(dp: Dp)
  {
    forall evs, pkt, vsys :: PacketsOnly(evs) && Parse(pkt, vsys).Good? ==>
      Process(Run(dp, evs), pkt, vsys).1.outcome == Decide(dp.tables, dp.dflt, Parse(pkt, vsys).tuple)
  }

  /** Of two packets of opposite directions, a cacheable decision for one is the decision for the other. */
  ghost predicate EvenHanded(t: Tables, d: I32)
  {
    forall p, q, v :: Opposite(p, q, v) && Cacheable(Decide(t, d, Parse(p, v).tuple).decision) ==>
      Decide(t, d, Parse(q, v).tuple) == Decide(t, d, Parse(p, v).tuple)
  }

  ghost predicate Opposite(p: seq<U8>, q: seq<U8>, v: U8)
  {
    Parse(p, v).Good? && Parse(q, v).Good? && SameDirection(Parse(q, v).tuple, Swap(Parse(p, v).tuple))
  }

  lemma {:induction false} PacketsKeepConfig(dp: Dp, evs: seq<Event>)
    requires PacketsOnly(evs)
    ensures Run(dp, evs).tables == dp.tables && Run(dp, evs).dflt == dp.dflt
  {
    hide Step;
    if evs != [] {
      var n := |evs| - 1;
      PacketsKeepConfig(dp, evs[..n]);
      UndisturbedConfig(Run(dp, evs[..n]), evs[n]);
    }
  }

  /** An answering entry replays the decision for an earlier packet of its conversation, a cacheable one. */
  lemma EntryFromPacket(dp: Dp, evs: seq<Event>, k: FlowKey) returns (p: seq<U8>, v: U8)
    requires dp.flows == map[] && PacketsOnly(evs) && Answers(Run(dp, evs), k)
    ensures Parse(p, v).Good? && KeyOf(Parse(p, v).tuple) == k
    ensures Decide(dp.tables, dp.dflt, Parse(p, v).tuple) == Replay(Run(dp, evs).flows[k])
    ensures Cacheable(Replay(Run(dp, evs).flows[k]).decision)
  {
    hide Parse, Decide, Run, KeyOf, LastFlush;
    RunKeepsGood(dp, evs);
    CacheProvenance(dp, evs, k);
    var i :| LastFlush(dp, evs) <= i && CachedAt(dp, evs, i, Run(dp, evs).flows[k]);
    PacketsKeepConfig(dp, evs[..i]);
    p, v := evs[i].pkt, evs[i].vsys;
  }

  lemma ProcessOutcome(dp: Dp, pkt: seq<U8>, vsys: U8)
    requires Parse(pkt, vsys).Good?
    ensures var t := Parse(pkt, vsys).tuple; var k := KeyOf(t);
            Process(dp, pkt, vsys).1.outcome == if Answers(dp, k) then Replay(dp.flows[k]) else Decide(dp.tables, dp.dflt, t)
  {
    hide Parse, KeyOf, CountDecision, Remember, Touch, FirstMatch;
  }

  /** From an empty cache, the cache is invisible on every run of packets if and only if the
      configuration is even-handed. */
  lemma CacheInvisibleIff(dp: Dp)
    requires dp.flows == map[] && dp.slots > 0
    ensures Invisible(dp) <==> EvenHanded(dp.tables, dp.dflt)
  {
    hide Parse, Decide, Run, KeyOf, Process, SameDirection, Swap;
    if EvenHanded(dp.tables, dp.dflt) {
      forall evs, pkt, vsys | PacketsOnly(evs) && Parse(pkt, vsys).Good?
        ensures Process(Run(dp, evs), pkt, vsys).1.outcome == Decide(dp.tables, dp.dflt, Parse(pkt, vsys).tuple)
      {
        EvenHandedAnswer(dp, evs, pkt, vsys);
      }
    }
    if Invisible(dp) {
      forall p, q, v | Opposite(p, q, v) && Cacheable(Decide(dp.tables, dp.dflt, Parse(p, v).tuple).decision)
        ensures Decide(dp.tables, dp.dflt, Parse(q, v).tuple) == Decide(dp.tables, dp.dflt, Parse(p, v).tuple)
      {
        ReplyReplays(dp, p, q, v);
        assert PacketsOnly([Packet(p, v, false)]);
      }
    }
  }

  lemma EvenHandedAnswer(dp: Dp, evs: seq<Event>, pkt: seq<U8>, vsys: U8)
    requires dp.flows == map[] && EvenHanded(dp.tables, dp.dflt) && PacketsOnly(evs) && Parse(pkt, vsys).Good?
    ensures Process(Run(dp, evs), pkt, vsys).1.outcome == Decide(dp.tables, dp.dflt, Parse(pkt, vsys).tuple)
  {
    hide Parse, Run, KeyOf, Process, FirstMatch;
    var now, t := Run(dp, evs), Parse(pkt, vsys).tuple;
    ProcessOutcome(now, pkt, vsys);
    PacketsKeepConfig(dp, evs);
    if Answers(now, KeyOf(t)) {
      var p, v := EntryFromPacket(dp, evs, KeyOf(t));
      var w := Parse(p, v).tuple;
      KeyIdentifiesConversation(w, t);
      ParsedVsys(p, v);
      ParsedVsys(pkt, vsys);
      if SameDirection(w, t) {
        FlagsDoNotMatter(dp.tables.rows, w, t);
      } else {
        assert Opposite(p, pkt, v);
      }
    }
  }

  lemma ParsedVsys(pkt: seq<U8>, vsys: U8)
    ensures Parse(pkt, vsys).Good? ==> Parse(pkt, vsys).tuple.vsys == vsys
  {
  }

  /** The reply to a packet with a cacheable decision gets that decision. */
  lemma ReplyReplays(dp: Dp, p: seq<U8>, q: seq<U8>, v: U8)
    requires dp.flows == map[] && dp.slots > 0 && Opposite(p, q, v)
    requires Cacheable(Decide(dp.tables, dp.dflt, Parse(p, v).tuple).decision)
    ensures Process(Run(dp, [Packet(p, v, false)]), q, v).1.outcome == Decide(dp.tables, dp.dflt, Parse(p, v).tuple)
  {
    hide Parse, KeyOf, FirstMatch, CountDecision, CountSend;
    var w, t := Parse(p, v).tuple, Parse(q, v).tuple;
    KeyIdentifiesConversation(t, w);
    RunAppend(dp, [], Packet(p, v, false));
    assert [] + [Packet(p, v, false)] == [Packet(p, v, false)] && Run(dp, []) == dp;
    var b := Step(dp, Packet(p, v, false));
    ProcessOutcome(b, q, v);
    assert Answers(b, KeyOf(w)) && Replay(b.flows[KeyOf(w)]) == Decide(dp.tables, dp.dflt, w);
  }

  // ---- counters ------------------------------------------------------------------------

  /** Received packets are hits, classifications and parse errors; packets decided forward
      or inspect are sent or failed. Modulo 2^64, as the counters wrap. */
  ghost predicate Conserved(s: Counters)
  {
    && Cong64(s.rx, s.cacheHit + s.classify + s.parseErr)
    && Cong64(s.tx + s.txFail, s.forward + s.inspect)
  }

  /** Every hit or classification is counted under one disposition. */
  ghost predicate Disposed(s: Counters)
  {
    Cong64(s.forward + s.inspect + s.drop + s.punt + s.local, s.cacheHit + s.classify)
  }

  predicate KnownDecision(d: int) { FORWARD <= d <= LOCAL }

  predicate KnownConfig(t: Tables, dflt: I32)
  {
    KnownDecision(dflt) && forall i :: 0 <= i < |t.rows| ==> KnownDecision(t.rows[i].action)
  }

  lemma {:induction false} KnownConfigDecides(rows: seq<PolicyRow>, dflt: I32, k: Tuple)
    requires KnownDecision(dflt) && forall i :: 0 <= i < |rows| ==> KnownDecision(rows[i].action)
    ensures FirstMatch(rows, k).decision == NOMATCH || KnownDecision(FirstMatch(rows, k).decision)
  {
    if rows != [] { KnownConfigDecides(rows[1..], dflt, k); }
  }

  /** One disposition counted, and the send it may lead to. */
  lemma DecisionCounts(s: Counters, d: int, sent: bool)
    requires Cong64(s.tx + s.txFail, s.forward + s.inspect)
    ensures var r := CountSend(CountDecision(s, d), d, sent);
            && r.rx == s.rx && r.cacheHit == s.cacheHit && r.classify == s.classify && r.parseErr == s.parseErr
            && Cong64(r.tx + r.txFail, r.forward + r.inspect)
  {
    hide Wrap64;
    if Sends(d) {
      var (out, idle) := if sent then (s.tx, s.txFail) else (s.txFail, s.tx);
      var (dec, other) := if d == FORWARD then (s.forward, s.inspect) else (s.inspect, s.forward);
      BumpBoth(out, idle, dec, other);
    }
  }

  /** A known decision adds one to the dispositions, as a hit or a classification adds one
      to the packets decided. */
  lemma DispositionCounts(s: Counters, decided: U64, other: int, d: int)
    requires KnownDecision(d)
    requires Cong64(s.forward + s.inspect + s.drop + s.punt + s.local, decided + other)
    ensures var r := CountDecision(s, d);
            Cong64(r.forward + r.inspect + r.drop + r.punt + r.local, Wrap64(decided + 1) + other)
  {
    hide Wrap64;
    var x := if d == FORWARD then s.forward else if d == INSPECT then s.inspect
             else if d == DROP then s.drop else if d == PUNT then s.punt else s.local;
    BumpBoth(x, s.forward + s.inspect + s.drop + s.punt + s.local - x, decided, other);
  }

  lemma PollCountsBad(s: Counters)
    requires Conserved(s)
    ensures Conserved(s.(rx := Wrap64(s.rx + 1), parseErr := Wrap64(s.parseErr + 1)))
  {
    hide Wrap64;
    BumpBoth(s.rx, 0, s.parseErr, s.cacheHit + s.classify);
  }

  /** Counting one decided packet: received, hit or classified (the cache perhaps full),
      disposed of, perhaps sent. */
  lemma DecidedCounts(s: Counters, hit: bool, full: U64, d: int, sent: bool)
    requires Conserved(s)
    ensures Conserved(Decided(s, hit, full, d, sent))
    ensures Disposed(s) && KnownDecision(d) ==> Disposed(Decided(s, hit, full, d, sent))
  {
    hide Wrap64, CountDecision, CountSend;
    var r := Received(s, hit, full);
    assert Cong64(r.rx, r.cacheHit + r.classify + r.parseErr) by {
      if hit {
        BumpBoth(s.rx, 0, s.cacheHit, s.classify + s.parseErr);
      } else {
        BumpBoth(s.rx, 0, s.classify, s.cacheHit + s.parseErr);
      }
    }
    DecisionCounts(r, d, sent);
    if Disposed(s) && KnownDecision(d) {
      if hit {
        DispositionCounts(r, s.cacheHit, s.classify, d);
      } else {
        DispositionCounts(r, s.classify, s.cacheHit, d);
      }
      SendKeepsDispositions(CountDecision(r, d), d, sent);
      DecisionKeepsPackets(r, d);
    }
  }

  function Received(s: Counters, hit: bool, full: U64): (r: Counters)
  {
    var s' := s.(rx := Wrap64(s.rx + 1), flowFull := full);
    if hit then s'.(cacheHit := Wrap64(s.cacheHit + 1)) else s'.(classify := Wrap64(s.classify + 1))
  }

  function Decided(s: Counters, hit: bool, full: U64, d: int, sent: bool): (r: Counters)
  {
    CountSend(CountDecision(Received(s, hit, full), d), d, sent)
  }

  lemma SendKeepsDispositions(s: Counters, d: int, sent: bool)
    ensures Disposed(CountSend(s, d, sent)) <==> Disposed(s)
  {
  }

  lemma DecisionKeepsPackets(s: Counters, d: int)
    ensures CountDecision(s, d).cacheHit == s.cacheHit && CountDecision(s, d).classify == s.classify
  {
  }

  /** What one polled packet does to the counters. */
  lemma PollCounts(dp: Dp, pkt: seq<U8>, vsys: U8, sent: bool)
    requires Conserved(dp.stats)
    ensures Conserved(Poll(dp, pkt, vsys, sent).stats)
    ensures Disposed(dp.stats) && KnownConfig(dp.tables, dp.dflt) ==> Disposed(Poll(dp, pkt, vsys, sent).stats)
  {
    hide Parse, KeyOf, FirstMatch, Remember, Touch, FreshEnt, Wrap64, Conserved, CountDecision, CountSend;
    var s, parsed := dp.stats, Parse(pkt, vsys);
    var r := Poll(dp, pkt, vsys, sent).stats;
    if parsed.Bad? {
      PollCountsBad(s);
      assert r == s.(rx := Wrap64(s.rx + 1), parseErr := Wrap64(s.parseErr + 1)) by {
        NotSent(s.(rx := Wrap64(s.rx + 1), parseErr := Wrap64(s.parseErr + 1)), sent);
      }
    } else {
      var k := KeyOf(parsed.tuple);
      var d := Process(dp, pkt, vsys).1.outcome.decision;
      var full := if !Answers(dp, k) && k !in dp.flows && |dp.flows| >= dp.slots
                  then Wrap64(s.flowFull + 1) else s.flowFull;
      assert r == Decided(s, Answers(dp, k), full, d, sent);
      DecidedCounts(s, Answers(dp, k), full, d, sent);
      if KnownConfig(dp.tables, dp.dflt) {
        KnownConfigDecides(dp.tables.rows, dp.dflt, parsed.tuple);
      }
    }
  }

  lemma NotSent(s: Counters, sent: bool)
    ensures CountSend(s, LOCAL, sent) == s && CountSend(s, DROP, sent) == s
  {
  }

  lemma ServeKeepsCounts(dp: Dp, op: U16, arg: U64, region: Option<seq<U8>>)
    ensures Serve(dp, op, arg, region).stats == dp.stats
  {
    hide Loaded, CheckHeader, BankBytes;
  }

  /** Over every run of polled packets and commands the counters add up; the dispositions
      do too when every configuration met along the way uses only the five known decisions. */
  lemma {:induction false} CountersAddUp(slots: nat, evs: seq<Event>)
    ensures Conserved(Run(Init(slots), evs).stats)
    ensures (forall i :: 0 <= i < |evs| ==>
               KnownConfig(Run(Init(slots), evs[..i]).tables, Run(Init(slots), evs[..i]).dflt))
            ==> Disposed(Run(Init(slots), evs).stats)
  {
    if evs != [] {
      var n := |evs| - 1;
      var front := evs[..n];
      var before := Run(Init(slots), front);
      CountersAddUp(slots, front);
      assert forall i :: 0 <= i < n ==> front[..i] == evs[..i];
      match evs[n]
      case Packet(pkt, vsys, sent) => PollCounts(before, pkt, vsys, sent);
      case Command(op, arg, region) => ServeKeepsCounts(before, op, arg, region);
    }
  }
}
