/** Active/active high availability: who inspects a packet, and how fast peers can flap. */
module Ha {
  import opened Words

  const HELLO_MAGIC: U16 := 0x4641

  datatype Mode = Disabled | ActiveActive | ActivePassive

  datatype Algo = IpHash | IpModulo | PrimaryOwns

  datatype HaState = StInit | StActive | StActiveSec | StPassive

  datatype State = State(mode: Mode, algo: Algo, hstate: HaState, deviceId: U8, ndevices: U8, primary: U8,
                         enabled: bool, peerUp: bool, lastSeen: U64, tentative: U64,
                         holdMs: U32, timeoutMs: U32, startMs: U64, takeovers: U64, hellosRx: U64)

  function InitState(device: U8, mode: Mode, algo: Algo, now: U64): (st: State)
  {
    State(mode, algo,
          match mode
          case ActivePassive => if device == 0 then StActive else StPassive
          case ActiveActive => if device == 0 then StActive else StActiveSec
          case Disabled => StInit,
          device, 2, 0, mode != Disabled, false, now, 0, 2000, 3000, now, 0, 0)
  }

  // ---- ownership -----------------------------------------------------------------

  datatype Key = Key(ipLo: U32, ipHi: U32, portLo: U16, portHi: U16, proto: U8)

  function NormalizeKey(sip: U32, dip: U32, sport: U16, dport: U16, proto: U8): (k: Key)
  {
    if sip < dip || (sip == dip && sport <= dport)
    then Key(sip, dip, sport, dport, proto)
    else Key(dip, sip, dport, sport, proto)
  }

  function Owner(st: State, k: Key, hash: Key -> U32): (d: U8)
  {
    var n := if st.ndevices != 0 then st.ndevices else 1;
    match st.algo
    case PrimaryOwns => st.primary
    case IpModulo => k.ipLo % n
    case IpHash => hash(k) % n
  }

  datatype Decision = Local | Forward | Takeover | FromPeer

  function Decide(st: State, k: Key, hash: Key -> U32, fromPeer: bool): (d: Decision)
  {
    if !st.enabled || st.mode == Disabled then Local
    else if fromPeer then FromPeer
    else if Owner(st, k, hash) == st.deviceId then Local
    else if st.peerUp then Forward
    else Takeover
  }

  /** Where a packet arriving at device a ends up: the devices that inspect it and the
      number of HA3 hops. A frame handed over is inspected unless the peer forwards it on. */
  function Journey(a: State, b: State, k: Key, hash: Key -> U32): (r: (seq<U8>, nat))
  {
    if Decide(a, k, hash, false) != Forward then ([a.deviceId], 0)
    else if Decide(b, k, hash, true) != Forward then ([b.deviceId], 1)
    else ([], 2)
  }

  /** Two devices of one active pair: numbered 0 and 1, same algorithm and primary. */
  predicate Pair(a: State, b: State)
  {
    && a.enabled && b.enabled && a.mode != Disabled && b.mode != Disabled
    && ((a.deviceId == 0 && b.deviceId == 1) || (a.deviceId == 1 && b.deviceId == 0))
    && a.ndevices == b.ndevices == 2 && a.algo == b.algo && a.primary == b.primary && a.primary < 2
  }

  /** For every combination of the two views, a packet in either direction is inspected by
      exactly one device after at most one hop; seen up, that device is the owner. */
  lemma InspectedOnce(a: State, b: State, hash: Key -> U32,
                      sip: U32, dip: U32, sport: U16, dport: U16, proto: U8)
    requires Pair(a, b)
    ensures var k := NormalizeKey(sip, dip, sport, dport, proto);
            var back := NormalizeKey(dip, sip, dport, sport, proto);
            && k == back
            && |Journey(a, b, k, hash).0| == 1 && Journey(a, b, k, hash).1 <= 1
            && Journey(a, b, k, hash).0[0] in {0, 1}
            && (a.peerUp ==> Journey(a, b, k, hash).0 == [Owner(a, k, hash)])
            && Owner(a, k, hash) == Owner(b, k, hash)
            && var inspector, owner := Journey(a, b, k, hash).0[0], Owner(a, k, hash);
            && (Decide(a, k, hash, false) == Forward <==> inspector == b.deviceId)
            && (Decide(a, k, hash, false) == Forward <==> Journey(a, b, k, hash).1 != 0)
            && (Decide(a, k, hash, false) == Takeover <==> inspector == a.deviceId && owner == b.deviceId)
            && (Decide(a, k, hash, false) == Local <==> inspector == a.deviceId && owner == a.deviceId)
            && Decide(b, k, hash, true) == FromPeer
  {
    var k := NormalizeKey(sip, dip, sport, dport, proto);
    assert Owner(a, k, hash) in {0, 1};
  }

  /** Two packets have one key exactly when they are of one conversation, in either direction. */
  lemma KeyIdentifiesSession(sip: U32, dip: U32, sport: U16, dport: U16, proto: U8,
                             sip2: U32, dip2: U32, sport2: U16, dport2: U16, proto2: U8)
    ensures NormalizeKey(sip, dip, sport, dport, proto) == NormalizeKey(sip2, dip2, sport2, dport2, proto2) <==>
            && proto == proto2
            && ((sip, sport, dip, dport) == (sip2, sport2, dip2, dport2) ||
                (sip, sport, dip, dport) == (dip2, dport2, sip2, sport2))
  {
  }

  /** The owner of a conversation: the primary, the smaller address modulo the number of devices,
      or the hash of the key modulo that number; one device if the number is zero. */
  lemma OwnerMeans(st: State, hash: Key -> U32, sip: U32, dip: U32, sport: U16, dport: U16, proto: U8)
    ensures var k, n := NormalizeKey(sip, dip, sport, dport, proto), if st.ndevices == 0 then 1 else st.ndevices;
            && (st.algo == PrimaryOwns ==> Owner(st, k, hash) == st.primary)
            && (st.algo == IpModulo ==> Owner(st, k, hash) == (if sip < dip then sip else dip) % n)
            && (st.algo == IpHash ==> Owner(st, k, hash) == hash(k) % n)
  {
  }

  /** Both devices hand every packet of a conversation to the same inspector exactly when the
      device that does not own it sees its peer up. */
  lemma OneInspectorIff(a: State, b: State, hash: Key -> U32, k: Key)
    requires Pair(a, b)
    ensures Journey(a, b, k, hash).0 == Journey(b, a, k, hash).0
            <==> (if Owner(a, k, hash) == a.deviceId then b.peerUp else a.peerUp)
  {
    assert Owner(a, k, hash) in {0, 1};
  }

  // ---- liveness and failover ----------------------------------------------------------

  datatype Event = Hello(magic: U16, device: U8, now: U64) | Tick(now: U64)

  /** A hello that counts: well marked and from another device. */
  predicate FromOther(st: State, magic: U16, device: U8)
  {
    st.enabled && magic == HELLO_MAGIC && device != st.deviceId
  }

  function AfterHello(st: State, magic: U16, device: U8, now: U64): (r: State)
  {
    if !FromOther(st, magic, device) then st
    else st.(hellosRx := Wrap64(st.hellosRx + 1), lastSeen := now,
             tentative := if !st.peerUp && st.tentative == 0 then now else st.tentative)
  }

  function Silence(st: State, now: U64): (s: U64)
  {
    if now >= st.lastSeen then now - st.lastSeen else 0
  }

  function AfterTick(st: State, now: U64): (r: State)
  {
    if !st.enabled || st.mode == Disabled then st
    else if st.peerUp then
      if Silence(st, now) > st.timeoutMs
      then st.(peerUp := false, takeovers := Wrap64(st.takeovers + 1), hstate := StActive, tentative := 0)
      else st
    else if st.tentative != 0 && Silence(st, now) <= st.timeoutMs then
      if Wrap64(now - st.tentative) >= st.holdMs
      then st.(peerUp := true, tentative := 0,
               hstate := if st.deviceId == st.primary then StActive else StActiveSec)
      else st
    else if Silence(st, now) > st.timeoutMs then st.(tentative := 0)
    else st
  }

  function Next(st: State, ev: Event): (r: State)
  {
    match ev
    case Hello(magic, device, now) => AfterHello(st, magic, device, now)
    case Tick(now) => AfterTick(st, now)
  }

  function Run(st: State, evs: seq<Event>): (r: State)
  {
    if evs == [] then st else Next(Run(st, evs[..|evs| - 1]), evs[|evs| - 1])
  }

  /** The time reached: that of the last event, or the start. */
  function Now(start: U64, evs: seq<Event>): (t: U64)
  {
    if evs == [] then start else evs[|evs| - 1].now
  }

  ghost predicate Ordered(start: U64, evs: seq<Event>)
  {
    forall i :: 0 <= i < |evs| ==> Now(start, evs[..i]) <= evs[i].now
  }

  /** The least time between takeovers. */
  function Spacing(st: State): (b: nat)
    ensures b > 0
  {
    if st.holdMs > st.timeoutMs then st.holdMs else st.timeoutMs + 1
  }

  /** When the run last took over, or its start. */
  ghost function LastTakeover(st: State, evs: seq<Event>): (t: U64)
  {
    if evs == [] then st.startMs
    else
      var n := |evs| - 1;
      var before := Run(st, evs[..n]);
      if before.peerUp && !Next(before, evs[n]).peerUp then evs[n].now else LastTakeover(st, evs[..n])
  }

  /** A counting hello is the last one heard. */
  ghost predicate HeardAt(st: State, evs: seq<Event>, i: int, t: U64)
  {
    0 <= i < |evs| && evs[i].Hello? && FromOther(st, evs[i].magic, evs[i].device) && evs[i].now == t
  }

  /** A fresh state, with whatever timers are configured. */
  ghost predicate Fresh(st: State)
  {
    !st.peerUp && st.tentative == 0 && st.takeovers == 0 && st.lastSeen == st.startMs
  }

  predicate SameSetup(a: State, b: State)
  {
    && a.mode == b.mode && a.enabled == b.enabled && a.deviceId == b.deviceId && a.holdMs == b.holdMs
    && a.timeoutMs == b.timeoutMs && a.startMs == b.startMs
  }

  /** What holds of the state at time t, `since` being the last takeover or the start. */
  ghost predicate Paced(st: State, since: int, t: int)
  {
    && st.startMs <= since <= t && st.lastSeen <= t && st.startMs <= st.lastSeen
    && Span(st.takeovers, Spacing(st)) <= since - st.startMs
    && (st.tentative != 0 ==> !st.peerUp && since <= st.tentative <= st.lastSeen)
    && (st.peerUp ==> since <= st.lastSeen && since + st.holdMs <= t)
  }

  lemma NextPaced(st: State, since: int, t: int, ev: Event)
    requires Paced(st, since, t) && t <= ev.now
    ensures SameSetup(Next(st, ev), st)
    ensures Paced(Next(st, ev), if st.peerUp && !Next(st, ev).peerUp then ev.now else since, ev.now)
  {
    hide Span;
    SpanNext(st.takeovers, Spacing(st));
  }

  /** k intervals of b milliseconds. */
  function Span(k: nat, b: nat): (t: nat) { k * b }

  lemma SpanNext(k: nat, b: nat)
    requires b > 0
    ensures Span(k + 1, b) == Span(k, b) + b && k + 1 <= Span(k + 1, b)
  {
    assert (b - 1) * (k + 1) >= 0;
  }

  lemma {:induction false} RunPaced(st: State, evs: seq<Event>)
    requires Fresh(st) && Ordered(st.startMs, evs)
    ensures SameSetup(Run(st, evs), st)
    ensures Paced(Run(st, evs), LastTakeover(st, evs), Now(st.startMs, evs))
  {
    if evs != [] {
      var n := |evs| - 1;
      assert forall i :: 0 <= i < n ==> evs[..n][..i] == evs[..i] && evs[..n][i] == evs[i];
      RunPaced(st, evs[..n]);
      NextPaced(Run(st, evs[..n]), LastTakeover(st, evs[..n]), Now(st.startMs, evs[..n]), evs[n]);
    }
  }

  /** Anti-flap: on every run with non-decreasing time, k takeovers by time T take at least k
      times the larger of the failback hold and the peer timeout plus one. */
  lemma TakeoversAreSpaced(st: State, evs: seq<Event>)
    requires Fresh(st) && Ordered(st.startMs, evs)
    ensures Run(st, evs).takeovers * Spacing(st) <= Now(st.startMs, evs) - st.startMs
  {
    RunPaced(st, evs);
  }

  /** While the peer is up or recovering, the last time it was seen is that of a counting hello. */
  lemma {:induction false} SeenWasHeard(st: State, evs: seq<Event>)
    requires Fresh(st)
    requires Run(st, evs).peerUp || Run(st, evs).tentative != 0
    ensures SameSetup(Run(st, evs), st)
    ensures exists i :: HeardAt(st, evs, i, Run(st, evs).lastSeen)
  {
    var n := |evs| - 1;
    var front, before := evs[..n], Run(st, evs[..n]);
    RunSetup(st, front);
    RunSetup(st, evs);
    if before.peerUp || before.tentative != 0 {
      SeenWasHeard(st, front);
      var i :| HeardAt(st, front, i, before.lastSeen);
      assert HeardAt(st, evs, if Run(st, evs).lastSeen == before.lastSeen then i else n, Run(st, evs).lastSeen);
    } else {
      assert HeardAt(st, evs, n, Run(st, evs).lastSeen);
    }
  }

  lemma {:induction false} RunSetup(st: State, evs: seq<Event>)
    ensures SameSetup(Run(st, evs), st)
  {
    if evs != [] { RunSetup(st, evs[..|evs| - 1]); }
  }

  /** After every tick, a peer believed up was heard within the peer timeout. */
  lemma UpMeansHeard(st: State, evs: seq<Event>, now: U64)
    requires Fresh(st) && Ordered(st.startMs, evs + [Tick(now)])
    requires Run(st, evs + [Tick(now)]).peerUp
    ensures exists i :: 0 <= i < |evs| && HeardAt(st, evs, i, evs[i].now) && evs[i].now <= now <= evs[i].now + st.timeoutMs
  {
    var all, before := evs + [Tick(now)], Run(st, evs);
    assert all[..|evs|] == evs;
    assert Run(st, all) == AfterTick(before, now);
    hide Run, Span, Spacing, LastTakeover;
    OrderedFront(st.startMs, evs, Tick(now));
    RunPaced(st, evs);
    OffNeverUp(st, evs);
    TickUp(before, now);
    SeenWasHeard(st, evs);
    var i :| HeardAt(st, evs, i, before.lastSeen);
    assert evs[i].now == before.lastSeen;
  }

  lemma {:induction false} OffNeverUp(st: State, evs: seq<Event>)
    requires Fresh(st)
    ensures !st.enabled || st.mode == Disabled ==> !Run(st, evs).peerUp
  {
    if evs != [] {
      OffNeverUp(st, evs[..|evs| - 1]);
      RunSetup(st, evs[..|evs| - 1]);
    }
  }

  /** A tick leaves the peer up only if it was up or recovering and heard in time. */
  lemma TickUp(st: State, now: U64)
    requires st.enabled && st.mode != Disabled && st.lastSeen <= now && AfterTick(st, now).peerUp
    ensures st.peerUp || st.tentative != 0
    ensures st.lastSeen <= now <= st.lastSeen + st.timeoutMs
  {
  }

  lemma OrderedFront(start: U64, evs: seq<Event>, ev: Event)
    requires Ordered(start, evs + [ev])
    ensures Ordered(start, evs) && Now(start, evs) <= ev.now
  {
    var all := evs + [ev];
    assert all[..|evs|] == evs && all[|evs|] == ev;
    forall i | 0 <= i < |evs|
      ensures Now(start, evs[..i]) <= evs[i].now
    {
      assert all[..i] == evs[..i] && all[i] == evs[i];
    }
  }

  // ---- the view of the peer, from the events alone ------------------------------------

  predicate Counts(st: State, ev: Event)
  {
    ev.Hello? && ev.magic == 0x4641 && ev.device != st.deviceId
  }

  /** The peer was heard within its timeout before event j. */
  ghost predicate InTime(st: State, evs: seq<Event>, j: int)
  {
    exists i :: 0 <= i < j < |evs| && Counts(st, evs[i]) && evs[j].now <= evs[i].now + st.timeoutMs
  }

  /** The hello h can start the hold (a hello at time zero cannot), and at every tick since it
      the peer had been heard within its timeout. */
  ghost predicate Kept(st: State, evs: seq<Event>, h: int)
  {
    && 0 <= h < |evs| && Counts(st, evs[h]) && evs[h].now != 0
    && forall j :: h < j < |evs| && evs[j].Tick? ==> InTime(st, evs, j)
  }

  /** Such a hello h, and a tick t at least the hold later. */
  ghost predicate Recovered(st: State, evs: seq<Event>, h: int, t: int)
  {
    Kept(st, evs, h) && h < t < |evs| && evs[t].Tick? && evs[h].now + st.holdMs <= evs[t].now
  }

  ghost predicate Believed(st: State, evs: seq<Event>) { exists h, t :: Recovered(st, evs, h, t) }

  /** What the state knows of the events: when the peer was last heard, since when it is
      recovering, and whether it is up. */
  ghost predicate Knows(now: State, st: State, evs: seq<Event>)
  {
    && SameSetup(now, st)
    && HeardLast(now, st, evs)
    && (forall h :: Kept(st, evs, h) ==> now.peerUp || 0 < now.tentative <= evs[h].now)
    && (now.tentative != 0 ==> !now.peerUp && exists h :: Kept(st, evs, h) && evs[h].now == now.tentative)
    && (now.peerUp <==> Believed(st, evs))
  }

  ghost predicate HeardLast(now: State, st: State, evs: seq<Event>)
  {
    && (forall i :: 0 <= i < |evs| && Counts(st, evs[i]) ==> evs[i].now <= now.lastSeen)
    && (now.peerUp || now.tentative != 0 ==> exists i :: 0 <= i < |evs| && Counts(st, evs[i]))
    && ((exists i :: 0 <= i < |evs| && Counts(st, evs[i])) ==>
          exists i :: 0 <= i < |evs| && Counts(st, evs[i]) && evs[i].now == now.lastSeen)
  }

  lemma InTimeStep(st: State, evs: seq<Event>, ev: Event, j: int)
    requires j < |evs|
    ensures InTime(st, evs + [ev], j) <==> InTime(st, evs, j)
  {
    hide Counts;
    var all := evs + [ev];
    assert forall i :: 0 <= i < |evs| ==> all[i] == evs[i];
    if i :| 0 <= i < j && Counts(st, evs[i]) && evs[j].now <= evs[i].now + st.timeoutMs {
      assert Counts(st, all[i]);
    }
  }

  lemma KeptStep(st: State, evs: seq<Event>, ev: Event, h: int)
    ensures Kept(st, evs + [ev], h) <==>
            if h == |evs| then Counts(st, ev) && ev.now != 0
            else Kept(st, evs, h) && (ev.Tick? ==> InTime(st, evs + [ev], |evs|))
  {
    hide Counts, InTime;
    var all := evs + [ev];
    assert all[|evs|] == ev && forall i :: 0 <= i < |evs| ==> all[i] == evs[i];
    forall j | j < |evs|
      ensures InTime(st, all, j) <==> InTime(st, evs, j)
    {
      InTimeStep(st, evs, ev, j);
    }
  }

  /** The last tick is in time exactly when the last hello heard is. */
  lemma LastInTime(now: State, st: State, evs: seq<Event>, t: U64)
    requires HeardLast(now, st, evs) && SameSetup(now, st) && now.lastSeen <= t
    ensures InTime(st, evs + [Tick(t)], |evs|) ==> Silence(now, t) <= st.timeoutMs
    ensures Silence(now, t) <= st.timeoutMs && (now.peerUp || now.tentative != 0) ==> InTime(st, evs + [Tick(t)], |evs|)
  {
    hide Counts;
    var all := evs + [Tick(t)];
    assert all[|evs|] == Tick(t) && forall i :: 0 <= i < |evs| ==> all[i] == evs[i];
    if Silence(now, t) <= st.timeoutMs && (now.peerUp || now.tentative != 0) {
      var i :| 0 <= i < |evs| && Counts(st, evs[i]) && evs[i].now == now.lastSeen;
      assert Counts(st, all[i]);
    }
  }

  lemma HeardStep(now: State, st: State, evs: seq<Event>, ev: Event)
    requires HeardLast(now, st, evs) && SameSetup(now, st) && now.enabled && now.lastSeen <= ev.now
    ensures HeardLast(Next(now, ev), st, evs + [ev])
  {
    var all := evs + [ev];
    assert all[|evs|] == ev && forall i :: 0 <= i < |evs| ==> all[i] == evs[i];
    if i :| 0 <= i < |evs| && Counts(st, evs[i]) {
      assert Counts(st, all[i]);
      var k :| 0 <= k < |evs| && Counts(st, evs[k]) && evs[k].now == now.lastSeen;
      assert Counts(st, all[k]);
    }
    if Counts(st, ev) { assert Counts(st, all[|evs|]); }
  }

  lemma TickKnows(now: State, st: State, evs: seq<Event>, t: U64)
    requires Knows(now, st, evs) && now.enabled && now.mode != Disabled && now.lastSeen <= t
    ensures Knows(Next(now, Tick(t)), st, evs + [Tick(t)])
  {
    hide Kept, InTime, HeardLast;
    var all, r, n := evs + [Tick(t)], Next(now, Tick(t)), |evs|;
    HeardStep(now, st, evs, Tick(t));
    LastInTime(now, st, evs, t);
    assert all[n] == Tick(t) && forall i :: 0 <= i < n ==> all[i] == evs[i];
    forall h
      ensures Kept(st, all, h) <==> Kept(st, evs, h) && InTime(st, all, n)
      ensures Kept(st, all, h) ==> 0 <= h < n
    {
      KeptStep(st, evs, Tick(t), h);
      KeptStep(st, evs, Tick(t), n);
      KeptInside(st, evs, h);
    }
    if now.peerUp && r.peerUp {
      var h, u :| Recovered(st, evs, h, u);
      assert Recovered(st, all, h, u);
    } else if r.peerUp {
      var h :| Kept(st, evs, h) && evs[h].now == now.tentative;
      KeptSeen(now, st, evs, h);
      assert Recovered(st, all, h, n);
    } else if r.tentative != 0 {
      var h :| Kept(st, evs, h) && evs[h].now == now.tentative;
      assert Kept(st, all, h) && all[h].now == r.tentative;
    }
    if h, u :| Recovered(st, all, h, u) {
      if u < n { assert Recovered(st, evs, h, u); }
      assert r.peerUp;
    }
  }

  lemma KeptInside(st: State, evs: seq<Event>, h: int)
    ensures Kept(st, evs, h) ==> 0 <= h < |evs|
  {
  }

  lemma KeptSeen(now: State, st: State, evs: seq<Event>, h: int)
    requires Kept(st, evs, h) && HeardLast(now, st, evs)
    ensures evs[h].now <= now.lastSeen
  {
  }

  lemma HelloKnows(now: State, st: State, evs: seq<Event>, ev: Event)
    requires Knows(now, st, evs) && now.enabled && now.mode != Disabled && now.lastSeen <= ev.now && ev.Hello?
    ensures Knows(Next(now, ev), st, evs + [ev])
  {
    hide Kept, InTime, HeardLast;
    var all, r, n := evs + [ev], Next(now, ev), |evs|;
    HeardStep(now, st, evs, ev);
    assert all[n] == ev && forall i :: 0 <= i < n ==> all[i] == evs[i];
    forall h
      ensures Kept(st, all, h) <==> if h == n then Counts(st, ev) && ev.now != 0 else Kept(st, evs, h)
      ensures Kept(st, evs, h) ==> 0 <= h < n
    {
      KeptStep(st, evs, ev, h);
      KeptInside(st, evs, h);
    }
    if h, u :| Recovered(st, evs, h, u) { assert Recovered(st, all, h, u); }
    if h, u :| Recovered(st, all, h, u) { assert Recovered(st, evs, h, u); }
    if r.tentative != 0 {
      if now.tentative != 0 {
        var h :| Kept(st, evs, h) && evs[h].now == now.tentative;
        KeptSeen(now, st, evs, h);
        assert Kept(st, all, h) && all[h].now == r.tentative;
      } else {
        assert Kept(st, all, n) && all[n].now == r.tentative;
      }
    }
  }

  lemma {:induction false} RunKnows(st: State, evs: seq<Event>)
    requires Fresh(st) && Ordered(st.startMs, evs) && st.enabled && st.mode != Disabled
    ensures Knows(Run(st, evs), st, evs)
  {
    if evs != [] {
      hide Knows, HeardLast;
      var n := |evs| - 1;
      var before, ev := Run(st, evs[..n]), evs[n];
      assert evs[..n] + [ev] == evs;
      OrderedFront(st.startMs, evs[..n], ev);
      RunKnows(st, evs[..n]);
      RunPaced(st, evs[..n]);
      if ev.Tick? { TickKnows(before, st, evs[..n], ev.now); } else { HelloKnows(before, st, evs[..n], ev); }
    }
  }

  /** On every run of an enabled device with non-decreasing time, the peer is believed up exactly
      when some counting hello is followed by a tick at least the hold later, and at every tick
      since that hello the peer had been heard within its timeout. */
  lemma BelievedUpIff(st: State, evs: seq<Event>)
    requires Fresh(st) && Ordered(st.startMs, evs) && st.enabled && st.mode != Disabled
    ensures Run(st, evs).peerUp <==> Believed(st, evs)
  {
    hide Run, Kept, HeardLast;
    RunKnows(st, evs);
  }

  /** How often the peer was lost: believed up before an event and no longer after it. */
  ghost function Losses(st: State, evs: seq<Event>): (n: nat)
  {
    if evs == [] then 0
    else
      var n := |evs| - 1;
      Losses(st, evs[..n]) + if Believed(st, evs[..n]) && !Believed(st, evs) then 1 else 0
  }

  ghost function Heard(st: State, evs: seq<Event>): (n: nat)
  {
    if evs == [] then 0
    else Heard(st, evs[..|evs| - 1]) + if Counts(st, evs[|evs| - 1]) then 1 else 0
  }

  /** The role a device plays: beside a peer believed up the primary is active and the other
      active secondary; alone after a loss it is active; before that it plays its first role. */
  predicate RoleRight(now: State, first: HaState, lost: nat)
  {
    now.hstate == if now.peerUp then (if now.deviceId == now.primary then StActive else StActiveSec)
                  else if lost > 0 then StActive else first
  }

  lemma CountStep(st: State, ev: Event, lost: nat, heard: nat, first: HaState)
    requires st.enabled && st.mode != Disabled && RoleRight(st, first, lost)
    requires st.takeovers == Wrap64(lost) && st.hellosRx == Wrap64(heard)
    ensures var r := Next(st, ev);
            var l := lost + if st.peerUp && !r.peerUp then 1 else 0;
            && r.takeovers == Wrap64(l) && RoleRight(r, first, l)
            && r.hellosRx == Wrap64(heard + if Counts(st, ev) then 1 else 0)
  {
  }

  /** On such a run the takeovers are the losses, the hellos received those that count, and the
      role follows from both. */
  lemma {:induction false} TakeoversAreLosses(st: State, evs: seq<Event>)
    requires Fresh(st) && st.hellosRx == 0 && Ordered(st.startMs, evs) && st.enabled && st.mode != Disabled
    ensures Run(st, evs).takeovers == Wrap64(Losses(st, evs))
    ensures Run(st, evs).hellosRx == Wrap64(Heard(st, evs))
    ensures RoleRight(Run(st, evs), st.hstate, Losses(st, evs))
  {
    if evs == [] {
      hide Believed;
    } else {
      hide Believed, RoleRight, Ordered, Next, Wrap64, Run, Losses, Heard, Fresh, Now;
      var n := |evs| - 1;
      var front, ev := evs[..n], evs[n];
      assert front + [ev] == evs;
      OrderedFront(st.startMs, front, ev);
      TakeoversAreLosses(st, front);
      BelievedUpIff(st, front);
      BelievedUpIff(st, evs);
      RunSetup(st, front);
      CountsUnfold(st, front, ev);
      var before := Run(st, front);
      assert before.enabled && before.mode != Disabled && Counts(before, ev) == Counts(st, ev);
      CountStep(before, ev, Losses(st, front), Heard(st, front), st.hstate);
    }
  }

  lemma CountsUnfold(st: State, front: seq<Event>, ev: Event)
    ensures var evs := front + [ev];
            && Run(st, evs) == Next(Run(st, front), ev)
            && Losses(st, evs) == Losses(st, front) + (if Believed(st, front) && !Believed(st, evs) then 1 else 0)
            && Heard(st, evs) == Heard(st, front) + if Counts(st, ev) then 1 else 0
  {
    hide Believed, Counts, Next;
    assert (front + [ev])[..|front|] == front;
  }

  // ---- the node in place ------------------------------------------------------------------

  class Node {
    var mode: Mode
    var algo: Algo
    var hstate: HaState
    var deviceId: U8
    var ndevices: U8
    var primary: U8
    var enabled: bool
    var peerUp: bool
    var lastSeen: U64
    var tentative: U64
    var holdMs: U32
    var timeoutMs: U32
    var startMs: U64
    var takeovers: U64
    var hellosRx: U64

    ghost function View(): (st: State)
      reads this
    {
      State(mode, algo, hstate, deviceId, ndevices, primary, enabled, peerUp, lastSeen, tentative,
            holdMs, timeoutMs, startMs, takeovers, hellosRx)
    }

    constructor (device: U8, mode: Mode, algo: Algo, now: U64)
      ensures View() == InitState(device, mode, algo, now) && Fresh(View())
    {
      this.mode, this.algo, deviceId, ndevices, primary := mode, algo, device, 2, 0;
      enabled := mode != Disabled;
      hstate := StInit;
      holdMs, timeoutMs := 2000, 3000;
      peerUp, lastSeen, tentative, startMs := false, now, 0, now;
      takeovers, hellosRx := 0, 0;
      if mode == ActivePassive {
        hstate := if device == 0 then StActive else StPassive;
      } else if mode == ActiveActive {
        hstate := if device == 0 then StActive else StActiveSec;
      }
    }

    method OnHello(magic: U16, device: U8, now: U64)
      modifies this
      ensures View() == AfterHello(old(View()), magic, device, now)
    {
      if !enabled { return; }
      if magic != HELLO_MAGIC { return; }
      if device == deviceId { return; }
      hellosRx := Wrap64(hellosRx + 1);
      lastSeen := now;
      if !peerUp && tentative == 0 { tentative := now; }
    }

    /** Returns whether the view of the peer changed. */
    method OnTick(now: U64) returns (changed: bool)
      modifies this
      ensures View() == AfterTick(old(View()), now)
      ensures changed <==> peerUp != old(peerUp)
    {
      if !enabled || mode == Disabled { return false; }
      var silence: int := if now >= lastSeen then now - lastSeen else 0;
      changed := false;
      if peerUp {
        if silence > timeoutMs {
          peerUp := false;
          takeovers := Wrap64(takeovers + 1);
          hstate := StActive;
          tentative := 0;
          changed := true;
        }
      } else if tentative != 0 && silence <= timeoutMs {
        if Wrap64(now - tentative) >= holdMs {
          peerUp := true;
          tentative := 0;
          hstate := if deviceId == primary then StActive else StActiveSec;
          changed := true;
        }
      } else if silence > timeoutMs {
        tentative := 0;
      }
    }
  }
}
