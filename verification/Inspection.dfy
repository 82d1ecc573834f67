/** The per-vsys inspection engine: flow state, the carry window that joins packets, and
    blocking, over whole runs of packets and idle-flow reaping. */
module Inspection {
  import opened Words

  const CARRY := 512
  const FLOW_IDLE := 120

  datatype Endpoint = Endpoint(addr: string, port: nat)

  /** A parsed packet; `ok` is false when its L4 header could not be read. */
  datatype Packet = Packet(proto: U8, src: Endpoint, dst: Endpoint, payload: seq<U8>, ok: bool)

  /** vsys, protocol and the two endpoints, the smaller first. */
  datatype FlowKey = FlowKey(vsys: int, proto: U8, lo: Endpoint, hi: Endpoint)

  datatype Direction = C2S | S2C

  datatype Flow = Flow(client: Endpoint, c2s: seq<U8>, s2c: seq<U8>, blocked: bool, packets: nat, last: int)

  /** The detector's answer for a window, and whether a carved file was convicted. */
  datatype Finding = Clean | Alerted | Blocking

  datatype Stats = Stats(packets: nat, accept: nat, drop: nat, threats: nat, flows: nat)

  datatype State = State(vsys: int, flows: map<FlowKey, Flow>, stats: Stats)

  /** Texts in the order of their characters. */
  predicate Before(a: string, b: string)
  {
    b != [] && (a == [] || a[0] < b[0] || (a[0] == b[0] && Before(a[1..], b[1..])))
  }

  /** Endpoints by address text, then port. */
  predicate Smaller(a: Endpoint, b: Endpoint)
  {
    Before(a.addr, b.addr) || (a.addr == b.addr && a.port < b.port)
  }

  lemma {:induction false} BeforeIsTotal(a: string, b: string)
    ensures (Before(a, b) || a == b || Before(b, a)) && !(Before(a, b) && Before(b, a)) && (a == b ==> !Before(a, b))
  {
    if a != [] && b != [] {
      BeforeIsTotal(a[1..], b[1..]);
      assert a == [a[0]] + a[1..] && b == [b[0]] + b[1..];
    }
  }

  /** One text is before another exactly when it is a proper prefix of it, or has the smaller
      character at the first place where they differ. */
  lemma {:induction false} BeforeMeans(a: string, b: string)
    ensures Before(a, b) <==>
            exists n :: 0 <= n <= |a| && n < |b| && a[..n] == b[..n] && (n == |a| || a[n] < b[n])
  {
    if b == [] {
    } else if a == [] || a[0] != b[0] {
      assert a[..0] == b[..0];
    } else {
      BeforeMeans(a[1..], b[1..]);
      if n :| 0 <= n <= |a[1..]| && n < |b[1..]| && a[1..][..n] == b[1..][..n] && (n == |a[1..]| || a[1..][n] < b[1..][n]) {
        assert a[..n + 1] == [a[0]] + a[1..][..n] && b[..n + 1] == [b[0]] + b[1..][..n];
      }
      if n :| 0 <= n <= |a| && n < |b| && a[..n] == b[..n] && (n == |a| || a[n] < b[n]) {
        assert a[1..][..n - 1] == a[..n][1..] && b[1..][..n - 1] == b[..n][1..];
      }
    }
  }

  function KeyOf(vsys: int, p: Packet): (k: FlowKey)
  {
    if Smaller(p.dst, p.src) then FlowKey(vsys, p.proto, p.dst, p.src) else FlowKey(vsys, p.proto, p.src, p.dst)
  }

  /** Two packets share a flow exactly when they have one vsys, one protocol and the same
      endpoints, in either direction; the key names the endpoint with the smaller address, or of
      one address the smaller port, first. */
  lemma KeyIdentifiesFlow(vsys: int, p: Packet, other: int, q: Packet)
    ensures KeyOf(vsys, p) == KeyOf(other, q) <==>
            vsys == other && p.proto == q.proto && ((p.src == q.src && p.dst == q.dst) || (p.src == q.dst && p.dst == q.src))
    ensures var k := KeyOf(vsys, p);
            && {k.lo, k.hi} == {p.src, p.dst}
            && (Before(k.lo.addr, k.hi.addr) || (k.lo.addr == k.hi.addr && k.lo.port <= k.hi.port))
  {
    BeforeIsTotal(p.src.addr, p.dst.addr);
    BeforeIsTotal(q.src.addr, q.dst.addr);
  }

  function DirectionOf(f: Flow, p: Packet): (d: Direction) { if p.src == f.client then C2S else S2C }

  function Carry(f: Flow, d: Direction): (c: seq<U8>) { if d == C2S then f.c2s else f.s2c }

  function SetCarry(f: Flow, d: Direction, c: seq<U8>): (r: Flow) { if d == C2S then f.(c2s := c) else f.(s2c := c) }

  /** The last n bytes, or all of them. */
  function Last(s: seq<U8>, n: nat): (r: seq<U8>) { if |s| <= n then s else s[|s| - n..] }

  function NewFlow(p: Packet): (f: Flow) { Flow(p.src, [], [], false, 0, 0) }

  function FlowFor(st: State, p: Packet): (f: Flow)
  {
    var k := KeyOf(st.vsys, p);
    if k in st.flows then st.flows[k] else NewFlow(p)
  }

  /** The packet reaches the detector. */
  predicate Inspected(st: State, p: Packet) { p.ok && !FlowFor(st, p).blocked && p.payload != [] }

  function Window(st: State, p: Packet): (w: seq<U8>)
  {
    var f := FlowFor(st, p);
    Carry(f, DirectionOf(f, p)) + p.payload
  }

  function Accepted(st: State, p: Packet, found: Finding, convicted: bool): (a: bool)
  {
    !p.ok || (!FlowFor(st, p).blocked && (p.payload == [] || (!convicted && found != Blocking)))
  }

  /** The flow after a packet: counted, its carry moved on, blocked by a conviction or a
      blocking detection. */
  function FlowAfter(st: State, p: Packet, now: int, found: Finding, convicted: bool): (f: Flow)
  {
    var f := FlowFor(st, p);
    var g := f.(packets := f.packets + 1, last := now);
    if !Inspected(st, p) then g
    else SetCarry(g, DirectionOf(f, p), Last(Window(st, p), CARRY)).(blocked := convicted || found == Blocking)
  }

  function CountPacket(s: Stats, accepted: bool, threat: bool, created: bool): (r: Stats)
  {
    Stats(s.packets + 1, s.accept + (if accepted then 1 else 0), s.drop + (if accepted then 0 else 1),
          s.threats + (if threat then 1 else 0), s.flows + (if created then 1 else 0))
  }

  function AfterPacket(st: State, p: Packet, now: int, found: Finding, convicted: bool): (r: State)
  {
    var k := KeyOf(st.vsys, p);
    var threat := Inspected(st, p) && (convicted || found != Clean);
    st.(flows := if p.ok then st.flows[k := FlowAfter(st, p, now, found, convicted)] else st.flows,
        stats := CountPacket(st.stats, Accepted(st, p, found, convicted), threat, p.ok && k !in st.flows))
  }

  function AfterReap(st: State, now: int): (r: State)
  {
    st.(flows := map k | k in st.flows && now - st.flows[k].last <= FLOW_IDLE :: st.flows[k])
  }

  datatype Event = Arrive(pkt: Packet, now: int, found: Finding, convicted: bool) | Reap(now: int)

  function Next(st: State, ev: Event): (r: State)
  {
    match ev
    case Arrive(p, now, found, convicted) => AfterPacket(st, p, now, found, convicted)
    case Reap(now) => AfterReap(st, now)
  }

  function Run(st: State, evs: seq<Event>): (r: State)
  {
    if evs == [] then st else Next(Run(st, evs[..|evs| - 1]), evs[|evs| - 1])
  }

  // ---- streams and windows ----------------------------------------------------------

  /** The event adds to direction d of flow k. */
  predicate Feeds(st: State, ev: Event, k: FlowKey, d: Direction)
  {
    && ev.Arrive? && KeyOf(st.vsys, ev.pkt) == k && Inspected(st, ev.pkt)
    && (d == C2S <==> k !in st.flows || ev.pkt.src == st.flows[k].client)
  }

  /** What was seen of one direction of a flow since the flow was created: the bytes, and the
      windows given to the detector. */
  datatype Seen = Seen(stream: seq<U8>, windows: seq<seq<U8>>)

  ghost function History(st: State, evs: seq<Event>, k: FlowKey, d: Direction): (h: Seen)
  {
    if evs == [] then Seen([], [])
    else
      var n := |evs| - 1;
      HistoryNext(Run(st, evs[..n]), evs[n], k, d, History(st, evs[..n], k, d))
  }

  ghost function HistoryNext(st: State, ev: Event, k: FlowKey, d: Direction, h: Seen): (r: Seen)
  {
    if k !in Next(st, ev).flows then Seen([], [])
    else if Feeds(st, ev, k, d) then Seen(h.stream + ev.pkt.payload, h.windows + [Window(st, ev.pkt)])
    else h
  }

  predicate InWindow(w: seq<U8>, s: seq<U8>, p: int) { 0 <= p && p + |s| <= |w| && w[p..p + |s|] == s }

  /** Every short stretch of the stream lies wholly inside some window. */
  ghost predicate Covered(h: Seen)
  {
    forall a, b :: 0 <= a < b <= |h.stream| && b - a <= CARRY + 1 ==> ShownWhole(h.windows, h.stream[a..b])
  }

  ghost predicate ShownWhole(ws: seq<seq<U8>>, s: seq<U8>)
  {
    exists j, p :: 0 <= j < |ws| && InWindow(ws[j], s, p)
  }

  /** The carry is the tail of the stream, and the windows cover it; a flow that is not there
      has no history. */
  ghost predicate Tracked(st: State, k: FlowKey, d: Direction, h: Seen)
  {
    && Covered(h)
    && if k in st.flows then Carry(st.flows[k], d) == Last(h.stream, CARRY) else h == Seen([], [])
  }

  lemma WindowCovers(h: Seen, payload: seq<U8>)
    requires Covered(h) && payload != []
    ensures Covered(Seen(h.stream + payload, h.windows + [Last(h.stream, CARRY) + payload]))
    ensures Last(Last(h.stream, CARRY) + payload, CARRY) == Last(h.stream + payload, CARRY)
  {
    var w, s := Last(h.stream, CARRY) + payload, h.stream + payload;
    var r := Seen(s, h.windows + [w]);
    var skip := |s| - |w|;
    assert w == s[skip..] by {
      assert Last(h.stream, CARRY) == h.stream[skip..];
    }
    forall a, b | 0 <= a < b <= |s| && b - a <= CARRY + 1
      ensures ShownWhole(r.windows, s[a..b])
    {
      if b <= |h.stream| {
        assert s[a..b] == h.stream[a..b];
        KeepsShown(h.windows, w, s[a..b]);
      } else {
        assert a >= skip;
        assert r.windows[|h.windows|] == w && InWindow(w, s[a..b], a - skip);
      }
    }
  }

  lemma KeepsShown(ws: seq<seq<U8>>, w: seq<U8>, s: seq<U8>)
    requires ShownWhole(ws, s)
    ensures ShownWhole(ws + [w], s)
  {
    var j, p :| 0 <= j < |ws| && InWindow(ws[j], s, p);
    assert InWindow((ws + [w])[j], s, p);
  }

  lemma NextTracks(st: State, ev: Event, k: FlowKey, d: Direction, h: Seen)
    requires Tracked(st, k, d, h)
    ensures Tracked(Next(st, ev), k, d, HistoryNext(st, ev, k, d, h))
  {
    hide Covered, Last;
    EmptyCovered();
    if Feeds(st, ev, k, d) {
      NoTail();
      WindowCovers(h, ev.pkt.payload);
    } else if k !in st.flows {
      NoTail();
    }
  }

  lemma EmptyCovered()
    ensures Covered(Seen([], []))
  {
  }

  lemma NoTail()
    ensures Last([], CARRY) == []
  {
  }

  /** Over every run from an empty engine, while a flow lives and is not blocked each direction's
      carry is the last 512 bytes of its stream, and any string of at most 513 bytes occurring
      in the stream was wholly inside one window given to the detector. */
  lemma {:induction false} NoShortPatternMissed(st: State, evs: seq<Event>, k: FlowKey, d: Direction)
    requires st.flows == map[]
    ensures Tracked(Run(st, evs), k, d, History(st, evs, k, d))
  {
    if evs == [] {
      EmptyCovered();
    } else {
      var n := |evs| - 1;
      NoShortPatternMissed(st, evs[..n], k, d);
      NextTracks(Run(st, evs[..n]), evs[n], k, d, History(st, evs[..n], k, d));
    }
  }

  /** The bound is exact: a 513-byte packet followed by one more byte makes a stream of 514
      bytes that no window holds. */
  lemma LongerCanBeMissed(st: State, p: Packet, q: Packet, t: int)
    requires st.flows == map[] && p.ok && |p.payload| == CARRY + 1 && q == p.(payload := [0])
    ensures var h := History(st, [Arrive(p, t, Clean, false), Arrive(q, t, Clean, false)], KeyOf(st.vsys, p), C2S);
            |h.stream| == CARRY + 2 && !ShownWhole(h.windows, h.stream)
  {
    var k := KeyOf(st.vsys, p);
    var first, second := Arrive(p, t, Clean, false), Arrive(q, t, Clean, false);
    HistoryAppend(st, [], first, k, C2S);
    HistoryAppend(st, [first], second, k, C2S);
    assert [] + [first] == [first] && [first] + [second] == [first, second];
    assert [] + p.payload == p.payload && [] + [p.payload] == [p.payload];
    assert History(st, [first], k, C2S) == Seen(p.payload, [p.payload]);
    assert Carry(Run(st, [first]).flows[k], C2S) == Last(p.payload, CARRY);
  }

  lemma HistoryAppend(st: State, evs: seq<Event>, ev: Event, k: FlowKey, d: Direction)
    ensures History(st, evs + [ev], k, d) == HistoryNext(Run(st, evs), ev, k, d, History(st, evs, k, d))
    ensures Run(st, evs + [ev]) == Next(Run(st, evs), ev)
  {
    hide HistoryNext, Next;
    assert (evs + [ev])[..|evs|] == evs;
  }

  // ---- blocking and counting --------------------------------------------------------------

  /** A blocked flow stays blocked until it is reaped, and until then every parsed packet of
      it is dropped, in either direction. */
  lemma {:induction false} BlockedUntilReaped(st: State, evs: seq<Event>, i: nat, k: FlowKey)
    requires i <= |evs| && k in Run(st, evs[..i]).flows && Run(st, evs[..i]).flows[k].blocked
    requires forall j :: i <= j <= |evs| ==> k in Run(st, evs[..j]).flows
    ensures k in Run(st, evs).flows && Run(st, evs).flows[k].blocked
    ensures forall p: Packet, found, convicted :: p.ok && KeyOf(Run(st, evs).vsys, p) == k ==>
              !Accepted(Run(st, evs), p, found, convicted)
    decreases |evs|
  {
    hide Next;
    if i == |evs| {
      assert evs[..i] == evs;
    } else {
      var n := |evs| - 1;
      var front := evs[..n];
      assert forall j :: 0 <= j <= n ==> front[..j] == evs[..j];
      BlockedUntilReaped(st, front, i, k);
      assert evs[..n] == front && evs[..|evs|] == evs;
      hide Run;
      StaysBlocked(Run(st, front), evs[n], k);
    }
  }

  lemma StaysBlocked(st: State, ev: Event, k: FlowKey)
    requires k in st.flows && st.flows[k].blocked && k in Next(st, ev).flows
    ensures Next(st, ev).flows[k].blocked
  {
  }

  /** A packet with a payload that the detector or the file analysis condemns. */
  predicate Harmful(ev: Event) { ev.Arrive? && ev.pkt.payload != [] && (ev.convicted || ev.found == Blocking) }

  /** A readable packet of conversation k. */
  predicate PacketOf(vsys: int, ev: Event, k: FlowKey)
  {
    ev.Arrive? && ev.pkt.ok && KeyOf(vsys, ev.pkt) == k
  }

  /** A conversation is open since the event `since`, and was last heard of at `last`. */
  datatype Life = Closed | Open(since: nat, last: int)

  /** Read off the events alone: the first packet opens a conversation, each further one renews
      it, a sweep more than two minutes after the last closes it. */
  ghost function LifeOf(vsys: int, evs: seq<Event>, k: FlowKey): (l: Life)
    ensures l.Open? ==> l.since < |evs| && PacketOf(vsys, evs[l.since], k)
  {
    if evs == [] then Closed
    else
      var n := |evs| - 1;
      var l := LifeOf(vsys, evs[..n], k);
      if PacketOf(vsys, evs[n], k) then Open(if l.Open? then l.since else n, evs[n].now)
      else if evs[n].Reap? && l.Open? && evs[n].now - l.last > 120 then Closed
      else l
  }

  /** Some packet of the conversation was harmful between two points of the run. */
  ghost predicate HarmedBetween(vsys: int, evs: seq<Event>, k: FlowKey, from: nat, to: nat)
  {
    exists j :: from <= j < to <= |evs| && PacketOf(vsys, evs[j], k) && Harmful(evs[j])
  }

  ghost function PacketsFrom(vsys: int, evs: seq<Event>, k: FlowKey, from: nat): (n: nat)
  {
    if |evs| <= from then 0
    else PacketsFrom(vsys, evs[..|evs| - 1], k, from) + if PacketOf(vsys, evs[|evs| - 1], k) then 1 else 0
  }

  /** The flow table's entry for k says what the events say: it is there exactly while the
      conversation is open, its client sent the opening packet, its time is the last packet's,
      and it is blocked exactly when a packet since the opening was harmful. */
  ghost predicate EntryRight(vsys: int, flows: map<FlowKey, Flow>, evs: seq<Event>, k: FlowKey)
  {
    var l := LifeOf(vsys, evs, k);
    && (k in flows <==> l.Open?)
    && (l.Open? ==>
          && flows[k].client == evs[l.since].pkt.src
          && flows[k].last == l.last
          && flows[k].packets == PacketsFrom(vsys, evs, k, l.since)
          && (flows[k].blocked <==> HarmedBetween(vsys, evs, k, l.since, |evs|)))
  }

  lemma HarmedStep(vsys: int, evs: seq<Event>, ev: Event, k: FlowKey, from: nat)
    requires from <= |evs|
    ensures HarmedBetween(vsys, evs + [ev], k, from, |evs| + 1) <==>
            HarmedBetween(vsys, evs, k, from, |evs|) || (PacketOf(vsys, ev, k) && Harmful(ev))
  {
    hide PacketOf, Harmful;
    var all := evs + [ev];
    assert all[|evs|] == ev && forall j :: 0 <= j < |evs| ==> all[j] == evs[j];
    if j :| from <= j < |evs| && PacketOf(vsys, evs[j], k) && Harmful(evs[j]) {
      assert PacketOf(vsys, all[j], k) && Harmful(all[j]);
    }
  }

  lemma LifeStep(vsys: int, evs: seq<Event>, ev: Event, k: FlowKey)
    ensures LifeOf(vsys, evs + [ev], k) ==
            var l := LifeOf(vsys, evs, k);
            if PacketOf(vsys, ev, k) then Open(if l.Open? then l.since else |evs|, ev.now)
            else if ev.Reap? && l.Open? && ev.now - l.last > 120 then Closed
            else l
    ensures forall from: nat :: from <= |evs| ==>
              PacketsFrom(vsys, evs + [ev], k, from) ==
              PacketsFrom(vsys, evs, k, from) + if PacketOf(vsys, ev, k) then 1 else 0
  {
    hide PacketOf;
    assert (evs + [ev])[..|evs|] == evs;
  }

  lemma EntryStep(st: State, evs: seq<Event>, ev: Event, k: FlowKey)
    requires EntryRight(st.vsys, st.flows, evs, k)
    ensures EntryRight(st.vsys, Next(st, ev).flows, evs + [ev], k)
  {
    hide HarmedBetween, LifeOf, PacketsFrom, Last, KeyOf;
    var l := LifeOf(st.vsys, evs, k);
    var all := evs + [ev];
    LifeStep(st.vsys, evs, ev, k);
    HarmedStep(st.vsys, evs, ev, k, if l.Open? then l.since else |evs|);
    assert l.Open? ==> all[l.since] == evs[l.since];
    NothingBefore(st.vsys, evs, k);
  }

  lemma NothingBefore(vsys: int, evs: seq<Event>, k: FlowKey)
    ensures !HarmedBetween(vsys, evs, k, |evs|, |evs|) && PacketsFrom(vsys, evs, k, |evs|) == 0
  {
  }

  /** Over every run from an empty engine, every entry of the flow table is right. */
  lemma {:induction false} EntriesRight(st: State, evs: seq<Event>, k: FlowKey)
    requires st.flows == map[]
    ensures Run(st, evs).vsys == st.vsys
    ensures EntryRight(st.vsys, Run(st, evs).flows, evs, k)
  {
    if evs != [] {
      hide EntryRight;
      var n := |evs| - 1;
      EntriesRight(st, evs[..n], k);
      EntryStep(Run(st, evs[..n]), evs[..n], evs[n], k);
      assert evs[..n] + [evs[n]] == evs;
    }
  }

  /** The verdict on a packet after any run from an empty engine: a packet that could not be
      parsed is accepted; any other is dropped exactly when it, or an earlier packet of its
      conversation since that was opened, is harmful. */
  lemma FateOfPacket(st: State, evs: seq<Event>, ev: Event)
    requires st.flows == map[] && ev.Arrive?
    ensures var k := KeyOf(st.vsys, ev.pkt);
            var l := LifeOf(st.vsys, evs + [ev], k);
            Accepted(Run(st, evs), ev.pkt, ev.found, ev.convicted) <==>
            !ev.pkt.ok || !HarmedBetween(st.vsys, evs + [ev], k, l.since, |evs| + 1)
  {
    hide HarmedBetween, LifeOf, PacketsFrom, KeyOf, Run;
    var k := KeyOf(st.vsys, ev.pkt);
    var l := LifeOf(st.vsys, evs, k);
    EntriesRight(st, evs, k);
    LifeStep(st.vsys, evs, ev, k);
    HarmedStep(st.vsys, evs, ev, k, if l.Open? then l.since else |evs|);
    NothingBefore(st.vsys, evs, k);
  }

  // The last event of a run, read off the events alone.

  predicate IsPacket(evs: seq<Event>) { evs != [] && evs[|evs| - 1].Arrive? }

  ghost predicate IsDropped(vsys: int, evs: seq<Event>)
  {
    && IsPacket(evs) && evs[|evs| - 1].pkt.ok
    && var k := KeyOf(vsys, evs[|evs| - 1].pkt);
    HarmedBetween(vsys, evs, k, LifeOf(vsys, evs, k).since, |evs|)
  }

  ghost predicate IsOpening(vsys: int, evs: seq<Event>)
  {
    && IsPacket(evs) && evs[|evs| - 1].pkt.ok
    && LifeOf(vsys, evs, KeyOf(vsys, evs[|evs| - 1].pkt)).since == |evs| - 1
  }

  /** A readable packet with a payload, condemned or alerted on, whose conversation was not
      blocked before it. */
  ghost predicate IsThreat(vsys: int, evs: seq<Event>)
  {
    && IsPacket(evs) && evs[|evs| - 1].pkt.ok && evs[|evs| - 1].pkt.payload != []
    && (evs[|evs| - 1].convicted || evs[|evs| - 1].found != Clean)
    && var k := KeyOf(vsys, evs[|evs| - 1].pkt);
    !HarmedBetween(vsys, evs, k, LifeOf(vsys, evs, k).since, |evs| - 1)
  }

  /** How many events of the run were packets, accepted, dropped, threats and openings. */
  ghost function Tally(vsys: int, evs: seq<Event>): (t: Stats)
  {
    if evs == [] then Stats(0, 0, 0, 0, 0)
    else
      var t := Tally(vsys, evs[..|evs| - 1]);
      var dropped := IsDropped(vsys, evs);
      Stats(t.packets + (if IsPacket(evs) then 1 else 0),
            t.accept + (if IsPacket(evs) && !dropped then 1 else 0),
            t.drop + (if dropped then 1 else 0),
            t.threats + (if IsThreat(vsys, evs) then 1 else 0),
            t.flows + (if IsOpening(vsys, evs) then 1 else 0))
  }

  lemma CounterStep(st: State, evs: seq<Event>, ev: Event)
    requires st.flows == map[]
    ensures var all := evs + [ev];
            var s, r := Run(st, evs).stats, Next(Run(st, evs), ev).stats;
            && r.packets == s.packets + (if IsPacket(all) then 1 else 0)
            && r.accept == s.accept + (if IsPacket(all) && !IsDropped(st.vsys, all) then 1 else 0)
            && r.drop == s.drop + (if IsDropped(st.vsys, all) then 1 else 0)
            && r.threats == s.threats + (if IsThreat(st.vsys, all) then 1 else 0)
            && r.flows == s.flows + (if IsOpening(st.vsys, all) then 1 else 0)
  {
    hide HarmedBetween, LifeOf, PacketsFrom, KeyOf, Run, Last, FlowAfter;
    if ev.Arrive? {
      var k := KeyOf(st.vsys, ev.pkt);
      var l := LifeOf(st.vsys, evs, k);
      var from := if l.Open? then l.since else |evs|;
      EntriesRight(st, evs, k);
      FateOfPacket(st, evs, ev);
      LifeStep(st.vsys, evs, ev, k);
      HarmedEarlier(st.vsys, evs, ev, k, from);
      NothingBefore(st.vsys, evs, k);
    }
  }

  lemma HarmedEarlier(vsys: int, evs: seq<Event>, ev: Event, k: FlowKey, from: nat)
    ensures HarmedBetween(vsys, evs + [ev], k, from, |evs|) <==> HarmedBetween(vsys, evs, k, from, |evs|)
  {
    hide PacketOf, Harmful;
    var all := evs + [ev];
    assert forall j :: 0 <= j < |evs| ==> all[j] == evs[j];
    if j :| from <= j < |evs| && PacketOf(vsys, evs[j], k) && Harmful(evs[j]) {
      assert PacketOf(vsys, all[j], k) && Harmful(all[j]);
    }
  }

  /** Over every run from an empty engine the counters count what happened: packets, those
      accepted and dropped, threats, and conversations opened. */
  lemma {:induction false} CountersCount(st: State, evs: seq<Event>)
    requires st.flows == map[] && st.stats == Stats(0, 0, 0, 0, 0)
    ensures Run(st, evs).stats == Tally(st.vsys, evs)
  {
    if evs != [] {
      hide IsPacket, IsDropped, IsThreat, IsOpening, Next;
      var n := |evs| - 1;
      CountersCount(st, evs[..n]);
      CounterStep(st, evs[..n], evs[n]);
      assert evs[..n] + [evs[n]] == evs;
    }
  }

  /** Every packet is accepted or dropped, once. */
  lemma {:induction false} PacketsAddUp(st: State, evs: seq<Event>)
    requires st.stats.packets == st.stats.accept + st.stats.drop
    ensures Run(st, evs).stats.packets == Run(st, evs).stats.accept + Run(st, evs).stats.drop
  {
    if evs != [] { PacketsAddUp(st, evs[..|evs| - 1]); }
  }

  // ---- the engine in place --------------------------------------------------------------------

  class Engine {
    const vsys: int
    var flows: map<FlowKey, Flow>
    var stats: Stats

    ghost function View(): (st: State)
      reads this
    {
      State(vsys, flows, stats)
    }

    constructor (vsys: int)
      ensures View() == State(vsys, map[], Stats(0, 0, 0, 0, 0))
    {
      this.vsys, flows, stats := vsys, map[], Stats(0, 0, 0, 0, 0);
    }

    /** One packet; the window, if any, is what the detector is given, `found` and `convicted`
        what detector and file analysis answer. */
    method Verdict(p: Packet, now: int, found: Finding, convicted: bool)
      returns (accept: bool, window: Option<seq<U8>>)
      modifies this
      ensures View() == AfterPacket(old(View()), p, now, found, convicted)
      ensures accept == Accepted(old(View()), p, found, convicted)
      ensures window == if Inspected(old(View()), p) then Some(Window(old(View()), p)) else None
    {
      hide KeyOf, Last;
      stats := stats.(packets := stats.packets + 1);
      if !p.ok {
        stats := stats.(accept := stats.accept + 1);
        return true, None;
      }
      var k := KeyOf(vsys, p);
      var f := if k in flows then flows[k] else NewFlow(p);
      if k !in flows { stats := stats.(flows := stats.flows + 1); }
      f := f.(packets := f.packets + 1, last := now);
      if !f.blocked && p.payload != [] {
        var d := DirectionOf(f, p);
        window := Some(Carry(f, d) + p.payload);
        f := SetCarry(f, d, Last(window.value, CARRY)).(blocked := convicted || found == Blocking);
        accept := !f.blocked;
        if convicted || found != Clean { stats := stats.(threats := stats.threats + 1); }
      } else {
        accept, window := !f.blocked, None;
      }
      stats := if accept then stats.(accept := stats.accept + 1) else stats.(drop := stats.drop + 1);
      flows := flows[k := f];
    }

    /** Forgets flows idle for more than two minutes; returns how many. */
    method ReapIdle(now: int) returns (n: nat)
      modifies this
      ensures View() == AfterReap(old(View()), now)
      ensures n == |old(flows)| - |flows|
    {
      var dead := set k | k in flows && now - flows[k].last > FLOW_IDLE;
      n := |dead|;
      var kept := map k | k in flows && now - flows[k].last <= FLOW_IDLE :: flows[k];
      assert kept.Keys == flows.Keys - dead && dead <= flows.Keys;
      flows := kept;
    }
  }
}
