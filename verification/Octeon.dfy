/** The OCTEON packet-I/O backends: every buffer a work item brings in goes back to its
    pool exactly once, on both hardware generations, whatever the forwarder decides. */
module Octeon {
  import opened Words
  import opened FlowTable
  import opened Policy
  import opened Forwarder
  import Ring
  import RingBytes

  const BURST := 32
  const MAX_PORTS := 8

  datatype Generation = GenII | GenIII

  // ---- buffers and who they are returned to ---------------------------------------

  /** The allocations behind work item number serial. */
  datatype Buffer = DataBuf(serial: nat) | WqeBuf(serial: nat)

  /** OCTEON-II returns buffers to FPA pools, OCTEON-III to auras. */
  datatype Home = Pool(n: int) | Aura(n: int)

  datatype Return = Return(buffer: Buffer, home: Home)

  datatype Disposition = Held | Sent | Freed

  /** One received work item. On OCTEON-III the WQE may live inside the data buffer. */
  datatype Wqe = Wqe(serial: nat, payload: seq<U8>, hasData: bool, inPort: U16, segs: U8,
                     aura: U16, separate: bool, pktPtr: U64, rxErr: bool, disp: Disposition)

  /** The physical allocations of a work item. */
  ghost function Allocations(gen: Generation, w: Wqe): (s: set<Buffer>)
  {
    if gen.GenIII? && !w.separate then {DataBuf(w.serial)} else {DataBuf(w.serial), WqeBuf(w.serial)}
  }

  ghost function HomeOf(gen: Generation, w: Wqe, b: Buffer): (h: Home)
  {
    match gen
    case GenII => if b.WqeBuf? then Pool(1) else Pool(0)
    case GenIII => Aura(w.aura)
  }

  /** What must come back for a work item: each allocation once, to its own home. */
  ghost function Owed(gen: Generation, w: Wqe): (m: multiset<Return>)
  {
    multiset(set b | b in Allocations(gen, w) :: Return(b, HomeOf(gen, w, b)))
  }

  ghost function OwedAll(gen: Generation, ws: seq<Wqe>): (m: multiset<Return>)
  {
    if ws == [] then multiset{} else Owed(gen, ws[0]) + OwedAll(gen, ws[1..])
  }

  lemma OwedNone(gen: Generation)
    ensures OwedAll(gen, []) == multiset{}
  {
  }

  lemma {:induction false} OwedAppend(gen: Generation, ws: seq<Wqe>, w: Wqe)
    ensures OwedAll(gen, ws + [w]) == OwedAll(gen, ws) + Owed(gen, w)
  {
    if ws == [] {
      assert ws + [w] == [w];
    } else {
      OwedAppend(gen, ws[1..], w);
      assert (ws + [w])[1..] == ws[1..] + [w];
    }
  }

  lemma TakenNext(gen: Generation, had: multiset<Return>, queue: seq<Wqe>, taken: nat)
    requires taken < |queue|
    ensures had + OwedAll(gen, queue[..taken + 1]) == had + OwedAll(gen, queue[..taken]) + Owed(gen, queue[taken])
    ensures queue[taken..][0] == queue[taken] && queue[taken..][1..] == queue[taken + 1..]
  {
    hide Owed, OwedAll;
    OwedAppend(gen, queue[..taken], queue[taken]);
    assert queue[..taken + 1] == queue[..taken] + [queue[taken]];
  }

  // ---- the hardware seam -----------------------------------------------------------

  /** Returning the packet data; on OCTEON-III a WQE inside the buffer goes with it. */
  ghost function DataFree(gen: Generation, w: Wqe): (m: multiset<Return>)
  {
    if gen.GenII? then multiset{Return(DataBuf(w.serial), Pool(0))}
    else multiset{Return(DataBuf(w.serial), Aura(w.aura))}
  }

  /** Returning the WQE; on OCTEON-III a no-op when it shares the data buffer. */
  ghost function WqeFree(gen: Generation, w: Wqe): (m: multiset<Return>)
  {
    if gen.GenII? then multiset{Return(WqeBuf(w.serial), Pool(1))}
    else if w.separate then multiset{Return(WqeBuf(w.serial), Aura(w.aura))}
    else multiset{}
  }

  const PKO3_MAX_TOTAL := 0xFFFF
  const PKO3_MAX_AURA := 0x0FFF

  /** The PKO3 send descriptor: header and link words, and the signed aura handed to the SDK. */
  datatype Desc = Desc(total: nat, aura: nat, df: bool, ii: bool, addr: nat, size: nat, words: nat, gaura: int)

  function BuildDesc(w: Wqe, keepData: bool): (d: Option<Desc>)
  {
    if |w.payload| == 0 || |w.payload| > PKO3_MAX_TOTAL || w.pktPtr == 0 || w.aura > PKO3_MAX_AURA then None
    else Some(Desc(|w.payload|, w.aura, keepData, true, w.pktPtr % 0x400_0000_0000, w.pktPtr / 0x1_0000_0000_0000,
                   2, if keepData then -1 else w.aura))
  }

  /** Whether the item can be handed to PKO at all. */
  predicate Describable(gen: Generation, w: Wqe) { gen.GenII? || BuildDesc(w, false).Some? }

  /** What PKO returns once a sent packet is on the wire: OCTEON-II frees to the data pool,
      PKO3 frees to the descriptor's aura unless the descriptor says don't free. */
  ghost function PkoFree(gen: Generation, w: Wqe): (m: multiset<Return>)
    requires Describable(gen, w)
  {
    if gen.GenII? then multiset{Return(DataBuf(w.serial), Pool(0))}
    else
      var d := BuildDesc(w, false).value;
      if (d.ii && d.df) || d.gaura < 0 then multiset{} else multiset{Return(DataBuf(w.serial), Aura(d.gaura))}
  }

  /** Freeing data and WQE returns each allocation once; so does sending the data and
      freeing the WQE. */
  lemma DisposalIsExact(gen: Generation, w: Wqe)
    ensures DataFree(gen, w) + WqeFree(gen, w) == Owed(gen, w)
    ensures Describable(gen, w) ==> PkoFree(gen, w) + WqeFree(gen, w) == Owed(gen, w)
  {
    var d, q := DataBuf(w.serial), WqeBuf(w.serial);
    var rets := set b | b in Allocations(gen, w) :: Return(b, HomeOf(gen, w, b));
    if gen.GenIII? && !w.separate {
      assert d in Allocations(gen, w);
      assert rets == {Return(d, HomeOf(gen, w, d))};
    } else {
      assert d in Allocations(gen, w) && q in Allocations(gen, w);
      assert rets == {Return(d, HomeOf(gen, w, d)), Return(q, HomeOf(gen, w, q))};
    }
  }

  // ---- the backend context ----------------------------------------------------------

  datatype Port = Port(ipdPort: int, vsys: U8)

  datatype Stats = Stats(rx: U64, rxErr: U64, tx: U64, txFail: U64, dropFreed: U64, local: U64, offload: U64,
                         noEgress: U64, badEgress: U64, wqeFreed: U64, dataFreed: U64, bugDoubleDispose: U64)

  /** With `held` items still ours: every other item's WQE was freed, its data freed or
      sent, and nothing was disposed of twice. */
  ghost predicate Balanced(s: Stats, held: nat)
  {
    && Cong64(s.wqeFreed + held, s.rx)
    && Cong64(s.dataFreed + s.tx + held, s.rx)
    && s.bugDoubleDispose == 0
  }

  lemma BalancedSteps(s: Stats, held: nat)
    ensures Balanced(s, held) ==> Balanced(s.(rx := Wrap64(s.rx + 1)), held + 1)
    ensures Balanced(s, held + 1) ==>
              Balanced(s.(dataFreed := Wrap64(s.dataFreed + 1), wqeFreed := Wrap64(s.wqeFreed + 1)), held)
    ensures Balanced(s, held + 1) ==>
              Balanced(s.(tx := Wrap64(s.tx + 1), wqeFreed := Wrap64(s.wqeFreed + 1)), held)
  {
    hide Wrap64;
    WrapBump(s.rx, 0);
    WrapNext(s.rx);
    WrapNext(s.wqeFreed + held);
    WrapNext(s.dataFreed + s.tx + held);
    WrapBump(s.wqeFreed, held);
    WrapBump(s.dataFreed, s.tx + held);
    WrapBump(s.tx, s.dataFreed + held);
  }

  lemma SameBalance(s: Stats, s': Stats, held: nat)
    requires s'.rx == s.rx && s'.tx == s.tx && s'.wqeFreed == s.wqeFreed && s'.dataFreed == s.dataFreed
    requires s'.bugDoubleDispose == s.bugDoubleDispose && Balanced(s, held)
    ensures Balanced(s', held)
  {
  }

  /** A received frame as the forwarder sees it; the slot is its cookie. */
  datatype Pkt = Pkt(data: seq<U8>, vsys: U8, slot: nat)

  function MapInPort(ports: seq<Port>, ipd: U16): (i: int)
    ensures -1 <= i < |ports|
    ensures i >= 0 ==> ports[i].ipdPort == ipd && forall j :: 0 <= j < i ==> ports[j].ipdPort != ipd
    ensures i < 0 ==> forall j :: 0 <= j < |ports| ==> ports[j].ipdPort != ipd
  {
    if ports == [] then -1
    else if ports[0].ipdPort == ipd then 0
    else var i := MapInPort(ports[1..], ipd); if i < 0 then -1 else i + 1
  }

  /** The burst handed to the forwarder: one frame per held item, tagged with the vsys of
      its ingress port. */
  ghost predicate Delivers(ports: seq<Port>, ws: seq<Wqe>, burst: seq<Pkt>)
  {
    && |ws| == |burst|
    && forall i :: 0 <= i < |burst| ==>
         && burst[i].slot == i && burst[i].data == ws[i].payload && MapInPort(ports, ws[i].inPort) >= 0
         && burst[i].vsys == ports[MapInPort(ports, ws[i].inPort)].vsys
  }

  lemma InSlots(ports: seq<Port>, ws: seq<Wqe>, burst: seq<Pkt>)
    requires Delivers(ports, ws, burst)
    ensures forall i :: 0 <= i < |burst| ==> burst[i].slot == i
  {
  }

  lemma DeliversNone(ports: seq<Port>)
    ensures Delivers(ports, [], [])
  {
  }

  lemma DeliversOne(ports: seq<Port>, ws: seq<Wqe>, burst: seq<Pkt>, w: Wqe)
    requires Delivers(ports, ws, burst) && MapInPort(ports, w.inPort) >= 0
    ensures Delivers(ports, ws + [w], burst + [Pkt(w.payload, ports[MapInPort(ports, w.inPort)].vsys, |burst|)])
  {
  }

  /** The items still held. */
  ghost function HeldIn(ws: seq<Wqe>): (r: seq<Wqe>)
  {
    if ws == [] then [] else (if ws[0].disp == Held then [ws[0]] else []) + HeldIn(ws[1..])
  }

  lemma {:induction false} NoneHeld(ws: seq<Wqe>)
    requires forall i :: 0 <= i < |ws| ==> ws[i].disp != Held
    ensures HeldIn(ws) == []
  {
    if ws != [] { NoneHeld(ws[1..]); }
  }

  lemma HeldNext(ws: seq<Wqe>, i: nat)
    requires i < |ws|
    ensures HeldIn(ws[i..]) == (if ws[i].disp == Held then [ws[i]] else []) + HeldIn(ws[i + 1..])
  {
    assert ws[i..][1..] == ws[i + 1..];
  }

  /** A work item as dequeued: held, and on OCTEON-III emptied when it carries no packet. */
  function Dequeued(gen: Generation, w: Wqe): (r: Wqe)
  {
    if gen.GenIII? && w.rxErr then w.(payload := [], hasData := false, inPort := 0, disp := Held)
    else w.(disp := Held)
  }

  /** Only linear frames with data, from a known port, reach the forwarder. */
  predicate Acceptable(gen: Generation, ports: seq<Port>, w: Wqe)
  {
    var r := Dequeued(gen, w);
    MapInPort(ports, r.inPort) >= 0 && r.segs <= 1 && r.hasData && r.payload != []
  }

  /** The frames, with their vsys, that a stretch of work gives the forwarder, in order. */
  ghost function Frames(gen: Generation, ports: seq<Port>, ws: seq<Wqe>): (fs: seq<(seq<U8>, U8)>)
  {
    if ws == [] then []
    else
      var front, w := Frames(gen, ports, ws[..|ws| - 1]), ws[|ws| - 1];
      if Acceptable(gen, ports, w)
      then front + [(w.payload, ports[MapInPort(ports, Dequeued(gen, w).inPort)].vsys)]
      else front
  }

  /** The items behind those frames, as dequeued. */
  ghost function Kept(gen: Generation, ports: seq<Port>, ws: seq<Wqe>): (r: seq<Wqe>)
  {
    if ws == [] then []
    else
      var front, w := Kept(gen, ports, ws[..|ws| - 1]), ws[|ws| - 1];
      if Acceptable(gen, ports, w) then front + [Dequeued(gen, w)] else front
  }

  lemma NoWork(gen: Generation, ports: seq<Port>)
    ensures Kept(gen, ports, []) == [] && Frames(gen, ports, []) == [] && Shown([]) == []
  {
  }

  lemma OneMore(v: U64, n: nat)
    ensures Wrap64(Wrap64(v + n) + 1) == Wrap64(v + (n + 1)) && Wrap64(v + 0) == v
  {
  }

  lemma KeptNext(gen: Generation, ports: seq<Port>, queue: seq<Wqe>, taken: nat)
    requires taken < |queue|
    ensures Kept(gen, ports, queue[..taken + 1]) == Kept(gen, ports, queue[..taken])
              + (if Acceptable(gen, ports, queue[taken]) then [Dequeued(gen, queue[taken])] else [])
  {
    assert queue[..taken + 1][..taken] == queue[..taken];
  }

  ghost function Shown(burst: seq<Pkt>): (fs: seq<(seq<U8>, U8)>)
  {
    seq(|burst|, i requires 0 <= i < |burst| => (burst[i].data, burst[i].vsys))
  }

  lemma ShownNone()
    ensures Shown([]) == []
  {
  }

  lemma ShownNext(gen: Generation, ports: seq<Port>, queue: seq<Wqe>, taken: nat, burst: seq<Pkt>, r: seq<Pkt>)
    requires taken < |queue| && Shown(burst) == Frames(gen, ports, queue[..taken])
    requires r == Joined(gen, ports, burst, queue[taken])
    ensures Shown(r) == Frames(gen, ports, queue[..taken + 1])
  {
    assert queue[..taken + 1][..taken] == queue[..taken];
  }

  /** The burst after one work item. */
  function Joined(gen: Generation, ports: seq<Port>, burst: seq<Pkt>, w: Wqe): (r: seq<Pkt>)
    ensures |burst| <= |r| <= |burst| + 1
  {
    if Acceptable(gen, ports, w)
    then burst + [Pkt(w.payload, ports[MapInPort(ports, Dequeued(gen, w).inPort)].vsys, |burst|)]
    else burst
  }

  /** The port a packet leaves by: its rule's egress, or the other port of a two-port bump in
      the wire. */
  function Route(ports: seq<Port>, w: Wqe, egress: U16): (out: Option<nat>)
  {
    if egress != EGRESS_NONE then Some(egress)
    else if |ports| == 2 then Some(if MapInPort(ports, w.inPort) == 0 then 1 else 0)
    else None
  }

  /** A packet with an egress leaves by exactly that port; one without, on two ports, by the port it
      did not arrive on. */
  ghost predicate LeavesBy(ports: seq<Port>, w: Wqe, egress: U16, port: nat)
  {
    && port < |ports|
    && (egress != 0xFFFF ==> port == egress)
    && (egress == 0xFFFF ==> |ports| == 2 && (forall a :: ArrivedOn(ports, w, a) ==> port != a)
                             && ((forall a :: !ArrivedOn(ports, w, a)) ==> port == 0))
  }

  /** Port a is the first that maps to the item's ingress. */
  ghost predicate ArrivedOn(ports: seq<Port>, w: Wqe, a: int)
  {
    0 <= a < |ports| && ports[a].ipdPort == w.inPort && forall j :: 0 <= j < a ==> ports[j].ipdPort != w.inPort
  }

  /** The route is the one port the packet may leave by. */
  lemma RouteMeans(ports: seq<Port>, w: Wqe, egress: U16, port: nat)
    ensures LeavesBy(ports, w, egress, port) <==> Route(ports, w, egress) == Some(port) && port < |ports|
  {
    var a := MapInPort(ports, w.inPort);
    if a >= 0 {
      assert ArrivedOn(ports, w, a);
      assert forall b :: ArrivedOn(ports, w, b) ==> b == a;
    } else {
      assert forall b :: !ArrivedOn(ports, w, b);
    }
  }

  /** A descriptor exists exactly for packets the send header can express, and says what the packet
      is: its length, its buffer, and that PKO frees the data to the aura it came from. */
  lemma DescriptorMeans(w: Wqe)
    ensures BuildDesc(w, false).Some? <==> 1 <= |w.payload| <= 0xFFFF && w.pktPtr != 0 && w.aura <= 0xFFF
    ensures BuildDesc(w, false).Some? ==>
              var d := BuildDesc(w, false).value;
              && d.total == |w.payload| && d.aura == w.aura == d.gaura && !d.df && d.ii && d.words == 2
              && d.addr < 0x400_0000_0000 && (w.pktPtr - d.addr) % 0x400_0000_0000 == 0
              && d.size * 0x1_0000_0000_0000 <= w.pktPtr < (d.size + 1) * 0x1_0000_0000_0000
    ensures BuildDesc(w, true).Some? <==> BuildDesc(w, false).Some?
    ensures BuildDesc(w, true).Some? ==> BuildDesc(w, true).value == BuildDesc(w, false).value.(df := true, gaura := -1)
  {
  }

  /** Only a linear frame with data, from a known port, and on OCTEON-III free of receive errors,
      reaches the forwarder, and with the vsys of the port it arrived on. */
  lemma AcceptableMeans(gen: Generation, ports: seq<Port>, w: Wqe)
    ensures Acceptable(gen, ports, w) <==>
            && !(gen.GenIII? && w.rxErr) && (exists a :: ArrivedOn(ports, w, a)) && w.segs <= 1 && w.hasData && w.payload != []
    ensures Acceptable(gen, ports, w) ==>
              forall a :: ArrivedOn(ports, w, a) ==> Frames(gen, ports, [w]) == [(w.payload, ports[a].vsys)] && Dequeued(gen, w) == w.(disp := Held)
  {
    assert [w][..0] == [];
    var a := MapInPort(ports, w.inPort);
    if a >= 0 { assert ArrivedOn(ports, w, a); }
  }

  lemma DequeuedOwes(gen: Generation, w: Wqe)
    ensures Owed(gen, Dequeued(gen, w)) == Owed(gen, w) && Dequeued(gen, w).disp == Held
  {
    var r := Dequeued(gen, w);
    assert Allocations(gen, r) == Allocations(gen, w);
    assert forall b :: HomeOf(gen, r, b) == HomeOf(gen, w, b);
  }

  class Io {
    const gen: Generation
    /** PKO's answer to sending item number serial on a port. */
    const accepts: (nat, nat) -> bool
    const ports: seq<Port>
    /** The hardware's queue of work, oldest first. */
    var pending: seq<Wqe>
    const inflight: array<Wqe>
    var nInflight: nat
    var stats: Stats
    /** Every buffer returned so far, and every buffer that dequeued items brought in. */
    ghost var returned: multiset<Return>
    ghost var brought: multiset<Return>
    /** Every packet handed to PKO so far, by item number and port. */
    ghost var departed: seq<(nat, nat)>

    ghost predicate Valid()
      reads this
    {
      inflight.Length == BURST && nInflight <= BURST && |ports| <= MAX_PORTS
    }

    /** Buffers not yet returned are those of the held items ws. */
    ghost predicate Owns(ws: seq<Wqe>)
      reads this`stats, this`returned, this`brought
    {
      && (forall w :: w in ws ==> w.disp == Held)
      && returned + OwedAll(gen, ws) == brought
      && Balanced(stats, |ws|)
    }

    /** The same, with item w beside the items in rest. */
    ghost predicate OwnsWith(w: Wqe, rest: seq<Wqe>)
      reads this`stats, this`returned, this`brought
    {
      && w.disp == Held && (forall r :: r in rest ==> r.disp == Held)
      && returned + (Owed(gen, w) + OwedAll(gen, rest)) == brought
      && Balanced(stats, |rest| + 1)
    }

    constructor (gen: Generation, ports: seq<Port>, accepts: (nat, nat) -> bool, pending: seq<Wqe>)
      requires |ports| <= MAX_PORTS
      ensures Valid() && fresh(inflight) && this.gen == gen && Owns([]) && nInflight == 0
    {
      this.gen, this.ports, this.accepts, this.pending := gen, ports, accepts, pending;
      var none := Wqe(0, [], false, 0, 0, 0, false, 0, false, Freed);
      inflight := new Wqe[BURST](_ => none);
      nInflight := 0;
      stats := Stats(0, 0, 0, 0, 0, 0, 0, 0, 0, 0, 0, 0);
      returned, brought, departed := multiset{}, multiset{}, [];
    }

    /** Releases everything still owned; a second disposal is counted and does nothing. */
    method DisposeFree(i: nat)
      requires Valid() && i < BURST
      modifies this`stats, this`returned, inflight
      ensures old(inflight[i].disp) != Held ==>
                && unchanged(inflight) && returned == old(returned)
                && stats == old(stats).(bugDoubleDispose := Wrap64(old(stats).bugDoubleDispose + 1))
      ensures old(inflight[i].disp) == Held ==>
                && inflight[..] == old(inflight[..])[i := old(inflight[i]).(disp := Freed)]
                && returned == old(returned) + Owed(gen, old(inflight[i]))
                && stats == old(stats).(dataFreed := Wrap64(old(stats).dataFreed + 1),
                                        wqeFreed := Wrap64(old(stats).wqeFreed + 1))
    {
      var w := inflight[i];
      if w.disp != Held {
        stats := stats.(bugDoubleDispose := Wrap64(stats.bugDoubleDispose + 1));
        return;
      }
      DisposalIsExact(gen, w);
      returned := returned + DataFree(gen, w);
      stats := stats.(dataFreed := Wrap64(stats.dataFreed + 1));
      returned := returned + WqeFree(gen, w);
      stats := stats.(wqeFreed := Wrap64(stats.wqeFreed + 1));
      inflight[i] := w.(disp := Freed);
      assert inflight[..] == old(inflight[..])[i := w.(disp := Freed)];
    }

    /** After a successful send the data is PKO's; only the WQE is released here. */
    method DisposeSent(i: nat)
      requires Valid() && i < BURST
      modifies this`stats, this`returned, inflight
      ensures old(inflight[i].disp) != Held ==>
                && unchanged(inflight) && returned == old(returned)
                && stats == old(stats).(bugDoubleDispose := Wrap64(old(stats).bugDoubleDispose + 1))
      ensures old(inflight[i].disp) == Held ==>
                && inflight[..] == old(inflight[..])[i := old(inflight[i]).(disp := Sent)]
                && returned == old(returned) + WqeFree(gen, old(inflight[i]))
                && stats == old(stats).(wqeFreed := Wrap64(old(stats).wqeFreed + 1))
    {
      var w := inflight[i];
      if w.disp != Held {
        stats := stats.(bugDoubleDispose := Wrap64(stats.bugDoubleDispose + 1));
        return;
      }
      returned := returned + WqeFree(gen, w);
      stats := stats.(wqeFreed := Wrap64(stats.wqeFreed + 1));
      inflight[i] := w.(disp := Sent);
      assert inflight[..] == old(inflight[..])[i := w.(disp := Sent)];
    }

    /** Dequeues up to a burst of work, releasing at once what the forwarder cannot parse. */
    method Rx(max: nat) returns (burst: seq<Pkt>, ghost taken: nat)
      requires Valid() && Owns([])
      modifies this`pending, this`nInflight, this`stats, this`returned, this`brought, inflight
      ensures Valid() && |burst| == nInflight <= max
      ensures Owns(inflight[..nInflight]) && Delivers(ports, inflight[..nInflight], burst)
      ensures taken <= |old(pending)| && pending == old(pending)[taken..]
      ensures Shown(burst) == Frames(gen, ports, old(pending)[..taken])
      ensures inflight[..nInflight] == Kept(gen, ports, old(pending)[..taken]) && stats.tx == old(stats).tx
      ensures stats.rx == Wrap64(old(stats).rx + taken)
      ensures |burst| == max || |burst| == BURST || pending == []
      ensures brought == old(brought) + OwedAll(gen, old(pending)[..taken])
    {
      hide Owed, OwedAll, Owns, Delivers, Frames, Kept, Shown, Joined, Acceptable, Dequeued, Wrap64, MapInPort, Balanced;
      burst, taken := [], 0;
      nInflight := 0;
      ghost var queue, had := pending, brought;
      assert inflight[..0] == [] && queue[taken..] == queue && queue[..taken] == [];
      NoWork(gen, ports);
      OneMore(stats.rx, 0);
      DeliversNone(ports);
      OwedNone(gen);
      while |burst| < max && |burst| < BURST && pending != []
        invariant Valid() && |burst| <= BURST && |burst| <= max
        invariant Owns(inflight[..|burst|]) && Delivers(ports, inflight[..|burst|], burst)
        invariant taken <= |queue| && pending == queue[taken..]
        invariant brought == had + OwedAll(gen, queue[..taken])
        invariant Shown(burst) == Frames(gen, ports, queue[..taken])
        invariant inflight[..|burst|] == Kept(gen, ports, queue[..taken]) && stats.tx == old(stats).tx
        invariant stats.rx == Wrap64(old(stats).rx + taken)
        decreases |pending|
      {
        TakenNext(gen, had, queue, taken);
        KeptNext(gen, ports, queue, taken);
        OneMore(old(stats).rx, taken);
        ShownNext(gen, ports, queue, taken, burst, Joined(gen, ports, burst, queue[taken]));
        burst := RxOne(burst);
        taken := taken + 1;
      }
      nInflight := |burst|;
    }

    /** One turn of the receive loop: the item joins the burst or is released. */
    method RxOne(burst: seq<Pkt>) returns (r: seq<Pkt>)
      requires Valid() && |burst| < BURST && pending != []
      requires Owns(inflight[..|burst|]) && Delivers(ports, inflight[..|burst|], burst)
      modifies this`pending, this`stats, this`returned, this`brought, inflight
      ensures pending == old(pending)[1..] && brought == old(brought) + Owed(gen, old(pending)[0])
      ensures r == Joined(gen, ports, burst, old(pending)[0]) && stats.tx == old(stats).tx && stats.rx == Wrap64(old(stats).rx + 1)
      ensures inflight[..|r|] == old(inflight[..|burst|])
                + (if Acceptable(gen, ports, old(pending)[0]) then [Dequeued(gen, old(pending)[0])] else [])
      ensures Owns(inflight[..|r|]) && Delivers(ports, inflight[..|r|], r)
    {
      hide Owed, OwedAll, Balanced, Delivers, MapInPort, Wrap64, BuildDesc;
      var n := |burst|;
      ghost var held := inflight[..n];
      var w := Dequeued(gen, pending[0]);
      TakeWork(n, held);
      var p := MapInPort(ports, w.inPort);
      if p < 0 || w.segs > 1 || !w.hasData || |w.payload| == 0 {
        Release(n, held);
        assert inflight[..n] == held;
        return burst;
      }
      DeliversOne(ports, held, burst, w);
      OwedAppend(gen, held, w);
      assert inflight[..n + 1] == held + [w];
      return burst + [Pkt(w.payload, ports[p].vsys, n)];
    }

    /** work_get: the oldest pending item becomes held in slot n. */
    method TakeWork(n: nat, ghost held: seq<Wqe>)
      requires Valid() && n < BURST && pending != [] && Owns(held)
      requires n == |held| && inflight[..n] == held
      modifies this`pending, this`stats, this`brought, inflight
      ensures pending == old(pending)[1..] && brought == old(brought) + Owed(gen, old(pending)[0])
      ensures inflight[..n] == held && inflight[n] == Dequeued(gen, old(pending)[0])
      ensures OwnsWith(inflight[n], held) && stats.tx == old(stats).tx && stats.rx == Wrap64(old(stats).rx + 1)
      ensures stats.rxErr == if gen.GenIII? && old(pending)[0].rxErr then Wrap64(old(stats).rxErr + 1) else old(stats).rxErr
    {
      hide Owed, OwedAll, Balanced, Wrap64;
      var w := Dequeued(gen, pending[0]);
      DequeuedOwes(gen, pending[0]);
      BalancedSteps(stats, n);
      brought := brought + Owed(gen, pending[0]);
      pending := pending[1..];
      inflight[n] := w;
      stats := stats.(rx := Wrap64(stats.rx + 1));
      if gen.GenIII? && w.rxErr {
        SameBalance(stats, stats.(rxErr := Wrap64(stats.rxErr + 1)), n + 1);
        stats := stats.(rxErr := Wrap64(stats.rxErr + 1));
      }
    }

    /** Frees a held item; the others stay owned. */
    method Release(i: nat, ghost rest: seq<Wqe>)
      requires Valid() && i < BURST && OwnsWith(inflight[i], rest)
      modifies this`stats, this`returned, inflight
      ensures Owns(rest)
      ensures inflight[..] == old(inflight[..])[i := old(inflight[i]).(disp := Freed)]
      ensures stats == old(stats).(dataFreed := Wrap64(old(stats).dataFreed + 1),
                                   wqeFreed := Wrap64(old(stats).wqeFreed + 1))
    {
      hide Owed, OwedAll, Balanced, Wrap64;
      BalancedSteps(stats, |rest|);
      DisposeFree(i);
    }

    /** Counting something that is not part of the balance. */
    method Count(s: Stats, ghost w: Wqe, ghost rest: seq<Wqe>)
      requires OwnsWith(w, rest)
      requires s.rx == stats.rx && s.tx == stats.tx && s.wqeFreed == stats.wqeFreed && s.dataFreed == stats.dataFreed
      requires s.bugDoubleDispose == stats.bugDoubleDispose
      modifies this`stats
      ensures OwnsWith(w, rest) && stats == s
    {
      hide Owed, OwedAll, Balanced;
      SameBalance(stats, s, |rest| + 1);
      stats := s;
    }

    /** PKO will take the packet: it has a route to an existing port, can be described, and
        the hardware accepts it. */
    predicate CanSend(w: Wqe, egress: U16)
    {
      var out := Route(ports, w, egress);
      out.Some? && out.value < |ports| && Describable(gen, w) && accepts(w.serial, out.value)
    }

    /** PKO takes item w on that port. */
    ghost predicate Takes(w: Wqe, port: nat)
    {
      Describable(gen, w) && accepts(w.serial, port)
    }

    /** Sends a held packet by the one port it may leave by or, if it cannot be sent, releases it;
        an item already disposed of is left alone. */
    method Tx(i: nat, egress: U16, ghost rest: seq<Wqe>) returns (ok: bool)
      requires Valid() && i < BURST
      requires inflight[i].disp == Held ==> OwnsWith(inflight[i], rest)
      modifies this`stats, this`returned, this`departed, inflight
      ensures old(inflight[i].disp) != Held ==> !ok && unchanged(this) && unchanged(inflight)
      ensures old(inflight[i].disp) == Held ==>
                && Owns(rest) && ok == CanSend(old(inflight[i]), egress)
                && stats == TxStats(old(stats), ok, egress)
                && inflight[..] == old(inflight[..])[i := old(inflight[i]).(disp := if ok then Sent else Freed)]
      ensures old(inflight[i].disp) == Held ==>
                && (ok <==> exists q :: LeavesBy(ports, old(inflight[i]), egress, q) && Takes(old(inflight[i]), q))
                && Departs(old(departed), departed, ok, old(inflight[i]), egress)
    {
      hide LeavesBy, Describable, Owed, OwedAll, Balanced, Owns, OwnsWith, Wrap64;
      var w := inflight[i];
      if w.disp != Held { return false; }
      var out := Route(ports, w, egress);
      if out.Some? { RouteMeans(ports, w, egress, out.value); }
      forall q: nat
        ensures LeavesBy(ports, w, egress, q) ==> out == Some(q) && q < |ports|
      {
        RouteMeans(ports, w, egress, q);
      }
      if out.None? {
        Count(stats.(noEgress := Wrap64(stats.noEgress + 1)), w, rest);
        Release(i, rest);
        return false;
      }
      if out.value >= |ports| {
        Count(stats.(badEgress := Wrap64(stats.badEgress + 1)), w, rest);
        Release(i, rest);
        return false;
      }
      if Describable(gen, w) && accepts(w.serial, out.value) {
        Handover(i, out.value, rest);
        return true;
      }
      Count(stats.(txFail := Wrap64(stats.txFail + 1)), w, rest);
      Release(i, rest);
      return false;
    }

    /** The counters of one send: sent and its WQE freed, or all freed and the reason counted. */
    ghost function TxStats(s: Stats, ok: bool, egress: U16): (r: Stats)
    {
      if ok then s.(tx := Wrap64(s.tx + 1), wqeFreed := Wrap64(s.wqeFreed + 1))
      else
        var freed := s.(dataFreed := Wrap64(s.dataFreed + 1), wqeFreed := Wrap64(s.wqeFreed + 1));
        if egress == 0xFFFF && |ports| != 2 then freed.(noEgress := Wrap64(s.noEgress + 1))
        else if egress != 0xFFFF && egress >= |ports| then freed.(badEgress := Wrap64(s.badEgress + 1))
        else freed.(txFail := Wrap64(s.txFail + 1))
    }

    /** The record of departures after one packet: it has left by its port, or nothing has. */
    ghost predicate Departs(before: seq<(nat, nat)>, after: seq<(nat, nat)>, ok: bool, w: Wqe, egress: U16)
    {
      if ok then |after| == |before| + 1 && after[..|before|] == before
                 && after[|before|].0 == w.serial && LeavesBy(ports, w, egress, after[|before|].1) && Takes(w, after[|before|].1)
      else after == before
    }

    /** A successful send: PKO will return the data, and the WQE is freed here. */
    method Handover(i: nat, port: nat, ghost rest: seq<Wqe>)
      requires Valid() && i < BURST && OwnsWith(inflight[i], rest) && Describable(gen, inflight[i])
      modifies this`stats, this`returned, this`departed, inflight
      ensures Owns(rest) && stats == old(stats).(tx := Wrap64(old(stats).tx + 1), wqeFreed := Wrap64(old(stats).wqeFreed + 1))
      ensures inflight[..] == old(inflight[..])[i := old(inflight[i]).(disp := Sent)]
      ensures departed == old(departed) + [(old(inflight[i]).serial, port)]
    {
      hide Owed, OwedAll, Balanced, Wrap64, PkoFree, WqeFree;
      DisposalIsExact(gen, inflight[i]);
      BalancedSteps(stats, |rest|);
      ghost var s, w := stats, inflight[i];
      returned := returned + PkoFree(gen, inflight[i]);
      departed := departed + [(w.serial, port)];
      DisposeSent(i);
      stats := stats.(tx := Wrap64(stats.tx + 1));
      assert stats == s.(tx := Wrap64(s.tx + 1), wqeFreed := Wrap64(s.wqeFreed + 1));
    }

    /** Local delivery is counted and the buffers released; an item already disposed of is a
        double disposal. */
    method ToLocal(i: nat, ghost rest: seq<Wqe>)
      requires Valid() && i < BURST
      requires inflight[i].disp == Held ==> OwnsWith(inflight[i], rest)
      modifies this`stats, this`returned, inflight
      ensures old(inflight[i].disp) == Held ==>
                && Owns(rest)
                && stats == old(stats).(local := Wrap64(old(stats).local + 1), dataFreed := Wrap64(old(stats).dataFreed + 1),
                                        wqeFreed := Wrap64(old(stats).wqeFreed + 1))
                && inflight[..] == old(inflight[..])[i := old(inflight[i]).(disp := Freed)]
      ensures old(inflight[i].disp) != Held ==>
                && unchanged(inflight) && returned == old(returned)
                && stats == old(stats).(local := Wrap64(old(stats).local + 1),
                                        bugDoubleDispose := Wrap64(old(stats).bugDoubleDispose + 1))
    {
      hide Owed, OwedAll, Balanced, Wrap64;
      var s := stats.(local := Wrap64(stats.local + 1));
      if inflight[i].disp == Held {
        Count(s, inflight[i], rest);
        Release(i, rest);
      } else {
        stats := s;
        DisposeFree(i);
      }
    }

    /** The same for a hardware punt. */
    method ToOffload(i: nat, ghost rest: seq<Wqe>)
      requires Valid() && i < BURST
      requires inflight[i].disp == Held ==> OwnsWith(inflight[i], rest)
      modifies this`stats, this`returned, inflight
      ensures old(inflight[i].disp) == Held ==>
                && Owns(rest)
                && stats == old(stats).(offload := Wrap64(old(stats).offload + 1), dataFreed := Wrap64(old(stats).dataFreed + 1),
                                        wqeFreed := Wrap64(old(stats).wqeFreed + 1))
                && inflight[..] == old(inflight[..])[i := old(inflight[i]).(disp := Freed)]
      ensures old(inflight[i].disp) != Held ==>
                && unchanged(inflight) && returned == old(returned)
                && stats == old(stats).(offload := Wrap64(old(stats).offload + 1),
                                        bugDoubleDispose := Wrap64(old(stats).bugDoubleDispose + 1))
    {
      hide Owed, OwedAll, Balanced, Wrap64;
      var s := stats.(offload := Wrap64(stats.offload + 1));
      if inflight[i].disp == Held {
        Count(s, inflight[i], rest);
        Release(i, rest);
      } else {
        stats := s;
        DisposeFree(i);
      }
    }

    /** Called after every packet: whatever is still held is a drop. */
    method FreePkt(i: nat, ghost rest: seq<Wqe>)
      requires Valid() && i < BURST
      requires if inflight[i].disp == Held then OwnsWith(inflight[i], rest) else Owns(rest)
      modifies this`stats, this`returned, inflight
      ensures Owns(rest) && inflight[i].disp != Held
      ensures stats == if old(inflight[i].disp) != Held then old(stats)
                       else old(stats).(dropFreed := Wrap64(old(stats).dropFreed + 1), dataFreed := Wrap64(old(stats).dataFreed + 1),
                                        wqeFreed := Wrap64(old(stats).wqeFreed + 1))
      ensures inflight[..] == old(inflight[..])[i := inflight[i]]
    {
      hide Owed, OwedAll, Balanced, Wrap64;
      if inflight[i].disp == Held {
        Release(i, rest);
        SameBalance(stats, stats.(dropFreed := Wrap64(stats.dropFreed + 1)), |rest|);
        stats := stats.(dropFreed := Wrap64(stats.dropFreed + 1));
      } else {
        assert inflight[..] == old(inflight[..])[i := inflight[i]];
      }
    }

    /** Teardown returns whatever is still held of the last burst, and skips the rest of it. */
    method Fini()
      requires Valid() && Owns(HeldIn(inflight[..nInflight]))
      modifies this`stats, this`returned, this`nInflight, inflight
      ensures nInflight == 0 && Owns([]) && returned == brought
    {
      hide Owed, Balanced, Owns;
      var n := nInflight;
      ghost var ws := inflight[..n];
      assert ws[0..] == ws;
      for i := 0 to n
        invariant Valid() && nInflight == n && inflight[i..n] == ws[i..] && Owns(HeldIn(ws[i..]))
      {
        HeldNext(ws, i);
        assert inflight[i] == ws[i..][0];
        if inflight[i].disp == Held {
          FirstHeld(inflight[i], HeldIn(ws[i + 1..]));
          Release(i, HeldIn(ws[i + 1..]));
        } else {
          assert [] + HeldIn(ws[i + 1..]) == HeldIn(ws[i + 1..]);
        }
        assert inflight[i + 1..n] == ws[i + 1..];
      }
      assert ws[n..] == [];
      AllReturned();
      nInflight := 0;
    }

    lemma FirstHeld(w: Wqe, rest: seq<Wqe>)
      requires Owns([w] + rest)
      ensures OwnsWith(w, rest)
    {
      hide Owed, Balanced;
      var ws := [w] + rest;
      assert ws[1..] == rest && ws[0] == w;
      assert w in ws && forall r :: r in rest ==> r in ws;
    }

    lemma AllReturned()
      requires Owns([])
      ensures returned == brought
    {
    }

    lemma SplitHeld(i: nat, n: nat)
      requires Valid() && i < n <= BURST && Owns(inflight[i..n])
      ensures OwnsWith(inflight[i], inflight[i + 1..n])
    {
      hide Owed, Balanced;
      var ws, rest := inflight[i..n], inflight[i + 1..n];
      assert ws[1..] == rest && ws[0] == inflight[i];
      assert inflight[i] in ws && forall w :: w in rest ==> w in ws;
    }

    /** The forwarder's disposition of one packet, then the release of what is still held. */
    method Handle(i: nat, o: Outcome, ghost rest: seq<Wqe>) returns (sent: bool)
      requires Valid() && i < BURST && OwnsWith(inflight[i], rest)
      modifies this`stats, this`returned, this`departed, inflight
      ensures Owns(rest) && inflight[..] == old(inflight[..])[i := inflight[i]] && inflight[i].disp != Held
      ensures sent <==> Sends(o.decision) && CanSend(old(inflight[i]), o.egress)
      ensures stats.rx == old(stats).rx && stats.tx == if sent then Wrap64(old(stats).tx + 1) else old(stats).tx
      ensures Departs(old(departed), departed, sent, old(inflight[i]), o.egress)
    {
      hide Owed, OwedAll, Balanced, Owns, CanSend, Wrap64, LeavesBy, Takes;
      sent := false;
      if Sends(o.decision) {
        sent := Tx(i, o.egress, rest);
      } else if o.decision == LOCAL {
        ToLocal(i, rest);
      } else if o.decision == PUNT {
        ToOffload(i, rest);
      }
      FreePkt(i, rest);
    }
  }

  // ---- a poll of the forwarder over this backend --------------------------------------

  lemma ReceiveKeepsTx(dp: Dp, pkt: seq<U8>, vsys: U8)
    ensures Process(dp, pkt, vsys).0.stats.tx == dp.stats.tx
  {
    hide Parse, KeyOf, FirstMatch, Remember, Touch, FreshEnt, Wrap64;
  }

  /** One packet of the burst: decided by the forwarder, then sent, delivered, punted or
      dropped, and in every case gone when it is over. */
  method PollPacket(fwd: Context, io: Io, pkt: Pkt, ghost rest: seq<Wqe>) returns (ghost ev: Event)
    requires fwd.Valid() && io.Valid() && pkt.slot < BURST
    requires io.OwnsWith(io.inflight[pkt.slot], rest)
    modifies fwd`stats, fwd.flows`count, fwd.flows.ent
    modifies io`stats, io`returned, io`departed, io.inflight
    ensures fwd.Valid() && io.Owns(rest)
    ensures io.inflight[..] == old(io.inflight[..])[pkt.slot := io.inflight[pkt.slot]] && io.inflight[pkt.slot].disp != Held
    ensures ev.Packet? && ev.pkt == pkt.data && ev.vsys == pkt.vsys
    ensures fwd.View() == Step(old(fwd.View()), ev)
    ensures SentRightly(old(fwd.View()), io, old(io.inflight[pkt.slot]), ev)
    ensures LeftRightly(old(fwd.View()), io, old(io.inflight[pkt.slot]), ev, old(io.departed), io.departed)
    ensures io.stats.rx == old(io.stats.rx)
    ensures io.stats.tx == (if ev.sent then Wrap64(old(io.stats.tx) + 1) else old(io.stats.tx))
    ensures fwd.stats.tx == (if ev.sent then Wrap64(old(fwd.stats.tx) + 1) else old(fwd.stats.tx))
  {
    hide Process, Step, Wrap64, Io.Owns, Io.OwnsWith, Io.CanSend, Io.Departs, WellFormed, Contents;
    ghost var start := fwd.View();
    ghost var counted := start.(stats := start.stats.(rx := Wrap64(start.stats.rx + 1)));
    ResultIgnoresCounters(start, start.stats.(rx := Wrap64(start.stats.rx + 1)), pkt.data, pkt.vsys);
    ReceiveKeepsTx(counted, pkt.data, pkt.vsys);
    var res := fwd.Receive(pkt.data, pkt.vsys);
    ghost var mid := fwd.View();
    var sent := io.Handle(pkt.slot, res.outcome, rest);
    PollUnfolds(start, pkt.data, pkt.vsys, sent, mid, res);
    fwd.stats := CountSend(fwd.stats, res.outcome.decision, sent);
    ev := Packet(pkt.data, pkt.vsys, sent);
  }

  /** The event says sent exactly when the decision was to send and the hardware could. */
  ghost predicate SentRightly(dp: Dp, io: Io, w: Wqe, ev: Event)
    requires ev.Packet?
  {
    var o := Process(dp, ev.pkt, ev.vsys).1.outcome;
    ev.sent <==> Sends(o.decision) && io.CanSend(w, o.egress)
  }

  /** The packet left by the port its decision and arrival call for, or did not leave. */
  ghost predicate LeftRightly(dp: Dp, io: Io, w: Wqe, ev: Event, before: seq<(nat, nat)>, after: seq<(nat, nat)>)
    requires ev.Packet?
  {
    io.Departs(before, after, ev.sent, w, Process(dp, ev.pkt, ev.vsys).1.outcome.egress)
  }

  /** The departures from `before` on are those of the packet events from n on, each by its port and
      in order, and no others. */
  ghost predicate AllLeftRightly(start: Dp, io: Io, evs: seq<Event>, n: nat, ws: seq<Wqe>, before: seq<(nat, nat)>, after: seq<(nat, nat)>)
    decreases |evs|
  {
    if |evs| <= n then after == before
    else
      var i := |evs| - 1;
      i - n < |ws| && evs[i].Packet? && exists mid ::
        AllLeftRightly(start, io, evs[..i], n, ws, before, mid) && LeftRightly(Run(start, evs[..i]), io, ws[i - n], evs[i], mid, after)
  }

  lemma LeftNext(start: Dp, io: Io, evs: seq<Event>, n: nat, ws: seq<Wqe>, before: seq<(nat, nat)>, mid: seq<(nat, nat)>, after: seq<(nat, nat)>, ev: Event)
    requires n <= |evs| && |evs| - n < |ws| && AllLeftRightly(start, io, evs, n, ws, before, mid)
    requires ev.Packet? && LeftRightly(Run(start, evs), io, ws[|evs| - n], ev, mid, after)
    ensures AllLeftRightly(start, io, evs + [ev], n, ws, before, after)
  {
    hide LeftRightly, Run;
    assert (evs + [ev])[..|evs|] == evs;
  }

  /** So says every packet event from n on, in the state its predecessors left. */
  ghost predicate AllSentRightly(start: Dp, io: Io, evs: seq<Event>, n: nat, ws: seq<Wqe>)
  {
    forall i :: n <= i < |evs| ==> i - n < |ws| && evs[i].Packet? && SentRightly(Run(start, evs[..i]), io, ws[i - n], evs[i])
  }

  lemma SentNext(start: Dp, io: Io, evs: seq<Event>, n: nat, ws: seq<Wqe>, ev: Event)
    requires n <= |evs| && |evs| - n < |ws| && AllSentRightly(start, io, evs, n, ws)
    requires ev.Packet? && SentRightly(Run(start, evs), io, ws[|evs| - n], ev)
    ensures AllSentRightly(start, io, evs + [ev], n, ws)
  {
    hide SentRightly, Run;
    var all := evs + [ev];
    assert all[..|evs|] == evs;
    forall i | n <= i < |all|
      ensures all[i].Packet? && SentRightly(Run(start, all[..i]), io, ws[i - n], all[i])
    {
      if i < |evs| { assert all[..i] == evs[..i] && all[i] == evs[i]; }
    }
  }

  /** The commands a ring offers. */
  ghost function CommandsIn(ring: seq<U8>): (cmds: seq<(U16, U64)>)
    requires |ring| == RingBytes.RING_SIZE
  {
    CommandsOf(RingBytes.Decode(ring))
  }

  ghost function CommandsOf(r: Ring.Shared): (cmds: seq<(U16, U64)>)
    requires |r.slots| == Ring.DESCS
  {
    var ms := Ring.Drained(r);
    seq(|ms|, i requires 0 <= i < |ms| => (ms[i].op, ms[i].a0))
  }

  /** A pop takes the first of them. */
  lemma NextCommand(r: Ring.Shared)
    requires |r.slots| == Ring.DESCS
    ensures match Ring.Pop(r)
            case None => CommandsOf(r) == []
            case Some((r', m)) => CommandsOf(r) == [(m.op, m.a0)] + CommandsOf(r')
  {
  }

  /** The events so far are the commands taken, and what the ring still offers are the others. */
  ghost predicate Served(evs: seq<Event>, all: seq<(U16, U64)>, left: seq<(U16, U64)>, region: Option<seq<U8>>)
  {
    && |evs| + |left| == |all| && all[|evs|..] == left
    && forall j :: 0 <= j < |evs| ==> evs[j] == Command(all[j].0, all[j].1, region)
  }

  lemma ServedNext(evs: seq<Event>, all: seq<(U16, U64)>, left: seq<(U16, U64)>, region: Option<seq<U8>>)
    requires Served(evs, all, left, region) && left != []
    ensures Served(evs + [Command(left[0].0, left[0].1, region)], all, left[1..], region)
  {
    assert all[|evs|] == left[0];
  }

  lemma AllServed(evs: seq<Event>, all: seq<(U16, U64)>, region: Option<seq<U8>>)
    ensures Served([], all, all, region)
    ensures Served(evs, all, [], region) ==> IsPoll(evs, all, region, []) && |evs| == |all|
  {
  }

  /** Over every poll, whatever the decisions, bad ports, scattered buffers and failed sends:
      each work item dequeued has given back each of its allocations exactly once and none of the
      burst is still held, the accounting counters balance with no double disposal, the command
      ring is empty, and the forwarder has taken exactly the steps of the popped commands and the
      delivered frames, sending just what was to be sent and could be; both sides count the same
      sends. */
  method PollOnce(fwd: Context, io: Io, ring: array<U8>, region: Option<seq<U8>>)
    returns (n: nat, ghost evs: seq<Event>, ghost taken: nat)
    requires fwd.Valid() && io.Valid() && io.Owns([])
    requires ring.Length == RingBytes.RING_SIZE
    modifies fwd, fwd.flows`count, fwd.flows.ent
    modifies io, io.inflight, ring
    ensures fwd.Valid() && io.Valid() && io.Owns([]) && HeldIn(io.inflight[..io.nInflight]) == []
    ensures taken <= |old(io.pending)| && io.pending == old(io.pending)[taken..]
    ensures io.returned == io.brought == old(io.brought) + OwedAll(io.gen, old(io.pending)[..taken])
    ensures Cong64(io.stats.wqeFreed, io.stats.rx) && Cong64(io.stats.dataFreed + io.stats.tx, io.stats.rx)
    ensures io.stats.bugDoubleDispose == 0 && io.stats.rx == Wrap64(old(io.stats.rx) + taken)
    ensures n == |Frames(io.gen, io.ports, old(io.pending)[..taken])| && (n == BURST || io.pending == [])
    ensures var cmds := if region.Some? then CommandsIn(old(ring[..])) else [];
            && IsPoll(evs, cmds, region, Frames(io.gen, io.ports, old(io.pending)[..taken]))
            && AllSentRightly(old(fwd.View()), io, evs, |cmds|, Kept(io.gen, io.ports, old(io.pending)[..taken]))
            && AllLeftRightly(old(fwd.View()), io, evs, |cmds|, Kept(io.gen, io.ports, old(io.pending)[..taken]), old(io.departed), io.departed)
    ensures region.Some? ==> CommandsIn(ring[..]) == []
    ensures fwd.View() == Run(old(fwd.View()), evs)
    ensures Cong64(fwd.stats.tx + old(io.stats.tx), io.stats.tx + old(fwd.stats.tx))
  {
    hide Run, Owed, OwedAll, IsPoll, Frames, Kept, CommandsIn, AllSentRightly, AllLeftRightly, HeldIn, Delivers, Io.Owns, Wrap64, Contents, WellFormed, Process;
    ghost var cmds := if region.Some? then CommandsIn(ring[..]) else [];
    evs := ServeCommands(fwd, ring, region);
    var burst;
    burst, taken := io.Rx(BURST);
    n := |burst|;
    InSlots(io.ports, io.inflight[..n], burst);
    evs := PollBurst(fwd, io, burst, old(fwd.View()), evs, cmds, region);
    NoneHeld(io.inflight[..n]);
    NothingDoubled(io);
  }

  /** The events of one poll: the commands popped, then the frames delivered. */
  ghost predicate IsPoll(evs: seq<Event>, cmds: seq<(U16, U64)>, region: Option<seq<U8>>, fs: seq<(seq<U8>, U8)>)
  {
    && |evs| == |cmds| + |fs|
    && (forall j :: 0 <= j < |cmds| ==> evs[j] == Command(cmds[j].0, cmds[j].1, region))
    && (forall j :: |cmds| <= j < |evs| ==>
          evs[j].Packet? && (evs[j].pkt, evs[j].vsys) == fs[j - |cmds|])
  }

  lemma IsPollAppend(evs: seq<Event>, cmds: seq<(U16, U64)>, region: Option<seq<U8>>, burst: seq<Pkt>, i: nat, ev: Event)
    requires i < |burst| && IsPoll(evs, cmds, region, Shown(burst[..i]))
    requires ev.Packet? && ev.pkt == burst[i].data && ev.vsys == burst[i].vsys
    ensures IsPoll(evs + [ev], cmds, region, Shown(burst[..i + 1])) && |evs| == |cmds| + i
  {
  }

  lemma NothingSent(start: Dp, io: Io, evs: seq<Event>, ws: seq<Wqe>, out: seq<(nat, nat)>)
    ensures AllSentRightly(start, io, evs, |evs|, ws) && AllLeftRightly(start, io, evs, |evs|, ws, out, out)
  {
  }

  method PollBurst(fwd: Context, io: Io, burst: seq<Pkt>, ghost start: Dp, ghost before: seq<Event>,
                   ghost cmds: seq<(U16, U64)>, ghost region: Option<seq<U8>>) returns (ghost evs: seq<Event>)
    requires fwd.Valid() && io.Valid() && io.nInflight == |burst|
    requires io.Owns(io.inflight[..|burst|]) && forall i :: 0 <= i < |burst| ==> burst[i].slot == i
    requires IsPoll(before, cmds, region, []) && |before| == |cmds| && fwd.View() == Run(start, before)
    modifies fwd`stats, fwd.flows`count, fwd.flows.ent
    modifies io`stats, io`returned, io`departed, io.inflight
    ensures fwd.Valid() && io.Owns([]) && io.stats.rx == old(io.stats.rx) && forall i :: 0 <= i < |burst| ==> io.inflight[i].disp != Held
    ensures IsPoll(evs, cmds, region, Shown(burst)) && fwd.View() == Run(start, evs)
    ensures AllSentRightly(start, io, evs, |cmds|, old(io.inflight[..|burst|]))
    ensures AllLeftRightly(start, io, evs, |cmds|, old(io.inflight[..|burst|]), old(io.departed), io.departed)
    ensures Cong64(fwd.stats.tx + old(io.stats.tx), io.stats.tx + old(fwd.stats.tx))
  {
    hide Step, Run, IsPoll, PollSoFar, SentRightly, LeftRightly, Shown, AllSentRightly, AllLeftRightly, Io.Departs, Io.Owns, Io.OwnsWith, Process, WellFormed, Contents, Wrap64;
    evs := before;
    var n := |burst|;
    ghost var ws, out0 := io.inflight[..n], io.departed;
    assert io.inflight[..n] == io.inflight[0..n];
    PollStarts(start, io, evs, cmds, region, burst, ws, out0);
    for i := 0 to n
      invariant fwd.Valid() && io.Valid() && io.Owns(io.inflight[i..n]) && io.inflight[i..n] == ws[i..]
      invariant io.stats.rx == old(io.stats.rx) && forall j :: 0 <= j < i ==> io.inflight[j].disp != Held
      invariant PollSoFar(start, io, evs, cmds, region, burst, i, ws, out0, io.departed) && fwd.View() == Run(start, evs)
      invariant Cong64(fwd.stats.tx + old(io.stats.tx), io.stats.tx + old(fwd.stats.tx))
    {
      ghost var rest := io.inflight[i + 1..n];
      assert io.inflight[i] == io.inflight[i..n][0] == ws[i];
      assert rest == ws[i + 1..];
      io.SplitHeld(i, n);
      ghost var ft, it, out := fwd.stats.tx, io.stats.tx, io.departed;
      ghost var ev := PollPacket(fwd, io, burst[i], rest);
      if ev.sent { BumpBoth(ft, old(io.stats.tx), it, old(fwd.stats.tx)); }
      RunAppend(start, evs, ev);
      PollGoesOn(start, io, evs, cmds, region, burst, i, ws, out0, out, io.departed, ev);
      evs := evs + [ev];
      assert io.inflight[i + 1..n] == rest;
    }
    assert io.inflight[n..n] == [];
    PollEnds(start, io, evs, cmds, region, burst, ws, out0, io.departed);
  }

  /** The events after i packets of the burst: whose they are, what was sent and what has left. */
  ghost predicate PollSoFar(start: Dp, io: Io, evs: seq<Event>, cmds: seq<(U16, U64)>, region: Option<seq<U8>>, burst: seq<Pkt>, i: nat,
                            ws: seq<Wqe>, before: seq<(nat, nat)>, after: seq<(nat, nat)>)
  {
    && i <= |burst| && |evs| == |cmds| + i && IsPoll(evs, cmds, region, Shown(burst[..i]))
    && AllSentRightly(start, io, evs, |cmds|, ws) && AllLeftRightly(start, io, evs, |cmds|, ws, before, after)
  }

  lemma PollStarts(start: Dp, io: Io, evs: seq<Event>, cmds: seq<(U16, U64)>, region: Option<seq<U8>>, burst: seq<Pkt>,
                   ws: seq<Wqe>, out: seq<(nat, nat)>)
    requires IsPoll(evs, cmds, region, []) && |evs| == |cmds|
    ensures PollSoFar(start, io, evs, cmds, region, burst, 0, ws, out, out)
  {
    hide IsPoll, AllSentRightly, AllLeftRightly;
    assert burst[..0] == [];
    ShownNone();
    NothingSent(start, io, evs, ws, out);
  }

  lemma PollGoesOn(start: Dp, io: Io, evs: seq<Event>, cmds: seq<(U16, U64)>, region: Option<seq<U8>>, burst: seq<Pkt>, i: nat,
                   ws: seq<Wqe>, before: seq<(nat, nat)>, mid: seq<(nat, nat)>, after: seq<(nat, nat)>, ev: Event)
    requires PollSoFar(start, io, evs, cmds, region, burst, i, ws, before, mid) && i < |burst| && i < |ws|
    requires ev.Packet? && ev.pkt == burst[i].data && ev.vsys == burst[i].vsys
    requires SentRightly(Run(start, evs), io, ws[i], ev) && LeftRightly(Run(start, evs), io, ws[i], ev, mid, after)
    ensures PollSoFar(start, io, evs + [ev], cmds, region, burst, i + 1, ws, before, after)
  {
    hide IsPoll, Shown, AllSentRightly, AllLeftRightly, SentRightly, LeftRightly, Run;
    SentNext(start, io, evs, |cmds|, ws, ev);
    LeftNext(start, io, evs, |cmds|, ws, before, mid, after, ev);
    IsPollAppend(evs, cmds, region, burst, i, ev);
  }

  lemma PollEnds(start: Dp, io: Io, evs: seq<Event>, cmds: seq<(U16, U64)>, region: Option<seq<U8>>, burst: seq<Pkt>,
                 ws: seq<Wqe>, before: seq<(nat, nat)>, after: seq<(nat, nat)>)
    requires PollSoFar(start, io, evs, cmds, region, burst, |burst|, ws, before, after)
    ensures IsPoll(evs, cmds, region, Shown(burst))
    ensures AllSentRightly(start, io, evs, |cmds|, ws) && AllLeftRightly(start, io, evs, |cmds|, ws, before, after)
  {
    hide IsPoll, Shown, AllSentRightly, AllLeftRightly;
    assert burst[..|burst|] == burst;
  }

  /** Drains the command ring; without a region there is none. */
  method ServeCommands(fwd: Context, ring: array<U8>, region: Option<seq<U8>>) returns (ghost evs: seq<Event>)
    requires fwd.Valid() && ring.Length == RingBytes.RING_SIZE
    modifies fwd, fwd.flows`count, fwd.flows.ent, ring
    ensures fwd.Valid() && fwd.stats == old(fwd.stats)
    ensures var cmds := if region.Some? then CommandsIn(old(ring[..])) else [];
            IsPoll(evs, cmds, region, []) && |evs| == |cmds|
    ensures region.Some? ==> CommandsIn(ring[..]) == []
    ensures fwd.View() == Run(old(fwd.View()), evs)
  {
    hide Serve, Run, CommandsOf, Served, RingBytes.Decode, Contents, WellFormed;
    evs := [];
    RunNone(fwd.View());
    AllServed(evs, [], region);
    if region.None? { return; }
    ghost var all, left := CommandsIn(ring[..]), CommandsIn(ring[..]);
    AllServed(evs, all, region);
    while true
      invariant fwd.Valid() && fwd.stats == old(fwd.stats)
      invariant left == CommandsIn(ring[..]) && Served(evs, all, left, region)
      invariant fwd.View() == Run(old(fwd.View()), evs)
      decreases |left|
    {
      NextCommand(RingBytes.Decode(ring[..]));
      var m := RingBytes.PopMsg(ring);
      if m.None? { break; }
      ghost var ev := Command(m.value.op, m.value.a0, region);
      ServedNext(evs, all, left, region);
      left := left[1..];
      fwd.ServeCommand(m.value.op, m.value.a0, region);
      RunAppend(old(fwd.View()), evs, ev);
      evs := evs + [ev];
    }
    AllServed(evs, all, region);
  }

  /** Any number of polls, then teardown: everything the hardware handed over has gone back. */
  method ServeAndStop(fwd: Context, io: Io, ring: array<U8>, region: Option<seq<U8>>, polls: nat)
    requires fwd.Valid() && io.Valid() && io.Owns([]) && HeldIn(io.inflight[..io.nInflight]) == []
    requires ring.Length == RingBytes.RING_SIZE
    modifies fwd, fwd.flows`count, fwd.flows.ent
    modifies io, io.inflight, ring
    ensures io.nInflight == 0 && io.Owns([]) && io.returned == io.brought && io.stats.bugDoubleDispose == 0
    ensures exists taken :: 0 <= taken <= |old(io.pending)| && io.brought == old(io.brought) + OwedAll(io.gen, old(io.pending)[..taken])
  {
    hide Owed, OwedAll, Frames, Kept, IsPoll, AllSentRightly, AllLeftRightly, CommandsIn, Run, Io.Owns, Wrap64, Contents, WellFormed;
    ghost var queue, had := io.pending, io.brought;
    ghost var total: nat := 0;
    OwedNone(io.gen);
    assert queue[..0] == [];
    var done := 0;
    while done < polls && !fwd.stop
      invariant fwd.Valid() && io.Valid() && io.Owns([])
      invariant HeldIn(io.inflight[..io.nInflight]) == []
      invariant total <= |queue| && io.pending == queue[total..] && io.brought == had + OwedAll(io.gen, queue[..total])
      decreases polls - done
    {
      var n;
      ghost var evs, taken;
      n, evs, taken := PollOnce(fwd, io, ring, region);
      OwedSplit(io.gen, queue, total, taken);
      total, done := total + taken, done + 1;
    }
    io.Fini();
    NothingDoubled(io);
  }

  lemma {:induction false} OwedSplit(gen: Generation, queue: seq<Wqe>, a: nat, b: nat)
    requires a + b <= |queue|
    ensures OwedAll(gen, queue[..a + b]) == OwedAll(gen, queue[..a]) + OwedAll(gen, queue[a..][..b])
    ensures queue[a..][b..] == queue[a + b..]
  {
    hide Owed;
    if b == 0 {
      assert queue[..a + 0] == queue[..a] && queue[a..][..0] == [];
    } else {
      OwedSplit(gen, queue, a, b - 1);
      assert queue[..a + b] == queue[..a + b - 1] + [queue[a + b - 1]];
      assert queue[a..][..b] == queue[a..][..b - 1] + [queue[a + b - 1]];
      OwedAppend(gen, queue[..a + b - 1], queue[a + b - 1]);
      OwedAppend(gen, queue[a..][..b - 1], queue[a + b - 1]);
    }
  }

  lemma RunNone(dp: Dp)
    ensures Run(dp, []) == dp
  {
  }

  lemma NothingDoubled(io: Io)
    requires io.Owns([])
    ensures io.stats.bugDoubleDispose == 0 && io.returned == io.brought
    ensures Cong64(io.stats.wqeFreed, io.stats.rx) && Cong64(io.stats.dataFreed + io.stats.tx, io.stats.rx)
  {
  }
}
