/** The shared-region command and event rings: 64 fixed descriptors, one producer, one
    consumer, free-running 32-bit indices. First as an interleaving of single loads and
    stores, then as the in-place byte operations a lone caller sees. */
module Ring {
  import opened Words

  const DESCS := 64

  datatype Msg = Msg(op: U16, a0: U64, a1: U64, a2: U64)

  datatype Desc = Desc(op: U16, flags: U16, seqno: U32, a0: U64, a1: U64, a2: U64)

  function Describe(m: Msg, head: U32): (d: Desc) { Desc(m.op, 0, head, m.a0, m.a1, m.a2) }

  function Carried(d: Desc): (m: Msg) { Msg(d.op, d.a0, d.a1, d.a2) }

  // ---- single steps -------------------------------------------------------------

  /** A push in progress: the head was loaded; the tail was too, there was room, and k
      fields of the descriptor have been stored. */
  datatype Producer = PIdle | PLoaded(msg: Msg, head: U32) | PWriting(msg: Msg, head: U32, k: nat)

  /** A pop in progress: the head was loaded; the tail was too, the ring was not empty,
      and k fields have been loaded into part. */
  datatype Consumer = CIdle | CLoaded(head: U32) | CReading(tail: U32, k: nat, part: Msg)

  datatype Shared = Shared(head: U32, tail: U32, slots: seq<Desc>)

  /** The shared memory, both ends, and the history: what was published, what was taken,
      and how much had been published when the consumer last loaded the head. */
  datatype World = World(ring: Shared, prod: Producer, cons: Consumer,
                         pushed: seq<Msg>, popped: seq<Msg>, seen: nat)

  datatype Action = StartPush(msg: Msg) | ProducerStep | StartPop | ConsumerStep

  const ZERO_DESC := Desc(0, 0, 0, 0, 0, 0)

  function Init(): (w: World)
  {
    World(Shared(0, 0, seq(DESCS, _ => ZERO_DESC)), PIdle, CIdle, [], [], 0)
  }

  /** Store field k of e into d. */
  function StoreField(d: Desc, e: Desc, k: nat): (r: Desc)
  {
    if k == 0 then d.(op := e.op) else if k == 1 then d.(flags := e.flags)
    else if k == 2 then d.(seqno := e.seqno) else if k == 3 then d.(a0 := e.a0)
    else if k == 4 then d.(a1 := e.a1) else d.(a2 := e.a2)
  }

  /** Load the k-th value a pop reads. */
  function LoadField(m: Msg, d: Desc, k: nat): (r: Msg)
  {
    if k == 0 then m.(op := d.op) else if k == 1 then m.(a0 := d.a0)
    else if k == 2 then m.(a1 := d.a1) else m.(a2 := d.a2)
  }

  function SlotOf(index: U32): (i: nat)
    ensures i < DESCS
  {
    index % DESCS
  }

  function ProducerNext(w: World): (r: World)
    requires |w.ring.slots| == DESCS
  {
    match w.prod
    case PIdle => w
    case PLoaded(m, head) =>
      if Wrap32(head - w.ring.tail) >= DESCS then w.(prod := PIdle)
      else w.(prod := PWriting(m, head, 0))
    case PWriting(m, head, k) =>
      if k < 6 then
        var i := SlotOf(head);
        w.(ring := w.ring.(slots := w.ring.slots[i := StoreField(w.ring.slots[i], Describe(m, head), k)]),
           prod := PWriting(m, head, k + 1))
      else
        w.(ring := w.ring.(head := Wrap32(head + 1)), prod := PIdle, pushed := w.pushed + [m])
  }

  function ConsumerNext(w: World): (r: World)
    requires |w.ring.slots| == DESCS
  {
    match w.cons
    case CIdle => w
    case CLoaded(head) =>
      if head == w.ring.tail then w.(cons := CIdle)
      else w.(cons := CReading(w.ring.tail, 0, Msg(0, 0, 0, 0)))
    case CReading(tail, k, part) =>
      if k < 4 then w.(cons := CReading(tail, k + 1, LoadField(part, w.ring.slots[SlotOf(tail)], k)))
      else w.(ring := w.ring.(tail := Wrap32(tail + 1)), cons := CIdle, popped := w.popped + [part])
  }

  function Next(w: World, a: Action): (r: World)
    requires |w.ring.slots| == DESCS
    ensures |r.ring.slots| == DESCS
  {
    match a
    case StartPush(m) => if w.prod.PIdle? then w.(prod := PLoaded(m, w.ring.head)) else w
    case ProducerStep => ProducerNext(w)
    case StartPop => if w.cons.CIdle? then w.(cons := CLoaded(w.ring.head), seen := |w.pushed|) else w
    case ConsumerStep => ConsumerNext(w)
  }

  /** Any interleaving of the two ends' steps. */
  function Exec(schedule: seq<Action>): (w: World)
    ensures |w.ring.slots| == DESCS
  {
    if schedule == [] then Init() else Next(Exec(schedule[..|schedule| - 1]), schedule[|schedule| - 1])
  }

  // ---- the invariant -----------------------------------------------------------------

  /** The first k fields of d are those of e. */
  predicate Stored(d: Desc, e: Desc, k: nat)
  {
    && (k > 0 ==> d.op == e.op) && (k > 1 ==> d.flags == e.flags) && (k > 2 ==> d.seqno == e.seqno)
    && (k > 3 ==> d.a0 == e.a0) && (k > 4 ==> d.a1 == e.a1) && (k > 5 ==> d.a2 == e.a2)
  }

  predicate Read(m: Msg, full: Msg, k: nat)
  {
    && (k > 0 ==> m.op == full.op) && (k > 1 ==> m.a0 == full.a0)
    && (k > 2 ==> m.a1 == full.a1) && (k > 3 ==> m.a2 == full.a2)
  }

  /** Message number i is published and not yet taken. */
  predicate Live(w: World, i: int) { |w.popped| <= i < |w.pushed| }

  /** The slot of message number i. */
  function Place(i: nat): (p: nat)
    ensures p < DESCS
  {
    i % DESCS
  }

  ghost predicate Inv(w: World)
  {
    && |w.ring.slots| == DESCS
    && |w.popped| <= |w.pushed| <= |w.popped| + DESCS
    && w.popped == w.pushed[..|w.popped|]
    && w.ring.head == Wrap32(|w.pushed|) && w.ring.tail == Wrap32(|w.popped|)
    && (forall i :: Live(w, i) ==> w.ring.slots[Place(i)] == Describe(w.pushed[i], Wrap32(i)))
    && ProducerInv(w) && ConsumerInv(w)
  }

  ghost predicate ProducerInv(w: World)
    requires |w.ring.slots| == DESCS
  {
    match w.prod
    case PIdle => true
    case PLoaded(_, head) => head == w.ring.head
    case PWriting(m, head, k) =>
      && head == w.ring.head && |w.pushed| < |w.popped| + DESCS && k <= 6
      && Stored(w.ring.slots[Place(|w.pushed|)], Describe(m, head), k)
  }

  ghost predicate ConsumerInv(w: World)
  {
    match w.cons
    case CIdle => true
    case CLoaded(head) => |w.popped| <= w.seen <= |w.pushed| && head == Wrap32(w.seen)
    case CReading(tail, k, part) =>
      && tail == w.ring.tail && |w.popped| < |w.pushed| && k <= 4
      && Read(part, w.pushed[|w.popped|], k)
  }

  /** Indices that differ by at most a ringful are told apart after wrapping, and wrap
      onto the right slot. */
  lemma Wrapping(a: nat, b: nat)
    requires b <= a <= b + DESCS
    ensures Wrap32(Wrap32(a) - Wrap32(b)) == a - b
    ensures Wrap32(a) == Wrap32(b) <==> a == b
    ensures SlotOf(Wrap32(a)) == Place(a)
    ensures Wrap32(Wrap32(a) + 1) == Wrap32(a + 1)
    ensures b < a < b + DESCS ==> Place(a) != Place(b)
  {
    WrappedDistance(a, b);
    WrappedPlace(a);
    PlacesApart(a, b);
    hide Wrap32, SlotOf, Place;
  }

  lemma PlacesApart(a: nat, b: nat)
    ensures b < a < b + DESCS ==> Place(a) != Place(b)
  {
    if b < a < b + DESCS && Place(a) == Place(b) {
      MultipleBetween(a / DESCS - b / DESCS, DESCS, a - b);
    }
  }

  lemma WrappedDistance(a: nat, b: nat)
    requires b <= a <= b + DESCS
    ensures Wrap32(Wrap32(a) - Wrap32(b)) == a - b
    ensures Wrap32(a) == Wrap32(b) <==> a == b
  {
    var d := Wrap32(a) - Wrap32(b);
    var q := a / 0x1_0000_0000 - b / 0x1_0000_0000;
    assert a - b == q * 0x1_0000_0000 + d;
    DivModUnique(d, 0x1_0000_0000, -q, a - b);
  }

  lemma WrappedPlace(a: nat)
    ensures SlotOf(Wrap32(a)) == Place(a)
    ensures Wrap32(Wrap32(a) + 1) == Wrap32(a + 1)
  {
  }

  lemma ProducerKeepsInv(w: World)
    requires Inv(w)
    ensures Inv(ProducerNext(w))
    ensures forall i :: Live(w, i) ==>
              w.ring.slots[Place(i)] == ProducerNext(w).ring.slots[Place(i)]
  {
    hide Wrap32, SlotOf, Place;
    var h, t := |w.pushed|, |w.popped|;
    Wrapping(h, t);
    forall i | Live(w, i) && h < t + DESCS
      ensures Place(i) != Place(h)
    {
      Wrapping(h, i);
    }
  }

  lemma ConsumerKeepsInv(w: World)
    requires Inv(w)
    ensures Inv(ConsumerNext(w))
    ensures ConsumerNext(w).ring.slots == w.ring.slots
  {
    hide Wrap32, SlotOf, Place;
    Wrapping(|w.popped|, |w.popped|);
    if w.cons.CLoaded? {
      Wrapping(w.seen, |w.popped|);
    } else if w.cons.CReading? {
      assert Live(w, |w.popped|);
    }
  }

  /** One step of either end keeps the invariant and leaves every live slot as it is. */
  lemma StepKeepsInv(w: World, a: Action)
    requires Inv(w)
    ensures Inv(Next(w, a))
    ensures forall i :: Live(w, i) ==> w.ring.slots[Place(i)] == Next(w, a).ring.slots[Place(i)]
  {
    hide Wrap32, Place;
    match a
    case StartPush(_) =>
    case ProducerStep => ProducerKeepsInv(w);
    case StartPop =>
    case ConsumerStep => ConsumerKeepsInv(w);
  }

  /** Under every interleaving, across any number of index wraps: what was taken is a prefix
      of what was published, at most 64 descriptors are outstanding, and each still holds
      its message, no flags and its number modulo 2^32. */
  lemma {:induction false} EverySchedule(schedule: seq<Action>)
    ensures Inv(Exec(schedule))
    ensures var w := Exec(schedule);
            && w.popped <= w.pushed && |w.pushed| - |w.popped| <= DESCS
            && forall i :: Live(w, i) ==>
                 var d := w.ring.slots[Place(i)];
                 Carried(d) == w.pushed[i] && d.flags == 0 && d.seqno == i % 0x1_0000_0000
  {
    if schedule != [] {
      var n := |schedule| - 1;
      EverySchedule(schedule[..n]);
      StepKeepsInv(Exec(schedule[..n]), schedule[n]);
    }
  }

  // ---- an undisturbed push or pop ---------------------------------------------------------

  function ProducerSteps(w: World, n: nat): (r: World)
    requires |w.ring.slots| == DESCS
    ensures |r.ring.slots| == DESCS
    decreases n
  {
    if n == 0 then w else ProducerSteps(ProducerNext(w), n - 1)
  }

  function ConsumerSteps(w: World, n: nat): (r: World)
    requires |w.ring.slots| == DESCS
    ensures |r.ring.slots| == DESCS
    decreases n
  {
    if n == 0 then w else ConsumerSteps(ConsumerNext(w), n - 1)
  }

  /** What a push does to the ring when nothing interferes; None when it is full. */
  function Push(r: Shared, m: Msg): (r': Option<Shared>)
    requires |r.slots| == DESCS
  {
    if Wrap32(r.head - r.tail) >= DESCS then None
    else Some(r.(head := Wrap32(r.head + 1), slots := r.slots[SlotOf(r.head) := Describe(m, r.head)]))
  }

  /** What a pop does; None when the ring is empty. */
  function Pop(r: Shared): (r': Option<(Shared, Msg)>)
    requires |r.slots| == DESCS
  {
    if r.head == r.tail then None
    else Some((r.(tail := Wrap32(r.tail + 1)), Carried(r.slots[SlotOf(r.tail)])))
  }

  /** The messages a ring still offers, oldest first: what popping until it is empty takes. */
  function Drained(r: Shared): (ms: seq<Msg>)
    requires |r.slots| == DESCS
    decreases Wrap32(r.head - r.tail)
  {
    if r.head == r.tail then []
    else
      OneFewer(r.head, r.tail);
      [Carried(r.slots[SlotOf(r.tail)])] + Drained(r.(tail := Wrap32(r.tail + 1)))
  }

  lemma OneFewer(head: U32, tail: U32)
    requires head != tail
    ensures Wrap32(head - Wrap32(tail + 1)) == Wrap32(head - tail) - 1
  {
    var n := if head > tail then head - tail else head - tail + 0x1_0000_0000;
    assert Wrap32(head - tail) == n;
    assert Wrap32(tail + 1) == if tail == 0xFFFF_FFFF then 0 else tail + 1;
  }

  /** Under the invariant they are the published messages not yet taken. */
  lemma {:induction false} DrainedIsOutstanding(w: World)
    requires Inv(w)
    ensures Drained(w.ring) == w.pushed[|w.popped|..]
    decreases |w.pushed| - |w.popped|
  {
    hide Place, SlotOf, Wrap32;
    var h, t := |w.pushed|, |w.popped|;
    Wrapping(h, t);
    if t < h {
      Wrapping(t, t);
      var m := w.pushed[t];
      var w' := w.(ring := w.ring.(tail := Wrap32(w.ring.tail + 1)), popped := w.popped + [m], prod := PIdle, cons := CIdle, seen := 0);
      assert Live(w, t);
      assert w.popped + [m] == w.pushed[..t + 1];
      assert forall i :: Live(w', i) ==> Live(w, i);
      assert Inv(w');
      DrainedIsOutstanding(w');
      assert Drained(w.ring) == [m] + Drained(w'.ring);
    }
  }

  /** From k stored fields, the remaining stores and the publish complete the push. */
  lemma {:induction false} RestOfPush(w: World)
    requires |w.ring.slots| == DESCS && w.prod.PWriting? && w.prod.k <= 6
    requires Stored(w.ring.slots[SlotOf(w.prod.head)], Describe(w.prod.msg, w.prod.head), w.prod.k)
    ensures var PWriting(m, head, k) := w.prod;
            ProducerSteps(w, 7 - k) ==
            w.(ring := w.ring.(head := Wrap32(head + 1), slots := w.ring.slots[SlotOf(head) := Describe(m, head)]),
               prod := PIdle, pushed := w.pushed + [m])
    decreases 6 - w.prod.k
  {
    hide Wrap32, SlotOf;
    var PWriting(m, head, k) := w.prod;
    var i := SlotOf(head);
    if k < 6 {
      RestOfPush(ProducerNext(w));
      assert ProducerNext(w).ring.slots[i := Describe(m, head)] == w.ring.slots[i := Describe(m, head)];
    } else {
      assert w.ring.slots[i := Describe(m, head)] == w.ring.slots;
      assert ProducerSteps(w, 1) == ProducerSteps(ProducerNext(w), 0);
    }
  }

  lemma {:induction false} RestOfPop(w: World)
    requires |w.ring.slots| == DESCS && w.cons.CReading? && w.cons.k <= 4
    requires Read(w.cons.part, Carried(w.ring.slots[SlotOf(w.cons.tail)]), w.cons.k)
    ensures var CReading(tail, k, _) := w.cons;
            ConsumerSteps(w, 5 - k) ==
            w.(ring := w.ring.(tail := Wrap32(tail + 1)), cons := CIdle,
               popped := w.popped + [Carried(w.ring.slots[SlotOf(tail)])])
    decreases 4 - w.cons.k
  {
    hide Wrap32, SlotOf;
    if w.cons.k < 4 {
      RestOfPop(ConsumerNext(w));
    } else {
      assert ConsumerSteps(w, 1) == ConsumerSteps(ConsumerNext(w), 0);
    }
  }

  /** The producer's eight steps, run alone, are one push: it succeeds exactly when fewer than
      64 messages are outstanding, and then publishes exactly its message. */
  lemma PushAlone(w: World, m: Msg)
    requires Inv(w) && w.prod.PIdle?
    ensures var start := Next(w, StartPush(m));
            match Push(w.ring, m)
            case None => |w.pushed| == |w.popped| + DESCS && ProducerSteps(start, 1) == w
            case Some(r) =>
              && |w.pushed| < |w.popped| + DESCS
              && ProducerSteps(start, 8) == w.(ring := r, pushed := w.pushed + [m])
  {
    hide Wrap32, SlotOf, Place;
    Wrapping(|w.pushed|, |w.popped|);
    var s1 := ProducerNext(Next(w, StartPush(m)));
    if s1.prod.PWriting? {
      RestOfPush(s1);
    } else {
      assert ProducerSteps(Next(w, StartPush(m)), 1) == ProducerSteps(s1, 0);
    }
  }

  /** The consumer's six steps, run alone, are one pop: it succeeds exactly when something is
      outstanding, and then takes the oldest message. */
  lemma PopAlone(w: World)
    requires Inv(w) && w.cons.CIdle?
    ensures var start := Next(w, StartPop);
            match Pop(w.ring)
            case None => |w.pushed| == |w.popped| && ConsumerSteps(start, 1) == w.(seen := |w.pushed|)
            case Some((r, m)) =>
              && |w.popped| < |w.pushed| && m == w.pushed[|w.popped|]
              && ConsumerSteps(start, 6) == w.(ring := r, popped := w.popped + [m], seen := |w.pushed|)
  {
    hide Wrap32, SlotOf, Place;
    Wrapping(|w.pushed|, |w.popped|);
    Wrapping(|w.popped|, |w.popped|);
    var s1 := ConsumerNext(Next(w, StartPop));
    if s1.cons.CReading? {
      assert Live(w, |w.popped|);
      RestOfPop(s1);
    } else {
      assert ConsumerSteps(Next(w, StartPop), 1) == ConsumerSteps(s1, 0);
    }
  }

  // ---- a head stored byte by byte -----------------------------------------------------------

  /** The head a reader sees after the first j byte stores of a little-endian update. */
  function TornHead(before: U32, after: U32, j: nat): (v: U32)
    requires j <= 4
  {
    LdLe32(StLe32(after)[..j] + StLe32(before)[j..])
  }

  /** The reader sees the old or the new head. */
  predicate Untorn(head: U32, j: nat)
    requires j <= 4
  {
    TornHead(head, Wrap32(head + 1), j) == head || TornHead(head, Wrap32(head + 1), j) == Wrap32(head + 1)
  }

  /** With no carry only the first byte changes. */
  lemma NoCarry(head: U32, j: nat)
    requires head % 0x100 != 0xFF && j <= 4
    ensures Untorn(head, j)
  {
    hide StLe32, LdLe32;
    var after := Wrap32(head + 1);
    var o, n := StLe32(head), StLe32(after);
    LoadStore32(head, []);
    LoadStore32(after, []);
    assert o + [] == o && n + [] == n;
    HighBytesStay(head);
    if j == 0 {
      assert n[..0] + o[0..] == o;
    } else {
      assert n[..j] + o[j..] == n;
    }
  }

  /** The bytes of a word above the lowest are those of its upper 24 bits. */
  lemma UpperBytes(q: nat, c: nat)
    requires q < 0x100_0000 && c < 0x100
    ensures StLe32(q * 0x100 + c) == [c, q % 0x100, q / 0x100 % 0x100, q / 0x1_0000]
  {
    var v := q * 0x100 + c;
    DivModUnique(v, 0x1_0000, q / 0x100, q % 0x100 * 0x100 + c);
    DivModUnique(q % 0x100 * 0x100 + c, 0x100, q % 0x100, c);
    DivModUnique(q / 0x100, 0x100, q / 0x1_0000, q / 0x100 % 0x100);
  }

  lemma HighBytesStay(head: U32)
    requires head % 0x100 != 0xFF
    ensures |StLe32(head)| == |StLe32(Wrap32(head + 1))| == 4
    ensures StLe32(Wrap32(head + 1))[1..] == StLe32(head)[1..]
  {
    var q, c := head / 0x100, head % 0x100;
    assert head == q * 0x100 + c && Wrap32(head + 1) == q * 0x100 + (c + 1);
    UpperBytes(q, c);
    UpperBytes(q, c + 1);
  }

  /** With a carry the first byte store alone moves the head back by 255. */
  lemma CarryTears(head: U32)
    requires head % 0x100 == 0xFF
    ensures TornHead(head, Wrap32(head + 1), 1) == head - 0xFF
    ensures !Untorn(head, 1)
  {
    hide StLe32, LdLe32;
    var q := head / 0x100;
    var up := if q == 0xFF_FFFF then 0 else q + 1;
    assert head == q * 0x100 + 0xFF && Wrap32(head + 1) == up * 0x100 + 0;
    UpperBytes(q, 0xFF);
    UpperBytes(up, 0);
    UpperBytes(q, 0);
    var o, n := StLe32(head), StLe32(up * 0x100 + 0);
    LoadStore32(q * 0x100 + 0, []);
    assert n[..1] + o[1..] == StLe32(q * 0x100 + 0) + [];
  }

  /** Publishing the head byte by byte instead of at once is invisible, every intermediate
      value being the old or the new head, exactly when the increment does not carry out of
      the lowest byte. */
  lemma TornHeadHarmlessIff(head: U32)
    ensures (forall j :: 0 <= j <= 4 ==> Untorn(head, j)) <==> head % 0x100 != 0xFF
  {
    hide Untorn;
    if head % 0x100 == 0xFF {
      CarryTears(head);
    } else {
      forall j | 0 <= j <= 4
        ensures Untorn(head, j)
      {
        NoCarry(head, j);
      }
    }
  }
}
