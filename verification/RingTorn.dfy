/** What a consumer that pops until the ring is empty takes while the head is being stored byte
    by byte: when that is harmless, what goes wrong otherwise, and a schedule that gets there. */
module RingTorn {
  import opened Words
  import opened Ring

  /** The ring as loads see it after j of the four byte stores of a publication. */
  function During(w: World, j: nat): (r: Shared)
    requires |w.ring.slots| == DESCS && w.prod.PWriting? && j <= 4
    ensures |r.slots| == DESCS
  {
    w.ring.(head := TornHead(w.prod.head, Wrap32(w.prod.head + 1), j))
  }

  /** The descriptor is complete; only the head is still to be stored. */
  ghost predicate Publishing(w: World) { Inv(w) && w.prod.PWriting? && w.prod.k == 6 }

  lemma {:induction false} DrainedLength(r: Shared)
    requires |r.slots| == DESCS
    ensures |Drained(r)| == Wrap32(r.head - r.tail)
    decreases Wrap32(r.head - r.tail)
  {
    if r.head != r.tail {
      OneFewer(r.head, r.tail);
      DrainedLength(r.(tail := Wrap32(r.tail + 1)));
    } else {
      assert Wrap32(0) == 0;
    }
  }

  /** Heads further on only add messages behind. */
  lemma {:induction false} DrainedPrefix(r: Shared, h: U32)
    requires |r.slots| == DESCS && Wrap32(r.head - r.tail) <= Wrap32(h - r.tail)
    ensures Drained(r) <= Drained(r.(head := h))
    decreases Wrap32(r.head - r.tail)
  {
    if r.head != r.tail {
      var next := r.(tail := Wrap32(r.tail + 1));
      Distance(r.head, r.tail);
      assert h != r.tail;
      OneFewer(r.head, r.tail);
      OneFewer(h, r.tail);
      DrainedPrefix(next, h);
      assert Drained(r) == [Carried(r.slots[SlotOf(r.tail)])] + Drained(next);
      assert Drained(r.(head := h)) == [Carried(r.slots[SlotOf(r.tail)])] + Drained(next.(head := h));
    }
  }

  lemma Distance(h: U32, t: U32)
    ensures Wrap32(h - t) == (if h >= t then h - t else h - t + 0x1_0000_0000)
  {
  }

  /** Before and after the publication: the outstanding messages, then also the one published. */
  lemma OldAndNew(w: World)
    requires Publishing(w)
    ensures Drained(w.ring) == w.pushed[|w.popped|..]
    ensures Drained(w.ring.(head := Wrap32(w.prod.head + 1))) == w.pushed[|w.popped|..] + [w.prod.msg]
    ensures w.prod.head == w.ring.head == Wrap32(|w.pushed|) && w.ring.tail == Wrap32(|w.popped|)
    ensures |w.popped| <= |w.pushed| < |w.popped| + DESCS && |w.ring.slots| == DESCS
  {
    hide Drained, Place, Wrap32;
    DrainedIsOutstanding(w);
    ProducerKeepsInv(w);
    var w' := ProducerNext(w);
    DrainedIsOutstanding(w');
    assert w'.ring == w.ring.(head := Wrap32(w.prod.head + 1));
    assert w'.pushed[|w.popped|..] == w.pushed[|w.popped|..] + [w.prod.msg];
  }

  /** Draining in the middle of a publication takes what draining before or after it takes, at
      every point of the byte stores, if and only if the increment does not carry out of the
      lowest byte; this for any number of outstanding messages. */
  lemma TornDrainIff(w: World)
    requires Publishing(w)
    ensures (forall j :: 0 <= j <= 4 ==>
               Drained(During(w, j)) == Drained(w.ring) || Drained(During(w, j)) == Drained(w.ring.(head := Wrap32(w.prod.head + 1))))
            <==> w.prod.head % 0x100 != 0xFF
  {
    hide Drained, TornHead, Inv;
    var head := w.prod.head;
    OldAndNew(w);
    if head % 0x100 == 0xFF {
      TornDrainOverruns(w);
      assert Drained(During(w, 1)) != Drained(w.ring);
    } else {
      forall j | 0 <= j <= 4
        ensures Drained(During(w, j)) == Drained(w.ring) || Drained(During(w, j)) == Drained(w.ring.(head := Wrap32(head + 1)))
      {
        NoCarry(head, j);
      }
    }
  }

  /** With a carry, draining after the first byte store takes the outstanding messages, the one
      being published, and then billions of descriptors nobody published. */
  lemma TornDrainOverruns(w: World)
    requires Publishing(w) && w.prod.head % 0x100 == 0xFF
    ensures var n := |w.pushed| - |w.popped|;
            && |Drained(During(w, 1))| == 0x1_0000_0000 + n - 0xFF > n + 1
            && w.pushed[|w.popped|..] + [w.prod.msg] <= Drained(During(w, 1))
  {
    hide Drained, TornHead, Inv;
    var head, n := w.prod.head, |w.pushed| - |w.popped|;
    OldAndNew(w);
    CarryTears(head);
    var r := During(w, 1);
    assert r.head == head - 0xFF && r.tail == w.ring.tail;
    Distances(head, r.tail, |w.pushed|, |w.popped|);
    DrainedLength(r);
    DrainedPrefix(w.ring.(head := Wrap32(w.prod.head + 1)), r.head);
  }

  lemma Distances(head: U32, tail: U32, a: nat, b: nat)
    requires b <= a < b + DESCS && head == Wrap32(a) && tail == Wrap32(b) && head >= 0xFF
    ensures Wrap32(head - 0xFF - tail) == 0x1_0000_0000 + (a - b) - 0xFF
    ensures Wrap32(Wrap32(head + 1) - tail) == a - b + 1
  {
    hide Place, SlotOf;
    Wrapping(a, b);
    Wrapping(a + 1, b);
    Distance(head, tail);
    Distance(head - 0xFF, tail);
  }

  // ---- a schedule that gets there --------------------------------------------------------------

  lemma {:induction false} ExecProducer(s: seq<Action>, n: nat)
    ensures Exec(s + seq(n, _ => ProducerStep)) == ProducerSteps(Exec(s), n)
    decreases n
  {
    var steps := seq(n, _ => ProducerStep);
    if n == 0 {
      assert s + steps == s;
    } else {
      var first := s + [ProducerStep];
      assert first[..|s|] == s;
      assert s + steps == first + seq(n - 1, _ => ProducerStep);
      ExecProducer(first, n - 1);
    }
  }

  lemma {:induction false} ExecConsumer(s: seq<Action>, n: nat)
    ensures Exec(s + seq(n, _ => ConsumerStep)) == ConsumerSteps(Exec(s), n)
    decreases n
  {
    var steps := seq(n, _ => ConsumerStep);
    if n == 0 {
      assert s + steps == s;
    } else {
      var first := s + [ConsumerStep];
      assert first[..|s|] == s;
      assert s + steps == first + seq(n - 1, _ => ConsumerStep);
      ExecConsumer(first, n - 1);
    }
  }

  /** A push, and a push followed by a pop, each run to its end. */
  function PushActions(m: Msg): (s: seq<Action>) { [StartPush(m)] + seq(8, _ => ProducerStep) }

  function PopActions(): (s: seq<Action>) { [StartPop] + seq(6, _ => ConsumerStep) }

  /** Both ends at rest, after so many pushes and pops. */
  ghost predicate AtRest(w: World, pushed: nat, popped: nat)
  {
    Inv(w) && w.prod.PIdle? && w.cons.CIdle? && |w.pushed| == pushed && |w.popped| == popped
  }

  lemma OnePush(s: seq<Action>, m: Msg, a: nat, b: nat)
    requires AtRest(Exec(s), a, b) && a < b + DESCS
    ensures AtRest(Exec(s + PushActions(m)), a + 1, b)
  {
    hide Inv;
    var w, started := Exec(s), s + [StartPush(m)];
    assert started[..|s|] == s;
    ExecProducer(started, 8);
    assert s + PushActions(m) == started + seq(8, _ => ProducerStep);
    PushAlone(w, m);
    EverySchedule(s + PushActions(m));
  }

  lemma OnePop(s: seq<Action>, a: nat, b: nat)
    requires AtRest(Exec(s), a, b) && b < a
    ensures AtRest(Exec(s + PopActions()), a, b + 1)
  {
    hide Inv;
    var w, started := Exec(s), s + [StartPop];
    assert started[..|s|] == s;
    ExecConsumer(started, 6);
    assert s + PopActions() == started + seq(6, _ => ConsumerStep);
    PopAlone(w);
    EverySchedule(s + PopActions());
  }

  /** Every count of pushes and pops the ring allows is reached. */
  lemma {:induction false} RestReached(m: Msg, a: nat, b: nat) returns (s: seq<Action>)
    requires b <= a <= b + DESCS
    ensures AtRest(Exec(s), a, b)
    decreases a + b
  {
    if a == 0 {
      s := [];
      EverySchedule([]);
    } else if a > b {
      s := RestReached(m, a - 1, b);
      OnePush(s, m, a - 1, b);
      s := s + PushActions(m);
    } else {
      s := RestReached(m, a, b - 1);
      OnePop(s, a, b - 1);
      s := s + PopActions();
    }
  }

  lemma {:induction false} StoresFinish(w: World)
    requires |w.ring.slots| == DESCS && w.prod.PWriting? && w.prod.k <= 6
    ensures var r := ProducerSteps(w, 6 - w.prod.k);
            r.prod == PWriting(w.prod.msg, w.prod.head, 6) && r.pushed == w.pushed && r.popped == w.popped
    decreases 6 - w.prod.k
  {
    if w.prod.k < 6 { StoresFinish(ProducerNext(w)); }
  }

  /** For every number of outstanding messages some schedule stops a publication right before a
      head store that carries. */
  lemma TearingReached(m: Msg, outstanding: nat)
    requires outstanding < DESCS
    ensures exists s :: Publishing(Exec(s)) && Exec(s).prod.head % 0x100 == 0xFF
                        && |Exec(s).pushed| - |Exec(s).popped| == outstanding
  {
    hide Inv;
    var s := RestReached(m, 0xFF, 0xFF - outstanding);
    var w, started := Exec(s), s + [StartPush(m)];
    assert started[..|s|] == s;
    var w1 := Exec(started);
    RestIndices(w, 0xFF, 0xFF - outstanding);
    var w2 := ProducerNext(w1);
    assert w2.prod == PWriting(m, w.ring.head, 0);
    StoresFinish(w2);
    assert ProducerSteps(w1, 7) == ProducerSteps(w2, 6);
    ExecProducer(started, 7);
    var done := started + seq(7, _ => ProducerStep);
    EverySchedule(done);
    assert Publishing(Exec(done));
  }

  lemma RestIndices(w: World, a: nat, b: nat)
    requires AtRest(w, a, b) && b <= a < b + DESCS && a < 0x1_0000_0000
    ensures w.ring.head == a && Wrap32(w.ring.head - w.ring.tail) == a - b && |w.ring.slots| == DESCS
  {
    hide Place, SlotOf;
    Wrapping(a, b);
  }
}
