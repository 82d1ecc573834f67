/** The rings as they lie in the shared region: a 16-byte header and 64 little-endian
    descriptors of 32 bytes, pushed and popped in place. */
module RingBytes {
  import opened Words
  import opened Ring

  const HDR := 16
  const DESC_SIZE := 32
  const RING_SIZE := HDR + DESCS * DESC_SIZE

  function EncDesc(d: Desc): (b: seq<U8>)
  {
    StLe16(d.op) + StLe16(d.flags) + StLe32(d.seqno) + StLe64(d.a0) + StLe64(d.a1) + StLe64(d.a2)
  }

  function DecDesc(b: seq<U8>): (d: Desc)
    requires |b| == DESC_SIZE
  {
    Desc(LdLe16(b), LdLe16(b[2..]), LdLe32(b[4..]), LdLe64(b[8..]), LdLe64(b[16..]), LdLe64(b[24..]))
  }

  /** The bytes of descriptor i. */
  function Record(s: seq<U8>, i: nat): (b: seq<U8>)
    requires |s| == RING_SIZE && i < DESCS
    ensures |b| == DESC_SIZE
  {
    s[HDR + DESC_SIZE * i..HDR + DESC_SIZE * i + DESC_SIZE]
  }

  /** The ring a byte buffer stands for. */
  function Decode(s: seq<U8>): (r: Shared)
    requires |s| == RING_SIZE
    ensures |r.slots| == DESCS
  {
    Shared(LdLe32(s), LdLe32(s[4..]), seq(DESCS, i requires 0 <= i < DESCS => DecDesc(Record(s, i))))
  }

  lemma DescRoundTrip(d: Desc)
    ensures |EncDesc(d)| == DESC_SIZE && DecDesc(EncDesc(d)) == d
  {
    hide StLe32, LdLe32, StLe64, LdLe64;
    var t2 := StLe64(d.a2);
    var t1 := StLe64(d.a1) + t2;
    var t0 := StLe64(d.a0) + t1;
    var b := EncDesc(d);
    LoadStore32(d.seqno, t0);
    LoadStore64(d.a0, t1);
    LoadStore64(d.a1, t2);
    LoadStore64(d.a2, []);
    assert b[4..] == StLe32(d.seqno) + t0 && b[8..] == t0 && b[16..] == t1 && b[24..] == t2 + [];
  }

  /** A record-sized write replaces that record and no other, and leaves the header alone. */
  lemma SpliceRecord(s: seq<U8>, i: nat, d: seq<U8>)
    requires |s| == RING_SIZE && i < DESCS && |d| == DESC_SIZE
    ensures var s' := Splice(s, HDR + DESC_SIZE * i, d);
            && Record(s', i) == d && s'[..HDR] == s[..HDR]
            && forall j :: 0 <= j < DESCS && j != i ==> Record(s', j) == Record(s, j)
  {
    var s' := Splice(s, HDR + DESC_SIZE * i, d);
    forall j | 0 <= j < DESCS && j != i
      ensures Record(s', j) == Record(s, j)
    {
      if j < i {
        assert HDR + DESC_SIZE * j + DESC_SIZE <= HDR + DESC_SIZE * i;
      } else {
        assert HDR + DESC_SIZE * i + DESC_SIZE <= HDR + DESC_SIZE * j;
      }
    }
  }

  lemma DecodeSameHeader(s: seq<U8>, s': seq<U8>)
    requires |s| == |s'| == RING_SIZE && s[..HDR] == s'[..HDR]
    ensures Decode(s').head == Decode(s).head && Decode(s').tail == Decode(s).tail
  {
    assert forall j :: 0 <= j < HDR ==> s[..HDR][j] == s'[..HDR][j];
  }

  lemma DecodeDesc(s: seq<U8>, i: nat, d: Desc)
    requires |s| == RING_SIZE && i < DESCS
    ensures |EncDesc(d)| == DESC_SIZE
    ensures Decode(Splice(s, HDR + DESC_SIZE * i, EncDesc(d))) == Decode(s).(slots := Decode(s).slots[i := d])
  {
    hide EncDesc, DecDesc, Record, LdLe32;
    DescRoundTrip(d);
    SpliceRecord(s, i, EncDesc(d));
    DecodeSameHeader(s, Splice(s, HDR + DESC_SIZE * i, EncDesc(d)));
  }

  /** Writing the head or the tail changes just that. */
  lemma DecodeIndex(s: seq<U8>, v: U32)
    requires |s| == RING_SIZE
    ensures |StLe32(v)| == 4
    ensures Decode(Splice(s, 0, StLe32(v))) == Decode(s).(head := v)
    ensures Decode(Splice(s, 4, StLe32(v))) == Decode(s).(tail := v)
  {
    hide StLe32, LdLe32, DecDesc;
    LoadStore32(v, s[4..]);
    LoadStore32(v, s[8..]);
    var h, t := Splice(s, 0, StLe32(v)), Splice(s, 4, StLe32(v));
    assert h == StLe32(v) + s[4..] && h[4..] == s[4..];
    assert t[4..] == StLe32(v) + s[8..];
    assert LdLe32(t) == LdLe32(s) by { FirstWord(t, s); }
    assert forall i :: 0 <= i < DESCS ==> Record(h, i) == Record(s, i) && Record(t, i) == Record(s, i);
  }

  lemma FirstWord(a: seq<U8>, b: seq<U8>)
    requires |a| >= 4 && |b| >= 4 && a[..4] == b[..4]
    ensures LdLe32(a) == LdLe32(b)
  {
    assert forall i :: 0 <= i < 4 ==> a[..4][i] == b[..4][i];
  }

  lemma IndexWords(s: seq<U8>)
    requires |s| == RING_SIZE
    ensures LdLe32(s[..4]) == Decode(s).head && LdLe32(s[4..8]) == Decode(s).tail
  {
    FirstWord(s[..4], s);
    assert s[4..][..4] == s[4..8][..4];
    FirstWord(s[4..8], s[4..]);
  }

  /** Clears the ring to empty. */
  method InitRing(buf: array<U8>)
    requires buf.Length == RING_SIZE
    modifies buf
    ensures Decode(buf[..]) == Ring.Init().ring
  {
    forall i | 0 <= i < buf.Length {
      buf[i] := 0;
    }
    var s := buf[..];
    forall i | 0 <= i < DESCS
      ensures DecDesc(Record(s, i)) == ZERO_DESC
    {
      assert forall j :: 0 <= j < DESC_SIZE ==> Record(s, i)[j] == 0;
    }
  }

  /** Stores a whole descriptor, field by field. */
  method StoreDesc(buf: array<U8>, i: nat, d: Desc)
    requires buf.Length == RING_SIZE && i < DESCS
    modifies buf
    ensures Decode(buf[..]) == Decode(old(buf[..])).(slots := Decode(old(buf[..])).slots[i := d])
  {
    hide StLe16, StLe32, StLe64, Decode, Splice;
    DescRoundTrip(d);
    LoadStore16(d.op, []); LoadStore16(d.flags, []); LoadStore32(d.seqno, []);
    LoadStore64(d.a0, []); LoadStore64(d.a1, []); LoadStore64(d.a2, []);
    ghost var s := buf[..];
    var off := HDR + DESC_SIZE * i;
    Store(buf, off, StLe16(d.op));
    Store(buf, off + 2, StLe16(d.flags));
    Store(buf, off + 4, StLe32(d.seqno));
    SpliceSplice(s, off, StLe16(d.op), StLe16(d.flags));
    SpliceSplice(s, off, StLe16(d.op) + StLe16(d.flags), StLe32(d.seqno));
    StoreArgs(buf, off + 8, d);
    SpliceSplice(s, off, StLe16(d.op) + StLe16(d.flags) + StLe32(d.seqno), StLe64(d.a0) + StLe64(d.a1) + StLe64(d.a2));
    assert EncDesc(d) == StLe16(d.op) + StLe16(d.flags) + StLe32(d.seqno)
                         + (StLe64(d.a0) + StLe64(d.a1) + StLe64(d.a2));
    DecodeDesc(s, i, d);
  }

  method StoreArgs(buf: array<U8>, off: nat, d: Desc)
    requires off + 24 <= buf.Length
    modifies buf
    ensures |StLe64(d.a0) + StLe64(d.a1) + StLe64(d.a2)| == 24
    ensures buf[..] == Splice(old(buf[..]), off, StLe64(d.a0) + StLe64(d.a1) + StLe64(d.a2))
  {
    hide StLe64, Splice;
    LoadStore64(d.a0, []); LoadStore64(d.a1, []); LoadStore64(d.a2, []);
    ghost var s := buf[..];
    Store(buf, off, StLe64(d.a0));
    Store(buf, off + 8, StLe64(d.a1));
    Store(buf, off + 16, StLe64(d.a2));
    SpliceSplice(s, off, StLe64(d.a0), StLe64(d.a1));
    SpliceSplice(s, off, StLe64(d.a0) + StLe64(d.a1), StLe64(d.a2));
  }

  /** Appends a message, or leaves a full ring untouched. */
  method PushMsg(buf: array<U8>, m: Msg) returns (ok: bool)
    requires buf.Length == RING_SIZE
    modifies buf
    ensures match Push(Decode(old(buf[..])), m)
            case None => !ok && buf[..] == old(buf[..])
            case Some(r) => ok && Decode(buf[..]) == r
  {
    hide DecDesc, Describe, StLe32;
    var head: int, tail: int := LdLe32(buf[..4]), LdLe32(buf[4..8]);
    IndexWords(buf[..]);
    assert buf[..4] == buf[..][..4] && buf[4..8] == buf[..][4..8];
    if Wrap32(head - tail) >= DESCS { return false; }
    StoreDesc(buf, SlotOf(head), Describe(m, head));
    DecodeIndex(buf[..], Wrap32(head + 1));
    Store(buf, 0, StLe32(Wrap32(head + 1)));
    return true;
  }

  /** Takes the oldest message, or nothing from an empty ring. */
  method PopMsg(buf: array<U8>) returns (m: Option<Msg>)
    requires buf.Length == RING_SIZE
    modifies buf
    ensures match Pop(Decode(old(buf[..])))
            case None => m.None? && buf[..] == old(buf[..])
            case Some((r, taken)) => m == Some(taken) && Decode(buf[..]) == r
  {
    hide DecDesc, StLe32;
    var head: int, tail: int := LdLe32(buf[..4]), LdLe32(buf[4..8]);
    IndexWords(buf[..]);
    assert buf[..4] == buf[..][..4] && buf[4..8] == buf[..][4..8];
    if head == tail { return None; }
    var off := HDR + DESC_SIZE * SlotOf(tail);
    var d := DecDesc(buf[off..off + DESC_SIZE]);
    assert buf[off..off + DESC_SIZE] == Record(buf[..], SlotOf(tail));
    DecodeIndex(buf[..], Wrap32(tail + 1));
    Store(buf, 4, StLe32(Wrap32(tail + 1)));
    return Some(Carried(d));
  }
}
