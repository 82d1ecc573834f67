/** A bank of the shared model memory: its directory, the references into its arena,
    and the record of models and tables a reader gets by following them. */
module Banks {
  import opened Words
  import opened Policy

  const ALIGN := 64
  const TLV_SIZE := 24
  const KINDS := 5
  const SIG_SIZE := 72
  const IOC_SIZE := 24

  /** The least multiple of 64 not below x. */
  function AlignUp(x: nat): (r: nat)
    ensures r % ALIGN == 0 && x <= r < x + ALIGN
  {
    (x + ALIGN - 1) / ALIGN * ALIGN
  }

  /** Adding 63 and clearing the low six bits of a 64-bit word aligns it. */
  lemma AlignUpIsMask(x: nat)
    requires x + ALIGN - 1 < Pow2(64)
    ensures Pow2(64) >= ALIGN && BitAnd(x + ALIGN - 1, Pow2(64) - ALIGN) == AlignUp(x)
  {
    hide Pow2, BitAnd;
    SixBits();
    BitAndHighMask(x + ALIGN - 1, 64, 6);
    LowBitsIsMod(x + ALIGN - 1, 6);
  }

  lemma SixBits()
    ensures Pow2(6) == ALIGN
  {
    assert Pow2(3) == 8;
    Pow2Add(3, 3);
  }

  // ---- directory -----------------------------------------------------------------

  /** One entry of the model directory; offset is where the payload starts. */
  datatype Slot = Slot(present: bool, offset: int, size: nat, version: U32, crc: U32)

  const NO_SLOT := Slot(false, 0, 0, 0, 0)

  /** A pointer into the arena and the number of elements behind it. */
  datatype Ref = Ref(ptr: Option<int>, n: nat)

  const NO_REF := Ref(None, 0)

  datatype Hot = Hot(sid: U32, verdict: U8, sha: seq<U8>, ts: U64)

  const NO_HOT := Hot(0, 0, seq(32, i => 0), 0)

  datatype Bank = Bank(
    stamp: U32, count: U32, used: nat, slots: seq<Slot>,
    mlVersion: U32, mlFeatures: U32, mlKind: U8, tree: Ref, ngram: Ref,
    policy: Ref, tiSeq: U32, sig: Ref, ioc: Ref, hot: Hot)

  const ZERO_BANK := Bank(0, 0, 0, seq(KINDS, i => NO_SLOT), 0, 0, 0, NO_REF, NO_REF, NO_REF, 0, NO_REF, NO_REF, NO_HOT)

  // ---- what a reader sees ------------------------------------------------------------

  datatype Model = Model(payload: seq<U8>, version: U32, crc: U32)
  datatype Ml = Ml(version: U32, features: U32, kind: U8, tree: seq<U8>, ngram: seq<U8>)

  /** Threat-intelligence rows, without the pointers in them: the bytes of the plain columns. */
  datatype Intel = Intel(seqno: U32, sigs: seq<seq<U8>>, iocs: seq<seq<U8>>)

  /** The contents of a bank with every offset and pointer followed. */
  datatype Record = Record(
    used: nat, count: U32, models: seq<Option<Model>>, ml: Ml, policy: seq<PolicyRow>, intel: Intel, hot: Hot)

  function Bytes(m: seq<U8>, p: int, n: nat): (b: seq<U8>)
  {
    if 0 <= p && p + n <= |m| then m[p..p + n] else []
  }

  function Fetch(m: seq<U8>, r: Ref, bytes: nat): (b: seq<U8>)
  {
    if r.ptr.Some? then Bytes(m, r.ptr.value, bytes) else []
  }

  function ModelOf(m: seq<U8>, s: Slot): (r: Option<Model>)
  {
    if s.present then Some(Model(Bytes(m, s.offset, s.size), s.version, s.crc)) else None
  }

  function View(m: seq<U8>, bk: Bank): (r: Record)
  {
    Record(bk.used, bk.count,
           seq(|bk.slots|, i requires 0 <= i < |bk.slots| => ModelOf(m, bk.slots[i])),
           Ml(bk.mlVersion, bk.mlFeatures, bk.mlKind, Fetch(m, bk.tree, bk.tree.n), Fetch(m, bk.ngram, bk.ngram.n)),
           DecRows(Fetch(m, bk.policy, ROW_SIZE * bk.policy.n)),
           Intel(bk.tiSeq, Columns(Fetch(m, bk.sig, SIG_SIZE * bk.sig.n), SIG_SIZE, bk.sig.n, SIG_COLUMNS),
                 Columns(Fetch(m, bk.ioc, IOC_SIZE * bk.ioc.n), IOC_SIZE, bk.ioc.n, IOC_COLUMNS)),
           bk.hot)
  }

  // ---- threat-intelligence rows in memory ------------------------------------------------

  /** Where the plain columns of a row lie: sid, severity and verdict of a signature, the
      verdict of an indicator. */
  const SIG_COLUMNS: seq<nat> := [0, 1, 2, 3, 56, 57]
  const IOC_COLUMNS: seq<nat> := [16]

  function RowOf(b: seq<U8>, stride: nat, i: nat): (r: seq<U8>)
  {
    if stride * i + stride <= |b| then b[stride * i..stride * i + stride] else []
  }

  function Cols(row: seq<U8>, columns: seq<nat>): (r: seq<U8>)
  {
    seq(|columns|, k requires 0 <= k < |columns| => if columns[k] < |row| then row[columns[k]] else 0)
  }

  function Columns(b: seq<U8>, stride: nat, n: nat, columns: seq<nat>): (r: seq<seq<U8>>)
  {
    seq(n, i requires 0 <= i < n => Cols(RowOf(b, stride, i), columns))
  }

  lemma RowsApart(c: nat, i: nat, j: nat)
    requires i < j
    ensures c * i + c <= c * j
  {
    var k := j - i - 1;
    assert c * k >= 0;
    assert j == i + 1 + k;
  }

  /** A write inside row j changes row j and no other. */
  lemma RowSplice(b: seq<U8>, stride: nat, n: nat, j: nat, f: nat, d: seq<U8>, i: nat)
    requires |b| == stride * n && i < n && j < n && f + |d| <= stride && stride > 0
    ensures stride * j + f + |d| <= |b| && |RowOf(b, stride, j)| == |RowOf(b, stride, i)| == stride
    ensures RowOf(Splice(b, stride * j + f, d), stride, i)
            == if i == j then Splice(RowOf(b, stride, j), f, d) else RowOf(b, stride, i)
  {
    RowsApart(stride, j, n);
    RowsApart(stride, i, n);
    if i < j { RowsApart(stride, i, j); }
    if j < i { RowsApart(stride, j, i); }
    RowAt(b, stride, i, stride * i);
    RowAt(b, stride, j, stride * j);
    RowAt(Splice(b, stride * j + f, d), stride, i, stride * i);
    hide Splice, RowOf;
    RowSpliceAt(b, stride, stride * j, f, d, stride * i);
    assert i == j <==> stride * i == stride * j;
  }

  lemma RowAt(b: seq<U8>, stride: nat, i: nat, x: nat)
    requires x == stride * i && x + stride <= |b|
    ensures RowOf(b, stride, i) == b[x..x + stride]
  {
  }

  lemma RowSpliceAt(b: seq<U8>, stride: nat, y: nat, f: nat, d: seq<U8>, x: nat)
    requires x + stride <= |b| && y + stride <= |b| && f + |d| <= stride
    requires x == y || x + stride <= y || y + stride <= x
    ensures Splice(b, y + f, d)[x..x + stride]
            == if x == y then Splice(b[y..y + stride], f, d) else b[x..x + stride]
  {
    hide Splice;
    SpliceSlice(b, y + f, d, x, stride);
  }

  /** A slice of a spliced sequence, when the splice lies inside or outside the slice. */
  lemma SpliceSlice(b: seq<U8>, p: nat, d: seq<U8>, x: nat, n: nat)
    requires p + |d| <= |b| && x + n <= |b|
    ensures x + n <= p || p + |d| <= x ==> Splice(b, p, d)[x..x + n] == b[x..x + n]
    ensures x <= p && p + |d| <= x + n ==> Splice(b, p, d)[x..x + n] == Splice(b[x..x + n], p - x, d)
  {
    hide Splice;
    if x + n <= p || p + |d| <= x { SpliceElsewhere(b, p, d, x, x + n); }
    if x <= p && p + |d| <= x + n { SpliceInside(b, p, d, x, n); }
  }

  lemma SpliceInside(b: seq<U8>, p: nat, d: seq<U8>, x: nat, n: nat)
    requires x <= p && p + |d| <= x + n <= |b|
    ensures Splice(b, p, d)[x..x + n] == Splice(b[x..x + n], p - x, d)
  {
    var a, c := Splice(b, p, d), Splice(b[x..x + n], p - x, d);
    forall i | 0 <= i < n
      ensures a[x + i] == c[i]
    {
      SpliceAt(b, p, d, x + i);
      SpliceAt(b[x..x + n], p - x, d, i);
    }
    hide Splice;
    var t := a[x..x + n];
    assert forall i :: 0 <= i < n ==> t[i] == a[x + i];
  }

  lemma SpliceAt(b: seq<U8>, p: nat, d: seq<U8>, i: nat)
    requires p + |d| <= |b| && i < |b|
    ensures Splice(b, p, d)[i] == if p <= i < p + |d| then d[i - p] else b[i]
  {
  }

  /** The write of d at f in a row misses every column. */
  ghost predicate Misses(columns: seq<nat>, f: nat, n: nat)
  {
    forall k :: 0 <= k < |columns| ==> columns[k] < f || f + n <= columns[k]
  }

  lemma ColumnsKept(b: seq<U8>, stride: nat, n: nat, columns: seq<nat>, j: nat, f: nat, d: seq<U8>)
    requires |b| == stride * n && j < n && stride > 0 && f + |d| <= stride && Misses(columns, f, |d|)
    ensures stride * j + f + |d| <= |b|
    ensures Columns(Splice(b, stride * j + f, d), stride, n, columns) == Columns(b, stride, n, columns)
  {
    hide RowOf, Splice;
    RowSplice(b, stride, n, j, f, d, j);
    forall i | 0 <= i < n
      ensures Cols(RowOf(Splice(b, stride * j + f, d), stride, i), columns) == Cols(RowOf(b, stride, i), columns)
    {
      RowSplice(b, stride, n, j, f, d, i);
      if i == j { ColsKept(RowOf(b, stride, j), columns, f, d); }
    }
  }

  lemma ColsKept(row: seq<U8>, columns: seq<nat>, f: nat, d: seq<U8>)
    requires f + |d| <= |row| && Misses(columns, f, |d|)
    ensures Cols(Splice(row, f, d), columns) == Cols(row, columns)
  {
  }

  lemma ColumnsSet(b: seq<U8>, stride: nat, n: nat, columns: seq<nat>, j: nat, row: seq<U8>)
    requires |b| == stride * n && j < n && stride > 0 && |row| == stride
    ensures stride * j + stride <= |b|
    ensures Columns(Splice(b, stride * j, row), stride, n, columns) == Columns(b, stride, n, columns)[j := Cols(row, columns)]
  {
    hide RowOf, Splice, Cols;
    RowSplice(b, stride, n, j, 0, row, j);
    WholeSplice(RowOf(b, stride, j), row);
    forall i | 0 <= i < n
      ensures RowOf(Splice(b, stride * j, row), stride, i) == if i == j then row else RowOf(b, stride, i)
    {
      RowSplice(b, stride, n, j, 0, row, i);
    }
  }

  lemma WholeSplice(b: seq<U8>, d: seq<U8>)
    requires |b| == |d|
    ensures Splice(b, 0, d) == d
  {
  }

  // ---- policy rows in memory ------------------------------------------------------------

  /** A policy row as the host lays it out: every field little-endian. */
  function EncRow(r: PolicyRow): (b: seq<U8>)
  {
    StLe32(r.srcIp) + StLe32(r.srcMask) + StLe32(r.dstIp) + StLe32(r.dstMask) + EncRest(r)
  }

  function EncRest(r: PolicyRow): (b: seq<U8>)
  {
    StLe16(r.sportLo) + StLe16(r.sportHi) + StLe16(r.dportLo) + StLe16(r.dportHi)
    + [r.proto, r.vsys, r.action, r.flags] + StLe16(r.egress) + StLe16(r.ruleId)
  }

  function DecRow(b: seq<U8>): (r: PolicyRow)
    requires |b| == ROW_SIZE
  {
    PolicyRow(LdLe32(b), LdLe32(b[4..]), LdLe32(b[8..]), LdLe32(b[12..]),
              LdLe16(b[16..]), LdLe16(b[18..]), LdLe16(b[20..]), LdLe16(b[22..]),
              b[24], b[25], b[26], b[27], LdLe16(b[28..]), LdLe16(b[30..]))
  }

  function DecRows(b: seq<U8>): (rows: seq<PolicyRow>)
  {
    seq(|b| / ROW_SIZE, i requires 0 <= i < |b| / ROW_SIZE => DecRow(b[ROW_SIZE * i..ROW_SIZE * i + ROW_SIZE]))
  }

  function EncRows(rows: seq<PolicyRow>): (b: seq<U8>)
  {
    if rows == [] then [] else EncRows(rows[..|rows| - 1]) + EncRow(rows[|rows| - 1])
  }

  lemma HostRowRoundTrip(r: PolicyRow)
    ensures |EncRow(r)| == ROW_SIZE && DecRow(EncRow(r)) == r
  {
    hide StLe32, LdLe32;
    var t := EncRest(r);
    var t3 := StLe32(r.dstMask) + t;
    var t2 := StLe32(r.dstIp) + t3;
    var t1 := StLe32(r.srcMask) + t2;
    LoadStore32(r.srcIp, t1);
    LoadStore32(r.srcMask, t2);
    LoadStore32(r.dstIp, t3);
    LoadStore32(r.dstMask, t);
    var b := EncRow(r);
    assert b == StLe32(r.srcIp) + t1 && b[4..] == t1 && b[8..] == t2 && b[12..] == t3 && b[16..] == t;
    RestRoundTrip(r, b[16..]);
    assert b[18..] == t[2..] && b[20..] == t[4..] && b[22..] == t[6..] && b[28..] == t[12..] && b[30..] == t[14..];
    assert b[24] == t[8] && b[25] == t[9] && b[26] == t[10] && b[27] == t[11];
  }

  lemma RestRoundTrip(r: PolicyRow, t: seq<U8>)
    requires t == EncRest(r)
    ensures |t| == 16 && LdLe16(t) == r.sportLo && LdLe16(t[2..]) == r.sportHi && LdLe16(t[4..]) == r.dportLo
    ensures LdLe16(t[6..]) == r.dportHi && t[8] == r.proto && t[9] == r.vsys && t[10] == r.action && t[11] == r.flags
    ensures LdLe16(t[12..]) == r.egress && LdLe16(t[14..]) == r.ruleId
  {
  }

  /** A table of rows written to memory reads back row for row. */
  lemma {:induction false} RowsRoundTrip(rows: seq<PolicyRow>)
    ensures |EncRows(rows)| == ROW_SIZE * |rows| && DecRows(EncRows(rows)) == rows
  {
    hide EncRow, DecRow;
    if rows != [] {
      var n := |rows| - 1;
      RowsRoundTrip(rows[..n]);
      HostRowRoundTrip(rows[n]);
      var b, c := EncRows(rows[..n]), EncRows(rows);
      assert c[..ROW_SIZE * n] == b && c[ROW_SIZE * n..ROW_SIZE * n + ROW_SIZE] == EncRow(rows[n]);
      forall i | 0 <= i < n
        ensures DecRows(c)[i] == rows[i]
      {
        assert DecRows(b)[i] == rows[..n][i];
        assert c[ROW_SIZE * i..ROW_SIZE * i + ROW_SIZE] == b[ROW_SIZE * i..ROW_SIZE * i + ROW_SIZE];
      }
    }
  }

  // ---- well-formed banks -------------------------------------------------------------------

  ghost predicate InArena(p: int, bytes: nat, off: int, used: nat)
  {
    off <= p && p + bytes <= off + used
  }

  ghost predicate RefOk(r: Ref, bytes: nat, off: int, used: nat)
  {
    if r.ptr.Some? then InArena(r.ptr.value, bytes, off, used) else r.n == 0
  }

  /** Everything the directory names lies in the used part of the arena. */
  ghost predicate DirOk(bk: Bank, off: int)
  {
    && |bk.slots| == KINDS
    && (forall i :: 0 <= i < KINDS && bk.slots[i].present ==> InArena(bk.slots[i].offset, bk.slots[i].size, off, bk.used))
    && RefOk(bk.tree, bk.tree.n, off, bk.used) && RefOk(bk.ngram, bk.ngram.n, off, bk.used)
    && RefOk(bk.policy, ROW_SIZE * bk.policy.n, off, bk.used)
    && RefOk(bk.sig, SIG_SIZE * bk.sig.n, off, bk.used) && RefOk(bk.ioc, IOC_SIZE * bk.ioc.n, off, bk.used)
  }

  ghost predicate BankOk(m: seq<U8>, bk: Bank, off: int, size: nat)
  {
    0 <= off && off + size <= |m| && bk.used <= size && DirOk(bk, off)
  }

  // ---- moving a bank ------------------------------------------------------------------------

  function ShiftSlot(s: Slot, d: int): (r: Slot)
  {
    if s.present then s.(offset := s.offset + d) else s
  }

  function ShiftRef(r: Ref, d: int): (r': Ref)
  {
    if r.ptr.Some? then r.(ptr := Some(r.ptr.value + d)) else r
  }

  /** Directory entries that are present move with their arena. */
  method ShiftSlots(slots: seq<Slot>, d: int) returns (r: seq<Slot>)
    ensures |r| == |slots| && forall i :: 0 <= i < |slots| ==> r[i] == ShiftSlot(slots[i], d)
  {
    r := slots;
    for i := 0 to |slots|
      invariant |r| == |slots| && (forall j :: 0 <= j < i ==> r[j] == ShiftSlot(slots[j], d))
      invariant r[i..] == slots[i..]
    {
      if r[i].present { r := r[i := r[i].(offset := r[i].offset + d)]; }
    }
  }

  /** bk' is bk with every offset and pointer moved by d; the stamp is free. */
  ghost predicate Moved(bk: Bank, bk': Bank, d: int)
  {
    && |bk'.slots| == |bk.slots|
    && (forall i :: 0 <= i < |bk.slots| ==> bk'.slots[i] == ShiftSlot(bk.slots[i], d))
    && bk' == bk.(stamp := bk'.stamp, slots := bk'.slots,
                  tree := ShiftRef(bk.tree, d), ngram := ShiftRef(bk.ngram, d), policy := ShiftRef(bk.policy, d),
                  sig := ShiftRef(bk.sig, d), ioc := ShiftRef(bk.ioc, d))
  }

  /** The n bytes at p of m are those at p' of m'. */
  ghost predicate SameBytes(m: seq<U8>, p: int, m': seq<U8>, p': int, n: nat)
  {
    0 <= p && p + n <= |m| && 0 <= p' && p' + n <= |m'| && m[p..p + n] == m'[p'..p' + n]
  }

  lemma SubBytes(m: seq<U8>, off: int, m': seq<U8>, off': int, used: nat, p: int, n: nat)
    requires SameBytes(m, off, m', off', used) && InArena(p, n, off, used)
    ensures SameBytes(m, p, m', p + (off' - off), n) && Bytes(m', p + (off' - off), n) == Bytes(m, p, n)
  {
    var p' := p + (off' - off);
    Within(m, off, used, p - off, n);
    Within(m', off', used, p - off, n);
  }

  lemma Within(m: seq<U8>, off: nat, used: nat, k: nat, n: nat)
    requires off + used <= |m| && k + n <= used
    ensures m[off..off + used][k..k + n] == m[off + k..off + k + n]
  {
    var a, b := m[off..off + used][k..k + n], m[off + k..off + k + n];
    assert forall i :: 0 <= i < n ==> a[i] == b[i];
  }

  lemma SubFetch(m: seq<U8>, off: int, m': seq<U8>, off': int, used: nat, r: Ref, n: nat)
    requires SameBytes(m, off, m', off', used) && RefOk(r, n, off, used)
    ensures Fetch(m', ShiftRef(r, off' - off), n) == Fetch(m, r, n)
    ensures RefOk(ShiftRef(r, off' - off), n, off', used)
  {
    if r.ptr.Some? { SubBytes(m, off, m', off', used, r.ptr.value, n); }
  }

  lemma ViewUsed(m: seq<U8>, bk: Bank)
    ensures View(m, bk).used == bk.used
  {
  }

  /** A bank copied to another arena, offsets and pointers moved by the distance between
      the arenas, shows its reader the same record. */
  lemma MovedView(m: seq<U8>, bk: Bank, off: int, m': seq<U8>, bk': Bank, off': int, size: nat)
    requires BankOk(m, bk, off, size) && 0 <= off' && off' + size <= |m'|
    requires Moved(bk, bk', off' - off) && SameBytes(m, off, m', off', bk.used)
    ensures BankOk(m', bk', off', size) && View(m', bk') == View(m, bk)
  {
    hide Bytes, Fetch, SameBytes, DecRows, Columns;
    forall i | 0 <= i < KINDS && bk.slots[i].present
      ensures InArena(bk'.slots[i].offset, bk'.slots[i].size, off', bk.used) && ModelOf(m', bk'.slots[i]) == ModelOf(m, bk.slots[i])
    {
      SubBytes(m, off, m', off', bk.used, bk.slots[i].offset, bk.slots[i].size);
    }
    SubFetch(m, off, m', off', bk.used, bk.tree, bk.tree.n);
    SubFetch(m, off, m', off', bk.used, bk.ngram, bk.ngram.n);
    SubFetch(m, off, m', off', bk.used, bk.policy, ROW_SIZE * bk.policy.n);
    SubFetch(m, off, m', off', bk.used, bk.sig, SIG_SIZE * bk.sig.n);
    SubFetch(m, off, m', off', bk.used, bk.ioc, IOC_SIZE * bk.ioc.n);
    assert View(m', bk').models == View(m, bk).models;
  }
}
