/** The shared model memory: two banks with an arena each, one of them active. Banks are
    filled, cloned and published in place; a log keeps what a reader could have seen. */
module DpMem {
  import opened Words
  import opened Banks

  /** A bank as a reader holds it; the hot verdict is patched in place and is not part of it. */
  datatype Snap = Snap(arena: seq<U8>, bank: Bank)

  /** The state of both banks between two writes. */
  datatype Moment = Moment(active: nat, first: Snap, second: Snap) {
    function Of(b: nat): Snap { if b == 0 then first else second }
  }

  /** A reader of the bank active in a sees the same bank, still active, in b. */
  ghost predicate SameFor(a: Moment, b: Moment) { b.active == a.active && b.Of(a.active) == a.Of(a.active) }

  ghost predicate Still(ms: seq<Moment>)
    requires ms != []
  {
    forall i :: 0 <= i < |ms| ==> SameFor(ms[0], ms[i])
  }

  /** The moments of one update: the bank active at the start never changes, and the active
      index changes with the last write or not at all. */
  ghost predicate Turn(ms: seq<Moment>)
  {
    && ms != []
    && (forall i :: 0 <= i < |ms| ==> ms[i].Of(ms[0].active) == ms[0].Of(ms[0].active))
    && (forall i :: 0 <= i < |ms| - 1 ==> ms[i].active == ms[0].active)
  }

  function Tlv(kind: U32, len: U64, version: U32, crc: U32): (b: seq<U8>)
    ensures |b| == TLV_SIZE
  {
    StLe32(kind) + StLe32(0) + StLe64(len) + StLe32(version) + StLe32(crc)
  }

  // ---- puts -----------------------------------------------------------------------

  /** A model to be stored; no object is larger than 2^63 bytes, so sizes do not wrap. */
  datatype Put = Put(kind: U32, data: seq<U8>, version: U32, crc: U32)

  ghost predicate Storable(p: Put) { |p.data| < 0x8000_0000_0000_0000 }

  function PutEnd(used: nat, p: Put): (e: nat) { AlignUp(used) + TLV_SIZE + |p.data| }

  predicate Fits(used: nat, p: Put, size: nat) { p.kind < KINDS && PutEnd(used, p) <= size }

  /** An accepted put and where its header starts. */
  datatype Placed = Placed(at: nat, put: Put) {
    function End(): nat { at + TLV_SIZE + |put.data| }
  }

  /** The puts that are accepted into an empty arena at off, in order, and the cursor after them. */
  ghost function Packed(puts: seq<Put>, off: nat, size: nat): (r: (seq<Placed>, nat))
  {
    if puts == [] then ([], 0)
    else
      var (ps, used) := Packed(puts[..|puts| - 1], off, size);
      var p := puts[|puts| - 1];
      if Fits(used, p, size) then (ps + [Placed(off + AlignUp(used), p)], PutEnd(used, p)) else (ps, used)
  }

  /** The last model stored for a kind. */
  ghost function LastOf(ps: seq<Placed>, kind: nat): (r: Option<Model>)
  {
    if ps == [] then None
    else
      var p := ps[|ps| - 1].put;
      if p.kind == kind then Some(Model(p.data, p.version, p.crc)) else LastOf(ps[..|ps| - 1], kind)
  }

  /** Header and payload of a placed record, as they lie in memory. */
  ghost function Image(p: Put): (b: seq<U8>)
    requires Storable(p)
    ensures |b| == TLV_SIZE + |p.data|
  {
    Tlv(p.kind, |p.data|, p.version, p.crc) + p.data
  }

  /** The stored record reads back: its kind, a zero, its length, version and checksum, and the
      payload behind them. */
  lemma RecordReads(p: Put)
    requires Storable(p)
    ensures var b := Image(p);
            && LdLe32(b) == p.kind && LdLe32(b[4..]) == 0 && LdLe64(b[8..]) == |p.data|
            && LdLe32(b[16..]) == p.version && LdLe32(b[20..]) == p.crc && b[24..] == p.data
  {
    hide StLe32, StLe64, LdLe32, LdLe64;
    var kind, zero, len, version, crc := StLe32(p.kind), StLe32(0), StLe64(|p.data|), StLe32(p.version), StLe32(p.crc);
    LoadStore32(p.crc, p.data);
    LoadStore32(p.version, crc + p.data);
    LoadStore64(|p.data|, version + (crc + p.data));
    LoadStore32(0, len + (version + (crc + p.data)));
    LoadStore32(p.kind, zero + (len + (version + (crc + p.data))));
    FieldsApart(kind, zero, len, version, crc, p.data);
  }

  lemma FieldsApart(a: seq<U8>, b: seq<U8>, c: seq<U8>, d: seq<U8>, e: seq<U8>, rest: seq<U8>)
    requires |a| == |b| == |d| == |e| == 4 && |c| == 8
    ensures var s := a + b + c + d + e + rest;
            && s == a + (b + (c + (d + (e + rest)))) && s[4..] == b + (c + (d + (e + rest)))
            && s[8..] == c + (d + (e + rest)) && s[16..] == d + (e + rest) && s[20..] == e + rest && s[24..] == rest
  {
  }

  /** Records are aligned, follow each other without overlap, stay within the cursor, and
      still hold the bytes they were stored with. */
  ghost predicate Layout(m: seq<U8>, off: nat, used: nat, ps: seq<Placed>)
  {
    && off + used <= |m|
    && (forall i :: 0 <= i < |ps| ==>
          && off <= ps[i].at && (ps[i].at - off) % ALIGN == 0 && ps[i].End() <= off + used
          && Storable(ps[i].put) && Bytes(m, ps[i].at, TLV_SIZE + |ps[i].put.data|) == Image(ps[i].put))
    && (forall i, j :: 0 <= i < j < |ps| ==> ps[i].End() <= ps[j].at)
  }

  lemma SpliceHere(m: seq<U8>, p: nat, data: seq<U8>)
    requires p + |data| <= |m|
    ensures Bytes(Splice(m, p, data), p, |data|) == data
  {
  }

  lemma PayloadHere(m: seq<U8>, at: nat, p: Put)
    requires Storable(p) && at + |Image(p)| <= |m|
    ensures Bytes(Splice(m, at, Image(p)), at + TLV_SIZE, |p.data|) == p.data
  {
    hide Tlv;
  }

  lemma LayoutGrows(m: seq<U8>, off: nat, used: nat, ps: seq<Placed>, p: Put)
    requires Layout(m, off, used, ps) && Storable(p) && off + PutEnd(used, p) <= |m|
    ensures Layout(Splice(m, off + AlignUp(used), Image(p)), off, PutEnd(used, p), ps + [Placed(off + AlignUp(used), p)])
  {
    hide Image, AlignUp, Splice, Bytes;
    var at := off + AlignUp(used);
    var m', ps' := Splice(m, at, Image(p)), ps + [Placed(at, p)];
    SpliceElsewhere(m, at, Image(p), off, off + used);
    SpliceHere(m, at, Image(p));
    forall i | 0 <= i < |ps|
      ensures Bytes(m', ps[i].at, TLV_SIZE + |ps[i].put.data|) == Image(ps[i].put)
    {
      SubBytes(m, off, m', off, used, ps[i].at, TLV_SIZE + |ps[i].put.data|);
    }
  }

  lemma HotApart(m: seq<U8>, bk: Bank, off: nat, size: nat, hot: Hot)
    ensures View(m, bk.(hot := hot)) == View(m, bk).(hot := hot)
    ensures BankOk(m, bk, off, size) ==> BankOk(m, bk.(hot := hot), off, size)
  {
  }

  lemma StampApart(m: seq<U8>, bk: Bank, off: nat, size: nat, stamp: U32)
    ensures View(m, bk.(stamp := stamp)) == View(m, bk)
    ensures BankOk(m, bk, off, size) ==> BankOk(m, bk.(stamp := stamp), off, size)
  {
  }

  /** No table has been staged through a typed pointer yet. */
  ghost predicate Untyped(bk: Bank)
  {
    bk.tree == NO_REF && bk.ngram == NO_REF && bk.policy == NO_REF && bk.sig == NO_REF && bk.ioc == NO_REF
  }

  /** The directory names, for each kind, the last record placed for it. */
  ghost predicate Named(m: seq<U8>, off: nat, bk: Bank, ps: seq<Placed>)
  {
    && |bk.slots| == KINDS && bk.count == Wrap32(|ps|)
    && forall k :: 0 <= k < KINDS ==>
         && ModelOf(m, bk.slots[k]) == LastOf(ps, k)
         && (bk.slots[k].present ==> InArena(bk.slots[k].offset, bk.slots[k].size, off, bk.used))
  }

  lemma NamedGrows(m: seq<U8>, off: nat, bk: Bank, ps: seq<Placed>, p: Put, m': seq<U8>, bk': Bank)
    requires Named(m, off, bk, ps) && Storable(p) && p.kind < KINDS
    requires off + bk.used <= |m| && off + PutEnd(bk.used, p) <= |m|
    requires m' == Splice(m, off + AlignUp(bk.used), Image(p))
    requires bk'.used == PutEnd(bk.used, p) && bk'.count == Wrap32(bk.count + 1)
    requires bk'.slots == bk.slots[p.kind := Slot(true, off + AlignUp(bk.used) + TLV_SIZE, |p.data|, p.version, p.crc)]
    ensures Named(m', off, bk', ps + [Placed(off + AlignUp(bk.used), p)])
  {
    hide AlignUp, Splice, Bytes, Image;
    var at := off + AlignUp(bk.used);
    var ps' := ps + [Placed(at, p)];
    assert ps'[..|ps|] == ps;
    SpliceElsewhere(m, at, Image(p), off, off + bk.used);
    PayloadHere(m, at, p);
    forall k | 0 <= k < KINDS && k != p.kind
      ensures ModelOf(m', bk'.slots[k]) == LastOf(ps, k)
    {
      var s := bk.slots[k];
      if s.present { SubBytes(m, off, m', off, bk.used, s.offset, s.size); }
    }
  }

  lemma CopiedBytes(m: seq<U8>, p: nat, q: nat, n: nat)
    requires p + n <= |m| && q + n <= |m|
    ensures SameBytes(m, p, Splice(m, q, m[p..p + n]), q, n)
    ensures n == 0 ==> Splice(m, q, m[p..p + n]) == m
  {
    var m' := Splice(m, q, m[p..p + n]);
    assert m'[q..q + n] == m[p..p + n];
  }

  lemma Unseeded(m: seq<U8>, off: nat, bk: Bank)
    requires off <= |m| && bk.used == 0 && bk.count == 0 && bk.slots == ZERO_BANK.slots
    ensures Layout(m, off, 0, []) && Named(m, off, bk, [])
  {
  }

  lemma NamedModels(m: seq<U8>, off: nat, bk: Bank, ps: seq<Placed>)
    requires Named(m, off, bk, ps)
    ensures bk.count == Wrap32(|ps|) && |View(m, bk).models| == KINDS
    ensures forall k :: 0 <= k < KINDS ==> View(m, bk).models[k] == LastOf(ps, k)
    ensures Untyped(bk) ==> DirOk(bk, off)
  {
  }

  // ---- the region -------------------------------------------------------------------

  class Region {
    const off: seq<nat>
    const size: nat
    const mem: array<U8>
    const banks: array<Bank>
    var active: nat
    ghost var log: seq<Moment>

    /** A zeroed header of hdr bytes, then the two arenas; bank 0 is active. */
    constructor (hdr: nat, size: nat)
      ensures Valid() && fresh(mem) && fresh(banks)
      ensures this.size == size && active == 0 && forall b :: 0 <= b < 2 ==> banks[b] == ZERO_BANK
    {
      this.size := size;
      off := [hdr, hdr + size];
      mem := new U8[hdr + 2 * size];
      banks := new Bank[2](_ => ZERO_BANK);
      active := 0;
      new;
      log := [Now()];
    }

    ghost predicate Frame()
      reads this`active, banks
    {
      && banks.Length == 2 && |off| == 2 && off[0] + size <= off[1] && off[1] + size <= mem.Length && active < 2
      && |banks[0].slots| == KINDS && |banks[1].slots| == KINDS
    }

    ghost predicate Shape()
      reads this, mem, banks
    {
      Frame() && log != [] && log[|log| - 1] == Now()
    }

    ghost predicate Ok(b: nat)
      requires Frame() && b < 2
      reads this`active, mem, banks
    {
      BankOk(mem[..], banks[b], off[b], size)
    }

    ghost predicate Valid()
      reads this, mem, banks
    {
      Shape() && Ok(active)
    }

    ghost function Arena(b: nat): (s: seq<U8>)
      requires Frame() && b < 2
      reads this`active, mem, banks
    {
      mem[..][off[b]..off[b] + size]
    }

    ghost function SnapOf(b: nat): (s: Snap)
      requires Frame() && b < 2
      reads this`active, mem, banks
    {
      Snap(Arena(b), banks[b].(hot := NO_HOT))
    }

    ghost function Now(): (m: Moment)
      requires Frame()
      reads this`active, mem, banks
    {
      Moment(active, SnapOf(0), SnapOf(1))
    }

    /** What following bank b's directory yields. */
    ghost function Rec(b: nat): (r: Record)
      requires Frame() && b < 2
      reads this`active, mem, banks
    {
      View(mem[..], banks[b])
    }

    /** Since the log was started the active bank has been the same and has not changed. */
    ghost predicate Steady()
      reads this`log
    {
      log != [] && Still(log)
    }

    /** A write to bank b, or several: the other bank is as it was, and if b is not the
        active bank no reader has been disturbed. */
    twostate predicate Staged(b: nat)
      requires b < 2 && old(Frame()) && Frame()
      reads this, mem, banks
    {
      && Shape() && active == old(active) && (old(log) != [] ==> log[0] == old(log[0]))
      && banks[1 - b] == old(banks[1 - b]) && Arena(1 - b) == old(Arena(1 - b)) && SnapOf(1 - b) == old(SnapOf(1 - b))
      && (b != active && old(Steady()) ==> Steady())
    }

    /** Starts the log of an update. */
    ghost method Begin()
      requires Shape()
      modifies this`log
      ensures Shape() && Steady() && log == [Now()]
    {
      log := [Now()];
    }

    /** Logs a moment; if it shows the active bank unchanged, readers have not been disturbed. */
    ghost method LogNow()
      requires Frame() && log != []
      modifies this`log
      ensures Shape() && log == old(log) + [Now()]
      ensures old(Steady()) && SameFor(old(log)[|old(log)| - 1], Now()) ==> Steady()
    {
      log := log + [Now()];
    }

    // ---- writes ----------------------------------------------------------------------

    method Poke(b: nat, p: nat, data: seq<U8>)
      requires Shape() && b < 2 && off[b] <= p && p + |data| <= off[b] + size
      modifies mem, this`log
      ensures Shape() && Staged(b) && mem[..] == Splice(old(mem[..]), p, data)
    {
      hide Splice;
      ghost var m := mem[..];
      Store(mem, p, data);
      SpliceElsewhere(m, p, data, off[1 - b], off[1 - b] + size);
      assert Arena(1 - b) == old(Arena(1 - b));
      hide Arena;
      assert SnapOf(1 - b) == old(SnapOf(1 - b));
      LogNow();
    }

    method SetBank(b: nat, bk: Bank)
      requires Shape() && b < 2 && |bk.slots| == KINDS
      modifies banks, this`log
      ensures Shape() && Staged(b) && banks[b] == bk
    {
      banks[b] := bk;
      LogNow();
    }

    // ---- allocation --------------------------------------------------------------------

    /** Bumps the cursor past n more bytes, or changes nothing. */
    method ArenaAlloc(b: nat, n: nat) returns (p: Option<int>)
      requires Shape() && b < 2 && banks[b].used <= size
      modifies banks, this`log
      ensures Shape() && Staged(b)
      ensures p == if AlignUp(old(banks[b].used)) + n <= size then Some(off[b] + AlignUp(old(banks[b].used))) else None
      ensures p.None? ==> banks[b] == old(banks[b])
      ensures p.Some? ==> banks[b] == old(banks[b]).(used := AlignUp(old(banks[b].used)) + n)
    {
      var cur := AlignUp(banks[b].used);
      if cur + n > size { return None; }
      SetBank(b, banks[b].(used := cur + n));
      return Some(off[b] + cur);
    }

    /** Copies data into the arena beyond everything in it, or changes nothing. */
    method ArenaDup(b: nat, data: seq<U8>) returns (p: Option<int>)
      requires Shape() && b < 2 && banks[b].used <= size
      modifies mem, banks, this`log
      ensures Shape() && Staged(b)
      ensures p == if AlignUp(old(banks[b].used)) + |data| <= size then Some(off[b] + AlignUp(old(banks[b].used))) else None
      ensures p.None? ==> banks[b] == old(banks[b]) && mem[..] == old(mem[..])
      ensures p.Some? ==> banks[b] == old(banks[b]).(used := AlignUp(old(banks[b].used)) + |data|)
      ensures p.Some? ==> mem[..] == Splice(old(mem[..]), p.value, data)
    {
      p := ArenaAlloc(b, |data|);
      if p.Some? {
        Poke(b, p.value, data);
      }
    }

    // ---- the directory -------------------------------------------------------------------

    /** Empties the arena and the directory; the typed fields are left as they are. */
    method BankReset(b: nat)
      requires Shape() && b < 2
      modifies banks, this`log
      ensures Shape() && Staged(b)
      ensures banks[b] == old(banks[b]).(stamp := Wrap32(old(banks[b].stamp) + 1), used := 0, count := 0, slots := ZERO_BANK.slots)
    {
      var slots := banks[b].slots;
      for i := 0 to KINDS
        invariant |slots| == KINDS && slots[..i] == ZERO_BANK.slots[..i]
      {
        slots := slots[i := NO_SLOT];
      }
      assert slots == slots[..KINDS] == ZERO_BANK.slots;
      SetBank(b, banks[b].(stamp := Wrap32(banks[b].stamp + 1), used := 0, count := 0, slots := slots));
    }

    /** Stores a model behind a header of its own and points the directory at it; a refused
        put changes nothing. */
    method BankPut(b: nat, p: Put) returns (ok: bool)
      requires Shape() && b < 2 && Storable(p) && banks[b].used <= size
      modifies mem, banks, this`log
      ensures Shape() && Staged(b)
      ensures ok <==> Fits(old(banks[b].used), p, size)
      ensures !ok ==> banks[b] == old(banks[b]) && mem[..] == old(mem[..])
      ensures ok ==> mem[..] == Splice(old(mem[..]), off[b] + AlignUp(old(banks[b].used)), Image(p))
      ensures ok ==> banks[b] == old(banks[b]).(
                used := PutEnd(old(banks[b].used), p), count := Wrap32(old(banks[b].count) + 1),
                slots := old(banks[b].slots)[p.kind := Slot(true, off[b] + AlignUp(old(banks[b].used)) + TLV_SIZE, |p.data|, p.version, p.crc)])
    {
      hide Tlv, Splice, SnapOf, Now, Steady, AlignUp;
      if p.kind >= KINDS { return false; }
      var bk := banks[b];
      var cur := AlignUp(bk.used);
      if cur + TLV_SIZE + |p.data| > size { return false; }
      var at := off[b] + cur;
      Poke(b, at, Tlv(p.kind, |p.data|, p.version, p.crc));
      Poke(b, at + TLV_SIZE, p.data);
      SpliceSplice(old(mem[..]), at, Tlv(p.kind, |p.data|, p.version, p.crc), p.data);
      SetBank(b, bk.(used := cur + TLV_SIZE + |p.data|, count := Wrap32(bk.count + 1),
                     slots := bk.slots[p.kind := Slot(true, at + TLV_SIZE, |p.data|, p.version, p.crc)]));
      return true;
    }

    /** The payload the directory of bank b names for a kind. */
    method LookupModel(b: nat, kind: U32) returns (r: Option<Model>)
      requires Shape() && b < 2 && Ok(b)
      ensures r == if kind < KINDS then Rec(b).models[kind] else None
    {
      if kind >= KINDS { return None; }
      var s := banks[b].slots[kind];
      if !s.present { return None; }
      return Some(Model(mem[s.offset..s.offset + s.size], s.version, s.crc));
    }

    method CopyUsed(dst: nat, src: nat)
      requires Shape() && dst < 2 && src < 2 && dst != src && banks[src].used <= size
      modifies mem, this`log
      ensures Shape() && Staged(dst)
      ensures mem[..] == Splice(old(mem[..]), off[dst], old(mem[..])[off[src]..off[src] + banks[src].used])
    {
      hide Splice, SnapOf, Now, Steady;
      CopiedBytes(mem[..], off[src], off[dst], banks[src].used);
      if banks[src].used != 0 {
        Poke(dst, off[dst], mem[..][off[src]..off[src] + banks[src].used]);
      }
    }

    /** Copies the used bytes of bank src and its directory to bank dst, moving every offset
        and top-level pointer by the distance between the arenas. */
    method BankClone(dst: nat, src: nat)
      requires Shape() && dst < 2 && src < 2 && dst != src && Ok(src)
      modifies mem, banks, this`log
      ensures Shape() && Staged(dst) && Ok(dst) && Rec(dst) == old(Rec(src))
      ensures banks[dst].stamp == Wrap32(old(banks[dst].stamp) + 1)
    {
      hide View, DirOk, Splice, SameBytes, SnapOf, Now, Steady;
      var bs, bd := banks[src], banks[dst];
      var delta := off[dst] as int - off[src];
      ghost var m := mem[..];
      CopyUsed(dst, src);
      ghost var m' := mem[..];
      CopiedBytes(m, off[src], off[dst], bs.used);
      var slots := ShiftSlots(bs.slots, delta);
      var bk := bs.(stamp := Wrap32(bd.stamp + 1), slots := slots,
                    tree := ShiftRef(bs.tree, delta), ngram := ShiftRef(bs.ngram, delta),
                    policy := ShiftRef(bs.policy, delta), sig := ShiftRef(bs.sig, delta), ioc := ShiftRef(bs.ioc, delta));
      SetBank(dst, bk);
      MovedView(m, bs, off[src], m', bk, off[dst], size);
    }

    /** Settles the stamp of a staged bank and makes it the active one. */
    method Publish(b: nat)
      requires Shape() && b < 2 && Ok(b) && b != active && Steady()
      modifies banks, this`active, this`log
      ensures Valid() && active == b && Turn(log) && log[0] == old(log[0])
      ensures Rec(b) == old(Rec(b)) && banks[1 - b] == old(banks[1 - b])
      ensures banks[b] == old(banks[b]).(stamp := Settled(old(banks[b].stamp)))
    {
      hide DirOk, View;
      StampApart(mem[..], banks[b], off[b], size, Settled(banks[b].stamp));
      if banks[b].stamp % 2 == 1 {
        SetBank(b, banks[b].(stamp := Wrap32(banks[b].stamp + 1)));
      }
      active := b;
      log := log + [Now()];
    }

    /** Patches the verdict of the active bank in place. */
    method SigVerdictApply(sid: U32, sha: seq<U8>, verdict: U8, ts: U64)
      requires Valid()
      modifies banks, this`log
      ensures Valid() && active == old(active) && banks[1 - active] == old(banks[1 - active])
      ensures Rec(active) == old(Rec(active)).(hot := Hot(sid, verdict, Digest(sha), ts))
      ensures banks[active] == old(banks[active]).(hot := Hot(sid, verdict, Digest(sha), ts))
      ensures Now() == old(Now()) && log == old(log) + [Now()]
    {
      hide DirOk;
      var n := if |sha| < 32 then |sha| else 32;
      var digest: seq<U8> := sha[..n] + seq(32 - n, i => 0);
      assert digest == Digest(sha);
      HotApart(mem[..], banks[active], off[active], size, Hot(sid, verdict, digest, ts));
      banks[active] := banks[active].(hot := Hot(sid, verdict, digest, ts));
      log := log + [Now()];
    }
  }

  /** The stamp of a published bank is even. */
  function Settled(stamp: U32): (r: U32)
    ensures r % 2 == 0
  {
    if stamp % 2 == 1 then Wrap32(stamp + 1) else stamp
  }

  /** A digest cut or zero-padded to 32 bytes. */
  function Digest(sha: seq<U8>): (r: seq<U8>)
    ensures |r| == 32 && forall i :: 0 <= i < 32 ==> r[i] == if i < |sha| then sha[i] else 0
  {
    if |sha| >= 32 then sha[..32] else sha + seq(32 - |sha|, i => 0)
  }

  /** Any sequence of puts into a bank that has just been reset. */
  method Seed(r: Region, b: nat, puts: seq<Put>) returns (placed: seq<Placed>)
    requires r.Shape() && b < 2 && forall p :: p in puts ==> Storable(p)
    modifies r.mem, r.banks, r`log
    ensures r.Shape() && (placed, r.banks[b].used) == Packed(puts, r.off[b], r.size)
    ensures Layout(r.mem[..], r.off[b], r.banks[b].used, placed) && r.banks[b].used <= r.size
    ensures |r.Rec(b).models| == KINDS && forall k :: 0 <= k < KINDS ==> r.Rec(b).models[k] == LastOf(placed, k)
    ensures r.banks[b].count == Wrap32(|placed|)
    ensures Untyped(old(r.banks[b])) ==> r.Ok(b)
    ensures r.banks[b].stamp == Wrap32(old(r.banks[b].stamp) + 1) && r.banks[1 - b] == old(r.banks[1 - b])
  {
    hide Layout, Named, Splice, AlignUp, Image, Bytes, View, DirOk, Region.SnapOf, Region.Now, Region.Steady, Region.Arena;
    r.BankReset(b);
    placed := [];
    Unseeded(r.mem[..], r.off[b], r.banks[b]);
    for i := 0 to |puts|
      invariant r.Shape() && r.banks[b].used <= r.size
      invariant (placed, r.banks[b].used) == Packed(puts[..i], r.off[b], r.size)
      invariant Layout(r.mem[..], r.off[b], r.banks[b].used, placed)
      invariant Named(r.mem[..], r.off[b], r.banks[b], placed)
      invariant Untyped(old(r.banks[b])) ==> Untyped(r.banks[b])
      invariant r.banks[b].stamp == Wrap32(old(r.banks[b].stamp) + 1) && r.banks[1 - b] == old(r.banks[1 - b])
    {
      var cur := AlignUp(r.banks[b].used);
      ghost var m, bk, before := r.mem[..], r.banks[b], placed;
      var ok := r.BankPut(b, puts[i]);
      assert puts[..i + 1][..i] == puts[..i];
      if ok {
        placed := placed + [Placed(r.off[b] + cur, puts[i])];
        LayoutGrows(m, r.off[b], bk.used, before, puts[i]);
        NamedGrows(m, r.off[b], bk, before, puts[i], r.mem[..], r.banks[b]);
      }
    }
    assert puts[..|puts|] == puts;
    NamedModels(r.mem[..], r.off[b], r.banks[b], placed);
  }
}
