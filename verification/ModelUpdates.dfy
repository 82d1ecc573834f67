/** The consumer of management-plane updates: each one clones the active bank, patches the
    inactive one and publishes it, or is refused. */
module ModelUpdates {
  import opened Words
  import opened Banks
  import opened DpMem
  import Policy

  // ---- decoded updates ----------------------------------------------------------------

  /** An address text: absent or "any", 64 characters or more, or split at its slash; the
      address is what inet_pton makes of the first part, the prefix what atoi makes of the second. */
  datatype CidrText = AnyAddress | Overlong | Text(address: Option<U32>, prefix: Option<int>)

  datatype WireRow = WireRow(vsys: U8, proto: U8, src: CidrText, sport: U16, dst: CidrText, dport: U16, action: U8)

  /** Strings carry their terminator. */
  datatype SigRow = SigRow(sid: U32, name: Option<seq<U8>>, sigType: Option<seq<U8>>, hashType: Option<seq<U8>>,
                           digest: seq<U8>, hexPattern: Option<seq<U8>>, severity: U8, verdict: U8, family: Option<seq<U8>>)

  datatype IocRow = IocRow(kind: Option<seq<U8>>, value: Option<seq<U8>>, verdict: U8)

  datatype Update =
    | MlModel(version: U32, kind: U8, features: U32, tree: seq<U8>, ngram: seq<U8>)
    | ThreatIntel(seqno: U32, adds: seq<SigRow>, removes: seq<U32>, iocs: seq<IocRow>)
    | PolicyRows(vsys: U8, rows: seq<WireRow>)
    | SignatureVerdict(sid: U32, sha: seq<U8>, verdict: U8, ts: U64)
    | Unusable(why: Reason)  // not a message, wrong direction, or a body that is not for the data plane

  datatype Reason = EINVAL | EBADMSG | EDIR | EUNSUPP

  datatype Code = OK | Malformed(why: Reason) | ENOMEM | EDPMEM

  // ---- address texts ---------------------------------------------------------------------

  datatype Network = Network(net: U32, mask: U32)

  /** `0xFFFFFFFF << (32 - bits)`, truncated to 32 bits. */
  function PrefixMask(bits: nat): (m: U32)
    requires bits <= 32
  {
    if bits == 0 then 0 else Wrap32(0xFFFF_FFFF * Pow2(32 - bits))
  }

  function ParseCidr(c: CidrText): (r: Option<Network>)
  {
    match c
    case AnyAddress => Some(Network(0, 0))
    case Overlong => None
    case Text(address, prefix) =>
      var bits := if prefix.Some? then prefix.value else 32;
      if bits < 0 || bits > 32 || address.None? then None
      else Some(Network(BitAnd(address.value, PrefixMask(bits)), PrefixMask(bits)))
  }

  /** The address shares the leading bits the text asks for. */
  ghost predicate InText(c: CidrText, ip: U32)
    requires ParseCidr(c).Some?
  {
    c.AnyAddress? ||
    var k := 32 - (if c.prefix.Some? then c.prefix.value else 32);
    ip / Pow2(k) == c.address.value / Pow2(k)
  }

  /** A masked comparison against a parsed network is membership in the prefix. */
  lemma ParsedCidrMeans(c: CidrText, ip: U32)
    requires ParseCidr(c).Some?
    ensures BitAnd(ip, ParseCidr(c).value.mask) == ParseCidr(c).value.net <==> InText(c, ip)
  {
    hide Pow2;
    if c.Text? {
      var bits: nat := if c.prefix.Some? then c.prefix.value else 32;
      MaskIsHighBits(bits);
      MaskedEqualIff(ip, c.address.value, 32 - bits);
    }
  }

  lemma MaskIsHighBits(bits: nat)
    requires bits <= 32
    ensures Pow2(32 - bits) <= Pow2(32) && PrefixMask(bits) == Pow2(32) - Pow2(32 - bits)
  {
    hide Pow2;
    Pow2Values();
    Pow2Monotone(32 - bits, 32);
    var p := Pow2(32 - bits);
    assert 0xFFFF_FFFF * p == (p - 1) * 0x1_0000_0000 + (0x1_0000_0000 - p);
    if bits != 0 {
      DivModUnique(0xFFFF_FFFF * p, 0x1_0000_0000, p - 1, 0x1_0000_0000 - p);
    }
  }

  // ---- policy rows ------------------------------------------------------------------------

  predicate GoodRow(r: WireRow) { ParseCidr(r.src).Some? && ParseCidr(r.dst).Some? }

  /** Port 0 is any port, virtual system 0 the one of the update; rules are numbered from 1. */
  function CompileRow(r: WireRow, vsys: U8, i: nat): (e: Policy.PolicyRow)
    requires GoodRow(r)
  {
    var src, dst := ParseCidr(r.src).value, ParseCidr(r.dst).value;
    Policy.PolicyRow(src.net, src.mask, dst.net, dst.mask,
                     r.sport, if r.sport != 0 then r.sport else 0xFFFF,
                     r.dport, if r.dport != 0 then r.dport else 0xFFFF,
                     r.proto, if r.vsys != 0 then r.vsys else vsys, r.action, 0, 0xFFFF, (i + 1) % 0x1_0000)
  }

  ghost function CompileRows(rows: seq<WireRow>, vsys: U8): (es: seq<Policy.PolicyRow>)
    requires forall r :: r in rows ==> GoodRow(r)
    ensures |es| == |rows|
  {
    seq(|rows|, i requires 0 <= i < |rows| => CompileRow(rows[i], vsys, i))
  }

  // ---- the simple form of the memory ----------------------------------------------------------

  /** The cursor after n more bytes; nothing is allocated for nothing. */
  function Bump(used: nat, n: nat): (u: nat) { if n == 0 then used else AlignUp(used) + n }

  /** A string is copied if it fits and dropped if it does not. */
  function Interned(used: nat, size: nat, strings: seq<Option<seq<U8>>>): (u: nat)
  {
    if strings == [] then used
    else
      var u := Interned(used, size, strings[..|strings| - 1]);
      var s := strings[|strings| - 1];
      if s.Some? && AlignUp(u) + |s.value| <= size then AlignUp(u) + |s.value| else u
  }

  function SigStrings(s: SigRow): (r: seq<Option<seq<U8>>>)
  {
    [s.name, s.sigType, s.hashType, s.hexPattern, s.family, if s.digest != [] then Some(s.digest) else None]
  }

  function IocStrings(o: IocRow): (r: seq<Option<seq<U8>>>) { [o.kind, o.value] }

  /** The strings of a row are copied in this order, a missing one or an empty digest not at all. */
  lemma RowStrings(s: SigRow, o: IocRow)
    ensures var r := SigStrings(s);
            && |r| == 6 && r[0] == s.name && r[1] == s.sigType && r[2] == s.hashType && r[3] == s.hexPattern && r[4] == s.family
            && (r[5].None? <==> |s.digest| == 0) && (r[5].Some? ==> r[5].value == s.digest)
    ensures |IocStrings(o)| == 2 && IocStrings(o)[0] == o.kind && IocStrings(o)[1] == o.value
  {
  }

  ghost function SigColumns(adds: seq<SigRow>): (r: seq<seq<U8>>)
  {
    seq(|adds|, i requires 0 <= i < |adds| => StLe32(adds[i].sid) + [adds[i].severity, adds[i].verdict])
  }

  ghost function IocColumns(iocs: seq<IocRow>): (r: seq<seq<U8>>)
  {
    seq(|iocs|, i requires 0 <= i < |iocs| => [iocs[i].verdict])
  }

  /** The cursor after the strings of a table, row by row. */
  function InternedRows(used: nat, size: nat, rows: seq<seq<Option<seq<U8>>>>): (u: nat)
  {
    if rows == [] then used
    else Interned(InternedRows(used, size, rows[..|rows| - 1]), size, rows[|rows| - 1])
  }

  function SigTableStrings(adds: seq<SigRow>): (r: seq<seq<Option<seq<U8>>>>)
    ensures |r| == |adds| && forall i :: 0 <= i < |adds| ==> r[i] == SigStrings(adds[i])
  {
    seq(|adds|, i requires 0 <= i < |adds| => SigStrings(adds[i]))
  }

  function IocTableStrings(iocs: seq<IocRow>): (r: seq<seq<Option<seq<U8>>>>)
    ensures |r| == |iocs| && forall i :: 0 <= i < |iocs| ==> r[i] == IocStrings(iocs[i])
  {
    seq(|iocs|, i requires 0 <= i < |iocs| => IocStrings(iocs[i]))
  }

  /** Signature strings are copied before indicator strings. */
  function StringsEnd(used: nat, size: nat, adds: seq<SigRow>, iocs: seq<IocRow>): (u: nat)
  {
    InternedRows(InternedRows(used, size, SigTableStrings(adds)), size, IocTableStrings(iocs))
  }

  /** The cursor an update needs before it can be accepted. */
  ghost function Demand(used: nat, u: Update): (d: nat)
  {
    match u
    case MlModel(_, _, _, tree, ngram) => Bump(Bump(used, |tree|), |ngram|)
    case ThreatIntel(_, adds, removes, iocs) =>
      Bump(Bump(Bump(used, SIG_SIZE * |adds|), IOC_SIZE * |iocs|), 4 * |removes|)
    case PolicyRows(_, rows) => Bump(used, Policy.ROW_SIZE * |rows|)
    case _ => used
  }

  /** The code of an update against a bank filled up to used. */
  ghost function Verdict(used: nat, size: nat, u: Update): (c: Code)
  {
    if u.Unusable? then Malformed(u.why)
    else if u.SignatureVerdict? then OK
    else if Demand(used, u) > size then ENOMEM
    else if u.PolicyRows? && exists r :: r in u.rows && !GoodRow(r) then EDPMEM
    else OK
  }

  /** The record an accepted update leaves. */
  ghost function Patched(rec: Record, size: nat, u: Update): (r: Record)
    requires Verdict(rec.used, size, u) == OK
  {
    match u
    case MlModel(version, kind, features, tree, ngram) =>
      rec.(used := Demand(rec.used, u), ml := Ml(version, features, kind, tree, ngram))
    case ThreatIntel(seqno, adds, _, iocs) =>
      rec.(used := StringsEnd(Demand(rec.used, u), size, adds, iocs),
           intel := Intel(seqno, SigColumns(adds), IocColumns(iocs)))
    case PolicyRows(vsys, rows) =>
      rec.(used := Demand(rec.used, u), policy := CompileRows(rows, vsys))
    case SignatureVerdict(sid, sha, verdict, ts) =>
      rec.(hot := Hot(sid, verdict, Digest(sha), ts))
  }

  /** The active record, which bank holds it, and the stamps of both banks. */
  datatype Sys = Sys(rec: Record, active: nat, stamps: (U32, U32)) {
    function Stamp(b: nat): U32 { if b == 0 then stamps.0 else stamps.1 }
    function Restamp(b: nat, v: U32): Sys { this.(stamps := if b == 0 then (v, stamps.1) else (stamps.0, v)) }
  }

  predicate IsStaged(u: Update) { u.MlModel? || u.ThreatIntel? || u.PolicyRows? }

  /** One update: a staged one stamps the inactive bank and, when accepted, publishes it. */
  ghost function Step(s: Sys, size: nat, u: Update): (r: Sys)
    requires s.active < 2
    ensures r.active < 2
  {
    var accepted := Verdict(s.rec.used, size, u) == OK;
    var idle := 1 - s.active;
    var dirty := Wrap32(s.Stamp(idle) + 1);
    if !IsStaged(u) then (if accepted then s.(rec := Patched(s.rec, size, u)) else s)
    else if accepted then s.Restamp(idle, Settled(dirty)).(rec := Patched(s.rec, size, u), active := idle)
    else s.Restamp(idle, dirty)
  }

  lemma StepAccepted(s: Sys, size: nat, u: Update)
    requires s.active < 2 && IsStaged(u) && Verdict(s.rec.used, size, u) == OK
    ensures var idle := 1 - s.active;
            Step(s, size, u) == s.Restamp(idle, Settled(Wrap32(s.Stamp(idle) + 1))).(rec := Patched(s.rec, size, u), active := idle)
  {
  }

  lemma StepRefused(s: Sys, size: nat, u: Update)
    requires s.active < 2 && IsStaged(u) && Verdict(s.rec.used, size, u) != OK
    ensures Step(s, size, u) == s.Restamp(1 - s.active, Wrap32(s.Stamp(1 - s.active) + 1))
  {
  }

  ghost function StateOf(r: Region): (s: Sys)
    requires r.Frame()
    reads r`active, r.mem, r.banks
  {
    Sys(r.Rec(r.active), r.active, (r.banks[0].stamp, r.banks[1].stamp))
  }

  /** Reserves a region and seeds its first bank; setting that bank active does not settle its stamp. */
  method StartRegion(hdr: nat, size: nat, puts: seq<Put>) returns (r: Region)
    requires forall p :: p in puts ==> Storable(p)
    ensures fresh(r) && r.Valid() && r.size == size && StateOf(r).active == 0 && StateOf(r).stamps == (1, 0)
    ensures StateOf(r).rec.models == seq(KINDS, k requires 0 <= k < KINDS => LastOf(Packed(puts, r.off[0], size).0, k))
  {
    r := new Region(hdr, size);
    var placed := Seed(r, 0, puts);
  }

  // ---- staging ---------------------------------------------------------------------------------

  /** The bank is the clone with its cursor raised, and the cloned bytes are still there. */
  ghost predicate Grown(m0: seq<U8>, bk0: Bank, m: seq<U8>, bk: Bank, off: int, size: nat)
  {
    && BankOk(m0, bk0, off, size) && |m| == |m0|
    && bk0.used <= bk.used <= size && bk == bk0.(used := bk.used) && SameBytes(m0, off, m, off, bk0.used)
  }

  lemma GrownView(m0: seq<U8>, bk0: Bank, m: seq<U8>, bk: Bank, off: int, size: nat)
    requires Grown(m0, bk0, m, bk, off, size)
    ensures BankOk(m, bk, off, size) && View(m, bk) == View(m0, bk0).(used := bk.used)
  {
    MovedView(m0, bk0, off, m, bk0, off, size);
  }

  /** A write beyond the clone keeps it. */
  lemma GrownWrite(m0: seq<U8>, bk0: Bank, m: seq<U8>, bk: Bank, off: int, size: nat, p: nat, data: seq<U8>, used: nat)
    requires Grown(m0, bk0, m, bk, off, size) && off + bk0.used <= p && p + |data| <= |m| && bk.used <= used <= size
    ensures Grown(m0, bk0, Splice(m, p, data), bk.(used := used), off, size)
  {
    hide DirOk;
    SpliceElsewhere(m, p, data, off, off + bk0.used);
  }

  lemma Undisturbed(m: seq<U8>, m': seq<U8>, bk: Bank, off: nat, size: nat)
    requires BankOk(m, bk, off, size) && |m'| == |m| && m'[off..off + size] == m[off..off + size]
    ensures BankOk(m', bk, off, size) && View(m', bk) == View(m, bk)
  {
    SubBytes(m, off, m', off, size, off, bk.used);
    MovedView(m, bk, off, m', bk, off, size);
  }

  /** Where an update started, and what cloning put into the inactive bank. */
  datatype Start = Start(s: Sys, first: Moment, m: seq<U8>, clone: Bank)

  /** The cursor of the bank being written is at or beyond the end of the clone. */
  ghost predicate Room(r: Region, inb: nat, g: Start)
    reads r`active, r.banks
  {
    && r.Frame() && inb == 1 - r.active && g.s.active == r.active
    && g.s.rec.used == g.clone.used <= r.banks[inb].used <= r.size
  }

  /** The bank is still the clone with more bytes behind it, and nothing a reader of the
      active bank sees has changed. */
  ghost predicate Sound(r: Region, inb: nat, g: Start)
    requires Room(r, inb, g)
    reads r, r.mem, r.banks
  {
    && r.Valid() && r.Steady() && r.log[0] == g.first
    && g.s.rec == r.Rec(r.active) && g.s.Stamp(r.active) == r.banks[r.active].stamp
    && Grown(g.m, g.clone, r.mem[..], r.banks[inb], r.off[inb], r.size)
    && View(g.m, g.clone) == g.s.rec && g.clone.stamp == Wrap32(g.s.Stamp(inb) + 1)
  }

  /** Bank inb is being written. */
  ghost predicate Working(r: Region, inb: nat, g: Start)
    reads r, r.mem, r.banks
  {
    Room(r, inb, g) && Sound(r, inb, g)
  }

  method Stage(r: Region) returns (inb: nat, ghost g: Start)
    requires r.Valid()
    modifies r.mem, r.banks, r`log
    ensures Working(r, inb, g) && g.s == old(StateOf(r)) && g.first == old(r.Now()) && r.banks[inb] == g.clone
  {
    hide View, DirOk, Region.SnapOf;
    inb := 1 - r.active;
    ghost var s, m := StateOf(r), r.mem[..];
    r.Begin();
    ghost var first := r.Now();
    r.BankClone(inb, r.active);
    g := Start(s, first, r.mem[..], r.banks[inb]);
    ViewUsed(g.m, g.clone);
    Undisturbed(m, r.mem[..], r.banks[r.active], r.off[r.active], r.size);
  }

  method PokeIn(r: Region, inb: nat, ghost g: Start, p: nat, data: seq<U8>)
    requires Working(r, inb, g) && r.off[inb] + g.clone.used <= p && p + |data| <= r.off[inb] + r.size
    modifies r.mem, r`log
    ensures Working(r, inb, g) && r.mem[..] == Splice(old(r.mem[..]), p, data)
  {
    hide View, DirOk, Splice, Region.SnapOf, Region.Now;
    ghost var m := r.mem[..];
    r.Poke(inb, p, data);
    Undisturbed(m, r.mem[..], r.banks[r.active], r.off[r.active], r.size);
    GrownWrite(g.m, g.clone, m, r.banks[inb], r.off[inb], r.size, p, data, r.banks[inb].used);
  }

  method AllocIn(r: Region, inb: nat, ghost g: Start, n: nat) returns (p: Option<int>)
    requires Working(r, inb, g)
    modifies r.banks, r`log
    ensures Working(r, inb, g)
    ensures p == if AlignUp(old(r.banks[inb].used)) + n <= r.size then Some(r.off[inb] + AlignUp(old(r.banks[inb].used))) else None
    ensures r.banks[inb].used == if p.Some? then AlignUp(old(r.banks[inb].used)) + n else old(r.banks[inb].used)
  {
    hide View, DirOk, Region.SnapOf;
    ghost var m := r.mem[..];
    p := r.ArenaAlloc(inb, n);
    Undisturbed(m, r.mem[..], r.banks[r.active], r.off[r.active], r.size);
  }

  lemma WorkingView(r: Region, inb: nat, g: Start)
    requires Working(r, inb, g)
    ensures BankOk(r.mem[..], r.banks[inb], r.off[inb], r.size)
    ensures View(r.mem[..], r.banks[inb]) == g.s.rec.(used := r.banks[inb].used)
  {
    hide View, DirOk, Region.SnapOf;
    GrownView(g.m, g.clone, r.mem[..], r.banks[inb], r.off[inb], r.size);
  }

  /** A refused update has changed only the inactive bank. */
  lemma Refused(r: Region, inb: nat, g: Start)
    requires Working(r, inb, g)
    ensures r.Valid() && Turn(r.log) && r.log[0] == g.first
    ensures StateOf(r) == g.s.Restamp(inb, Wrap32(g.s.Stamp(inb) + 1))
  {
    hide View, DirOk, Region.SnapOf;
  }

  method PublishIn(r: Region, inb: nat, ghost g: Start, bk: Bank)
    requires Working(r, inb, g) && BankOk(r.mem[..], bk, r.off[inb], r.size) && bk.stamp == r.banks[inb].stamp
    modifies r.banks, r`active, r`log
    ensures r.Valid() && Turn(r.log) && r.log[0] == g.first
    ensures StateOf(r) == g.s.Restamp(inb, Settled(Wrap32(g.s.Stamp(inb) + 1))).(rec := View(r.mem[..], bk), active := inb)
  {
    hide View, Region.SnapOf;
    r.SetBank(inb, bk);
    r.Publish(inb);
  }

  method DupIn(r: Region, inb: nat, ghost g: Start, data: seq<U8>) returns (p: Option<int>)
    requires Working(r, inb, g)
    modifies r.mem, r.banks, r`log
    ensures Working(r, inb, g)
    ensures p == if AlignUp(old(r.banks[inb].used)) + |data| <= r.size then Some(r.off[inb] + AlignUp(old(r.banks[inb].used))) else None
    ensures r.banks[inb].used == if p.Some? then AlignUp(old(r.banks[inb].used)) + |data| else old(r.banks[inb].used)
    ensures p.Some? ==> r.mem[..] == Splice(old(r.mem[..]), p.value, data)
    ensures p.None? ==> r.mem[..] == old(r.mem[..])
  {
    hide View, DirOk, Splice, Wrap32, Region.SnapOf, Region.Now, Region.Steady;
    ghost var m, bk := r.mem[..], r.banks[inb];
    p := r.ArenaDup(inb, data);
    Undisturbed(m, r.mem[..], r.banks[r.active], r.off[r.active], r.size);
    if p.Some? {
      GrownWrite(g.m, g.clone, m, bk, r.off[inb], r.size, p.value, data, r.banks[inb].used);
    }
  }

  // ---- inline models -----------------------------------------------------------------------

  /** The reference lies in the used part of the arena and data is behind it. */
  ghost predicate Holds(m: seq<U8>, ref: Ref, data: seq<U8>, off: int, used: nat)
  {
    ref.n == |data| && RefOk(ref, ref.n, off, used) && Fetch(m, ref, ref.n) == data
  }

  lemma HoldsStill(m: seq<U8>, ref: Ref, data: seq<U8>, off: int, used: nat, m': seq<U8>, used': nat)
    requires Holds(m, ref, data, off, used) && SameBytes(m, off, m', off, used) && used <= used'
    ensures Holds(m', ref, data, off, used')
  {
    SubFetch(m, off, m', off, used, ref, ref.n);
  }

  /** An empty blob is a null pointer; another is copied behind everything in the arena. */
  method AddBlob(r: Region, inb: nat, ghost g: Start, data: seq<U8>) returns (p: Option<int>)
    requires Working(r, inb, g)
    modifies r.mem, r.banks, r`log
    ensures Working(r, inb, g)
    ensures (data == [] || p.Some?) <==> Bump(old(r.banks[inb].used), |data|) <= r.size
    ensures data == [] || p.Some? ==>
              && r.banks[inb].used == Bump(old(r.banks[inb].used), |data|)
              && Holds(r.mem[..], Ref(p, |data|), data, r.off[inb], r.banks[inb].used)
    ensures SameBytes(old(r.mem[..]), r.off[inb], r.mem[..], r.off[inb], old(r.banks[inb].used))
    ensures old(r.banks[inb].used) <= r.banks[inb].used
  {
    hide Sound, View, DirOk, Splice, Bytes;
    if data == [] { return None; }
    ghost var m, used := r.mem[..], r.banks[inb].used;
    p := DupIn(r, inb, g, data);
    if p.Some? {
      SpliceElsewhere(m, p.value, data, r.off[inb], r.off[inb] + used);
      SpliceHere(m, p.value, data);
    }
  }

  lemma MlPatch(m: seq<U8>, bk: Bank, off: int, size: nat, ml: Ml, tree: Ref, ngram: Ref)
    requires BankOk(m, bk, off, size)
    requires Holds(m, tree, ml.tree, off, bk.used) && Holds(m, ngram, ml.ngram, off, bk.used)
    ensures var bk' := bk.(mlVersion := ml.version, mlKind := ml.kind, mlFeatures := ml.features, tree := tree, ngram := ngram);
            BankOk(m, bk', off, size) && View(m, bk') == View(m, bk).(ml := ml)
  {
  }

  method ApplyMl(r: Region, u: Update) returns (code: Code)
    requires r.Valid() && u.MlModel?
    modifies r.mem, r.banks, r`active, r`log
    ensures r.Valid() && code == Verdict(old(r.Rec(r.active)).used, r.size, u)
    ensures StateOf(r) == Step(old(StateOf(r)), r.size, u)
    ensures Turn(r.log) && r.log[0] == old(r.Now())
  {
    hide Sound, View, BankOk, Splice, Bytes, Holds, Step, Turn, SameBytes, AlignUp, Region.Valid, Region.Rec, Region.Now;
    var inb, g := Stage(r);
    var tree := AddBlob(r, inb, g, u.tree);
    ghost var m, used := r.mem[..], r.banks[inb].used;
    var ngram := AddBlob(r, inb, g, u.ngram);
    if (u.tree != [] && tree.None?) || (u.ngram != [] && ngram.None?) {
      Refused(r, inb, g);
      StepRefused(g.s, r.size, u);
      return ENOMEM;
    }
    StepAccepted(g.s, r.size, u);
    HoldsStill(m, Ref(tree, |u.tree|), u.tree, r.off[inb], used, r.mem[..], r.banks[inb].used);
    WorkingView(r, inb, g);
    MlPatch(r.mem[..], r.banks[inb], r.off[inb], r.size, Ml(u.version, u.features, u.kind, u.tree, u.ngram),
            Ref(tree, |u.tree|), Ref(ngram, |u.ngram|));
    PublishIn(r, inb, g, r.banks[inb].(mlVersion := u.version, mlKind := u.kind, mlFeatures := u.features,
                                       tree := Ref(tree, |u.tree|), ngram := Ref(ngram, |u.ngram|)));
    return OK;
  }

  // ---- policy --------------------------------------------------------------------------------

  lemma AppendBytes(m: seq<U8>, at: nat, n: nat, d: seq<U8>)
    requires at + n + |d| <= |m|
    ensures Bytes(Splice(m, at + n, d), at, n + |d|) == Bytes(m, at, n) + d
  {
  }

  lemma CompileNext(rows: seq<WireRow>, vsys: U8, i: nat)
    requires i < |rows| && forall k :: 0 <= k <= i ==> GoodRow(rows[k])
    ensures EncRows(CompileRows(rows[..i + 1], vsys)) == EncRows(CompileRows(rows[..i], vsys)) + EncRow(CompileRow(rows[i], vsys, i))
  {
    hide CompileRow, EncRow;
    assert CompileRows(rows[..i + 1], vsys)[..i] == CompileRows(rows[..i], vsys);
  }

  /** Compiles the rows into the table at `at`, stopping at the first malformed address. */
  method WriteRows(r: Region, inb: nat, ghost g: Start, at: nat, vsys: U8, rows: seq<WireRow>) returns (ok: bool)
    requires Working(r, inb, g) && r.off[inb] + g.clone.used <= at
    requires at + Policy.ROW_SIZE * |rows| <= r.off[inb] + r.size <= r.mem.Length
    modifies r.mem, r`log
    ensures Working(r, inb, g)
    ensures ok <==> forall w :: w in rows ==> GoodRow(w)
    ensures ok ==> Bytes(r.mem[..], at, Policy.ROW_SIZE * |rows|) == EncRows(CompileRows(rows, vsys))
  {
    hide Sound, View, DirOk, Splice, Bytes, EncRow, EncRows, CompileRow, CompileRows, ParseCidr, GoodRow;
    EmptyBytes(r.mem[..], at);
    NoRows(vsys);
    assert rows[..0] == [];
    for i := 0 to |rows|
      invariant Working(r, inb, g)
      invariant forall k :: 0 <= k < i ==> GoodRow(rows[k])
      invariant Bytes(r.mem[..], at, Policy.ROW_SIZE * i) == EncRows(CompileRows(rows[..i], vsys))
    {
      if !GoodRow(rows[i]) { return false; }
      var e := CompileRow(rows[i], vsys, i);
      HostRowRoundTrip(e);
      AppendBytes(r.mem[..], at, Policy.ROW_SIZE * i, EncRow(e));
      CompileNext(rows, vsys, i);
      PokeIn(r, inb, g, at + Policy.ROW_SIZE * i, EncRow(e));
    }
    assert rows[..|rows|] == rows;
    return true;
  }

  lemma EmptyBytes(m: seq<U8>, p: int)
    ensures Bytes(m, p, 0) == []
  {
  }

  lemma PolicyPatch(m: seq<U8>, bk: Bank, off: int, size: nat, rows: seq<Policy.PolicyRow>, ref: Ref)
    requires BankOk(m, bk, off, size) && ref.n == |rows| && RefOk(ref, Policy.ROW_SIZE * |rows|, off, bk.used)
    requires Fetch(m, ref, Policy.ROW_SIZE * |rows|) == EncRows(rows)
    ensures var bk' := bk.(policy := ref);
            BankOk(m, bk', off, size) && View(m, bk') == View(m, bk).(policy := rows)
  {
    RowsRoundTrip(rows);
  }

  /** Allocates the table, clears it and fills it. */
  method AddRows(r: Region, inb: nat, ghost g: Start, u: Update) returns (ent: Option<int>, code: Code)
    requires Working(r, inb, g) && u.PolicyRows?
    modifies r.mem, r.banks, r`log
    ensures Working(r, inb, g) && code == Verdict(old(r.banks[inb].used), r.size, u)
    ensures code == OK ==>
              && r.banks[inb].used == Demand(old(r.banks[inb].used), u)
              && RefOk(Ref(ent, |u.rows|), Policy.ROW_SIZE * |u.rows|, r.off[inb], r.banks[inb].used)
              && Fetch(r.mem[..], Ref(ent, |u.rows|), Policy.ROW_SIZE * |u.rows|) == EncRows(CompileRows(u.rows, u.vsys))
  {
    hide Sound, View, DirOk, Splice, CompileRow, ParseCidr, EncRows;
    NoRows(u.vsys);
    var n := |u.rows|;
    if n == 0 { return None, OK; }
    ent := AllocIn(r, inb, g, Policy.ROW_SIZE * n);
    if ent.None? { return ent, ENOMEM; }
    PokeIn(r, inb, g, ent.value, seq(Policy.ROW_SIZE * n, i => 0));
    var ok := WriteRows(r, inb, g, ent.value, u.vsys, u.rows);
    return ent, if ok then OK else EDPMEM;
  }

  method ApplyPolicy(r: Region, u: Update) returns (code: Code)
    requires r.Valid() && u.PolicyRows?
    modifies r.mem, r.banks, r`active, r`log
    ensures r.Valid() && code == Verdict(old(r.Rec(r.active)).used, r.size, u)
    ensures StateOf(r) == Step(old(StateOf(r)), r.size, u)
    ensures Turn(r.log) && r.log[0] == old(r.Now())
  {
    hide Sound, View, BankOk, Splice, CompileRows, ParseCidr, EncRows, Step, Turn, Region.Valid, Region.Rec, Region.Now;
    var inb, g := Stage(r);
    var ent;
    ent, code := AddRows(r, inb, g, u);
    if code != OK {
      Refused(r, inb, g);
      StepRefused(g.s, r.size, u);
      return;
    }
    StepAccepted(g.s, r.size, u);
    WorkingView(r, inb, g);
    PolicyPatch(r.mem[..], r.banks[inb], r.off[inb], r.size, CompileRows(u.rows, u.vsys), Ref(ent, |u.rows|));
    PublishIn(r, inb, g, r.banks[inb].(policy := Ref(ent, |u.rows|)));
  }

  lemma NoRows(vsys: U8)
    ensures EncRows(CompileRows([], vsys)) == []
  {
  }

  // ---- threat intelligence -----------------------------------------------------------------------

  const NULL: seq<U8> := [0, 0, 0, 0, 0, 0, 0, 0]

  /** A signature row as the host lays it out, pointers not yet set. */
  function SigImage(s: SigRow): (b: seq<U8>)
    ensures |b| == SIG_SIZE && Cols(b, SIG_COLUMNS) == StLe32(s.sid) + [s.severity, s.verdict]
  {
    StLe32(s.sid) + [0, 0, 0, 0] + NULL + NULL + NULL + NULL + StLe32(Wrap32(|s.digest|)) + [0, 0, 0, 0] + NULL
    + [s.severity, s.verdict, 0, 0, 0, 0, 0, 0] + NULL
  }

  function IocImage(o: IocRow): (b: seq<U8>)
    ensures |b| == IOC_SIZE && Cols(b, IOC_COLUMNS) == [o.verdict]
  {
    NULL + NULL + [o.verdict, 0, 0, 0, 0, 0, 0, 0]
  }

  /** Where the pointers of a row lie, in the order their strings are copied. */
  const SIG_POINTERS: seq<nat> := [8, 16, 24, 48, 64, 32]
  const IOC_POINTERS: seq<nat> := [0, 8]

  /** A table of rows behind a reference, by its plain columns. */
  ghost predicate TableAt(m: seq<U8>, ref: Ref, stride: nat, columns: seq<nat>, cols: seq<seq<U8>>, off: int, used: nat)
  {
    && ref.n == |cols| && RefOk(ref, stride * ref.n, off, used)
    && Columns(Fetch(m, ref, stride * ref.n), stride, ref.n, columns) == cols
  }

  /** Below used, only the bytes from lo to hi may have changed. */
  ghost predicate Around(m: seq<U8>, m': seq<U8>, off: int, lo: int, hi: int, used: nat)
  {
    && off <= lo <= hi <= off + used
    && SameBytes(m, off, m', off, lo - off) && SameBytes(m, hi, m', hi, off + used - hi)
  }

  lemma AroundSelf(m: seq<U8>, off: int, lo: int, hi: int, used: nat)
    requires 0 <= off <= lo <= hi <= off + used <= |m|
    ensures Around(m, m, off, lo, hi, used)
  {
  }

  lemma AroundWrite(m: seq<U8>, m': seq<U8>, off: int, lo: int, hi: int, used: nat, p: nat, d: seq<U8>)
    requires Around(m, m', off, lo, hi, used) && p + |d| <= |m'|
    requires (lo <= p && p + |d| <= hi) || off + used <= p
    ensures Around(m, Splice(m', p, d), off, lo, hi, used)
  {
    hide Splice;
    SpliceElsewhere(m', p, d, off, lo);
    SpliceElsewhere(m', p, d, hi, off + used);
  }

  /** A table on either side of the changed bytes is still there. */
  lemma TableStill(m: seq<U8>, m': seq<U8>, off: int, lo: int, hi: int, used: nat, used': nat,
                                      ref: Ref, stride: nat, columns: seq<nat>, cols: seq<seq<U8>>)
    requires Around(m, m', off, lo, hi, used) && TableAt(m, ref, stride, columns, cols, off, used) && used <= used'
    requires ref.ptr.Some? ==> ref.ptr.value + stride * ref.n <= lo || hi <= ref.ptr.value
    ensures TableAt(m', ref, stride, columns, cols, off, used')
  {
    if ref.ptr.Some? {
      var n := stride * ref.n;
      if ref.ptr.value + n <= lo {
        SubFetch(m, off, m', off, lo - off, ref, n);
      } else {
        SubFetch(m, hi, m', hi, off + used - hi, ref, n);
      }
    }
  }

  /** A write inside a block of memory is a write inside its bytes. */
  lemma BlockWrite(m: seq<U8>, at: nat, n: nat, p: nat, d: seq<U8>)
    requires at <= p && p + |d| <= at + n <= |m|
    ensures Bytes(Splice(m, p, d), at, n) == Splice(Bytes(m, at, n), p - at, d)
  {
    hide Splice;
    SpliceSlice(m, p, d, at, n);
  }

  lemma BlockElsewhere(m: seq<U8>, at: nat, n: nat, p: nat, d: seq<U8>)
    requires at + n <= p && p + |d| <= |m|
    ensures Bytes(Splice(m, p, d), at, n) == Bytes(m, at, n)
  {
    hide Splice;
    SpliceElsewhere(m, p, d, at, at + n);
  }

  /** A table of n rows in an arena. */
  datatype Block = Block(at: nat, stride: nat, n: nat, columns: seq<nat>) {
    function Len(): nat { stride * n }
    function End(): nat { at + Len() }
    function Place(i: nat, f: nat): (p: nat)
      ensures p >= at
    {
      at + stride * i + f
    }
    ghost function Read(m: seq<U8>): (r: seq<seq<U8>>)
      ensures |r| == n
    {
      Columns(Bytes(m, at, Len()), stride, n, columns)
    }
  }

  /** The block lies beyond the clone, within the first used bytes. */
  ghost predicate Fresh(r: Region, inb: nat, g: Start, t: Block, used: nat)
    requires r.Frame() && inb < 2
    reads r`active, r.banks
  {
    t.stride > 0 && r.off[inb] + g.clone.used <= t.at && t.End() <= r.off[inb] + used && used <= r.banks[inb].used
  }

  /** Copies one string and sets the pointer to it; a string that does not fit leaves a null. */
  method InternOne(r: Region, inb: nat, ghost g: Start, t: Block, i: nat, pointer: nat, s: seq<U8>, ghost m0: seq<U8>, ghost used0: nat)
    requires Working(r, inb, g) && Fresh(r, inb, g, t, used0) && i < t.n
    requires pointer + 8 <= t.stride && Misses(t.columns, pointer, 8)
    requires Around(m0, r.mem[..], r.off[inb], t.at, t.End(), used0)
    modifies r.mem, r.banks, r`log
    ensures Working(r, inb, g)
    ensures r.banks[inb].used == Interned(old(r.banks[inb].used), r.size, [Some(s)])
    ensures t.Read(r.mem[..]) == old(t.Read(r.mem[..]))
    ensures Around(m0, r.mem[..], r.off[inb], t.at, t.End(), used0)
  {
    hide Sound, View, Splice, Around, StLe64, Misses, AlignUp, Interned, Wrap64, Block.Len, Block.Read, Block.Place;
    ghost var m := r.mem[..];
    var p := DupIn(r, inb, g, s);
    if p.Some? {
      StringWrite(m0, m, r.off[inb], t, used0, p.value, s);
    }
    m := r.mem[..];
    var ptr := StLe64(Wrap64(if p.Some? then p.value else 0));
    LoadStore64(Wrap64(if p.Some? then p.value else 0), []);
    PointerWrite(m0, m, r.off[inb], t, i, used0, pointer, ptr);
    PokeIn(r, inb, g, t.Place(i, pointer), ptr);
    InternedOne(old(r.banks[inb].used), r.size, s);
  }

  lemma InternedOne(used: nat, size: nat, s: seq<U8>)
    ensures Interned(used, size, [Some(s)]) == if AlignUp(used) + |s| <= size then AlignUp(used) + |s| else used
  {
    assert [Some(s)][..0] == [];
  }

  lemma InternedNext(used: nat, size: nat, strings: seq<Option<seq<U8>>>, k: nat)
    requires k < |strings|
    ensures var u := Interned(used, size, strings[..k]);
            Interned(used, size, strings[..k + 1]) == if strings[k].Some? then Interned(u, size, [strings[k]]) else u
  {
    assert strings[..k + 1][..k] == strings[..k];
    if strings[k].Some? { InternedOne(Interned(used, size, strings[..k]), size, strings[k].value); }
  }

  /** Copies the strings of row i and sets its pointers. */
  method InternRow(r: Region, inb: nat, ghost g: Start, t: Block, i: nat, pointers: seq<nat>, strings: seq<Option<seq<U8>>>,
                   ghost m0: seq<U8>, ghost used0: nat)
    requires Working(r, inb, g) && Fresh(r, inb, g, t, used0) && i < t.n && |strings| == |pointers|
    requires forall k :: 0 <= k < |pointers| ==> pointers[k] + 8 <= t.stride && Misses(t.columns, pointers[k], 8)
    requires Around(m0, r.mem[..], r.off[inb], t.at, t.End(), used0)
    modifies r.mem, r.banks, r`log
    ensures Working(r, inb, g) && Fresh(r, inb, g, t, used0)
    ensures r.banks[inb].used == Interned(old(r.banks[inb].used), r.size, strings)
    ensures t.Read(r.mem[..]) == old(t.Read(r.mem[..]))
    ensures Around(m0, r.mem[..], r.off[inb], t.at, t.End(), used0)
  {
    hide Sound, View, DirOk, Columns, Bytes, Around, AlignUp, Misses, Interned, Block.Len;
    ghost var used := r.banks[inb].used;
    InternedNone(used, r.size);
    assert strings[..0] == [];
    for k := 0 to |strings|
      invariant Working(r, inb, g) && Fresh(r, inb, g, t, used0)
      invariant r.banks[inb].used == Interned(used, r.size, strings[..k])
      invariant t.Read(r.mem[..]) == old(t.Read(r.mem[..]))
      invariant Around(m0, r.mem[..], r.off[inb], t.at, t.End(), used0)
    {
      InternedNext(used, r.size, strings, k);
      if strings[k].Some? {
        InternedGrows(r.banks[inb].used, r.size, [strings[k]]);
        InternOne(r, inb, g, t, i, pointers[k], strings[k].value, m0, used0);
      }
    }
    assert strings[..|strings|] == strings;
  }

  lemma InternedNone(used: nat, size: nat)
    ensures Interned(used, size, []) == used
  {
  }

  lemma {:induction false} InternedGrows(used: nat, size: nat, strings: seq<Option<seq<U8>>>)
    ensures used <= Interned(used, size, strings) && (used <= size ==> Interned(used, size, strings) <= size)
  {
    if strings != [] { InternedGrows(used, size, strings[..|strings| - 1]); }
  }

  lemma StringWrite(m0: seq<U8>, m: seq<U8>, off: int, t: Block, used: nat, p: nat, s: seq<U8>)
    requires Around(m0, m, off, t.at, t.End(), used) && off + used <= p && p + |s| <= |m|
    ensures Around(m0, Splice(m, p, s), off, t.at, t.End(), used) && t.Read(Splice(m, p, s)) == t.Read(m)
  {
    hide Splice;
    AroundWrite(m0, m, off, t.at, t.End(), used, p, s);
    BlockElsewhere(m, t.at, t.Len(), p, s);
  }

  lemma PointerWrite(m0: seq<U8>, m: seq<U8>, off: int, t: Block, i: nat, used: nat, f: nat, d: seq<U8>)
    requires Around(m0, m, off, t.at, t.End(), used) && t.End() <= |m|
    requires i < t.n && t.stride > 0 && f + |d| <= t.stride && Misses(t.columns, f, |d|)
    ensures t.Place(i, f) + |d| <= t.End()
    ensures var m' := Splice(m, t.Place(i, f), d);
            Around(m0, m', off, t.at, t.End(), used) && t.Read(m') == t.Read(m)
  {
    hide Splice, Columns, Around;
    RowsApart(t.stride, i, t.n);
    ColumnsKept(Bytes(m, t.at, t.Len()), t.stride, t.n, t.columns, i, f, d);
    PointerAround(m0, m, off, t.at, t.Len(), used, t.stride * i + f, d);
  }

  lemma PointerAround(m0: seq<U8>, m: seq<U8>, off: int, at: nat, len: nat, used: nat, x: nat, d: seq<U8>)
    requires Around(m0, m, off, at, at + len, used) && at + len <= |m| && x + |d| <= len
    ensures Around(m0, Splice(m, at + x, d), off, at, at + len, used)
    ensures Bytes(Splice(m, at + x, d), at, len) == Splice(Bytes(m, at, len), x, d)
  {
    hide Splice;
    AroundWrite(m0, m, off, at, at + len, used, at + x, d);
    BlockWrite(m, at, len, at + x, d);
  }

  lemma InternedRowsNext(used: nat, size: nat, rows: seq<seq<Option<seq<U8>>>>, i: nat)
    requires i < |rows|
    ensures InternedRows(used, size, rows[..i + 1]) == Interned(InternedRows(used, size, rows[..i]), size, rows[i])
  {
    assert rows[..i + 1][..i] == rows[..i];
  }

  method InternRows(r: Region, inb: nat, ghost g: Start, t: Block, pointers: seq<nat>, rows: seq<seq<Option<seq<U8>>>>)
    requires Working(r, inb, g) && Fresh(r, inb, g, t, r.banks[inb].used)
    requires |rows| == t.n && forall i :: 0 <= i < |rows| ==> |rows[i]| == |pointers|
    requires forall k :: 0 <= k < |pointers| ==> pointers[k] + 8 <= t.stride && Misses(t.columns, pointers[k], 8)
    modifies r.mem, r.banks, r`log
    ensures Working(r, inb, g) && r.banks[inb].used == InternedRows(old(r.banks[inb].used), r.size, rows)
    ensures old(r.banks[inb].used) <= r.banks[inb].used
    ensures t.Read(r.mem[..]) == old(t.Read(r.mem[..]))
    ensures Around(old(r.mem[..]), r.mem[..], r.off[inb], t.at, t.End(), old(r.banks[inb].used))
  {
    hide Sound, View, DirOk, Columns, Bytes, Around, AlignUp, Misses, Interned, Block.Len;
    ghost var m0, used0 := r.mem[..], r.banks[inb].used;
    AroundSelf(m0, r.off[inb], t.at, t.End(), used0);
    for i := 0 to |rows|
      invariant Working(r, inb, g) && Fresh(r, inb, g, t, used0)
      invariant r.banks[inb].used == InternedRows(used0, r.size, rows[..i])
      invariant t.Read(r.mem[..]) == old(t.Read(r.mem[..]))
      invariant Around(m0, r.mem[..], r.off[inb], t.at, t.End(), used0)
    {
      InternedRowsNext(used0, r.size, rows, i);
      InternRow(r, inb, g, t, i, pointers, rows[i], m0, used0);
    }
    assert rows[..|rows|] == rows;
  }

  lemma RowWrite(m: seq<U8>, t: Block, off: int, j: nat, row: seq<U8>)
    requires t.stride > 0 && j < t.n && |row| == t.stride && 0 <= off <= t.at && t.End() <= |m|
    ensures t.at + t.stride * j + |row| <= t.End()
    ensures var m' := Splice(m, t.at + t.stride * j, row);
            t.Read(m') == t.Read(m)[j := Cols(row, t.columns)] && SameBytes(m, off, m', off, t.at - off)
  {
    hide Splice, Columns, Cols;
    RowsApart(t.stride, j, t.n);
    var p := t.at + t.stride * j;
    BlockWrite(m, t.at, t.Len(), p, row);
    ColumnsSet(Bytes(m, t.at, t.Len()), t.stride, t.n, t.columns, j, row);
    SpliceElsewhere(m, p, row, off, t.at);
  }

  ghost function AllCols(rows: seq<seq<U8>>, columns: seq<nat>): (r: seq<seq<U8>>)
    ensures |r| == |rows|
  {
    seq(|rows|, i requires 0 <= i < |rows| => Cols(rows[i], columns))
  }

  lemma TableNext(m0: seq<U8>, m: seq<U8>, t: Block, off: int, j: nat, rows: seq<seq<U8>>)
    requires |rows| == t.n && j < t.n && |rows[j]| == t.stride > 0 && 0 <= off <= t.at && t.End() <= |m|
    requires SameBytes(m0, off, m, off, t.at - off) && t.Read(m)[..j] == AllCols(rows, t.columns)[..j]
    ensures t.at + t.stride * j + |rows[j]| <= t.End()
    ensures var m' := Splice(m, t.at + t.stride * j, rows[j]);
            SameBytes(m0, off, m', off, t.at - off) && t.Read(m')[..j + 1] == AllCols(rows, t.columns)[..j + 1]
  {
    hide Splice, Block.Read, Cols;
    RowWrite(m, t, off, j, rows[j]);
    var c := t.Read(m);
    assert c[j := Cols(rows[j], t.columns)][..j + 1] == c[..j] + [Cols(rows[j], t.columns)];
    assert AllCols(rows, t.columns)[..j + 1] == AllCols(rows, t.columns)[..j] + [Cols(rows[j], t.columns)];
  }

  method WriteTable(r: Region, inb: nat, ghost g: Start, t: Block, rows: seq<seq<U8>>)
    requires Working(r, inb, g) && Fresh(r, inb, g, t, r.banks[inb].used)
    requires |rows| == t.n && forall i :: 0 <= i < |rows| ==> |rows[i]| == t.stride
    modifies r.mem, r`log
    ensures Working(r, inb, g) && t.Read(r.mem[..]) == AllCols(rows, t.columns)
    ensures SameBytes(old(r.mem[..]), r.off[inb], r.mem[..], r.off[inb], t.at - r.off[inb])
  {
    hide Sound, View, DirOk, SameBytes, Splice, AllCols, Block.Read, Block.Len;
    ghost var m := r.mem[..];
    SameSelf(m, r.off[inb], t.at - r.off[inb]);
    for j := 0 to |rows|
      invariant Working(r, inb, g)
      invariant SameBytes(m, r.off[inb], r.mem[..], r.off[inb], t.at - r.off[inb])
      invariant t.Read(r.mem[..])[..j] == AllCols(rows, t.columns)[..j]
    {
      TableNext(m, r.mem[..], t, r.off[inb], j, rows);
      PokeIn(r, inb, g, t.at + t.stride * j, rows[j]);
    }
  }

  /** Allocates a table and writes its rows; an empty table is a null pointer. */
  method AddTable(r: Region, inb: nat, ghost g: Start, stride: nat, rows: seq<seq<U8>>, columns: seq<nat>) returns (p: Option<int>)
    requires Working(r, inb, g) && stride > 0 && forall i :: 0 <= i < |rows| ==> |rows[i]| == stride
    modifies r.mem, r.banks, r`log
    ensures Working(r, inb, g)
    ensures (rows == [] || p.Some?) <==> Bump(old(r.banks[inb].used), stride * |rows|) <= r.size
    ensures rows == [] ==> p.None?
    ensures rows == [] || p.Some? ==>
              && r.banks[inb].used == Bump(old(r.banks[inb].used), stride * |rows|)
              && TableAt(r.mem[..], Ref(p, |rows|), stride, columns, AllCols(rows, columns), r.off[inb], r.banks[inb].used)
    ensures p.Some? ==> r.off[inb] + old(r.banks[inb].used) <= p.value && p.value + stride * |rows| == r.off[inb] + r.banks[inb].used
    ensures SameBytes(old(r.mem[..]), r.off[inb], r.mem[..], r.off[inb], old(r.banks[inb].used))
  {
    hide Sound, View, DirOk, TableAt, SameBytes, AllCols, Block.Read, AlignUp;
    NoTable(r.mem[..], stride, columns, r.off[inb], r.banks[inb].used);
    SameSelf(r.mem[..], r.off[inb], r.banks[inb].used);
    if rows == [] { return None; }
    ghost var m, used := r.mem[..], r.banks[inb].used;
    RowsApart(stride, 0, |rows|);
    p := AllocIn(r, inb, g, stride * |rows|);
    if p.None? { return; }
    WriteTable(r, inb, g, Block(p.value, stride, |rows|, columns), rows);
    SubBytes(m, r.off[inb], r.mem[..], r.off[inb], p.value - r.off[inb], r.off[inb], used);
    BlockTable(r.mem[..], Block(p.value, stride, |rows|, columns), AllCols(rows, columns), r.off[inb], r.banks[inb].used);
  }

  lemma NoTable(m: seq<U8>, stride: nat, columns: seq<nat>, off: int, used: nat)
    ensures TableAt(m, Ref(None, 0), stride, columns, AllCols([], columns), off, used)
  {
  }

  lemma SameSelf(m: seq<U8>, off: int, used: nat)
    requires 0 <= off && off + used <= |m|
    ensures SameBytes(m, off, m, off, used)
  {
  }

  lemma BlockTable(m: seq<U8>, t: Block, cols: seq<seq<U8>>, off: int, used: nat)
    requires t.Read(m) == cols && off <= t.at && t.End() <= off + used
    ensures TableAt(m, Ref(Some(t.at), t.n), t.stride, t.columns, cols, off, used)
  {
  }

  // ---- threat-intelligence updates ------------------------------------------------------------------

  function SigImages(adds: seq<SigRow>): (r: seq<seq<U8>>)
    ensures |r| == |adds| && forall i :: 0 <= i < |r| ==> |r[i]| == SIG_SIZE
  {
    seq(|adds|, i requires 0 <= i < |adds| => SigImage(adds[i]))
  }

  function IocImages(iocs: seq<IocRow>): (r: seq<seq<U8>>)
    ensures |r| == |iocs| && forall i :: 0 <= i < |r| ==> |r[i]| == IOC_SIZE
  {
    seq(|iocs|, i requires 0 <= i < |iocs| => IocImage(iocs[i]))
  }

  lemma ImageColumns(adds: seq<SigRow>, iocs: seq<IocRow>)
    ensures AllCols(SigImages(adds), SIG_COLUMNS) == SigColumns(adds)
    ensures AllCols(IocImages(iocs), IOC_COLUMNS) == IocColumns(iocs)
  {
    hide SigImage, IocImage, Cols;
  }

  function Words32(ws: seq<U32>): (b: seq<U8>)
    ensures |b| == 4 * |ws|
  {
    if ws == [] then [] else Words32(ws[..|ws| - 1]) + StLe32(ws[|ws| - 1])
  }

  /** Both tables are in place, the signatures before the indicators. */
  ghost predicate Tables(m: seq<U8>, sigs: Option<int>, iocs: Option<int>, u: Update, lo: int, off: int, used: nat)
    requires u.ThreatIntel?
  {
    && TableAt(m, Ref(sigs, |u.adds|), SIG_SIZE, SIG_COLUMNS, SigColumns(u.adds), off, used)
    && TableAt(m, Ref(iocs, |u.iocs|), IOC_SIZE, IOC_COLUMNS, IocColumns(u.iocs), off, used)
    && (sigs.Some? ==> lo <= sigs.value) && (iocs.Some? ==> lo <= iocs.value)
    && (sigs.Some? && iocs.Some? ==> sigs.value + SIG_SIZE * |u.adds| <= iocs.value)
    && (sigs.None? ==> u.adds == []) && (iocs.None? ==> u.iocs == [])
  }

  method AddTables(r: Region, inb: nat, ghost g: Start, u: Update) returns (ok: bool, sigs: Option<int>, iocs: Option<int>)
    requires Working(r, inb, g) && u.ThreatIntel?
    modifies r.mem, r.banks, r`log
    ensures Working(r, inb, g) && (ok <==> Demand(old(r.banks[inb].used), u) <= r.size)
    ensures ok ==> r.banks[inb].used == Demand(old(r.banks[inb].used), u)
    ensures ok ==> Tables(r.mem[..], sigs, iocs, u, r.off[inb] + g.clone.used, r.off[inb], r.banks[inb].used)
  {
    hide Sound, View, DirOk, TableAt, SameBytes, AllCols, SigColumns, IocColumns, AlignUp;
    ImageColumns(u.adds, u.iocs);
    ok, sigs, iocs := false, None, None;
    sigs := AddTable(r, inb, g, SIG_SIZE, SigImages(u.adds), SIG_COLUMNS);
    if u.adds != [] && sigs.None? { return; }
    ghost var m, used := r.mem[..], r.banks[inb].used;
    iocs := AddTable(r, inb, g, IOC_SIZE, IocImages(u.iocs), IOC_COLUMNS);
    if u.iocs != [] && iocs.None? { return; }
    TableKept(m, r.mem[..], r.off[inb], used, r.banks[inb].used, Ref(sigs, |u.adds|), SIG_SIZE, SIG_COLUMNS, SigColumns(u.adds));
    m, used := r.mem[..], r.banks[inb].used;
    var removes := AddBlob(r, inb, g, Words32(u.removes));
    if u.removes != [] && removes.None? { return; }
    TableKept(m, r.mem[..], r.off[inb], used, r.banks[inb].used, Ref(sigs, |u.adds|), SIG_SIZE, SIG_COLUMNS, SigColumns(u.adds));
    TableKept(m, r.mem[..], r.off[inb], used, r.banks[inb].used, Ref(iocs, |u.iocs|), IOC_SIZE, IOC_COLUMNS, IocColumns(u.iocs));
    ok := true;
  }

  lemma TableKept(m: seq<U8>, m': seq<U8>, off: int, used: nat, used': nat,
                                     ref: Ref, stride: nat, columns: seq<nat>, cols: seq<seq<U8>>)
    requires SameBytes(m, off, m', off, used) && used <= used' && TableAt(m, ref, stride, columns, cols, off, used)
    ensures TableAt(m', ref, stride, columns, cols, off, used')
  {
    SubFetch(m, off, m', off, used, ref, stride * ref.n);
  }

  /** Copies the strings of both tables; the tables keep their plain columns. */
  method InternTables(r: Region, inb: nat, ghost g: Start, u: Update, sigs: Option<int>, iocs: Option<int>)
    requires Working(r, inb, g) && u.ThreatIntel?
    requires Tables(r.mem[..], sigs, iocs, u, r.off[inb] + g.clone.used, r.off[inb], r.banks[inb].used)
    modifies r.mem, r.banks, r`log
    ensures Working(r, inb, g) && r.banks[inb].used == StringsEnd(old(r.banks[inb].used), r.size, u.adds, u.iocs)
    ensures Tables(r.mem[..], sigs, iocs, u, r.off[inb] + g.clone.used, r.off[inb], r.banks[inb].used)
  {
    hide Sound, View, DirOk, SameBytes, SigColumns, IocColumns, AlignUp, Columns, Bytes, Around, InternedRows;
    InternedRowsNone(r.banks[inb].used, r.size);
    ghost var lo := r.off[inb] + g.clone.used;
    if sigs.Some? {
      ghost var m, used := r.mem[..], r.banks[inb].used;
      var t := Block(sigs.value, SIG_SIZE, |u.adds|, SIG_COLUMNS);
      InternRows(r, inb, g, t, SIG_POINTERS, SigTableStrings(u.adds));
      SigsInterned(m, r.mem[..], r.off[inb], lo, used, r.banks[inb].used, t, u, sigs, iocs);
    }
    InternedRowsNone(r.banks[inb].used, r.size);
    if iocs.Some? {
      ghost var m, used := r.mem[..], r.banks[inb].used;
      var t := Block(iocs.value, IOC_SIZE, |u.iocs|, IOC_COLUMNS);
      InternRows(r, inb, g, t, IOC_POINTERS, IocTableStrings(u.iocs));
      IocsInterned(m, r.mem[..], r.off[inb], lo, used, r.banks[inb].used, t, u, sigs, iocs);
    }
  }

  lemma InternedRowsNone(used: nat, size: nat)
    ensures InternedRows(used, size, []) == used
  {
  }

  lemma SigsInterned(m: seq<U8>, m': seq<U8>, off: int, lo: int, used: nat, used': nat, t: Block,
                                        u: Update, sigs: Option<int>, iocs: Option<int>)
    requires u.ThreatIntel? && Tables(m, sigs, iocs, u, lo, off, used) && used <= used'
    requires sigs == Some(t.at) && t == Block(t.at, SIG_SIZE, |u.adds|, SIG_COLUMNS)
    requires t.Read(m') == t.Read(m) && Around(m, m', off, t.at, t.End(), used)
    ensures Tables(m', sigs, iocs, u, lo, off, used')
  {
    hide SigColumns, IocColumns, Columns, Bytes;
    TableStill(m, m', off, t.at, t.End(), used, used', Ref(iocs, |u.iocs|), IOC_SIZE, IOC_COLUMNS, IocColumns(u.iocs));
  }

  lemma IocsInterned(m: seq<U8>, m': seq<U8>, off: int, lo: int, used: nat, used': nat, t: Block,
                                        u: Update, sigs: Option<int>, iocs: Option<int>)
    requires u.ThreatIntel? && Tables(m, sigs, iocs, u, lo, off, used) && used <= used'
    requires iocs == Some(t.at) && t == Block(t.at, IOC_SIZE, |u.iocs|, IOC_COLUMNS)
    requires t.Read(m') == t.Read(m) && Around(m, m', off, t.at, t.End(), used)
    ensures Tables(m', sigs, iocs, u, lo, off, used')
  {
    hide SigColumns, IocColumns, Columns, Bytes;
    TableStill(m, m', off, t.at, t.End(), used, used', Ref(sigs, |u.adds|), SIG_SIZE, SIG_COLUMNS, SigColumns(u.adds));
  }

  lemma IntelPatch(m: seq<U8>, bk: Bank, off: int, size: nat, lo: int, u: Update, sigs: Option<int>, iocs: Option<int>)
    requires BankOk(m, bk, off, size) && u.ThreatIntel? && Tables(m, sigs, iocs, u, lo, off, bk.used)
    ensures var bk' := bk.(tiSeq := u.seqno, sig := Ref(sigs, |u.adds|), ioc := Ref(iocs, |u.iocs|));
            && BankOk(m, bk', off, size)
            && View(m, bk') == View(m, bk).(intel := Intel(u.seqno, SigColumns(u.adds), IocColumns(u.iocs)))
  {
    hide SigColumns, IocColumns, Columns, Bytes;
  }

  method ApplyThreatIntel(r: Region, u: Update) returns (code: Code)
    requires r.Valid() && u.ThreatIntel?
    modifies r.mem, r.banks, r`active, r`log
    ensures r.Valid() && code == Verdict(old(r.Rec(r.active)).used, r.size, u)
    ensures StateOf(r) == Step(old(StateOf(r)), r.size, u)
    ensures Turn(r.log) && r.log[0] == old(r.Now())
  {
    hide Sound, View, BankOk, Tables, SigColumns, IocColumns, Step, Turn, StringsEnd, Bump, Region.Valid, Region.Rec, Region.Now;
    var inb, g := Stage(r);
    var ok, sigs, iocs := AddTables(r, inb, g, u);
    if !ok {
      Refused(r, inb, g);
      StepRefused(g.s, r.size, u);
      return ENOMEM;
    }
    InternTables(r, inb, g, u, sigs, iocs);
    StepAccepted(g.s, r.size, u);
    WorkingView(r, inb, g);
    IntelPatch(r.mem[..], r.banks[inb], r.off[inb], r.size, r.off[inb] + g.clone.used, u, sigs, iocs);
    PublishIn(r, inb, g, r.banks[inb].(tiSeq := u.seqno, sig := Ref(sigs, |u.adds|), ioc := Ref(iocs, |u.iocs|)));
    return OK;
  }

  // ---- one frame, and the control loop ----------------------------------------------------------------

  method ApplySigVerdict(r: Region, u: Update)
    requires r.Valid() && u.SignatureVerdict?
    modifies r.banks, r`log
    ensures r.Valid() && StateOf(r) == Step(old(StateOf(r)), r.size, u)
    ensures Turn(r.log) && r.log[0] == old(r.Now())
  {
    hide View, Region.SnapOf, DirOk;
    r.Begin();
    r.SigVerdictApply(u.sid, u.sha, u.verdict, u.ts);
  }

  /** Applies one decoded frame; a refused one leaves the active bank as it was. */
  method Apply(r: Region, u: Update) returns (code: Code)
    requires r.Valid()
    modifies r.mem, r.banks, r`active, r`log
    ensures r.Valid() && code == Verdict(old(r.Rec(r.active)).used, r.size, u)
    ensures StateOf(r) == Step(old(StateOf(r)), r.size, u)
    ensures Turn(r.log) && r.log[0] == old(r.Now())
    ensures code != OK ==> r.active == old(r.active) && r.Rec(r.active) == old(r.Rec(r.active)) && r.SnapOf(r.active) == old(r.SnapOf(r.active))
  {
    hide View, DirOk, Region.SnapOf;
    match u
    case MlModel(_, _, _, _, _) => code := ApplyMl(r, u);
    case ThreatIntel(_, _, _, _) => code := ApplyThreatIntel(r, u);
    case PolicyRows(_, _) => code := ApplyPolicy(r, u);
    case SignatureVerdict(_, _, _, _) =>
      ApplySigVerdict(r, u);
      code := OK;
    case Unusable(why) =>
      r.Begin();
      code := Malformed(why);
  }

  ghost function Run(s: Sys, size: nat, us: seq<Update>): (r: Sys)
    requires s.active < 2
    ensures r.active < 2
  {
    if us == [] then s else Step(Run(s, size, us[..|us| - 1]), size, us[|us| - 1])
  }

  ghost function Codes(s: Sys, size: nat, us: seq<Update>): (codes: seq<Code>)
    requires s.active < 2
  {
    if us == [] then []
    else
      var before := us[..|us| - 1];
      Codes(s, size, before) + [Verdict(Run(s, size, before).rec.used, size, us[|us| - 1])]
  }

  /** The moments of successive updates: each starts where the one before it ended. */
  ghost predicate Chained(frames: seq<seq<Moment>>)
  {
    && (forall k :: 0 <= k < |frames| ==> Turn(frames[k]))
    && (forall k :: 0 <= k < |frames| - 1 ==> frames[k + 1][0] == frames[k][|frames[k]| - 1])
  }

  lemma ChainedNext(frames: seq<seq<Moment>>, f: seq<Moment>)
    requires Chained(frames) && Turn(f)
    requires frames != [] ==> frames[|frames| - 1] != [] && f[0] == frames[|frames| - 1][|frames[|frames| - 1]| - 1]
    ensures Chained(frames + [f])
  {
    hide Turn;
  }

  /** Applies every frame of the control channel; the consumer never asks its caller to flip. */
  method ControlLoop(r: Region, us: seq<Update>) returns (codes: seq<Code>, ghost frames: seq<seq<Moment>>)
    requires r.Valid()
    modifies r.mem, r.banks, r`active, r`log
    ensures r.Valid() && StateOf(r) == Run(old(StateOf(r)), r.size, us)
    ensures codes == Codes(old(StateOf(r)), r.size, us)
    ensures |frames| == |us| && Chained(frames) && (us != [] ==> frames[0] != [] && frames[0][0] == old(r.Now()))
  {
    hide View, BankOk, Step, Chained, Turn, Verdict, Region.Now, Region.Rec;
    ghost var s, now := StateOf(r), r.Now();
    codes, frames := [], [];
    NoFrames();
    assert us[..0] == [];
    for i := 0 to |us|
      invariant r.Valid() && StateOf(r) == Run(s, r.size, us[..i])
      invariant codes == Codes(s, r.size, us[..i])
      invariant |frames| == i && Chained(frames)
      invariant i == 0 ==> r.Now() == now
      invariant i > 0 ==> frames[0] != [] && frames[0][0] == now
      invariant i > 0 ==> frames[i - 1] != [] && frames[i - 1][|frames[i - 1]| - 1] == r.Now()
    {
      assert us[..i + 1][..i] == us[..i];
      var code := Apply(r, us[i]);
      ChainedNext(frames, r.log);
      codes, frames := codes + [code], frames + [r.log];
    }
    assert us[..|us|] == us;
  }

  lemma NoFrames()
    ensures Chained([])
  {
  }
}
