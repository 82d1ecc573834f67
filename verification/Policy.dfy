/** The policy table: the wire image mkpolicy.py emits, the loader that turns it into
    native rows, and the first-match classifier. */
module Policy {
  import opened Words
  import opened FlowTable

  const FORWARD := 0
  const INSPECT := 1
  const PUNT := 2
  const DROP := 3
  const LOCAL := 4
  const NOMATCH := -1
  const EGRESS_NONE: U16 := 0xFFFF

  const TCP: U8 := 6
  const UDP: U8 := 17

  const HDR_SIZE := 36
  const ROW_SIZE := 32
  const TYPE_POLICY: U16 := 0x40
  const MAX_POLICY := 16384
  const MAGIC: seq<U8> := [0x46, 0x50, 0x50, 0x4F]  // "FPPO"

  datatype PolicyRow = PolicyRow(
    srcIp: U32, srcMask: U32, dstIp: U32, dstMask: U32,
    sportLo: U16, sportHi: U16, dportLo: U16, dportHi: U16,
    proto: U8, vsys: U8, action: U8, flags: U8, egress: U16, ruleId: U16)

  datatype Tables = Tables(version: U16, rows: seq<PolicyRow>)

  const EMPTY_TABLES := Tables(0, [])

  datatype Rc = Ok | ErrShort | ErrMagic | ErrType | ErrRecsz | ErrTooMany | ErrNotIp | ErrBank

  // ---- loading ---------------------------------------------------------------

  /** IPv4 fields are network-order bytes; everything else is little-endian. */
  function LoadRow(b: seq<U8>): (r: PolicyRow)
    requires |b| == ROW_SIZE
  {
    PolicyRow(LdBe32(b), LdBe32(b[4..]), LdBe32(b[8..]), LdBe32(b[12..]),
              LdLe16(b[16..]), LdLe16(b[18..]), LdLe16(b[20..]), LdLe16(b[22..]),
              b[24], b[25], b[26], b[27], LdLe16(b[28..]), LdLe16(b[30..]))
  }

  function RowAt(blob: seq<U8>, i: nat): (r: PolicyRow)
    requires HDR_SIZE + ROW_SIZE * (i + 1) <= |blob|
  {
    LoadRow(blob[HDR_SIZE + ROW_SIZE * i..HDR_SIZE + ROW_SIZE * (i + 1)])
  }

  /** The code a blob is refused with, or Ok. */
  function CheckHeader(blob: seq<U8>): (rc: Rc)
    ensures rc.Ok? ==> |blob| >= HDR_SIZE
    ensures rc.Ok? ==> HDR_SIZE + ROW_SIZE * LdLe32(blob[8..]) as int <= |blob|
  {
    if |blob| < HDR_SIZE then ErrShort
    else if blob[..4] != MAGIC then ErrMagic
    else if LdLe16(blob[6..]) != TYPE_POLICY then ErrType
    else if LdLe32(blob[24..]) != ROW_SIZE then ErrRecsz
    else if LdLe32(blob[8..]) as int * ROW_SIZE + HDR_SIZE > |blob| then ErrShort
    else if LdLe32(blob[8..]) > MAX_POLICY then ErrTooMany
    else Ok
  }

  /** What a load leaves in the table: the rows on success, nothing on a refusal,
      because the table is cleared before the blob is looked at. */
  function Loaded(blob: seq<U8>): (t: Tables)
  {
    if CheckHeader(blob).Ok?
    then Tables(LdLe16(blob[4..]),
                seq(LdLe32(blob[8..]), i requires 0 <= i < LdLe32(blob[8..]) => RowAt(blob, i)))
    else EMPTY_TABLES
  }

  method TablesLoad(blob: seq<U8>) returns (t: Tables, rc: Rc)
    ensures t == Loaded(blob) && rc == CheckHeader(blob)
  {
    t := EMPTY_TABLES;
    rc := CheckHeader(blob);
    if !rc.Ok? { return; }
    var count := LdLe32(blob[8..]);
    var rows: seq<PolicyRow> := [];
    for i := 0 to count
      invariant |rows| == i && forall j :: 0 <= j < i ==> rows[j] == RowAt(blob, j)
    {
      rows := rows + [RowAt(blob, i)];
    }
    t := Tables(LdLe16(blob[4..]), rows);
  }

  // ---- classification --------------------------------------------------------

  /** The conditions of one row, in the classifier's order. */
  predicate Matches(r: PolicyRow, k: Tuple)
  {
    && (r.vsys == 0 || r.vsys == k.vsys)
    && (r.proto == 0 || r.proto == k.proto)
    && (r.srcMask == 0 || BitAnd(k.srcIp, r.srcMask) == BitAnd(r.srcIp, r.srcMask))
    && (r.dstMask == 0 || BitAnd(k.dstIp, r.dstMask) == BitAnd(r.dstIp, r.dstMask))
    && (k.proto == TCP || k.proto == UDP ==>
          r.sportLo <= k.sport <= r.sportHi && r.dportLo <= k.dport <= r.dportHi)
  }

  datatype Outcome = Outcome(decision: int, ruleId: U16, egress: U16)

  const NO_MATCH := Outcome(NOMATCH, 0, EGRESS_NONE)

  function FirstMatch(rows: seq<PolicyRow>, k: Tuple): (o: Outcome)
    ensures o == NO_MATCH || 0 <= o.decision < 0x100
  {
    if rows == [] then NO_MATCH
    else if Matches(rows[0], k) then Outcome(rows[0].action, rows[0].ruleId, rows[0].egress)
    else FirstMatch(rows[1..], k)
  }

  /** The scan stops at the first matching row. */
  method Classify(t: Tables, k: Tuple) returns (o: Outcome)
    ensures o == FirstMatch(t.rows, k)
    ensures o == NO_MATCH || exists i ::
              && 0 <= i < |t.rows| && Matches(t.rows[i], k)
              && o == Outcome(t.rows[i].action, t.rows[i].ruleId, t.rows[i].egress)
              && forall j :: 0 <= j < i ==> !Matches(t.rows[j], k)
    ensures o == NO_MATCH <==> forall i :: 0 <= i < |t.rows| ==> !Matches(t.rows[i], k)
  {
    for i := 0 to |t.rows|
      invariant forall j :: 0 <= j < i ==> !Matches(t.rows[j], k)
      invariant FirstMatch(t.rows, k) == FirstMatch(t.rows[i..], k)
    {
      var r := t.rows[i];
      if Matches(r, k) {
        return Outcome(r.action, r.ruleId, r.egress);
      }
    }
    return NO_MATCH;
  }

  // ---- mkpolicy.py -------------------------------------------------------------

  datatype Cidr = Any | Net(o0: U8, o1: U8, o2: U8, o3: U8, bits: nat)

  datatype Action = AllowTraffic | InspectTraffic | DropTraffic | LocalTraffic

  /** One command-line rule, split into its fields; a destination port of 0 means any. */
  datatype Rule = Rule(action: Action, proto: U8, src: Cidr, dst: Cidr, dport: U16)

  predicate ValidCidr(c: Cidr) { c.Any? || c.bits <= 32 }

  predicate ValidRule(r: Rule)
  {
    ValidCidr(r.src) && ValidCidr(r.dst) && (r.proto == 0 || r.proto == TCP || r.proto == UDP)
  }

  function ActionCode(a: Action): (c: U8)
  {
    match a
    case AllowTraffic => FORWARD
    case InspectTraffic => INSPECT
    case DropTraffic => DROP
    case LocalTraffic => LOCAL
  }

  function Address(c: Cidr): (ip: U32)
  {
    if c.Any? then 0
    else 0x100_0000 * (c.o0 as int) + 0x1_0000 * (c.o1 as int) + 0x100 * (c.o2 as int) + c.o3 as int
  }

  /** `((1 << bits) - 1) << (32 - bits) & 0xFFFFFFFF` */
  function Netmask(c: Cidr): (m: U32)
    requires ValidCidr(c)
  {
    if c.Any? then 0
    else BitAnd((Pow2(c.bits) - 1) * Pow2(32 - c.bits), 0xFFFF_FFFF)
  }

  /** An integer whose little-endian packing is v in network order. */
  function NetworkWord(v: U32): (w: U32) { LdLe32(StBe32(v)) }

  function PackRow(r: Rule, rid: U16): (b: seq<U8>)
    requires ValidRule(r)
    ensures |b| == ROW_SIZE
  {
    var lo: U16, hi: U16 := r.dport, if r.dport != 0 then r.dport else 0xFFFF;
    (StLe32(NetworkWord(Address(r.src))) + StLe32(NetworkWord(Netmask(r.src)))
     + StLe32(NetworkWord(Address(r.dst))) + StLe32(NetworkWord(Netmask(r.dst))))
    + (StLe16(0) + StLe16(0xFFFF) + StLe16(lo) + StLe16(hi)
       + [r.proto, 1, ActionCode(r.action), 0] + StLe16(EGRESS_NONE) + StLe16(rid))
  }

  function PackHeader(n: U32): (b: seq<U8>)
  {
    MAGIC + StLe16(1) + StLe16(TYPE_POLICY) + StLe32(n) + StLe64(0) + StLe32(0)
    + StLe32(ROW_SIZE) + StLe32(n) + StLe32(0)
  }

  function Flatten(chunks: seq<seq<U8>>): (b: seq<U8>)
  {
    if chunks == [] then [] else Flatten(chunks[..|chunks| - 1]) + chunks[|chunks| - 1]
  }

  /** The packed rows, numbered from 1. */
  function PackedRows(rules: seq<Rule>): (chunks: seq<seq<U8>>)
    requires |rules| <= 0xFFFF && forall r :: r in rules ==> ValidRule(r)
    ensures |chunks| == |rules| && forall c :: c in chunks ==> |c| == ROW_SIZE
  {
    seq(|rules|, i requires 0 <= i < |rules| => PackRow(rules[i], i + 1))
  }

  function Image(rules: seq<Rule>): (b: seq<U8>)
    requires |rules| <= 0xFFFF && forall r :: r in rules ==> ValidRule(r)
  {
    PackHeader(|rules|) + Flatten(PackedRows(rules))
  }

  /** The image generator; struct.pack refuses rule number 65536. */
  method MakePolicy(rules: seq<Rule>) returns (image: Option<seq<U8>>)
    requires forall r :: r in rules ==> ValidRule(r)
    ensures image.Some? <==> |rules| <= 0xFFFF
    ensures image.Some? ==> image.value == Image(rules)
  {
    hide PackHeader, PackRow;
    if |rules| > 0xFFFF { return None; }
    ghost var chunks := PackedRows(rules);
    var body: seq<U8> := [];
    for i := 0 to |rules|
      invariant body == Flatten(chunks[..i])
    {
      body := body + PackRow(rules[i], i + 1);
      assert chunks[..i + 1][..i] == chunks[..i];
    }
    assert chunks[..|rules|] == chunks;
    return Some(PackHeader(|rules|) + body);
  }

  // ---- what a rule means, independently of its row ------------------------------

  /** The address shares the network's leading bits. */
  ghost predicate InNetwork(c: Cidr, ip: U32)
    requires ValidCidr(c)
  {
    c.Any? || ip / Pow2(32 - c.bits) == Address(c) / Pow2(32 - c.bits)
  }

  ghost predicate RuleApplies(r: Rule, k: Tuple)
    requires ValidRule(r)
  {
    && k.vsys == 1
    && (r.proto == 0 || k.proto == r.proto)
    && InNetwork(r.src, k.srcIp) && InNetwork(r.dst, k.dstIp)
    && ((k.proto == TCP || k.proto == UDP) && r.dport != 0 ==> k.dport == r.dport)
  }

  ghost function FirstRule(rules: seq<Rule>, rid: nat, k: Tuple): (o: Outcome)
    requires forall r :: r in rules ==> ValidRule(r)
    requires rid + |rules| <= 0x1_0000
  {
    if rules == [] then NO_MATCH
    else if RuleApplies(rules[0], k) then Outcome(ActionCode(rules[0].action), rid, EGRESS_NONE)
    else FirstRule(rules[1..], rid + 1, k)
  }

  /** The native row a rule becomes. */
  function RowOf(r: Rule, rid: U16): (row: PolicyRow)
    requires ValidRule(r)
  {
    var lo: U16, hi: U16 := r.dport, if r.dport != 0 then r.dport else 0xFFFF;
    PolicyRow(Address(r.src), Netmask(r.src), Address(r.dst), Netmask(r.dst),
              0, 0xFFFF, lo, hi, r.proto, 1, ActionCode(r.action), 0, EGRESS_NONE, rid)
  }

  // ---- round trip ------------------------------------------------------------------

  lemma NetworkWordBytes(v: U32)
    ensures StLe32(NetworkWord(v)) == StBe32(v)
  {
    StoreLoadLe32(StBe32(v));
  }

  lemma NetworkWords(a: U32, b: U32, c: U32, d: U32)
    ensures var s := StLe32(NetworkWord(a)) + StLe32(NetworkWord(b))
                   + StLe32(NetworkWord(c)) + StLe32(NetworkWord(d));
            |s| == 16 && LdBe32(s) == a && LdBe32(s[4..]) == b && LdBe32(s[8..]) == c && LdBe32(s[12..]) == d
  {
    NetworkWordBytes(a); NetworkWordBytes(b); NetworkWordBytes(c); NetworkWordBytes(d);
    LoadStore32(a, []); LoadStore32(b, []); LoadStore32(c, []); LoadStore32(d, []);
  }

  /** The loader reads the first four fields of a row from its first half, the rest from the second. */
  lemma LoadHalves(first: seq<U8>, second: seq<U8>)
    requires |first| == |second| == 16
    ensures LoadRow(first + second) ==
            PolicyRow(LdBe32(first), LdBe32(first[4..]), LdBe32(first[8..]), LdBe32(first[12..]),
                      LdLe16(second), LdLe16(second[2..]), LdLe16(second[4..]), LdLe16(second[6..]),
                      second[8], second[9], second[10], second[11],
                      LdLe16(second[12..]), LdLe16(second[14..]))
  {
  }

  lemma RowRoundTrip(r: Rule, rid: U16)
    requires ValidRule(r)
    ensures |PackRow(r, rid)| == ROW_SIZE && LoadRow(PackRow(r, rid)) == RowOf(r, rid)
  {
    var first := StLe32(NetworkWord(Address(r.src))) + StLe32(NetworkWord(Netmask(r.src)))
               + StLe32(NetworkWord(Address(r.dst))) + StLe32(NetworkWord(Netmask(r.dst)));
    NetworkWords(Address(r.src), Netmask(r.src), Address(r.dst), Netmask(r.dst));
    LoadHalves(first, PackRow(r, rid)[16..]);
    assert PackRow(r, rid) == first + PackRow(r, rid)[16..];
  }

  /** The i-th 32-byte record of b is c. */
  ghost predicate RecordAt(b: seq<U8>, i: nat, c: seq<U8>)
  {
    ROW_SIZE * i + ROW_SIZE <= |b| && b[ROW_SIZE * i..ROW_SIZE * i + ROW_SIZE] == c
  }

  lemma {:induction false} FlattenLength(chunks: seq<seq<U8>>)
    requires forall c :: c in chunks ==> |c| == ROW_SIZE
    ensures |Flatten(chunks)| == ROW_SIZE * |chunks|
  {
    if chunks != [] { FlattenLength(chunks[..|chunks| - 1]); }
  }

  lemma {:induction false} FlattenAt(chunks: seq<seq<U8>>, i: nat)
    requires forall c :: c in chunks ==> |c| == ROW_SIZE
    requires i < |chunks|
    ensures RecordAt(Flatten(chunks), i, chunks[i])
  {
    var n := |chunks| - 1;
    FlattenLength(chunks[..n]);
    if i < n {
      FlattenAt(chunks[..n], i);
      RecordKept(Flatten(chunks[..n]), chunks[n], i, chunks[i]);
    }
  }

  lemma RecordKept(b: seq<U8>, rest: seq<U8>, i: nat, c: seq<U8>)
    requires RecordAt(b, i, c)
    ensures RecordAt(b + rest, i, c)
  {
    assert (b + rest)[ROW_SIZE * i..ROW_SIZE * i + ROW_SIZE] == b[ROW_SIZE * i..ROW_SIZE * i + ROW_SIZE];
  }

  /** A record of the body is found behind the 36-byte header, whatever follows it. */
  lemma RecordInBlob(head: seq<U8>, body: seq<U8>, rest: seq<U8>, i: nat, c: seq<U8>)
    requires |head| == HDR_SIZE && RecordAt(body, i, c)
    ensures var blob := head + (body + rest);
            && HDR_SIZE + ROW_SIZE * (i + 1) <= |blob|
            && blob[HDR_SIZE + ROW_SIZE * i..HDR_SIZE + ROW_SIZE * (i + 1)] == c
  {
    var blob := head + (body + rest);
    assert blob[HDR_SIZE..] == body + rest;
    assert blob[HDR_SIZE + ROW_SIZE * i..HDR_SIZE + ROW_SIZE * (i + 1)]
        == body[ROW_SIZE * i..ROW_SIZE * i + ROW_SIZE];
  }

  lemma FieldAt(b: seq<U8>, i: nat, f: seq<U8>)
    requires i + |f| <= |b| && b[i..i + |f|] == f
    ensures |f| == 2 ==> LdLe16(b[i..]) == LdLe16(f)
    ensures |f| == 4 ==> LdLe32(b[i..]) == LdLe32(f)
  {
    assert forall j :: 0 <= j < |f| ==> b[i..][j] == b[i..i + |f|][j];
  }

  lemma HeaderFields(n: U32)
    ensures var h := PackHeader(n);
            && |h| == HDR_SIZE && h[..4] == MAGIC && LdLe16(h[4..]) == 1
            && LdLe16(h[6..]) == TYPE_POLICY && LdLe32(h[8..]) == n && LdLe32(h[24..]) == ROW_SIZE
  {
    LoadStore32(n, []);
    LoadStore32(ROW_SIZE, []);
    LoadStore32(0, []);
    LoadStore64(0, []);
    var h := PackHeader(n);
    assert h[8..12] == StLe32(n) + [];
    assert h[24..28] == StLe32(ROW_SIZE) + [];
    FieldAt(h, 8, StLe32(n) + []);
    FieldAt(h, 24, StLe32(ROW_SIZE) + []);
  }

  /** The header's other fields: the number of records again, and zeros. */
  lemma HeaderRest(n: U32)
    ensures var h := PackHeader(n);
            && |h| == HDR_SIZE && LdLe32(h[28..]) == n
            && (forall i :: 12 <= i < 24 || 32 <= i < 36 ==> h[i] == 0)
  {
    hide LdLe32;
    LoadStore32(n, StLe32(0));
    LoadStore32(0, []);
    LoadStore64(0, []);
    LoadStore32(ROW_SIZE, []);
    var h := PackHeader(n);
    assert h[28..] == StLe32(n) + StLe32(0);
  }

  lemma HeaderAccepted(n: U32, rest: seq<U8>)
    requires n <= MAX_POLICY && |rest| >= ROW_SIZE * n
    ensures var blob := PackHeader(n) + rest;
            && |PackHeader(n)| == HDR_SIZE && CheckHeader(blob) == Ok
            && LdLe16(blob[4..]) == 1 && LdLe32(blob[8..]) == n
  {
    HeaderFields(n);
    var h, blob := PackHeader(n), PackHeader(n) + rest;
    assert forall j :: 0 <= j < HDR_SIZE ==> blob[j] == h[j];
    assert blob[..4] == MAGIC;
  }

  /** A header for n records followed by n records loads as those records. */
  lemma RecordsLoad(chunks: seq<seq<U8>>, rest: seq<U8>)
    requires |chunks| <= MAX_POLICY && forall c :: c in chunks ==> |c| == ROW_SIZE
    ensures var blob := PackHeader(|chunks|) + Flatten(chunks) + rest;
            && CheckHeader(blob) == Ok && Loaded(blob).version == 1
            && |Loaded(blob).rows| == |chunks|
            && forall i :: 0 <= i < |chunks| ==> Loaded(blob).rows[i] == LoadRow(chunks[i])
  {
    var head, body := PackHeader(|chunks|), Flatten(chunks);
    FlattenLength(chunks);
    HeaderAccepted(|chunks|, body + rest);
    assert head + body + rest == head + (body + rest);
    forall i | 0 <= i < |chunks|
      ensures Loaded(head + (body + rest)).rows[i] == LoadRow(chunks[i])
    {
      FlattenAt(chunks, i);
      RecordInBlob(head, body, rest, i, chunks[i]);
    }
  }

  /** Loading the generated image, whatever bytes of the bank follow it, succeeds and
      gives back the rules' rows, in order. */
  lemma ImageRoundTrip(rules: seq<Rule>, rest: seq<U8>)
    requires |rules| <= MAX_POLICY && forall r :: r in rules ==> ValidRule(r)
    ensures CheckHeader(Image(rules) + rest) == Ok
    ensures Loaded(Image(rules) + rest).version == 1
    ensures |Loaded(Image(rules) + rest).rows| == |rules|
    ensures forall i :: 0 <= i < |rules| ==> Loaded(Image(rules) + rest).rows[i] == RowOf(rules[i], i + 1)
  {
    hide Loaded, CheckHeader, PackHeader, LoadRow, RowOf, PackRow, Flatten;
    RecordsLoad(PackedRows(rules), rest);
    forall i | 0 <= i < |rules|
      ensures Loaded(Image(rules) + rest).rows[i] == RowOf(rules[i], i + 1)
    {
      RowRoundTrip(rules[i], i + 1);
    }
  }

  // ---- meaning preserved ----------------------------------------------------------

  lemma NetmaskValue(c: Cidr)
    requires c.Net? && c.bits <= 32
    ensures Pow2(32 - c.bits) <= Pow2(32) && Netmask(c) == Pow2(32) - Pow2(32 - c.bits)
  {
    hide Pow2, BitAnd, LowBits;
    Pow2Values();
    Pow2Add(c.bits, 32 - c.bits);
    Pow2Monotone(32 - c.bits, 32);
    LessOne(Pow2(c.bits), Pow2(32 - c.bits));
    var m: nat := Pow2(32) - Pow2(32 - c.bits);
    assert BitAnd(m, Pow2(32) - 1) == m by {
      BitAndLowMask(m, 32);
      LowBitsWhole(m, 32);
    }
  }

  lemma LessOne(a: nat, b: nat)
    ensures (a - 1) * b == a * b - b
  {
  }

  /** Comparing under the mask is comparing leading bits; a zero mask matches everything. */
  lemma MaskMeansPrefix(c: Cidr, ip: U32)
    requires ValidCidr(c)
    ensures Netmask(c) == 0 || BitAnd(ip, Netmask(c)) == BitAnd(Address(c), Netmask(c))
            <==> InNetwork(c, ip)
  {
    if c.Net? {
      NetmaskValue(c);
      MaskedEqualIff(ip, Address(c), 32 - c.bits);
    }
  }

  lemma RowMeansRule(r: Rule, rid: U16, k: Tuple)
    requires ValidRule(r)
    ensures Matches(RowOf(r, rid), k) <==> RuleApplies(r, k)
  {
    MaskMeansPrefix(r.src, k.srcIp);
    MaskMeansPrefix(r.dst, k.dstIp);
  }

  lemma {:induction false} ClassifyMeansFirstRule(rules: seq<Rule>, rid: nat, rows: seq<PolicyRow>, k: Tuple)
    requires forall r :: r in rules ==> ValidRule(r)
    requires rid + |rules| <= 0x1_0000
    requires |rows| == |rules| && forall i :: 0 <= i < |rules| ==> rows[i] == RowOf(rules[i], rid + i)
    ensures FirstMatch(rows, k) == FirstRule(rules, rid, k)
  {
    if rules != [] {
      RowMeansRule(rules[0], rid, k);
      ClassifyMeansFirstRule(rules[1..], rid + 1, rows[1..], k);
    }
  }

  /** Loading a generated image and classifying is first match on the source rules. */
  lemma PolicyImagePreservesMeaning(rules: seq<Rule>, rest: seq<U8>, k: Tuple)
    requires |rules| <= MAX_POLICY && forall r :: r in rules ==> ValidRule(r)
    ensures FirstMatch(Loaded(Image(rules) + rest).rows, k) == FirstRule(rules, 1, k)
  {
    hide Loaded, Image, RowOf, FirstRule;
    ImageRoundTrip(rules, rest);
    ClassifyMeansFirstRule(rules, 1, Loaded(Image(rules) + rest).rows, k);
  }

  // ---- numbers, bytes and refusals --------------------------------------------------------

  /** The decision codes of the wire format. */
  lemma ActionNumbers(a: Action)
    ensures ActionCode(a) == match a case AllowTraffic => 0 case InspectTraffic => 1 case DropTraffic => 3 case LocalTraffic => 4
  {
  }

  /** An address is its four octets in network order, and any address is zeros. */
  lemma AddressOctets(c: Cidr)
    ensures StBe32(Address(c)) == if c.Net? then [c.o0, c.o1, c.o2, c.o3] else [0, 0, 0, 0]
  {
    if c.Any? { return; }
    var a, b, d, e := c.o0 as int, c.o1 as int, c.o2 as int, c.o3 as int;
    var v: int := Address(c);
    DivModUnique(v, 0x100_0000, a, 0x1_0000 * b + 0x100 * d + e);
    DivModUnique(v, 0x1_0000, 0x100 * a + b, 0x100 * d + e);
    DivModUnique(v, 0x100, 0x1_0000 * a + 0x100 * b + d, e);
    DivModUnique(0x100 * a + b, 0x100, a, b);
    DivModUnique(0x1_0000 * a + 0x100 * b + d, 0x100, 0x100 * a + b, d);
  }

  /** Any row as wire bytes: addresses and masks in network order, the rest little-endian. */
  function WireBytes(r: PolicyRow): (b: seq<U8>)
  {
    (StBe32(r.srcIp) + StBe32(r.srcMask) + StBe32(r.dstIp) + StBe32(r.dstMask))
    + (StLe16(r.sportLo) + StLe16(r.sportHi) + StLe16(r.dportLo) + StLe16(r.dportHi)
       + [r.proto, r.vsys, r.action, r.flags] + StLe16(r.egress) + StLe16(r.ruleId))
  }

  /** Every row loads from its wire bytes. */
  lemma AnyRowLoads(r: PolicyRow)
    ensures |WireBytes(r)| == ROW_SIZE && LoadRow(WireBytes(r)) == r
  {
    hide StBe32, LdBe32, LoadRow;
    LoadStore32(r.srcIp, []); LoadStore32(r.srcMask, []); LoadStore32(r.dstIp, []); LoadStore32(r.dstMask, []);
    var first := StBe32(r.srcIp) + StBe32(r.srcMask) + StBe32(r.dstIp) + StBe32(r.dstMask);
    FourWords(r.srcIp, r.srcMask, r.dstIp, r.dstMask);
    var second := StLe16(r.sportLo) + StLe16(r.sportHi) + StLe16(r.dportLo) + StLe16(r.dportHi)
                  + [r.proto, r.vsys, r.action, r.flags] + StLe16(r.egress) + StLe16(r.ruleId);
    LoadHalves(first, second);
  }

  lemma FourWords(a: U32, b: U32, c: U32, d: U32)
    ensures var s := StBe32(a) + StBe32(b) + StBe32(c) + StBe32(d);
            |s| == 16 && LdBe32(s) == a && LdBe32(s[4..]) == b && LdBe32(s[8..]) == c && LdBe32(s[12..]) == d
  {
    LoadStore32(a, []); LoadStore32(b, []); LoadStore32(c, []); LoadStore32(d, []);
  }

  /** Little-endian numbers in a blob. */
  function Word16(b: seq<U8>, i: nat): (v: nat)
    requires i + 2 <= |b|
  {
    b[i] as int + 0x100 * (b[i + 1] as int)
  }

  function Word32(b: seq<U8>, i: nat): (v: nat)
    requires i + 4 <= |b|
  {
    Word16(b, i) + 0x1_0000 * Word16(b, i + 2)
  }

  /** A blob is refused with the first test it fails, in this order, and accepted if it fails none:
      length, magic, type, record size, room for its records, number of records. */
  lemma RefusedWith(blob: seq<U8>)
    ensures CheckHeader(blob) ==
            if |blob| < 36 then ErrShort
            else if blob[0] != 0x46 || blob[1] != 0x50 || blob[2] != 0x50 || blob[3] != 0x4F then ErrMagic
            else if Word16(blob, 6) != 0x40 then ErrType
            else if Word32(blob, 24) != 32 then ErrRecsz
            else if 36 + 32 * Word32(blob, 8) > |blob| then ErrShort
            else if Word32(blob, 8) > 16384 then ErrTooMany
            else Ok
  {
    if |blob| >= 36 {
      assert blob[..4] == [blob[0], blob[1], blob[2], blob[3]];
    }
  }

  /** What any row with prefix masks matches, field by field: virtual system and protocol 0 are any,
      addresses share the leading bits, and ports lie in their ranges where the packet has ports. */
  lemma RowFieldsMean(r: PolicyRow, srcBits: nat, dstBits: nat, k: Tuple)
    requires srcBits <= 32 && dstBits <= 32
    requires Pow2(32 - srcBits) <= Pow2(32) && Pow2(32 - dstBits) <= Pow2(32)
    requires r.srcMask == Pow2(32) - Pow2(32 - srcBits) && r.dstMask == Pow2(32) - Pow2(32 - dstBits)
    ensures Matches(r, k) <==>
            && r.vsys in {0, k.vsys as int} && r.proto in {0, k.proto as int}
            && k.srcIp / Pow2(32 - srcBits) == r.srcIp / Pow2(32 - srcBits)
            && k.dstIp / Pow2(32 - dstBits) == r.dstIp / Pow2(32 - dstBits)
            && (k.proto in {6, 17} ==> r.sportLo <= k.sport <= r.sportHi && r.dportLo <= k.dport <= r.dportHi)
  {
    hide Pow2, BitAnd;
    MaskedEqualIff(k.srcIp, r.srcIp, 32 - srcBits);
    MaskedEqualIff(k.dstIp, r.dstIp, 32 - dstBits);
    NoMask(k.srcIp, r.srcIp);
    NoMask(k.dstIp, r.dstIp);
  }

  lemma NoMask(a: nat, b: nat)
    ensures BitAnd(a, 0) == BitAnd(b, 0)
  {
  }
}
