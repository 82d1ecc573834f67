/** The accelerated forwarder's classifier over the policy rows an update compiled: what a row
    catches, and what the rows of the last accepted policy decide. */
module FastPath {
  import opened Words
  import opened FlowTable
  import opened Banks
  import opened ModelUpdates
  import opened UpdateRuns
  import Policy

  const INSPECT := 1

  /** The tests of the classifier's loop, in its order. */
  predicate Catches(r: Policy.PolicyRow, k: Tuple)
  {
    && (r.vsys == 0 || r.vsys == k.vsys)
    && (r.proto == 0 || r.proto == k.proto)
    && (r.srcMask == 0 || BitAnd(k.srcIp, r.srcMask) == BitAnd(r.srcIp, r.srcMask))
    && (r.dstMask == 0 || BitAnd(k.dstIp, r.dstMask) == BitAnd(r.dstIp, r.dstMask))
    && r.sportLo <= k.sport <= r.sportHi && r.dportLo <= k.dport <= r.dportHi
  }

  /** The first row that catches decides, by its action and number; without one the packet is
      inspected under number 0. */
  method ClassifyFast(rows: seq<Policy.PolicyRow>, k: Tuple) returns (decision: U8, rule: U16)
    ensures (forall i :: 0 <= i < |rows| ==> !Catches(rows[i], k)) ==> decision == INSPECT && rule == 0
    ensures forall i :: FirstCatch(rows, k, i) ==> decision == rows[i].action && rule == rows[i].ruleId
  {
    for i := 0 to |rows|
      invariant forall j :: 0 <= j < i ==> !Catches(rows[j], k)
    {
      if Catches(rows[i], k) { return rows[i].action, rows[i].ruleId; }
    }
    return INSPECT, 0;
  }

  predicate FirstCatch(rows: seq<Policy.PolicyRow>, k: Tuple, i: int)
  {
    0 <= i < |rows| && Catches(rows[i], k) && forall j :: 0 <= j < i ==> !Catches(rows[j], k)
  }

  // ---- what a wire row asks for ---------------------------------------------------------------

  /** A port of 0, a protocol of 0 and a virtual system of 0 in both row and update restrict
      nothing. */
  ghost predicate Applies(r: WireRow, vsys: U8, k: Tuple)
    requires GoodRow(r)
  {
    && InText(r.src, k.srcIp) && InText(r.dst, k.dstIp)
    && (r.sport != 0 ==> k.sport == r.sport) && (r.dport != 0 ==> k.dport == r.dport)
    && (r.proto != 0 ==> k.proto == r.proto)
    && (if r.vsys != 0 then k.vsys == r.vsys else vsys != 0 ==> k.vsys == vsys)
  }

  function RoundedDown(a: nat, p: nat): (r: int)
    requires p > 0
  {
    a - a % p
  }

  lemma RoundedTwice(a: nat, p: nat)
    requires p > 0
    ensures RoundedDown(a, p) >= 0 && RoundedDown(RoundedDown(a, p), p) == RoundedDown(a, p)
  {
    assert a - a % p == (a / p) * p + 0;
    DivModUnique(a - a % p, p, a / p, 0);
  }

  lemma MaskRounds(a: U32, bits: nat)
    requires bits <= 32
    ensures Pow2(32 - bits) > 0 && BitAnd(a, PrefixMask(bits)) == RoundedDown(a, Pow2(32 - bits))
  {
    hide *;
    MaskIsHighBits(bits);
    Pow2Values();
    BitAndHighMask(a, 32, 32 - bits);
    LowBitsIsMod(a, 32 - bits);
    Rounded(a, Pow2(32 - bits));
  }

  lemma Rounded(a: nat, p: nat)
    requires p > 0
    ensures RoundedDown(a, p) == a - a % p
  {
  }

  /** Masking twice is masking once. */
  lemma MaskTwice(a: U32, bits: nat)
    requires bits <= 32
    ensures BitAnd(BitAnd(a, PrefixMask(bits)), PrefixMask(bits)) == BitAnd(a, PrefixMask(bits))
  {
    hide Pow2, BitAnd, PrefixMask, RoundedDown;
    MaskRounds(a, bits);
    MaskRounds(BitAnd(a, PrefixMask(bits)), bits);
    RoundedTwice(a, Pow2(32 - bits));
  }

  lemma AddressMeans(c: CidrText, ip: U32)
    requires ParseCidr(c).Some?
    ensures var n := ParseCidr(c).value;
            n.mask == 0 || BitAnd(ip, n.mask) == BitAnd(n.net, n.mask) <==> InText(c, ip)
  {
    hide Pow2, PrefixMask, BitAnd, InText;
    ParsedCidrMeans(c, ip);
    NothingMasked(ip);
    if c.Text? {
      NothingMasked(c.address.value);
      MaskTwice(c.address.value, if c.prefix.Some? then c.prefix.value else 32);
    } else {
      NothingMasked(0);
    }
  }

  lemma NothingMasked(a: nat)
    ensures BitAnd(a, 0) == 0
  {
  }

  /** A compiled row catches exactly the packets its wire row asks for, and carries the wire row's
      action under its own number, with no egress and no flags. */
  lemma CompiledRowMeans(r: WireRow, vsys: U8, i: nat, k: Tuple)
    requires GoodRow(r)
    ensures var e := CompileRow(r, vsys, i);
            && (Catches(e, k) <==> Applies(r, vsys, k))
            && e.action == r.action && e.ruleId == (i + 1) % 0x1_0000 && e.egress == 0xFFFF && e.flags == 0
  {
    hide ParseCidr, InText, BitAnd;
    AddressMeans(r.src, k.srcIp);
    AddressMeans(r.dst, k.dstIp);
  }

  /** A text is refused exactly when it is overlong, its prefix is out of range, or its address is
      malformed. */
  lemma RefusedTextIff(c: CidrText)
    ensures ParseCidr(c).None? <==>
            || c.Overlong?
            || (c.Text? && (c.address.None? || (c.prefix.Some? && !(0 <= c.prefix.value <= 32))))
  {
  }

  /** The first wire row that applies. */
  ghost predicate FirstApplicable(rows: seq<WireRow>, vsys: U8, k: Tuple, i: int)
    requires forall r :: r in rows ==> GoodRow(r)
  {
    0 <= i < |rows| && Applies(rows[i], vsys, k) && forall j :: 0 <= j < i ==> !Applies(rows[j], vsys, k)
  }

  /** After any run, the first row of the active bank that catches a packet is the first applicable
      row of the last accepted policy, with that row's action and number; and none catches exactly
      when none applies. */
  lemma ActiveRowsMean(s: Sys, size: nat, us: seq<Update>, n: nat, k: Tuple, i: int)
    requires s.active < 2 && n < |us| && us[n].PolicyRows? && AcceptedAt(s, size, us, n)
    requires forall j :: n < j < |us| && AcceptedAt(s, size, us, j) ==> !us[j].PolicyRows?
    ensures forall r :: r in us[n].rows ==> GoodRow(r)
    ensures var rows := Run(s, size, us).rec.policy;
            && |rows| == |us[n].rows|
            && (FirstCatch(rows, k, i) <==> FirstApplicable(us[n].rows, us[n].vsys, k, i))
            && (FirstCatch(rows, k, i) ==> rows[i].action == us[n].rows[i].action && rows[i].ruleId == (i + 1) % 0x1_0000)
  {
    hide Run, Catches, Applies, CompileRow, AcceptedAt;
    LastAcceptedShows(s, size, us, n);
    var u := us[n];
    var rows := CompileRows(u.rows, u.vsys);
    forall j | 0 <= j < |rows|
      ensures Catches(rows[j], k) <==> Applies(u.rows[j], u.vsys, k)
      ensures rows[j].action == u.rows[j].action && rows[j].ruleId == (j + 1) % 0x1_0000
    {
      assert u.rows[j] in u.rows;
      CompiledRowMeans(u.rows[j], u.vsys, j, k);
    }
  }
}
