/** The forwarder's bidirectional flow cache: an open-addressed, power-of-two,
    linear-probe table, proved to be a finite map for any hash function. */
module FlowTable {
  import opened Words

  /** A parsed packet 5-tuple plus its virtual system. */
  datatype Tuple = Tuple(srcIp: U32, dstIp: U32, sport: U16, dport: U16,
                         proto: U8, vsys: U8, tcpFlags: U8)

  datatype FlowKey = FlowKey(ipA: U32, ipB: U32, portA: U16, portB: U16, proto: U8, vsys: U8)

  datatype Verdict = Unset | Allow | Drop | Reset

  datatype FlowEnt = FlowEnt(key: FlowKey, used: bool, verdict: Verdict, inspect: bool,
                             ruleId: U16, egress: U16, pkts: U32, bytes: U64)

  const ZERO_KEY := FlowKey(0, 0, 0, 0, 0, 0)
  const ZERO_ENT := FlowEnt(ZERO_KEY, false, Unset, false, 0, 0, 0, 0)

  function FreshEnt(k: FlowKey): (e: FlowEnt) { ZERO_ENT.(key := k, used := true) }

  // ---- the normalized key ------------------------------------------------

  /** Order the endpoints so that both directions of a conversation share a key. */
  function KeyOf(t: Tuple): (k: FlowKey)
  {
    if t.srcIp < t.dstIp || (t.srcIp == t.dstIp && t.sport <= t.dport)
    then FlowKey(t.srcIp, t.dstIp, t.sport, t.dport, t.proto, t.vsys)
    else FlowKey(t.dstIp, t.srcIp, t.dport, t.sport, t.proto, t.vsys)
  }

  function Swap(t: Tuple): (r: Tuple)
  {
    t.(srcIp := t.dstIp, dstIp := t.srcIp, sport := t.dport, dport := t.sport)
  }

  /** Same endpoints, protocol and vsys, in the same direction. */
  predicate SameDirection(a: Tuple, b: Tuple) { a.(tcpFlags := 0) == b.(tcpFlags := 0) }

  /** Two packets share a cache entry exactly when they belong to one conversation, and the key
      names the smaller endpoint first. */
  lemma KeyIdentifiesConversation(a: Tuple, b: Tuple)
    ensures KeyOf(a) == KeyOf(b) <==> SameDirection(a, b) || SameDirection(a, Swap(b))
    ensures var k := KeyOf(a);
            && {(k.ipA, k.portA), (k.ipB, k.portB)} == {(a.srcIp, a.sport), (a.dstIp, a.dport)}
            && (k.ipA < k.ipB || (k.ipA == k.ipB && k.portA <= k.portB)) && k.proto == a.proto && k.vsys == a.vsys
  {
    if KeyOf(a) == KeyOf(b) {
      if a.srcIp != b.srcIp || a.sport != b.sport {
        assert SameDirection(a, Swap(b));
      }
    }
  }

  // ---- the table as a sequence of slots -----------------------------------

  /** The slot visited at the p-th probe from home slot h in a table of n slots. */
  function Slot(h: nat, p: nat, n: nat): (i: nat)
    requires h < n && p < n
    ensures i < n
  {
    if h + p < n then h + p else h + p - n
  }

  /** The probe at which slot j is reached from home slot h. */
  function ProbeOf(h: nat, j: nat, n: nat): (p: nat)
    requires h < n && j < n
    ensures p < n && Slot(h, p, n) == j
    ensures forall q :: 0 <= q < n && Slot(h, q, n) == j ==> q == p
  {
    if j >= h then j - h else j + n - h
  }

  /** Where each key's probe sequence starts: its hash, masked to the table size. */
  datatype Homes = Homes(hash: FlowKey -> U32, mask: nat) {
    function At(k: FlowKey): (h: nat)
      ensures h <= mask
    {
      BitAnd(hash(k), mask)
    }
  }

  ghost predicate HomesFit(home: Homes, n: nat) { home.mask < n }

  ghost predicate DistinctKeys(s: seq<FlowEnt>)
  {
    forall i, j :: 0 <= i < j < |s| && s[i].used && s[j].used ==> s[i].key != s[j].key
  }

  /** No unused slot lies on the cyclic probe path from a stored key's home to its slot. */
  ghost predicate PathUsed(s: seq<FlowEnt>, home: Homes, j: nat)
    requires j < |s| && HomesFit(home, |s|)
  {
    forall p :: 0 <= p < ProbeOf(home.At(s[j].key), j, |s|) ==> s[Slot(home.At(s[j].key), p, |s|)].used
  }

  ghost predicate PathsUsed(s: seq<FlowEnt>, home: Homes)
    requires HomesFit(home, |s|)
  {
    forall j :: 0 <= j < |s| && s[j].used ==> PathUsed(s, home, j)
  }

  ghost predicate WellFormed(s: seq<FlowEnt>, home: Homes)
  {
    HomesFit(home, |s|) && DistinctKeys(s) && PathsUsed(s, home)
  }

  /** Slot j holds key k. */
  predicate Holds(s: seq<FlowEnt>, j: int, k: FlowKey)
  {
    0 <= j < |s| && s[j].used && s[j].key == k
  }

  /** The finite map a table stands for. */
  ghost function Contents(s: seq<FlowEnt>): (m: map<FlowKey, FlowEnt>)
  {
    if s == [] then map[]
    else
      var n := |s| - 1;
      if s[n].used then Contents(s[..n])[s[n].key := s[n]] else Contents(s[..n])
  }

  lemma {:induction false} HeldIsStored(s: seq<FlowEnt>, j: nat, k: FlowKey)
    requires DistinctKeys(s) && Holds(s, j, k)
    ensures k in Contents(s) && Contents(s)[k] == s[j]
  {
    var n := |s| - 1;
    if j < n {
      HeldIsStored(s[..n], j, k);
    }
  }

  lemma {:induction false} SlotOf(s: seq<FlowEnt>, k: FlowKey) returns (j: nat)
    requires DistinctKeys(s) && k in Contents(s)
    ensures Holds(s, j, k) && Contents(s)[k] == s[j]
  {
    var n := |s| - 1;
    if s[n].used && s[n].key == k {
      j := n;
    } else {
      j := SlotOf(s[..n], k);
    }
  }

  /** Putting e into its key's slot, or into an unused one, is a map update. */
  lemma ContentsUpdate(s: seq<FlowEnt>, i: nat, e: FlowEnt)
    requires i < |s| && e.used && DistinctKeys(s) && DistinctKeys(s[i := e])
    requires s[i].used ==> s[i].key == e.key
    ensures Contents(s[i := e]) == Contents(s)[e.key := e]
  {
    var s' := s[i := e];
    var m, m' := Contents(s), Contents(s');
    HeldIsStored(s', i, e.key);
    forall k | k in m' && k != e.key
      ensures k in m && m[k] == m'[k]
    {
      var j := SlotOf(s', k);
      HeldIsStored(s, j, k);
    }
    forall k | k in m && k != e.key
      ensures k in m'
    {
      var j := SlotOf(s, k);
      HeldIsStored(s', j, k);
    }
  }

  /** A full table stands for a map of its own size; any other for a smaller one. */
  lemma {:induction false} FullIff(s: seq<FlowEnt>)
    requires DistinctKeys(s)
    ensures |Contents(s)| <= |s|
    ensures |Contents(s)| == |s| <==> forall j :: 0 <= j < |s| ==> s[j].used
  {
    if s != [] {
      var n := |s| - 1;
      var front := s[..n];
      FullIff(front);
      if s[n].used && s[n].key in Contents(front) {
        var j := SlotOf(front, s[n].key);
      }
      assert forall j :: 0 <= j < n ==> front[j] == s[j];
    }
  }

  // ---- what a probe sequence says about the map -----------------------------

  datatype Probed = Hit(slot: nat) | Gap(slot: nat) | Full

  /** The first n slots probed from h are used by keys other than k. */
  ghost predicate OtherKeys(s: seq<FlowEnt>, h: nat, k: FlowKey, n: nat)
    requires h < |s| && n <= |s|
  {
    forall p :: 0 <= p < n ==> s[Slot(h, p, |s|)].used && s[Slot(h, p, |s|)].key != k
  }

  ghost predicate AllUsed(s: seq<FlowEnt>) { forall j :: 0 <= j < |s| ==> s[j].used }

  /** Where the probe loop for k stops, and after how many probes. */
  ghost predicate StopsAt(s: seq<FlowEnt>, home: Homes, k: FlowKey, found: Probed, probe: nat)
    requires HomesFit(home, |s|)
  {
    match found
    case Hit(j) => Holds(s, j, k)
    case Gap(j) => probe < |s| && j == Slot(home.At(k), probe, |s|) && !s[j].used && OtherKeys(s, home.At(k), k, probe)
    case Full => OtherKeys(s, home.At(k), k, |s|)
  }

  lemma ProbeMeaning(s: seq<FlowEnt>, home: Homes, k: FlowKey, found: Probed, probe: nat)
    requires WellFormed(s, home) && StopsAt(s, home, k, found, probe)
    ensures found.Hit? <==> k in Contents(s)
    ensures found.Full? <==> k !in Contents(s) && AllUsed(s)
  {
    match found
    case Hit(j) =>
      HeldIsStored(s, j, k);
    case Gap(_) =>
      if k in Contents(s) {
        var j := SlotOf(s, k);
        NotAtGap(s, home, k, probe, j);
      }
    case Full =>
      CycleVisitsAll(s, home.At(k), k);
      if k in Contents(s) {
        var j := SlotOf(s, k);
      }
  }

  /** An unused slot met before the key ends the search: the key is not stored. */
  lemma NotAtGap(s: seq<FlowEnt>, home: Homes, k: FlowKey, probe: nat, j: nat)
    requires HomesFit(home, |s|) && PathsUsed(s, home) && probe < |s| && j < |s|
    requires OtherKeys(s, home.At(k), k, probe) && !s[Slot(home.At(k), probe, |s|)].used
    ensures !Holds(s, j, k)
  {
    var q := ProbeOf(home.At(k), j, |s|);
    assert s[Slot(home.At(k), q, |s|)] == s[j];
    assert s[j].used ==> PathUsed(s, home, j);
  }

  /** A whole fruitless cycle of probes visits every slot. */
  lemma CycleVisitsAll(s: seq<FlowEnt>, h: nat, k: FlowKey)
    requires h < |s| && OtherKeys(s, h, k, |s|)
    ensures forall j :: 0 <= j < |s| ==> s[j].used && s[j].key != k
  {
    forall j | 0 <= j < |s|
      ensures s[j].used && s[j].key != k
    {
      assert s[Slot(h, ProbeOf(h, j, |s|), |s|)] == s[j];
    }
  }

  /** Filling the first gap on a new key's probe path keeps the table well formed and adds the key. */
  lemma FillGap(s: seq<FlowEnt>, home: Homes, e: FlowEnt, i: nat, probe: nat)
    requires WellFormed(s, home) && e.used
    requires StopsAt(s, home, e.key, Gap(i), probe) && e.key !in Contents(s)
    ensures WellFormed(s[i := e], home) && Contents(s[i := e]) == Contents(s)[e.key := e]
  {
    var s' := s[i := e];
    forall j | 0 <= j < |s| && s[j].used
      ensures s[j].key != e.key
    {
      HeldIsStored(s, j, s[j].key);
    }
    assert DistinctKeys(s');
    ContentsUpdate(s, i, e);
    assert PathUsed(s', home, i);
    OtherPaths(s, home, i, e);
  }

  /** Putting a used entry into slot i leaves every other stored key's path used. */
  lemma OtherPaths(s: seq<FlowEnt>, home: Homes, i: nat, e: FlowEnt)
    requires HomesFit(home, |s|) && PathsUsed(s, home) && i < |s| && e.used
    ensures forall j :: 0 <= j < |s| && j != i && s[j].used ==> PathUsed(s[i := e], home, j)
  {
    forall j | 0 <= j < |s| && j != i && s[j].used
      ensures PathUsed(s[i := e], home, j)
    {
      assert PathUsed(s, home, j);
    }
  }

  /** Rewriting a stored entry under its own key is a map update. */
  lemma RewriteEntry(s: seq<FlowEnt>, home: Homes, i: nat, e: FlowEnt)
    requires WellFormed(s, home) && i < |s|
    requires s[i].used && e.used && e.key == s[i].key
    ensures WellFormed(s[i := e], home)
    ensures Contents(s[i := e]) == Contents(s)[e.key := e]
  {
    var s' := s[i := e];
    assert DistinctKeys(s');
    ContentsUpdate(s, i, e);
    assert PathUsed(s, home, i);
    assert PathUsed(s', home, i);
    OtherPaths(s, home, i, e);
  }

  /** A zeroed table is the empty map. */
  lemma EmptyTable(s: seq<FlowEnt>, home: Homes)
    requires HomesFit(home, |s|) && forall j :: 0 <= j < |s| ==> !s[j].used
    ensures WellFormed(s, home) && Contents(s) == map[]
  {
    if s != [] {
      EmptyContents(s[..|s| - 1]);
    }
  }

  lemma {:induction false} EmptyContents(s: seq<FlowEnt>)
    requires forall j :: 0 <= j < |s| ==> !s[j].used
    ensures Contents(s) == map[]
  {
    if s != [] {
      EmptyContents(s[..|s| - 1]);
    }
  }

  // ---- the table in place --------------------------------------------------

  class Table {
    const hash: FlowKey -> U32
    var ent: array<FlowEnt>
    var slots: nat
    var mask: nat
    var count: nat
    ghost var bits: nat

    ghost function Home(): (home: Homes)
      reads this
    {
      Homes(hash, mask)
    }

    ghost predicate Valid()
      reads this, ent
    {
      && slots == ent.Length == Pow2(bits)
      && mask == slots - 1
      && WellFormed(ent[..], Home())
      && count == |Contents(ent[..])|
    }

    ghost function View(): (m: map<FlowKey, FlowEnt>)
      requires Valid()
      reads this, ent
    {
      Contents(ent[..])
    }

    /** Rounds the requested size up to the next power of two and zeroes the slots.
        A request above 2^31 would shift the 32-bit size out to zero and never end. */
    constructor (size: U32, hash: FlowKey -> U32)
      requires size <= 0x8000_0000
      ensures Valid() && fresh(ent) && this.hash == hash
      ensures View() == map[]
      ensures size <= slots && (slots == 1 || slots < 2 * size)
    {
      var p, b := 1, 0;
      while p < size
        invariant p == Pow2(b) && (p == 1 || p < 2 * size)
        decreases size - p
      {
        p, b := p * 2, b + 1;
      }
      this.hash := hash;
      slots, mask, count, bits := p, p - 1, 0, b;
      var zero := ZERO_ENT;
      ent := new FlowEnt[p](_ => zero);
      new;
      EmptyTable(ent[..], Home());
    }

    method Flush()
      requires Valid()
      modifies this`count, ent
      ensures Valid() && View() == map[]
    {
      forall i | 0 <= i < ent.Length {
        ent[i] := ZERO_ENT;
      }
      count := 0;
      EmptyTable(ent[..], Home());
    }

    /** The probe loop that lookup and insert share: it stops at the key, at the
        first unused slot, or after a whole cycle. */
    method Probe(k: FlowKey) returns (found: Probed, ghost probe: nat)
      requires Valid()
      ensures StopsAt(ent[..], Home(), k, found, probe)
    {
      hide Contents, BitAnd, Pow2, PathsUsed, DistinctKeys;
      ghost var s := ent[..];
      var h := BitAnd(hash(k), mask);
      for probe' := 0 to slots
        invariant OtherKeys(s, h, k, probe')
      {
        MaskedSlot(h, probe', bits);
        var j := BitAnd(h + probe', mask);
        if !ent[j].used {
          return Gap(j), probe';
        }
        if ent[j].key == k {
          return Hit(j), probe';
        }
      }
      return Full, 0;
    }

    /** Finds the slot of a key exactly when the key is stored. */
    method Lookup(k: FlowKey) returns (r: Option<nat>)
      requires Valid()
      ensures r.Some? <==> k in View()
      ensures r.Some? ==> Holds(ent[..], r.value, k)
    {
      var found, probe := Probe(k);
      ProbeMeaning(ent[..], Home(), k, found, probe);
      r := if found.Hit? then Some(found.slot) else None;
    }

    /** Returns the key's slot, adding a zeroed entry when it is absent; fails exactly
        when the key is absent and every slot is used. */
    method Insert(k: FlowKey) returns (r: Option<nat>)
      requires Valid()
      modifies this`count, ent
      ensures Valid()
      ensures r.None? <==> k !in old(View()) && old(AllUsed(ent[..]))
      ensures r.None? <==> k !in old(View()) && |old(View())| == slots
      ensures r.Some? ==> Holds(ent[..], r.value, k)
      ensures View() == if r.Some? && k !in old(View()) then old(View())[k := FreshEnt(k)] else old(View())
    {
      FullIff(ent[..]);
      var found, probe := Probe(k);
      ProbeMeaning(ent[..], Home(), k, found, probe);
      if found.Full? { return None; }
      if found.Gap? { AddAt(k, found.slot, probe); }
      return Some(found.slot);
    }

    /** The insertion itself, at the first gap on the key's probe path. */
    method AddAt(k: FlowKey, j: nat, ghost probe: nat)
      requires Valid() && StopsAt(ent[..], Home(), k, Gap(j), probe) && k !in View()
      modifies this`count, ent
      ensures Valid() && Holds(ent[..], j, k)
      ensures View() == old(View())[k := FreshEnt(k)]
    {
      ghost var s := ent[..];
      FillGap(s, Home(), FreshEnt(k), j, probe);
      ent[j] := FreshEnt(k);
      assert ent[..] == s[j := FreshEnt(k)];
      count := count + 1;
    }

    /** Writing through an entry pointer: same key, still used. */
    method Write(i: nat, e: FlowEnt)
      requires Valid() && i < ent.Length
      requires ent[i].used && e.used && e.key == ent[i].key
      modifies ent
      ensures Valid() && View() == old(View())[e.key := e]
    {
      ghost var s := ent[..];
      RewriteEntry(s, Home(), i, e);
      HeldIsStored(s, i, e.key);
      ent[i] := e;
      assert ent[..] == s[i := e];
    }
  }

  /** `(h + probe) & mask` is the probed slot. */
  lemma MaskedSlot(h: nat, p: nat, bits: nat)
    requires h < Pow2(bits) && p < Pow2(bits)
    ensures BitAnd(h + p, Pow2(bits) - 1) == Slot(h, p, Pow2(bits))
  {
    BitAndLowMask(h + p, bits);
    if h + p < Pow2(bits) {
      LowBitsWhole(h + p, bits);
    } else {
      LowBitsShift(h + p - Pow2(bits), bits);
      LowBitsWhole(h + p - Pow2(bits), bits);
    }
  }
}
