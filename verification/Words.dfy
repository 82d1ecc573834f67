/** Fixed-width unsigned words, byte codecs and the bitwise AND of the C sources,
    all over mathematical integers. */
module Words {
  type U8 = x: int | 0 <= x < 0x100
  type U16 = x: int | 0 <= x < 0x1_0000
  type U32 = x: int | 0 <= x < 0x1_0000_0000
  type U64 = x: int | 0 <= x < 0x1_0000_0000_0000_0000

  datatype Option<+T> = None | Some(value: T)

  /** Unsigned 32- and 64-bit arithmetic wraps. */
  function Wrap32(x: int): (r: U32) { x % 0x1_0000_0000 }

  function Wrap64(x: int): (r: U64) { x % 0x1_0000_0000_0000_0000 }

  ghost predicate Cong64(a: int, b: int) { Wrap64(a) == Wrap64(b) }

  /** Sums that agree modulo 2^64 still agree when a counter of each is bumped. */
  lemma BumpBoth(x: U64, y: int, u: U64, v: int)
    requires Cong64(x + y, u + v)
    ensures Cong64(Wrap64(x + 1) + y, Wrap64(u + 1) + v)
  {
    WrapBump(x, y);
    WrapBump(u, v);
    WrapNext(x + y);
    WrapNext(u + v);
  }

  lemma WrapBump(x: U64, y: int)
    ensures Wrap64(Wrap64(x + 1) + y) == Wrap64(x + y + 1)
  {
    if x + 1 == 0x1_0000_0000_0000_0000 {
      assert x + y + 1 == y + 0x1_0000_0000_0000_0000;
    }
  }

  lemma WrapNext(x: int)
    ensures Wrap64(x + 1) == if Wrap64(x) + 1 == 0x1_0000_0000_0000_0000 then 0 else Wrap64(x) + 1
  {
  }

  // ---- powers of two, division -------------------------------------------

  function Pow2(n: nat): (r: nat)
    ensures r >= 1
  {
    if n == 0 then 1 else 2 * Pow2(n - 1)
  }

  lemma {:induction false} Pow2Add(a: nat, b: nat)
    ensures Pow2(a + b) == Pow2(a) * Pow2(b)
  {
    if a != 0 {
      Pow2Add(a - 1, b);
      assert Pow2(a + b) == 2 * Pow2((a - 1) + b);
      assert Pow2(a) * Pow2(b) == 2 * (Pow2(a - 1) * Pow2(b));
    }
  }

  lemma Pow2Values()
    ensures Pow2(8) == 0x100 && Pow2(16) == 0x1_0000 && Pow2(32) == 0x1_0000_0000
  {
    assert Pow2(4) == 16;
    Pow2Add(4, 4);
    Pow2Add(8, 8);
    Pow2Add(16, 16);
  }

  /** Quotient and remainder are determined by their defining equation. */
  lemma DivModUnique(x: int, m: int, q: int, r: int)
    requires 0 < m && 0 <= r < m && x == q * m + r
    ensures x / m == q && x % m == r
  {
    MultipleBetween(q - x / m, m, x % m - r);
  }

  /** The only multiple of m strictly between -m and m is zero. */
  lemma MultipleBetween(d: int, m: int, t: int)
    requires 0 < m && d * m == t && -m < t < m
    ensures d == 0
  {
    MultipleGrows(d, m);
  }

  lemma MultipleGrows(d: int, m: int)
    requires 0 < m
    ensures d >= 1 ==> d * m >= m
    ensures d <= -1 ==> d * m <= -m
  {
    if d >= 1 {
      assert (d - 1) * m >= 0;
    } else if d <= -1 {
      assert (-d - 1) * m >= 0;
    }
  }

  /** The low bit and the rest make up a remainder modulo an even number. */
  lemma ModDouble(x: nat, m: nat)
    requires m > 0
    ensures x % (2 * m) == 2 * ((x / 2) % m) + x % 2
  {
    var a := x / 2;
    var q, s := a / m, a % m;
    assert a == q * m + s;
    assert x == 2 * (q * m) + 2 * s + x % 2;
    assert 2 * (q * m) == q * (2 * m);
    DivModUnique(x, 2 * m, q, 2 * s + x % 2);
  }

  // ---- bitwise AND ---------------------------------------------------------

  function BitAnd(a: nat, b: nat): (r: nat)
    ensures r <= a && r <= b
  {
    if a == 0 || b == 0 then 0
    else (if a % 2 == 1 && b % 2 == 1 then 1 else 0) + 2 * BitAnd(a / 2, b / 2)
  }

  /** The low k bits of x. */
  function LowBits(x: nat, k: nat): (r: nat)
    ensures r < Pow2(k) && r <= x
  {
    if k == 0 then 0 else x % 2 + 2 * LowBits(x / 2, k - 1)
  }

  lemma {:induction false} LowBitsIsMod(x: nat, k: nat)
    ensures LowBits(x, k) == x % Pow2(k)
  {
    if k != 0 {
      LowBitsIsMod(x / 2, k - 1);
      ModDouble(x, Pow2(k - 1));
    }
  }

  lemma {:induction false} LowBitsWhole(x: nat, k: nat)
    requires x < Pow2(k)
    ensures LowBits(x, k) == x
  {
    if k != 0 { LowBitsWhole(x / 2, k - 1); }
  }

  lemma {:induction false} LowBitsShift(x: nat, k: nat)
    ensures LowBits(x + Pow2(k), k) == LowBits(x, k)
  {
    if k != 0 {
      assert (x + Pow2(k)) / 2 == x / 2 + Pow2(k - 1);
      LowBitsShift(x / 2, k - 1);
    }
  }

  /** Masking with 2^k - 1 keeps the low k bits. */
  lemma {:induction false} BitAndLowMask(x: nat, k: nat)
    ensures BitAnd(x, Pow2(k) - 1) == LowBits(x, k)
  {
    if k != 0 {
      var m := Pow2(k) - 1;
      assert m % 2 == 1 && m / 2 == Pow2(k - 1) - 1;
      BitAndLowMask(x / 2, k - 1);
    }
  }

  /** Masking an n-bit word with n-k leading ones clears its low k bits. */
  lemma {:induction false} BitAndHighMask(x: nat, n: nat, k: nat)
    requires k <= n && x < Pow2(n)
    ensures Pow2(k) <= Pow2(n)
    ensures BitAnd(x, Pow2(n) - Pow2(k)) == x - LowBits(x, k)
    decreases k
  {
    hide BitAnd;
    Pow2Monotone(k, n);
    if k == 0 {
      BitAndLowMask(x, n);
      LowBitsWhole(x, n);
    } else {
      BitAndHighMask(x / 2, n - 1, k - 1);
      BitAndDouble(x, Pow2(n - 1) - Pow2(k - 1));
      assert Pow2(n) - Pow2(k) == 2 * (Pow2(n - 1) - Pow2(k - 1));
    }
  }

  /** An even mask clears the low bit and masks the rest. */
  lemma {:induction false} BitAndDouble(x: nat, m: nat)
    ensures BitAnd(x, 2 * m) == 2 * BitAnd(x / 2, m)
  {
  }

  lemma {:induction false} Pow2Monotone(a: nat, b: nat)
    requires a <= b
    ensures Pow2(a) <= Pow2(b)
    decreases b - a
  {
    if a < b { Pow2Monotone(a, b - 1); }
  }

  /** Two 32-bit words agree under a prefix mask of 32-k ones exactly when their
      top 32-k bits, read as numbers, agree. */
  lemma MaskedEqualIff(a: U32, b: U32, k: nat)
    requires k <= 32
    ensures Pow2(k) <= Pow2(32) == 0x1_0000_0000
    ensures BitAnd(a, Pow2(32) - Pow2(k)) == BitAnd(b, Pow2(32) - Pow2(k))
            <==> a / Pow2(k) == b / Pow2(k)
  {
    Pow2Values();
    BitAndHighMask(a, 32, k);
    BitAndHighMask(b, 32, k);
    LowBitsIsMod(a, k);
    LowBitsIsMod(b, k);
    SameMultiple(a, b, Pow2(k));
  }

  lemma SameMultiple(a: int, b: int, m: int)
    requires m > 0
    ensures a - a % m == b - b % m <==> a / m == b / m
  {
    assert a - a % m == (a / m) * m && b - b % m == (b / m) * m;
    if (a / m) * m == (b / m) * m {
      MultipleBetween(a / m - b / m, m, 0);
    }
  }

  // ---- byte codecs -----------------------------------------------------------

  function StLe16(v: U16): (b: seq<U8>) { [v % 0x100, v / 0x100] }

  function LdLe16(b: seq<U8>): (v: U16)
    requires |b| >= 2
  {
    b[0] as int + 0x100 * (b[1] as int)
  }

  function StLe32(v: U32): (b: seq<U8>) { StLe16(v % 0x1_0000) + StLe16(v / 0x1_0000) }

  function LdLe32(b: seq<U8>): (v: U32)
    requires |b| >= 4
  {
    b[0] as int + 0x100 * (b[1] as int) + 0x1_0000 * (b[2] as int) + 0x100_0000 * (b[3] as int)
  }

  function StLe64(v: U64): (b: seq<U8>) { StLe32(v % 0x1_0000_0000) + StLe32(v / 0x1_0000_0000) }

  function LdLe64(b: seq<U8>): (v: U64)
    requires |b| >= 8
  {
    LdLe32(b) as int + 0x1_0000_0000 * (LdLe32(b[4..]) as int)
  }

  function StBe32(v: U32): (b: seq<U8>)
  {
    [v / 0x100_0000, v / 0x1_0000 % 0x100, v / 0x100 % 0x100, v % 0x100]
  }

  function LdBe32(b: seq<U8>): (v: U32)
    requires |b| >= 4
  {
    0x100_0000 * (b[0] as int) + 0x1_0000 * (b[1] as int) + 0x100 * (b[2] as int) + b[3] as int
  }

  /** Loads undo stores, whatever follows the stored bytes. */
  lemma LoadStore16(v: U16, rest: seq<U8>)
    ensures |StLe16(v)| == 2 && LdLe16(StLe16(v) + rest) == v
  {
  }

  lemma LoadStore32(v: U32, rest: seq<U8>)
    ensures |StLe32(v)| == 4 && LdLe32(StLe32(v) + rest) == v
    ensures |StBe32(v)| == 4 && LdBe32(StBe32(v) + rest) == v
  {
    var b := StLe32(v) + rest;
    assert b[0] as int + 0x100 * (b[1] as int) == v % 0x1_0000;
    assert b[2] as int + 0x100 * (b[3] as int) == v / 0x1_0000;
    assert v / 0x100 / 0x100 == v / 0x1_0000;
  }

  lemma LoadStore64(v: U64, rest: seq<U8>)
    ensures |StLe64(v)| == 8 && LdLe64(StLe64(v) + rest) == v
  {
    var lo, hi := v % 0x1_0000_0000, v / 0x1_0000_0000;
    LoadStore32(lo, StLe32(hi) + rest);
    LoadStore32(hi, rest);
    assert StLe64(v) + rest == StLe32(lo) + (StLe32(hi) + rest);
    assert (StLe64(v) + rest)[4..] == StLe32(hi) + rest;
  }

  /** Storing back what was loaded restores the bytes. */
  lemma StoreLoadLe32(b: seq<U8>)
    requires |b| == 4
    ensures StLe32(LdLe32(b)) == b
  {
    var v := LdLe32(b);
    DivModUnique(v, 0x1_0000, b[2] as int + 0x100 * (b[3] as int), b[0] as int + 0x100 * (b[1] as int));
  }

  // ---- buffers written in place ---------------------------------------------

  /** s with the bytes d written at off. */
  function Splice(s: seq<U8>, off: nat, d: seq<U8>): (r: seq<U8>)
    requires off + |d| <= |s|
    ensures |r| == |s|
  {
    s[..off] + d + s[off + |d|..]
  }

  /** Adjacent writes are one write. */
  lemma SpliceSplice(s: seq<U8>, off: nat, a: seq<U8>, b: seq<U8>)
    requires off + |a| + |b| <= |s|
    ensures Splice(Splice(s, off, a), off + |a|, b) == Splice(s, off, a + b)
  {
  }

  lemma SpliceElsewhere(m: seq<U8>, p: nat, data: seq<U8>, lo: nat, hi: nat)
    requires p + |data| <= |m| && lo <= hi <= |m| && (hi <= p || p + |data| <= lo)
    ensures Splice(m, p, data)[lo..hi] == m[lo..hi]
  {
    var a, b := Splice(m, p, data)[lo..hi], m[lo..hi];
    assert forall i :: 0 <= i < hi - lo ==> a[i] == b[i];
  }

  /** Writes d into the buffer at off. */
  method Store(buf: array<U8>, off: nat, d: seq<U8>)
    requires off + |d| <= buf.Length
    modifies buf
    ensures buf[..] == Splice(old(buf[..]), off, d)
  {
    forall i | 0 <= i < |d| {
      buf[off + i] := d[i];
    }
    ghost var s := Splice(old(buf[..]), off, d);
    assert forall i :: 0 <= i < |s| ==> buf[i] == s[i];
  }

  // ---- numerals -----------------------------------------------------------------------

  function Pow10(n: nat): (r: nat) { if n == 0 then 1 else 10 * Pow10(n - 1) }

  predicate Decimals(s: string) { forall i :: 0 <= i < |s| ==> '0' <= s[i] <= '9' }

  /** The value of a decimal numeral, place by place. */
  function PlaceValue(s: string): (n: nat)
    requires Decimals(s)
  {
    if s == [] then 0 else (s[0] as int - '0' as int) * Pow10(|s| - 1) + PlaceValue(s[1..])
  }

  lemma {:induction false} PlaceValueLast(s: string, c: char)
    requires Decimals(s) && '0' <= c <= '9'
    ensures Decimals(s + [c]) && PlaceValue(s + [c]) == 10 * PlaceValue(s) + (c as int - '0' as int)
  {
    var t := s + [c];
    assert Decimals(t);
    if s == [] {
      assert t[1..] == [] && Pow10(0) == 1;
    } else {
      PlaceValueLast(s[1..], c);
      assert t[1..] == s[1..] + [c] && t[0] == s[0];
      var a, p := s[0] as int - '0' as int, Pow10(|s| - 1);
      assert PlaceValue(t) == a * Pow10(|s|) + PlaceValue(s[1..] + [c]);
      TenTimes(a, p);
    }
  }

  lemma TenTimes(a: int, p: int)
    ensures a * (10 * p) == 10 * (a * p)
  {
  }
}
