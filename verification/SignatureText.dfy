/** What a signature text stands for, as a relation between text and bytes, and that the compiled
    pattern matches exactly those bytes. */
module SignatureText {
  import opened Words
  import opened AntiVirus

  // ---- numerals -----------------------------------------------------------------------------

  const LOWER := "0123456789abcdef"
  const UPPER := "0123456789ABCDEF"

  /** c is the hex digit of value v, in either case. */
  predicate Digit(c: char, v: int) { 0 <= v < 16 && (LOWER[v] == c || UPPER[v] == c) }

  lemma DigitValues(c: char, v: int)
    ensures Digit(c, v) <==> HexVal(c) == Some(v)
  {
    assert LOWER[0] == '0' && LOWER[1] == '1' && LOWER[2] == '2' && LOWER[3] == '3' && LOWER[4] == '4' && LOWER[5] == '5'
           && LOWER[6] == '6' && LOWER[7] == '7' && LOWER[8] == '8' && LOWER[9] == '9' && LOWER[10] == 'a' && LOWER[11] == 'b'
           && LOWER[12] == 'c' && LOWER[13] == 'd' && LOWER[14] == 'e' && LOWER[15] == 'f';
    assert UPPER[0] == '0' && UPPER[1] == '1' && UPPER[2] == '2' && UPPER[3] == '3' && UPPER[4] == '4' && UPPER[5] == '5'
           && UPPER[6] == '6' && UPPER[7] == '7' && UPPER[8] == '8' && UPPER[9] == '9' && UPPER[10] == 'A' && UPPER[11] == 'B'
           && UPPER[12] == 'C' && UPPER[13] == 'D' && UPPER[14] == 'E' && UPPER[15] == 'F';
  }

  /** s is a decimal numeral for n. */
  ghost predicate Numeral(s: string, n: int) { s != [] && Decimals(s) && PlaceValue(s) == n }

  lemma {:induction false} DecimalFromIs(s: string)
    ensures DecimalFrom(s).Some? <==> Decimals(s)
    ensures Decimals(s) ==> DecimalFrom(s) == Some(PlaceValue(s))
  {
    if s != [] {
      var front, c := s[..|s| - 1], s[|s| - 1];
      DecimalFromIs(front);
      assert s == front + [c];
      if Decimals(front) && '0' <= c <= '9' { PlaceValueLast(front, c); }
    }
  }

  lemma NumeralIs(s: string, n: int)
    ensures Decimal(s) == Some(n) <==> Numeral(s, n)
    ensures Decimal(s).None? <==> s == [] || !Decimals(s)
  {
    DecimalFromIs(s);
  }

  // ---- single-byte tokens -----------------------------------------------------------------------

  ghost predicate IsDigit(c: char) { exists v :: Digit(c, v) }

  /** A pair of digits names its byte; a question mark leaves its half open. */
  ghost predicate PairDenotes(h: char, l: char, b: U8)
  {
    && (h == '?' || Digit(h, b / 16))
    && (l == '?' || Digit(l, b % 16))
  }

  ghost predicate PairReadable(h: char, l: char) { (h == '?' || IsDigit(h)) && (l == '?' || IsDigit(l)) }

  lemma HexIs(c: char)
    ensures IsHex(c) <==> IsDigit(c)
    ensures c == '?' ==> !IsHex(c)
  {
    hide HexVal;
    forall v
      ensures Digit(c, v) <==> HexVal(c) == Some(v)
    {
      DigitValues(c, v);
    }
    if IsHex(c) { assert Digit(c, HexVal(c).value); }
    if c == '?' { QuestionMark(); }
  }

  lemma QuestionMark()
    ensures HexVal('?').None?
  {
  }

  lemma PairIs(h: char, l: char, b: U8)
    ensures ParsePair(h, l).Some? <==> PairReadable(h, l)
    ensures ParsePair(h, l).Some? ==> (Accepts(ParsePair(h, l).value, b) <==> PairDenotes(h, l, b))
  {
    hide HexVal, Digit;
    HexIs(h);
    HexIs(l);
    QuestionMark();
    DigitValues(h, b / 16);
    DigitValues(l, b % 16);
  }

  /** One hex digit, or two. */
  ghost predicate HexNumeral(s: string, v: int)
  {
    || (|s| == 1 && Digit(s[0], v))
    || (|s| == 2 && 0 <= v && Digit(s[0], v / 16) && Digit(s[1], v % 16))
  }

  lemma HexNumeralIs(s: string, v: int)
    ensures HexNumber(s) == Some(v) <==> HexNumeral(s, v)
  {
    hide HexVal, Digit;
    if |s| == 1 { DigitValues(s[0], v); }
    if |s| == 2 {
      DigitValues(s[0], v / 16);
      DigitValues(s[1], v % 16);
      if HexVal(s[0]).Some? && HexVal(s[1]).Some? {
        DivModUnique(16 * HexVal(s[0]).value + HexVal(s[1]).value, 16, HexVal(s[0]).value, HexVal(s[1]).value);
      }
    }
  }

  // ---- bracketed tokens -----------------------------------------------------------------------------

  /** d is the place of the first dash. */
  predicate FirstDash(s: string, d: int) { 0 <= d < |s| && s[d] == '-' && forall i :: 0 <= i < d ==> s[i] != '-' }

  /** `n`, `n-m`, `-m`, `n-` or `-` between the braces: at least lo and, if given, at most hi bytes. */
  ghost predicate GapBounds(s: string, lo: int, hi: Option<nat>)
  {
    || ('-' !in s && Numeral(s, lo) && hi == Some(lo))
    || (exists d :: FirstDash(s, d) && (if d == 0 then lo == 0 else Numeral(s[..d], lo))
                    && (if d + 1 == |s| then hi == None else hi.Some? && Numeral(s[d + 1..], hi.value)))
  }

  lemma DashIs(s: string)
    ensures var d := IndexOf(s, '-', 0); (d == |s| <==> '-' !in s) && (d < |s| ==> FirstDash(s, d) && forall e :: FirstDash(s, e) ==> e == d)
  {
    var d := IndexOf(s, '-', 0);
    if d == |s| { assert forall i :: 0 <= i < |s| ==> s[i] != '-'; }
  }

  lemma GapIs(s: string, lo: int, hi: Option<nat>)
    requires lo >= 0
    ensures ParseGap(s) == Some(Gap(lo, hi)) <==> GapBounds(s, lo, hi)
  {
    hide Numeral, Decimal, IndexOf;
    DashIs(s);
    var d := IndexOf(s, '-', 0);
    NumeralIs(s, lo);
    if d < |s| {
      NumeralIs(s[..d], lo);
      if hi.Some? { NumeralIs(s[d + 1..], hi.value); }
      NotEmptyNumeral(s[d + 1..]);
    }
  }

  lemma NotEmptyNumeral(s: string)
    ensures s == [] ==> Decimal(s).None?
  {
  }

  /** Two hex numerals around the first dash. */
  ghost predicate RangeBounds(s: string, lo: int, hi: int)
  {
    exists d :: FirstDash(s, d) && HexNumeral(s[..d], lo) && HexNumeral(s[d + 1..], hi)
  }

  lemma RangeIs(s: string, lo: U8, hi: U8)
    ensures ParseRange(s) == Some(Range(lo, hi)) <==> RangeBounds(s, lo, hi)
  {
    hide HexNumber, HexNumeral, IndexOf;
    DashIs(s);
    var d := IndexOf(s, '-', 0);
    if d < |s| {
      HexNumeralIs(s[..d], lo);
      HexNumeralIs(s[d + 1..], hi);
    }
  }

  /** s[i..j] is one of the texts the bars separate. */
  predicate Alternative(s: string, i: int, j: int)
  {
    && 0 <= i <= j <= |s| && (i == 0 || s[i - 1] == '|') && (j == |s| || s[j] == '|')
    && forall k :: i <= k < j ==> s[k] != '|'
  }

  /** A branch names one byte per pair; an odd last character names nothing. */
  ghost predicate BranchDenotes(s: string, u: seq<U8>)
  {
    |u| == |s| / 2 && forall i :: 0 <= i < |u| ==> PairDenotes(s[2 * i], s[2 * i + 1], u[i])
  }

  ghost predicate BranchReadable(s: string) { forall i :: 0 <= i < |s| / 2 ==> PairReadable(s[2 * i], s[2 * i + 1]) }

  lemma {:induction false} BranchIs(s: string)
    ensures ParseBranch(s).Some? <==> BranchReadable(s)
    ensures ParseBranch(s).Some? ==> forall u :: BranchMatches(ParseBranch(s).value, u) <==> BranchDenotes(s, u)
  {
    hide ParsePair, PairReadable, PairDenotes, Accepts;
    if |s| >= 2 {
      var t := s[2..];
      BranchIs(t);
      PairIs(s[0], s[1], 0);
      assert forall i :: 0 <= i < |t| / 2 ==> t[2 * i] == s[2 * (i + 1)] && t[2 * i + 1] == s[2 * (i + 1) + 1];
      BranchReadableCons(s);
      if ParseBranch(s).Some? {
        forall u
          ensures BranchMatches(ParseBranch(s).value, u) <==> BranchDenotes(s, u)
        {
          BranchCons(s, u);
        }
      }
    }
  }

  lemma BranchReadableCons(s: string)
    requires |s| >= 2
    ensures BranchReadable(s) <==> PairReadable(s[0], s[1]) && BranchReadable(s[2..])
  {
    hide PairReadable;
    var t := s[2..];
    assert forall i :: 0 <= i < |t| / 2 ==> t[2 * i] == s[2 * (i + 1)] && t[2 * i + 1] == s[2 * (i + 1) + 1];
    if PairReadable(s[0], s[1]) && BranchReadable(t) {
      forall i | 0 <= i < |s| / 2
        ensures PairReadable(s[2 * i], s[2 * i + 1])
      {
        if i > 0 { assert PairReadable(t[2 * (i - 1)], t[2 * (i - 1) + 1]); }
      }
    }
    if BranchReadable(s) {
      forall i | 0 <= i < |t| / 2
        ensures PairReadable(t[2 * i], t[2 * i + 1])
      {
        assert PairReadable(s[2 * (i + 1)], s[2 * (i + 1) + 1]);
      }
      assert PairReadable(s[2 * 0], s[2 * 0 + 1]);
    }
  }

  lemma BranchCons(s: string, u: seq<U8>)
    requires |s| >= 2 && ParseBranch(s).Some?
    requires ParseBranch(s[2..]).Some? && forall v :: BranchMatches(ParseBranch(s[2..]).value, v) <==> BranchDenotes(s[2..], v)
    ensures BranchMatches(ParseBranch(s).value, u) <==> BranchDenotes(s, u)
  {
    hide ParsePair, PairReadable, PairDenotes, Accepts;
    var t, es := s[2..], ParseBranch(s).value;
    var e, rest := ParsePair(s[0], s[1]).value, ParseBranch(t).value;
    assert es == [e] + rest;
    if u != [] {
      PairIs(s[0], s[1], u[0]);
      DenotesCons(s, u);
      assert BranchMatches(es, u) <==> Accepts(e, u[0]) && BranchMatches(rest, u[1..]) by {
        assert forall i :: 0 <= i < |rest| ==> es[i + 1] == rest[i];
        assert forall i :: 0 <= i < |u| - 1 ==> u[1..][i] == u[i + 1];
        if BranchMatches(es, u) {
          forall i | 0 <= i < |rest|
            ensures Accepts(rest[i], u[1..][i])
          {
            assert Accepts(es[i + 1], u[i + 1]);
          }
        }
      }
    }
  }

  lemma DenotesCons(s: string, u: seq<U8>)
    requires |s| >= 2 && u != []
    ensures BranchDenotes(s, u) <==> PairDenotes(s[0], s[1], u[0]) && BranchDenotes(s[2..], u[1..])
  {
    hide PairDenotes;
    var t, v := s[2..], u[1..];
    if BranchDenotes(s, u) {
      assert PairDenotes(s[2 * 0], s[2 * 0 + 1], u[0]);
      forall i | 0 <= i < |v|
        ensures PairDenotes(t[2 * i], t[2 * i + 1], v[i])
      {
        assert PairDenotes(s[2 * (i + 1)], s[2 * (i + 1) + 1], u[i + 1]);
      }
    }
    if PairDenotes(s[0], s[1], u[0]) && BranchDenotes(t, v) {
      forall i | 0 <= i < |u|
        ensures PairDenotes(s[2 * i], s[2 * i + 1], u[i])
      {
        if i > 0 { assert PairDenotes(t[2 * (i - 1)], t[2 * (i - 1) + 1], v[i - 1]); }
      }
    }
  }

  /** One of the branches names the bytes. */
  ghost predicate AltDenotes(s: string, u: seq<U8>) { exists i, j :: Alternative(s, i, j) && BranchDenotes(s[i..j], u) }

  ghost predicate AltReadable(s: string) { forall i, j :: Alternative(s, i, j) ==> BranchReadable(s[i..j]) }

  lemma {:induction false} BranchesAre(s: string)
    ensures ParseBranches(s).Some? <==> AltReadable(s)
    ensures ParseBranches(s).Some? ==> forall u :: ElemMatches(Alt(ParseBranches(s).value), u) <==> AltDenotes(s, u)
    decreases |s|
  {
    hide ParseBranch, BranchDenotes, BranchReadable, BranchMatches;
    var d := IndexOf(s, '|', 0);
    assert Alternative(s, 0, d) && s[0..d] == s[..d];
    assert forall j :: Alternative(s, 0, j) ==> j == d;
    BranchIs(s[..d]);
    if d == |s| {
      assert forall i, j :: Alternative(s, i, j) ==> i == 0 && j == d;
      if ParseBranches(s).Some? {
        forall u
          ensures ElemMatches(Alt(ParseBranches(s).value), u) <==> AltDenotes(s, u)
        {
          OnlyBranch(ParseBranch(s[..d]).value, u);
        }
      }
    } else {
      var t := s[d + 1..];
      BranchesAre(t);
      forall i, j
        ensures Alternative(t, i, j) <==> Alternative(s, i + d + 1, j + d + 1) && i >= 0
      {
        AlternativeLater(s, d, i, j);
      }
      FirstOrLater(s, d);
      if ParseBranches(s).Some? {
        forall u
          ensures ElemMatches(Alt(ParseBranches(s).value), u) <==> AltDenotes(s, u)
        {
          MoreBranches(ParseBranch(s[..d]).value, ParseBranches(t).value, u);
        }
      }
    }
  }

  lemma AlternativeLater(s: string, d: nat, i: int, j: int)
    requires d < |s| && s[d] == '|' && forall k :: 0 <= k < d ==> s[k] != '|'
    ensures Alternative(s[d + 1..], i, j) <==> Alternative(s, i + d + 1, j + d + 1) && i >= 0
  {
    var t := s[d + 1..];
    if 0 <= i <= j <= |t| {
      assert forall k :: i <= k < j ==> t[k] == s[k + d + 1];
      if Alternative(s, i + d + 1, j + d + 1) {
        forall k | i <= k < j
          ensures t[k] != '|'
        {
          assert s[k + d + 1] != '|';
        }
      }
    }
  }

  /** The alternatives are the first and those behind the first bar. */
  lemma FirstOrLater(s: string, d: nat)
    requires d < |s| && s[d] == '|' && forall k :: 0 <= k < d ==> s[k] != '|'
    ensures AltReadable(s) <==> BranchReadable(s[..d]) && AltReadable(s[d + 1..])
    ensures forall u :: AltDenotes(s, u) <==> BranchDenotes(s[..d], u) || AltDenotes(s[d + 1..], u)
  {
    hide BranchDenotes, BranchReadable;
    var t := s[d + 1..];
    assert Alternative(s, 0, d) && s[0..d] == s[..d];
    forall i, j | Alternative(s, i, j)
      ensures (i == 0 && j == d) || (i >= d + 1 && Alternative(t, i - d - 1, j - d - 1) && s[i..j] == t[i - d - 1..j - d - 1])
    {
      if i >= d + 1 { AlternativeLater(s, d, i - d - 1, j - d - 1); }
    }
    forall i, j | Alternative(t, i, j)
      ensures Alternative(s, i + d + 1, j + d + 1) && s[i + d + 1..j + d + 1] == t[i..j]
    {
      AlternativeLater(s, d, i, j);
    }
  }

  lemma OnlyBranch(b: seq<Elem>, u: seq<U8>)
    ensures ElemMatches(Alt([b]), u) <==> BranchMatches(b, u)
  {
    hide BranchMatches;
    assert [b][0] == b;
  }

  lemma MoreBranches(b: seq<Elem>, bs: seq<seq<Elem>>, u: seq<U8>)
    ensures ElemMatches(Alt([b] + bs), u) <==> BranchMatches(b, u) || ElemMatches(Alt(bs), u)
  {
    hide BranchMatches;
    var all := [b] + bs;
    assert all[0] == b && forall j :: 0 <= j < |bs| ==> all[j + 1] == bs[j];
    if ElemMatches(Alt(all), u) {
      var j :| 0 <= j < |all| && BranchMatches(all[j], u);
      if j > 0 { assert bs[j - 1] == all[j]; }
    }
    if ElemMatches(Alt(bs), u) {
      var j :| 0 <= j < |bs| && BranchMatches(bs[j], u);
      assert BranchMatches(all[j + 1], u);
    }
  }

  // ---- whole texts ------------------------------------------------------------------------------------

  /** A star, a bracketed text up to its first closing bracket, or a pair of other characters. */
  predicate Token(t: string)
  {
    if t == [] then false
    else if t[0] == '*' then |t| == 1
    else if t[0] == '{' || t[0] == '(' || t[0] == '[' then
      |t| >= 2 && t[|t| - 1] == Closing(t[0]) && forall i :: 1 <= i < |t| - 1 ==> t[i] != Closing(t[0])
    else |t| == 2
  }

  function Closing(c: char): (d: char) { if c == '{' then '}' else if c == '(' then ')' else ']' }

  function Inner(t: string): (s: string)
    requires |t| >= 2
  {
    t[1..|t| - 1]
  }

  ghost predicate TokenReadable(t: string)
    requires Token(t)
  {
    if t[0] == '*' then true
    else if t[0] == '{' then exists lo: int, hi: Option<nat> :: GapBounds(Inner(t), lo, hi)
    else if t[0] == '(' then AltReadable(Inner(t))
    else if t[0] == '[' then exists lo: int, hi: int :: RangeBounds(Inner(t), lo, hi)
    else PairReadable(t[0], t[1])
  }

  /** Any bytes, a number of bytes within bounds, one of the branches, a byte in a range, a byte. */
  ghost predicate TokenDenotes(t: string, u: seq<U8>)
    requires Token(t)
  {
    if t[0] == '*' then true
    else if t[0] == '{' then exists lo: int, hi: Option<nat> :: GapBounds(Inner(t), lo, hi) && lo <= |u| && (hi.Some? ==> |u| <= hi.value)
    else if t[0] == '(' then AltDenotes(Inner(t), u)
    else if t[0] == '[' then |u| == 1 && exists lo: int, hi: int :: RangeBounds(Inner(t), lo, hi) && lo <= u[0] <= hi
    else |u| == 1 && PairDenotes(t[0], t[1], u[0])
  }

  /** Bounds that the regex engine takes. */
  ghost predicate TokenOrdered(t: string)
    requires Token(t)
  {
    && (t[0] == '{' ==> forall lo: int, hi: nat :: GapBounds(Inner(t), lo, Some(hi)) ==> lo <= hi)
    && (t[0] == '[' ==> forall lo: int, hi: int :: RangeBounds(Inner(t), lo, hi) ==> lo <= hi)
  }

  lemma NumeralNatural(s: string, n: int)
    ensures Numeral(s, n) ==> n >= 0
  {
  }

  lemma HexNumeralByte(s: string, v: int)
    ensures HexNumeral(s, v) ==> 0 <= v < 256
  {
  }

  lemma GapBoundsNatural(s: string, lo: int, hi: Option<nat>)
    ensures GapBounds(s, lo, hi) ==> lo >= 0
  {
    hide Numeral;
    NumeralNatural(s, lo);
    if d :| FirstDash(s, d) && (if d == 0 then lo == 0 else Numeral(s[..d], lo)) { NumeralNatural(s[..d], lo); }
  }

  /** A bracketed element means what the text in its brackets says. */
  lemma GapTokenIs(inner: string)
    ensures ParseGap(inner).Some? <==> exists lo: int, hi: Option<nat> :: GapBounds(inner, lo, hi)
    ensures ParseGap(inner).Some? ==>
              && (forall u :: ElemMatches(ParseGap(inner).value, u) <==>
                    exists lo: int, hi: Option<nat> :: GapBounds(inner, lo, hi) && lo <= |u| && (hi.Some? ==> |u| <= hi.value))
              && (Regular(ParseGap(inner).value) <==> forall lo: int, hi: nat :: GapBounds(inner, lo, Some(hi)) ==> lo <= hi)
  {
    hide ParseGap, GapBounds;
    forall lo: int, hi: Option<nat>
      ensures GapBounds(inner, lo, hi) <==> lo >= 0 && ParseGap(inner) == Some(Gap(lo, hi))
    {
      GapBoundsNatural(inner, lo, hi);
      if lo >= 0 { GapIs(inner, lo, hi); }
    }
    if ParseGap(inner).Some? {
      var g := ParseGap(inner).value;
      assert GapBounds(inner, g.min, g.max);
    }
  }

  lemma RangeTokenIs(inner: string)
    ensures ParseRange(inner).Some? <==> exists lo: int, hi: int :: RangeBounds(inner, lo, hi)
    ensures ParseRange(inner).Some? ==>
              && (forall u :: ElemMatches(ParseRange(inner).value, u) <==> |u| == 1 && exists lo: int, hi: int :: RangeBounds(inner, lo, hi) && lo <= u[0] <= hi)
              && (Regular(ParseRange(inner).value) <==> forall lo: int, hi: int :: RangeBounds(inner, lo, hi) ==> lo <= hi)
  {
    hide ParseRange, RangeBounds;
    forall lo: int, hi: int
      ensures RangeBounds(inner, lo, hi) <==> 0 <= lo < 256 && 0 <= hi < 256 && ParseRange(inner) == Some(Range(lo, hi))
    {
      RangeBoundsBytes(inner, lo, hi);
      if 0 <= lo < 256 && 0 <= hi < 256 { RangeIs(inner, lo, hi); }
    }
    if ParseRange(inner).Some? {
      var g := ParseRange(inner).value;
      assert RangeBounds(inner, g.from, g.to);
    }
  }

  lemma RangeBoundsBytes(s: string, lo: int, hi: int)
    ensures RangeBounds(s, lo, hi) ==> 0 <= lo < 256 && 0 <= hi < 256
  {
    hide HexNumeral;
    if d :| FirstDash(s, d) && HexNumeral(s[..d], lo) && HexNumeral(s[d + 1..], hi) {
      HexNumeralByte(s[..d], lo);
      HexNumeralByte(s[d + 1..], hi);
    }
  }

  /** The token at i, if there is one, is unique, and the compiler finds exactly it. */
  lemma TokenIs(s: string, i: nat, n: nat)
    requires i < n <= |s| && Token(s[i..n])
    ensures var t := TokenAt(s, i);
            && (t.Tok? <==> TokenReadable(s[i..n])) && !t.RaisingTok?
            && (t.Tok? ==> t.next == n
                           && (forall u :: ElemMatches(t.e, u) <==> TokenDenotes(s[i..n], u))
                           && (Regular(t.e) <==> TokenOrdered(s[i..n])))
  {
    hide ParseGap, ParseRange, ParseBranches, ParsePair, GapBounds, RangeBounds, AltDenotes, AltReadable, PairReadable, PairDenotes, IndexOf, Accepts, ElemMatches;
    var t := s[i..n];
    StarIs();
    if s[i] == '{' || s[i] == '(' || s[i] == '[' {
      ClosedAt(s, i, n);
      InnerIs(s, i, n);
      if s[i] == '{' {
        GapTokenIs(Inner(t));
      } else if s[i] == '[' {
        RangeTokenIs(Inner(t));
      } else {
        BranchesAre(Inner(t));
      }
    } else if s[i] != '*' {
      PairTokenIs(s[i], s[i + 1]);
    }
  }

  lemma InnerIs(s: string, i: nat, n: nat)
    requires i + 2 <= n <= |s|
    ensures s[i + 1..n - 1] == Inner(s[i..n])
  {
    var a, b := s[i + 1..n - 1], Inner(s[i..n]);
    forall k | 0 <= k < |a|
      ensures a[k] == b[k]
    {
      assert b[k] == s[i..n][1 + k] == s[i + (1 + k)];
    }
  }

  lemma StarIs()
    ensures Regular(Gap(0, None)) && forall u :: ElemMatches(Gap(0, None), u)
  {
  }

  lemma PairTokenIs(h: char, l: char)
    ensures ParsePair(h, l).Some? <==> PairReadable(h, l)
    ensures ParsePair(h, l).Some? ==> Regular(ParsePair(h, l).value)
    ensures ParsePair(h, l).Some? ==> forall u :: ElemMatches(ParsePair(h, l).value, u) <==> |u| == 1 && PairDenotes(h, l, u[0])
  {
    hide PairReadable, PairDenotes, HexVal;
    PairIs(h, l, 0);
    if ParsePair(h, l).Some? {
      forall u
        ensures ElemMatches(ParsePair(h, l).value, u) <==> |u| == 1 && PairDenotes(h, l, u[0])
      {
        if |u| == 1 { PairIs(h, l, u[0]); }
      }
    }
  }

  lemma ClosedAt(s: string, i: nat, n: nat)
    requires i < n <= |s| && Token(s[i..n]) && (s[i] == '{' || s[i] == '(' || s[i] == '[')
    ensures IndexOf(s, Closer(s[i]), i) == n - 1 && Closer(s[i]) == Closing(s[i]) && n >= i + 2
  {
    var t, c := s[i..n], Closing(s[i]);
    assert t[0] == s[i] && t[|t| - 1] == s[n - 1] == c;
    forall k | i <= k < n - 1
      ensures s[k] != c
    {
      if k > i { assert t[k - i] == s[k]; }
    }
    IndexIs(s, c, i, n - 1);
  }

  lemma IndexIs(s: string, c: char, i: nat, j: nat)
    requires i <= j < |s| && s[j] == c && forall k :: i <= k < j ==> s[k] != c
    ensures IndexOf(s, c, i) == j
  {
  }

  /** Wherever the compiler finds a token, there is one. */
  lemma TokenFound(s: string, i: nat)
    requires i < |s| && TokenAt(s, i).Tok?
    ensures Token(s[i..TokenAt(s, i).next])
  {
    hide ParseGap, ParseRange, ParseBranches, ParsePair;
    var n := TokenAt(s, i).next;
    var t := s[i..n];
    assert t[0] == s[i] && t[|t| - 1] == s[n - 1];
    if s[i] == '{' || s[i] == '(' || s[i] == '[' {
      assert forall k :: 1 <= k < |t| - 1 ==> t[k] == s[i + k];
    }
  }

  /** The text from i on is a sequence of readable tokens. */
  ghost predicate TextReadable(s: string, i: nat)
    requires i <= |s|
    decreases |s| - i
  {
    i == |s| || exists n :: i < n <= |s| && Token(s[i..n]) && TokenReadable(s[i..n]) && TextReadable(s, n)
  }

  ghost predicate TextOrdered(s: string, i: nat)
    requires i <= |s|
    decreases |s| - i
  {
    i == |s| || exists n :: i < n <= |s| && Token(s[i..n]) && TokenReadable(s[i..n]) && TokenOrdered(s[i..n]) && TextOrdered(s, n)
  }

  /** Readable tokens, then a lone character that needed another. */
  ghost predicate TextRaises(s: string, i: nat)
    requires i <= |s|
    decreases |s| - i
  {
    || (i + 1 == |s| && s[i] !in "*{([")
    || exists n :: i < n <= |s| && Token(s[i..n]) && TokenReadable(s[i..n]) && TextRaises(s, n)
  }

  /** Each token names its share of the bytes, in order. */
  ghost predicate TextDenotes(s: string, i: nat, w: seq<U8>)
    requires i <= |s|
    decreases |s| - i
  {
    if i == |s| then w == []
    else exists n, k :: i < n <= |s| && 0 <= k <= |w| && Token(s[i..n]) && TokenDenotes(s[i..n], w[..k]) && TextDenotes(s, n, w[k..])
  }

  /** The compiler reads a text exactly when it is a sequence of readable tokens, and raises exactly
      when such a sequence ends in a lone character. */
  lemma {:induction false} ReadsIff(s: string, i: nat)
    requires i <= |s|
    ensures CompileFrom(s, i).Pattern? <==> TextReadable(s, i)
    ensures CompileFrom(s, i).Raises? <==> TextRaises(s, i)
    decreases |s| - i
  {
    hide TokenReadable, TokenAt, Token;
    if i < |s| {
      var t := TokenAt(s, i);
      forall n | i < n <= |s| && Token(s[i..n])
        ensures !t.RaisingTok? && (t.Tok? <==> TokenReadable(s[i..n])) && (t.Tok? ==> t.next == n)
      {
        TokenIs(s, i, n);
      }
      LoneIs(s, i);
      if t.Tok? {
        TokenFound(s, i);
        ReadsIff(s, t.next);
      }
    }
  }

  lemma LoneIs(s: string, i: nat)
    requires i < |s|
    ensures TokenAt(s, i).RaisingTok? <==> i + 1 == |s| && s[i] !in "*{(["
    ensures i + 1 == |s| && s[i] !in "*{([" ==> forall n :: i < n <= |s| ==> !Token(s[i..n])
  {
    hide ParseGap, ParseRange, ParseBranches, ParsePair, IndexOf;
    assert forall c :: c in "*{([" <==> c == '*' || c == '{' || c == '(' || c == '[' by {
      assert "*{(["[0] == '*' && "*{(["[1] == '{' && "*{(["[2] == '(' && "*{(["[3] == '[';
    }
  }

  /** And the regex takes it exactly when all its bounds are in order. */
  lemma {:induction false} RegularIff(s: string, i: nat)
    requires i <= |s| && CompileFrom(s, i).Pattern?
    ensures AllRegular(CompileFrom(s, i).es) <==> TextOrdered(s, i)
    decreases |s| - i
  {
    hide TokenReadable, TokenOrdered, TokenAt, Token, Regular;
    if i < |s| {
      var t := TokenAt(s, i);
      TokenFound(s, i);
      TokenIs(s, i, t.next);
      forall n | i < n <= |s| && Token(s[i..n]) && TokenReadable(s[i..n])
        ensures t.next == n
      {
        TokenIs(s, i, n);
      }
      RegularIff(s, t.next);
      RegularCons(t.e, CompileFrom(s, t.next).es);
    }
  }

  lemma RegularCons(e: Elem, es: seq<Elem>)
    ensures AllRegular([e] + es) <==> Regular(e) && AllRegular(es)
  {
    hide Regular;
    var all := [e] + es;
    assert all[0] == e && forall i :: 0 <= i < |es| ==> all[i + 1] == es[i];
    if AllRegular(all) {
      forall i | 0 <= i < |es|
        ensures Regular(es[i])
      {
        assert Regular(all[i + 1]);
      }
    }
  }

  /** The pattern matches exactly the bytes the text denotes. */
  lemma {:induction false} MatchesIff(s: string, i: nat, w: seq<U8>)
    requires i <= |s| && CompileFrom(s, i).Pattern?
    ensures Matches(CompileFrom(s, i).es, w) <==> TextDenotes(s, i, w)
    decreases |s| - i
  {
    hide TokenReadable, TokenDenotes, TokenAt, Token, ElemMatches;
    if i < |s| {
      var t := TokenAt(s, i);
      TokenFound(s, i);
      TokenIs(s, i, t.next);
      var es, rest := CompileFrom(s, i).es, CompileFrom(s, t.next).es;
      assert es[0] == t.e && es[1..] == rest;
      forall n, u | i < n <= |s| && Token(s[i..n]) && TokenDenotes(s[i..n], u)
        ensures n == t.next
      {
        TokenUnique(s, i, n, t.next);
      }
      forall k | 0 <= k <= |w|
        ensures Matches(rest, w[k..]) <==> TextDenotes(s, t.next, w[k..])
      {
        MatchesIff(s, t.next, w[k..]);
      }
      if Matches(es, w) {
        var k :| 0 <= k <= |w| && ElemMatches(es[0], w[..k]) && Matches(es[1..], w[k..]);
        assert Token(s[i..t.next]) && TokenDenotes(s[i..t.next], w[..k]) && TextDenotes(s, t.next, w[k..]);
      }
      if TextDenotes(s, i, w) {
        var n, k :| i < n <= |s| && 0 <= k <= |w| && Token(s[i..n]) && TokenDenotes(s[i..n], w[..k]) && TextDenotes(s, n, w[k..]);
        assert ElemMatches(es[0], w[..k]) && Matches(es[1..], w[k..]);
      }
    }
  }

  lemma TokenUnique(s: string, i: nat, n: nat, m: nat)
    requires i < n <= |s| && i < m <= |s| && Token(s[i..n]) && Token(s[i..m])
    ensures n == m
  {
    if s[i] == '{' || s[i] == '(' || s[i] == '[' {
      ClosedAt(s, i, n);
      ClosedAt(s, i, m);
    }
  }

  /** Dropping blanks drops every blank and nothing else, and keeps the order. */
  lemma {:induction false} StripMeans(a: string, c: char, b: string)
    ensures Strip(a + [c] + b) == Strip(a) + (if c == ' ' then [] else [c]) + Strip(b)
    decreases |b|
  {
    var s := a + [c] + b;
    if b == [] {
      assert s[..|s| - 1] == a;
    } else {
      var front, last := b[..|b| - 1], b[|b| - 1];
      StripMeans(a, c, front);
      assert s[..|s| - 1] == a + [c] + front && s[|s| - 1] == last;
    }
  }

  /** A signature compiles exactly when its text, blanks dropped, is a sequence of readable tokens
      with ordered bounds; compiling raises exactly when a lone character follows readable tokens;
      and the compiled pattern matches exactly the bytes the text denotes. */
  lemma SignatureMeans(hexsig: string, w: seq<U8>)
    ensures CompileSig(hexsig).Pattern? <==> TextOrdered(Strip(hexsig), 0)
    ensures CompileSig(hexsig).Raises? <==> TextRaises(Strip(hexsig), 0)
    ensures CompileSig(hexsig).Pattern? ==> (Matches(CompileSig(hexsig).es, w) <==> TextDenotes(Strip(hexsig), 0, w))
  {
    hide Strip, Matches, TextDenotes, TextRaises, TextReadable, TextOrdered, CompileFrom, AllRegular;
    var s := Strip(hexsig);
    ReadsIff(s, 0);
    OrderedIsReadable(s, 0);
    if CompileFrom(s, 0).Pattern? {
      RegularIff(s, 0);
      MatchesIff(s, 0, w);
    }
  }

  lemma {:induction false} OrderedIsReadable(s: string, i: nat)
    requires i <= |s|
    ensures TextOrdered(s, i) ==> TextReadable(s, i)
    decreases |s| - i
  {
    hide Token, TokenReadable, TokenOrdered;
    if i < |s| {
      forall n | i < n <= |s|
        ensures TextOrdered(s, n) ==> TextReadable(s, n)
      {
        OrderedIsReadable(s, n);
      }
    }
  }
}
