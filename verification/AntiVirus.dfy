/** Anti-virus body signatures: hex text compiled to byte patterns, the literal anchor extracted
    from the same text, and when that anchor is a necessary condition of a match. */
module AntiVirus {
  import opened Words

  // ---- patterns -------------------------------------------------------------------

  datatype Elem =
    | Byte(b: U8)
    | AnyByte
    | HighNibble(hi: nat)
    | LowNibble(lo: nat)
    | Range(from: U8, to: U8)
    | Gap(min: nat, max: Option<nat>)
    | Alt(branches: seq<seq<Elem>>)

  /** A one-byte element accepts byte x. */
  predicate Accepts(e: Elem, x: U8)
  {
    match e
    case Byte(b) => x == b
    case AnyByte => true
    case HighNibble(hi) => x / 16 == hi
    case LowNibble(lo) => x % 16 == lo
    case Range(from, to) => from <= x <= to
    case Gap(_, _) => false
    case Alt(_) => false
  }

  /** A plain branch of single-byte elements matches w. */
  predicate BranchMatches(es: seq<Elem>, w: seq<U8>)
  {
    |es| == |w| && forall i :: 0 <= i < |es| ==> Accepts(es[i], w[i])
  }

  predicate ElemMatches(e: Elem, w: seq<U8>)
  {
    match e
    case Gap(min, max) => min <= |w| && (max.Some? ==> |w| <= max.value)
    case Alt(branches) => exists j :: 0 <= j < |branches| && BranchMatches(branches[j], w)
    case _ => |w| == 1 && Accepts(e, w[0])
  }

  /** The byte strings a compiled pattern matches in full. */
  predicate Matches(es: seq<Elem>, w: seq<U8>)
  {
    if es == [] then w == []
    else exists k :: 0 <= k <= |w| && ElemMatches(es[0], w[..k]) && Matches(es[1..], w[k..])
  }

  // ---- signature text ----------------------------------------------------------------

  function HexVal(c: char): (v: Option<nat>)
    ensures v.Some? ==> v.value < 16
  {
    if '0' <= c <= '9' then Some(c as int - '0' as int)
    else if 'a' <= c <= 'f' then Some(c as int - 'a' as int + 10)
    else if 'A' <= c <= 'F' then Some(c as int - 'A' as int + 10)
    else None
  }

  predicate IsHex(c: char) { HexVal(c).Some? }

  /** The index of the first c at or after i, or the length of s. */
  function IndexOf(s: string, c: char, i: nat): (j: nat)
    requires i <= |s|
    ensures i <= j <= |s| && (j < |s| ==> s[j] == c)
    ensures forall k :: i <= k < j ==> s[k] != c
    decreases |s| - i
  {
    if i == |s| || s[i] == c then i else IndexOf(s, c, i + 1)
  }

  function Decimal(s: string): (v: Option<nat>)
  {
    if s == [] then None else DecimalFrom(s)
  }

  function DecimalFrom(s: string): (v: Option<nat>)
  {
    if s == [] then Some(0)
    else
      var d := s[|s| - 1];
      var rest := DecimalFrom(s[..|s| - 1]);
      if '0' <= d <= '9' && rest.Some? then Some(10 * rest.value + (d as int - '0' as int)) else None
  }

  /** `{n}`, `{n-m}`, `{-m}`, `{n-}`. */
  function ParseGap(spec: string): (e: Option<Elem>)
    ensures e.Some? ==> e.value.Gap?
  {
    var d := IndexOf(spec, '-', 0);
    if d == |spec| then
      var n := Decimal(spec);
      if n.Some? then Some(Gap(n.value, n)) else None
    else
      var lo := if d == 0 then Some(0) else Decimal(spec[..d]);
      if lo.None? then None
      else if d + 1 == |spec| then Some(Gap(lo.value, None))
      else
        var hi := Decimal(spec[d + 1..]);
        if hi.Some? then Some(Gap(lo.value, hi)) else None
  }

  /** One two-character token. */
  function ParsePair(hi: char, lo: char): (e: Option<Elem>)
    ensures e.Some? ==> e.value.Byte? || e.value.AnyByte? || e.value.HighNibble? || e.value.LowNibble?
    ensures e.Some? && e.value.Byte? <==> IsHex(hi) && IsHex(lo)
    ensures e.Some? && e.value.LowNibble? ==> hi == '?' && IsHex(lo)
    ensures e.Some? && !e.value.Byte? && !e.value.LowNibble? ==> lo == '?'
  {
    if hi == '?' && lo == '?' then Some(AnyByte)
    else if hi == '?' then (if IsHex(lo) then Some(LowNibble(HexVal(lo).value)) else None)
    else if lo == '?' then (if IsHex(hi) then Some(HighNibble(HexVal(hi).value)) else None)
    else if IsHex(hi) && IsHex(lo) then Some(Byte(16 * HexVal(hi).value + HexVal(lo).value))
    else None
  }

  /** A branch of an alternation; an odd trailing character is ignored. */
  function ParseBranch(s: string): (es: Option<seq<Elem>>)
  {
    if |s| < 2 then Some([])
    else
      var e, rest := ParsePair(s[0], s[1]), ParseBranch(s[2..]);
      if e.Some? && rest.Some? then Some([e.value] + rest.value) else None
  }

  /** The text between parentheses, split at bars. */
  function ParseBranches(s: string): (bs: Option<seq<seq<Elem>>>)
    decreases |s|
  {
    var d := IndexOf(s, '|', 0);
    var b := ParseBranch(s[..d]);
    if b.None? then None
    else if d == |s| then Some([b.value])
    else
      var rest := ParseBranches(s[d + 1..]);
      if rest.Some? then Some([b.value] + rest.value) else None
  }

  /** One or two hex digits. */
  function HexNumber(s: string): (v: Option<U8>)
  {
    if |s| == 1 && IsHex(s[0]) then Some(HexVal(s[0]).value)
    else if |s| == 2 && IsHex(s[0]) && IsHex(s[1]) then Some(16 * HexVal(s[0]).value + HexVal(s[1]).value)
    else None
  }

  /** `[aa-bb]`, split at its first dash. */
  function ParseRange(s: string): (e: Option<Elem>)
    ensures e.Some? ==> e.value.Range?
  {
    var d := IndexOf(s, '-', 0);
    if d == |s| then None
    else
      var lo, hi := HexNumber(s[..d]), HexNumber(s[d + 1..]);
      if lo.Some? && hi.Some? then Some(Range(lo.value, hi.value)) else None
  }

  /** What compiling gives: a pattern, a refusal, or an uncaught exception on a lone last
      character. */
  datatype Compiled = Pattern(es: seq<Elem>) | Refused | Raises

  /** One token at i: its element and where the next begins. */
  datatype Token = Tok(e: Elem, next: nat) | BadTok | RaisingTok

  function TokenAt(s: string, i: nat): (t: Token)
    requires i < |s|
    ensures t.Tok? ==> i < t.next <= |s|
  {
    var c := s[i];
    if c == '*' then Tok(Gap(0, None), i + 1)
    else if c == '{' || c == '(' || c == '[' then
      var j := IndexOf(s, Closer(c), i);
      if j == |s| then BadTok
      else
        var inner := s[i + 1..j];
        var e := if c == '{' then ParseGap(inner)
                 else if c == '[' then ParseRange(inner)
                 else var bs := ParseBranches(inner); if bs.Some? then Some(Alt(bs.value)) else None;
        if e.Some? then Tok(e.value, j + 1) else BadTok
    else if i + 1 == |s| then RaisingTok
    else
      var e := ParsePair(c, s[i + 1]);
      if e.Some? then Tok(e.value, i + 2) else BadTok
  }

  function Closer(c: char): (d: char) { if c == '{' then '}' else if c == '(' then ')' else ']' }

  function CompileFrom(s: string, i: nat): (r: Compiled)
    requires i <= |s|
    decreases |s| - i
  {
    if i == |s| then Pattern([])
    else
      match TokenAt(s, i)
      case BadTok => Refused
      case RaisingTok => Raises
      case Tok(e, next) =>
        match CompileFrom(s, next)
        case Pattern(es) => Pattern([e] + es)
        case other => other
  }

  /** Blanks are dropped before anything else. */
  function Strip(s: string): (r: string)
    ensures ' ' !in r
  {
    if s == [] then []
    else if s[|s| - 1] == ' ' then Strip(s[..|s| - 1]) else Strip(s[..|s| - 1]) + [s[|s| - 1]]
  }

  /** The regex engine refuses a reversed range and a minimum above the maximum. */
  predicate Regular(e: Elem)
  {
    (e.Range? ==> e.from <= e.to) && (e.Gap? && e.max.Some? ==> e.min <= e.max.value)
  }

  predicate AllRegular(es: seq<Elem>) { forall i :: 0 <= i < |es| ==> Regular(es[i]) }

  /** The regex is built when all tokens have been read, so what it refuses comes last. */
  function CompileSig(hexsig: string): (r: Compiled)
  {
    var r := CompileFrom(Strip(hexsig), 0);
    if r.Pattern? && !AllRegular(r.es) then Refused else r
  }

  /** An odd number of hex digits leaves a lone last character, and the compiler raises. */
  lemma {:induction false} OddDigitsRaise(s: string, i: nat)
    requires i <= |s| && (|s| - i) % 2 == 1 && forall n :: i <= n < |s| ==> IsHex(s[n])
    ensures CompileFrom(s, i) == Raises
    decreases |s| - i
  {
    hide ParseGap, ParseRange, ParseBranches;
    assert IsHex(s[i]);
    if i + 1 < |s| { OddDigitsRaise(s, i + 2); }
  }

  method StripBlanks(hexsig: string) returns (s: string)
    ensures s == Strip(hexsig)
  {
    s := [];
    for i := 0 to |hexsig|
      invariant s == Strip(hexsig[..i])
    {
      assert hexsig[..i + 1][..i] == hexsig[..i];
      if hexsig[i] != ' ' { s := s + [hexsig[i]]; }
    }
    assert hexsig[..|hexsig|] == hexsig;
  }

  /** The token loop: it appends one fragment per token. */
  method ReadTokens(s: string) returns (r: Compiled)
    ensures r == CompileFrom(s, 0)
  {
    hide TokenAt;
    var out, i := [], 0;
    while i < |s|
      invariant i <= |s|
      invariant CompileFrom(s, 0) == match CompileFrom(s, i) case Pattern(es) => Pattern(out + es) case other => other
    {
      match TokenAt(s, i)
      case BadTok => return Refused;
      case RaisingTok => return Raises;
      case Tok(e, next) =>
        ghost var rest := CompileFrom(s, next);
        if rest.Pattern? { assert out + ([e] + rest.es) == (out + [e]) + rest.es; }
        out, i := out + [e], next;
    }
    assert out + [] == out;
    return Pattern(out);
  }

  /** The signature compiler: blanks dropped, tokens read, then the regex built. */
  method CompileHexSig(hexsig: string) returns (r: Compiled)
    ensures r == CompileSig(hexsig)
  {
    hide CompileFrom, Strip;
    var s := StripBlanks(hexsig);
    r := ReadTokens(s);
    if r.Pattern? {
      for j := 0 to |r.es|
        invariant r == CompileFrom(s, 0) && forall n :: 0 <= n < j ==> Regular(r.es[n])
      {
        if !Regular(r.es[j]) { return Refused; }
      }
    }
  }

  // ---- the anchor ------------------------------------------------------------------------

  function Longer(a: seq<U8>, b: seq<U8>): (r: seq<U8>) { if |a| > |b| then a else b }

  /** The anchor scanner from i on: the current run, the best run so far; None if an opening
      bracket is never closed. */
  function ScanFrom(s: string, i: nat, cur: seq<U8>, best: seq<U8>): (r: Option<seq<U8>>)
    requires i <= |s|
    decreases |s| - i
  {
    if i == |s| then Some(Longer(cur, best))
    else if IsHex(s[i]) && i + 1 < |s| && IsHex(s[i + 1]) then
      ScanFrom(s, i + 2, cur + [16 * HexVal(s[i]).value + HexVal(s[i + 1]).value], best)
    else if s[i] == '{' || s[i] == '(' || s[i] == '[' then
      var j := IndexOf(s, Closer(s[i]), i);
      if j == |s| then None else ScanFrom(s, j + 1, [], Longer(cur, best))
    else ScanFrom(s, i + 1, [], Longer(cur, best))
  }

  const MIN_ANCHOR := 4

  function AnchorOf(s: string): (r: Option<seq<U8>>)
  {
    var best := ScanFrom(s, 0, [], []);
    if best.Some? && |best.value| >= MIN_ANCHOR then best else None
  }

  /** The anchor extractor; it is only called on signatures that compiled. */
  method LiteralAnchor(hexsig: string) returns (r: Option<seq<U8>>)
    requires ScanFrom(Strip(hexsig), 0, [], []).Some?
    ensures r == AnchorOf(Strip(hexsig))
  {
    var s := StripBlanks(hexsig);
    var best: seq<U8>, cur: seq<U8>, i: nat := [], [], 0;
    while i < |s|
      invariant i <= |s| && ScanFrom(s, i, cur, best) == ScanFrom(s, 0, [], [])
    {
      var c := s[i];
      if IsHex(c) && i + 1 < |s| && IsHex(s[i + 1]) {
        cur, i := cur + [16 * HexVal(c).value + HexVal(s[i + 1]).value], i + 2;
      } else {
        if c == '{' || c == '(' || c == '[' {
          i := IndexOf(s, Closer(c), i) + 1;
        } else {
          i := i + 1;
        }
        best, cur := Longer(cur, best), [];
      }
    }
    best := Longer(cur, best);
    return if |best| >= MIN_ANCHOR then Some(best) else None;
  }

  // ---- the anchor against the pattern --------------------------------------------------------

  /** The longest run of literal bytes among the elements, counting cur as just before them. */
  function BestRun(es: seq<Elem>, cur: seq<U8>, best: seq<U8>): (r: seq<U8>)
  {
    if es == [] then Longer(cur, best)
    else if es[0].Byte? then BestRun(es[1..], cur + [es[0].b], best)
    else BestRun(es[1..], [], Longer(cur, best))
  }

  /** The two scanners stay in step: no low-nibble token is directly followed by a hex digit. */
  predicate Aligned(s: string, i: nat)
    requires i <= |s|
    decreases |s| - i
  {
    if i == |s| then true
    else
      var t := TokenAt(s, i);
      if !t.Tok? then true
      else (t.e.LowNibble? && t.next < |s| ==> !IsHex(s[t.next])) && Aligned(s, t.next)
  }

  /** On aligned signatures the text scanner finds the longest run of the compiled pattern. */
  lemma {:induction false} ScanFindsBestRun(s: string, i: nat, cur: seq<U8>, best: seq<U8>)
    requires i <= |s| && Aligned(s, i) && CompileFrom(s, i).Pattern?
    ensures ScanFrom(s, i, cur, best) == Some(BestRun(CompileFrom(s, i).es, cur, best))
    decreases |s| - i
  {
    if i < |s| {
      hide ParseGap, ParseRange, ParseBranches, BestRun;
      var t := TokenAt(s, i);
      var es := CompileFrom(s, t.next).es;
      BestRunNext(t.e, es, cur, best);
      if t.e.Byte? {
        ByteToken(s, i);
        ScanFindsBestRun(s, t.next, cur + [t.e.b], best);
      } else {
        OtherToken(s, i, cur, best);
        ScanFindsBestRun(s, t.next, [], Longer(cur, best));
      }
    }
  }

  lemma BestRunNext(e: Elem, es: seq<Elem>, cur: seq<U8>, best: seq<U8>)
    ensures BestRun([e] + es, cur, best)
         == if e.Byte? then BestRun(es, cur + [e.b], best) else BestRun(es, [], Longer(cur, best))
  {
    assert ([e] + es)[1..] == es;
  }

  lemma ByteToken(s: string, i: nat)
    requires i < |s| && TokenAt(s, i).Tok? && TokenAt(s, i).e.Byte?
    ensures i + 1 < |s| && IsHex(s[i]) && IsHex(s[i + 1]) && TokenAt(s, i).next == i + 2
    ensures TokenAt(s, i).e.b == 16 * HexVal(s[i]).value + HexVal(s[i + 1]).value
  {
    hide ParseBranches, IndexOf;
  }

  /** Any other token makes the scanner end the current run and go on behind it. */
  lemma OtherToken(s: string, i: nat, cur: seq<U8>, best: seq<U8>)
    requires i < |s| && TokenAt(s, i).Tok? && !TokenAt(s, i).e.Byte?
    requires TokenAt(s, i).e.LowNibble? && TokenAt(s, i).next < |s| ==> !IsHex(s[TokenAt(s, i).next])
    ensures ScanFrom(s, i, cur, best) == ScanFrom(s, TokenAt(s, i).next, [], Longer(cur, best))
  {
    hide ParseGap, ParseRange, ParseBranches, IndexOf;
    var t := TokenAt(s, i);
    if t.next == i + 2 && s[i] != '{' && s[i] != '(' && s[i] != '[' {
      assert ScanFrom(s, i, cur, best) == ScanFrom(s, i + 1, [], Longer(cur, best));
      assert ScanFrom(s, i + 1, [], Longer(cur, best)) == ScanFrom(s, i + 2, [], Longer([], Longer(cur, best)));
    }
  }

  /** a occurs in w at p. */
  predicate OccursAt(a: seq<U8>, w: seq<U8>, p: int) { 0 <= p && p + |a| <= |w| && w[p..p + |a|] == a }

  predicate Occurs(a: seq<U8>, w: seq<U8>) { exists p :: 0 <= p <= |w| && OccursAt(a, w, p) }

  lemma OccursInside(a: seq<U8>, pre: seq<U8>, w: seq<U8>, post: seq<U8>)
    requires Occurs(a, w)
    ensures Occurs(a, pre + w + post)
  {
    var p :| 0 <= p <= |w| && OccursAt(a, w, p);
    assert (pre + w + post)[|pre| + p..|pre| + p + |a|] == w[p..p + |a|];
    assert OccursAt(a, pre + w + post, |pre| + p);
  }

  /** a stands literally among the elements, from i on. */
  predicate LiteralAt(es: seq<Elem>, a: seq<U8>, i: int)
  {
    0 <= i && i + |a| <= |es| && forall n :: 0 <= n < |a| ==> es[i + n] == Byte(a[n])
  }

  predicate LiteralIn(es: seq<Elem>, a: seq<U8>) { exists i :: 0 <= i <= |es| && LiteralAt(es, a, i) }

  lemma FirstSplit(es: seq<Elem>, w: seq<U8>) returns (k: nat)
    requires es != [] && Matches(es, w)
    ensures k <= |w| && ElemMatches(es[0], w[..k]) && Matches(es[1..], w[k..])
    ensures es[0].Byte? ==> k == 1 && w[0] == es[0].b
  {
    k :| 0 <= k <= |w| && ElemMatches(es[0], w[..k]) && Matches(es[1..], w[k..]);
  }

  /** Whatever the pattern matches contains every run of bytes that stands in it literally. */
  lemma {:induction false} LiteralOccurs(es: seq<Elem>, a: seq<U8>, i: nat, w: seq<U8>)
    requires Matches(es, w) && LiteralAt(es, a, i)
    ensures Occurs(a, w)
    decreases i
  {
    hide Matches, ElemMatches, Occurs;
    if i == 0 {
      LiteralPrefix(es, a, w);
    } else {
      var k := FirstSplit(es, w);
      assert LiteralAt(es[1..], a, i - 1);
      LiteralOccurs(es[1..], a, i - 1, w[k..]);
      OccursInside(a, w[..k], w[k..], []);
      assert w[..k] + w[k..] + [] == w;
    }
  }

  lemma {:induction false} LiteralPrefix(es: seq<Elem>, a: seq<U8>, w: seq<U8>)
    requires Matches(es, w) && LiteralAt(es, a, 0)
    ensures Occurs(a, w) && a <= w
    decreases |a|
  {
    hide Matches, ElemMatches;
    if a != [] {
      var k := FirstSplit(es, w);
      assert LiteralAt(es[1..], a[1..], 0);
      LiteralPrefix(es[1..], a[1..], w[1..]);
      assert es[0] == Byte(a[0]);
      assert w == [w[0]] + w[1..] && a == [a[0]] + a[1..];
    }
    assert OccursAt(a, w, 0);
  }

  function Literals(bytes: seq<U8>): (es: seq<Elem>)
    ensures |es| == |bytes| && forall n :: 0 <= n < |bytes| ==> es[n] == Byte(bytes[n])
  {
    seq(|bytes|, n requires 0 <= n < |bytes| => Byte(bytes[n]))
  }

  /** The longest run stands literally in the pattern it was taken from. */
  lemma {:induction false} BestRunIsLiteral(es: seq<Elem>, cur: seq<U8>, best: seq<U8>)
    ensures BestRun(es, cur, best) == best || LiteralIn(Literals(cur) + es, BestRun(es, cur, best))
    ensures |BestRun(es, cur, best)| > |best| || BestRun(es, cur, best) == best
  {
    hide BestRun, Literals, LiteralIn;
    LeadIsLiteral(cur, es);
    if es == [] {
      AtEnd(cur, best);
    } else {
      assert [es[0]] + es[1..] == es;
      BestRunNext(es[0], es[1..], cur, best);
      if es[0].Byte? {
        BestRunIsLiteral(es[1..], cur + [es[0].b], best);
        LiteralsNext(cur, es);
      } else {
        BestRunIsLiteral(es[1..], [], Longer(cur, best));
        LiteralInLater(cur, es, BestRun(es, cur, best));
      }
    }
  }

  lemma LeadIsLiteral(cur: seq<U8>, es: seq<Elem>)
    ensures LiteralIn(Literals(cur) + es, cur)
  {
    assert LiteralAt(Literals(cur) + es, cur, 0);
  }

  lemma LiteralsNext(cur: seq<U8>, es: seq<Elem>)
    requires es != [] && es[0].Byte?
    ensures Literals(cur + [es[0].b]) + es[1..] == Literals(cur) + es
  {
  }

  lemma LiteralInLater(cur: seq<U8>, es: seq<Elem>, r: seq<U8>)
    requires es != []
    ensures LiteralIn(Literals([]) + es[1..], r) ==> LiteralIn(Literals(cur) + es, r)
  {
    assert Literals([]) + es[1..] == es[1..];
    if LiteralIn(es[1..], r) {
      var i :| 0 <= i <= |es[1..]| && LiteralAt(es[1..], r, i);
      hide LiteralAt, LiteralIn;
      LiteralLater(Literals(cur) + [es[0]], es[1..], r, i);
      assert Literals(cur) + [es[0]] + es[1..] == Literals(cur) + es;
    }
  }

  lemma LiteralLater(pre: seq<Elem>, es: seq<Elem>, a: seq<U8>, i: nat)
    requires LiteralAt(es, a, i)
    ensures LiteralIn(pre + es, a)
  {
    forall n | 0 <= n < |a|
      ensures (pre + es)[|pre| + i + n] == Byte(a[n])
    {
      assert (pre + es)[|pre| + (i + n)] == es[i + n];
    }
    assert LiteralAt(pre + es, a, |pre| + i);
  }

  lemma AtEnd(cur: seq<U8>, best: seq<U8>)
    ensures BestRun([], cur, best) == Longer(cur, best)
  {
  }

  /** The signature has no anchor, or one that stands literally in its pattern. */
  predicate Safe(s: string)
  {
    CompileFrom(s, 0).Pattern? && AnchorOf(s).Some? ==> LiteralIn(CompileFrom(s, 0).es, AnchorOf(s).value)
  }

  /** Every aligned signature is safe. */
  lemma AlignedIsSafe(s: string)
    requires Aligned(s, 0)
    ensures Safe(s)
  {
    hide LiteralIn, Aligned;
    if CompileFrom(s, 0).Pattern? && AnchorOf(s).Some? {
      var es := CompileFrom(s, 0).es;
      ScanFindsBestRun(s, 0, [], []);
      BestRunIsLiteral(es, [], []);
      assert Literals([]) + es == es;
    }
  }

  /** The anchor is a necessary condition of a match, for every safe signature that compiles. */
  lemma AnchorIsNecessary(s: string, w: seq<U8>)
    requires CompileFrom(s, 0).Pattern? && Safe(s) && AnchorOf(s).Some?
    requires Matches(CompileFrom(s, 0).es, w)
    ensures Occurs(AnchorOf(s).value, w)
  {
    hide CompileFrom, AnchorOf, Matches, Occurs;
    var es, a := CompileFrom(s, 0).es, AnchorOf(s).value;
    var i :| 0 <= i <= |es| && LiteralAt(es, a, i);
    LiteralOccurs(es, a, i, w);
  }

  // ---- exactly when an anchor is necessary ------------------------------------------------------

  /** The element matches some non-empty string without a byte of a. */
  ghost predicate Dodges(e: Elem, a: seq<U8>)
  {
    exists u :: u != [] && ElemMatches(e, u) && forall x :: x in u ==> x !in a
  }

  /** Each element that is not a literal byte can dodge a. */
  ghost predicate AllDodge(es: seq<Elem>, a: seq<U8>)
  {
    forall i :: 0 <= i < |es| && !es[i].Byte? ==> Dodges(es[i], a)
  }

  ghost function Filling(e: Elem, a: seq<U8>): (u: seq<U8>)
    requires e.Byte? || Dodges(e, a)
    ensures u != [] && ElemMatches(e, u) && (e.Byte? ==> u == [e.b]) && (!e.Byte? ==> forall x :: x in u ==> x !in a)
  {
    if e.Byte? then [e.b]
    else
      var u :| u != [] && ElemMatches(e, u) && forall x :: x in u ==> x !in a;
      u
  }

  /** A string the pattern matches, in which a can only stand where it stands literally. */
  ghost function Filled(es: seq<Elem>, a: seq<U8>): (w: seq<U8>)
    requires AllDodge(es, a)
  {
    if es == [] then [] else Filling(es[0], a) + Filled(es[1..], a)
  }

  lemma {:induction false} FilledMatches(es: seq<Elem>, a: seq<U8>)
    requires AllDodge(es, a)
    ensures Matches(es, Filled(es, a))
  {
    hide ElemMatches, Dodges;
    if es != [] {
      FilledMatches(es[1..], a);
      var u, w := Filling(es[0], a), Filled(es, a);
      assert w[..|u|] == u && w[|u|..] == Filled(es[1..], a);
    }
  }

  lemma FilledHasBytes(es: seq<Elem>, a: seq<U8>)
    requires AllDodge(es, a)
    ensures es != [] ==> Filled(es, a) != []
  {
    hide Dodges;
  }

  lemma {:induction false} FilledPrefix(es: seq<Elem>, a: seq<U8>, b: seq<U8>)
    requires AllDodge(es, a) && b <= Filled(es, a) && forall x :: x in b ==> x in a
    ensures LiteralAt(es, b, 0)
    decreases |b|
  {
    hide ElemMatches, Dodges;
    if b != [] {
      var u, w := Filling(es[0], a), Filled(es, a);
      assert w[0] == u[0] == b[0] && b[0] in b && u[0] in u;
      assert es[0].Byte? && w == [b[0]] + Filled(es[1..], a);
      assert b == [b[0]] + b[1..];
      FilledPrefix(es[1..], a, b[1..]);
      assert forall n :: 1 <= n < |b| ==> es[n] == es[1..][n - 1] && b[n] == b[1..][n - 1];
    }
  }

  lemma {:induction false} FilledOccurs(es: seq<Elem>, a: seq<U8>, p: nat)
    requires AllDodge(es, a) && a != [] && OccursAt(a, Filled(es, a), p)
    ensures LiteralIn(es, a)
  {
    hide ElemMatches, Dodges;
    var u, w := Filling(es[0], a), Filled(es, a);
    if p < |u| {
      assert w[p] == u[p] && w[p..p + |a|][0] == a[0];
      assert u[p] in u && a[0] in a;
      assert es[0].Byte? && p == 0;
      assert a == w[..|a|];
      FilledPrefix(es, a, a);
    } else {
      assert w[|u|..] == Filled(es[1..], a);
      assert w[p..p + |a|] == Filled(es[1..], a)[p - |u|..p - |u| + |a|];
      FilledOccurs(es[1..], a, p - |u|);
      var i :| 0 <= i <= |es[1..]| && LiteralAt(es[1..], a, i);
      LiteralLater([es[0]], es[1..], a, i);
      assert [es[0]] + es[1..] == es;
    }
  }

  /** Where every wildcard can dodge the anchor, the anchor is a necessary condition of a match
      if and only if it stands literally in the pattern. */
  lemma NecessaryIffLiteral(es: seq<Elem>, a: seq<U8>)
    requires a != [] && AllDodge(es, a)
    ensures (forall w :: Matches(es, w) ==> Occurs(a, w)) <==> LiteralIn(es, a)
    ensures es != [] && !LiteralIn(es, a) ==> exists w :: w != [] && Matches(es, w) && !Occurs(a, w)
  {
    hide Matches, ElemMatches, Dodges, AllDodge, LiteralAt;
    if LiteralIn(es, a) {
      var i :| 0 <= i <= |es| && LiteralAt(es, a, i);
      forall w | Matches(es, w)
        ensures Occurs(a, w)
      {
        LiteralOccurs(es, a, i, w);
      }
    }
    FilledMatches(es, a);
    FilledHasBytes(es, a);
    if Occurs(a, Filled(es, a)) {
      var p :| 0 <= p <= |Filled(es, a)| && OccursAt(a, Filled(es, a), p);
      FilledOccurs(es, a, p);
    }
  }

  /** The number of literal bytes at the front of a pattern. */
  function Lead(es: seq<Elem>): (n: nat)
  {
    if es == [] || !es[0].Byte? then 0 else 1 + Lead(es[1..])
  }

  /** No run of literal bytes anywhere in the pattern is longer than the one chosen. */
  lemma {:induction false} BestRunIsLongest(es: seq<Elem>, cur: seq<U8>, best: seq<U8>, i: nat)
    requires i <= |es|
    ensures |BestRun(es, cur, best)| >= |best| && |BestRun(es, cur, best)| >= |cur| + Lead(es)
    ensures Lead(es[i..]) <= |BestRun(es, cur, best)|
  {
    if es != [] {
      if es[0].Byte? {
        BestRunIsLongest(es[1..], cur + [es[0].b], best, if i == 0 then 0 else i - 1);
      } else {
        BestRunIsLongest(es[1..], [], Longer(cur, best), if i == 0 then 0 else i - 1);
      }
      if i > 0 { assert es[i..] == es[1..][i - 1..]; } else { assert es[i..] == es; }
    }
  }

  /** A low-nibble token before hex digits puts the scanner out of step: it reads its bytes
      across token boundaries, and the pattern matches data without the anchor. */
  lemma LowNibbleBreaksAnchor()
    ensures var s, w := "?a4b4c4d4e", [0x0A, 0x4B, 0x4C, 0x4D, 0x4E];
            && CompileFrom(s, 0).Pattern? && !Aligned(s, 0) && !Safe(s)
            && AnchorOf(s) == Some([0xA4, 0xB4, 0xC4, 0xD4])
            && Matches(CompileFrom(s, 0).es, w) && !Occurs([0xA4, 0xB4, 0xC4, 0xD4], w)
  {
    hide Occurs, Aligned, Matches, CompileFrom, AnchorOf, Safe;
    CounterPattern();
    PairsBehindWildcard("?a4b4c4d4e");
    CounterMisaligned();
    SingleBytesMatch([LowNibble(0xA), Byte(0x4B), Byte(0x4C), Byte(0x4D), Byte(0x4E)], [0x0A, 0x4B, 0x4C, 0x4D, 0x4E]);
    CounterAbsent();
    if Safe("?a4b4c4d4e") { AnchorIsNecessary("?a4b4c4d4e", [0x0A, 0x4B, 0x4C, 0x4D, 0x4E]); }
  }

  /** The byte spelled by the digits at i and i+1. */
  function HexByte(s: string, i: nat): (b: U8)
    requires i + 1 < |s| && IsHex(s[i]) && IsHex(s[i + 1])
  {
    16 * HexVal(s[i]).value + HexVal(s[i + 1]).value
  }

  /** Behind a leading '?' the scanner pairs up the digits from the second character on. */
  lemma PairsBehindWildcard(s: string)
    requires |s| == 10 && s[0] == '?' && forall i :: 1 <= i < 10 ==> IsHex(s[i])
    ensures AnchorOf(s) == Some([HexByte(s, 1), HexByte(s, 3), HexByte(s, 5), HexByte(s, 7)])
  {
    hide ScanFrom, HexVal, IsHex;
    var a, b, c, d := HexByte(s, 1), HexByte(s, 3), HexByte(s, 5), HexByte(s, 7);
    SkipWildcard(s, 0);
    LastCharIgnored(s, [a, b, c, d]);
    ScanByte(s, 1, [], []);
    ScanByte(s, 3, [a], []);
    ScanByte(s, 5, [a, b], []);
    ScanByte(s, 7, [a, b, c], []);
    assert [] + [a] == [a] && [a] + [b] == [a, b] && [a, b] + [c] == [a, b, c] && [a, b, c] + [d] == [a, b, c, d];
  }

  lemma CounterMisaligned()
    ensures !Aligned("?a4b4c4d4e", 0)
  {
    assert TokenAt("?a4b4c4d4e", 0) == Tok(LowNibble(0xA), 2);
  }

  lemma SkipWildcard(s: string, i: nat)
    requires i < |s| && s[i] == '?'
    ensures ScanFrom(s, i, [], []) == ScanFrom(s, i + 1, [], [])
  {
  }

  lemma LastCharIgnored(s: string, cur: seq<U8>)
    requires s != [] && IsHex(s[|s| - 1]) && cur != []
    ensures ScanFrom(s, |s| - 1, cur, []) == Some(cur)
  {
    assert ScanFrom(s, |s|, [], Longer(cur, [])) == Some(cur);
  }

  lemma CounterAbsent()
    ensures !Occurs([0xA4, 0xB4, 0xC4, 0xD4], [0x0A, 0x4B, 0x4C, 0x4D, 0x4E])
  {
    var a: seq<U8>, w: seq<U8> := [0xA4, 0xB4, 0xC4, 0xD4], [0x0A, 0x4B, 0x4C, 0x4D, 0x4E];
    forall p | 0 <= p <= 1
      ensures !OccursAt(a, w, p)
    {
      assert w[p..p + 4][0] == w[p];
    }
  }

  lemma ScanByte(s: string, i: nat, cur: seq<U8>, best: seq<U8>)
    requires i + 1 < |s| && IsHex(s[i]) && IsHex(s[i + 1])
    ensures ScanFrom(s, i, cur, best) == ScanFrom(s, i + 2, cur + [HexByte(s, i)], best)
  {
  }

  lemma CounterPattern()
    ensures CompileFrom("?a4b4c4d4e", 0)
         == Pattern([LowNibble(0xA), Byte(0x4B), Byte(0x4C), Byte(0x4D), Byte(0x4E)])
  {
    var s := "?a4b4c4d4e";
    assert CompileFrom(s, 10) == Pattern([]);
    assert CompileFrom(s, 8) == Pattern([Byte(0x4E)]);
    assert CompileFrom(s, 6) == Pattern([Byte(0x4D), Byte(0x4E)]);
    assert CompileFrom(s, 4) == Pattern([Byte(0x4C), Byte(0x4D), Byte(0x4E)]);
    assert CompileFrom(s, 2) == Pattern([Byte(0x4B), Byte(0x4C), Byte(0x4D), Byte(0x4E)]);
  }

  lemma {:induction false} SingleBytesMatch(es: seq<Elem>, w: seq<U8>)
    requires BranchMatches(es, w) && forall e :: e in es ==> !e.Gap? && !e.Alt?
    ensures Matches(es, w)
  {
    if es != [] {
      SingleBytesMatch(es[1..], w[1..]);
      assert ElemMatches(es[0], w[..1]);
    }
  }

  /** Whatever compiles has its brackets closed, so the scanner gets to the end, even out of
      step: between brackets it is at a token or at the second character of a pair. */
  lemma {:induction false} CompiledIsClosed(s: string, i: nat, cur: seq<U8>, best: seq<U8>)
    requires i <= |s| && CompileFrom(s, i).Pattern?
    ensures ScanFrom(s, i, cur, best).Some?
    decreases |s| - i
  {
    hide ParseGap, ParseRange, ParseBranches;
    if i < |s| {
      var t := TokenAt(s, i);
      if s[i] == '*' || s[i] == '{' || s[i] == '(' || s[i] == '[' {
        CompiledIsClosed(s, t.next, [], Longer(cur, best));
      } else if IsHex(s[i]) && IsHex(s[i + 1]) {
        CompiledIsClosed(s, i + 2, cur + [16 * HexVal(s[i]).value + HexVal(s[i + 1]).value], best);
      } else {
        MidPairIsClosed(s, i, [], Longer(cur, best));
      }
    }
  }

  lemma {:induction false} MidPairIsClosed(s: string, i: nat, cur: seq<U8>, best: seq<U8>)
    requires i + 1 < |s| && CompileFrom(s, i).Pattern?
    requires s[i] != '*' && s[i] != '{' && s[i] != '(' && s[i] != '['
    ensures ScanFrom(s, i + 1, cur, best).Some?
    decreases |s| - i - 1
  {
    hide ParseGap, ParseRange, ParseBranches;
    assert IsHex(s[i + 1]) || s[i + 1] == '?';
    if IsHex(s[i + 1]) && i + 2 < |s| && IsHex(s[i + 2]) {
      MidPairIsClosed(s, i + 2, cur + [16 * HexVal(s[i + 1]).value + HexVal(s[i + 2]).value], best);
    } else {
      CompiledIsClosed(s, i + 2, [], Longer(cur, best));
    }
  }
}
