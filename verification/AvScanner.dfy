/** The anti-virus body scanner: the signature indexes and the anchor pre-filter, which must
    lose nothing. */
module AvScanner {
  import opened Words
  import opened AntiVirus
  import opened SignatureText

  // ---- the scanner ---------------------------------------------------------------------------

  /** Where a signature may match: anywhere, from a distance before the end, or at an
      absolute offset. */
  datatype Offset = Anywhere | FromEnd(n: int) | AtOffset(n: int)

  datatype Sig = Sig(id: int, text: string, offset: Offset, target: Option<string>)

  datatype Pat = Pat(id: int, es: seq<Elem>, offset: Offset, target: Option<string>)

  function Clamp(n: int, len: nat): (p: nat)
    ensures p <= len
  {
    if n < 0 then 0 else if n > len then len else n
  }

  /** Some stretch of data starting at p matches. */
  predicate MatchAt(es: seq<Elem>, data: seq<U8>, p: nat)
    requires p <= |data|
  {
    exists q :: p <= q <= |data| && Matches(es, data[p..q])
  }

  predicate OffsetMatch(es: seq<Elem>, data: seq<U8>, offset: Offset)
  {
    match offset
    case AtOffset(n) => MatchAt(es, data, Clamp(n, |data|))
    case Anywhere => exists p :: 0 <= p <= |data| && MatchAt(es, data, p)
    case FromEnd(n) => exists p :: Clamp(|data| - n - 256, |data|) <= p <= |data| && MatchAt(es, data, p)
  }

  predicate TargetOk(target: Option<string>, fileType: Option<string>)
  {
    target.None? || fileType.None? || target == fileType
  }

  predicate PatMatches(p: Pat, data: seq<U8>, fileType: Option<string>)
  {
    TargetOk(p.target, fileType) && OffsetMatch(p.es, data, p.offset)
  }

  /** The signature flags the data, with no pre-filter in the way. */
  ghost predicate Flags(s: Sig, data: seq<U8>, fileType: Option<string>)
  {
    && CompileSig(s.text).Pattern?
    && PatMatches(Pat(s.id, CompileSig(s.text).es, s.offset, s.target), data, fileType)
  }

  lemma MatchedWhere(es: seq<Elem>, data: seq<U8>, offset: Offset) returns (p: nat, q: nat)
    requires OffsetMatch(es, data, offset)
    ensures p <= q <= |data| && Matches(es, data[p..q])
  {
    match offset
    case AtOffset(n) =>
      p := Clamp(n, |data|);
      q := MatchedTo(es, data, p);
    case Anywhere =>
      p :| p <= |data| && MatchAt(es, data, p);
      q := MatchedTo(es, data, p);
    case FromEnd(n) =>
      p :| p <= |data| && MatchAt(es, data, p);
      q := MatchedTo(es, data, p);
  }

  lemma MatchedTo(es: seq<Elem>, data: seq<U8>, p: nat) returns (q: nat)
    requires p <= |data| && MatchAt(es, data, p)
    ensures p <= q <= |data| && Matches(es, data[p..q])
  {
    q :| p <= q <= |data| && Matches(es, data[p..q]);
  }

  /** A match anywhere in the data puts the anchor somewhere in the data. */
  lemma FlaggedHasAnchor(s: Sig, data: seq<U8>, fileType: Option<string>)
    requires Flags(s, data, fileType) && Safe(Strip(s.text)) && AnchorOf(Strip(s.text)).Some?
    ensures Occurs(AnchorOf(Strip(s.text)).value, data)
  {
    hide Occurs, Safe, AnchorOf, CompileFrom, Strip;
    var p, q := MatchedWhere(CompileSig(s.text).es, data, s.offset);
    AnchorIsNecessary(Strip(s.text), data[p..q]);
    OccursInside(AnchorOf(Strip(s.text)).value, data[..p], data[p..q], data[q..]);
    assert data[..p] + data[p..q] + data[q..] == data;
  }

  function PatOf(s: Sig): (p: Pat)
    requires CompileSig(s.text).Pattern?
  {
    Pat(s.id, CompileSig(s.text).es, s.offset, s.target)
  }

  predicate HasAnchor(s: Sig) { CompileSig(s.text).Pattern? && AnchorOf(Strip(s.text)).Some? }

  predicate LacksAnchor(s: Sig) { CompileSig(s.text).Pattern? && AnchorOf(Strip(s.text)).None? }

  /** The patterns given to the automaton, with their anchors, in database order. */
  function AnchoredPats(sigs: seq<Sig>): (ps: seq<(seq<U8>, Pat)>)
  {
    if sigs == [] then []
    else
      var front, s := AnchoredPats(sigs[..|sigs| - 1]), sigs[|sigs| - 1];
      if HasAnchor(s) then front + [(AnchorOf(Strip(s.text)).value, PatOf(s))] else front
  }

  /** The patterns that are always candidates. */
  function UnanchoredPats(sigs: seq<Sig>): (ps: seq<Pat>)
  {
    if sigs == [] then []
    else
      var front, s := UnanchoredPats(sigs[..|sigs| - 1]), sigs[|sigs| - 1];
      if LacksAnchor(s) then front + [PatOf(s)] else front
  }

  predicate UnanchoredHit(ps: seq<Pat>, data: seq<U8>, fileType: Option<string>)
  {
    exists j :: 0 <= j < |ps| && PatMatches(ps[j], data, fileType)
  }

  /** The automaton reports the anchor and the full match confirms it. */
  predicate Confirmed(e: (seq<U8>, Pat), data: seq<U8>, fileType: Option<string>)
  {
    Occurs(e.0, data) && PatMatches(e.1, data, fileType)
  }

  predicate AnchoredHit(ps: seq<(seq<U8>, Pat)>, data: seq<U8>, fileType: Option<string>)
  {
    exists j :: 0 <= j < |ps| && Confirmed(ps[j], data, fileType)
  }

  ghost predicate AnyFlags(sigs: seq<Sig>, data: seq<U8>, fileType: Option<string>)
  {
    exists i :: 0 <= i < |sigs| && Flags(sigs[i], data, fileType)
  }

  /** Filtering by anchors flags nothing new, and loses nothing when every signature is safe. */
  lemma {:induction false} PrefilterLosesNothing(sigs: seq<Sig>, data: seq<U8>, fileType: Option<string>)
    ensures UnanchoredHit(UnanchoredPats(sigs), data, fileType) || AnchoredHit(AnchoredPats(sigs), data, fileType)
            ==> AnyFlags(sigs, data, fileType)
    ensures AnyFlags(sigs, data, fileType) && (forall i :: 0 <= i < |sigs| ==> Safe(Strip(sigs[i].text)))
            ==> UnanchoredHit(UnanchoredPats(sigs), data, fileType) || AnchoredHit(AnchoredPats(sigs), data, fileType)
  {
    hide CompileSig, AnchorOf, Occurs, PatMatches, Safe, UnanchoredHit, AnchoredHit, AnyFlags;
    NoHits(data, fileType);
    if sigs != [] {
      var n := |sigs| - 1;
      var front, s := sigs[..n], sigs[n];
      PrefilterLosesNothing(front, data, fileType);
      assert sigs == front + [s];
      AnyFlagsNext(front, s, data, fileType);
      if LacksAnchor(s) { UnanchoredNext(UnanchoredPats(front), PatOf(s), data, fileType); }
      if HasAnchor(s) {
        AnchoredNext(AnchoredPats(front), (AnchorOf(Strip(s.text)).value, PatOf(s)), data, fileType);
        if Flags(s, data, fileType) && Safe(Strip(s.text)) { FlaggedHasAnchor(s, data, fileType); }
      }
    }
  }

  lemma NoHits(data: seq<U8>, fileType: Option<string>)
    ensures !UnanchoredHit([], data, fileType) && !AnchoredHit([], data, fileType) && !AnyFlags([], data, fileType)
  {
  }

  lemma UnanchoredNext(ps: seq<Pat>, p: Pat, data: seq<U8>, fileType: Option<string>)
    ensures UnanchoredHit(ps + [p], data, fileType) <==> UnanchoredHit(ps, data, fileType) || PatMatches(p, data, fileType)
  {
    hide PatMatches;
    assert (ps + [p])[|ps|] == p && forall j :: 0 <= j < |ps| ==> (ps + [p])[j] == ps[j];
  }

  lemma AnchoredNext(ps: seq<(seq<U8>, Pat)>, e: (seq<U8>, Pat), data: seq<U8>, fileType: Option<string>)
    ensures AnchoredHit(ps + [e], data, fileType) <==> AnchoredHit(ps, data, fileType) || Confirmed(e, data, fileType)
  {
    hide Confirmed;
    assert (ps + [e])[|ps|] == e && forall j :: 0 <= j < |ps| ==> (ps + [e])[j] == ps[j];
  }

  lemma AnyFlagsNext(sigs: seq<Sig>, s: Sig, data: seq<U8>, fileType: Option<string>)
    ensures AnyFlags(sigs + [s], data, fileType) <==> AnyFlags(sigs, data, fileType) || Flags(s, data, fileType)
  {
    hide Flags;
    assert (sigs + [s])[|sigs|] == s && forall j :: 0 <= j < |sigs| ==> (sigs + [s])[j] == sigs[j];
  }

  // ---- exactly when the filter loses nothing -------------------------------------------------

  /** What the body stage answers for a database that compiled. */
  ghost predicate Scanned(sigs: seq<Sig>, data: seq<U8>, fileType: Option<string>)
  {
    data != [] && (UnanchoredHit(UnanchoredPats(sigs), data, fileType) || AnchoredHit(AnchoredPats(sigs), data, fileType))
  }

  /** A signature with an anchor whose wildcards can all avoid the anchor's bytes. */
  ghost predicate Dodging(s: Sig)
  {
    HasAnchor(s) && AllDodge(CompileSig(s.text).es, AnchorOf(Strip(s.text)).value)
  }

  lemma OneSignature(s: Sig, data: seq<U8>, fileType: Option<string>)
    requires HasAnchor(s)
    ensures Scanned([s], data, fileType) <==> data != [] && Confirmed((AnchorOf(Strip(s.text)).value, PatOf(s)), data, fileType)
    ensures AnyFlags([s], data, fileType) <==> Flags(s, data, fileType)
  {
    hide CompileSig, AnchorOf, Strip, Occurs, PatMatches, UnanchoredHit, AnchoredHit, AnyFlags, Flags;
    assert [s][..0] == [] && [] + [s] == [s];
    var e := (AnchorOf(Strip(s.text)).value, PatOf(s));
    assert AnchoredPats([]) == [] && UnanchoredPats([]) == [];
    assert AnchoredPats([s]) == [] + [e] && UnanchoredPats([s]) == [];
    NoHits(data, fileType);
    AnchoredNext([], e, data, fileType);
    AnyFlagsNext([], s, data, fileType);
  }

  /** The scanner of one signature, to be found anywhere in a file, finds every file the signature
      flags if and only if its anchor stands literally in its pattern. */
  lemma FilterExactIff(s: Sig)
    requires Dodging(s) && s.offset.Anywhere?
    ensures (forall data, fileType :: data != [] && AnyFlags([s], data, fileType) ==> Scanned([s], data, fileType))
            <==> Safe(Strip(s.text))
  {
    hide Scanned, AnyFlags, Occurs, Safe, AllDodge, AnchorOf, CompileFrom, Strip;
    var es, a := CompileSig(s.text).es, AnchorOf(Strip(s.text)).value;
    if Safe(Strip(s.text)) {
      forall data, fileType | data != [] && AnyFlags([s], data, fileType)
        ensures Scanned([s], data, fileType)
      {
        OneSignature(s, data, fileType);
        FlaggedHasAnchor(s, data, fileType);
      }
    } else {
      var w := LostFile(s, es, a);
      OneSignature(s, w, None);
      MatchesWhole(es, w);
      assert Flags(s, w, None);
    }
  }

  lemma MatchesWhole(es: seq<Elem>, w: seq<U8>)
    requires Matches(es, w)
    ensures OffsetMatch(es, w, Anywhere)
  {
    hide Matches;
    assert w[0..|w|] == w;
    assert MatchAt(es, w, 0);
  }

  lemma LostFile(s: Sig, es: seq<Elem>, a: seq<U8>) returns (w: seq<U8>)
    requires Dodging(s) && es == CompileSig(s.text).es && a == AnchorOf(Strip(s.text)).value && !Safe(Strip(s.text))
    ensures w != [] && Matches(es, w) && !Occurs(a, w)
  {
    hide AllDodge, Occurs, Matches, Strip, LiteralIn;
    AnchorHasBytes(Strip(s.text));
    NecessaryIffLiteral(es, a);
    SomeElement(Strip(s.text));
    w :| w != [] && Matches(es, w) && !Occurs(a, w);
  }

  lemma SomeElement(s: string)
    requires CompileFrom(s, 0).Pattern? && AnchorOf(s).Some?
    ensures CompileFrom(s, 0).es != []
  {
  }

  lemma AnchorHasBytes(s: string)
    requires AnchorOf(s).Some?
    ensures |AnchorOf(s).value| >= 4
  {
    hide ScanFrom;
  }

  /** The low-nibble signature loses a file: its pattern matches, and the scanner calls it clean. */
  lemma LowNibbleLosesFile(id: int, target: Option<string>)
    ensures var s, w := Sig(id, "?a4b4c4d4e", Anywhere, target), [0x0A, 0x4B, 0x4C, 0x4D, 0x4E];
            CompilesQuietly(s) && AnyFlags([s], w, None) && !Scanned([s], w, None)
  {
    hide Occurs, Aligned, Matches, AnchorOf, Safe, Scanned, AnyFlags, CompileSig, CompileFrom, Strip, OffsetMatch;
    var s, w := Sig(id, "?a4b4c4d4e", Anywhere, target), [0x0A, 0x4B, 0x4C, 0x4D, 0x4E];
    LowNibbleBreaksAnchor();
    LowNibbleCompiles();
    MatchesWhole(CompileSig(s.text).es, w);
    OneSignature(s, w, None);
  }

  lemma LowNibbleCompiles()
    ensures Strip("?a4b4c4d4e") == "?a4b4c4d4e" && CompileSig("?a4b4c4d4e") == CompileFrom("?a4b4c4d4e", 0)
  {
    hide CompileFrom, Strip;
    NoBlanks("?a4b4c4d4e");
    CounterPattern();
  }

  lemma {:induction false} NoBlanks(t: string)
    requires ' ' !in t
    ensures Strip(t) == t
  {
    if t != [] {
      NoBlanks(t[..|t| - 1]);
      assert t[|t| - 1] in t;
    }
  }

  // ---- what a flagged file holds ---------------------------------------------------------------

  /** Where a match may start: anywhere, at the given offset brought into the file, or within the
      given distance and 256 more bytes of its end. */
  predicate MayStart(offset: Offset, p: int, len: nat)
  {
    && 0 <= p <= len
    && (offset.AtOffset? ==> p == if offset.n < 0 then 0 else if offset.n > len then len else offset.n)
    && (offset.FromEnd? ==> len - p <= offset.n + 256 || (offset.n + 256 < 0 && p == len))
  }

  /** A signature flags a file exactly when its text compiles, the file's type does not speak
      against its target, and some stretch of the file that starts where its offset allows is
      denoted by its text. */
  lemma FlagsMeans(s: Sig, data: seq<U8>, fileType: Option<string>)
    ensures Flags(s, data, fileType) <==>
            && TextOrdered(Strip(s.text), 0)
            && (s.target.None? || fileType.None? || s.target == fileType)
            && exists p, q :: MayStart(s.offset, p, |data|) && p <= q <= |data| && TextDenotes(Strip(s.text), 0, data[p..q])
  {
    hide Strip, TextDenotes, TextOrdered, Matches, CompileSig;
    SignatureMeans(s.text, []);
    if CompileSig(s.text).Pattern? {
      var es := CompileSig(s.text).es;
      forall p, q | 0 <= p <= q <= |data|
        ensures Matches(es, data[p..q]) <==> TextDenotes(Strip(s.text), 0, data[p..q])
      {
        SignatureMeans(s.text, data[p..q]);
      }
      StartsMean(es, data, s.offset);
    }
  }

  lemma StartsMean(es: seq<Elem>, data: seq<U8>, offset: Offset)
    ensures OffsetMatch(es, data, offset) <==>
            exists p, q :: MayStart(offset, p, |data|) && p <= q <= |data| && Matches(es, data[p..q])
  {
    hide Matches;
    if OffsetMatch(es, data, offset) {
      var p, q := StartOf(es, data, offset);
      assert MayStart(offset, p, |data|) && Matches(es, data[p..q]);
    }
    if p, q :| MayStart(offset, p, |data|) && p <= q <= |data| && Matches(es, data[p..q]) {
      assert MatchAt(es, data, p);
    }
  }

  lemma StartOf(es: seq<Elem>, data: seq<U8>, offset: Offset) returns (p: nat, q: nat)
    requires OffsetMatch(es, data, offset)
    ensures MayStart(offset, p, |data|) && p <= q <= |data| && Matches(es, data[p..q])
  {
    hide Matches;
    match offset
    case AtOffset(n) =>
      p := Clamp(n, |data|);
      q := MatchedTo(es, data, p);
    case Anywhere =>
      p :| p <= |data| && MatchAt(es, data, p);
      q := MatchedTo(es, data, p);
    case FromEnd(n) =>
      p :| Clamp(|data| - n - 256, |data|) <= p <= |data| && MatchAt(es, data, p);
      q := MatchedTo(es, data, p);
  }

  // ---- the indexes ---------------------------------------------------------------------------

  /** Signature ids are the database's primary key. */
  ghost predicate DistinctIds(sigs: seq<Sig>)
  {
    forall i, j :: 0 <= i < j < |sigs| ==> sigs[i].id != sigs[j].id
  }

  /** The anchors given to the automaton, each with its signature's id. */
  function Anchors(ps: seq<(seq<U8>, Pat)>): (r: seq<(seq<U8>, int)>)
  {
    seq(|ps|, j requires 0 <= j < |ps| => (ps[j].0, ps[j].1.id))
  }

  /** The patterns by id. */
  function ById(ps: seq<(seq<U8>, Pat)>): (m: map<int, Pat>)
  {
    if ps == [] then map[] else ById(ps[..|ps| - 1])[ps[|ps| - 1].1.id := ps[|ps| - 1].1]
  }

  /** The automaton reports an anchor whose pattern is indexed and confirms it. */
  predicate Reported(a: (seq<U8>, int), byId: map<int, Pat>, data: seq<U8>, fileType: Option<string>)
  {
    Occurs(a.0, data) && a.1 in byId && PatMatches(byId[a.1], data, fileType)
  }

  lemma {:induction false} AnchoredIds(sigs: seq<Sig>, j: nat)
    requires j < |AnchoredPats(sigs)|
    ensures exists i :: 0 <= i < |sigs| && sigs[i].id == AnchoredPats(sigs)[j].1.id
  {
    hide CompileSig, AnchorOf;
    var n := |sigs| - 1;
    if j < |AnchoredPats(sigs[..n])| {
      AnchoredIds(sigs[..n], j);
      var i :| 0 <= i < |sigs[..n]| && sigs[..n][i].id == AnchoredPats(sigs[..n])[j].1.id;
      assert sigs[i].id == AnchoredPats(sigs)[j].1.id;
    } else {
      assert sigs[n].id == AnchoredPats(sigs)[j].1.id;
    }
  }

  /** With distinct ids the index finds each anchored pattern under its own id. */
  lemma {:induction false} FoundById(sigs: seq<Sig>, j: nat)
    requires DistinctIds(sigs) && j < |AnchoredPats(sigs)|
    ensures var ps := AnchoredPats(sigs); ps[j].1.id in ById(ps) && ById(ps)[ps[j].1.id] == ps[j].1
  {
    hide CompileSig, AnchorOf;
    var n := |sigs| - 1;
    var ps, front := AnchoredPats(sigs), AnchoredPats(sigs[..n]);
    if ps == front {
      FoundById(sigs[..n], j);
    } else {
      assert ps[..|ps| - 1] == front;
      if j < |front| {
        FoundById(sigs[..n], j);
        AnchoredIds(sigs[..n], j);
        var i :| 0 <= i < |sigs[..n]| && sigs[..n][i].id == front[j].1.id;
        assert sigs[i].id != sigs[n].id;
      }
    }
  }

  /** Reported anchors are exactly the confirmed anchored patterns. */
  lemma ReportedIff(sigs: seq<Sig>, data: seq<U8>, fileType: Option<string>)
    requires DistinctIds(sigs)
    ensures var ps := AnchoredPats(sigs);
            (exists j :: 0 <= j < |ps| && Reported(Anchors(ps)[j], ById(ps), data, fileType)) <==> AnchoredHit(ps, data, fileType)
  {
    hide Occurs, PatMatches, AnchoredPats, ById;
    var ps := AnchoredPats(sigs);
    forall j | 0 <= j < |ps|
      ensures Reported(Anchors(ps)[j], ById(ps), data, fileType) <==> Confirmed(ps[j], data, fileType)
    {
      FoundById(sigs, j);
    }
    if AnchoredHit(ps, data, fileType) {
      var j :| 0 <= j < |ps| && Confirmed(ps[j], data, fileType);
      assert Reported(Anchors(ps)[j], ById(ps), data, fileType);
    }
  }

  predicate CompilesQuietly(s: Sig) { !CompileSig(s.text).Raises? }

  /** The first signature whose text raises is number k. */
  ghost predicate FirstRaising(db: seq<Sig>, k: nat)
  {
    k < |db| && !CompilesQuietly(db[k]) && forall j :: 0 <= j < k ==> CompilesQuietly(db[j])
  }

  class Scanner {
    var automaton: seq<(seq<U8>, int)>
    var byId: map<int, Pat>
    var unanchored: seq<Pat>
    ghost var sigs: seq<Sig>

    /** The indexes hold exactly the signatures that compile, by whether they have an anchor. */
    ghost predicate Valid()
      reads this
    {
      && DistinctIds(sigs) && unanchored == UnanchoredPats(sigs)
      && automaton == Anchors(AnchoredPats(sigs)) && byId == ById(AnchoredPats(sigs))
    }

    /** Rebuilds the indexes from the signature database. It fails exactly when some text ends in a
        lone character, whose exception nothing catches; then the pattern indexes hold just the
        signatures before the first such text, while the automaton is still the old one. */
    method Compile(db: seq<Sig>) returns (ok: bool)
      requires DistinctIds(db)
      modifies this
      ensures ok <==> forall i :: 0 <= i < |db| ==> CompilesQuietly(db[i])
      ensures ok ==> Valid() && sigs == db
      ensures !ok ==> exists k: nat :: FirstRaising(db, k) && unanchored == UnanchoredPats(db[..k])
                                  && byId == ById(AnchoredPats(db[..k])) && automaton == old(automaton)
    {
      hide CompileSig, AnchorOf, ScanFrom, Strip, ById, Anchors;
      byId, unanchored := map[], [];
      var anchors := [];
      NoneIndexed();
      for i := 0 to |db|
        invariant unanchored == UnanchoredPats(db[..i]) && byId == ById(AnchoredPats(db[..i]))
        invariant anchors == Anchors(AnchoredPats(db[..i])) && automaton == old(automaton)
        invariant forall j :: 0 <= j < i ==> CompilesQuietly(db[j])
      {
        var s := db[i];
        assert db[..i + 1][..i] == db[..i];
        var rx := CompileHexSig(s.text);
        if rx.Raises? {
          assert FirstRaising(db, i);
          return false;
        }
        if rx.Pattern? {
          CompiledScans(s.text);
          var a := LiteralAnchor(s.text);
          var p := Pat(s.id, rx.es, s.offset, s.target);
          if a.Some? {
            IndexNext(AnchoredPats(db[..i]), a.value, p);
            anchors, byId := anchors + [(a.value, s.id)], byId[s.id := p];
          } else {
            unanchored := unanchored + [p];
          }
        }
      }
      assert db[..|db|] == db;
      automaton, sigs := anchors, db;
      return true;
    }

    /** The body stage of a file scan: candidates are the unanchored patterns and those whose
        anchor the automaton reports, each confirmed by a full match; an empty file is clean. Between a good compile and the
        next a reported hit is real, and when all signatures are safe nothing is lost to the
        pre-filter. */
    method ScanBody(data: seq<U8>, fileType: Option<string>) returns (flagged: bool)
      ensures flagged <==> data != [] && (UnanchoredHit(unanchored, data, fileType)
                           || exists j :: 0 <= j < |automaton| && Reported(automaton[j], byId, data, fileType))
      ensures Valid() ==> (flagged <==> Scanned(sigs, data, fileType))
      ensures Valid() && flagged ==> AnyFlags(sigs, data, fileType)
      ensures Valid() && (forall i :: 0 <= i < |sigs| ==> Safe(Strip(sigs[i].text))) ==>
                (flagged <==> data != [] && AnyFlags(sigs, data, fileType))
    {
      if data == [] { return false; }
      hide Occurs, PatMatches, Safe, AnyFlags, Strip, AnchoredPats, UnanchoredPats, ById, CompileSig, AnchorOf;
      PrefilterLosesNothing(sigs, data, fileType);
      if Valid() { ReportedIff(sigs, data, fileType); }
      for j := 0 to |unanchored|
        invariant forall k :: 0 <= k < j ==> !PatMatches(unanchored[k], data, fileType)
      {
        if PatMatches(unanchored[j], data, fileType) { return true; }
      }
      for j := 0 to |automaton|
        invariant forall k :: 0 <= k < j ==> !Reported(automaton[k], byId, data, fileType)
      {
        if Reported(automaton[j], byId, data, fileType) { return true; }
      }
      return false;
    }
  }

  lemma NoneIndexed()
    ensures Anchors([]) == [] && ById([]) == map[]
  {
  }

  lemma IndexNext(ps: seq<(seq<U8>, Pat)>, a: seq<U8>, p: Pat)
    ensures Anchors(ps + [(a, p)]) == Anchors(ps) + [(a, p.id)]
    ensures ById(ps + [(a, p)]) == ById(ps)[p.id := p]
  {
    assert (ps + [(a, p)])[..|ps|] == ps;
  }

  lemma CompiledScans(text: string)
    requires CompileSig(text).Pattern?
    ensures ScanFrom(Strip(text), 0, [], []).Some?
  {
    hide ScanFrom, CompileFrom;
    CompiledIsClosed(Strip(text), 0, [], []);
  }
}
