/** Whole runs of updates against the shared model memory: what the active bank holds,
    how its arena fills, how stamps mark a dirty bank, and what readers may rely on. */
module UpdateRuns {
  import opened Words
  import opened Banks
  import opened DpMem
  import opened ModelUpdates
  import Policy

  // ---- the last accepted update ----------------------------------------------------------

  ghost predicate AcceptedAt(s: Sys, size: nat, us: seq<Update>, k: nat)
    requires s.active < 2 && k < |us|
  {
    Verdict(Run(s, size, us[..k]).rec.used, size, us[k]) == OK
  }

  predicate SameKind(u: Update, v: Update)
  {
    || (u.MlModel? && v.MlModel?) || (u.ThreatIntel? && v.ThreatIntel?)
    || (u.PolicyRows? && v.PolicyRows?) || (u.SignatureVerdict? && v.SignatureVerdict?)
  }

  /** The record holds what the update carries. */
  ghost predicate Shows(rec: Record, u: Update)
  {
    match u
    case MlModel(version, kind, features, tree, ngram) => rec.ml == Ml(version, features, kind, tree, ngram)
    case ThreatIntel(seqno, adds, _, iocs) => rec.intel == Intel(seqno, SigColumns(adds), IocColumns(iocs))
    case PolicyRows(vsys, rows) => (forall r :: r in rows ==> GoodRow(r)) && rec.policy == CompileRows(rows, vsys)
    case SignatureVerdict(sid, sha, verdict, ts) => rec.hot == Hot(sid, verdict, Digest(sha), ts)
    case Unusable(_) => false
  }

  lemma StepShows(s: Sys, size: nat, u: Update, v: Update)
    requires s.active < 2
    ensures Verdict(s.rec.used, size, v) == OK ==> Shows(Step(s, size, v).rec, v)
    ensures Shows(s.rec, u) && !(Verdict(s.rec.used, size, v) == OK && SameKind(u, v)) ==> Shows(Step(s, size, v).rec, u)
  {
  }

  /** After any run the active bank shows the last accepted update of each kind: the policy rows
      compiled from the last accepted policy, the blobs of the last accepted model, the columns
      of the last accepted intelligence, the last verdict. */
  lemma {:induction false} LastAcceptedShows(s: Sys, size: nat, us: seq<Update>, k: nat)
    requires s.active < 2 && k < |us| && AcceptedAt(s, size, us, k)
    requires forall j :: k < j < |us| && AcceptedAt(s, size, us, j) ==> !SameKind(us[k], us[j])
    ensures Shows(Run(s, size, us).rec, us[k])
  {
    hide Shows, Step, Verdict;
    var n := |us| - 1;
    StepShows(Run(s, size, us[..n]), size, us[k], us[n]);
    if k < n {
      var before := us[..n];
      forall j | k <= j < n
        ensures AcceptedAt(s, size, before, j) <==> AcceptedAt(s, size, us, j)
      {
        assert before[..j] == us[..j];
      }
      LastAcceptedShows(s, size, before, k);
      assert AcceptedAt(s, size, us, n) ==> !SameKind(us[k], us[n]);
    }
  }

  /** What no accepted update touched is as it was; the slot directory never changes. */
  lemma {:induction false} UntouchedParts(s: Sys, size: nat, us: seq<Update>)
    requires s.active < 2
    ensures var r := Run(s, size, us).rec;
            && r.models == s.rec.models && r.count == s.rec.count
            && ((forall j :: 0 <= j < |us| && us[j].MlModel? ==> !AcceptedAt(s, size, us, j)) ==> r.ml == s.rec.ml)
            && ((forall j :: 0 <= j < |us| && us[j].ThreatIntel? ==> !AcceptedAt(s, size, us, j)) ==> r.intel == s.rec.intel)
            && ((forall j :: 0 <= j < |us| && us[j].PolicyRows? ==> !AcceptedAt(s, size, us, j)) ==> r.policy == s.rec.policy)
            && ((forall j :: 0 <= j < |us| && us[j].SignatureVerdict? ==> !AcceptedAt(s, size, us, j)) ==> r.hot == s.rec.hot)
  {
    hide Verdict;
    if us != [] {
      var n := |us| - 1;
      var before := us[..n];
      UntouchedParts(s, size, before);
      forall j | 0 <= j < n
        ensures AcceptedAt(s, size, before, j) <==> AcceptedAt(s, size, us, j)
      {
        assert before[..j] == us[..j];
      }
      assert AcceptedAt(s, size, us, n) <==> Verdict(Run(s, size, before).rec.used, size, us[n]) == OK;
      StepParts(Run(s, size, before), size, us[n]);
      hide Step, AcceptedAt;
    }
  }

  lemma StepParts(s: Sys, size: nat, u: Update)
    requires s.active < 2
    ensures var r, ok := Step(s, size, u).rec, Verdict(s.rec.used, size, u) == OK;
            && r.models == s.rec.models && r.count == s.rec.count
            && ((u.MlModel? && ok) || r.ml == s.rec.ml) && ((u.ThreatIntel? && ok) || r.intel == s.rec.intel)
            && ((u.PolicyRows? && ok) || r.policy == s.rec.policy) && ((u.SignatureVerdict? && ok) || r.hot == s.rec.hot)
  {
  }

  // ---- the arena only fills -----------------------------------------------------------------

  lemma BumpGrows(used: nat, n: nat)
    ensures Bump(used, n) >= used && (n > 0 ==> Bump(used, n) > AlignUp(used))
  {
  }

  lemma BumpMonotone(a: nat, b: nat, n: nat)
    requires a <= b
    ensures Bump(a, n) <= Bump(b, n)
  {
    AlignMonotone(a, b);
  }

  lemma AlignMonotone(a: nat, b: nat)
    requires a <= b
    ensures AlignUp(a) <= AlignUp(b)
  {
  }

  lemma DemandMonotone(a: nat, b: nat, u: Update)
    requires a <= b
    ensures Demand(a, u) <= Demand(b, u)
  {
    hide AlignUp, Bump;
    match u
    case MlModel(_, _, _, tree, ngram) =>
      BumpMonotone(a, b, |tree|);
      BumpMonotone(Bump(a, |tree|), Bump(b, |tree|), |ngram|);
    case ThreatIntel(_, adds, removes, iocs) =>
      BumpMonotone(a, b, SIG_SIZE * |adds|);
      var a1, b1 := Bump(a, SIG_SIZE * |adds|), Bump(b, SIG_SIZE * |adds|);
      BumpMonotone(a1, b1, IOC_SIZE * |iocs|);
      BumpMonotone(Bump(a1, IOC_SIZE * |iocs|), Bump(b1, IOC_SIZE * |iocs|), 4 * |removes|);
    case PolicyRows(_, rows) => BumpMonotone(a, b, Policy.ROW_SIZE * |rows|);
    case _ =>
  }

  /** The update brings bytes of its own. */
  predicate Carries(u: Update)
  {
    match u
    case MlModel(_, _, _, tree, ngram) => tree != [] || ngram != []
    case ThreatIntel(_, adds, removes, iocs) => adds != [] || removes != [] || iocs != []
    case PolicyRows(_, rows) => rows != []
    case _ => false
  }

  lemma DemandGrows(used: nat, u: Update)
    ensures Demand(used, u) >= used && (Carries(u) ==> Demand(used, u) > AlignUp(used))
  {
    hide AlignUp, Bump;
    match u
    case MlModel(_, _, _, tree, ngram) => BumpTwice(used, |tree|, |ngram|);
    case ThreatIntel(_, adds, removes, iocs) =>
      BumpTwice(used, SIG_SIZE * |adds|, IOC_SIZE * |iocs|);
      var b := Bump(Bump(used, SIG_SIZE * |adds|), IOC_SIZE * |iocs|);
      BumpGrows(b, 4 * |removes|);
      AlignMonotone(used, b);
    case PolicyRows(_, rows) => BumpGrows(used, Policy.ROW_SIZE * |rows|);
    case _ =>
  }

  lemma BumpTwice(used: nat, n: nat, m: nat)
    ensures Bump(Bump(used, n), m) >= used && (n > 0 || m > 0 ==> Bump(Bump(used, n), m) > AlignUp(used))
  {
    hide AlignUp, Bump;
    BumpGrows(used, n);
    BumpGrows(Bump(used, n), m);
    AlignMonotone(used, Bump(used, n));
  }

  lemma {:induction false} RowsInternedGrows(used: nat, size: nat, rows: seq<seq<Option<seq<U8>>>>)
    ensures used <= InternedRows(used, size, rows) && (used <= size ==> InternedRows(used, size, rows) <= size)
  {
    if rows != [] {
      var before := rows[..|rows| - 1];
      RowsInternedGrows(used, size, before);
      InternedGrows(InternedRows(used, size, before), size, rows[|rows| - 1]);
    }
  }

  /** One update never lowers the cursor, never takes it past the end, and raises it into a
      fresh cache line when it brings bytes and is accepted. */
  lemma StepFills(s: Sys, size: nat, u: Update)
    requires s.active < 2
    ensures var a, b := s.rec.used, Step(s, size, u).rec.used;
            && a <= b && (a <= size ==> b <= size)
            && (Carries(u) && Verdict(a, size, u) == OK ==> b > AlignUp(a))
  {
    hide AlignUp, Bump, InternedRows, Demand;
    DemandGrows(s.rec.used, u);
    if u.ThreatIntel? {
      var d := Demand(s.rec.used, u);
      RowsInternedGrows(d, size, SigTableStrings(u.adds));
      RowsInternedGrows(InternedRows(d, size, SigTableStrings(u.adds)), size, IocTableStrings(u.iocs));
    }
  }

  lemma {:induction false} RunFills(s: Sys, size: nat, us: seq<Update>, k: nat)
    requires s.active < 2 && k <= |us|
    ensures Run(s, size, us[..k]).rec.used <= Run(s, size, us).rec.used
    ensures s.rec.used <= size ==> Run(s, size, us).rec.used <= size
  {
    hide Step;
    if us != [] {
      var n := |us| - 1;
      StepFills(Run(s, size, us[..n]), size, us[n]);
      RunFills(s, size, us[..n], if k < n then k else n);
      if k <= n { assert us[..n][..k] == us[..k]; } else { assert us[..k] == us; }
    }
  }

  /** Nothing is ever freed: an update refused for want of space at one point of a run is
      refused for the same reason at every later point. */
  lemma RefusalIsPermanent(s: Sys, size: nat, us: seq<Update>, k: nat, u: Update)
    requires s.active < 2 && k <= |us| && Verdict(Run(s, size, us[..k]).rec.used, size, u) == ENOMEM
    ensures Verdict(Run(s, size, us).rec.used, size, u) == ENOMEM
  {
    hide Demand;
    RunFills(s, size, us, k);
    DemandMonotone(Run(s, size, us[..k]).rec.used, Run(s, size, us).rec.used, u);
  }

  ghost function AcceptedLoads(s: Sys, size: nat, us: seq<Update>): (n: nat)
    requires s.active < 2
  {
    if us == [] then 0
    else
      var before, u := us[..|us| - 1], us[|us| - 1];
      AcceptedLoads(s, size, before)
      + (if Carries(u) && Verdict(Run(s, size, before).rec.used, size, u) == OK then 1 else 0)
  }

  /** Each accepted update that brings bytes costs a cache line for good, so a region accepts at
      most one for each line its arena has left. */
  lemma {:induction false} AcceptedLoadsBounded(s: Sys, size: nat, us: seq<Update>)
    requires s.active < 2 && s.rec.used <= size
    ensures AlignUp(s.rec.used) + ALIGN * AcceptedLoads(s, size, us) <= AlignUp(Run(s, size, us).rec.used) <= AlignUp(size)
  {
    hide Step, Verdict, AlignUp;
    RunFills(s, size, us, 0);
    AlignMonotone(Run(s, size, us).rec.used, size);
    if us != [] {
      var before, u := us[..|us| - 1], us[|us| - 1];
      AcceptedLoadsBounded(s, size, before);
      StepFills(Run(s, size, before), size, u);
      NextLine(Run(s, size, before).rec.used, Run(s, size, us).rec.used);
    }
  }

  lemma NextLine(a: nat, b: nat)
    requires a <= b
    ensures AlignUp(a) <= AlignUp(b) && (b > AlignUp(a) ==> AlignUp(b) >= AlignUp(a) + ALIGN)
  {
  }

  // ---- stamps -------------------------------------------------------------------------------

  /** Staged updates refused since the last publication. */
  ghost function RefusedSince(s: Sys, size: nat, us: seq<Update>): (n: nat)
    requires s.active < 2
  {
    if us == [] then 0
    else
      var before, u := us[..|us| - 1], us[|us| - 1];
      if !IsStaged(u) then RefusedSince(s, size, before)
      else if Verdict(Run(s, size, before).rec.used, size, u) == OK then 0
      else RefusedSince(s, size, before) + 1
  }

  /** Staged updates accepted, each of which published a bank. */
  ghost function Publications(s: Sys, size: nat, us: seq<Update>): (n: nat)
    requires s.active < 2
  {
    if us == [] then 0
    else
      var before, u := us[..|us| - 1], us[|us| - 1];
      Publications(s, size, before) + (if IsStaged(u) && Verdict(Run(s, size, before).rec.used, size, u) == OK then 1 else 0)
  }

  /** The stamp the inactive bank had when the last publication left it inactive: a bank that was
      never published keeps the stamp it started with, a published one an even stamp. */
  function Inherited(s: Sys, publications: nat): (stamp: U32)
    requires s.active < 2
  {
    if publications == 0 then s.Stamp(1 - s.active) else if publications == 1 then s.Stamp(s.active) else 0
  }

  /** From any starting stamps: the active bank's stamp is even once something was published,
      and the other's parity counts the updates refused since. */
  lemma {:induction false} StampParity(s: Sys, size: nat, us: seq<Update>)
    requires s.active < 2
    ensures var r, n := Run(s, size, us), Publications(s, size, us);
            && r.Stamp(r.active) % 2 == (if n == 0 then s.Stamp(s.active) % 2 else 0)
            && r.Stamp(1 - r.active) % 2 == (Inherited(s, n) + RefusedSince(s, size, us)) % 2
  {
    hide Step, Verdict;
    if us != [] {
      var before, u := us[..|us| - 1], us[|us| - 1];
      var x := Run(s, size, before);
      StampParity(s, size, before);
      NextStamp(x, size, u);
      SameParity(x.Stamp(1 - x.active), Inherited(s, Publications(s, size, before)) + RefusedSince(s, size, before));
    }
  }

  lemma SameParity(a: int, b: int)
    ensures a % 2 == b % 2 ==> (a + 1) % 2 == (b + 1) % 2
  {
  }

  lemma NextStamp(s: Sys, size: nat, u: Update)
    requires s.active < 2
    ensures var r := Step(s, size, u);
            if !IsStaged(u) then r.active == s.active && r.stamps == s.stamps
            else if Verdict(s.rec.used, size, u) == OK then
              r.active == 1 - s.active && r.Stamp(r.active) % 2 == 0 && r.Stamp(s.active) == s.Stamp(s.active)
            else
              r.active == s.active && r.Stamp(s.active) == s.Stamp(s.active) && r.Stamp(1 - s.active) % 2 == (s.Stamp(1 - s.active) + 1) % 2
  {
    hide Verdict, Patched;
  }

  /** While an update writes the inactive bank, its stamp is odd, the mark of a dirty bank,
      exactly when the stamp it inherited and the updates refused since are even together. */
  lemma DirtyMarkedIff(s: Sys, size: nat, us: seq<Update>)
    requires s.active < 2
    ensures var r := Run(s, size, us);
            Wrap32(r.Stamp(1 - r.active) + 1) % 2 == 1
            <==> (Inherited(s, Publications(s, size, us)) + RefusedSince(s, size, us)) % 2 == 0
  {
    hide RefusedSince, Publications, Inherited, Run;
    StampParity(s, size, us);
  }

  /** On a region seeded after a reset, whose first bank starts active under stamp 1: its readers
      see an odd stamp until the first publication; the update after that publication writes
      unmarked; and from the second publication on a bank is marked exactly when an even number of
      updates have been refused since the last. */
  lemma SeededMarks(s: Sys, size: nat, us: seq<Update>)
    requires s.active == 0 && s.stamps == (1, 0)
    ensures var r, n := Run(s, size, us), Publications(s, size, us);
            && (r.Stamp(r.active) % 2 == 0 <==> n > 0)
            && (Wrap32(r.Stamp(1 - r.active) + 1) % 2 == 1 <==> (n == 1) == (RefusedSince(s, size, us) % 2 == 1))
  {
    hide RefusedSince, Publications, Run;
    StampParity(s, size, us);
    DirtyMarkedIff(s, size, us);
  }

  /** A run that shows it: from even stamps, one refused update leaves the next one to write its
      bank under an even stamp. */
  lemma UnmarkedAfterRefusal(s: Sys, size: nat)
    requires s.active < 2 && s.stamps == (0, 0) && s.rec.used <= size
    ensures var bad := PolicyRows(0, [WireRow(0, 0, Overlong, 0, AnyAddress, 0, 0)]);
            var r := Run(s, size, [bad]);
            && Verdict(s.rec.used, size, bad) != OK && RefusedSince(s, size, [bad]) == 1
            && Wrap32(r.Stamp(1 - r.active) + 1) % 2 == 0
  {
    var row := WireRow(0, 0, Overlong, 0, AnyAddress, 0, 0);
    var bad := PolicyRows(0, [row]);
    assert [bad][..0] == [] && row in bad.rows && !GoodRow(row);
    DirtyMarkedIff(s, size, [bad]);
  }

  // ---- readers ---------------------------------------------------------------------------------

  /** The next update starts from what this one left. */
  lemma {:induction false} AcrossFrames(frames: seq<seq<Moment>>, k: nat, l: nat, j: nat, b: nat)
    requires Chained(frames) && k <= l < |frames| && j < |frames[l]|
    requires forall f :: k <= f <= l ==> Turn(frames[f]) && frames[f][0].active == b
    ensures frames[l][j].Of(b) == frames[k][0].Of(b)
    decreases l - k
  {
    if k < l { AcrossFrames(frames, k, l - 1, |frames[l - 1]| - 1, b); }
  }

  /** A reader that took bank b as the active one at moment i of update k sees it unchanged at
      every later moment, up to the first update that starts after b has been replaced. */
  lemma ReaderStable(frames: seq<seq<Moment>>, k: nat, i: nat, l: nat, j: nat)
    requires Chained(frames) && k <= l < |frames| && i < |frames[k]| && j < |frames[l]| && (k == l ==> i <= j)
    requires forall f :: k < f <= l ==> Turn(frames[f]) && frames[f][0].active == frames[k][i].active
    ensures frames[l][j].Of(frames[k][i].active) == frames[k][i].Of(frames[k][i].active)
  {
    var b := frames[k][i].active;
    if k < l { AcrossFrames(frames, k + 1, l, j, b); }
    assert Turn(frames[k]);
    if frames[k][0].active != b { assert i == |frames[k]| - 1; }
  }
}
