/** The staged application of a configuration generation, and the checkpoint that may
    only follow all of its stages. */
module ApplyCycle {
  import opened Words

  datatype Stage = Validation | Interfaces | System | Security | Checkpoint | Unknown

  const STAGES := [Validation, Interfaces, System, Security, Checkpoint]

  datatype Mark = Applying | Verified | Failed | Incomplete

  /** Where a cycle stands, and what the checkpoint file holds. */
  datatype Cycle = Cycle(position: int, steps: seq<(Stage, Mark)>, saved: Option<seq<U8>>)

  /** A call with what the cycle reads during it: the running file, whether an error has been
      recorded, and for a checkpoint the running file again just before the replacement. */
  datatype Call =
    | Advance(name: Stage, file: seq<U8>, failed: bool)
    | Save(file: seq<U8>, failed: bool, again: seq<U8>)
    | Finish(failed: bool)

  function Name(c: Call): (s: Stage)
    requires !c.Finish?
  {
    if c.Advance? then c.name else Checkpoint
  }

  /** The call moves the cycle to its next stage. */
  predicate Enters(y: Cycle, snapshot: seq<U8>, c: Call)
  {
    && !c.Finish? && 0 <= y.position + 1 < |STAGES| && STAGES[y.position + 1] == Name(c)
    && c.file == snapshot && !c.failed
  }

  /** The call replaces the checkpoint file. */
  predicate Replaces(y: Cycle, snapshot: seq<U8>, c: Call)
  {
    c.Save? && Enters(y, snapshot, c) && c.again == snapshot
  }

  function Marked(steps: seq<(Stage, Mark)>, m: Mark): (r: seq<(Stage, Mark)>)
  {
    if steps == [] then [] else steps[|steps| - 1 := (steps[|steps| - 1].0, m)]
  }

  function Step(y: Cycle, snapshot: seq<U8>, c: Call): (r: Cycle)
  {
    if c.Finish? then
      y.(steps := Marked(y.steps, if c.failed then Failed else if y.position == |STAGES| - 1 then Verified else Incomplete))
    else if Enters(y, snapshot, c) then
      Cycle(y.position + 1, Marked(y.steps, Verified) + [(Name(c), Applying)], if Replaces(y, snapshot, c) then Some(snapshot) else y.saved)
    else y
  }

  // ---- the cycle object ---------------------------------------------------------------------

  class Applier {
    const snapshot: seq<U8>
    const generation: seq<U8>
    var position: int
    var steps: seq<(Stage, Mark)>
    var saved: Option<seq<U8>>

    /** Takes the running file as the generation to be applied. */
    constructor (running: seq<U8>, digest: seq<U8> -> seq<U8>, saved: Option<seq<U8>>)
      ensures snapshot == running && generation == digest(running)
      ensures View() == Cycle(-1, [], saved)
    {
      snapshot, generation := running, digest(running);
      position, steps, this.saved := -1, [], saved;
    }

    function View(): (y: Cycle)
      reads this
    {
      Cycle(position, steps, saved)
    }

    /** False stands for the exception raised. */
    method AdvanceTo(name: Stage, file: seq<U8>, failed: bool) returns (ok: bool)
      requires -1 <= position < |STAGES|
      modifies this
      ensures ok == Enters(old(View()), snapshot, Advance(name, file, failed))
      ensures View() == Step(old(View()), snapshot, Advance(name, file, failed))
    {
      if position + 1 >= |STAGES| || STAGES[position + 1] != name { return false; }
      if file != snapshot { return false; }
      if failed { return false; }
      if steps != [] { steps := steps[|steps| - 1 := (steps[|steps| - 1].0, Verified)]; }
      position := position + 1;
      steps := steps + [(name, Applying)];
      return true;
    }

    /** Enters the last stage, writes the snapshot aside, looks at the running file again and
        only then replaces the checkpoint. */
    method SaveCheckpoint(file: seq<U8>, failed: bool, again: seq<U8>) returns (ok: bool)
      requires -1 <= position < |STAGES|
      modifies this
      ensures ok == Replaces(old(View()), snapshot, Save(file, failed, again))
      ensures View() == Step(old(View()), snapshot, Save(file, failed, again))
    {
      ok := AdvanceTo(Checkpoint, file, failed);
      if !ok { return; }
      var temp := snapshot;
      if again != snapshot { return false; }
      saved := Some(temp);
    }

    method FinishCycle(failed: bool)
      modifies this
      ensures View() == Step(old(View()), snapshot, Finish(failed))
    {
      if steps != [] {
        var m := if failed then Failed else if position == |STAGES| - 1 then Verified else Incomplete;
        steps := steps[|steps| - 1 := (steps[|steps| - 1].0, m)];
      }
    }
  }

  // ---- whole runs ------------------------------------------------------------------------------

  ghost function Run(y: Cycle, snapshot: seq<U8>, calls: seq<Call>): (r: Cycle)
  {
    if calls == [] then y else Step(Run(y, snapshot, calls[..|calls| - 1]), snapshot, calls[|calls| - 1])
  }

  ghost predicate ReplacedAt(y: Cycle, snapshot: seq<U8>, calls: seq<Call>, k: nat)
    requires k < |calls|
  {
    Replaces(Run(y, snapshot, calls[..k]), snapshot, calls[k])
  }

  ghost predicate Replaced(y: Cycle, snapshot: seq<U8>, calls: seq<Call>)
  {
    exists k :: 0 <= k < |calls| && ReplacedAt(y, snapshot, calls, k)
  }

  /** The calls that entered a stage, in order. */
  ghost function Entries(y: Cycle, snapshot: seq<U8>, calls: seq<Call>): (ks: seq<nat>)
  {
    if calls == [] then []
    else
      var n := |calls| - 1;
      Entries(y, snapshot, calls[..n]) + (if Enters(Run(y, snapshot, calls[..n]), snapshot, calls[n]) then [n] else [])
  }

  /** Call k found the running file equal to the snapshot and no error, and named stage i. */
  ghost predicate EnteredStage(calls: seq<Call>, snapshot: seq<U8>, k: nat, i: nat)
  {
    k < |calls| && i < |STAGES| && !calls[k].Finish? && Name(calls[k]) == STAGES[i] && calls[k].file == snapshot && !calls[k].failed
  }

  /** The cycle has entered exactly the stages up to its position, each once and in order. */
  lemma {:induction false} EntriesInOrder(y: Cycle, snapshot: seq<U8>, calls: seq<Call>)
    requires y.position == -1
    ensures var ks := Entries(y, snapshot, calls);
            && |ks| == Run(y, snapshot, calls).position + 1 <= |STAGES|
            && (forall i :: 0 <= i < |ks| ==> EnteredStage(calls, snapshot, ks[i], i))
            && (forall i, j :: 0 <= i < j < |ks| ==> ks[i] < ks[j])
  {
    hide Step, EnteredStage, Enters, Name;
    if calls != [] {
      var n := |calls| - 1;
      var z := Run(y, snapshot, calls[..n]);
      EntriesInOrder(y, snapshot, calls[..n]);
      EnteredPrefix(calls, snapshot, n);
      EnterNext(z, snapshot, calls);
      var ks := Entries(y, snapshot, calls[..n]);
      assert forall i :: 0 <= i < |ks| ==> EnteredStage(calls[..n], snapshot, ks[i], i) && ks[i] < n;
    }
  }

  lemma EnterNext(z: Cycle, snapshot: seq<U8>, calls: seq<Call>)
    requires calls != [] && z.position >= -1
    ensures var n := |calls| - 1; var r := Step(z, snapshot, calls[n]);
            if Enters(z, snapshot, calls[n])
            then EnteredStage(calls, snapshot, n, z.position + 1) && r.position == z.position + 1 < |STAGES|
            else r.position == z.position
  {
  }

  lemma EnteredPrefix(calls: seq<Call>, snapshot: seq<U8>, n: nat)
    requires n <= |calls|
    ensures forall k: nat, i: nat :: EnteredStage(calls[..n], snapshot, k, i) ==> EnteredStage(calls, snapshot, k, i) && k < n
  {
  }

  /** The checkpoint is replaced only by a call that completes five stages entered in order by
      earlier calls, each with the running file equal to the snapshot and no error recorded; it
      then holds exactly the snapshot. */
  lemma ReplacedMeansAllStages(y: Cycle, snapshot: seq<U8>, calls: seq<Call>, k: nat)
    requires y.position == -1 && k < |calls| && ReplacedAt(y, snapshot, calls, k)
    ensures Run(y, snapshot, calls[..k + 1]).saved == Some(snapshot) && calls[k].again == snapshot
    ensures exists ks: seq<nat> ::
              && |ks| == |STAGES| && ks[|STAGES| - 1] == k
              && (forall i :: 0 <= i < |STAGES| ==> EnteredStage(calls, snapshot, ks[i], i))
              && (forall i, j :: 0 <= i < j < |STAGES| ==> ks[i] < ks[j])
  {
    var upTo := calls[..k + 1];
    assert upTo[..k] == calls[..k];
    var ks := Entries(y, snapshot, upTo);
    EntriesInOrder(y, snapshot, upTo);
    assert ks[|ks| - 1] == k;
    assert EnteredStage(upTo, snapshot, k, |ks| - 1);
    EnteredPrefix(calls, snapshot, k + 1);
  }

  /** The checkpoint file changes in no other way, and at most once in a cycle. */
  lemma {:induction false} SavedIff(y: Cycle, snapshot: seq<U8>, calls: seq<Call>)
    requires y.position == -1
    ensures Run(y, snapshot, calls).saved ==
            if Replaced(y, snapshot, calls) then Some(snapshot) else y.saved
    ensures forall j, k :: 0 <= j < k < |calls| ==> !(ReplacedAt(y, snapshot, calls, j) && ReplacedAt(y, snapshot, calls, k))
  {
    if calls != [] {
      var n := |calls| - 1;
      SavedIff(y, snapshot, calls[..n]);
      PrefixReplaced(y, snapshot, calls);
      forall j | 0 <= j < n && ReplacedAt(y, snapshot, calls, j)
        ensures !ReplacedAt(y, snapshot, calls, n)
      {
        LastStageIsLast(y, snapshot, calls[..n], j);
      }
    }
  }

  lemma PrefixReplaced(y: Cycle, snapshot: seq<U8>, calls: seq<Call>)
    requires calls != []
    ensures forall k :: 0 <= k < |calls| - 1 ==>
              (ReplacedAt(y, snapshot, calls[..|calls| - 1], k) <==> ReplacedAt(y, snapshot, calls, k))
    ensures Replaced(y, snapshot, calls) <==>
            Replaced(y, snapshot, calls[..|calls| - 1]) || ReplacedAt(y, snapshot, calls, |calls| - 1)
  {
    hide Replaces, Run;
    var n := |calls| - 1;
    forall k | 0 <= k < n
      ensures ReplacedAt(y, snapshot, calls[..n], k) <==> ReplacedAt(y, snapshot, calls, k)
    {
      assert calls[..n][..k] == calls[..k];
    }
    hide ReplacedAt;
    if Replaced(y, snapshot, calls) {
      var k :| 0 <= k < |calls| && ReplacedAt(y, snapshot, calls, k);
      assert k < n ==> ReplacedAt(y, snapshot, calls[..n], k);
    }
    if Replaced(y, snapshot, calls[..n]) {
      var k :| 0 <= k < n && ReplacedAt(y, snapshot, calls[..n], k);
      assert ReplacedAt(y, snapshot, calls, k);
    }
  }

  /** Once the last stage has been entered the position stays there. */
  lemma {:induction false} LastStageIsLast(y: Cycle, snapshot: seq<U8>, calls: seq<Call>, j: nat)
    requires y.position == -1 && j < |calls| && ReplacedAt(y, snapshot, calls, j)
    ensures Run(y, snapshot, calls).position == |STAGES| - 1
  {
    hide EnteredStage;
    var n := |calls| - 1;
    EntriesInOrder(y, snapshot, calls[..n]);
    if j < n {
      PrefixReplaced(y, snapshot, calls);
      LastStageIsLast(y, snapshot, calls[..n], j);
    }
  }

  /** To a caller that swallows the exception of a checkpoint call, a finished cycle calls its last
      stage verified although the checkpoint was not replaced: the running file changed between
      the two looks of the call. */
  lemma VerifiedWithoutCheckpoint(y: Cycle, snapshot: seq<U8>, other: seq<U8>)
    requires y == Cycle(-1, [], None) && other != snapshot
    ensures var calls := [Advance(Validation, snapshot, false), Advance(Interfaces, snapshot, false), Advance(System, snapshot, false),
                          Advance(Security, snapshot, false), Save(snapshot, false, other), Finish(false)];
            var r := Run(y, snapshot, calls);
            r.saved == None && r.steps != [] && r.steps[|r.steps| - 1] == (Checkpoint, Verified)
  {
    var c1 := [Advance(Validation, snapshot, false)];
    var c2 := c1 + [Advance(Interfaces, snapshot, false)];
    var c3 := c2 + [Advance(System, snapshot, false)];
    var c4 := c3 + [Advance(Security, snapshot, false)];
    var c5 := c4 + [Save(snapshot, false, other)];
    var c6 := c5 + [Finish(false)];
    assert c6 == [Advance(Validation, snapshot, false), Advance(Interfaces, snapshot, false), Advance(System, snapshot, false),
                  Advance(Security, snapshot, false), Save(snapshot, false, other), Finish(false)];
    assert c6[..5] == c5 && c5[..4] == c4 && c4[..3] == c3 && c3[..2] == c2 && c2[..1] == c1 && c1[..0] == [];
    assert Run(y, snapshot, c1) == Cycle(0, [(Validation, Applying)], None);
    assert Run(y, snapshot, c2) == Cycle(1, [(Validation, Verified), (Interfaces, Applying)], None);
    assert Run(y, snapshot, c3).position == 2;
    assert Run(y, snapshot, c4).position == 3;
    assert Run(y, snapshot, c5).position == 4 && Run(y, snapshot, c5).saved == None;
  }

  /** Exactly then: a finished cycle without errors marks the last stage verified when all five
      were entered, and the checkpoint stands behind it if and only if the fifth was entered by a
      checkpoint call that found the running file unchanged at its second look. */
  lemma VerifiedMeansSavedIff(y: Cycle, snapshot: seq<U8>, calls: seq<Call>)
    requires y == Cycle(-1, [], y.saved)
    ensures var r := Run(y, snapshot, calls); var ks := Entries(y, snapshot, calls); var f := Step(r, snapshot, Finish(false));
            && |f.steps| == |ks|
            && (ks != [] && f.steps[|ks| - 1].1 == Verified <==> |ks| == |STAGES|)
            && (|ks| == |STAGES| ==>
                  (Replaced(y, snapshot, calls) <==> ks[4] < |calls| && calls[ks[4]].Save? && calls[ks[4]].again == snapshot))
  {
    EntriesInOrder(y, snapshot, calls);
    StepsCount(y, snapshot, calls);
    FifthEntry(y, snapshot, calls);
  }

  /** The call raises. */
  predicate Raises(y: Cycle, snapshot: seq<U8>, c: Call)
  {
    (c.Advance? && !Enters(y, snapshot, c)) || (c.Save? && !Replaces(y, snapshot, c))
  }

  /** A caller that records every exception as an error before it goes on, and enters the last
      stage only through the checkpoint call. */
  ghost predicate Careful(y: Cycle, snapshot: seq<U8>, calls: seq<Call>)
  {
    && (forall j, k :: 0 <= j < k < |calls| && Raises(Run(y, snapshot, calls[..j]), snapshot, calls[j]) ==> calls[k].failed)
    && (forall j :: 0 <= j < |calls| ==> !(calls[j].Advance? && calls[j].name == Checkpoint))
  }

  /** Such a caller can trust the mark: the last stage entered ends verified if and only if the
      checkpoint was replaced and no error is on record. */
  lemma CarefulMarkIff(y: Cycle, snapshot: seq<U8>, calls: seq<Call>, failed: bool)
    requires y == Cycle(-1, [], y.saved) && Careful(y, snapshot, calls + [Finish(failed)])
    ensures var f := Step(Run(y, snapshot, calls), snapshot, Finish(failed));
            f.steps != [] && f.steps[|f.steps| - 1].1 == Verified <==> Replaced(y, snapshot, calls) && !failed
  {
    hide Run, Entries;
    var ks := Entries(y, snapshot, calls);
    var all := calls + [Finish(failed)];
    EntriesInOrder(y, snapshot, calls);
    StepsCount(y, snapshot, calls);
    FifthEntry(y, snapshot, calls);
    if |ks| == |STAGES| {
      var k := ks[4];
      assert EnteredStage(calls, snapshot, k, 4);
      assert all[..k] == calls[..k] && all[k] == calls[k] && all[|calls|] == Finish(failed);
      assert calls[k].Save?;
      if calls[k].again != snapshot { assert Raises(Run(y, snapshot, all[..k]), snapshot, all[k]); }
    }
  }

  lemma {:induction false} StepsCount(y: Cycle, snapshot: seq<U8>, calls: seq<Call>)
    requires y == Cycle(-1, [], y.saved)
    ensures |Run(y, snapshot, calls).steps| == |Entries(y, snapshot, calls)|
  {
    if calls != [] { StepsCount(y, snapshot, calls[..|calls| - 1]); }
  }

  lemma {:induction false} FifthEntry(y: Cycle, snapshot: seq<U8>, calls: seq<Call>)
    requires y.position == -1
    ensures var ks := Entries(y, snapshot, calls);
            Replaced(y, snapshot, calls)
            <==> |ks| == |STAGES| && ks[4] < |calls| && calls[ks[4]].Save? && calls[ks[4]].again == snapshot
  {
    if calls != [] {
      var n := |calls| - 1;
      var ks := Entries(y, snapshot, calls[..n]);
      FifthEntry(y, snapshot, calls[..n]);
      EntriesInOrder(y, snapshot, calls[..n]);
      PrefixReplaced(y, snapshot, calls);
      assert ReplacedAt(y, snapshot, calls, n) <==> Replaces(Run(y, snapshot, calls[..n]), snapshot, calls[n]);
      if |ks| == |STAGES| { assert EnteredStage(calls[..n], snapshot, ks[4], 4); }
    }
  }
}
