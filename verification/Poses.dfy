/** The pose guidance of live enrolment: a machine fed with previews, each of them ok or not. */
module Poses {

  const POSES: nat := 3
  const REQUIRED: nat := 2

  datatype Machine = Machine(poseIndex: nat, consecutiveOk: nat, completedCount: nat)

  /** A preview counts as ok only if a face was detected and no reason to refuse it is left. */
  datatype Preview = Preview(detected: bool, reasons: seq<string>)

  predicate DecideOk(p: Preview) {
    p.detected && p.reasons == []
  }

  function Initial(): Machine {
    Machine(0, 0, 0)
  }

  predicate PoseDone(m: Machine) {
    m.completedCount >= POSES
  }

  function Advance(m: Machine, ok: bool): Machine {
    if PoseDone(m) then m
    else if !ok then
      if m.consecutiveOk == 0 then m else m.(consecutiveOk := 0)
    else if m.consecutiveOk + 1 < REQUIRED then m.(consecutiveOk := m.consecutiveOk + 1)
    else
      var completed := m.completedCount + 1;
      Machine(if completed < POSES - 1 then completed else POSES - 1, 0, completed)
  }

  function Feed(previews: seq<Preview>): Machine {
    if previews == [] then Initial()
    else Advance(Feed(previews[..|previews| - 1]), DecideOk(previews[|previews| - 1]))
  }

  // ---------------------------------------------------------------- runs of ok previews

  /** Length of the run of ok previews that ends the sequence. */
  function LastRun(previews: seq<Preview>): nat {
    if previews == [] || !previews[|previews| - 1].detected || previews[|previews| - 1].reasons != [] then 0
    else LastRun(previews[..|previews| - 1]) + 1
  }

  lemma {:induction false} LastRunFits(previews: seq<Preview>)
    ensures LastRun(previews) <= |previews|
  {
    if previews != [] {
      LastRunFits(previews[..|previews| - 1]);
    }
  }

  /** The sum, over the maximal runs of ok previews, of half the run length rounded down. */
  function Holds(previews: seq<Preview>): nat
    decreases |previews|
  {
    if previews == [] then 0
    else
      var n := LastRun(previews);
      LastRunFits(previews);
      if n == 0 then Holds(previews[..|previews| - 1])
      else n / 2 + Holds(previews[..|previews| - n])
  }

  /** How the sum grows with one more preview. */
  lemma HoldsSnoc(previews: seq<Preview>, p: Preview)
    ensures Holds(previews + [p]) == Holds(previews) + if DecideOk(p) && LastRun(previews) % 2 == 1 then 1 else 0
    ensures LastRun(previews + [p]) == if DecideOk(p) then LastRun(previews) + 1 else 0
  {
    var longer := previews + [p];
    assert longer[..|previews|] == previews;
    LastRunFits(previews);
    if DecideOk(p) {
      var n := LastRun(previews);
      assert longer[..|longer| - (n + 1)] == previews[..|previews| - n];
      if n == 0 {
        assert previews[..|previews| - n] == previews;
      }
    }
  }

  /** The machine that has seen `holds` held pairs and stands `run` previews into a run. */
  predicate Stands(m: Machine, holds: nat, run: nat) {
    && m.completedCount == (if holds < 3 then holds else 3)
    && m.poseIndex == (if m.completedCount < 3 then m.completedCount else 2)
    && (holds < 3 ==> m.consecutiveOk == run % 2)
  }

  lemma AdvanceStands(m: Machine, holds: nat, run: nat, ok: bool)
    requires Stands(m, holds, run)
    ensures Stands(Advance(m, ok), holds + if ok && run % 2 == 1 then 1 else 0, if ok then run + 1 else 0)
  {
  }

  /** After any previews, as many poses are complete as pairs of consecutive ok previews were held, up to all three;
      the current streak is what the last run leaves over; and the pose asked for is the next one, the last staying put. */
  lemma {:induction false} CompletedIsHeldPairs(previews: seq<Preview>)
    ensures Stands(Feed(previews), Holds(previews), LastRun(previews))
  {
    if previews != [] {
      var before, p := previews[..|previews| - 1], previews[|previews| - 1];
      CompletedIsHeldPairs(before);
      HoldsSnoc(before, p);
      assert before + [p] == previews;
      AdvanceStands(Feed(before), Holds(before), LastRun(before), DecideOk(p));
    }
  }

  /** A pose is completed by this preview. */
  predicate Completes(previews: seq<Preview>, k: nat)
    requires k < |previews|
  {
    Feed(previews[..k + 1]).completedCount == Feed(previews[..k]).completedCount + 1
  }

  /** Each preview completes the pose that was asked for, or none: poses complete one at a time, in order, and once
      all are complete nothing changes any more. */
  lemma OneAtATimeInOrder(previews: seq<Preview>, k: nat)
    requires k < |previews|
    ensures var before, after := Feed(previews[..k]), Feed(previews[..k + 1]);
            && (Completes(previews, k) || after.completedCount == before.completedCount)
            && (Completes(previews, k) ==> before.poseIndex == before.completedCount < 3)
            && (PoseDone(before) ==> after == before)
  {
    CompletedIsHeldPairs(previews[..k]);
    assert previews[..k + 1][..k] == previews[..k];
  }

  /** The previews among the first `n` that complete pose `pose`. */
  function Completions(previews: seq<Preview>, n: nat, pose: nat): nat
    requires n <= |previews|
  {
    if n == 0 then 0
    else Completions(previews, n - 1, pose) +
         (if Completes(previews, n - 1) && Feed(previews[..n - 1]).completedCount == pose then 1 else 0)
  }

  /** Each pose completes exactly once if the machine got past it, and never otherwise. */
  lemma {:induction false} EachPoseCompletesOnce(previews: seq<Preview>, n: nat, pose: nat)
    requires n <= |previews|
    ensures Completions(previews, n, pose) == if pose < Feed(previews[..n]).completedCount then 1 else 0
  {
    if n > 0 {
      EachPoseCompletesOnce(previews, n - 1, pose);
      OneAtATimeInOrder(previews, n - 1);
    } else {
      assert previews[..0] == [];
    }
  }
}
