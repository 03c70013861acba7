/**
 * The search shape shared by discovery and the label scans: walk a sequence
 * of per-index outcomes from a start index, passing over skips, until the
 * first hit (found) or the first stop (not found).
 */
module Scan {
  import opened Sysfs

  datatype ScanStep = Stop | Skip | Hit

  function FirstHit(steps: seq<ScanStep>, i: nat): (r: Option<nat>)
    ensures r.Some? ==> i <= r.value < |steps| && steps[r.value] == Hit
    decreases |steps| - i
  {
    if i >= |steps| then None
    else match steps[i]
      case Stop => None
      case Skip => FirstHit(steps, i + 1)
      case Hit => Some(i)
  }

  /** The search finds `c` exactly when `c` hits and everything before it from `i` is skipped. */
  lemma {:induction false} FirstHitFindsFirst(steps: seq<ScanStep>, i: nat, c: nat)
    ensures FirstHit(steps, i) == Some(c) <==>
      i <= c < |steps| && steps[c] == Hit && forall j :: i <= j < c ==> steps[j] == Skip
    decreases |steps| - i
  {
    if i < |steps| && steps[i] == Skip {
      FirstHitFindsFirst(steps, i + 1, c);
    }
  }

  /** The search finds nothing exactly when every hit from `i` on lies behind a stop. */
  lemma {:induction false} FirstHitFails(steps: seq<ScanStep>, i: nat)
    ensures FirstHit(steps, i).None? <==>
      forall c :: i <= c < |steps| && steps[c] == Hit ==> exists j :: i <= j < c && steps[j] == Stop
    decreases |steps| - i
  {
    if i < |steps| {
      match steps[i]
      case Stop =>
        forall c | i <= c < |steps| && steps[c] == Hit
          ensures exists j :: i <= j < c && steps[j] == Stop
        {
          assert steps[i] == Stop;
        }
      case Hit =>
      case Skip =>
        FirstHitFails(steps, i + 1);
    }
  }
}
