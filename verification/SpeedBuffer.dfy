/** The slew limiter between commanded and applied propeller power. */
module SpeedBuffer {
  import opened Geometry

  const STEP: int := 1

  predicate IsShort(n: int) {
    -32768 <= n <= 32767
  }

  /** The output for a target, and the remembered value after the call. */
  function Limit(target: int, last: int, range: int): (int, int) {
    if Abs(last - target) >= range then
      var now := if target <= last then last - STEP else last + STEP;
      (now, now)
    else (target, last)
  }

  /** Both pointers of the source are the two results. */
  method Buffer(target: int, last0: int, range: int) returns (now: int, last: int)
    requires IsShort(target) && IsShort(last0) && IsShort(range)
    ensures (now, last) == Limit(target, last0, range)
    ensures 1 <= range ==> IsShort(now) && IsShort(last)
  {
    now, last := target, last0;
    var diff: nat := Abs(last - now);
    if diff >= range {
      if now <= last {
        now := last - STEP;
      } else {
        now := last + STEP;
      }
      last := now;
    }
  }

  /** The output never passes the target, nor leaves it behind. */
  lemma NoOvershoot(target: int, last: int, range: int)
    requires 1 <= range
    ensures var (now, _) := Limit(target, last, range);
      (last <= now <= target || target <= now <= last) && (now == last ==> target == last)
  {
  }

  /** The remembered value after a run of targets. */
  function Remembered(last: int, range: int, targets: seq<int>): int
    decreases |targets|
  {
    if targets == [] then last
    else
      var n := |targets| - 1;
      Limit(targets[n], Remembered(last, range, targets[..n]), range).1
  }

  /** The k-th output of a run. */
  function OutputAt(last: int, range: int, targets: seq<int>, k: nat): int
    requires k < |targets|
  {
    Limit(targets[k], Remembered(last, range, targets[..k]), range).0
  }

  /** For arbitrary targets two consecutive outputs are close together. */
  lemma OutputsAreClose(last: int, range: int, targets: seq<int>, k: nat)
    requires 1 <= range && k + 1 < |targets|
    ensures Abs(OutputAt(last, range, targets, k + 1) - OutputAt(last, range, targets, k))
      <= if range == 1 then 1 else 2 * (range - 1)
  {
    assert targets[..k + 1][..k] == targets[..k];
  }

  /** How many stepping calls a constant target takes. */
  function CallsNeeded(target: int, last: int, range: int): nat {
    if Abs(target - last) - (range - 1) < 0 then 0 else Abs(target - last) - (range - 1)
  }

  /**
   For a constant target the output equals it from exactly the CallsNeeded-th call on (the
   first call being number zero), and before that it moves one unit a call.
   */
  lemma {:induction false} ConstantTargetIsReached(target: int, last: int, range: int, k: nat)
    requires 1 <= range
    ensures var targets := seq(k + 1, _ => target);
      var toward := if target <= last then -1 else 1;
      var steps := CallsNeeded(target, last, range);
      Remembered(last, range, targets[..k]) == last + toward * (if k < steps then k else steps) &&
      OutputAt(last, range, targets, k) == (if k < steps then last + toward * (k + 1) else target)
  {
    var targets := seq(k + 1, _ => target);
    if k == 0 {
      assert targets[..0] == [];
    } else {
      ConstantTargetIsReached(target, last, range, k - 1);
      var before := seq(k, _ => target);
      assert targets[..k] == before;
      assert before[..k - 1] == targets[..k][..k - 1];
    }
  }

  /** With a range of zero or less the output never rests: a reached target is left again. */
  lemma RangeMustBePositive(target: int, last: int, range: int)
    ensures (forall t: int :: Limit(t, t, range) == (t, t)) <==> 1 <= range
    ensures range <= 0 && target == last ==> Limit(target, last, range).0 == target - 1
  {
    if range <= 0 {
      assert Limit(0, 0, range) == (-1, -1);
    }
  }
}
