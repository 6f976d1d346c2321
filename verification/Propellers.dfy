/** What the two middle propellers are given for a controller output. */
module Propellers {
  import opened Geometry

  /** The fraction is cut off when a float becomes a short. */
  function Truncated(r: real): int {
    if r < 0.0 then -((-r).Floor) else r.Floor
  }

  lemma TruncatedTowardZero(r: real)
    ensures r >= 0.0 ==> 0.0 <= r - Truncated(r) as real < 1.0
    ensures r <= 0.0 ==> -1.0 < r - Truncated(r) as real <= 0.0
  {
  }

  /** The short a propeller is given for a direction and a power. */
  function Thrust(dir: int, power: real): int {
    Truncated(dir as real * power)
  }

  /** Directions and errors of the two middle propellers. */
  datatype Trim = Trim(leftDir: int, rightDir: int, leftError: int, rightError: int)

  /** What the two branches give: the left error is taken off, or the right one added. */
  function Split(t: Trim, output: real, downwards: bool): (int, int) {
    if downwards then (Thrust(t.leftDir, -output - t.leftError as real), Thrust(t.rightDir, -output))
    else (Thrust(t.leftDir, -output), Thrust(t.rightDir, -output + t.rightError as real))
  }

  /** The first branch is meant for diving, where the output is not negative. */
  function Intended(t: Trim, output: real): (int, int) {
    Split(t, output, output >= 0.0)
  }

  /** The fraction cut off hides a whole number added to it only around zero. */
  lemma TruncatedShift(r: real, m: int)
    ensures Truncated(r) == Truncated(r + m as real) <==>
      m == 0 || (-1.0 < r < 1.0 && -1.0 < r + m as real < 1.0)
  {
  }

  lemma ThrustShift(dir: int, power: real, error: int)
    requires 0.0 < power
    ensures Thrust(dir, power) == Thrust(dir, power + error as real) <==>
      dir == 0 || error == 0 || (Abs(dir) == 1 && error == -1 && power < 1.0)
  {
    Distribute(dir, power, error);
    TruncatedShift(dir as real * power, dir * error);
    if dir != 0 && error != 0 {
      if Abs(dir) == 1 && Abs(error) == 1 {
        assert dir as real * power == if dir == 1 then power else -power;
      } else {
        ProductIsTwo(dir, error);
      }
    }
  }

  lemma Distribute(dir: int, power: real, error: int)
    ensures dir as real * (power + error as real) == dir as real * power + (dir * error) as real
  {
  }

  lemma ProductIsTwo(m: int, n: int)
    requires m != 0 && n != 0 && !(Abs(m) == 1 && Abs(n) == 1)
    ensures Abs(m * n) >= 2
  {
    if Abs(m) >= 2 {
      ProductGrows(Abs(m), Abs(n));
    } else {
      ProductGrows(Abs(n), Abs(m));
    }
    assert Abs(m * n) == Abs(m) * Abs(n);
  }

  lemma ProductGrows(m: nat, n: nat)
    requires 1 <= n
    ensures m <= m * n
  {
  }

  /** The two thrusts the code gives are those of its first branch, whatever the output. */
  function Given(t: Trim, output: real): (int, int) {
    Split(t, output, true)
  }

  /**
   They are the intended ones when diving; when rising, exactly when neither error shows: it is
   zero, or its propeller stands still, or one unit of it is lost in the fraction cut off.
   */
  lemma GivenIsIntendedIff(t: Trim, output: real)
    ensures Given(t, output) == Intended(t, output) <==>
      output >= 0.0 ||
      ((t.leftDir == 0 || t.leftError == 0 || (Abs(t.leftDir) == 1 && t.leftError == 1 && -1.0 < output)) &&
       (t.rightDir == 0 || t.rightError == 0 || (Abs(t.rightDir) == 1 && t.rightError == -1 && -1.0 < output)))
  {
    if output < 0.0 {
      ThrustShift(t.leftDir, -output, -t.leftError);
      ThrustShift(t.rightDir, -output, t.rightError);
    }
  }

  /** For a whole output no fraction is cut off. */
  lemma WholeOutputs(t: Trim, n: int)
    ensures Given(t, n as real) == (t.leftDir * (-n - t.leftError), t.rightDir * -n)
    ensures 0 <= n ==> Intended(t, n as real) == (t.leftDir * (-n - t.leftError), t.rightDir * -n)
    ensures n < 0 ==> Intended(t, n as real) == (t.leftDir * -n, t.rightDir * (-n + t.rightError))
  {
    WholeThrust(t.leftDir, -n);
    WholeThrust(t.leftDir, -n - t.leftError);
    WholeThrust(t.rightDir, -n);
    WholeThrust(t.rightDir, -n + t.rightError);
  }

  lemma WholeThrust(dir: int, power: int)
    ensures Thrust(dir, power as real) == dir * power
  {
    assert dir as real * power as real == (dir * power) as real;
  }

  /** At full rise with a left error of 10, the left propeller gets 290 where 300 is meant. */
  lemma WrongErrorCompensated()
    ensures Given(Trim(1, 1, 10, 0), -300.0) == (290, 300) && Intended(Trim(1, 1, 10, 0), -300.0) == (300, 300)
  {
  }
}
