/** The positional controller, its parameter table, and the variant with a filtered derivative. */
module Pid {
  import opened Filter

  /** The controller's fields that survive a call. */
  datatype State = State(
    errLimited: bool, integrateLimited: bool, separated: bool,
    wanted: real, feedback: real, err: real, lastErr: real, errMax: real, separationErr: real,
    integrate: real, integrateMax: real, kp: real, ki: real, kd: real,
    output: real, lastOutput: real, outputLimit: real, scaleKp: real, scaleKi: real, scaleKd: real)

  /** Cut to at most max, then to at least -max. */
  function Cut(r: real, max: real): (c: real)
    ensures 0.0 <= max ==> AtMost(c, max)
    ensures AtMost(r, max) ==> c == r
    ensures 0.0 <= max ==> (r > max ==> c == max) && (r < -max ==> c == -max)
  {
    var upper := if r >= max then max else r;
    if upper <= -max then -max else upper
  }

  function NewErr(s: State): real {
    var err := s.wanted - s.feedback;
    if s.errLimited then Cut(err, s.errMax) else err
  }

  /** Proportional, integral and derivative terms. */
  function Sum(scaleKp: real, kp: real, err: real, integrate: real, kd: real, derivative: real): real {
    scaleKp * kp * err + integrate + kd * derivative
  }

  function Increment(scaleKi: real, ki: real, err: real): real {
    scaleKi * ki * err
  }

  /** The integral after a call, given the error of the call. */
  function NewIntegrate(s: State, err: real): real {
    var sum := if s.separated && Abs(err) > s.separationErr then s.integrate
      else s.integrate + Increment(s.scaleKi, s.ki, err);
    if s.integrateLimited then Cut(sum, s.integrateMax) else sum
  }

  /** The end of a call, from the error in place: integral and output, each within its limit. */
  function WithOutput(s: State, derivative: real): State {
    var integrate := NewIntegrate(s, s.err);
    s.(integrate := integrate, lastOutput := s.output,
       output := Cut(Sum(s.scaleKp, s.kp, s.err, integrate, s.kd, derivative), s.outputLimit))
  }

  /** One controller call with the given derivative term. */
  function Stepped(s: State, derivative: real): State {
    WithOutput(s.(lastErr := s.err, err := NewErr(s)), derivative)
  }

  /** One call of the plain controller. */
  function PidStep(s: State): State {
    Stepped(s, NewErr(s) - s.err)
  }

  /** A call begins with the error, within its limit; the plain controller takes its change as derivative. */
  lemma ErrorInNumbers(s: State, derivative: real)
    requires 0.0 <= s.errMax
    ensures var e := s.wanted - s.feedback;
      var err := if s.errLimited && e > s.errMax then s.errMax
        else if s.errLimited && e < -s.errMax then -s.errMax else e;
      Stepped(s, derivative) == WithOutput(s.(lastErr := s.err, err := err), derivative) &&
      PidStep(s) == Stepped(s, err - s.err)
  {
  }

  /** The integral takes the error, unless it is separated and the error too large. */
  lemma IntegralInNumbers(s: State, derivative: real)
    requires 0.0 <= s.integrateMax
    ensures var sum := if s.separated && (s.err > s.separationErr || s.err < -s.separationErr) then s.integrate
        else s.integrate + s.scaleKi * s.ki * s.err;
      WithOutput(s, derivative).integrate ==
        if s.integrateLimited && sum > s.integrateMax then s.integrateMax
        else if s.integrateLimited && sum < -s.integrateMax then -s.integrateMax else sum
  {
  }

  /** Three terms make the output, within its limit. */
  lemma OutputInNumbers(s: State, derivative: real)
    requires 0.0 <= s.outputLimit
    ensures var t := WithOutput(s, derivative);
      var sum := s.scaleKp * s.kp * s.err + t.integrate + s.kd * derivative;
      t.output == if sum > s.outputLimit then s.outputLimit else if sum < -s.outputLimit then -s.outputLimit else sum
  {
    SumInNumbers(s.scaleKp, s.kp, s.err, NewIntegrate(s, s.err), s.kd, derivative, s.outputLimit);
  }

  lemma SumInNumbers(scaleKp: real, kp: real, err: real, integrate: real, kd: real, derivative: real, limit: real)
    requires 0.0 <= limit
    ensures var sum := scaleKp * kp * err + integrate + kd * derivative;
      Cut(Sum(scaleKp, kp, err, integrate, kd, derivative), limit) ==
        if sum > limit then limit else if sum < -limit then -limit else sum
  {
  }

  /** What every call keeps, whatever the inputs: output and integral within their limits. */
  predicate Limited(s: State) {
    AtMost(s.output, s.outputLimit) && (s.integrateLimited ==> AtMost(s.integrate, s.integrateMax))
  }

  /** The limits hold after any call from any state, so over every run. */
  lemma CallsStayLimited(s: State, derivative: real)
    requires 0.0 <= s.outputLimit && 0.0 <= s.integrateMax
    ensures Limited(Stepped(s, derivative))
  {
  }

  /** What the filtered derivative remembers: the filter's memory, two despiked derivatives, five filter outputs. */
  datatype Derivative = Derivative(memory: Memory, last: real, preLast: real, history: seq<real>)

  const NO_DERIVATIVE := Derivative(SILENCE, 0.0, 0.0, [0.0, 0.0, 0.0, 0.0, 0.0])

  /** A raw derivative is despiked, then filtered into the history. */
  function Derived(c: Coefficients, d: Derivative, raw: real): (r: Derivative)
    requires |d.history| == 5
    ensures |r.history| == 5
  {
    var despiked := Despike(d.preLast, d.last, raw);
    Derivative(Remember(c, d.memory, despiked), despiked, d.last, [Response(c, d.memory, despiked)] + d.history[..4])
  }

  /** A controller with what it remembers for its filtered derivative. */
  datatype Filtered = Filtered(s: State, d: Derivative)

  /** One call of the controller with the filtered derivative. */
  function DivLpfStep(c: Coefficients, x: Filtered): (r: Filtered)
    requires |x.d.history| == 5
    ensures |r.d.history| == 5
  {
    var d := Derived(c, x.d, x.s.wanted - x.s.feedback - x.s.err);
    Filtered(Stepped(x.s, d.history[0]), d)
  }

  type Row = r: seq<real> | |r| == 20 witness seq(20, _ => 0.0)

  /** `Control_Unit`. */
  function ControlUnit(index: nat): Row
    requires index < 8
  {
    [
      [0.0, 1.0, 0.0, 0.0, 0.0, 0.0, 0.0, 500.0, 0.0, 0.0, 200.0, 0.50, 2.5, 1.80, 0.0, 0.0, 5000.0, 1.0, 1.0, 1.0],
      [0.0, 1.0, 0.0, 0.0, 0.0, 0.0, 0.0, 500.0, 0.0, 0.0, 200.0, 0.75, 3.5, 1.80, 0.0, 0.0, 5000.0, 1.0, 1.0, 1.0],
      [0.0, 1.0, 0.0, 0.0, 0.0, 0.0, 0.0, 250.0, 0.0, 0.0, 100.0, 1.00, 0.5, 0.00, 0.0, 0.0, 3000.0, 1.0, 1.0, 1.0],
      [0.0, 1.0, 0.0, 0.0, 0.0, 0.0, 0.0, 30.0, 0.0, 0.0, 80.0, 4.00, 0.0, 0.00, 0.0, 0.0, 3000.0, 1.0, 1.0, 1.0],
      [0.0, 1.0, 0.0, 0.0, 0.0, 0.0, 0.0, 45.0, 0.0, 0.0, 150.0, 5.00, 0.0, 0.00, 0.0, 0.0, 3000.0, 1.0, 1.0, 1.0],
      [0.0, 1.0, 0.0, 0.0, 0.0, 0.0, 0.0, 30.0, 0.0, 0.0, 80.0, 4.00, 0.0, 0.00, 0.0, 0.0, 3000.0, 1.0, 1.0, 1.0],
      [0.0, 1.0, 0.0, 0.0, 0.0, 0.0, 0.0, 400.0, 0.0, 0.0, 500.0, 5.0, 0.3, 0.1, 0.0, 0.0, 5000.0, 1.0, 1.0, 1.0],
      [0.0, 1.0, 0.0, 0.0, 0.0, 0.0, 0.0, 200.0, 0.0, 0.0, 100.0, 0.5, 0.0, 0.0, 0.0, 0.0, 4000.0, 1.0, 1.0, 1.0]
    ][index]
  }

  /** A controller loaded from a table row. */
  function Loaded(r: Row): State {
    State(r[0] == 1.0, r[1] == 1.0, r[2] == 1.0, r[3], r[4], r[5], r[6], r[7], r[8], r[9],
          r[10], r[11], r[12], r[13], r[14], r[15], r[16], r[17], r[18], r[19])
  }

  /** Two rows of the table, field by field: a steering controller and the depth controller. */
  lemma RowsInNumbers()
    ensures Loaded(ControlUnit(0)) ==
      ZERO.(integrateLimited := true, errMax := 500.0, integrateMax := 200.0, kp := 0.5, ki := 2.5, kd := 1.8,
            outputLimit := 5000.0, scaleKp := 1.0, scaleKi := 1.0, scaleKd := 1.0)
    ensures Loaded(ControlUnit(7)) ==
      ZERO.(integrateLimited := true, errMax := 200.0, integrateMax := 100.0, kp := 0.5,
            outputLimit := 4000.0, scaleKp := 1.0, scaleKi := 1.0, scaleKd := 1.0)
  {
  }

  /** Every field of a controller that nothing has been loaded into. */
  const ZERO := State(false, false, false, 0.0, 0.0, 0.0, 0.0, 0.0, 0.0, 0.0,
    0.0, 0.0, 0.0, 0.0, 0.0, 0.0, 0.0, 0.0, 0.0, 0.0)

  class PidController {
    /** The plain fields of the controller structure; methods assign them one by one. */
    var s: State
    var disErr: real
    var lastDisErr: real
    var preLastDisErr: real
    const history: array<real>
    const buffer: Buffer

    /** The parts are in place and apart. */
    predicate Valid()
      reads this, buffer, buffer.input, buffer.output
    {
      history.Length == 5 && buffer.Valid() && history != buffer.input && history != buffer.output
    }

    ghost function Value(): Filtered
      reads this, history, buffer, buffer.input, buffer.output
      requires Valid()
    {
      Filtered(s, Derivative(buffer.Contents(), lastDisErr, preLastDisErr, history[..]))
    }

    /** All fields zero, as statics are. */
    constructor ()
      ensures Valid() && fresh(history) && fresh(buffer) && fresh(buffer.input) && fresh(buffer.output)
      ensures Value() == Filtered(ZERO, NO_DERIVATIVE)
    {
      s := ZERO;
      disErr, lastDisErr, preLastDisErr := 0.0, 0.0, 0.0;
      history := new real[5](_ => 0.0);
      buffer := new Buffer();
    }

    /** `PID_Init`: one table row is loaded; the filtered derivative is left alone. */
    method Init(index: nat)
      requires index < 8
      modifies this`s
      ensures s == Loaded(ControlUnit(index))
    {
      var r := ControlUnit(index);
      s := s.(errLimited := r[0] == 1.0, integrateLimited := r[1] == 1.0, separated := r[2] == 1.0);
      s := s.(wanted := r[3], feedback := r[4], err := r[5], lastErr := r[6], errMax := r[7], separationErr := r[8]);
      s := s.(integrate := r[9], integrateMax := r[10], kp := r[11], ki := r[12], kd := r[13]);
      s := s.(output := r[14], lastOutput := r[15], outputLimit := r[16]);
      s := s.(scaleKp := r[17], scaleKi := r[18], scaleKd := r[19]);
    }

    method PidControl() returns (output: real)
      modifies this`s
      ensures s == PidStep(old(s)) && output == s.output
    {
      s := s.(lastErr := s.err);
      s := s.(err := s.wanted - s.feedback);
      LimitErr();
      Conclude(s.err - s.lastErr);
      output := s.output;
    }

    method LimitErr()
      modifies this`s
      ensures s == old(s).(err := if old(s).errLimited then Cut(old(s).err, old(s).errMax) else old(s).err)
    {
      if s.errLimited {
        if s.err >= s.errMax {
          s := s.(err := s.errMax);
        }
        if s.err <= -s.errMax {
          s := s.(err := -s.errMax);
        }
      }
    }

    /** The integral and the output, from the error already in place. */
    method Conclude(derivative: real)
      modifies this`s
      ensures s == WithOutput(old(s), derivative)
    {
      Integrate();
      LimitIntegral();
      s := s.(lastOutput := s.output);
      s := s.(output := Sum(s.scaleKp, s.kp, s.err, s.integrate, s.kd, derivative));
      LimitOutput();
    }

    /** The error is added to the integral, unless it is too large for a separated integral. */
    method Integrate()
      modifies this`s
      ensures s == old(s).(integrate := old(s).integrate +
        if old(s).separated && Abs(old(s).err) > old(s).separationErr then 0.0
        else Increment(old(s).scaleKi, old(s).ki, old(s).err))
    {
      if s.separated {
        if Abs(s.err) <= s.separationErr {
          s := s.(integrate := s.integrate + Increment(s.scaleKi, s.ki, s.err));
        }
      } else {
        s := s.(integrate := s.integrate + Increment(s.scaleKi, s.ki, s.err));
      }
    }

    method LimitIntegral()
      modifies this`s
      ensures s == old(s).(integrate :=
        if old(s).integrateLimited then Cut(old(s).integrate, old(s).integrateMax) else old(s).integrate)
    {
      if s.integrateLimited {
        if s.integrate >= s.integrateMax {
          s := s.(integrate := s.integrateMax);
        }
        if s.integrate <= -s.integrateMax {
          s := s.(integrate := -s.integrateMax);
        }
      }
    }

    method LimitOutput()
      modifies this`s
      ensures s == old(s).(output := Cut(old(s).output, old(s).outputLimit))
    {
      if s.output >= s.outputLimit {
        s := s.(output := s.outputLimit);
      }
      if s.output <= -s.outputLimit {
        s := s.(output := -s.outputLimit);
      }
    }

    /**
     The controller with a despiked, low-passed derivative: the derivative term is the newest
     entry of the history, and the history shifts by one.
     */
    method PidControlDivLpf(c: Coefficients) returns (output: real)
      requires Valid()
      modifies this`s, this`disErr, this`lastDisErr, this`preLastDisErr, history, buffer.input, buffer.output
      ensures Valid()
      ensures disErr == Despike(old(preLastDisErr), old(lastDisErr), old(s.wanted - s.feedback - s.err))
      ensures preLastDisErr == old(lastDisErr) && lastDisErr == disErr
      ensures history[..] == [Response(c, old(buffer.Contents()), disErr)] + old(history[..4])
      ensures buffer.Contents() == Remember(c, old(buffer.Contents()), disErr)
      ensures s == Stepped(old(s), history[0]) && output == s.output
      ensures Value() == DivLpfStep(c, old(Value()))
    {
      s := s.(lastErr := s.err);
      s := s.(err := s.wanted - s.feedback);
      disErr := s.err - s.lastErr;
      FilterDerivative(c);
      LimitErr();
      Conclude(history[0]);
      output := s.output;
    }

    /** Despikes the raw derivative, remembers it, and puts its low-passed value into the history. */
    method FilterDerivative(c: Coefficients)
      requires Valid()
      modifies this`disErr, this`lastDisErr, this`preLastDisErr, history, buffer.input, buffer.output
      ensures Valid()
      ensures disErr == Despike(old(preLastDisErr), old(lastDisErr), old(disErr))
      ensures preLastDisErr == old(lastDisErr) && lastDisErr == disErr
      ensures history[..] == [Response(c, old(buffer.Contents()), disErr)] + old(history[..4])
      ensures buffer.Contents() == Remember(c, old(buffer.Contents()), disErr)
    {
      DespikeDerivative();
      preLastDisErr := lastDisErr;
      lastDisErr := disErr;
      ShiftHistory();
      history[0] := buffer.LowPass(disErr, c);
    }

    method DespikeDerivative()
      modifies this`disErr
      ensures disErr == Despike(preLastDisErr, lastDisErr, old(disErr))
    {
      var a, b, c := preLastDisErr, lastDisErr, disErr;
      var max := if a > b then a else b;
      max := if max > c then max else c;
      var min := if a < b then a else b;
      min := if min < c then min else c;
      if a > min && a < max {
        disErr := a;
      }
      if b > min && b < max {
        disErr := b;
      }
      if c > min && c < max {
        disErr := c;
      }
    }

    method ShiftHistory()
      requires history.Length == 5
      modifies history
      ensures history[0] == old(history[0]) && history[1..] == old(history[..4])
    {
      var i := 4;
      while i > 0
        invariant 0 <= i <= 4
        invariant forall k | 0 <= k <= i :: history[k] == old(history[k])
        invariant forall k | i < k <= 4 :: history[k] == old(history[k - 1])
      {
        history[i] := history[i - 1];
        i := i - 1;
      }
    }
  }

  /** The history after a run of calls with the given filter outputs. */
  function HistoryAfter(history: seq<real>, outputs: seq<real>): (h: seq<real>)
    requires |history| == 5
    ensures |h| == 5
    decreases |outputs|
  {
    if outputs == [] then history
    else
      var n := |outputs| - 1;
      [outputs[n]] + HistoryAfter(history, outputs[..n])[..4]
  }

  /** Entry k is the filter output of k calls ago, once there have been that many. */
  lemma {:induction false} HistoryLooksBack(history: seq<real>, outputs: seq<real>, k: nat)
    requires |history| == 5 && k < 5 && k < |outputs|
    ensures HistoryAfter(history, outputs)[k] == outputs[|outputs| - 1 - k]
    decreases |outputs|
  {
    if 0 < k {
      HistoryLooksBack(history, outputs[..|outputs| - 1], k - 1);
    }
  }

  /** What the caller sets before a call. */
  datatype Reading = Reading(wanted: real, feedback: real)

  function RunOf(c: Coefficients, x: Filtered, readings: seq<Reading>): (r: Filtered)
    requires |x.d.history| == 5
    ensures |r.d.history| == 5
    decreases |readings|
  {
    if readings == [] then x
    else
      var n := |readings| - 1;
      var before := RunOf(c, x, readings[..n]);
      DivLpfStep(c, before.(s := before.s.(wanted := readings[n].wanted, feedback := readings[n].feedback)))
  }

  /** The despiked derivative of every call of a run. */
  function Despiked(c: Coefficients, x: Filtered, readings: seq<Reading>): (r: seq<real>)
    requires |x.d.history| == 5
    ensures |r| == |readings|
    decreases |readings|
  {
    if readings == [] then []
    else Despiked(c, x, readings[..|readings| - 1]) + [RunOf(c, x, readings).d.last]
  }

  /** Memory and history after a run are those of its despiked derivatives sent through the filter. */
  lemma {:induction false} RunFiltersDespiked(c: Coefficients, x: Filtered, readings: seq<Reading>)
    requires |x.d.history| == 5
    ensures var d, xs := RunOf(c, x, readings).d, Despiked(c, x, readings);
      d.memory == MemoryAfter(c, x.d.memory, xs) && d.history == HistoryAfter(x.d.history, Outputs(c, x.d.memory, xs))
    decreases |readings|
  {
    if readings != [] {
      var n := |readings| - 1;
      var before, xs := readings[..n], Despiked(c, x, readings[..n]);
      var last := RunOf(c, x, readings).d.last;
      RunFiltersDespiked(c, x, before);
      OutputsOfOneMore(c, x.d.memory, xs, last);
      var outputs := Outputs(c, x.d.memory, xs + [last]);
      assert outputs[..n] == Outputs(c, x.d.memory, xs);
    }
  }

  /**
   Over every run from a controller with a zeroed derivative, entry k of the history is what the
   low-pass makes of the despiked derivatives, k calls ago.
   */
  lemma HistoryIsFilterOutput(c: Coefficients, x: Filtered, readings: seq<Reading>, k: nat)
    requires x.d == NO_DERIVATIVE && k < 5 && k < |readings|
    ensures RunOf(c, x, readings).d.history[k] ==
      Outputs(c, SILENCE, Despiked(c, x, readings))[|readings| - 1 - k]
  {
    RunFiltersDespiked(c, x, readings);
    HistoryLooksBack(x.d.history, Outputs(c, SILENCE, Despiked(c, x, readings)), k);
  }

  /** The errors of a run, added up. */
  function TotalError(readings: seq<Reading>): real
    decreases |readings|
  {
    if readings == [] then 0.0
    else
      var n := |readings| - 1;
      TotalError(readings[..n]) + (readings[n].wanted - readings[n].feedback)
  }

  /** Neither error nor integral is limited, and the integral not separated. */
  predicate Open(s: State) {
    !s.errLimited && !s.integrateLimited && !s.separated
  }

  /** What a run has added to the integral. */
  predicate AddedUp(s: State, start: real, gain: real, total: real) {
    Open(s) && gain == s.scaleKi * s.ki && s.integrate == start + gain * total
  }

  lemma OpenCall(c: Coefficients, x: Filtered, start: real, gain: real, total: real)
    requires |x.d.history| == 5 && AddedUp(x.s, start, gain, total)
    ensures AddedUp(DivLpfStep(c, x).s, start, gain, total + (x.s.wanted - x.s.feedback))
  {
    var e := x.s.wanted - x.s.feedback;
    assert gain * (total + e) == gain * total + gain * e;
  }

  /** Then the integral of a run is its gain times all errors added up. */
  lemma {:induction false} IntegralAddsUp(c: Coefficients, x: Filtered, readings: seq<Reading>)
    requires |x.d.history| == 5 && Open(x.s)
    ensures AddedUp(RunOf(c, x, readings).s, x.s.integrate, x.s.scaleKi * x.s.ki, TotalError(readings))
    decreases |readings|
  {
    var gain := x.s.scaleKi * x.s.ki;
    if readings == [] {
      assert gain * 0.0 == 0.0;
    } else {
      var n := |readings| - 1;
      IntegralAddsUp(c, x, readings[..n]);
      var before := RunOf(c, x, readings[..n]);
      var told := before.(s := before.s.(wanted := readings[n].wanted, feedback := readings[n].feedback));
      assert AddedUp(told.s, x.s.integrate, gain, TotalError(readings[..n]));
      OpenCall(c, told, x.s.integrate, gain, TotalError(readings[..n]));
      assert RunOf(c, x, readings) == DivLpfStep(c, told);
    }
  }
}
