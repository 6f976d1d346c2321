/** How far the depth setpoint can get over whole runs of commands. */
module Setpoint {
  import opened Filter
  import opened Pid
  import opened Depth
  import Runs

  /** A controller that answers with a multiple of the error: no error limit, no integral yet, no other term. */
  predicate Proportional(s: State) {
    !s.errLimited && s.ki == 0.0 && s.kd == 0.0 && s.integrate == 0.0 && (s.integrateLimited ==> 0.0 <= s.integrateMax)
  }

  function Gain(s: State): real {
    s.scaleKp * s.kp
  }

  /** The answer to an error: multiplied, cut to the controller's limit and to the propellers'. */
  function Answer(s: State, err: real): real {
    Cut(Cut(Sum(s.scaleKp, s.kp, err, 0.0, 0.0, 0.0), s.outputLimit), 300.0)
  }

  /** Nothing of a proportional controller but its inputs, error and outputs changes. */
  predicate SameTuning(s: State, t: State) {
    Proportional(s) && Proportional(t) && s.scaleKp == t.scaleKp && s.kp == t.kp && s.outputLimit == t.outputLimit
  }

  lemma ProportionalFollows(c: Craft, depth: real)
    requires Proportional(c.pid)
    ensures var f := Followed(c, depth);
      SameTuning(c.pid, f.pid) && f.mode == c.mode && f.wanted == c.wanted &&
      f.pid.output == Answer(c.pid, c.wanted - depth)
  {
    var s := c.pid.(wanted := c.wanted, feedback := depth);
    var err := c.wanted - depth;
    NoIncrement(s.scaleKi, err);
    assert NewIntegrate(s, err) == 0.0;
    NoDerivative(s.scaleKp, s.kp, err, err - s.err);
  }

  lemma NoIncrement(scaleKi: real, err: real)
    ensures Increment(scaleKi, 0.0, err) == 0.0
  {
  }

  lemma NoDerivative(scaleKp: real, kp: real, err: real, derivative: real)
    ensures Sum(scaleKp, kp, err, 0.0, 0.0, derivative) == Sum(scaleKp, kp, err, 0.0, 0.0, 0.0)
  {
  }

  /** The measured depth is at most the deepest one, and the stick within its range. */
  predicate Legal(command: Command, deepest: real) {
    command.depth <= deepest && (command.Rov? ==> -127 <= command.z)
  }

  predicate AllLegal(commands: seq<Command>, deepest: real) {
    forall command <- commands :: Legal(command, deepest)
  }

  /** Over every legal run the setpoint stays within this depth. */
  ghost predicate StaysWithin(c: Craft, deepest: real, bound: real) {
    forall commands: seq<Command> | AllLegal(commands, deepest) :: ObeyAll(c, commands).wanted <= bound
  }

  /**
   The controller can close the dive gate: it answers an error by a multiple of it up to the
   gate's 300, or its limit is so far below zero that the two cuts make 300 of any answer.
   */
  predicate GateCloses(s: State) {
    (Gain(s) > 0.0 && s.outputLimit >= 300.0) || s.outputLimit <= -300.0
  }

  /** The depth beyond which the setpoint cannot be driven by more than one stick step. */
  function Highest(c: Craft, deepest: real): real {
    if c.pid.outputLimit <= -300.0 || Gain(c.pid) <= 0.0 then c.wanted
    else
      var closed := deepest + 300.0 / Gain(c.pid);
      if closed < c.wanted then c.wanted else closed
  }

  /** What keeps the setpoint from running away: an open gate means that it is not far ahead. */
  predicate Held(c: Craft, deepest: real, high: real) {
    c.mode == FourAxis && Proportional(c.pid) && GateCloses(c.pid) && c.wanted <= high + 1.27 &&
    (c.pid.output < 300.0 ==> c.wanted <= high) &&
    (c.pid.outputLimit > -300.0 ==> deepest + 300.0 / Gain(c.pid) <= high)
  }

  lemma AnswerClosesGate(s: State, err: real)
    requires GateCloses(s)
    ensures s.outputLimit <= -300.0 ==> Answer(s, err) == 300.0
    ensures s.outputLimit > -300.0 && Answer(s, err) < 300.0 ==> err < 300.0 / Gain(s)
  {
    if s.outputLimit > -300.0 && Answer(s, err) < 300.0 {
      GainTimesError(s.scaleKp, s.kp, err);
      BelowQuotient(Gain(s), err, 300.0);
    }
  }

  lemma GainTimesError(scaleKp: real, kp: real, err: real)
    ensures Sum(scaleKp, kp, err, 0.0, 0.0, 0.0) == (scaleKp * kp) * err
  {
  }

  lemma BelowQuotient(g: real, x: real, n: real)
    requires 0.0 < g && g * x < n
    ensures x < n / g
  {
    var q := n / g;
    assert g * q == n;
    if q <= x { ProductIsNatural(g, x - q); }
  }

  lemma ObeyStaysHeld(c: Craft, command: Command, deepest: real, high: real)
    requires Held(c, deepest, high) && Legal(command, deepest)
    ensures Held(Obey(c, command), deepest, high)
  {
    var moved := match command
      case Rov(z, _) => c.(wanted := RovWanted(c, z))
      case _ => c;
    FollowedIsHeld(moved, command.depth, deepest, high);
    assert Obey(c, command) == Followed(moved, command.depth);
  }

  lemma FollowedIsHeld(c: Craft, depth: real, deepest: real, high: real)
    requires c.mode == FourAxis && Proportional(c.pid) && GateCloses(c.pid) && c.wanted <= high + 1.27
    requires depth <= deepest && (c.pid.outputLimit <= -300.0 || deepest + 300.0 / Gain(c.pid) <= high)
    ensures Held(Followed(c, depth), deepest, high)
  {
    ProportionalFollows(c, depth);
    AnswerClosesGate(c.pid, c.wanted - depth);
    SameGain(c.pid, Followed(c, depth).pid);
  }

  lemma SameGain(s: State, t: State)
    requires SameTuning(s, t)
    ensures Gain(s) == Gain(t) && (GateCloses(s) <==> GateCloses(t))
  {
  }

  lemma {:induction false} RunStaysHeld(c: Craft, commands: seq<Command>, deepest: real, high: real)
    requires Held(c, deepest, high) && AllLegal(commands, deepest)
    ensures Held(ObeyAll(c, commands), deepest, high)
    decreases |commands|
  {
    if commands != [] {
      var n := |commands| - 1;
      RunStaysHeld(c, commands[..n], deepest, high);
      ObeyStaysHeld(ObeyAll(c, commands[..n]), commands[n], deepest, high);
    }
  }

  /** A gate that closes holds the setpoint to one stick step beyond where it closes. */
  lemma ClosingGateHolds(c: Craft, deepest: real)
    requires c.mode == FourAxis && Proportional(c.pid) && GateCloses(c.pid)
    ensures StaysWithin(c, deepest, Highest(c, deepest) + 1.27)
  {
    forall commands: seq<Command> | AllLegal(commands, deepest)
      ensures ObeyAll(c, commands).wanted <= Highest(c, deepest) + 1.27
    {
      RunStaysHeld(c, commands, deepest, Highest(c, deepest));
    }
  }

  /** A call to settle the output, then full dives, all at one depth. */
  function Dives(depth: real, n: nat): seq<Command> {
    if n == 0 then [Rov(0, depth)] else Dives(depth, n - 1) + [Rov(-127, depth)]
  }

  lemma AnswerLeavesGateOpen(s: State, err: real)
    requires !GateCloses(s) && 0.0 <= err
    ensures Answer(s, err) < 300.0
  {
    GainTimesError(s.scaleKp, s.kp, err);
    if Gain(s) <= 0.0 { ProductIsNatural(-Gain(s), err); }
  }

  lemma DiveGoesThrough(c: Craft, depth: real)
    requires c.mode == FourAxis && Proportional(c.pid) && !GateCloses(c.pid) && depth <= c.wanted
    requires c.pid.output < 300.0
    ensures var d := Obey(c, Rov(-127, depth));
      d.wanted == c.wanted + 1.27 && d.mode == FourAxis && d.pid.output < 300.0 && SameTuning(c.pid, d.pid)
  {
    ProportionalFollows(c.(wanted := c.wanted + 1.27), depth);
    AnswerLeavesGateOpen(c.pid, c.wanted + 1.27 - depth);
  }

  /** An open gate lets every dive through. */
  lemma {:induction false} OpenGateHoldsNothing(c: Craft, depth: real, n: nat)
    requires c.mode == FourAxis && Proportional(c.pid) && !GateCloses(c.pid) && depth <= c.wanted
    ensures var d := ObeyAll(c, Dives(depth, n));
      d.wanted == c.wanted + 1.27 * n as real && d.mode == FourAxis && d.pid.output < 300.0 && SameTuning(c.pid, d.pid)
  {
    if n == 0 {
      assert Dives(depth, 0)[..0] == [];
      ProportionalFollows(c, depth);
      AnswerLeavesGateOpen(c.pid, c.wanted - depth);
    } else {
      var before := Dives(depth, n - 1);
      OpenGateHoldsNothing(c, depth, n - 1);
      assert Dives(depth, n)[..|before|] == before;
      var d := ObeyAll(c, before);
      SameGain(c.pid, d.pid);
      DiveGoesThrough(d, depth);
    }
  }

  lemma {:induction false} DivesAreLegal(depth: real, n: nat, deepest: real)
    requires depth <= deepest
    ensures AllLegal(Dives(depth, n), deepest)
  {
    if 0 < n { DivesAreLegal(depth, n - 1, deepest); }
  }

  lemma OpenGateExceeds(c: Craft, deepest: real, bound: real)
    requires c.mode == FourAxis && Proportional(c.pid) && !GateCloses(c.pid)
    ensures !StaysWithin(c, deepest, bound)
  {
    var depth := if deepest <= c.wanted then deepest else c.wanted;
    var far := bound - c.wanted;
    var n: nat := if far < 0.0 then 0 else far.Floor + 1;
    OpenGateHoldsNothing(c, depth, n);
    DivesAreLegal(depth, n, deepest);
    assert bound < ObeyAll(c, Dives(depth, n)).wanted;
  }

  /**
   For every proportional controller in four-axis mode, whatever setpoint and output it starts
   from: the setpoint is bounded over all legal runs if and only if the controller can close the gate.
   */
  lemma SetpointIsBoundedIff(c: Craft, deepest: real)
    requires c.mode == FourAxis && Proportional(c.pid)
    ensures (exists bound: real :: StaysWithin(c, deepest, bound)) <==> GateCloses(c.pid)
  {
    if GateCloses(c.pid) {
      ClosingGateHolds(c, deepest);
    } else {
      forall bound: real ensures !StaysWithin(c, deepest, bound) {
        OpenGateExceeds(c, deepest, bound);
      }
    }
  }

  /** Behind `PID_Init` the setpoint never gets more than one stick step beyond 600 below the deepest depth. */
  lemma SetpointDoesNotRunAway(commands: seq<Command>, deepest: real)
    requires AllLegal(commands, deepest)
    ensures ObeyAll(AfterInit(Start(FourAxis)), commands).wanted <=
      (if deepest + 600.0 < 0.0 then 0.0 else deepest + 600.0) + 1.27
  {
    var c := AfterInit(Start(FourAxis));
    assert Gain(c.pid) == 0.5 && 300.0 / 0.5 == 600.0;
    ClosingGateHolds(c, deepest);
  }

  /** The sum of the stick's moves, dives counted down and rises up. */
  function Moves(commands: seq<Command>): real
    decreases |commands|
  {
    if commands == [] then 0.0 else Moves(commands[..|commands| - 1]) + Move(commands[|commands| - 1])
  }

  function Move(command: Command): real {
    if command.Rov? && (command.z > 5 || command.z < -5) then (-command.z) as real / 100.0 else 0.0
  }

  /** A controller that nothing was loaded into puts out nothing. */
  predicate Idle(s: State) {
    Proportional(s) && s.kp == 0.0 && s.outputLimit == 0.0 && s.output == 0.0
  }

  /**
   As the program starts, without `PID_Init`, over every run in four-axis mode: the output stays
   zero, the gate open, and the setpoint is the plain sum of the stick's moves.
   */
  lemma {:induction false} UnloadedFollowsStick(commands: seq<Command>)
    ensures var c := ObeyAll(Start(FourAxis), commands);
      c.mode == FourAxis && Idle(c.pid) && c.wanted == Moves(commands)
    decreases |commands|
  {
    if commands != [] {
      var n := |commands| - 1;
      UnloadedFollowsStick(commands[..n]);
      var c := ObeyAll(Start(FourAxis), commands[..n]);
      ProportionalFollows(c.(wanted := c.wanted + Move(commands[n])), commands[n].depth);
    }
  }

  /** So from program start the setpoint has no bound. */
  lemma UnloadedRunsAway(deepest: real, bound: real)
    ensures !StaysWithin(Start(FourAxis), deepest, bound)
  {
    OpenGateExceeds(Start(FourAxis), deepest, bound);
  }

  /** A call that raises the setpoint no higher than the surface. */
  predicate StaysBelowSurface(wanted: real, command: Command) {
    command.Rov? && command.z > 5 ==> command.z as real / 100.0 <= wanted
  }

  /** In four-axis mode a setpoint below the surface stays there exactly when the stick asks for no more. */
  lemma ObeyStaysBelowSurface(c: Craft, command: Command)
    requires c.mode == FourAxis && 0.0 <= c.wanted
    ensures Obey(c, command).mode == FourAxis
    ensures 0.0 <= Obey(c, command).wanted <==> StaysBelowSurface(c.wanted, command)
  {
  }

  lemma {:induction false} ModeStays(c: Craft, commands: seq<Command>)
    ensures ObeyAll(c, commands).mode == c.mode
    decreases |commands|
  {
    if commands != [] { ModeStays(c, commands[..|commands| - 1]); }
  }

  /** The setpoint before call k of a run. */
  function WantedAt(c: Craft, commands: seq<Command>, k: nat): real
    requires k <= |commands|
  {
    ObeyAll(c, commands[..k]).wanted
  }

  lemma WantedMoves(c: Craft, commands: seq<Command>, k: nat)
    requires c.mode == FourAxis && k < |commands| && 0.0 <= WantedAt(c, commands, k)
    ensures 0.0 <= WantedAt(c, commands, k + 1) <==> StaysBelowSurface(WantedAt(c, commands, k), commands[k])
  {
    ModeStays(c, commands[..k]);
    assert commands[..k + 1][..k] == commands[..k];
    ObeyStaysBelowSurface(ObeyAll(c, commands[..k]), commands[k]);
  }

  /**
   Over every run in four-axis mode, from a setpoint in the water and with any controller: the
   setpoint never rises out of it if and only if no call asks it to. Nothing in the code holds a
   rise back.
   */
  lemma SetpointStaysInWaterIff(c: Craft, commands: seq<Command>)
    requires c.mode == FourAxis && 0.0 <= c.wanted
    ensures (forall k | 0 <= k <= |commands| :: 0.0 <= WantedAt(c, commands, k)) <==>
      (forall k | 0 <= k < |commands| :: StaysBelowSurface(WantedAt(c, commands, k), commands[k]))
  {
    var p := seq(|commands| + 1, k requires 0 <= k <= |commands| => 0.0 <= WantedAt(c, commands, k));
    var q := seq(|commands|, k requires 0 <= k < |commands| =>
      StaysBelowSurface(WantedAt(c, commands, k), commands[k]));
    assert commands[..0] == [];
    forall k | 0 <= k < |commands| && p[k] ensures p[k + 1] <==> q[k] {
      WantedMoves(c, commands, k);
    }
    Runs.HoldsAlong(p, q);
    assert forall k | 0 <= k <= |commands| :: p[k] <==> 0.0 <= WantedAt(c, commands, k);
    assert forall k | 0 <= k < |commands| :: q[k] <==> StaysBelowSurface(WantedAt(c, commands, k), commands[k]);
  }

  /** Every rise counts in full, with any controller: without dives the setpoint moves by the sum of all rises. */
  lemma {:induction false} RisesAddUp(c: Craft, commands: seq<Command>)
    requires c.mode == FourAxis
    requires forall command <- commands :: command.Rov? ==> command.z >= -5
    ensures ObeyAll(c, commands).wanted == c.wanted + Moves(commands)
    decreases |commands|
  {
    if commands != [] {
      var before := commands[..|commands| - 1];
      RisesAddUp(c, before);
      ModeStays(c, before);
    }
  }

  /** The output is always within the clamp, so the six-axis gate at 450 never closes. */
  lemma OutputIsClamped(c: Craft, command: Command)
    ensures AtMost(Obey(c, command).pid.output, 300.0)
  {
  }

  /** The setpoint the buttons alone would give. */
  function Buttons(first: real, commands: seq<Command>): real
    decreases |commands|
  {
    if commands == [] then first
    else
      var w := Buttons(first, commands[..|commands| - 1]);
      match commands[|commands| - 1]
      case Auv(RiseUp, _) => if w - 3.0 < 0.0 then 0.0 else w - 3.0
      case Auv(Dive, _) => w + 3.0
      case _ => w
  }

  /**
   Over every run in six-axis mode, loaded or not, the setpoint is what the buttons give, whatever
   the depths measured: the gate at 450 never holds a dive back.
   */
  lemma {:induction false} SixAxisFollowsButtons(first: Craft, commands: seq<Command>)
    requires first.mode == SixAxis && first.pid.output < 450.0
    ensures var c := ObeyAll(first, commands);
      c.mode == SixAxis && c.wanted == Buttons(first.wanted, commands) && c.pid.output < 450.0
    decreases |commands|
  {
    if commands != [] {
      var n := |commands| - 1;
      SixAxisFollowsButtons(first, commands[..n]);
      OutputIsClamped(ObeyAll(first, commands[..n]), commands[n]);
    }
  }

  /** So it has no bound: whatever the limit, enough dives pass it. */
  lemma {:induction false} DivesAddUp(first: real, commands: seq<Command>)
    requires forall command <- commands :: command.Auv? && command.action == Dive
    ensures Buttons(first, commands) == first + 3.0 * |commands| as real
    decreases |commands|
  {
    if commands != [] { DivesAddUp(first, commands[..|commands| - 1]); }
  }
}
