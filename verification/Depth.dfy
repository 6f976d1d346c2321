/** The depth setpoint, the controller that follows it, and the clamp between them. */
module Depth {
  import opened Filter
  import opened Pid
  import opened Propellers

  datatype Mode = FourAxis | SixAxis

  datatype Action = RiseUp | Dive | Stop

  /** Everything a depth command depends on. */
  datatype Craft = Craft(mode: Mode, wanted: real, pid: State)

  /** At program start: setpoint and controller zero, as statics are. */
  function Start(mode: Mode): Craft {
    Craft(mode, 0.0, ZERO)
  }

  /** Behind `PID_Init`: the controller has its table row. */
  function AfterInit(c: Craft): Craft {
    c.(pid := Loaded(ControlUnit(7)))
  }

  /** `Depth_PID_Control`: one controller call, then the clamp that writes back into it. */
  function Followed(c: Craft, depth: real): Craft {
    var p := PidStep(c.pid.(wanted := c.wanted, feedback := depth));
    c.(pid := p.(output := Cut(p.output, 300.0)))
  }

  /** The stick moves the setpoint; diving only while the output is below its clamp. */
  function RovWanted(c: Craft, z: int): real {
    if c.mode == FourAxis && z > 5 then c.wanted - z as real / 100.0
    else if c.mode == FourAxis && z < -5 && c.pid.output < 300.0 then c.wanted + (-z) as real / 100.0
    else c.wanted
  }

  /** The button moves the setpoint; diving only while the output is below 450. */
  function AuvWanted(c: Craft, action: Action): real {
    if c.mode != SixAxis then c.wanted
    else match action
      case RiseUp => if c.wanted - 3.0 < 0.0 then 0.0 else c.wanted - 3.0
      case Dive => if c.pid.output < 450.0 then c.wanted + 3.0 else c.wanted
      case Stop => c.wanted
  }

  datatype Command = Rov(z: int, depth: real) | Rotate(depth: real) | Auv(action: Action, depth: real)

  function Obey(c: Craft, command: Command): Craft {
    match command
    case Rov(z, depth) => Followed(c.(wanted := RovWanted(c, z)), depth)
    case Rotate(depth) => Followed(c, depth)
    case Auv(action, depth) => Followed(c.(wanted := AuvWanted(c, action)), depth)
  }

  function ObeyAll(c: Craft, commands: seq<Command>): Craft
    decreases |commands|
  {
    if commands == [] then c
    else Obey(ObeyAll(c, commands[..|commands| - 1]), commands[|commands| - 1])
  }

  class DepthController {
    const pid: PidController
    /** Where the controller's output stands in memory. */
    const outputAddress: nat
    var mode: Mode
    var wanted: real
    var leftMiddle: int
    var rightMiddle: int
    var trim: Trim

    function Value(): Craft
      reads this, pid
    {
      Craft(mode, wanted, pid.s)
    }

    /** The program's statics: nothing loaded, no direction turned, no error compensated. */
    constructor (mode: Mode, outputAddress: nat)
      ensures Value() == Start(mode) && fresh(pid)
      ensures trim == Trim(1, 1, 0, 0) && leftMiddle == rightMiddle == 0
    {
      this.mode := mode;
      this.outputAddress := outputAddress;
      wanted := 0.0;
      leftMiddle, rightMiddle, trim := 0, 0, Trim(1, 1, 0, 0);
      pid := new PidController();
    }

    /** `PID_Init` for the depth controller; nothing in the program calls it. */
    method Init()
      modifies pid`s
      ensures Value() == AfterInit(old(Value()))
    {
      pid.Init(7);
    }

    /**
     Clamps the output in place and sets both middle propellers. The test is on the address of
     the output, where its value is meant.
     */
    method UpDown(depthOutput: int)
      modifies this`leftMiddle, this`rightMiddle, pid`s
      ensures pid.s == old(pid.s).(output := Cut(old(pid.s.output), 300.0))
      ensures (leftMiddle, rightMiddle) == Split(trim, pid.s.output, depthOutput >= 0)
    {
      pid.s := pid.s.(output := if pid.s.output > 300.0 then 300.0 else pid.s.output);
      pid.s := pid.s.(output := if pid.s.output < -300.0 then -300.0 else pid.s.output);
      if depthOutput >= 0 {
        leftMiddle := Thrust(trim.leftDir, -pid.s.output - trim.leftError as real);
        rightMiddle := Thrust(trim.rightDir, -pid.s.output);
      } else {
        leftMiddle := Thrust(trim.leftDir, -pid.s.output);
        rightMiddle := Thrust(trim.rightDir, -pid.s.output + trim.rightError as real);
      }
    }

    method DepthPidControl(depth: real)
      modifies this`leftMiddle, this`rightMiddle, pid`s
      ensures Value() == Followed(old(Value()), depth)
      ensures var p := PidStep(old(pid.s).(wanted := wanted, feedback := depth));
        pid.s == p.(output := if p.output > 300.0 then 300.0 else if p.output < -300.0 then -300.0 else p.output)
      ensures (leftMiddle, rightMiddle) == Given(trim, pid.s.output)
    {
      pid.s := pid.s.(wanted := wanted);
      pid.s := pid.s.(feedback := depth);
      var output := pid.PidControl();
      UpDown(outputAddress);
    }

    method RovDepthControl(z: int, depth: real)
      modifies this`wanted, this`leftMiddle, this`rightMiddle, pid`s
      ensures Value() == Obey(old(Value()), Rov(z, depth))
      ensures mode == FourAxis && z > 5 ==> wanted == old(wanted) - z as real / 100.0
      ensures mode == FourAxis && z < -5 ==>
        wanted == if old(pid.s.output) < 300.0 then old(wanted) - z as real / 100.0 else old(wanted)
      ensures mode == SixAxis || -5 <= z <= 5 ==> wanted == old(wanted)
    {
      if mode == FourAxis {
        if z > 5 {
          wanted := wanted - z as real / 100.0;
        } else if z < -5 {
          if pid.s.output < 300.0 {
            wanted := wanted + (-z) as real / 100.0;
          }
        }
      }
      DepthPidControl(depth);
    }

    method AuvDepthControl(action: Action, depth: real)
      modifies this`wanted, this`leftMiddle, this`rightMiddle, pid`s
      ensures Value() == Obey(old(Value()), Auv(action, depth))
      ensures mode == SixAxis && action == RiseUp ==>
        wanted == if old(wanted) < 3.0 then 0.0 else old(wanted) - 3.0
      ensures mode == SixAxis && action == Dive ==>
        wanted == if old(pid.s.output) < 450.0 then old(wanted) + 3.0 else old(wanted)
      ensures mode == FourAxis || action == Stop ==> wanted == old(wanted)
    {
      if mode == SixAxis {
        match action {
          case RiseUp =>
            wanted := wanted - 3.0;
            if wanted < 0.0 {
              wanted := 0.0;
            }
          case Dive =>
            if pid.s.output < 450.0 {
              wanted := wanted + 3.0;
            }
          case Stop =>
        }
      }
      DepthPidControl(depth);
    }
  }
}
