/**
 Logging threads and the output thread as interleaved steps over the shared ring, the
 output lock and the notice semaphore. Each step is one atomic action of the code; the
 ring is the bounded queue it refines.
 */
module AsyncLog {
  import opened AsyncRing

  const RING_SIZE: nat := 51200
  const POLL_SIZE: nat := 508
  const ASYNC_LEVEL: nat := 4

  datatype Thread = Nobody | Logger(id: nat) | Output

  /** A logger holds the output lock in every place but Outside. */
  datatype LoggerPc = Outside | Building(level: nat, log: seq<char>) | Posting | Leaving

  /** The output thread holds the lock while Copying and Unlocking. */
  datatype OutputPc = Waiting | Polling | Copying | Unlocking(chunk: seq<char>) | Printing(chunk: seq<char>)

  /**
   Printed and shown means handed to the port, which stops at a terminator inside a chunk.
   `printed` and `accepted` are the bytes that left and entered the ring; `shown` and `logged`
   also have the bytes of records that are put out directly, where they were put out and where
   they were logged.
   */
  datatype System = System(
    enabled: bool,
    queue: seq<char>,
    notices: nat,
    holder: Thread,
    loggers: seq<LoggerPc>,
    output: OutputPc,
    printed: seq<char>,
    accepted: seq<char>,
    shown: seq<char>,
    logged: seq<char>)

  datatype Step =
    | Enable(flag: bool)
    | Enter(i: nat, level: nat, log: seq<char>)
    | Submit(i: nat)
    | Post(i: nat)
    | Leave(i: nat)
    | Wait
    | Lock
    | Copy
    | Unlock
    | Print

  function Init(threads: nat): System {
    System(false, [], 0, Nobody, seq(threads, _ => Outside), Waiting, [], [], [], [])
  }

  /** When a step can be taken. Records sent to the ring are never empty. */
  predicate Possible(s: System, step: Step) {
    match step
    case Enable(_) => true
    case Enter(i, level, log) =>
      i < |s.loggers| && s.loggers[i] == Outside && s.holder == Nobody && (ASYNC_LEVEL <= level ==> log != [])
    case Submit(i) => i < |s.loggers| && s.loggers[i].Building?
    case Post(i) => i < |s.loggers| && s.loggers[i] == Posting
    case Leave(i) => i < |s.loggers| && s.loggers[i] == Leaving
    case Wait => s.output == Waiting && 0 < s.notices
    case Lock => s.output == Polling && s.holder == Nobody
    case Copy => s.output == Copying
    case Unlock => s.output.Unlocking?
    case Print => s.output.Printing?
  }

  function Next(s: System, step: Step): System
    requires Possible(s, step) && |s.queue| <= RING_SIZE
  {
    match step
    case Enable(flag) => s.(enabled := flag)
    case Enter(i, level, log) => s.(holder := Logger(i), loggers := s.loggers[i := Building(level, log)])
    case Submit(i) =>
      var Building(level, log) := s.loggers[i];
      if s.enabled && ASYNC_LEVEL <= level then
        var put := Accepted(s.queue, log, RING_SIZE);
        s.(queue := Put(s.queue, log, RING_SIZE),
           accepted := s.accepted + log[..put],
           logged := s.logged + log[..put],
           loggers := s.loggers[i := if 0 < put then Posting else Leaving])
      else
        s.(shown := s.shown + log, logged := s.logged + log, loggers := s.loggers[i := Leaving])
    case Post(i) => s.(notices := s.notices + 1, loggers := s.loggers[i := Leaving])
    case Leave(i) => s.(holder := Nobody, loggers := s.loggers[i := Outside])
    case Wait => s.(notices := s.notices - 1, output := Polling)
    case Lock => s.(holder := Output, output := Copying)
    case Copy =>
      var n := Delivered(s.queue, POLL_SIZE);
      s.(queue := s.queue[n..], output := Unlocking(s.queue[..n]))
    case Unlock => s.(holder := Nobody, output := Printing(s.output.chunk))
    case Print =>
      if s.output.chunk == [] then s.(output := Waiting)
      else s.(printed := s.printed + s.output.chunk, shown := s.shown + s.output.chunk, output := Polling)
  }

  /** The bytes the output thread has taken and not yet printed. */
  function InHand(s: System): seq<char> {
    match s.output
    case Unlocking(chunk) => chunk
    case Printing(chunk) => chunk
    case _ => []
  }

  /** The output thread found the ring empty and is on its way to sleep, or sleeps. */
  predicate GoingToSleep(s: System) {
    s.output == Waiting || s.output == Unlocking([]) || s.output == Printing([])
  }

  /** A logger has put bytes and is about to post the notice. */
  predicate NoticeComing(s: System) {
    s.holder.Logger? && s.holder.id < |s.loggers| && s.loggers[s.holder.id] == Posting
  }

  ghost predicate Exclusive(s: System) {
    (forall i | 0 <= i < |s.loggers| :: s.loggers[i] != Outside <==> s.holder == Logger(i)) &&
    (s.holder.Logger? ==> s.holder.id < |s.loggers|) &&
    (s.holder == Output <==> s.output == Copying || s.output.Unlocking?)
  }

  ghost predicate Invariant(s: System) {
    |s.queue| <= RING_SIZE &&
    Exclusive(s) &&
    s.printed + InHand(s) + s.queue == s.accepted &&
    (GoingToSleep(s) && s.queue != [] ==> 0 < s.notices || NoticeComing(s)) &&
    (forall i | 0 <= i < |s.loggers| && s.loggers[i].Building? && ASYNC_LEVEL <= s.loggers[i].level ::
      s.loggers[i].log != [])
  }

  lemma InitHolds(threads: nat)
    ensures Invariant(Init(threads))
  {
  }

  lemma ExclusiveKept(s: System, step: Step)
    requires |s.queue| <= RING_SIZE && Exclusive(s) && Possible(s, step)
    ensures Exclusive(Next(s, step))
  {
  }

  lemma BytesKept(s: System, step: Step)
    requires Invariant(s) && Possible(s, step)
    ensures var t := Next(s, step); t.printed + InHand(t) + t.queue == t.accepted
  {
    var t := Next(s, step);
    match step
    case Submit(i) =>
      var Building(level, log) := s.loggers[i];
      var put := Accepted(s.queue, log, RING_SIZE);
      assert s.printed + InHand(s) + (s.queue + log[..put]) == s.printed + InHand(s) + s.queue + log[..put];
    case Copy =>
      assert s.queue == InHand(t) + t.queue;
      assert s.printed + [] + (InHand(t) + t.queue) == s.printed + InHand(t) + t.queue;
    case Print =>
      assert t.printed + [] == s.printed + InHand(s);
    case _ =>
  }

  lemma WakeupKept(s: System, step: Step)
    requires Invariant(s) && Possible(s, step)
    ensures var t := Next(s, step); GoingToSleep(t) && t.queue != [] ==> 0 < t.notices || NoticeComing(t)
  {
  }

  /** Every step keeps the invariant. */
  lemma StepKeepsInvariant(s: System, step: Step)
    requires Invariant(s) && Possible(s, step)
    ensures Invariant(Next(s, step))
  {
    ExclusiveKept(s, step);
    BytesKept(s, step);
    WakeupKept(s, step);
  }

  /** t is reached from s by the steps. */
  ghost predicate Run(s: System, steps: seq<Step>, t: System)
    decreases steps
  {
    if steps == [] then s == t
    else |s.queue| <= RING_SIZE && Possible(s, steps[0]) && Run(Next(s, steps[0]), steps[1..], t)
  }

  lemma {:induction false} RunKeepsInvariant(s: System, steps: seq<Step>, t: System)
    requires Invariant(s) && Run(s, steps, t)
    ensures Invariant(t)
    decreases steps
  {
    if steps != [] {
      StepKeepsInvariant(s, steps[0]);
      RunKeepsInvariant(Next(s, steps[0]), steps[1..], t);
    }
  }

  /** In every reachable state, printed, taken and queued bytes are the accepted ones, in order. */
  lemma NothingLostOrReordered(threads: nat, steps: seq<Step>, t: System)
    requires Run(Init(threads), steps, t)
    ensures t.printed + InHand(t) + t.queue == t.accepted
  {
    InitHolds(threads);
    RunKeepsInvariant(Init(threads), steps, t);
  }

  /** No notice is lost: the output thread never sleeps on a filled ring without one pending. */
  lemma NoLostWakeup(threads: nat, steps: seq<Step>, t: System)
    requires Run(Init(threads), steps, t)
    requires t.output == Waiting && t.queue != []
    requires forall i | 0 <= i < |t.loggers| :: t.loggers[i] != Posting
    ensures 0 < t.notices
  {
    InitHolds(threads);
    RunKeepsInvariant(Init(threads), steps, t);
  }

  /** Steps that finish work already begun. */
  predicate Finishing(step: Step) {
    !step.Enable? && !step.Enter?
  }

  function LoggerWork(s: System): nat {
    if s.holder.Logger? && s.holder.id < |s.loggers| then
      match s.loggers[s.holder.id]
      case Outside => 0
      case Building(_, log) => 10 * |log| + 13
      case Posting => 12
      case Leaving => 1
    else 0
  }

  function OutputWork(s: System): nat {
    match s.output
    case Waiting => 0
    case Printing(chunk) => if chunk == [] then 1 else 5
    case Unlocking(chunk) => if chunk == [] then 2 else 6
    case Copying => 3
    case Polling => 4
  }

  /** A bound on the finishing steps still to come. */
  function Work(s: System): nat {
    10 * |s.queue| + 10 * s.notices + LoggerWork(s) + OutputWork(s)
  }

  lemma FinishingShrinksWork(s: System, step: Step)
    requires Invariant(s) && Possible(s, step) && Finishing(step)
    ensures Work(Next(s, step)) < Work(s)
  {
  }

  /** Once nobody starts a new record, every run is short, whatever the scheduling. */
  lemma {:induction false} FinishingRunIsBounded(s: System, steps: seq<Step>, t: System)
    requires Invariant(s) && Run(s, steps, t)
    requires forall step <- steps :: Finishing(step)
    ensures |steps| + Work(t) <= Work(s)
    decreases steps
  {
    if steps != [] {
      FinishingShrinksWork(s, steps[0]);
      StepKeepsInvariant(s, steps[0]);
      FinishingRunIsBounded(Next(s, steps[0]), steps[1..], t);
    }
  }

  /** Whoever holds the lock, or has work in hand or a notice to take, can move. */
  lemma BusyMeansPossible(s: System) returns (step: Step)
    requires Invariant(s)
    requires s.holder != Nobody || s.output != Waiting || 0 < s.notices
    ensures Finishing(step) && Possible(s, step)
  {
    match s.holder
    case Logger(i) =>
      step := match s.loggers[i] case Building(_, _) => Submit(i) case Posting => Post(i) case _ => Leave(i);
    case _ =>
      step := match s.output
        case Waiting => Wait
        case Polling => Lock
        case Copying => Copy
        case Unlocking(_) => Unlock
        case Printing(_) => Print;
  }

  /** No deadlock: when nothing can move, everything accepted has been printed. */
  lemma StuckMeansAllPrinted(s: System)
    requires Invariant(s)
    requires forall step | Finishing(step) :: !Possible(s, step)
    ensures s.printed == s.accepted && s.queue == [] && s.output == Waiting && s.notices == 0 && s.holder == Nobody
  {
    if s.holder != Nobody || s.output != Waiting || 0 < s.notices {
      var step := BusyMeansPossible(s);
    }
    assert s.printed + [] + [] == s.printed;
  }

  /**
   Delivery: from any reachable state, once nobody starts a new record, every schedule runs
   out of steps after at most Work of them, and then exactly the accepted bytes are printed.
   */
  lemma EveryScheduleDelivers(threads: nat, before: seq<Step>, s: System, after: seq<Step>, t: System)
    requires Run(Init(threads), before, s) && Run(s, after, t)
    requires forall step <- after :: Finishing(step)
    ensures |after| <= Work(s)
    ensures (forall step | Finishing(step) :: !Possible(t, step)) ==> t.printed == t.accepted && t.queue == []
  {
    InitHolds(threads);
    RunKeepsInvariant(Init(threads), before, s);
    FinishingRunIsBounded(s, after, t);
    RunKeepsInvariant(s, after, t);
    if forall step | Finishing(step) :: !Possible(t, step) {
      StuckMeansAllPrinted(t);
    }
  }

  /** The bytes in hand and in the ring, in the order they will be printed. */
  function Pending(s: System): seq<char> {
    InHand(s) + s.queue
  }

  /** What has been shown, and then what is pending, is what was logged, in order. */
  predicate InOrder(s: System) {
    s.shown + Pending(s) == s.logged
  }

  /** A direct record is put out in front of pending bytes, and that makes a difference. */
  predicate Overtakes(s: System, step: Step)
    requires Possible(s, step)
  {
    step.Submit? && !(s.enabled && ASYNC_LEVEL <= s.loggers[step.i].level) &&
    s.loggers[step.i].log + Pending(s) != Pending(s) + s.loggers[step.i].log
  }

  lemma Cancel(a: seq<char>, b: seq<char>, c: seq<char>)
    ensures a + b == a + c <==> b == c
  {
    if a + b == a + c {
      assert b == (a + b)[|a|..] && c == (a + c)[|a|..];
    }
  }

  lemma Associate(a: seq<char>, b: seq<char>, c: seq<char>)
    ensures a + b + c == a + (b + c)
  {
  }

  lemma PrintKeepsOrder(shown: seq<char>, chunk: seq<char>, queue: seq<char>)
    ensures shown + (chunk + queue) == shown + chunk + ([] + queue)
  {
  }

  lemma CopyKeepsOrder(queue: seq<char>, n: nat)
    requires n <= |queue|
    ensures [] + queue == queue[..n] + queue[n..]
  {
  }

  /** A step keeps the order of the output exactly when it does not overtake. */
  lemma StepKeepsOrderIff(s: System, step: Step)
    requires Invariant(s) && InOrder(s) && Possible(s, step)
    ensures InOrder(Next(s, step)) <==> !Overtakes(s, step)
  {
    match step
    case Submit(i) =>
      var Building(level, log) := s.loggers[i];
      if s.enabled && ASYNC_LEVEL <= level {
        var put := log[..Accepted(s.queue, log, RING_SIZE)];
        Associate(InHand(s), s.queue, put);
        Associate(s.shown, Pending(s), put);
      } else {
        Associate(s.shown, log, Pending(s));
        Associate(s.shown, Pending(s), log);
        Cancel(s.shown, log + Pending(s), Pending(s) + log);
      }
    case Copy => CopyKeepsOrder(s.queue, Delivered(s.queue, POLL_SIZE));
    case Print => PrintKeepsOrder(s.shown, InHand(s), s.queue);
    case _ =>
  }

  /** The output is in order in every state of a run. */
  predicate AlwaysInOrder(s: System, steps: seq<Step>)
    requires CanRun(s, steps)
    decreases steps
  {
    InOrder(s) && (steps == [] || AlwaysInOrder(Next(s, steps[0]), steps[1..]))
  }

  predicate NeverOvertakes(s: System, steps: seq<Step>)
    requires CanRun(s, steps)
    decreases steps
  {
    steps == [] || (!Overtakes(s, steps[0]) && NeverOvertakes(Next(s, steps[0]), steps[1..]))
  }

  predicate CanRun(s: System, steps: seq<Step>)
    decreases steps
  {
    |s.queue| <= RING_SIZE && (steps == [] || (Possible(s, steps[0]) && CanRun(Next(s, steps[0]), steps[1..])))
  }

  /** Over every run the output stays in the order of logging if and only if no direct record overtakes. */
  lemma {:induction false} OutputIsInOrderIff(s: System, steps: seq<Step>)
    requires Invariant(s) && InOrder(s) && CanRun(s, steps)
    ensures AlwaysInOrder(s, steps) <==> NeverOvertakes(s, steps)
    decreases steps
  {
    if steps != [] {
      var t := Next(s, steps[0]);
      StepKeepsInvariant(s, steps[0]);
      StepKeepsOrderIff(s, steps[0]);
      if InOrder(t) {
        OutputIsInOrderIff(t, steps[1..]);
      }
    }
  }

  /** A direct record that begins unlike the pending bytes overtakes them. */
  lemma DifferentRecordsOvertake(s: System, i: nat)
    requires Invariant(s) && InOrder(s) && Possible(s, Submit(i))
    requires s.loggers[i].level < ASYNC_LEVEL
    requires s.loggers[i].log != [] && Pending(s) != [] && s.loggers[i].log[0] != Pending(s)[0]
    ensures !InOrder(Next(s, Submit(i)))
  {
    StepKeepsOrderIff(s, Submit(i));
    var log := s.loggers[i].log;
    assert (log + Pending(s))[0] == log[0] && (Pending(s) + log)[0] == Pending(s)[0];
  }

  lemma RunFromStep(s: System, step: Step, rest: seq<Step>, t: System)
    requires |s.queue| <= RING_SIZE && Possible(s, step) && Run(Next(s, step), rest, t)
    ensures Run(s, [step] + rest, t)
  {
    assert ([step] + rest)[1..] == rest;
  }

  lemma SecondIsShownFirst(s: System, t: System)
    requires s == System(true, "old", 1, Nobody, [Outside], Waiting, [], "old", [], "old")
    requires t == System(true, "old", 1, Logger(0), [Leaving], Waiting, [], "old", "new", "oldnew")
    ensures Run(s, [Enter(0, 3, "new")] + ([Submit(0)] + []), t)
  {
    var building := Next(s, Enter(0, 3, "new"));
    assert [] + "new" == "new" && "old" + "new" == "oldnew";
    RunFromStep(building, Submit(0), [], t);
    RunFromStep(s, Enter(0, 3, "new"), [Submit(0)] + [], t);
  }

  lemma FirstGoesToRing(s: System, rest: seq<Step>, t: System)
    requires s == System(true, "old", 1, Nobody, [Outside], Waiting, [], "old", [], "old") && Run(s, rest, t)
    ensures Run(Init(1), [Enable(true)] + ([Enter(0, 4, "old")] + ([Submit(0)] + ([Post(0)] + ([Leave(0)] + rest)))), t)
  {
    var s1 := Next(Init(1), Enable(true));
    var s2 := Next(s1, Enter(0, 4, "old"));
    var s3 := Next(s2, Submit(0));
    assert Put([], "old", RING_SIZE) == "old" && [] + "old" == "old";
    var s4 := Next(s3, Post(0));
    var s5 := Next(s4, Leave(0));
    assert s5.loggers == [Outside] && s5.queue == "old";
    RunFromStep(s4, Leave(0), rest, t);
    RunFromStep(s3, Post(0), [Leave(0)] + rest, t);
    RunFromStep(s2, Submit(0), [Post(0)] + ([Leave(0)] + rest), t);
    RunFromStep(s1, Enter(0, 4, "old"), [Submit(0)] + ([Post(0)] + ([Leave(0)] + rest)), t);
    RunFromStep(Init(1), Enable(true), [Enter(0, 4, "old")] + ([Submit(0)] + ([Post(0)] + ([Leave(0)] + rest))), t);
  }

  /** It happens: a record for the ring, then one below its level, and the second is shown first. */
  lemma OvertakingHappens() returns (steps: seq<Step>, t: System)
    ensures Run(Init(1), steps, t) && t.logged == "oldnew" && t.shown == "new" && Pending(t) == "old"
  {
    var s := System(true, "old", 1, Nobody, [Outside], Waiting, [], "old", [], "old");
    t := System(true, "old", 1, Logger(0), [Leaving], Waiting, [], "old", "new", "oldnew");
    var rest := [Enter(0, 3, "new")] + ([Submit(0)] + []);
    SecondIsShownFirst(s, t);
    FirstGoesToRing(s, rest, t);
    steps := [Enable(true)] + ([Enter(0, 4, "old")] + ([Submit(0)] + ([Post(0)] + ([Leave(0)] + rest))));
  }

  /** A record of debug or verbose level goes to the ring while that is enabled; any other is shown at once. */
  lemma SubmitGoesTwoWays(s: System, i: nat)
    requires Invariant(s) && Possible(s, Submit(i))
    ensures var Building(level, log) := s.loggers[i];
      var t := Next(s, Submit(i));
      if s.enabled && 4 <= level then
        t.shown == s.shown &&
        (exists n :: 0 <= n <= |log| && t.queue == s.queue + log[..n] && (n == |log| || |t.queue| == RING_SIZE))
      else t.queue == s.queue && t.shown == s.shown + log
  {
    var Building(level, log) := s.loggers[i];
    if s.enabled && ASYNC_LEVEL <= level {
      var n := Accepted(s.queue, log, RING_SIZE);
      assert Next(s, Submit(i)).queue == s.queue + log[..n];
    }
  }

  /** What the output thread takes at once is at most its buffer's size, and all there is if that is less. */
  lemma CopyTakesWhatFits(s: System)
    requires Invariant(s) && Possible(s, Copy)
    ensures var t := Next(s, Copy);
      |InHand(t)| <= 508 && s.queue == InHand(t) + t.queue && (|InHand(t)| == 508 || t.queue == [])
  {
  }
}
