/**
 Eight servo pulses from one thread: all pins rise together, the pulse widths are
 sorted, and the differences between them are waited for one after the other.
 */
module SoftServo {

  const MAX_SERVOS: nat := 8
  const UNUSED: int := -1
  const FRAME: int := 8000

  datatype Event = High(pin: int) | Delay(us: int) | Low(pin: int)

  /** A pulse width and the pin it belongs to. */
  type Pulse = (int, int)

  function Pairs(delays: seq<int>, pins: seq<int>): (r: seq<Pulse>)
    requires |delays| == |pins|
    ensures |r| == |delays|
    ensures forall i | 0 <= i < |r| :: r[i] == (delays[i], pins[i])
  {
    seq(|delays|, i requires 0 <= i < |delays| => (delays[i], pins[i]))
  }

  /** The pulses of pins in use. */
  function Active(pulses: seq<Pulse>): (r: seq<Pulse>)
    decreases |pulses|
  {
    if pulses == [] then []
    else
      var n := |pulses| - 1;
      if pulses[n].1 == UNUSED then Active(pulses[..n]) else Active(pulses[..n]) + [pulses[n]]
  }

  lemma {:induction false} ActiveCounts(pulses: seq<Pulse>, x: Pulse)
    ensures multiset(Active(pulses))[x] == if x.1 == UNUSED then 0 else multiset(pulses)[x]
    decreases |pulses|
  {
    if pulses != [] {
      var n := |pulses| - 1;
      assert pulses == pulses[..n] + [pulses[n]];
      ActiveCounts(pulses[..n], x);
    }
  }

  /** Reordering pulses reorders the active ones. */
  lemma ActiveOfPermutation(a: seq<Pulse>, b: seq<Pulse>)
    requires multiset(a) == multiset(b)
    ensures multiset(Active(a)) == multiset(Active(b))
  {
    forall x ensures multiset(Active(a))[x] == multiset(Active(b))[x] {
      ActiveCounts(a, x);
      ActiveCounts(b, x);
    }
  }

  /** Total waiting time of a stretch of events. */
  function Elapsed(events: seq<Event>): int
    decreases |events|
  {
    if events == [] then 0
    else
      var n := |events| - 1;
      Elapsed(events[..n]) + (if events[n].Delay? then events[n].us else 0)
  }

  /** When each pin goes low, counted from the start. */
  function LowEdges(events: seq<Event>): seq<Pulse>
    decreases |events|
  {
    if events == [] then []
    else
      var n := |events| - 1;
      if events[n].Low? then LowEdges(events[..n]) + [(Elapsed(events[..n]), events[n].pin)] else LowEdges(events[..n])
  }

  /** When each pin goes high. */
  function HighEdges(events: seq<Event>): seq<Pulse>
    decreases |events|
  {
    if events == [] then []
    else
      var n := |events| - 1;
      if events[n].High? then HighEdges(events[..n]) + [(Elapsed(events[..n]), events[n].pin)]
        else HighEdges(events[..n])
  }

  /** Only waits take time, and a pin changes when all the waits before it are over. */
  lemma EdgesStandAtWaits(events: seq<Event>, us: int, pin: int)
    ensures Elapsed([]) == 0 && Elapsed(events + [Delay(us)]) == Elapsed(events) + us
    ensures Elapsed(events + [High(pin)]) == Elapsed(events + [Low(pin)]) == Elapsed(events)
    ensures HighEdges([]) == [] && HighEdges(events + [High(pin)]) == HighEdges(events) + [(Elapsed(events), pin)]
    ensures HighEdges(events + [Low(pin)]) == HighEdges(events + [Delay(us)]) == HighEdges(events)
    ensures LowEdges([]) == [] && LowEdges(events + [Low(pin)]) == LowEdges(events) + [(Elapsed(events), pin)]
    ensures LowEdges(events + [High(pin)]) == LowEdges(events + [Delay(us)]) == LowEdges(events)
  {
    assert (events + [Delay(us)])[..|events|] == events;
    assert (events + [High(pin)])[..|events|] == events;
    assert (events + [Low(pin)])[..|events|] == events;
  }

  /** No wait is negative. */
  predicate Waitable(events: seq<Event>) {
    forall e <- events :: e.Delay? ==> 0 <= e.us
  }

  predicate Sorted(s: seq<int>) {
    forall i, j | 0 <= i < j < |s| :: s[i] <= s[j]
  }

  ghost predicate GapSorted(s: seq<int>, gap: nat) {
    forall a, b | 0 <= a < b < |s| && b == a + gap :: s[a] <= s[b]
  }

  lemma {:induction false} NeighboursSorted(s: seq<int>)
    requires GapSorted(s, 1)
    ensures Sorted(s)
    decreases |s|
  {
    if s != [] {
      var n := |s| - 1;
      NeighboursSorted(s[..n]);
      if 0 < n { assert s[n - 1] <= s[n]; }
      assert forall i | 0 <= i < n :: s[..n][i] == s[i];
    }
  }

  /** Which pulses there are, and which pins, regardless of order. */
  function Tally(delays: seq<int>, pins: seq<int>): (multiset<Pulse>, multiset<int>)
    requires |delays| == |pins|
  {
    (multiset(Pairs(delays, pins)), multiset(pins))
  }

  /** Exchanging two entries of both sequences keeps the tally. */
  lemma SwapKeepsTally(d: seq<int>, p: seq<int>, i: nat, k: nat)
    requires |d| == |p| && i < |d| && k < |d|
    ensures Tally(d[i := d[k]][k := d[i]], p[i := p[k]][k := p[i]]) == Tally(d, p)
  {
    var a := Pairs(d, p);
    assert Pairs(d[i := d[k]][k := d[i]], p[i := p[k]][k := p[i]]) == a[i := a[k]][k := a[i]];
    SwapKeepsMultiset(a, i, k);
    SwapKeepsMultiset(p, i, k);
  }

  lemma SwapKeepsMultiset<T>(s: seq<T>, i: nat, k: nat)
    requires i < |s| && k < |s|
    ensures multiset(s[i := s[k]][k := s[i]]) == multiset(s)
  {
  }

  method Swap(d: array<int>, p: array<int>, i: nat, k: nat)
    requires d != p && d.Length == p.Length && i < d.Length && k < d.Length
    modifies d, p
    ensures d[..] == old(d[..])[i := old(d[k])][k := old(d[i])]
    ensures Tally(d[..], p[..]) == old(Tally(d[..], p[..]))
  {
    SwapKeepsTally(d[..], p[..], i, k);
    ghost var d0, p0 := d[..], p[..];
    var tmp := d[i];
    d[i] := d[k];
    d[k] := tmp;
    tmp := p[i];
    p[i] := p[k];
    p[k] := tmp;
    assert d[..] == d0[i := d0[k]][k := d0[i]];
    assert p[..] == p0[i := p0[k]][k := p0[i]];
  }

  /** Entries before `end` are in order with the one a gap before them, except perhaps at k. */
  ghost predicate SortedBut(d: seq<int>, gap: nat, end: int, k: int)
    requires 0 < gap && end <= |d|
  {
    (forall a, b | 0 <= a < b < end && b == a + gap && b != k :: d[a] <= d[b]) &&
    (gap <= k && k + gap < end ==> d[k - gap] <= d[k + gap])
  }

  /** Moving the odd entry one gap down keeps everything behind it in order. */
  lemma SwapSinks(d: seq<int>, gap: nat, end: int, k: nat)
    requires 0 < gap <= k < end <= |d| && SortedBut(d, gap, end, k) && d[k] < d[k - gap]
    ensures SortedBut(d[k - gap := d[k]][k := d[k - gap]], gap, end, k - gap)
  {
  }

  /** The gapped insertion sort over both arrays at once. */
  method SortDelays(d: array<int>, p: array<int>)
    requires d != p && d.Length == p.Length
    modifies d, p
    ensures Sorted(d[..])
    ensures Tally(d[..], p[..]) == old(Tally(d[..], p[..]))
  {
    var m := d.Length / 2;
    while m > 0
      invariant 0 <= m && (m == 0 ==> GapSorted(d[..], 1))
      invariant Tally(d[..], p[..]) == old(Tally(d[..], p[..]))
    {
      SortPass(d, p, m);
      m := m / 2;
    }
    NeighboursSorted(d[..]);
  }

  method SortPass(d: array<int>, p: array<int>, m: nat)
    requires d != p && d.Length == p.Length && 0 < m
    modifies d, p
    ensures GapSorted(d[..], m)
    ensures Tally(d[..], p[..]) == old(Tally(d[..], p[..]))
  {
    var j := m;
    while j < d.Length
      invariant m <= j
      invariant j <= d.Length ==> SortedBut(d[..], m, j, -1)
      invariant d.Length < j ==> d.Length < m
      invariant Tally(d[..], p[..]) == old(Tally(d[..], p[..]))
    {
      Sink(d, p, m, j);
      j := j + 1;
    }
  }

  /** The innermost loop: entry j moves down by gaps until it is in order. */
  method Sink(d: array<int>, p: array<int>, m: nat, j: nat)
    requires d != p && d.Length == p.Length && 0 < m <= j < d.Length
    requires SortedBut(d[..], m, j, -1)
    modifies d, p
    ensures SortedBut(d[..], m, j + 1, -1)
    ensures Tally(d[..], p[..]) == old(Tally(d[..], p[..]))
  {
    var i := j - m;
    while i >= 0
      invariant 0 <= i + m <= j
      invariant SortedBut(d[..], m, j + 1, i + m)
      invariant Tally(d[..], p[..]) == old(Tally(d[..], p[..]))
    {
      var k := i + m;
      if d[k] >= d[i] {
        break;
      } else {
        SwapDown(d, p, m, j, k);
      }
      i := i - m;
    }
  }

  method SwapDown(d: array<int>, p: array<int>, m: nat, j: nat, k: nat)
    requires d != p && d.Length == p.Length && 0 < m <= k <= j < d.Length
    requires SortedBut(d[..], m, j + 1, k) && d[k] < d[k - m]
    modifies d, p
    ensures SortedBut(d[..], m, j + 1, k - m)
    ensures Tally(d[..], p[..]) == old(Tally(d[..], p[..]))
  {
    SwapSinks(d[..], m, j + 1, k);
    Swap(d, p, k - m, k);
  }

  /** The width of the last active pulse among the first n, or zero. */
  function LastActive(d: seq<int>, p: seq<int>, n: nat): int
    requires |d| == |p| && n <= |d|
  {
    if n == 0 then 0
    else if p[n - 1] == UNUSED then LastActive(d, p, n - 1)
    else d[n - 1]
  }

  /** The waits the second loop uses: each active width less the active width before it. */
  ghost predicate AreDifferences(w: seq<int>, d: seq<int>, p: seq<int>, n: nat)
    requires |w| == |d| == |p| && n <= |d|
  {
    forall k | 0 <= k < n :: w[k] == if p[k] == UNUSED then d[k] else d[k] - LastActive(d, p, k)
  }

  function HighEvents(p: seq<int>, n: nat): seq<Event>
    requires n <= |p|
  {
    if n == 0 then []
    else if p[n - 1] == UNUSED then HighEvents(p, n - 1)
    else HighEvents(p, n - 1) + [High(p[n - 1])]
  }

  function OffEvents(w: seq<int>, p: seq<int>, n: nat): seq<Event>
    requires |w| == |p| && n <= |w|
  {
    if n == 0 then []
    else if p[n - 1] == UNUSED then OffEvents(w, p, n - 1)
    else OffEvents(w, p, n - 1) + [Delay(w[n - 1]), Low(p[n - 1])]
  }

  lemma {:induction false} HighEventsTakeNoTime(p: seq<int>, n: nat)
    requires n <= |p|
    ensures Elapsed(HighEvents(p, n)) == 0 && LowEdges(HighEvents(p, n)) == [] && Waitable(HighEvents(p, n))
    ensures RiseAtZero(HighEvents(p, n), multiset(p[..n]))
  {
    if 0 < n {
      HighEventsTakeNoTime(p, n - 1);
      assert p[..n] == p[..n - 1] + [p[n - 1]];
      if p[n - 1] != UNUSED {
        var before := HighEvents(p, n - 1);
        assert HighEvents(p, n)[..|before|] == before;
      }
    }
  }

  /** The pins rise at time zero, each as often as it is in use, and nothing rises later. */
  ghost predicate RiseAtZero(events: seq<Event>, pins: multiset<int>) {
    forall x: Pulse :: multiset(HighEdges(events))[x] == if x.0 == 0 && x.1 != UNUSED then pins[x.1] else 0
  }

  /** A wait and a falling edge at the end of a stretch. */
  lemma WaitThenLow(before: seq<Event>, us: int, pin: int)
    ensures var events := before + [Delay(us), Low(pin)];
      Elapsed(events) == Elapsed(before) + us &&
      LowEdges(events) == LowEdges(before) + [(Elapsed(before) + us, pin)] && HighEdges(events) == HighEdges(before)
  {
    var waited := before + [Delay(us)];
    var events := before + [Delay(us), Low(pin)];
    assert waited[..|before|] == before;
    assert events[..|before| + 1] == waited;
  }

  /** Waiting out the differences drops each pin exactly at its own width. */
  lemma {:induction false} RunningSums(highs: seq<Event>, w: seq<int>, d: seq<int>, p: seq<int>, n: nat)
    requires |w| == |d| == |p| && n <= |d| && AreDifferences(w, d, p, |d|)
    requires Elapsed(highs) == 0 && LowEdges(highs) == []
    ensures var events := highs + OffEvents(w, p, n);
      Elapsed(events) == LastActive(d, p, n) &&
      LowEdges(events) == Active(Pairs(d, p)[..n]) && HighEdges(events) == HighEdges(highs)
  {
    if n == 0 {
      assert highs + OffEvents(w, p, 0) == highs;
    } else {
      RunningSums(highs, w, d, p, n - 1);
      ActiveGrows(Pairs(d, p), n);
      if p[n - 1] != UNUSED {
        var before := highs + OffEvents(w, p, n - 1);
        var events := before + [Delay(w[n - 1]), Low(p[n - 1])];
        WaitThenLow(before, w[n - 1], p[n - 1]);
        assert Elapsed(before) + w[n - 1] == d[n - 1];
        assert highs + OffEvents(w, p, n) == events;
      }
    }
  }

  lemma ActiveGrows(pulses: seq<Pulse>, n: nat)
    requires 0 < n <= |pulses|
    ensures Active(pulses[..n]) ==
      if pulses[n - 1].1 == UNUSED then Active(pulses[..n - 1]) else Active(pulses[..n - 1]) + [pulses[n - 1]]
  {
    assert pulses[..n][..n - 1] == pulses[..n - 1];
  }

  /** Sorted non-negative widths make every wait non-negative. */
  lemma {:induction false} WaitsAreNatural(highs: seq<Event>, w: seq<int>, d: seq<int>, p: seq<int>, n: nat)
    requires |w| == |d| == |p| && n <= |d| && AreDifferences(w, d, p, |d|) && Sorted(d)
    requires forall k | 0 <= k < |d| && p[k] != UNUSED :: 0 <= d[k]
    requires Waitable(highs)
    ensures Waitable(highs + OffEvents(w, p, n))
    ensures 0 <= LastActive(d, p, n) && (0 < n ==> forall k | n <= k < |d| && p[k] != UNUSED ::
      LastActive(d, p, n) <= d[k])
  {
    if n == 0 {
      assert highs + OffEvents(w, p, 0) == highs;
    } else {
      WaitsAreNatural(highs, w, d, p, n - 1);
      if p[n - 1] != UNUSED {
        assert highs + OffEvents(w, p, n) == highs + OffEvents(w, p, n - 1) + [Delay(w[n - 1]), Low(p[n - 1])];
      }
    }
  }

  /** What a frame does for pulses in any order, once sorted and turned into waits. */
  lemma FrameMeetsPulses(pulses: seq<Pulse>, w: seq<int>, d: seq<int>, p: seq<int>)
    requires |w| == |d| == |p| == |pulses| && Sorted(d) && AreDifferences(w, d, p, |d|)
    requires multiset(Pairs(d, p)) == multiset(pulses)
    requires forall k | 0 <= k < |d| :: 0 <= d[k]
    ensures var events := HighEvents(p, |p|) + OffEvents(w, p, |p|);
      multiset(LowEdges(events)) == multiset(Active(pulses)) &&
      RiseAtZero(events, multiset(p)) &&
      Waitable(events) && Elapsed(events) == LastActive(d, p, |d|)
  {
    var n := |p|;
    var highs := HighEvents(p, n);
    HighEventsTakeNoTime(p, n);
    RunningSums(highs, w, d, p, n);
    WaitsAreNatural(highs, w, d, p, n);
    assert Pairs(d, p)[..n] == Pairs(d, p);
    assert p[..n] == p;
    ActiveOfPermutation(Pairs(d, p), pulses);
  }

  /** What a frame's edges are, said of every time, pin and wait. */
  lemma EdgesInNumbers(events: seq<Event>, delays: seq<int>, pins: seq<int>, t: int, pin: int, i: int)
    requires |delays| == |pins| && multiset(LowEdges(events)) == multiset(Active(Pairs(delays, pins)))
    requires RiseAtZero(events, multiset(pins)) && Waitable(events)
    ensures pin == -1 ==> (t, pin) !in HighEdges(events) && (t, pin) !in LowEdges(events)
    ensures pin != -1 ==> multiset(HighEdges(events))[(t, pin)] == if t == 0 then multiset(pins)[pin] else 0
    ensures pin != -1 ==> multiset(LowEdges(events))[(t, pin)] == multiset(Pairs(delays, pins))[(t, pin)]
    ensures 0 <= i < |events| && events[i].Delay? ==> 0 <= events[i].us
  {
    ActiveCounts(Pairs(delays, pins), (t, pin));
    assert multiset(HighEdges(events))[(t, pin)] == if t == 0 && pin != UNUSED then multiset(pins)[pin] else 0;
  }

  lemma PulsesStayInRange(a: seq<Pulse>, d: seq<int>, p: seq<int>, lo: int, hi: int)
    requires |d| == |p| && multiset(Pairs(d, p)) == multiset(a)
    requires forall k | 0 <= k < |a| :: lo <= a[k].0 <= hi
    ensures forall k | 0 <= k < |d| :: lo <= d[k] <= hi
  {
    forall k | 0 <= k < |d| ensures lo <= d[k] <= hi {
      assert Pairs(d, p)[k] in multiset(a);
    }
  }

  lemma LastActiveBound(d: seq<int>, p: seq<int>, n: nat, hi: int)
    requires |d| == |p| && n <= |d| && 0 <= hi
    requires forall k | 0 <= k < |d| :: 0 <= d[k] <= hi
    ensures 0 <= LastActive(d, p, n) <= hi
  {
  }

  function Clamp(value: int): (r: int)
    ensures -250 <= r <= 1250 && (-250 <= value <= 1250 ==> r == value)
  {
    if value < -250 then -250 else if value > 1250 then 1250 else value
  }

  class Servos {
    const pinMap: array<int>
    const pulseWidth: array<int>

    /** Every pulse is one that `softServoWrite` can have set. */
    predicate Valid()
      reads this, pulseWidth
    {
      pinMap.Length == pulseWidth.Length == MAX_SERVOS && pinMap != pulseWidth &&
      forall s | 0 <= s < MAX_SERVOS :: 750 <= pulseWidth[s] <= 2250
    }

    /** `softServoSetup`: pins as given, all pulses at mid point. */
    constructor (pins: seq<int>)
      requires |pins| == MAX_SERVOS
      ensures Valid() && fresh(pinMap) && fresh(pulseWidth)
      ensures pinMap[..] == pins
      ensures forall s | 0 <= s < MAX_SERVOS :: pulseWidth[s] == 1500
    {
      pinMap := new int[MAX_SERVOS](i requires 0 <= i < MAX_SERVOS => pins[i]);
      pulseWidth := new int[MAX_SERVOS](_ => 1500);
    }

    /** Sets the pulse of every servo on the pin, and of no other. */
    method Write(servoPin0: int, value0: int)
      requires Valid()
      modifies pulseWidth
      ensures Valid()
      ensures forall s | 0 <= s < MAX_SERVOS ::
        pulseWidth[s] == if pinMap[s] == servoPin0 % 64 then Clamp(value0) + 1000 else old(pulseWidth[s])
      ensures forall s | 0 <= s < MAX_SERVOS && pinMap[s] == servoPin0 % 64 ::
        pulseWidth[s] == if value0 < -250 then 750 else if value0 > 1250 then 2250 else value0 + 1000
    {
      var servoPin := servoPin0 % 64;
      var value := value0;
      if value < -250 {
        value := -250;
      } else if value > 1250 {
        value := 1250;
      }
      for servo := 0 to MAX_SERVOS
        invariant Valid()
        invariant forall s | 0 <= s < servo ::
          pulseWidth[s] == if pinMap[s] == servoPin then value + 1000 else old(pulseWidth[s])
        invariant forall s | servo <= s < MAX_SERVOS :: pulseWidth[s] == old(pulseWidth[s])
      {
        if pinMap[servo] == servoPin {
          pulseWidth[servo] := value + 1000;
        }
      }
    }

    /** One round of the servo thread, up to the final gap. */
    method Frame() returns (events: seq<Event>)
      requires Valid()
      ensures multiset(LowEdges(events)) == multiset(Active(Pairs(pulseWidth[..], pinMap[..])))
      ensures RiseAtZero(events, multiset(pinMap[..]))
      ensures Waitable(events) && 0 <= Elapsed(events) <= 2250 < FRAME
    {
      var myDelays := new int[MAX_SERVOS](
        i requires 0 <= i < MAX_SERVOS reads this, pulseWidth requires Valid() => pulseWidth[i]);
      var myPins := new int[MAX_SERVOS](
        i requires 0 <= i < MAX_SERVOS reads this, pinMap, pulseWidth requires Valid() => pinMap[i]);
      ghost var pulses := Pairs(pulseWidth[..], pinMap[..]);
      assert myDelays[..] == pulseWidth[..] && myPins[..] == pinMap[..];
      SortDelays(myDelays, myPins);
      ghost var d, p := myDelays[..], myPins[..];
      PulsesStayInRange(pulses, d, p, 750, 2250);
      events := AllOn(myDelays, myPins);
      var offs := AllOff(myDelays, myPins);
      events := events + offs;
      FrameMeetsPulses(pulses, myDelays[..], d, p);
      LastActiveBound(d, p, |d|, 2250);
    }
  }

  /** Raises every active pin and turns widths into differences in place. */
  method AllOn(myDelays: array<int>, myPins: array<int>) returns (events: seq<Event>)
    requires myDelays.Length == myPins.Length && myDelays != myPins
    modifies myDelays
    ensures events == HighEvents(myPins[..], myPins.Length)
    ensures AreDifferences(myDelays[..], old(myDelays[..]), myPins[..], myPins.Length)
    ensures myPins[..] == old(myPins[..])
  {
    events := [];
    var lastDelay := 0;
    for servo := 0 to myDelays.Length
      invariant events == HighEvents(myPins[..], servo)
      invariant lastDelay == LastActive(old(myDelays[..]), myPins[..], servo)
      invariant AreDifferences(myDelays[..], old(myDelays[..]), myPins[..], servo)
      invariant forall k | servo <= k < myDelays.Length :: myDelays[k] == old(myDelays[k])
    {
      var pin := myPins[servo];
      if pin == UNUSED {
        continue;
      }
      events := events + [High(pin)];
      myDelays[servo] := myDelays[servo] - lastDelay;
      lastDelay := lastDelay + myDelays[servo];
    }
  }

  /** Waits and lowers the active pins one after the other. */
  method AllOff(myDelays: array<int>, myPins: array<int>) returns (events: seq<Event>)
    requires myDelays.Length == myPins.Length
    ensures events == OffEvents(myDelays[..], myPins[..], myPins.Length)
  {
    events := [];
    for servo := 0 to myDelays.Length
      invariant events == OffEvents(myDelays[..], myPins[..], servo)
    {
      var pin := myPins[servo];
      if pin == UNUSED {
        continue;
      }
      events := events + [Delay(myDelays[servo])];
      events := events + [Low(pin)];
    }
  }
}
