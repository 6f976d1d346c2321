/** Lamp and buzzer pulses made by counting the ticks of a thread. */
module SoftPwm {

  const LIMIT: nat := 0x1_0000_0000
  const DIV: nat := 10

  type Uint32 = n: nat | n < LIMIT
  type Uint8 = n: nat | n < 256

  datatype State = State(time: Uint32, cnt: Uint32, period: Uint32, duty: Uint8, flag: Uint8)

  function Product(period: nat, duty: nat): nat {
    period * duty
  }

  /** The highest count that still puts out HIGH; the product wraps. */
  function Threshold(period: nat, duty: nat): nat {
    Wrapped(Product(period, duty))
  }

  function Wrapped(product: nat): nat {
    product % LIMIT / 100
  }

  /** Whether the pulses run during the next tick. */
  predicate Running(s: State) {
    s.time > 1 || s.flag == 1
  }

  /** The state one tick later. */
  function Next(s: State): State {
    var cnt := if s.cnt + 1 >= LIMIT || s.cnt + 1 >= s.period then 0 else s.cnt + 1;
    s.(time := if s.time >= 1 then s.time - 1 else 0, cnt := if Running(s) then cnt else s.cnt)
  }

  /** The level the next tick puts out. */
  predicate High(s: State) {
    Running(s) && Next(s).cnt <= Threshold(s.period, s.duty)
  }

  function After(s: State, n: nat): State
    decreases n
  {
    if n == 0 then s else After(Next(s), n - 1)
  }

  /** HIGH ticks among the next n. */
  function HighTicks(s: State, n: nat): nat
    decreases n
  {
    if n == 0 then 0 else (if High(s) then 1 else 0) + HighTicks(Next(s), n - 1)
  }

  /** The tick after n ticks is the next one, and it is counted if it is HIGH. */
  lemma {:induction false} OneMoreTick(s: State, n: nat)
    ensures After(s, n + 1) == Next(After(s, n))
    ensures HighTicks(s, n + 1) == HighTicks(s, n) + (if High(After(s, n)) then 1 else 0)
    decreases n
  {
    if n != 0 {
      OneMoreTick(Next(s), n - 1);
    }
  }

  /** Numbers from a up to b that are at most t. */
  function AtMost(a: nat, b: nat, t: nat): nat {
    if b <= a then 0 else if b <= t then b - a else if a <= t then t + 1 - a else 0
  }

  lemma {:induction false} TicksAddUp(s: State, n: nat, m: nat)
    ensures HighTicks(s, n + m) == HighTicks(s, n) + HighTicks(After(s, n), m)
    ensures After(s, n + m) == After(After(s, n), m)
    decreases n
  {
    if n != 0 {
      TicksAddUp(Next(s), n - 1, m);
    }
  }

  /** Short of the end of a period the count climbs, and every count up to the threshold is HIGH. */
  lemma {:induction false} CountClimbs(s: State, n: nat)
    requires s.flag == 1 && s.cnt + n < s.period
    ensures After(s, n).cnt == s.cnt + n
    ensures After(s, n).period == s.period && After(s, n).duty == s.duty && After(s, n).flag == 1
    ensures HighTicks(s, n) == AtMost(s.cnt + 1, s.cnt + n + 1, Threshold(s.period, s.duty))
    decreases n
  {
    if n != 0 {
      CountClimbs(Next(s), n - 1);
    }
  }

  /** From the last count of a period the next tick starts the next one, at a HIGH zero. */
  lemma LastTickWraps(s: State, n: nat)
    requires s.flag == 1 && s.cnt == s.period - 1
    ensures Next(s).cnt == 0 && Next(s).period == s.period && Next(s).duty == s.duty && Next(s).flag == 1
    ensures HighTicks(s, n + 1) == 1 + HighTicks(Next(s), n)
    ensures After(s, n + 1) == After(Next(s), n)
  {
  }

  lemma PartsAddUp(c: nat, p: nat, t: nat)
    requires c < p
    ensures AtMost(c + 1, p, t) + 1 + AtMost(1, c + 1, t) == if t < p then t + 1 else p
  {
  }

  /** The rest of this period, the zero of the next, and its counts up to where the window began. */
  lemma WindowInParts(s: State)
    requires s.flag == 1 && s.cnt < s.period
    ensures var t := Threshold(s.period, s.duty);
      HighTicks(s, s.period) == AtMost(s.cnt + 1, s.period, t) + 1 + AtMost(1, s.cnt + 1, t)
    ensures After(s, s.period).cnt == s.cnt
  {
    var rest := s.period - 1 - s.cnt;
    CountClimbs(s, rest);
    TicksAddUp(s, rest, s.cnt + 1);
    NextPeriod(After(s, rest), s.cnt);
  }

  lemma NextPeriod(last: State, n: nat)
    requires last.flag == 1 && last.cnt == last.period - 1 && n < last.period
    ensures HighTicks(last, n + 1) == 1 + AtMost(1, n + 1, Threshold(last.period, last.duty))
    ensures After(last, n + 1).cnt == n
  {
    LastTickWraps(last, n);
    CountClimbs(Next(last), n);
  }

  /** Every window of one period has the same number of HIGH ticks, wherever it starts. */
  lemma WindowHasThresholdPlusOne(s: State)
    requires s.flag == 1 && s.cnt < s.period
    ensures HighTicks(s, s.period) == Count(s.period, Threshold(s.period, s.duty))
    ensures After(s, s.period).cnt == s.cnt
  {
    WindowInParts(s);
    PartsAddUp(s.cnt, s.period, Threshold(s.period, s.duty));
  }

  /** While the product fits, a window has one tick more than duty percent of the period, and at most all. */
  lemma WindowInNumbers(s: State)
    requires s.flag == 1 && s.cnt < s.period && s.period * s.duty < 4294967296
    ensures HighTicks(s, s.period) ==
      if s.period * s.duty / 100 + 1 < s.period then s.period * s.duty / 100 + 1 else s.period
  {
    WindowHasThresholdPlusOne(s);
    CountAgainstShare(s.period, Product(s.period, s.duty));
  }

  /** 200 milliseconds at duty 10: 3 of 20 ticks. */
  lemma WindowExample(s: State)
    requires s.flag == 1 && s.cnt < s.period && s.period == 20 && s.duty == 10
    ensures HighTicks(s, 20) == 3
  {
    WindowInNumbers(s);
  }

  /** The share is duty percent of the period, rounded down, or the whole period. */
  lemma ShareInNumbers(period: nat, duty: nat)
    ensures Share(period, duty) == if period * duty / 100 < period then period * duty / 100 else period
    ensures duty <= 100 ==> 100 * Share(period, duty) <= period * duty < 100 * Share(period, duty) + 100
  {
    if duty <= 100 {
      ProductOrder(period, duty, 100);
    }
  }

  /**
   The window has its share of HIGH ticks, rounded down, exactly at full duty and while the
   product of period and duty does not wrap to a threshold short of the period.
   */
  lemma ShareIsExactIff(s: State)
    requires s.flag == 1 && s.cnt < s.period
    ensures HighTicks(s, s.period) == Share(s.period, s.duty) <==>
      s.duty >= 100 && Threshold(s.period, s.duty) + 1 >= s.period
  {
    WindowHasThresholdPlusOne(s);
    ShareReachesPeriod(s.period, s.duty);
    CountAgainstShare(s.period, Product(s.period, s.duty));
  }

  /** Below full duty, and as long as the product does not wrap, the window has one HIGH tick too many. */
  lemma OneTickTooMany(s: State)
    requires s.flag == 1 && s.cnt < s.period && s.duty < 100
    ensures HighTicks(s, s.period) == Share(s.period, s.duty) + 1 <==> s.period * s.duty < LIMIT
  {
    WindowHasThresholdPlusOne(s);
    ShareReachesPeriod(s.period, s.duty);
    CountAgainstShare(s.period, Product(s.period, s.duty));
  }

  function Count(period: nat, threshold: nat): nat {
    if threshold < period then threshold + 1 else period
  }

  lemma CountAgainstShare(period: nat, product: nat)
    requires 0 < period
    ensures var threshold, share := Wrapped(product), product / 100;
      var count := Count(period, threshold);
      if period <= share then count == period <==> threshold + 1 >= period
      else count != share && (count == share + 1 <==> product < LIMIT)
    ensures product < LIMIT ==> Wrapped(product) == product / 100
  {
    ThresholdMissesShare(product);
  }

  /** A wrapped product gives a threshold far below the share. */
  lemma ThresholdMissesShare(product: nat)
    ensures product < LIMIT ==> product % LIMIT / 100 == product / 100
    ensures LIMIT <= product ==> product % LIMIT / 100 + 1 < product / 100
  {
    if LIMIT <= product {
      assert product % LIMIT <= product - LIMIT;
    }
  }

  /** 42949673 ticks at full duty: the product wraps to 4, and one tick of them all is HIGH. */
  lemma WrappedDuty(s: State)
    requires s.flag == 1 && s.cnt < s.period && s.period == 42949673 && s.duty == 100
    ensures HighTicks(s, s.period) == 1 && Share(s.period, s.duty) == s.period
  {
    WindowHasThresholdPlusOne(s);
  }

  /** The ticks of a period the duty asks for, in percent and at most all. */
  function Share(period: nat, duty: nat): nat {
    Least(Product(period, duty) / 100, period)
  }

  function Least(a: nat, b: nat): nat {
    if a < b then a else b
  }

  lemma ShareReachesPeriod(period: nat, duty: nat)
    requires period > 0
    ensures period * duty / 100 >= period <==> duty >= 100
  {
    if duty >= 100 {
      ProductOrder(period, 100, duty);
    } else {
      ProductOrder(period, duty, 99);
    }
  }

  lemma ProductOrder(p: nat, a: nat, b: nat)
    requires a <= b
    ensures p * a <= p * b
  {
  }

  /** A running tick leaves the count below any period but zero; period zero is always HIGH. */
  lemma RunningTickBoundsCount(s: State)
    requires Running(s)
    ensures Next(s).cnt < s.period || (s.period == 0 && Next(s).cnt == 0 && High(s))
  {
  }

  /** Outside endless mode, time t allows t - 1 ticks as in endless mode; all later ones are LOW. */
  lemma {:induction false} TimedRunsThenStaysLow(s: State, n: nat)
    requires s.flag != 1
    ensures n + 1 < s.time ==> (High(After(s, n)) <==> High(After(s.(flag := 1), n)))
    ensures n + 1 < s.time ==> After(s, n) == After(s.(flag := 1), n).(flag := s.flag)
    ensures n + 1 >= s.time ==> !High(After(s, n)) && After(s, n).flag == s.flag && !Running(After(s, n))
    decreases n
  {
    if n != 0 {
      TimedRunsThenStaysLow(Next(s), n - 1);
    }
  }

  class Pulse {
    var cnt: Uint32
    var time: Uint32
    var period: Uint32
    var duty: Uint8
    var flag: Uint8
    var level: bool

    ghost function Now(): State
      reads this
    {
      State(time, cnt, period, duty, flag)
    }

    /** Times are given in milliseconds, ten to a tick; the count goes on from where it is. */
    method Set(time: Uint32, per: Uint32, duty: Uint8, flag: Uint8)
      modifies this
      ensures Now() == State(time / DIV, old(cnt), per / DIV, duty, flag) && level == old(level)
    {
      this.time := time / DIV;
      period := per / DIV;
      this.duty := duty;
      this.flag := flag;
    }

    method Process()
      modifies this
      ensures Now() == Next(old(Now()))
      ensures level == High(old(Now()))
      ensures level <==>
        (old(time) > 1 || old(flag) == 1) && cnt <= old(period) * old(duty) % 4294967296 / 100
      ensures time == if old(time) == 0 then 0 else old(time) - 1
      ensures cnt == if old(time) <= 1 && old(flag) != 1 then old(cnt)
                     else if old(cnt) + 1 < old(period) then old(cnt) + 1 else 0
    {
      if time >= 1 {
        time := time - 1;
      }
      if time != 0 || flag == 1 {
        cnt := (cnt + 1) % LIMIT;
        cnt := if cnt >= period then 0 else cnt;
        level := cnt <= period * duty % LIMIT / 100;
      } else {
        level := false;
      }
    }
  }
}
