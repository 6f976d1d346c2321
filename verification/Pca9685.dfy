/** The 16-channel pulse generator behind an I2C bus, as its registers. */
module Pca9685 {

  const OSC_CLK: real := 25000000.0
  const MODE1: nat := 0x0
  const PRESCALE: nat := 0xFE
  const LED0_ON_L: nat := 0x6
  const LEDALL_ON_L: nat := 0xFA
  const PIN_ALL: nat := 16

  type Byte = b: int | 0 <= b < 256
  type Registers = r: seq<Byte> | |r| == 256 witness seq(256, _ => 0)

  predicate Bit4(b: Byte) {
    b / 16 % 2 == 1
  }

  function SetBit4(b: Byte): (s: Byte)
    ensures Bit4(s) && s % 16 == b % 16 && s / 32 == b / 32
  {
    if Bit4(b) then b else b + 16
  }

  function ClearBit4(b: Byte): (s: Byte)
    ensures !Bit4(s) && s % 16 == b % 16 && s / 32 == b / 32
  {
    if Bit4(b) then b - 16 else b
  }

  /** Pins 0..15 are channels; 16 addresses the registers for all of them. */
  type Pin = p: nat | p <= PIN_ALL

  function BaseReg(pin: Pin): (reg: nat)
    ensures reg + 4 < 256
  {
    if pin >= PIN_ALL then LEDALL_ON_L else LED0_ON_L + 4 * pin
  }

  /** The four registers of a pin: two counts, a full bit in each upper byte, spare bits above. */
  datatype Channel = Channel(on: int, fullOn: bool, onSpare: int, off: int, fullOff: bool, offSpare: int)

  function Count(high: Byte, low: Byte): (n: int)
    ensures 0 <= n < 4096
  {
    high % 16 * 256 + low
  }

  /** Register j of a pin. */
  function Reg(r: Registers, q: Pin, j: nat): Byte
    requires j < 4
  {
    r[BaseReg(q) + j]
  }

  function Unpack(onLow: Byte, onHigh: Byte, offLow: Byte, offHigh: Byte): Channel {
    Channel(
      Count(onHigh, onLow), Bit4(onHigh), onHigh / 32,
      Count(offHigh, offLow), Bit4(offHigh), offHigh / 32)
  }

  function ChannelOf(r: Registers, pin: Pin): Channel {
    Unpack(Reg(r, pin, 0), Reg(r, pin, 1), Reg(r, pin, 2), Reg(r, pin, 3))
  }

  /** Output level in 4096ths of a period: full-off rules over full-on, that over the counts. */
  function Level(c: Channel): int {
    if c.fullOff then 0
    else if c.fullOn then 4096
    else if c.on <= c.off then c.off - c.on
    else c.off - c.on + 4096
  }

  /** Where a pin's registers are, and the level they put out: full-off, else full-on, else off count less on count. */
  lemma LevelInBits(r: Registers, pin: Pin)
    ensures var b := if pin < 16 then 6 + 4 * pin else 250;
      var on: int := r[b] as int + 256 * (r[b + 1] as int % 16);
      var off: int := r[b + 2] as int + 256 * (r[b + 3] as int % 16);
      Level(ChannelOf(r, pin)) ==
        if r[b + 3] as int / 16 % 2 == 1 then 0 else if r[b + 1] as int / 16 % 2 == 1 then 4096 else (off - on) % 4096
  {
    var c := ChannelOf(r, pin);
    CountsApart(c.on, c.off);
  }

  lemma CountsApart(on: int, off: int)
    requires 0 <= on < 4096 && 0 <= off < 4096
    ensures (off - on) % 4096 == if on <= off then off - on else off - on + 4096
  {
  }

  /** Whether a write for the pin may reach register k: for all channels it reaches every one. */
  predicate Reaches(pin: Pin, k: nat) {
    BaseReg(pin) <= k < BaseReg(pin) + 4 || (pin == PIN_ALL && LED0_ON_L <= k < BaseReg(0) + 4 * PIN_ALL)
  }

  /** No register out of the pin's reach changed. */
  ghost predicate SameElsewhere(r: Registers, s: Registers, pin: Pin) {
    forall k | 0 <= k < 256 && !Reaches(pin, k) :: s[k] == r[k]
  }

  lemma OtherChannelsStay(r: Registers, s: Registers, pin: Pin, q: Pin)
    requires SameElsewhere(r, s, pin)
    ensures q != pin && pin != PIN_ALL ==> ChannelOf(s, q) == ChannelOf(r, q)
    ensures s[MODE1] == r[MODE1] && s[PRESCALE] == r[PRESCALE]
  {
    var b := BaseReg(q);
    if q != pin && pin != PIN_ALL {
      assert b + 4 <= BaseReg(pin) || BaseReg(pin) + 4 <= b;
    }
  }

  /**
   The registers after a write: a prescale value is taken only by a sleeping chip, and a write
   to one of the registers for all channels is copied into every channel.
   */
  function Stored(r: Registers, reg: nat, v: Byte): (s: Registers)
    requires reg < 256
    ensures forall k | 0 <= k < 256 ::
      s[k] == if (k == reg && (reg != PRESCALE || Bit4(r[MODE1]))) || Copied(reg, k) then v else r[k]
  {
    seq(256, k requires 0 <= k < 256 =>
      if (k == reg && (reg != PRESCALE || Bit4(r[MODE1]))) || Copied(reg, k) then v else r[k])
  }

  predicate Copied(reg: nat, k: nat) {
    LEDALL_ON_L <= reg < LEDALL_ON_L + 4 && LED0_ON_L <= k < LED0_ON_L + 4 * PIN_ALL &&
    (k - LED0_ON_L) % 4 == reg - LEDALL_ON_L
  }

  datatype Op = PwmWrite(pin: Pin, value: int) | OnOffWrite(pin: Pin, value: int)

  /** What an operation is meant to put out. */
  function Wanted(op: Op): int {
    match op
    case PwmWrite(_, value) => if value < 0 then 0 else if value > 4096 then 4096 else value
    case OnOffWrite(_, value) => if value == 0 then 0 else 4096
  }

  /** An operation is for its own pin, or for all. */
  predicate For(op: Op, q: Pin) {
    op.pin == q || op.pin == PIN_ALL
  }

  /** One operation: the pins it is for put out what is wanted, and nothing else changes. */
  ghost predicate Stepped(r: Registers, op: Op, s: Registers) {
    (forall q: Pin | For(op, q) :: Level(ChannelOf(s, q)) == Wanted(op)) && SameElsewhere(r, s, op.pin)
  }

  /** What was last asked of a pin, alone or with all. */
  function LastWanted(first: int, ops: seq<Op>, pin: Pin): int
    decreases |ops|
  {
    if ops == [] then first
    else if For(ops[|ops| - 1], pin) then Wanted(ops[|ops| - 1])
    else LastWanted(first, ops[..|ops| - 1], pin)
  }

  /** After any run from any registers, every pin puts out what was last asked of it. */
  lemma {:induction false} RunPutsOutLastWanted(states: seq<Registers>, ops: seq<Op>, pin: Pin)
    requires |states| == |ops| + 1
    requires forall i | 0 <= i < |ops| :: Stepped(states[i], ops[i], states[i + 1])
    ensures Level(ChannelOf(states[|ops|], pin)) == LastWanted(Level(ChannelOf(states[0], pin)), ops, pin)
    ensures states[|ops|][MODE1] == states[0][MODE1] && states[|ops|][PRESCALE] == states[0][PRESCALE]
    decreases |ops|
  {
    if ops != [] {
      var n := |ops| - 1;
      RunPutsOutLastWanted(states[..|ops|], ops[..n], pin);
      assert Stepped(states[n], ops[n], states[n + 1]);
      OtherChannelsStay(states[n], states[n + 1], ops[n].pin, pin);
    }
  }

  /** One register of a pin is written, or the same one of every pin. */
  ghost predicate OneStored(r: Registers, s: Registers, pin: Pin, i: nat, v: Byte)
    requires i < 4
  {
    forall q: Pin, j: nat | j < 4 :: Reg(s, q, j) == if j == i && (q == pin || pin == PIN_ALL) then v else Reg(r, q, j)
  }

  lemma RegStored(r: Registers, pin: Pin, i: nat, v: Byte, q: Pin, j: nat)
    requires i < 4 && j < 4
    ensures Reg(Stored(r, BaseReg(pin) + i, v), q, j) ==
      if j == i && (q == pin || pin == PIN_ALL) then v else Reg(r, q, j)
  {
    var reg, k := BaseReg(pin) + i, BaseReg(q) + j;
    assert k == reg <==> q == pin && j == i;
    if q < PIN_ALL {
      assert (k - LED0_ON_L) % 4 == j by { assert k - LED0_ON_L == 4 * q + j; }
    }
    assert Copied(reg, k) <==> pin == PIN_ALL && q < PIN_ALL && j == i;
  }

  lemma StoredForPin(r: Registers, pin: Pin, i: nat, v: Byte)
    requires i < 4
    ensures OneStored(r, Stored(r, BaseReg(pin) + i, v), pin, i, v)
    ensures SameElsewhere(r, Stored(r, BaseReg(pin) + i, v), pin)
  {
    forall q: Pin, j: nat | j < 4 {
      RegStored(r, pin, i, v, q, j);
    }
  }

  /** Twelve bits of a count. */
  function Cut(n: int): (m: int)
    ensures 0 <= m < 4096 && (0 <= n < 4096 ==> m == n)
  {
    n % 4096
  }

  /** Full-off is switched: exactly so for the pin's own registers, and for every pin if it is for all. */
  ghost predicate OffSwitched(r: Registers, s: Registers, pin: Pin, tf: bool) {
    ChannelOf(s, pin) == ChannelOf(r, pin).(fullOff := tf) &&
    (forall q: Pin :: ChannelOf(s, q).fullOff == if q == pin || pin == PIN_ALL then tf else ChannelOf(r, q).fullOff) &&
    (forall q: Pin :: ChannelOf(s, q).fullOn == ChannelOf(r, q).fullOn && ChannelOf(s, q).on == ChannelOf(r, q).on)
  }

  ghost predicate OnSwitched(r: Registers, s: Registers, pin: Pin, tf: bool) {
    ChannelOf(s, pin) == ChannelOf(r, pin).(fullOn := tf) &&
    (forall q: Pin :: ChannelOf(s, q).fullOn == if q == pin || pin == PIN_ALL then tf else ChannelOf(r, q).fullOn) &&
    (forall q: Pin :: ChannelOf(s, q).fullOff == ChannelOf(r, q).fullOff && ChannelOf(s, q).off == ChannelOf(r, q).off)
  }

  function Switched(b: Byte, tf: bool): (s: Byte)
    ensures Bit4(s) == tf && s % 16 == b % 16 && s / 32 == b / 32
  {
    if tf then SetBit4(b) else ClearBit4(b)
  }

  lemma UnpackOffSwitched(a: Byte, b: Byte, c: Byte, d: Byte, e: Byte, tf: bool)
    ensures Unpack(a, b, c, Switched(d, tf)) == Unpack(a, b, c, d).(fullOff := tf)
    ensures Bit4(e) == tf ==> Unpack(a, b, c, e).fullOff == tf
  {
  }

  lemma UnpackOnSwitched(a: Byte, b: Byte, c: Byte, d: Byte, e: Byte, tf: bool)
    ensures Unpack(a, Switched(b, tf), c, d) == Unpack(a, b, c, d).(fullOn := tf)
    ensures Bit4(e) == tf ==> Unpack(a, e, c, d).fullOn == tf
  {
  }

  lemma OffIsSwitched(r: Registers, s: Registers, pin: Pin, tf: bool)
    requires OneStored(r, s, pin, 3, Switched(Reg(r, pin, 3), tf))
    ensures OffSwitched(r, s, pin, tf)
  {
    var v := Switched(Reg(r, pin, 3), tf);
    forall q: Pin
      ensures ChannelOf(s, q) == Unpack(Reg(r, q, 0), Reg(r, q, 1), Reg(r, q, 2),
                                        if q == pin || pin == PIN_ALL then v else Reg(r, q, 3))
    {
      assert Reg(s, q, 0) == Reg(r, q, 0) && Reg(s, q, 1) == Reg(r, q, 1) && Reg(s, q, 2) == Reg(r, q, 2);
      assert Reg(s, q, 3) == if q == pin || pin == PIN_ALL then v else Reg(r, q, 3);
    }
    UnpackOffSwitched(Reg(r, pin, 0), Reg(r, pin, 1), Reg(r, pin, 2), Reg(r, pin, 3), v, tf);
  }

  lemma OnIsSwitched(r: Registers, s: Registers, pin: Pin, tf: bool)
    requires OneStored(r, s, pin, 1, Switched(Reg(r, pin, 1), tf))
    ensures OnSwitched(r, s, pin, tf)
  {
    var v := Switched(Reg(r, pin, 1), tf);
    forall q: Pin
      ensures ChannelOf(s, q) == Unpack(Reg(r, q, 0), if q == pin || pin == PIN_ALL then v else Reg(r, q, 1),
                                        Reg(r, q, 2), Reg(r, q, 3))
    {
      assert Reg(s, q, 0) == Reg(r, q, 0) && Reg(s, q, 2) == Reg(r, q, 2) && Reg(s, q, 3) == Reg(r, q, 3);
      assert Reg(s, q, 1) == if q == pin || pin == PIN_ALL then v else Reg(r, q, 1);
    }
    UnpackOnSwitched(Reg(r, pin, 0), Reg(r, pin, 1), Reg(r, pin, 2), Reg(r, pin, 3), v, tf);
  }

  lemma SameElsewhereTwice(r: Registers, s: Registers, t: Registers, pin: Pin)
    requires SameElsewhere(r, s, pin) && SameElsewhere(s, t, pin)
    ensures SameElsewhere(r, t, pin)
  {
  }

  /** Full-on, with full-off cleared when it is set. */
  ghost predicate FullyOn(r: Registers, s: Registers, pin: Pin, tf: bool) {
    if tf then exists m: Registers :: OnSwitched(r, m, pin, true) && OffSwitched(m, s, pin, false)
    else OnSwitched(r, s, pin, false)
  }

  lemma FullyOnLevel(r: Registers, s: Registers, pin: Pin)
    requires FullyOn(r, s, pin, true)
    ensures ChannelOf(s, pin) == ChannelOf(r, pin).(fullOn := true, fullOff := false)
    ensures forall q: Pin | q == pin || pin == PIN_ALL :: Level(ChannelOf(s, q)) == 4096
  {
    var m: Registers :| OnSwitched(r, m, pin, true) && OffSwitched(m, s, pin, false);
    forall q: Pin | q == pin || pin == PIN_ALL ensures Level(ChannelOf(s, q)) == 4096 {
      assert ChannelOf(m, q).fullOn && ChannelOf(s, q).fullOn && !ChannelOf(s, q).fullOff;
    }
  }

  lemma OffLevel(r: Registers, s: Registers, pin: Pin)
    requires OffSwitched(r, s, pin, true)
    ensures forall q: Pin | q == pin || pin == PIN_ALL :: Level(ChannelOf(s, q)) == 0
  {
    forall q: Pin | q == pin || pin == PIN_ALL ensures Level(ChannelOf(s, q)) == 0 {
      assert ChannelOf(s, q).fullOff;
    }
  }

  lemma PulseLevel(s: Registers, pin: Pin, value: int)
    requires 0 < value < 4096
    requires forall q: Pin | q == pin || pin == PIN_ALL :: ChannelOf(s, q) == Channel(0, false, 0, value, false, 0)
    ensures forall q: Pin | q == pin || pin == PIN_ALL :: Level(ChannelOf(s, q)) == value
  {
  }

  /** Two words written to the registers of a pin, or of all. */
  lemma FourStored(r: Registers, s: Registers, pin: Pin, on: nat, off: nat)
    requires on < 0x10000 && off < 0x10000
    requires var b := BaseReg(pin);
      s == Stored(Stored(Stored(Stored(r, b, on % 256), b + 1, on / 256), b + 2, off % 256), b + 3, off / 256)
    ensures forall q: Pin | q == pin || pin == PIN_ALL :: ChannelOf(s, q) == Written(on, off)
    ensures SameElsewhere(r, s, pin)
  {
    var b := BaseReg(pin);
    var r1 := Stored(r, b, on % 256);
    var r2 := Stored(r1, b + 1, on / 256);
    var r3 := Stored(r2, b + 2, off % 256);
    StoredForPin(r, pin, 0, on % 256);
    StoredForPin(r1, pin, 1, on / 256);
    StoredForPin(r2, pin, 2, off % 256);
    StoredForPin(r3, pin, 3, off / 256);
    forall q: Pin | q == pin || pin == PIN_ALL ensures ChannelOf(s, q) == Written(on, off) {
      assert Reg(s, q, 0) == on % 256 && Reg(s, q, 1) == on / 256;
      assert Reg(s, q, 2) == off % 256 && Reg(s, q, 3) == off / 256;
    }
  }

  /** A pin whose two words are written, spare and full bits with the counts. */
  function Written(on: nat, off: nat): Channel
    requires on < 0x10000 && off < 0x10000
  {
    Channel(Count(on / 256, on % 256), Bit4(on / 256), on / 256 / 32,
            Count(off / 256, off % 256), Bit4(off / 256), off / 256 / 32)
  }

  /** Words of twelve bits are counts, with no other bit set. */
  lemma WrittenCounts(on: nat, off: nat)
    requires on < 4096 && off < 4096
    ensures Written(on, off) == Channel(on, false, 0, off, false, 0)
  {
  }

  function Clamped(freq: real): (f: real)
    ensures 40.0 <= f <= 1000.0
  {
    if freq > 1000.0 then 1000.0 else if freq < 40.0 then 40.0 else freq
  }

  /** The exact divisor of the clock for a frequency. */
  function Ideal(f: real): real
    requires f > 0.0
  {
    OSC_CLK / (4096.0 * f)
  }

  function Prescale(freq: real): (p: int)
    ensures 5 <= p <= 152
    ensures -0.5 <= (p + 1) as real - Ideal(Clamped(freq)) <= 0.5
  {
    IdealInRange(Clamped(freq));
    (Ideal(Clamped(freq)) - 0.5).Floor
  }

  /** Frequencies the chip can do are taken as they are, others as the nearest one it can do. */
  lemma PrescaleInNumbers(freq: real)
    ensures 40.0 <= freq <= 1000.0 ==> -0.5 <= (Prescale(freq) + 1) as real - 25000000.0 / (4096.0 * freq) <= 0.5
    ensures freq <= 40.0 ==> Prescale(freq) == 152
    ensures freq >= 1000.0 ==> Prescale(freq) == 5
  {
    assert Ideal(40.0) == 25000000.0 / 163840.0;
    assert Ideal(1000.0) == 25000000.0 / 4096000.0;
  }

  lemma IdealInRange(f: real)
    requires 40.0 <= f <= 1000.0
    ensures 6.0 <= Ideal(f) < 153.0
  {
    var d := 4096.0 * f;
    assert 163840.0 <= d <= 4096000.0;
    QuotientInRange(OSC_CLK, d, Ideal(f));
  }

  lemma QuotientInRange(c: real, d: real, q: real)
    requires c == OSC_CLK && 163840.0 <= d <= 4096000.0 && q * d == c
    ensures 6.0 <= q < 153.0
  {
    if q < 6.0 {
      Product(q, 6.0, d);
    } else if q >= 153.0 {
      Product(153.0, q, d);
    }
  }

  lemma Product(a: real, b: real, d: real)
    requires a <= b && d > 0.0
    ensures a * d <= b * d
  {
  }

  class Driver {
    const regs: array<Byte>
    var sleep: bool
    var restart: bool

    predicate Valid() {
      regs.Length == 256
    }

    method ReadReg8(reg: nat) returns (v: Byte)
      requires Valid() && reg < 256
      ensures v == regs[reg]
    {
      v := regs[reg];
    }

    method WriteReg8(reg: nat, v: Byte)
      requires Valid() && reg < 256
      modifies regs
      ensures regs[..] == Stored(old(regs[..]), reg, v)
    {
      if reg != PRESCALE || Bit4(regs[MODE1]) {
        regs[reg] := v;
      }
      if LEDALL_ON_L <= reg < LEDALL_ON_L + 4 {
        forall k | LED0_ON_L <= k < LED0_ON_L + 4 * PIN_ALL && (k - LED0_ON_L) % 4 == reg - LEDALL_ON_L {
          regs[k] := v;
        }
      }
    }

    /** A word goes out low byte first. */
    method WriteReg16(reg: nat, v: nat)
      requires Valid() && reg < 255 && v < 0x10000
      modifies regs
      ensures regs[..] == Stored(Stored(old(regs[..]), reg, v % 256), reg + 1, v / 256)
    {
      WriteReg8(reg, v % 256);
      WriteReg8(reg + 1, v / 256);
    }

    /** Both counts of the pins it is for are cut to twelve bits; the full bits are cleared with the rest. */
    method PWMWrite(pin: Pin, on: int, off: int)
      requires Valid()
      modifies regs
      ensures forall q: Pin | q == pin || pin == PIN_ALL ::
        ChannelOf(regs[..], q) == Channel(Cut(on), false, 0, Cut(off), false, 0)
      ensures SameElsewhere(old(regs[..]), regs[..], pin)
    {
      var reg := BaseReg(pin);
      ghost var r := regs[..];
      WriteReg16(reg, Cut(on));
      WriteReg16(reg + 2, Cut(off));
      FourStored(r, regs[..], pin, Cut(on), Cut(off));
      WrittenCounts(Cut(on), Cut(off));
    }

    /** Sets every output to zero. */
    method PWMReset()
      requires Valid()
      modifies regs
      ensures forall q: Pin :: Level(ChannelOf(regs[..], q)) == 0
      ensures SameElsewhere(old(regs[..]), regs[..], PIN_ALL)
    {
      ghost var r := regs[..];
      WriteReg16(LEDALL_ON_L, 0);
      WriteReg16(LEDALL_ON_L + 2, 0x1000);
      FourStored(r, regs[..], PIN_ALL, 0, 0x1000);
    }

    method FullOn(pin: Pin, tf: bool)
      requires Valid()
      modifies regs
      ensures FullyOn(old(regs[..]), regs[..], pin, tf)
      ensures tf ==> ChannelOf(regs[..], pin) == old(ChannelOf(regs[..], pin)).(fullOn := true, fullOff := false)
      ensures SameElsewhere(old(regs[..]), regs[..], pin)
    {
      ghost var r := regs[..];
      var reg := BaseReg(pin) + 1;
      var state := ReadReg8(reg);
      state := Switched(state, tf);
      StoredForPin(r, pin, 1, state);
      WriteReg8(reg, state);
      ghost var m := regs[..];
      OnIsSwitched(r, m, pin, tf);
      if tf {
        FullOff(pin, false);
        SameElsewhereTwice(r, m, regs[..], pin);
        FullyOnLevel(r, regs[..], pin);
      }
    }

    method FullOff(pin: Pin, tf: bool)
      requires Valid()
      modifies regs
      ensures OffSwitched(old(regs[..]), regs[..], pin, tf)
      ensures SameElsewhere(old(regs[..]), regs[..], pin)
    {
      ghost var r := regs[..];
      var reg := BaseReg(pin) + 3;
      var state := ReadReg8(reg);
      state := Switched(state, tf);
      StoredForPin(r, pin, 3, state);
      WriteReg8(reg, state);
      OffIsSwitched(r, regs[..], pin, tf);
    }

    method MyPwmWrite(pin: Pin, value: int)
      requires Valid()
      modifies regs
      ensures Stepped(old(regs[..]), PwmWrite(pin, value), regs[..])
      ensures forall q: Pin | q == pin || pin == 16 ::
        Level(ChannelOf(regs[..], q)) == if value <= 0 then 0 else if value >= 4096 then 4096 else value
    {
      ghost var r := regs[..];
      if value >= 4096 {
        FullOn(pin, true);
        FullyOnLevel(r, regs[..], pin);
      } else if value > 0 {
        PWMWrite(pin, 0, value);
        PulseLevel(regs[..], pin, value);
      } else {
        FullOff(pin, true);
        OffLevel(r, regs[..], pin);
      }
    }

    method MyOnOffWrite(pin: Pin, value: int)
      requires Valid()
      modifies regs
      ensures Stepped(old(regs[..]), OnOffWrite(pin, value), regs[..])
      ensures forall q: Pin | q == pin || pin == 16 :: Level(ChannelOf(regs[..], q)) == if value == 0 then 0 else 4096
    {
      ghost var r := regs[..];
      if value != 0 {
        FullOn(pin, true);
        FullyOnLevel(r, regs[..], pin);
      } else {
        FullOff(pin, true);
        OffLevel(r, regs[..], pin);
      }
    }

    /** The mode register is written back as it was read: the chip is neither put to sleep nor woken. */
    method PWMSetFreq(freq: real)
      requires Valid()
      modifies regs, this
      ensures Bit4(old(regs[MODE1])) ==> regs[..] == old(regs[..])[PRESCALE := Prescale(freq)]
      ensures !Bit4(old(regs[MODE1])) ==> regs[..] == old(regs[..])
      ensures !sleep && restart
    {
      var f := Clamped(freq);
      IdealInRange(f);
      var prescale := (OSC_CLK / (4096.0 * f) - 0.5).Floor;
      var mode1 := ReadReg8(MODE1);
      restart := false;
      sleep := true;
      WriteReg8(MODE1, mode1);
      WriteReg8(PRESCALE, prescale);
      sleep := false;
      WriteReg8(MODE1, mode1);
      restart := true;
      WriteReg8(MODE1, mode1);
    }
  }
}
