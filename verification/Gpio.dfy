/** The memory-mapped pin registers: several pins share a word, several kinds of word a bank. */
module Gpio {
  import opened Bits32
  import Runs

  const WORDS: nat := 2048
  const MAP_SIZE: nat := 8192
  const GPIO_BASE: nat := 0x01C20800
  const PWM_CTRL: nat := 0x01C21400
  const PWM_CH0_PERIOD: nat := 0x01C21404

  const INPUT: int := 0
  const OUTPUT: int := 1
  const PWM_OUTPUT: int := 2

  /** `readl` and `writel` reduce an address to a word of the mapping. */
  function Word(addr: nat): (w: nat)
    ensures w < WORDS
  {
    (addr % MAP_SIZE) / 4
  }

  /** Pin numbers count 32 to a bank, in nine banks. */
  type Pin = p: nat | p < 288

  function Bank(pin: Pin): (b: nat)
    ensures b < 9
  {
    pin / 32
  }

  function Index(pin: Pin): (i: nat)
    ensures i < 32
  {
    pin - Bank(pin) * 32
  }

  /** The pins the boards bring out. */
  predicate Exists(pin: Pin) {
    var i := Index(pin);
    match Bank(pin)
    case 0 => i <= 21 && i != 10
    case 1 => i == 26 || 28 <= i
    case 2 => i <= 4 || i == 7 || i == 8 || i == 13 || i == 14 || i == 24 || 28 <= i
    case 3 => i <= 1 || i == 8 || i == 14 || i == 16 || i == 17 || i == 20 || i == 21
    case 6 => 6 <= i <= 9 || i == 11
    case _ => false
  }

  function ModeAddr(pin: Pin): nat {
    GPIO_BASE + Bank(pin) * 36 + Index(pin) / 8 * 4
  }

  function DataAddr(pin: Pin): nat {
    GPIO_BASE + Bank(pin) * 36 + 0x10
  }

  function PullAddr(pin: Pin): nat {
    GPIO_BASE + Bank(pin) * 36 + 0x1c + Index(pin) / 16 * 4
  }

  function ModeShift(pin: Pin): (o: nat)
    ensures o <= 28
  {
    Index(pin) % 8 * 4
  }

  function PullShift(pin: Pin): (o: nat)
    ensures o <= 30
  {
    Index(pin) % 16 * 2
  }

  /** A bank has nine words: four of modes, one of data, two of drive levels, two of pulls. */
  function BankWord(bank: nat, k: nat): (w: nat)
    requires bank < 9 && k < 9
    ensures 512 <= w < PWM_CTRL_WORD
  {
    512 + 9 * bank + k
  }

  const PWM_CTRL_WORD: nat := 1280
  const PERIOD_WORD: nat := 1281

  function ModeWord(pin: Pin): nat {
    BankWord(Bank(pin), Index(pin) / 8)
  }

  function DataWord(pin: Pin): nat {
    BankWord(Bank(pin), 4)
  }

  function PullWord(pin: Pin): nat {
    BankWord(Bank(pin), 7 + Index(pin) / 16)
  }

  lemma WordAt(k: nat)
    requires k < 1536
    ensures Word(GPIO_BASE + 4 * k) == 512 + k
  {
    assert (GPIO_BASE + 4 * k) % MAP_SIZE == 2048 + 4 * k;
  }

  /** The address arithmetic lands on these words. */
  lemma Addresses(pin: Pin)
    ensures Word(ModeAddr(pin)) == ModeWord(pin)
    ensures Word(DataAddr(pin)) == DataWord(pin)
    ensures Word(PullAddr(pin)) == PullWord(pin)
  {
    var b, i, j := Bank(pin), Index(pin) / 8, Index(pin) / 16;
    WordAt(9 * b + i);
    WordAt(9 * b + 4);
    WordAt(9 * b + 7 + j);
  }

  lemma PwmAddresses()
    ensures PWM_CTRL == 0x01C21400 && Word(PWM_CTRL) == PWM_CTRL_WORD == 1280
    ensures PWM_CH0_PERIOD == 0x01C21404 && Word(PWM_CH0_PERIOD) == PERIOD_WORD == 1281
  {
    WordAt(768);
    WordAt(769);
  }

  /** The byte addresses, and the word of the mapping an address stands for. */
  lemma AddressesInNumbers(pin: Pin, m: nat, k: nat)
    ensures ModeAddr(pin) == 0x01C20800 + 36 * (pin / 32) + 4 * (pin % 32 / 8)
    ensures DataAddr(pin) == 0x01C20800 + 36 * (pin / 32) + 16
    ensures PullAddr(pin) == 0x01C20800 + 36 * (pin / 32) + 28 + 4 * (pin % 32 / 16)
    ensures k < 2048 ==> Word(8192 * m + 4 * k) == k
  {
    if k < 2048 {
      var addr := 8192 * m + 4 * k;
      assert addr % 8192 == 4 * k;
    }
  }

  /** The words of a pin's fields in the mapping, and where in them the fields begin. */
  lemma PlacesInNumbers(pin: Pin)
    ensures ModeWord(pin) == 512 + 9 * (pin / 32) + pin % 32 / 8 && ModeShift(pin) == pin % 8 * 4
    ensures DataWord(pin) == 512 + 9 * (pin / 32) + 4 && Index(pin) == pin % 32
    ensures PullWord(pin) == 512 + 9 * (pin / 32) + 7 + pin % 32 / 16 && PullShift(pin) == pin % 16 * 2
  {
    assert Index(pin) == pin % 32;
    SmallerRemainders(pin);
  }

  lemma SmallerRemainders(pin: Pin)
    ensures pin % 32 % 8 == pin % 8 && pin % 32 % 16 == pin % 16
  {
    var b, i := pin / 32, pin % 32;
    assert pin == 8 * (4 * b + i / 8) + i % 8;
    assert pin == 16 * (2 * b + i / 16) + i % 16;
  }

  /** The pins brought out, bank by bank. */
  lemma PinsBroughtOut(pin: Pin)
    ensures Exists(pin) <==> pin in {0, 1, 2, 3, 4, 5, 6, 7, 8, 9, 11, 12, 13, 14, 15, 16, 17, 18, 19, 20, 21,
      58, 60, 61, 62, 63, 64, 65, 66, 67, 68, 71, 72, 77, 78, 88, 92, 93, 94, 95,
      96, 97, 104, 110, 112, 113, 116, 117, 198, 199, 200, 201, 203}
  {
  }

  lemma BankWordsDiffer(b: nat, k: nat, c: nat, l: nat)
    requires b < 9 && k < 9 && c < 9 && l < 9
    ensures BankWord(b, k) == BankWord(c, l) <==> b == c && k == l
  {
  }

  type Registers = r: seq<Word32> | |r| == WORDS witness seq(WORDS, _ => Bits({}))

  /** The three mode bits of a pin, the lowest first. */
  function ModeOf(r: Registers, pin: Pin): seq<bool> {
    Field(r[ModeWord(pin)], ModeShift(pin), 3)
  }

  function DataOf(r: Registers, pin: Pin): seq<bool> {
    Field(r[DataWord(pin)], Index(pin), 1)
  }

  function PullOf(r: Registers, pin: Pin): seq<bool> {
    Field(r[PullWord(pin)], PullShift(pin), 2)
  }

  function PeriodOf(r: Registers): seq<bool> {
    Field(r[PERIOD_WORD], 16, 16)
  }

  function ActOf(r: Registers): seq<bool> {
    Field(r[PERIOD_WORD], 0, 16)
  }

  lemma BitsOfField(w: Word32, o: nat)
    ensures o <= 30 ==> Field(w, o, 2) == [w[o], w[o + 1]]
    ensures o <= 29 ==> Field(w, o, 3) == [w[o], w[o + 1], w[o + 2]]
  {
  }

  /** A pin's bits in the mapping: four bits a mode, one bit a level, two bits a pull. */
  lemma PinBits(r: Registers, pin: Pin)
    ensures var mode := r[512 + 9 * (pin / 32) + pin % 32 / 8];
      ModeOf(r, pin) == [mode[pin % 8 * 4], mode[pin % 8 * 4 + 1], mode[pin % 8 * 4 + 2]]
    ensures DataOf(r, pin) == [r[512 + 9 * (pin / 32) + 4][pin % 32]]
    ensures var pull := r[512 + 9 * (pin / 32) + 7 + pin % 32 / 16];
      PullOf(r, pin) == [pull[pin % 16 * 2], pull[pin % 16 * 2 + 1]]
  {
    PlacesInNumbers(pin);
    BitsOfField(r[ModeWord(pin)], ModeShift(pin));
    BitsOfField(r[PullWord(pin)], PullShift(pin));
  }

  /** No two fields overlap: two pins have the same field or fields that are apart. */
  lemma ModesApart(p: Pin, q: Pin)
    ensures ModeWord(p) == ModeWord(q) ==>
      ModeShift(p) + 3 <= ModeShift(q) || ModeShift(q) + 3 <= ModeShift(p) || p == q
    ensures ModeWord(p) != DataWord(q) && ModeWord(p) != PullWord(q)
  {
    BankWordsDiffer(Bank(p), Index(p) / 8, Bank(q), Index(q) / 8);
    BankWordsDiffer(Bank(p), Index(p) / 8, Bank(q), 4);
    BankWordsDiffer(Bank(p), Index(p) / 8, Bank(q), 7 + Index(q) / 16);
  }

  lemma DataApart(p: Pin, q: Pin)
    ensures DataWord(p) == DataWord(q) && Index(p) == Index(q) ==> p == q
    ensures DataWord(p) != PullWord(q)
  {
    BankWordsDiffer(Bank(p), 4, Bank(q), 4);
    BankWordsDiffer(Bank(p), 4, Bank(q), 7 + Index(q) / 16);
  }

  lemma PullsApart(p: Pin, q: Pin)
    ensures PullWord(p) == PullWord(q) ==>
      PullShift(p) + 2 <= PullShift(q) || PullShift(q) + 2 <= PullShift(p) || p == q
  {
    BankWordsDiffer(Bank(p), 7 + Index(p) / 16, Bank(q), 7 + Index(q) / 16);
  }

  function Update(r: Registers, word: nat, o: nat, v: seq<bool>): Registers
    requires word < WORDS && o + |v| <= 32
  {
    r[word := SetField(r[word], o, v)]
  }

  datatype Op = SetMode(pin: Pin, mode: int) | Write(pin: Pin, value: int) | Pull(pin: Pin, pud: Word32)

  /** Pull settings have two bits: the one caller masks them. */
  predicate Allowed(op: Op) {
    op.Pull? ==> forall i | 2 <= i < 32 :: !op.pud[i]
  }

  function ModeCode(mode: int): (v: seq<bool>)
    requires 0 <= mode <= 2
    ensures |v| == 3
  {
    [mode != INPUT, mode == PWM_OUTPUT, false]
  }

  /** 0x70 and 0x04000200. */
  const PWM_CTRL_DEFAULT: Word32 := Bits({4, 5, 6})
  const PWM_PERIOD_DEFAULT: Word32 := Bits({9, 26})

  function WithPwmDefaults(r: Registers): Registers {
    r[PWM_CTRL_WORD := PWM_CTRL_DEFAULT][PERIOD_WORD := PWM_PERIOD_DEFAULT]
  }

  /** The word after a pull setting at bit o: two bits are replaced, wider settings or-ed in above them. */
  function Pulled(w: Word32, o: nat, pud: Word32): (r: Word32)
    requires o + 2 <= 32
    ensures forall i | 0 <= i < 32 :: r[i] == if o <= i < o + 2 then pud[i - o] else w[i] || (o <= i && pud[i - o])
  {
    seq(32, i requires 0 <= i < 32 => if o <= i < o + 2 then pud[i - o] else w[i] || (o <= i && pud[i - o]))
  }

  /** What an operation does to the registers as a whole. */
  function Done(r: Registers, op: Op): Registers {
    if !Exists(op.pin) then r
    else match op
      case SetMode(pin, mode) =>
        if mode < 0 || 2 < mode then r
        else
          var moded := Update(r, ModeWord(pin), ModeShift(pin), ModeCode(mode));
          if mode == PWM_OUTPUT then WithPwmDefaults(moded) else moded
      case Write(pin, value) => Update(r, DataWord(pin), Index(pin), [value != 0])
      case Pull(pin, pud) => r[PullWord(pin) := Pulled(r[PullWord(pin)], PullShift(pin), pud)]
  }

  /** Writing a level sets one bit of all. */
  lemma WriteInBits(r: Registers, pin: Pin, value: int, w: nat, i: nat)
    requires Exists(pin) && w < 2048 && i < 32
    ensures Done(r, Write(pin, value))[w][i] ==
      if w == 512 + 9 * (pin / 32) + 4 && i == pin % 32 then value != 0 else r[w][i]
  {
  }

  /** Choosing input or output sets three bits of all; PWM output also two words. */
  lemma SetModeInBits(r: Registers, pin: Pin, mode: int, w: nat, i: nat)
    requires Exists(pin) && w < 2048 && i < 32
    ensures Done(r, SetMode(pin, mode))[w][i] ==
      if mode == 2 && w == 1280 then i in {4, 5, 6}
      else if mode == 2 && w == 1281 then i in {9, 26}
      else if 0 <= mode <= 2 && w == 512 + 9 * (pin / 32) + pin % 32 / 8 && pin % 8 * 4 <= i < pin % 8 * 4 + 3 then
        [[false, false, false], [true, false, false], [true, true, false]][mode][i - pin % 8 * 4]
      else r[w][i]
  {
    PlacesInNumbers(pin);
  }

  /** A pull setting sets two bits and ors what is wider into the bits above them. */
  lemma PullInBits(r: Registers, pin: Pin, pud: Word32, w: nat, i: nat)
    requires Exists(pin) && w < 2048 && i < 32
    ensures Done(r, Pull(pin, pud))[w][i] ==
      if w != 512 + 9 * (pin / 32) + 7 + pin % 32 / 16 || i < pin % 16 * 2 then r[w][i]
      else if i < pin % 16 * 2 + 2 then pud[i - pin % 16 * 2]
      else r[w][i] || pud[i - pin % 16 * 2]
  {
    PlacesInNumbers(pin);
  }

  /** No word but this one differs. */
  ghost predicate OnlyChanged(r: Registers, s: Registers, word: nat) {
    forall w | 0 <= w < WORDS && w != word :: s[w] == r[w]
  }

  class Port {
    const regs: array<Word32>
    var pwmMode: int

    predicate Valid() {
      regs.Length == WORDS
    }

    method Readl(addr: nat) returns (val: Word32)
      requires Valid()
      ensures val == regs[Word(addr)]
    {
      val := regs[(addr % MAP_SIZE) / 4];
    }

    method Writel(val: Word32, addr: nat)
      requires Valid()
      modifies regs
      ensures regs[..] == old(regs[..])[Word(addr) := val]
    {
      regs[(addr % MAP_SIZE) / 4] := val;
    }

    method SetGpioMode(pin: Pin, mode: int)
      requires Valid()
      modifies regs, this`pwmMode
      ensures regs[..] == Done(old(regs[..]), SetMode(pin, mode))
      ensures pwmMode == if Exists(pin) && mode == PWM_OUTPUT then 0 else old(pwmMode)
    {
      if !Exists(pin) {
        return;
      }
      Addresses(pin);
      var regval := Readl(ModeAddr(pin));
      var offset := ModeShift(pin);
      ModeFields(regval, offset);
      if mode == INPUT {
        regval := And(regval, Not(Shl(Ones(3), offset)));
        Writel(regval, ModeAddr(pin));
      } else if mode == OUTPUT {
        regval := And(regval, Not(Shl(Ones(3), offset)));
        regval := Or(regval, Shl(Ones(1), offset));
        Writel(regval, ModeAddr(pin));
      } else if mode == PWM_OUTPUT {
        regval := And(regval, Not(Shl(Ones(3), offset)));
        regval := Or(regval, Shl(Ones(2), offset));
        Writel(regval, ModeAddr(pin));
        PwmDefaults();
      }
    }

    /** Registers cleared, then period 1024, half of it active, cycle mode, slowest clock, enabled. */
    method PwmDefaults()
      requires Valid()
      modifies regs, this`pwmMode
      ensures regs[..] == WithPwmDefaults(old(regs[..]))
      ensures pwmMode == 0
    {
      PwmAddresses();
      ghost var r := regs[..];
      Writel(Bits({}), PWM_CTRL);
      Writel(Bits({}), PWM_CH0_PERIOD);
      assert regs[..] == Cleared(r);
      PwmSetPeriod(Bits({10}));
      PwmSetAct(Bits({9}));
      assert regs[..] == HalfActive(Cleared(r));
      PwmSetMode(Bits({}));
      PwmSetClk(Bits({}));
      DefaultCtrl(regs[PWM_CTRL_WORD]);
      DefaultsReached(r, regs[..]);
    }

    /** Sixteen period bits go to the upper half; the lower half stays. */
    method PwmSetPeriod(period: Word32)
      requires Valid()
      modifies regs
      ensures regs[..] == Update(old(regs[..]), PERIOD_WORD, 16, Field(period, 0, 16))
      ensures forall i | 0 <= i < 32 :: regs[1281][i] == if i < 16 then old(regs[1281][i]) else period[i - 16]
    {
      PwmAddresses();
      PeriodField(regs[PERIOD_WORD], period);
      var cycles := Shl(And(period, Ones(16)), 16);
      var val := Readl(PWM_CH0_PERIOD);
      val := And(val, Ones(16));
      cycles := Or(cycles, val);
      Writel(cycles, PWM_CH0_PERIOD);
    }

    /** Sixteen active-cycle bits go to the lower half; the upper half stays. */
    method PwmSetAct(act: Word32)
      requires Valid()
      modifies regs
      ensures regs[..] == Update(old(regs[..]), PERIOD_WORD, 0, Field(act, 0, 16))
      ensures forall i | 0 <= i < 32 :: regs[1281][i] == if i < 16 then act[i] else old(regs[1281][i])
    {
      PwmAddresses();
      ActField(regs[PERIOD_WORD], act);
      var per0 := Readl(PWM_CH0_PERIOD);
      per0 := And(per0, Not(Ones(16)));
      var cycles := And(act, Ones(16));
      cycles := Or(cycles, per0);
      Writel(cycles, PWM_CH0_PERIOD);
    }

    method PwmGetPeriod() returns (period: Word32)
      requires Valid()
      ensures Field(period, 0, 16) == PeriodOf(regs[..])
      ensures forall i | 0 <= i < 32 :: period[i] == if i < 16 then regs[1281][i + 16] else false
    {
      PwmAddresses();
      var val := Readl(PWM_CH0_PERIOD);
      period := Shr(And(val, Not(Ones(16))), 16);
    }

    method PwmGetAct() returns (act: Word32)
      requires Valid()
      ensures Field(act, 0, 16) == ActOf(regs[..])
      ensures forall i | 0 <= i < 32 :: act[i] == if i < 16 then regs[1281][i] else false
    {
      PwmAddresses();
      var val := Readl(PWM_CH0_PERIOD);
      act := And(val, Ones(16));
    }

    /** Bit 7 follows the mode, bit 5 is set, bit 8 is set in pulse mode only; all else is kept. */
    method PwmSetMode(mode: Word32)
      requires Valid()
      modifies regs, this`pwmMode
      ensures OnlyChanged(old(regs[..]), regs[..], PWM_CTRL_WORD)
      ensures regs[PWM_CTRL_WORD][5] && regs[PWM_CTRL_WORD][7] == mode[0]
      ensures regs[PWM_CTRL_WORD][8] == (old(regs[PWM_CTRL_WORD][8]) || mode[0])
      ensures forall i | 0 <= i < 32 && i !in {5, 7, 8} :: regs[PWM_CTRL_WORD][i] == old(regs[PWM_CTRL_WORD][i])
      ensures pwmMode == if mode[0] then 1 else 0
    {
      PwmAddresses();
      var val := Readl(PWM_CTRL);
      if mode[0] {
        val := Or(val, Bits({7, 8}));
        pwmMode := 1;
      } else {
        val := And(val, Not(Bits({7})));
        pwmMode := 0;
      }
      val := Or(val, Bits({5}));
      Writel(val, PWM_CTRL);
    }

    /**
     Four clock bits go to bits 15 to 18, and channel and gate are enabled. The rest of either
     channel's control bits is kept, and every other bit is cleared.
     */
    method PwmSetClk(clk: Word32)
      requires Valid()
      modifies regs
      ensures OnlyChanged(old(regs[..]), regs[..], PWM_CTRL_WORD)
      ensures Field(regs[PWM_CTRL_WORD], 15, 4) == Field(clk, 0, 4)
      ensures regs[PWM_CTRL_WORD][4] && regs[PWM_CTRL_WORD][6]
      ensures forall i | i in {5, 7, 8} || 19 <= i < 24 :: regs[PWM_CTRL_WORD][i] == old(regs[PWM_CTRL_WORD][i])
      ensures forall i | 0 <= i < 4 || 9 <= i < 15 || 24 <= i < 32 :: !regs[PWM_CTRL_WORD][i]
    {
      PwmAddresses();
      var val := Readl(PWM_CTRL);
      val := And(val, Bits({4, 5, 6, 7, 8, 19, 20, 21, 22, 23}));
      val := Or(val, Shl(And(clk, Ones(4)), 15));
      Writel(val, PWM_CTRL);
      PwmSetEnable(true);
    }

    /** Channel enable and clock gate go on or off together; all else is kept. */
    method PwmSetEnable(en: bool)
      requires Valid()
      modifies regs
      ensures OnlyChanged(old(regs[..]), regs[..], PWM_CTRL_WORD)
      ensures regs[PWM_CTRL_WORD][4] == regs[PWM_CTRL_WORD][6] == en
      ensures forall i | 0 <= i < 32 && i !in {4, 6} :: regs[PWM_CTRL_WORD][i] == old(regs[PWM_CTRL_WORD][i])
    {
      PwmAddresses();
      var val := Readl(PWM_CTRL);
      if en {
        val := Or(val, Bits({4, 6}));
      } else {
        val := And(val, Not(Bits({4, 6})));
      }
      Writel(val, PWM_CTRL);
    }

    method GetGpioMode(pin: Pin) returns (mode: Word32)
      requires Valid()
      ensures Field(mode, 0, 3) == if Exists(pin) then ModeOf(regs[..], pin) else [false, false, false]
      ensures forall i | 3 <= i < 32 :: !mode[i]
    {
      if !Exists(pin) {
        return Bits({});
      }
      Addresses(pin);
      var regval := Readl(ModeAddr(pin));
      FieldShifted(regval, ModeShift(pin), 3);
      mode := And(Shr(regval, ModeShift(pin)), Ones(3));
    }

    method DigitalWrite(pin: Pin, value: int)
      requires Valid()
      modifies regs
      ensures regs[..] == Done(old(regs[..]), Write(pin, value))
    {
      if !Exists(pin) {
        return;
      }
      Addresses(pin);
      var regval := Readl(DataAddr(pin));
      OneBitIsField(regval, Index(pin));
      if value == 0 {
        regval := And(regval, Not(Shl(Ones(1), Index(pin))));
        Writel(regval, DataAddr(pin));
      } else {
        regval := Or(regval, Shl(Ones(1), Index(pin)));
        Writel(regval, DataAddr(pin));
      }
    }

    method DigitalRead(pin: Pin) returns (value: Word32)
      requires Valid()
      ensures Field(value, 0, 1) == if Exists(pin) then DataOf(regs[..], pin) else [false]
      ensures forall i | 1 <= i < 32 :: !value[i]
    {
      if !Exists(pin) {
        return Bits({});
      }
      Addresses(pin);
      var regval := Readl(DataAddr(pin));
      FieldShifted(regval, Index(pin), 1);
      regval := Shr(regval, Index(pin));
      value := And(regval, Ones(1));
    }

    method PullUpDnControl(pin: Pin, pud: Word32)
      requires Valid()
      modifies regs
      ensures regs[..] == Done(old(regs[..]), Pull(pin, pud))
      ensures Exists(pin) ==> PullOf(regs[..], pin) == Field(pud, 0, 2)
      ensures OnlyChanged(old(regs[..]), regs[..], PullWord(pin))
    {
      if Exists(pin) {
        Addresses(pin);
        var o := PullShift(pin);
        var regval := Readl(PullAddr(pin));
        MaskedIsPulled(regval, o, pud);
        regval := And(regval, Not(Shl(Ones(2), o)));
        regval := Or(regval, Shl(pud, o));
        Writel(regval, PullAddr(pin));
      }
    }
  }

  lemma MaskedIsPulled(w: Word32, o: nat, pud: Word32)
    requires o + 2 <= 32
    ensures Or(And(w, Not(Shl(Ones(2), o))), Shl(pud, o)) == Pulled(w, o, pud)
  {
    var got, want := Or(And(w, Not(Shl(Ones(2), o))), Shl(pud, o)), Pulled(w, o, pud);
    forall i | 0 <= i < 32 ensures got[i] == want[i] {}
  }

  lemma ModeFields(w: Word32, o: nat)
    requires o <= 28
    ensures And(w, Not(Shl(Ones(3), o))) == SetField(w, o, ModeCode(INPUT))
    ensures Or(And(w, Not(Shl(Ones(3), o))), Shl(Ones(1), o)) == SetField(w, o, ModeCode(OUTPUT))
    ensures Or(And(w, Not(Shl(Ones(3), o))), Shl(Ones(2), o)) == SetField(w, o, ModeCode(PWM_OUTPUT))
  {
    ClearedIsField(w, o, 3);
    MaskedIsField(w, o, 3, Ones(1));
    MaskedIsField(w, o, 3, Ones(2));
    assert Field(Bits({}), 0, 3) == ModeCode(INPUT);
    assert Field(Ones(1), 0, 3) == ModeCode(OUTPUT);
    assert Field(Ones(2), 0, 3) == ModeCode(PWM_OUTPUT);
  }

  lemma PeriodField(w: Word32, period: Word32)
    ensures Or(Shl(And(period, Ones(16)), 16), And(w, Ones(16))) == SetField(w, 16, Field(period, 0, 16))
  {
    var got, want := Or(Shl(And(period, Ones(16)), 16), And(w, Ones(16))), SetField(w, 16, Field(period, 0, 16));
    forall i | 0 <= i < 32 ensures got[i] == want[i] {}
  }

  lemma ActField(w: Word32, act: Word32)
    ensures Or(And(act, Ones(16)), And(w, Not(Ones(16)))) == SetField(w, 0, Field(act, 0, 16))
  {
    var got, want := Or(And(act, Ones(16)), And(w, Not(Ones(16)))), SetField(w, 0, Field(act, 0, 16));
    forall i | 0 <= i < 32 ensures got[i] == want[i] {}
  }

  lemma FieldShifted(w: Word32, o: nat, n: nat)
    requires o + n <= 32
    ensures Field(And(Shr(w, o), Ones(n)), 0, n) == Field(w, o, n)
  {
    var got, want := Field(And(Shr(w, o), Ones(n)), 0, n), Field(w, o, n);
    forall i | 0 <= i < n ensures got[i] == want[i] {}
  }

  function Cleared(r: Registers): Registers {
    r[PWM_CTRL_WORD := Bits({})][PERIOD_WORD := Bits({})]
  }

  function HalfActive(r: Registers): Registers {
    Update(Update(r, PERIOD_WORD, 16, Field(Bits({10}), 0, 16)), PERIOD_WORD, 0, Field(Bits({9}), 0, 16))
  }

  lemma DefaultsReached(r: Registers, after: Registers)
    requires OnlyChanged(HalfActive(Cleared(r)), after, PWM_CTRL_WORD)
    requires after[PWM_CTRL_WORD] == PWM_CTRL_DEFAULT
    ensures after == WithPwmDefaults(r)
  {
    DefaultPeriod();
  }

  lemma DefaultCtrl(w: Word32)
    requires Field(w, 15, 4) == Field(Bits({}), 0, 4)
    requires w[4] && w[5] && w[6] && !w[7] && !w[8]
    requires forall i | 0 <= i < 4 || 9 <= i < 15 || 19 <= i < 32 :: !w[i]
    ensures w == PWM_CTRL_DEFAULT
  {
    forall i | 15 <= i < 19 ensures !w[i] {
      assert Field(w, 15, 4)[i - 15] == w[i];
    }
  }

  lemma DefaultPeriod()
    ensures SetField(SetField(Bits({}), 16, Field(Bits({10}), 0, 16)), 0, Field(Bits({9}), 0, 16)) == PWM_PERIOD_DEFAULT
  {
    var upper := SetField(Bits({}), 16, Field(Bits({10}), 0, 16));
    var got := SetField(upper, 0, Field(Bits({9}), 0, 16));
    forall i | 0 <= i < 32 ensures got[i] == PWM_PERIOD_DEFAULT[i] {}
  }

  /** Either half of the period word reads back what was set and leaves the other. */
  lemma HalvesAreSeparate(r: Registers, v: Word32)
    ensures var s := Update(r, PERIOD_WORD, 16, Field(v, 0, 16));
      PeriodOf(s) == Field(v, 0, 16) && ActOf(s) == ActOf(r)
    ensures var s := Update(r, PERIOD_WORD, 0, Field(v, 0, 16));
      ActOf(s) == Field(v, 0, 16) && PeriodOf(s) == PeriodOf(r)
  {
    FieldAfterSet(r[PERIOD_WORD], 16, 16, Field(v, 0, 16));
    FieldAfterSet(r[PERIOD_WORD], 16, 0, Field(v, 0, 16));
    FieldAfterSet(r[PERIOD_WORD], 0, 16, Field(v, 0, 16));
    FieldAfterSet(r[PERIOD_WORD], 0, 0, Field(v, 0, 16));
  }

  /** A pull setting wider than two bits turns on a bit of the pull field of q, further up in its pin's word. */
  predicate Spills(r: Registers, op: Op, q: Pin) {
    op.Pull? && Exists(op.pin) && PullWord(op.pin) == PullWord(q) &&
    Reaches(op.pud, PullShift(op.pin), PullShift(q), PullOf(r, q))
  }

  /** The setting, placed at bit o, has a bit at p or p + 1 that the field there has not. */
  predicate Reaches(pud: Word32, o: nat, p: nat, field: seq<bool>)
    requires o <= 30 && p <= 30 && |field| == 2
  {
    o < p && ((pud[p - o] && !field[0]) || (pud[p - o + 1] && !field[1]))
  }

  /** Any pin reads as if the operation had set one field of its one pin, exactly when no pull setting spills. */
  lemma OperationTouchesOneField(r: Registers, op: Op, q: Pin)
    requires Exists(q)
    ensures FieldsOf(Done(r, op), q) == Set(FieldsOf(r, q), op, q) <==> !Spills(r, op, q)
  {
    if Exists(op.pin) {
      match op
      case SetMode(pin, mode) => ModeTouchesOneField(r, pin, mode, q);
      case Write(pin, value) => WriteTouchesOneField(r, pin, value, q);
      case Pull(pin, pud) => PullTouchesOneField(r, pin, pud, q);
    }
  }

  lemma ModeTouchesOneField(r: Registers, pin: Pin, mode: int, q: Pin)
    requires Exists(pin)
    ensures FieldsOf(Done(r, SetMode(pin, mode)), q) == Set(FieldsOf(r, q), SetMode(pin, mode), q)
  {
    if 0 <= mode <= 2 {
      var moded := Update(r, ModeWord(pin), ModeShift(pin), ModeCode(mode));
      ModeFieldTouchesOne(r, pin, ModeCode(mode), q);
      PwmDefaultsTouchNoPin(moded, q);
    }
  }

  lemma PwmDefaultsTouchNoPin(r: Registers, q: Pin)
    ensures FieldsOf(WithPwmDefaults(r), q) == FieldsOf(r, q)
  {
  }

  lemma ModeFieldTouchesOne(r: Registers, pin: Pin, v: seq<bool>, q: Pin)
    requires |v| == 3
    ensures FieldsOf(Update(r, ModeWord(pin), ModeShift(pin), v), q) ==
      if pin == q then FieldsOf(r, q).(mode := v) else FieldsOf(r, q)
  {
    ModesApart(pin, q);
    if ModeWord(pin) == ModeWord(q) {
      FieldAfterSet(r[ModeWord(pin)], ModeShift(pin), ModeShift(q), v);
    }
  }

  lemma WriteTouchesOneField(r: Registers, pin: Pin, value: int, q: Pin)
    requires Exists(pin)
    ensures FieldsOf(Done(r, Write(pin, value)), q) == Set(FieldsOf(r, q), Write(pin, value), q)
  {
    DataApart(pin, q);
    ModesApart(q, pin);
    FieldAfterSet(r[DataWord(pin)], Index(pin), Index(q), [value != 0]);
  }

  lemma PullTouchesOneField(r: Registers, pin: Pin, pud: Word32, q: Pin)
    requires Exists(pin) && Exists(q)
    ensures var op := Pull(pin, pud);
      FieldsOf(Done(r, op), q) == Set(FieldsOf(r, q), op, q) <==> !Spills(r, op, q)
  {
    var after := Done(r, Pull(pin, pud));
    PullsApart(pin, q);
    assert ModeOf(after, q) == ModeOf(r, q) by { ModesApart(q, pin); }
    assert DataOf(after, q) == DataOf(r, q) by { DataApart(q, pin); }
    if PullWord(pin) == PullWord(q) {
      FieldAfterPull(r[PullWord(pin)], PullShift(pin), PullShift(q), pud);
    }
  }

  lemma FieldAfterPull(w: Word32, o: nat, p: nat, pud: Word32)
    requires o <= 30 && p <= 30 && (o == p || o + 2 <= p || p + 2 <= o)
    ensures o == p ==> Field(Pulled(w, o, pud), p, 2) == Field(pud, 0, 2)
    ensures o != p ==> (Field(Pulled(w, o, pud), p, 2) == Field(w, p, 2) <==> !Reaches(pud, o, p, Field(w, p, 2)))
  {
    var after := Pulled(w, o, pud);
    assert Field(after, p, 2) == [after[p], after[p + 1]] && Field(w, p, 2) == [w[p], w[p + 1]];
    assert Field(pud, 0, 2) == [pud[0], pud[1]];
  }

  /** The three fields of a pin. */
  datatype Fields = Fields(mode: seq<bool>, data: seq<bool>, pull: seq<bool>)

  function FieldsOf(r: Registers, q: Pin): Fields {
    Fields(ModeOf(r, q), DataOf(r, q), PullOf(r, q))
  }

  /** The fields of one pin if it alone existed: an operation on it sets one of them. */
  function Set(f: Fields, op: Op, q: Pin): Fields {
    if op.pin != q then f
    else match op
      case SetMode(_, mode) => if 0 <= mode <= 2 then f.(mode := ModeCode(mode)) else f
      case Write(_, value) => f.(data := [value != 0])
      case Pull(_, pud) => f.(pull := Field(pud, 0, 2))
  }

  function DoneAll(r: Registers, ops: seq<Op>): Registers
    decreases |ops|
  {
    if ops == [] then r else Done(DoneAll(r, ops[..|ops| - 1]), ops[|ops| - 1])
  }

  function LastSet(first: Fields, ops: seq<Op>, q: Pin): Fields
    decreases |ops|
  {
    if ops == [] then first else Set(LastSet(first, ops[..|ops| - 1], q), ops[|ops| - 1], q)
  }

  /** After k operations pin q reads what was last set on it alone. */
  ghost predicate Undisturbed(r: Registers, ops: seq<Op>, k: nat, q: Pin)
    requires k <= |ops|
  {
    FieldsOf(DoneAll(r, ops[..k]), q) == LastSet(FieldsOf(r, q), ops[..k], q)
  }

  lemma StaysUndisturbed(r: Registers, ops: seq<Op>, k: nat, q: Pin)
    requires Exists(q) && k < |ops| && Undisturbed(r, ops, k, q)
    ensures Undisturbed(r, ops, k + 1, q) <==> !Spills(DoneAll(r, ops[..k]), ops[k], q)
  {
    assert ops[..k + 1][..k] == ops[..k];
    OperationTouchesOneField(DoneAll(r, ops[..k]), ops[k], q);
  }

  /** Over every run a pin reads what was last set on it alone if and only if no pull setting spills into it. */
  lemma PinsDoNotInterfereIff(r: Registers, ops: seq<Op>, q: Pin)
    requires Exists(q)
    ensures (forall k | 0 <= k <= |ops| :: Undisturbed(r, ops, k, q)) <==>
      (forall k | 0 <= k < |ops| :: !Spills(DoneAll(r, ops[..k]), ops[k], q))
  {
    var u := seq(|ops| + 1, k requires 0 <= k <= |ops| => Undisturbed(r, ops, k, q));
    var v := seq(|ops|, k requires 0 <= k < |ops| => !Spills(DoneAll(r, ops[..k]), ops[k], q));
    assert ops[..0] == [];
    forall k | 0 <= k < |ops| && u[k] ensures u[k + 1] <==> v[k] {
      StaysUndisturbed(r, ops, k, q);
    }
    Runs.HoldsAlong(u, v);
    assert forall k | 0 <= k <= |ops| :: u[k] <==> Undisturbed(r, ops, k, q);
    assert forall k | 0 <= k < |ops| :: v[k] <==> !Spills(DoneAll(r, ops[..k]), ops[k], q);
  }

  /** So with masked pull settings, after any operations on any pins, every pin reads what was last set on it alone. */
  lemma PinsDoNotInterfere(r: Registers, ops: seq<Op>, q: Pin)
    requires Exists(q)
    requires forall op <- ops :: Allowed(op)
    ensures FieldsOf(DoneAll(r, ops), q) == LastSet(FieldsOf(r, q), ops, q)
  {
    forall k | 0 <= k < |ops| ensures !Spills(DoneAll(r, ops[..k]), ops[k], q) {
      MaskedNeverSpills(DoneAll(r, ops[..k]), ops[k], q);
    }
    PinsDoNotInterfereIff(r, ops, q);
    assert Undisturbed(r, ops, |ops|, q);
    assert ops[..|ops|] == ops;
  }

  lemma MaskedNeverSpills(r: Registers, op: Op, q: Pin)
    requires Allowed(op)
    ensures !Spills(r, op, q)
  {
    PullsApart(op.pin, q);
  }

  /** The caller's table for off (0), down (1) and up (2), masked to two bits. */
  function Converted(pud: nat): (w: Word32)
    requires pud < 3
    ensures Allowed(Pull(0, w))
  {
    And([Bits({0, 1, 2}), Bits({0, 1, 2}), Bits({0, 2})][pud], Ones(2))
  }

  /** Off and down leave a pin's pull bits alike; only up differs from them. */
  lemma OffAndDownAreAlike(r: Registers, pin: Pin, a: nat, b: nat)
    requires a < 3 && b < 3 && Exists(pin)
    ensures PullOf(Done(r, Pull(pin, Converted(a))), pin) == PullOf(Done(r, Pull(pin, Converted(b))), pin) <==>
      (a == 2 <==> b == 2)
  {
    OperationTouchesOneField(r, Pull(pin, Converted(a)), pin);
    OperationTouchesOneField(r, Pull(pin, Converted(b)), pin);
    assert Field(Converted(a), 0, 2) == [true, a != 2];
    assert Field(Converted(b), 0, 2) == [true, b != 2];
  }

  /** The mask in the caller matters: a third pull bit lands in the neighbour's field. */
  lemma WidePullReachesNeighbour(w: Word32, o: nat, pud: Word32)
    requires o + 4 <= 32
    ensures Field(Or(And(w, Not(Shl(Ones(2), o))), Shl(pud, o)), o + 2, 2) == Field(w, o + 2, 2) <==>
      (pud[2] ==> w[o + 2]) && (pud[3] ==> w[o + 3])
  {
    var after := Or(And(w, Not(Shl(Ones(2), o))), Shl(pud, o));
    assert Field(after, o + 2, 2) == [after[o + 2], after[o + 3]];
    assert Field(w, o + 2, 2) == [w[o + 2], w[o + 3]];
  }
}
