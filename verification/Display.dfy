/**
 What travels to the two halves of the panel and what their controllers make of it.
 A controller holds a page and a column; data bytes are stored under them and move
 the column on.
 */
module Display {

  datatype Chip = CS1 | CS2

  datatype BusOp = Command(chip: Chip, code: bv8) | Data(chip: Chip, value: bv8)

  datatype Controller = Controller(page: int, column: int, ram: seq<bv8>) {
    predicate Valid() {
      0 <= page < 8 && 0 <= column < 64 && |ram| == 512
    }
  }

  function Apply(c: Controller, op: BusOp): (r: Controller)
    requires c.Valid()
    ensures r.Valid()
  {
    match op
    case Command(_, code) =>
      if code & 0xC0 == 0x40 then c.(column := (code & 0x3F) as int)
      else if code & 0xF8 == 0xB8 then c.(page := (code & 0x07) as int)
      else c
    case Data(_, value) =>
      c.(ram := c.ram[c.page * 64 + c.column := value], column := (c.column + 1) % 64)
  }

  /** What the controller of one half makes of everything on the bus. */
  function Feed(c: Controller, chip: Chip, ops: seq<BusOp>): (r: Controller)
    requires c.Valid()
    ensures r.Valid()
    decreases ops
  {
    if ops == [] then c
    else Feed(if ops[0].chip == chip then Apply(c, ops[0]) else c, chip, ops[1..])
  }

  lemma {:induction false} FeedConcat(c: Controller, chip: Chip, a: seq<BusOp>, b: seq<BusOp>)
    requires c.Valid()
    ensures Feed(c, chip, a + b) == Feed(Feed(c, chip, a), chip, b)
    decreases a
  {
    if a == [] {
      assert a + b == b;
    } else {
      assert (a + b)[1..] == a[1..] + b;
      FeedConcat(if a[0].chip == chip then Apply(c, a[0]) else c, chip, a[1..], b);
    }
  }

  lemma {:induction false} FeedOtherChip(c: Controller, chip: Chip, ops: seq<BusOp>)
    requires c.Valid()
    requires forall op <- ops :: op.chip != chip
    ensures Feed(c, chip, ops) == c
    decreases ops
  {
    if ops != [] { FeedOtherChip(c, chip, ops[1..]); }
  }

  predicate Bit(b: bv8, k: nat)
    requires k < 8
  {
    (b >> k) & 1 == 1
  }

  /** Panel row shown by bit y of page `line`. */
  function RowOf(line: int, y: int): int {
    (7 - line) * 8 + (7 - y)
  }

  predicate Lit(buffer: seq<int>, x: int, line: int, y: int)
    requires |buffer| == 8192 && 0 <= x < 128 && 0 <= line < 8 && 0 <= y < 8
  {
    buffer[x + RowOf(line, y) * 128] != 0
  }

  /** The lowest n bits of the byte for column x of page `line`. */
  function ColumnByte(buffer: seq<int>, x: int, line: int, n: nat): bv8
    requires |buffer| == 8192 && 0 <= x < 128 && 0 <= line < 8 && n <= 8
  {
    if n == 0 then 0
    else
      var below := ColumnByte(buffer, x, line, n - 1);
      if Lit(buffer, x, line, n - 1) then below | (1 << (n - 1)) else below
  }

  lemma OrBit(b: bv8, j: nat, k: nat)
    requires j < 8 && k < 8
    ensures Bit(b | (1 << j), k) <==> (Bit(b, k) || j == k)
  {
    SingleBit(j, k);
    assert Bit(b | (1 << j), k) <==> (Bit(b, k) || Bit(1 << j, k)) by {
      OrSplits(b, 1 << j, k as bv8);
      ShiftAmount(b | (1 << j), k);
      ShiftAmount(b, k);
      ShiftAmount(1 << j, k);
    }
  }

  lemma ShiftAmount(b: bv8, k: nat)
    requires k < 8
    ensures b >> k == b >> (k as bv8)
  {
    if k == 0 {} else if k == 1 {} else if k == 2 {} else if k == 3 {}
    else if k == 4 {} else if k == 5 {} else if k == 6 {} else {}
  }

  lemma OrSplits(b: bv8, c: bv8, k: bv8)
    requires k < 8
    ensures ((b | c) >> k) & 1 == 1 <==> ((b >> k) & 1 == 1 || (c >> k) & 1 == 1)
  {
  }

  lemma SingleBit(j: nat, k: nat)
    requires j < 8 && k < 8
    ensures Bit(1 << j, k) <==> j == k
  {
    assert (1 as bv8) << 0 == 1 && (1 as bv8) << 1 == 2 && (1 as bv8) << 2 == 4 && (1 as bv8) << 3 == 8;
    assert (1 as bv8) << 4 == 16 && (1 as bv8) << 5 == 32 && (1 as bv8) << 6 == 64 && (1 as bv8) << 7 == 128;
    var b: bv8 := 1 << j;
    assert b == 1 || b == 2 || b == 4 || b == 8 || b == 16 || b == 32 || b == 64 || b == 128;
    if k == 0 {} else if k == 1 {} else if k == 2 {} else if k == 3 {}
    else if k == 4 {} else if k == 5 {} else if k == 6 {} else {}
  }

  lemma {:induction false} ColumnBit(buffer: seq<int>, x: int, line: int, n: nat, k: nat)
    requires |buffer| == 8192 && 0 <= x < 128 && 0 <= line < 8 && n <= 8 && k < 8
    ensures Bit(ColumnByte(buffer, x, line, n), k) <==> k < n && Lit(buffer, x, line, k)
  {
    if n == 0 {
      if k == 0 {} else if k == 1 {} else if k == 2 {} else if k == 3 {}
      else if k == 4 {} else if k == 5 {} else if k == 6 {} else {}
    } else {
      ColumnBit(buffer, x, line, n - 1, k);
      OrBit(ColumnByte(buffer, x, line, n - 1), n - 1, k);
    }
  }

  function SetCol(chip: Chip, col: bv8): BusOp {
    Command(chip, 0x40 | (col & 0x3F))
  }

  function SetLine(chip: Chip, line: bv8): BusOp {
    Command(chip, 0xB8 | (line & 0x07))
  }

  /** The data bytes of one page: n columns from `right` leftwards. */
  function PageData(buffer: seq<int>, chip: Chip, right: int, line: int, n: nat): (ops: seq<BusOp>)
    requires |buffer| == 8192 && 63 <= right < 128 && 0 <= line < 8 && n <= 64
    ensures |ops| == n
    ensures forall op <- ops :: op.chip == chip
  {
    if n == 0 then []
    else PageData(buffer, chip, right, line, n - 1) + [Data(chip, ColumnByte(buffer, right - (n - 1), line, 8))]
  }

  /** The i-th data byte of a page is the one of the i-th column from the right. */
  lemma {:induction false} PageDataAt(buffer: seq<int>, chip: Chip, right: int, line: int, n: nat, i: nat)
    requires |buffer| == 8192 && 63 <= right < 128 && 0 <= line < 8 && i < n <= 64
    ensures PageData(buffer, chip, right, line, n)[i] == Data(chip, ColumnByte(buffer, right - i, line, 8))
  {
    if i < n - 1 { PageDataAt(buffer, chip, right, line, n - 1, i); }
  }

  lemma CommandsInNumbers(chip: Chip, line: int)
    requires 0 <= line < 8
    ensures SetCol(chip, 0) == Command(chip, 0x40)
    ensures SetLine(chip, line as bv8) == Command(chip, 0xB8 | (line as bv8))
  {
    var b := line as bv8;
    assert b < 8;
    LowBits(b);
  }

  lemma LowBits(b: bv8)
    requires b < 8
    ensures b & 0x07 == b
  {
  }

  /** A bit is a binary digit of the byte. */
  lemma BitIsDigit(b: bv8, k: nat)
    requires k < 8
    ensures Bit(b, k) <==> (b & [0x01, 0x02, 0x04, 0x08, 0x10, 0x20, 0x40, 0x80][k]) != 0
  {
    if k == 0 {} else if k == 1 {} else if k == 2 {} else if k == 3 {}
    else if k == 4 {} else if k == 5 {} else if k == 6 {} else {}
  }

  function PageOps(buffer: seq<int>, chip: Chip, right: int, line: int): (ops: seq<BusOp>)
    requires |buffer| == 8192 && 63 <= right < 128 && 0 <= line < 8
    ensures forall op <- ops :: op.chip == chip
  {
    [SetCol(chip, 0), SetLine(chip, line as bv8)] + PageData(buffer, chip, right, line, 64)
  }

  /** A page is its two address commands, then its columns from right to left. */
  lemma PageOpsInNumbers(buffer: seq<int>, chip: Chip, right: int, line: int)
    requires |buffer| == 8192 && 63 <= right < 128 && 0 <= line < 8
    ensures var ops := PageOps(buffer, chip, right, line);
      |ops| == 66 && ops[0] == Command(chip, 0x40) && ops[1] == Command(chip, 0xB8 | (line as bv8)) &&
      forall i | 2 <= i < 66 :: ops[i] == Data(chip, ColumnByte(buffer, right - (i - 2), line, 8))
  {
    CommandsInNumbers(chip, line);
    var ops, data := PageOps(buffer, chip, right, line), PageData(buffer, chip, right, line, 64);
    forall i | 2 <= i < 66 ensures ops[i] == Data(chip, ColumnByte(buffer, right - (i - 2), line, 8)) {
      PageDataAt(buffer, chip, right, line, 64, i - 2);
      assert ops[i] == data[i - 2];
    }
  }

  /** The first n pages of one half. */
  function HalfOps(buffer: seq<int>, chip: Chip, right: int, n: nat): (ops: seq<BusOp>)
    requires |buffer| == 8192 && 63 <= right < 128 && n <= 8
    ensures forall op <- ops :: op.chip == chip
  {
    if n == 0 then []
    else HalfOps(buffer, chip, right, n - 1) + PageOps(buffer, chip, right, n - 1)
  }

  /** Everything one refresh sends: the left half, then the right half. */
  function UpdateOps(buffer: seq<int>): seq<BusOp>
    requires |buffer| == 8192
  {
    HalfOps(buffer, CS1, 63, 8) + HalfOps(buffer, CS2, 127, 8)
  }

  lemma FeedOne(c: Controller, chip: Chip, op: BusOp)
    requires c.Valid() && op.chip == chip
    ensures Feed(c, chip, [op]) == Apply(c, op)
  {
    assert Feed(Apply(c, op), chip, [op][1..]) == Apply(c, op);
  }

  lemma AddressCommands(c: Controller, chip: Chip, line: int)
    requires c.Valid() && 0 <= line < 8
    ensures Apply(c, SetCol(chip, 0)) == c.(column := 0)
    ensures Apply(c, SetLine(chip, line as bv8)) == c.(page := line)
  {
    var b := line as bv8;
    assert b < 8;
    MaskedLine(b);
    assert (0x40 as bv8) | ((0 as bv8) & 0x3F) == 0x40;
    assert (0x40 as bv8) & 0xC0 == 0x40 && (0x40 as bv8) & 0x3F == 0;
  }

  lemma MaskedLine(b: bv8)
    requires b < 8
    ensures (0xB8 | (b & 0x07)) & 0xC0 != 0x40
    ensures (0xB8 | (b & 0x07)) & 0xF8 == 0xB8
    ensures (0xB8 | (b & 0x07)) & 0x07 == b
  {
  }

  /** A page's data bytes land in its columns, and nowhere else. */
  lemma {:induction false} FeedPageData(c: Controller, chip: Chip, buffer: seq<int>, right: int, line: int, n: nat)
    requires c.Valid() && c.page == line && c.column == 0
    requires |buffer| == 8192 && 63 <= right < 128 && 0 <= line < 8 && n <= 64
    ensures var r := Feed(c, chip, PageData(buffer, chip, right, line, n));
      r.page == line && r.column == n % 64 &&
      (forall i | 0 <= i < 512 :: r.ram[i] ==
        if line * 64 <= i < line * 64 + n then ColumnByte(buffer, right - (i - line * 64), line, 8) else c.ram[i])
  {
    if 0 < n {
      FeedPageData(c, chip, buffer, right, line, n - 1);
      var before := PageData(buffer, chip, right, line, n - 1);
      var op := Data(chip, ColumnByte(buffer, right - (n - 1), line, 8));
      FeedConcat(c, chip, before, [op]);
      FeedOne(Feed(c, chip, before), chip, op);
    }
  }

  lemma FeedPage(c: Controller, chip: Chip, buffer: seq<int>, right: int, line: int)
    requires c.Valid() && |buffer| == 8192 && 63 <= right < 128 && 0 <= line < 8
    ensures var r := Feed(c, chip, PageOps(buffer, chip, right, line));
      forall i | 0 <= i < 512 :: r.ram[i] ==
        if line * 64 <= i < line * 64 + 64 then ColumnByte(buffer, right - (i - line * 64), line, 8) else c.ram[i]
  {
    var col, page := SetCol(chip, 0), SetLine(chip, line as bv8);
    AddressCommands(c, chip, line);
    AddressCommands(c.(column := 0), chip, line);
    assert [col, page] == [col] + [page];
    FeedConcat(c, chip, [col], [page]);
    FeedOne(c, chip, col);
    FeedOne(c.(column := 0), chip, page);
    var ready := c.(column := 0, page := line);
    FeedConcat(c, chip, [col, page], PageData(buffer, chip, right, line, 64));
    FeedPageData(ready, chip, buffer, right, line, 64);
  }

  /** The first n pages of a half hold the bytes of its columns. */
  ghost predicate HoldsPages(c: Controller, buffer: seq<int>, right: int, n: nat)
    requires c.Valid() && |buffer| == 8192 && 63 <= right < 128 && n <= 8
  {
    forall i | 0 <= i < n * 64 :: c.ram[i] == ColumnByte(buffer, right - i % 64, i / 64, 8)
  }

  lemma {:induction false} FeedHalf(c: Controller, chip: Chip, buffer: seq<int>, right: int, n: nat)
    requires c.Valid() && |buffer| == 8192 && 63 <= right < 128 && n <= 8
    ensures HoldsPages(Feed(c, chip, HalfOps(buffer, chip, right, n)), buffer, right, n)
  {
    if 0 < n {
      var line := n - 1;
      var before := HalfOps(buffer, chip, right, line);
      var mid := Feed(c, chip, before);
      var r := Feed(mid, chip, PageOps(buffer, chip, right, line));
      FeedHalf(c, chip, buffer, right, line);
      FeedConcat(c, chip, before, PageOps(buffer, chip, right, line));
      FeedPage(mid, chip, buffer, right, line);
      forall i | 0 <= i < n * 64
        ensures r.ram[i] == ColumnByte(buffer, right - i % 64, i / 64, 8)
      {
        if i < line * 64 {
          assert r.ram[i] == mid.ram[i];
        } else {
          assert i / 64 == line && i % 64 == i - line * 64;
        }
      }
    }
  }

  function RightEdge(chip: Chip): int {
    if chip == CS1 then 63 else 127
  }

  lemma FeedUpdate(c: Controller, chip: Chip, buffer: seq<int>, i: nat)
    requires c.Valid() && |buffer| == 8192 && i < 512
    ensures Feed(c, chip, UpdateOps(buffer)).ram[i] == ColumnByte(buffer, RightEdge(chip) - i % 64, i / 64, 8)
  {
    var a, b := HalfOps(buffer, CS1, 63, 8), HalfOps(buffer, CS2, 127, 8);
    FeedConcat(c, chip, a, b);
    if chip == CS1 {
      FeedOtherChip(Feed(c, CS1, a), CS1, b);
    } else {
      FeedOtherChip(c, CS2, a);
    }
    FeedHalf(c, chip, buffer, RightEdge(chip), 8);
    assert HoldsPages(Feed(c, chip, UpdateOps(buffer)), buffer, RightEdge(chip), 8);
  }

  function ChipOf(x: int): Chip {
    if x < 64 then CS1 else CS2
  }

  /** Where a controller keeps the byte of panel column x, row y. */
  function RamAddress(x: int, y: int): int {
    (7 - y / 8) * 64 + (63 - x % 64)
  }

  lemma RamAddressInverse(x: int, y: int)
    requires 0 <= x < 128 && 0 <= y < 64
    ensures var i := RamAddress(x, y);
      0 <= i < 512 && i / 64 == 7 - y / 8 && RightEdge(ChipOf(x)) - i % 64 == x
    ensures RowOf(7 - y / 8, 7 - y % 8) == y
  {
  }

  /** Whether the panel shows a lit pixel at column x, row y, given the memory of its half. */
  predicate Shows(half: Controller, x: int, y: int)
    requires half.Valid() && 0 <= x < 128 && 0 <= y < 64
  {
    RamAddressInverse(x, y);
    Bit(half.ram[RamAddress(x, y)], 7 - y % 8)
  }

  /**
   Whatever the controllers held before, after one refresh the panel shows exactly the
   non-zero cells of the buffer.
   */
  lemma UpdateShowsBuffer(half: Controller, buffer: seq<int>, x: int, y: int)
    requires half.Valid() && |buffer| == 8192 && 0 <= x < 128 && 0 <= y < 64
    ensures Shows(Feed(half, ChipOf(x), UpdateOps(buffer)), x, y) <==> buffer[x + y * 128] != 0
  {
    RamAddressInverse(x, y);
    FeedUpdate(half, ChipOf(x), buffer, RamAddress(x, y));
    ColumnBit(buffer, x, 7 - y / 8, 8, 7 - y % 8);
  }
}
