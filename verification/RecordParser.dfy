/** Reading level and tag back from a finished record. */
module RecordParser {
  import opened Record
  import opened TagFilter
  import opened Wrappers

  const COLOR_LEN: nat := 6
  const PREFIX_LEN: nat := 10

  /** The record carries the colour of the level behind the escape sequence's start. */
  predicate LevelMarked(log: string, level: nat)
    requires level < LEVELS
  {
    8 <= |log| && log[2..8] == Color(level)
  }

  /** The tag stands after the fixed prefix, is free of spaces and is followed by one. */
  predicate TagFound(log: string, tag: string) {
    |tag| < TAG_MAX_LEN && PREFIX_LEN + |tag| < |log| &&
    log[PREFIX_LEN..PREFIX_LEN + |tag|] == tag && log[PREFIX_LEN + |tag|] == ' ' && ' ' !in tag
  }

  method FindLvl(log: string) returns (level: int)
    ensures -1 <= level < LEVELS
    ensures 0 <= level ==> LevelMarked(log, level)
    ensures level == -1 ==> forall i: nat | i < LEVELS :: !LevelMarked(log, i)
  {
    var i := 0;
    while i < LEVELS
      invariant 0 <= i <= LEVELS
      invariant forall j: nat | j < i :: !LevelMarked(log, j)
    {
      ColorsDiffer(i, i);
      if |CSI_START| + |Color(i)| <= |log| && log[|CSI_START|..|CSI_START| + |Color(i)|] == Color(i) {
        return i;
      }
      i := i + 1;
    }
    return -1;
  }

  /** Looks through what stands in memory from the start of the record on, behind its end if need be. */
  method FindTag(memory: string, lvl: nat) returns (tag: Option<string>)
    requires lvl < LEVELS
    ensures tag.Some? ==> TagFound(memory, tag.value)
    ensures tag == None ==> forall t :: !TagFound(memory, t)
  {
    ColorsDiffer(lvl, lvl);
    var start := |CSI_START| + |Color(lvl)| + |LevelInfo(lvl)|;
    var n := 0;
    while n < TAG_MAX_LEN && start + n < |memory|
      invariant n <= TAG_MAX_LEN
      invariant n <= |memory| - start || n == 0
      invariant forall i | start <= i < start + n :: memory[i] != ' '
    {
      if memory[start + n] == ' ' {
        return Some(memory[start..start + n]);
      }
      n := n + 1;
    }
    assert forall t: string | |t| < TAG_MAX_LEN && start + |t| < |memory| :: memory[start + |t|] != ' ';
    return None;
  }

  /** What follows a record in memory matters only when the record itself shows no tag. */
  lemma MemoryBehindRecord(record: string, beyond: string, tag: string)
    ensures TagFound(record, tag) ==> TagFound(record + beyond, tag)
    ensures TagFound(record + beyond, tag) ==> TagFound(record, tag) || |record| <= PREFIX_LEN + |tag|
  {
    if PREFIX_LEN + |tag| < |record| {
      SameTagFound(record, record + beyond, tag, PREFIX_LEN + |tag| + 1);
    }
  }

  /** The colour strings have one length and no two are equal, so none is a prefix of another. */
  lemma ColorsDiffer(i: nat, j: nat)
    requires i < LEVELS && j < LEVELS
    ensures |Color(i)| == COLOR_LEN && |LevelInfo(i)| == 2
    ensures Color(i) == Color(j) <==> i == j
    ensures ' ' !in Color(i)
  {
    assert Color(i)[1] == "513624"[i];
    assert Color(j)[1] == "513624"[j];
  }

  /** A record holds one tag. */
  lemma TagIsUnique(log: string, s: string, t: string)
    requires TagFound(log, s) && TagFound(log, t)
    ensures s == t
  {
    SpaceEndsTag(log, s, t);
    SpaceEndsTag(log, t, s);
  }

  lemma SpaceEndsTag(log: string, s: string, t: string)
    requires TagFound(log, s) && TagFound(log, t)
    ensures |t| <= |s|
  {
    assert forall i | 0 <= i < |t| :: log[PREFIX_LEN + i] == log[PREFIX_LEN..PREFIX_LEN + |t|][i] && t[i] in t;
  }

  /** The end of a record spells neither a colour nor a space. */
  lemma EndIsNoColor(i: nat, color: bool)
    requires i < LEVELS
    ensures '\n' !in Color(i) && ESC !in Color(i)
    ensures ' ' !in End(color)
  {
  }

  /** What follows the body of a record. */
  function End(color: bool): string {
    (if color then CSI_END else "") + NEWLINE
  }

  lemma RecordIsBodyAndEnd(text: string, color: bool)
    ensures Sealed(Clip(text, BODY_SIZE), color) == Clip(text, BODY_SIZE) + End(color)
  {
  }

  /** Neither the clipping nor the end of a record decides which level is read. */
  lemma LevelIsInBody(text: string, color: bool, i: nat)
    requires i < LEVELS
    ensures LevelMarked(Sealed(Clip(text, BODY_SIZE), color), i) <==> LevelMarked(text, i)
  {
    var record := Sealed(Clip(text, BODY_SIZE), color);
    RecordIsBodyAndEnd(text, color);
    EndIsNoColor(i, color);
    ColorsDiffer(i, i);
    if 8 <= |text| {
      assert record[..8] == text[..8];
      SameMiddle(record, text, 2, 8, 8);
    } else if 8 <= |record| {
      assert record[|text|] == End(color)[0];
      assert record[2..8][|text| - 2] in record[2..8];
    }
  }

  /** Nor do they decide which tag is read. */
  lemma TagIsInBody(text: string, color: bool, tag: string)
    ensures TagFound(Sealed(Clip(text, BODY_SIZE), color), tag) <==> TagFound(text, tag)
  {
    var record, n := Sealed(Clip(text, BODY_SIZE), color), PREFIX_LEN + |tag| + 1;
    RecordIsBodyAndEnd(text, color);
    EndIsNoColor(0, color);
    if |tag| < TAG_MAX_LEN {
      if n <= |text| {
        assert record[..n] == text[..n];
        SameTagFound(record, text, tag, n);
      } else if n <= |record| {
        assert record[n - 1] == End(color)[n - 1 - |text|];
        assert record[n - 1] in End(color);
      }
    }
  }

  lemma SameMiddle(a: string, b: string, i: nat, j: nat, n: nat)
    requires i <= j <= n <= |a| && n <= |b| && a[..n] == b[..n]
    ensures a[i..j] == b[i..j]
  {
    forall k | i <= k < j ensures a[k] == b[k] {
      assert a[k] == a[..n][k] && b[k] == b[..n][k];
    }
  }

  /** Texts that agree up to the space behind a tag both hold it or neither. */
  lemma SameTagFound(a: string, b: string, tag: string, n: nat)
    requires n == PREFIX_LEN + |tag| + 1 && n <= |a| && n <= |b| && a[..n] == b[..n]
    ensures TagFound(a, tag) <==> TagFound(b, tag)
  {
    SameMiddle(a, b, PREFIX_LEN, n - 1, n);
    assert a[n - 1] == a[..n][n - 1] && b[n - 1] == b[..n][n - 1];
  }

  /** Colour and level, when enabled: what the reading functions expect in front of the tag. */
  function Prefix(level: nat, color: bool, lvl: bool): string
    requires level < LEVELS
  {
    ColorPart(level, color) + Field(lvl, LevelInfo(level), "")
  }

  /** What follows the tag. */
  function Rest(f: Format, o: Origin, text: string): string {
    RunPart(f, o) + PlacePart(f, o) + text
  }

  /** The tag as the record shows it, with its padding and the space that ends it. */
  function ShownTag(tag: string): string {
    tag + Padding(tag) + " "
  }

  lemma PrefixLength(level: nat, color: bool, lvl: bool)
    requires level < LEVELS
    ensures |Prefix(level, color, lvl)| == (if color then 8 else 0) + (if lvl then 2 else 0)
    ensures color ==> Prefix(level, color, lvl)[2..8] == Color(level)
  {
    ColorsDiffer(level, level);
  }

  lemma ShownTagShape(tag: string)
    ensures |ShownTag(tag)| == if |tag| <= 8 then 9 else |tag| + 1
    ensures ShownTag(tag)[..|tag|] == tag
    ensures forall k | |tag| <= k < |ShownTag(tag)| :: ShownTag(tag)[k] == ' '
  {
  }

  /** A record's text is prefix, tag and rest. */
  lemma TextParts(level: nat, color: bool, f: Format, o: Origin, text: string)
    requires level < LEVELS
    ensures Header(level, color, f, o) + text == Prefix(level, color, f.lvl) + (TagPart(f, o) + Rest(f, o, text))
  {
    FiveParts(Prefix(level, color, f.lvl), TagPart(f, o), RunPart(f, o), PlacePart(f, o), text);
  }

  lemma FiveParts(p: string, t: string, r: string, q: string, text: string)
    ensures p + t + r + q + text == p + (t + (r + q + text))
  {
  }

  /** The level is read from the colour, or from what stands two characters on without one. */
  lemma LevelBehind(p: string, s: string, i: nat)
    requires i < LEVELS
    ensures 8 <= |p| ==> (LevelMarked(p + s, i) <==> LevelMarked(p, i))
    ensures |p| == 2 ==> (LevelMarked(p + s, i) <==> Color(i) <= s)
  {
    ColorsDiffer(i, i);
    var log := p + s;
    if 8 <= |p| {
      assert log[..8] == p[..8];
      SameMiddle(log, p, 2, 8, 8);
    } else if |p| == 2 && 6 <= |s| {
      assert log[2..8] == s[..6];
    }
  }

  /** With colours on, the level can be read back from every record. */
  lemma LevelRoundTrip(level: nat, f: Format, o: Origin, text: string, i: nat)
    requires level < LEVELS && i < LEVELS
    ensures LevelMarked(RecordOf(level, true, f, o, text), i) <==> i == level
  {
    LevelIsInBody(Header(level, true, f, o) + text, true, i);
    TextParts(level, true, f, o, text);
    PrefixLength(level, true, f.lvl);
    LevelBehind(Prefix(level, true, f.lvl), TagPart(f, o) + Rest(f, o, text), i);
    ColorsDiffer(level, i);
  }

  /** The tag stands d characters into s. */
  predicate TagAt(s: string, d: nat, tag: string) {
    |tag| < TAG_MAX_LEN && d + |tag| < |s| && s[d..d + |tag|] == tag && s[d + |tag|] == ' ' && ' ' !in tag
  }

  lemma TagBehind(p: string, s: string, tag: string)
    requires |p| <= PREFIX_LEN
    ensures TagFound(p + s, tag) <==> TagAt(s, PREFIX_LEN - |p|, tag)
  {
    var log, d := p + s, PREFIX_LEN - |p|;
    if d + |tag| < |s| {
      assert log[PREFIX_LEN..PREFIX_LEN + |tag|] == s[d..d + |tag|];
    }
  }

  /** The rest begins with the tag and a space, but for its first k characters. */
  predicate Repeats(rest: string, k: nat, tag: string) {
    k + |tag| < |rest| && rest[k..k + |tag|] == tag && rest[k + |tag|] == ' '
  }

  /** Looking for a tag at its start finds it, unless it is too long or has a space. */
  lemma TagAtStart(tag: string, rest: string)
    ensures TagAt(ShownTag(tag) + rest, 0, tag) <==> |tag| < TAG_MAX_LEN && ' ' !in tag
  {
    ShownTagShape(tag);
    var s := ShownTag(tag) + rest;
    assert s[..|tag|] == ShownTag(tag)[..|tag|];
  }

  /** Looking too far in, the space behind the tag comes too early, except for no tag at all. */
  lemma TagAtWrongPlace(tag: string, rest: string, d: nat)
    requires 0 < d <= 8
    ensures TagAt(ShownTag(tag) + rest, d, tag) <==> tag == ""
  {
    ShownTagShape(tag);
    var s := ShownTag(tag) + rest;
    var k := if d <= |tag| then |tag| - d else 0;
    assert s[d + k] == ' ';
  }

  /** Looking ten characters in, only the rest can show the tag once more. */
  lemma TagAtRest(tag: string, rest: string)
    ensures TagAt(ShownTag(tag) + rest, PREFIX_LEN, tag) <==>
      |tag| <= 9 && ' ' !in tag && Repeats(rest, if |tag| <= 8 then 1 else 0, tag)
  {
    ShownTagShape(tag);
    var s, k := ShownTag(tag) + rest, if |tag| <= 8 then 1 else 0;
    if 10 <= |tag| {
      assert s[|tag|] == ' ';
    } else if k + |tag| < |rest| {
      assert s[PREFIX_LEN..PREFIX_LEN + |tag|] == rest[k..k + |tag|];
    }
  }

  /**
   When the tag can be read back. The reader expects colour and level in front of it; where one
   of them is off it looks too far in, and where both are, past the shown tag.
   */
  predicate TagSurvives(color: bool, f: Format, o: Origin, text: string) {
    if color && f.lvl then |o.tag| < TAG_MAX_LEN && ' ' !in o.tag
    else if color || f.lvl then o.tag == ""
    else |o.tag| <= 9 && ' ' !in o.tag && Repeats(Rest(f, o, text), if |o.tag| <= 8 then 1 else 0, o.tag)
  }

  /** Whenever the tag is output, it is read back from the record exactly when it survives. */
  lemma TagRoundTrip(level: nat, color: bool, f: Format, o: Origin, text: string)
    requires level < LEVELS && f.tag
    ensures TagFound(RecordOf(level, color, f, o, text), o.tag) <==> TagSurvives(color, f, o, text)
  {
    var rest := Rest(f, o, text);
    TagIsInBody(Header(level, color, f, o) + text, color, o.tag);
    TextParts(level, color, f, o, text);
    PrefixLength(level, color, f.lvl);
    TagBehind(Prefix(level, color, f.lvl), ShownTag(o.tag) + rest, o.tag);
    if color && f.lvl {
      TagAtStart(o.tag, rest);
    } else if color || f.lvl {
      TagAtWrongPlace(o.tag, rest, if color then 2 else 8);
    } else {
      TagAtRest(o.tag, rest);
    }
  }

  /** The text from which a level is read when colours are off. */
  function Misread(f: Format, o: Origin, text: string): string {
    if f.tag then o.tag else Rest(f, o, text)
  }

  /**
   With colours off nothing marks the level any more: the reader finds a level exactly when
   what follows the level's letter, tag or rest, happens to begin with that level's colour string.
   */
  lemma LevelWithoutColor(level: nat, f: Format, o: Origin, text: string, i: nat)
    requires level < LEVELS && i < LEVELS && f.lvl
    ensures LevelMarked(RecordOf(level, false, f, o, text), i) <==> Color(i) <= Misread(f, o, text)
  {
    var rest := Rest(f, o, text);
    LevelIsInBody(Header(level, false, f, o) + text, false, i);
    TextParts(level, false, f, o, text);
    PrefixLength(level, false, true);
    LevelBehind(Prefix(level, false, true), TagPart(f, o) + rest, i);
    if f.tag {
      ColorInTag(i, o.tag, rest);
    } else {
      assert "" + rest == rest;
    }
  }

  /** The rest begins with a colour string only when it is nothing but the message. */
  lemma LevelInMessageOnly(f: Format, o: Origin, text: string, i: nat)
    requires i < LEVELS
    ensures Color(i) <= Rest(f, o, text) <==>
      !f.time && !f.pInfo && !f.tInfo && !f.dir && !f.func && !f.line && Color(i) <= text
  {
    ColorsDiffer(i, i);
    var run, place := RunPart(f, o), PlacePart(f, o);
    if f.time || f.pInfo || f.tInfo {
      assert run[0] == '[' && Rest(f, o, text)[0] == run[0];
    } else if f.dir || f.func || f.line {
      assert place[0] == '(' && Rest(f, o, text)[0] == place[0];
    } else {
      assert Rest(f, o, text) == text;
    }
  }

  /** A colour string has no space, so the padding does not help to spell it. */
  lemma ColorInTag(i: nat, tag: string, rest: string)
    requires i < LEVELS
    ensures Color(i) <= ShownTag(tag) + rest <==> Color(i) <= tag
  {
    ColorsDiffer(i, i);
    ShownTagShape(tag);
    var s, c := ShownTag(tag) + rest, Color(i);
    if |tag| < COLOR_LEN {
      assert s[|tag|] == ' ';
      assert c[|tag|] in c;
    } else {
      assert s[..6] == ShownTag(tag)[..|tag|][..6] == tag[..6];
    }
  }

  /** A plain tag loses its level, and a tag that looks like a colour yields a wrong one. */
  lemma ColorlessLevelExamples(f: Format, o: Origin, text: string)
    requires f.lvl && f.tag
    ensures o.tag == "main" ==> forall i: nat | i < LEVELS :: !LevelMarked(RecordOf(3, false, f, o, text), i)
    ensures o.tag == "35;22m" ==> LevelMarked(RecordOf(3, false, f, o, text), 0)
  {
    forall i: nat | i < LEVELS && o.tag == "main"
      ensures !LevelMarked(RecordOf(3, false, f, o, text), i)
    {
      LevelWithoutColor(3, f, o, text, i);
      ColorsDiffer(i, i);
    }
    LevelWithoutColor(3, f, o, text, 0);
  }

  /** Every record that is put out fits the line buffer, is not empty and ends the line. */
  lemma RecordsAreBounded(body: string, color: bool)
    requires |body| <= BODY_SIZE
    ensures var record := Sealed(body, color);
      1 <= |record| <= LINE_BUF_SIZE && record[|record| - 1] == '\n' &&
      (color ==> 5 <= |record| && record[|record| - 5..] == CSI_END + NEWLINE)
  {
    var record := Sealed(body, color);
    if color {
      assert record == body + (CSI_END + NEWLINE);
    }
  }

  function PowerOfTen(k: nat): nat {
    if k == 0 then 1 else 10 * PowerOfTen(k - 1)
  }

  lemma {:induction false} DigitsLength(n: nat, k: nat)
    requires 0 < k
    ensures |Digits(n)| <= k <==> n < PowerOfTen(k)
  {
    if k == 1 {
      assert PowerOfTen(1) == 10 * PowerOfTen(0);
    } else if 10 <= n {
      DigitsLength(n / 10, k - 1);
    } else {
      DigitsLength(n, k - 1);
    }
  }

  /** The line number is shown whole exactly up to four characters, the sign included. */
  lemma LineNumberIsWhole(line: int)
    ensures LineText(line) == Decimal(line) <==> -999 <= line <= 9999
  {
    var n := if line < 0 then -line else line;
    DigitsLength(n, 3);
    DigitsLength(n, 4);
    assert PowerOfTen(3) == 1000 && PowerOfTen(4) == 10000;
  }

  /** A place with a short name in every field. */
  const EXAMPLE: Origin := Origin("main", "a.c", "go", 42, "1:15", "p7", "t9")

  const ALL_PARTS: Format := Format(true, true, true, true, true, true, true, true)

  lemma PartsExample()
    ensures TagPart(ALL_PARTS, EXAMPLE) == "main     "
    ensures RunPart(ALL_PARTS, EXAMPLE) == "[1:15 p7 t9] "
    ensures PlacePart(ALL_PARTS, EXAMPLE) == "(a.c go:42)"
  {
    assert Digits(42) == Digits(4) + [Digit(2)];
    assert LineText(42) == "42";
    assert Padding("main") == "    ";
  }

  /** A whole record: colour, level, filled tag, run part, place part, message, colour reset, newline. */
  lemma RecordExample()
    ensures RecordOf(1, true, ALL_PARTS, EXAMPLE, "up") ==
      [ESC] + "[" + "31;22m" + "E/" + "main     " + "[1:15 p7 t9] " + "(a.c go:42)" + "up" + [ESC] + "[0m" + "\n"
  {
    PartsExample();
    assert CSI_START + "31;22m" == [ESC] + "[" + "31;22m";
    assert CSI_END == [ESC] + "[0m";
  }
}
