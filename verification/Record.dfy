/** Log records: text gathered piece by piece in a fixed buffer and put out when the filters let it. */
module Record {
  import opened TagFilter
  import opened Wrappers

  const LINE_BUF_SIZE: nat := 512
  const LINE_NUM_MAX_LEN: nat := 5
  const LEVELS: nat := 6

  const ESC: char := 27 as char
  const NUL: char := 0 as char
  const CSI_START: string := [ESC, '[']
  const CSI_END: string := [ESC, '[', '0', 'm']
  const NEWLINE: string := "\n"

  /** What remains of a record for its text: the reset sequence and the newline are kept free. */
  const BODY_SIZE: nat := 507

  /** The characters of a C string. */
  predicate NoNul(s: string) {
    NUL !in s
  }

  function Clip(s: string, n: nat): (r: string)
    ensures r <= s && |r| <= n && (r == s || |r| == n)
  {
    if |s| <= n then s else s[..n]
  }

  lemma ClipTwice(a: string, b: string, n: nat)
    ensures Clip(Clip(a, n) + b, n) == Clip(a + b, n)
  {
    if n < |a| {
      assert (a[..n] + b)[..n] == a[..n] == (a + b)[..n];
    }
  }

  function Color(level: nat): string
    requires level < LEVELS
  {
    ["35;22m", "31;22m", "33;22m", "36;22m", "32;22m", "34;22m"][level]
  }

  function LevelInfo(level: nat): string
    requires level < LEVELS
  {
    ["A/", "E/", "W/", "I/", "D/", "V/"][level]
  }

  /** Which parts a level's records carry. */
  datatype Format = Format(lvl: bool, tag: bool, time: bool, pInfo: bool,
                           tInfo: bool, dir: bool, func: bool, line: bool)

  /** Where a record comes from; every string is a C string. */
  datatype Origin = Origin(tag: string, file: string, func: string, line: int,
                           time: string, pInfo: string, tInfo: string) {
    predicate Valid() {
      NoNul(tag) && NoNul(file) && NoNul(func) && NoNul(time) && NoNul(pInfo) && NoNul(tInfo)
    }
  }

  function Digit(d: nat): char
    requires d < 10
  {
    "0123456789"[d]
  }

  function Digits(n: nat): (s: string)
    ensures NoNul(s) && s != []
  {
    if n < 10 then [Digit(n)] else Digits(n / 10) + [Digit(n % 10)]
  }

  function Decimal(n: int): (s: string)
    ensures NoNul(s)
  {
    if n < 0 then "-" + Digits(-n) else Digits(n)
  }

  function Spaces(n: nat): (s: string)
    ensures |s| == n && NoNul(s)
    ensures forall c <- s :: c == ' '
  {
    seq(n, _ => ' ')
  }

  /** Short tags are filled up to half the tag length. */
  function Padding(tag: string): string {
    if |tag| <= TAG_MAX_LEN / 2 then Spaces(TAG_MAX_LEN / 2 - |tag|) else ""
  }

  function ColorPart(level: nat, color: bool): string
    requires level < LEVELS
  {
    if color then CSI_START + Color(level) else ""
  }

  function TagPart(f: Format, o: Origin): string {
    if f.tag then o.tag + Padding(o.tag) + " " else ""
  }

  /** A field followed by its separator, when enabled. */
  function Field(enabled: bool, field: string, separator: string): string {
    if enabled then field + separator else ""
  }

  /** What stands between an enabled field and the next one. */
  function Blank(more: bool): string {
    if more then " " else ""
  }

  function Colon(more: bool): string {
    if more then ":" else ""
  }

  function LineText(line: int): string {
    Clip(Decimal(line), LINE_NUM_MAX_LEN - 1)
  }

  /** "[time process thread] " with only the enabled fields. */
  function RunPart(f: Format, o: Origin): string {
    if f.time || f.pInfo || f.tInfo then
      "[" + Field(f.time, o.time, Blank(f.pInfo || f.tInfo)) + Field(f.pInfo, o.pInfo, Blank(f.tInfo)) +
      Field(f.tInfo, o.tInfo, "") + "] "
    else ""
  }

  /** "(file function:line)" with only the enabled fields; line numbers keep four characters. */
  function PlacePart(f: Format, o: Origin): string {
    if f.dir || f.func || f.line then
      "(" + Field(f.dir, o.file, if f.func then " " else Colon(f.line)) + Field(f.func, o.func, Colon(f.line)) +
      Field(f.line, LineText(o.line), "") + ")"
    else ""
  }

  /** Everything before the message. */
  function Header(level: nat, color: bool, f: Format, o: Origin): string
    requires level < LEVELS
  {
    ColorPart(level, color) + Field(f.lvl, LevelInfo(level), "") + TagPart(f, o) + RunPart(f, o) + PlacePart(f, o)
  }

  /** Texts with a separator between any two of them. */
  function Join(parts: seq<string>, separator: string): string {
    if parts == [] then ""
    else if |parts| == 1 then parts[0]
    else parts[0] + separator + Join(parts[1..], separator)
  }

  lemma JoinFirst(first: string, rest: seq<string>, separator: string)
    ensures Join([first] + rest, separator) == if rest == [] then first else first + separator + Join(rest, separator)
  {
    assert ([first] + rest)[1..] == rest;
  }

  /** The field alone, if it is enabled. */
  function Shown(enabled: bool, field: string): seq<string> {
    if enabled then [field] else []
  }

  lemma JoinTwo(x: bool, a: string, y: bool, b: string, separator: string)
    ensures Join(Shown(x, a) + Shown(y, b), separator) == Field(x, a, if y then separator else "") + Field(y, b, "")
  {
    if x {
      JoinFirst(a, Shown(y, b), separator);
      assert b + "" == b && a + "" == a;
    } else {
      assert [] + Shown(y, b) == Shown(y, b);
      assert b + "" == b;
    }
  }

  lemma JoinThree(x: bool, a: string, y: bool, b: string, z: bool, c: string, separator: string)
    ensures Join(Shown(x, a) + (Shown(y, b) + Shown(z, c)), separator) ==
      Field(x, a, if y || z then separator else "") +
      (Field(y, b, if z then separator else "") + Field(z, c, ""))
  {
    var rest := Shown(y, b) + Shown(z, c);
    JoinTwo(y, b, z, c, separator);
    if x {
      JoinFirst(a, rest, separator);
    } else {
      assert [] + rest == rest;
    }
  }

  lemma Wrapped(open: string, s1: string, s2: string, s3: string, close: string)
    ensures open + (s1 + (s2 + s3)) + close == open + s1 + s2 + s3 + close
  {
  }

  /** The run part shows those of time, process and thread that are enabled, in this order, blanks between them. */
  lemma RunPartIsList(f: Format, o: Origin)
    ensures var parts := Shown(f.time, o.time) + (Shown(f.pInfo, o.pInfo) + Shown(f.tInfo, o.tInfo));
      RunPart(f, o) == if parts == [] then "" else "[" + Join(parts, " ") + "] "
  {
    JoinThree(f.time, o.time, f.pInfo, o.pInfo, f.tInfo, o.tInfo, " ");
    Wrapped("[", Field(f.time, o.time, Blank(f.pInfo || f.tInfo)), Field(f.pInfo, o.pInfo, Blank(f.tInfo)),
            Field(f.tInfo, o.tInfo, ""), "] ");
  }

  /** The place part shows file and function with a blank between them, and the line behind a colon. */
  lemma PlacePartIsList(f: Format, o: Origin)
    ensures var names := Shown(f.dir, o.file) + Shown(f.func, o.func);
      var parts := Shown(names != [], Join(names, " ")) + Shown(f.line, LineText(o.line));
      PlacePart(f, o) == if parts == [] then "" else "(" + Join(parts, ":") + ")"
  {
    NamesThenLine(f.dir, o.file, f.func, o.func, f.line, LineText(o.line));
    var s1, s2 := Field(f.dir, o.file, if f.func then " " else Colon(f.line)), Field(f.func, o.func, Colon(f.line));
    Wrapped("(", s1, s2, Field(f.line, LineText(o.line), ""), ")");
  }

  lemma NamesThenLine(x: bool, a: string, y: bool, b: string, z: bool, c: string)
    ensures var names := Shown(x, a) + Shown(y, b);
      Join(Shown(names != [], Join(names, " ")) + Shown(z, c), ":") ==
      Field(x, a, if y then " " else Colon(z)) + (Field(y, b, Colon(z)) + Field(z, c, ""))
  {
    JoinTwo(x, a, y, b, " ");
    JoinTwo(x || y, Join(Shown(x, a) + Shown(y, b), " "), z, c, ":");
    ColonBehindLast(x, a, y, b, z);
  }

  lemma ColonBehindLast(x: bool, a: string, y: bool, b: string, z: bool)
    ensures Field(x || y, Field(x, a, if y then " " else "") + Field(y, b, ""), Colon(z)) ==
      Field(x, a, if y then " " else Colon(z)) + Field(y, b, Colon(z))
  {
  }

  /** Each level has its letter and its colour. */
  lemma LettersAndColours(level: nat)
    requires level < LEVELS
    ensures LevelInfo(level) == ["AEWIDV"[level]] + "/"
    ensures Color(level) == "3" + ["513624"[level]] + ";22m"
  {
  }

  /** Reading a decimal number. */
  function Value(s: string): int
    decreases |s|
  {
    if s == "" then 0 else 10 * Value(s[..|s| - 1]) + (s[|s| - 1] as int - '0' as int)
  }

  lemma {:induction false} DigitsReadBack(n: nat)
    ensures Value(Digits(n)) == n && '-' !in Digits(n)
  {
    if n < 10 {
      assert [Digit(n)][..0] == "";
    } else {
      DigitsReadBack(n / 10);
      var s := Digits(n / 10) + [Digit(n % 10)];
      assert s[..|s| - 1] == Digits(n / 10);
    }
  }

  /** A printed number reads back, its sign in front. */
  lemma DecimalReadsBack(n: int)
    ensures n < 0 ==> Decimal(n)[..1] == "-" && Value(Decimal(n)[1..]) == -n
    ensures 0 <= n ==> Value(Decimal(n)) == n && '-' !in Decimal(n)
  {
    if n < 0 {
      DigitsReadBack(-n);
      assert Decimal(n)[1..] == Digits(-n);
    } else {
      DigitsReadBack(n);
    }
  }

  /**
   What `vsnprintf` made of the message: its full text, in which a terminator may stand
   anywhere, or an error that left arbitrary bytes.
   */
  datatype Formatted = Text(text: string) | Error(code: int, junk: string) {
    predicate Valid() {
      Error? ==> code < 0
    }
  }

  /** An emitted record with a given body. */
  function Sealed(body: string, color: bool): string {
    body + (if color then CSI_END else "") + NEWLINE
  }

  lemma Regroup(text: string, open: string, s1: string, s2: string, s3: string, close: string)
    ensures text + open + s1 + s2 + s3 + close == text + (open + s1 + s2 + s3 + close)
  {
  }

  /** The record of a successfully formatted message, when nothing filters it out. */
  function RecordOf(level: nat, color: bool, f: Format, o: Origin, text: string): string
    requires level < LEVELS
  {
    Sealed(Clip(Header(level, color, f, o) + text, BODY_SIZE), color)
  }

  /** `strstr` finds the needle. */
  ghost predicate Contains(hay: string, needle: string) {
    exists i :: 0 <= i <= |hay| - |needle| && OccursAt(hay, needle, i)
  }

  predicate OccursAt(hay: string, needle: string, i: int)
    requires 0 <= i <= |hay| - |needle|
  {
    hay[i..i + |needle|] == needle
  }

  /** A needle is found exactly when the text is something, the needle, and something more. */
  lemma ContainsIff(hay: string, needle: string)
    ensures Contains(hay, needle) <==> exists a: string, b: string :: hay == a + needle + b
  {
    if Contains(hay, needle) {
      var i :| 0 <= i <= |hay| - |needle| && OccursAt(hay, needle, i);
      assert hay == hay[..i] + needle + hay[i + |needle|..];
    }
    if exists a: string, b: string :: hay == a + needle + b {
      var a: string, b: string :| hay == a + needle + b;
      assert OccursAt(hay, needle, |a|);
    }
  }

  method StrStr(hay: string, needle: string) returns (found: bool)
    ensures found <==> Contains(hay, needle)
  {
    var i := 0;
    while i + |needle| <= |hay|
      invariant 0 <= i
      invariant forall j | 0 <= j < i && j + |needle| <= |hay| :: !OccursAt(hay, needle, j)
    {
      if OccursAt(hay, needle, i) {
        return true;
      }
      i := i + 1;
    }
    return false;
  }

  /** The characters before the first terminator. */
  function CText(s: string): (r: string)
    ensures NoNul(s) ==> r == s
  {
    if s == "" || s[0] == NUL then "" else [s[0]] + CText(s[1..])
  }

  /** It is a beginning of the text, without a terminator, and ends at the first one or with the text. */
  lemma {:induction false} CTextEndsAtTerminator(s: string)
    ensures NoNul(CText(s)) && CText(s) <= s
    ensures CText(s) == s || s[|CText(s)|] == NUL
  {
    if s != "" && s[0] != NUL {
      CTextEndsAtTerminator(s[1..]);
      assert s == [s[0]] + s[1..];
    }
  }

  /** The port puts a chunk out up to its first terminator: all of it exactly when there is none. */
  lemma {:induction false} PortShowsAllIff(chunk: string)
    ensures CText(chunk) == chunk <==> NoNul(chunk)
  {
    if chunk != "" && chunk[0] != NUL {
      assert chunk == [chunk[0]] + chunk[1..];
      PortShowsAllIff(chunk[1..]);
    }
  }

  class Logger {
    const logBuf: array<char>
    var outputEnabled: bool
    var textColorEnabled: bool
    var filterLevel: nat
    var filterTag: string
    var keyword: string
    var formats: seq<Format>

    predicate Valid()
      reads this
    {
      logBuf.Length == LINE_BUF_SIZE && |formats| == LEVELS && NoNul(filterTag) && NoNul(keyword)
    }

    /** The first n buffer cells hold the text, as far as it fits. */
    ghost predicate Holds(n: nat, text: string)
      reads this, logBuf
    {
      logBuf.Length == LINE_BUF_SIZE && n <= LINE_BUF_SIZE && logBuf[..n] == Clip(text, LINE_BUF_SIZE)
    }

    /** `elog_strcpy` at the current length: copies while there is room. */
    method StrCpy(curLen0: nat, src: string) returns (copied: nat)
      requires logBuf.Length == LINE_BUF_SIZE && curLen0 <= LINE_BUF_SIZE && NoNul(src)
      modifies logBuf
      ensures copied == if |src| <= LINE_BUF_SIZE - curLen0 then |src| else LINE_BUF_SIZE - curLen0
      ensures logBuf[..] == old(logBuf[..curLen0]) + src[..copied] + old(logBuf[curLen0 + copied..])
    {
      var curLen, dst := curLen0, curLen0;
      copied := 0;
      while copied < |src|
        invariant copied <= |src| && curLen == dst == curLen0 + copied <= LINE_BUF_SIZE
        invariant forall i | 0 <= i < copied :: logBuf[curLen0 + i] == src[i]
        invariant forall i | 0 <= i < LINE_BUF_SIZE && !(curLen0 <= i < dst) :: logBuf[i] == old(logBuf[i])
      {
        if curLen < LINE_BUF_SIZE {
          logBuf[dst] := src[copied];
          curLen, dst, copied := curLen + 1, dst + 1, copied + 1;
        } else {
          break;
        }
      }
    }

    /** `log_len += elog_strcpy(log_len, log_buf + log_len, src)`. */
    method Add(logLen: nat, src: string, ghost text: string) returns (n: nat)
      requires Holds(logLen, text) && NoNul(src)
      modifies logBuf
      ensures Holds(n, text + src)
    {
      var copied := StrCpy(logLen, src);
      n := logLen + copied;
      ClipTwice(text, src, LINE_BUF_SIZE);
      assert logBuf[..n] == old(logBuf[..logLen]) + src[..copied];
    }

    method AddColor(logLen: nat, level: nat, ghost text: string) returns (n: nat)
      requires Holds(logLen, text) && level < LEVELS
      modifies logBuf
      ensures Holds(n, text + ColorPart(level, textColorEnabled))
    {
      n := logLen;
      if textColorEnabled {
        n := Add(n, CSI_START, text);
        n := Add(n, Color(level), text + CSI_START);
        assert text + CSI_START + Color(level) == text + (CSI_START + Color(level));
      } else {
        assert text + "" == text;
      }
    }

    method AddTagInfo(logLen: nat, f: Format, o: Origin, ghost text: string) returns (n: nat)
      requires Holds(logLen, text) && o.Valid()
      modifies logBuf
      ensures Holds(n, text + TagPart(f, o))
    {
      n := logLen;
      if f.tag {
        n := Add(n, o.tag, text);
        if |o.tag| <= TAG_MAX_LEN / 2 {
          n := Add(n, Spaces(TAG_MAX_LEN / 2 - |o.tag|), text + o.tag);
        } else {
          assert text + o.tag + "" == text + o.tag;
        }
        n := Add(n, " ", text + o.tag + Padding(o.tag));
        assert text + o.tag + Padding(o.tag) + " " == text + TagPart(f, o);
      } else {
        assert text + "" == text;
      }
    }

    /** A field and its separator, when the field is enabled. */
    method AddField(logLen: nat, enabled: bool, field: string, separator: string, ghost text: string) returns (n: nat)
      requires Holds(logLen, text) && NoNul(field) && NoNul(separator)
      modifies logBuf
      ensures Holds(n, text + Field(enabled, field, separator))
    {
      n := logLen;
      if enabled {
        n := Add(n, field, text);
        n := Add(n, separator, text + field);
        assert text + field + separator == text + (field + separator);
      } else {
        assert text + "" == text;
      }
    }

    method AddRunInfo(logLen: nat, f: Format, o: Origin, ghost text: string) returns (n: nat)
      requires Holds(logLen, text) && o.Valid()
      modifies logBuf
      ensures Holds(n, text + RunPart(f, o))
    {
      n := logLen;
      if f.time || f.pInfo || f.tInfo {
        ghost var s1 := Field(f.time, o.time, Blank(f.pInfo || f.tInfo));
        ghost var s2 := Field(f.pInfo, o.pInfo, Blank(f.tInfo));
        ghost var s3 := Field(f.tInfo, o.tInfo, "");
        n := Add(n, "[", text);
        n := AddField(n, f.time, o.time, Blank(f.pInfo || f.tInfo), text + "[");
        n := AddField(n, f.pInfo, o.pInfo, Blank(f.tInfo), text + "[" + s1);
        n := AddField(n, f.tInfo, o.tInfo, "", text + "[" + s1 + s2);
        n := Add(n, "] ", text + "[" + s1 + s2 + s3);
        Regroup(text, "[", s1, s2, s3, "] ");
      } else {
        assert text + "" == text;
      }
    }

    method AddPlaceInfo(logLen: nat, f: Format, o: Origin, ghost text: string) returns (n: nat)
      requires Holds(logLen, text) && o.Valid()
      modifies logBuf
      ensures Holds(n, text + PlacePart(f, o))
    {
      n := logLen;
      if f.dir || f.func || f.line {
        ghost var s1 := Field(f.dir, o.file, if f.func then " " else Colon(f.line));
        ghost var s2 := Field(f.func, o.func, Colon(f.line));
        ghost var s3 := Field(f.line, LineText(o.line), "");
        n := Add(n, "(", text);
        n := AddField(n, f.dir, o.file, if f.func then " " else Colon(f.line), text + "(");
        n := AddField(n, f.func, o.func, Colon(f.line), text + "(" + s1);
        n := AddField(n, f.line, LineText(o.line), "", text + "(" + s1 + s2);
        n := Add(n, ")", text + "(" + s1 + s2 + s3);
        Regroup(text, "(", s1, s2, s3, ")");
      } else {
        assert text + "" == text;
      }
    }

    /** Everything before the message, clipped to the buffer. */
    method AddHeader(level: nat, o: Origin) returns (n: nat)
      requires Valid() && level < LEVELS && o.Valid()
      modifies logBuf
      ensures Holds(n, Header(level, textColorEnabled, formats[level], o))
    {
      var f := formats[level];
      ghost var color := ColorPart(level, textColorEnabled);
      ghost var lvl := Field(f.lvl, LevelInfo(level), "");
      n := AddColor(0, level, "");
      assert "" + color == color;
      n := AddField(n, f.lvl, LevelInfo(level), "", color);
      n := AddTagInfo(n, f, o, color + lvl);
      n := AddRunInfo(n, f, o, color + lvl + TagPart(f, o));
      n := AddPlaceInfo(n, f, o, color + lvl + TagPart(f, o) + RunPart(f, o));
    }

    /** `vsnprintf` into the rest of the buffer: clipped, terminated, and the full length returned. */
    method VsnPrintf(logLen: nat, message: Formatted) returns (result: int)
      requires logBuf.Length == LINE_BUF_SIZE && logLen <= LINE_BUF_SIZE && message.Valid()
      modifies logBuf
      ensures logBuf[..logLen] == old(logBuf[..logLen])
      ensures message.Text? ==> result == |message.text|
      ensures message.Text? ==> forall i | logLen <= i < LINE_BUF_SIZE - 1 && i - logLen < |message.text| ::
        logBuf[i] == message.text[i - logLen]
      ensures message.Error? ==> result == message.code
    {
      match message {
        case Text(text) =>
          if logLen < LINE_BUF_SIZE {
            var n := if |text| < LINE_BUF_SIZE - logLen then |text| else LINE_BUF_SIZE - logLen - 1;
            forall i | 0 <= i < n {
              logBuf[logLen + i] := text[i];
            }
            logBuf[logLen + n] := NUL;
          }
          result := |text|;
        case Error(code, junk) =>
          forall i | logLen <= i < LINE_BUF_SIZE && i - logLen < |junk| {
            logBuf[i] := junk[i - logLen];
          }
          result := code;
      }
    }

    /** The body after the message: header and text clipped; an error takes all the room there is. */
    method AddMessage(logLen0: nat, message: Formatted, ghost header: string) returns (logLen: nat)
      requires Holds(logLen0, header) && message.Valid()
      modifies logBuf
      ensures logLen <= BODY_SIZE
      ensures message.Text? ==> logBuf[..logLen] == Clip(header + message.text, BODY_SIZE)
      ensures message.Error? ==> logLen == BODY_SIZE && Clip(header, BODY_SIZE) <= logBuf[..logLen]
    {
      logLen := logLen0;
      var fmtResult := VsnPrintf(logLen, message);
      if logLen + fmtResult <= LINE_BUF_SIZE && fmtResult > -1 {
        logLen := logLen + fmtResult;
      } else {
        logLen := LINE_BUF_SIZE;
      }
      if logLen + |CSI_END| + |NEWLINE| > LINE_BUF_SIZE {
        logLen := LINE_BUF_SIZE;
        logLen := logLen - |CSI_END|;
        logLen := logLen - |NEWLINE|;
      }
      ghost var kept := if logLen0 <= logLen then logLen0 else logLen;
      assert logBuf[..kept] == old(logBuf[..logLen0])[..kept];
      if message.Text? {
        assert forall i | 0 <= i < logLen :: logBuf[i] == (header + message.text)[i];
      }
    }

    /** A whole logging call: the record that is put out, if the filters let it pass. */
    method Output(level: nat, o: Origin, message: Formatted, tags: TagTable) returns (record: Option<string>)
      requires Valid() && level < LEVELS && o.Valid() && message.Valid() && tags.Valid()
      modifies logBuf
      ensures !Passes(level, o.tag, TagLevel(tags, o.tag)) ==> record == None
      ensures Passes(level, o.tag, TagLevel(tags, o.tag)) ==> Built(level, o, message, record)
      ensures !outputEnabled || level > filterLevel || !Contains(o.tag, filterTag) ==> record == None
      ensures tags.initOk && Key(o.tag) in tags.Levels() && tags.Levels()[Key(o.tag)] < level ==> record == None
      ensures (outputEnabled && level <= filterLevel && Contains(o.tag, filterTag) &&
               (!tags.initOk || Key(o.tag) !in tags.Levels() || level <= tags.Levels()[Key(o.tag)]) &&
               message.Text? && keyword == "") ==>
        record == Some(RecordOf(level, textColorEnabled, formats[level], o, message.text))
    {
      if !outputEnabled {
        return None;
      }
      var tagLevel := tags.Get(o.tag);
      if level > filterLevel || level > tagLevel {
        return None;
      }
      var tagFound := StrStr(o.tag, filterTag);
      if !tagFound {
        return None;
      }
      record := Build(level, o, message);
    }

    /** What a passing call puts out: exactly determined, but for the bytes of a failed message. */
    ghost predicate Built(level: nat, o: Origin, message: Formatted, record: Option<string>)
      requires level < LEVELS
      reads this
    {
      Valid() &&
      var header := Header(level, textColorEnabled, formats[level], o);
      match message
      case Text(text) => MadeOf(record, Clip(header + text, BODY_SIZE))
      case Error(_, _) => exists body :: MadeOf(record, body) && |body| == BODY_SIZE && Clip(header, BODY_SIZE) <= body
    }

    /** The body and its end, if the keyword filter lets the body through. */
    ghost predicate MadeOf(record: Option<string>, body: string)
      reads this
    {
      record == if Wanted(body) then Some(Sealed(body, textColorEnabled)) else None
    }

    /** The keyword filter lets the body through. */
    ghost predicate Wanted(body: string)
      reads this
    {
      keyword == "" || Contains(CText(body), keyword)
    }

    method Build(level: nat, o: Origin, message: Formatted) returns (record: Option<string>)
      requires Valid() && level < LEVELS && o.Valid() && message.Valid()
      modifies logBuf
      ensures Built(level, o, message, record)
    {
      ghost var header := Header(level, textColorEnabled, formats[level], o);
      var logLen := AddHeader(level, o);
      logLen := AddMessage(logLen, message, header);
      ghost var body := logBuf[..logLen];
      var wanted := KeywordFound(logLen);
      if wanted {
        record := Seal(logLen);
      } else {
        record := None;
      }
      assert MadeOf(record, body);
    }

    /** The keyword filter, which ends the body with a terminator to search it. */
    method KeywordFound(logLen: nat) returns (found: bool)
      requires Valid() && logLen <= BODY_SIZE
      modifies logBuf
      ensures logBuf[..logLen] == old(logBuf[..logLen])
      ensures found <==> Wanted(old(logBuf[..logLen]))
    {
      found := true;
      ghost var body := logBuf[..logLen];
      if keyword != "" {
        logBuf[logLen] := NUL;
        assert logBuf[..logLen] == body;
        found := StrStr(CText(logBuf[..logLen]), keyword);
      }
    }

    /** Colour reset and newline, and out it goes. */
    method Seal(logLen0: nat) returns (record: Option<string>)
      requires Valid() && logLen0 <= BODY_SIZE
      modifies logBuf
      ensures record == Some(Sealed(old(logBuf[..logLen0]), textColorEnabled))
    {
      var logLen := logLen0;
      ghost var body := logBuf[..logLen];
      if textColorEnabled {
        logLen := AddAt(logLen, CSI_END, body);
      } else {
        assert body + "" == body;
      }
      logLen := AddAt(logLen, NEWLINE, body + if textColorEnabled then CSI_END else "");
      record := Some(logBuf[..logLen]);
    }

    /** An addition that is known to fit. */
    method AddAt(logLen: nat, src: string, ghost text: string) returns (n: nat)
      requires logBuf.Length == LINE_BUF_SIZE && logLen + |src| <= LINE_BUF_SIZE && NoNul(src)
      requires logBuf[..logLen] == text
      modifies logBuf
      ensures n == logLen + |src| && logBuf[..n] == text + src
    {
      var copied := StrCpy(logLen, src);
      n := logLen + copied;
    }

    /** Level, tag level and tag filter all let the record through. */
    ghost predicate Passes(level: nat, tag: string, tagLevel: nat)
      reads this
    {
      outputEnabled && level <= filterLevel && level <= tagLevel && Contains(tag, filterTag)
    }
  }

  ghost function TagLevel(tags: TagTable, tag: string): nat
    reads tags, tags.slots
  {
    if tags.initOk then GetLevel(tags.Levels(), Key(tag)) else ALL
  }
}
