/** Record building in Log (log.c:188-236) with WriteMsg / WriteMsg2
    (log.c:22-48) exactly as written: a field that does not fit makes
    _vsnprintf return -1, and that -1 is added to the cursor and subtracted
    from the remaining count. */
module Formatter {
  import opened Records
  import opened Numerals
  import opened Path

  /** The Level argument of Log. The numeric values of LOG_INF, LOG_ERR,
      LOG_DBG and LOG_WRN are defined in log.h, which is not part of this
      model; Unknown stands for every other value. */
  datatype Level = Inf | Err | Dbg | Wrn | Unknown(code: DWord)

  /** The switch at log.c:204-220. */
  function LevelTag(level: Level): (tag: string)
    ensures |tag| == 3
    ensures tag == "UNK" <==> level.Unknown?
  {
    match level
    case Inf => "INF"
    case Err => "ERR"
    case Dbg => "DBG"
    case Wrn => "WRN"
    case Unknown(_) => "UNK"
  }

  /** The SYSTEMTIME fields Log prints. */
  datatype SystemTime = SystemTime(hour: Word, minute: Word, second: Word, milliseconds: Word)

  /** " %02d:%02d:%02d.%03d " (log.c:223-225). */
  function TimeField(t: SystemTime): (s: string)
    ensures 14 <= |s| <= 25
  {
    " " + ZeroPad(WordDecimal(t.hour), 2) + ":" + ZeroPad(WordDecimal(t.minute), 2)
      + ":" + ZeroPad(WordDecimal(t.second), 2) + "." + ZeroPad(WordDecimal(t.milliseconds), 3) + " "
  }

  /** "t%x" of the thread id (log.c:227). */
  function ThreadField(tid: DWord): (s: string)
    ensures 2 <= |s| <= 9 && s[0] == 't'
  {
    "t" + DWordHex(tid)
  }

  /** The part of the location field after "func():" holds no backslash
      when the base name holds none and the line number is a signed
      decimal. */
  lemma NoSeparatorAfterName(base: string, n: string)
    requires '\\' !in base
    requires forall i :: 0 <= i < |n| ==> n[i] in "-0123456789"
    ensures '\\' !in base + ":" + n + ": "
  {
    var tail := base + ":" + n + ": ";
    forall i | 0 <= i < |tail| ensures tail[i] != '\\' {
      if i < |base| {
        assert tail[i] == base[i];
      } else if |base| < i < |base| + 1 + |n| {
        assert tail[i] == n[i - |base| - 1];
      }
    }
  }

  /** " %s():%s:%d: " of the function, the shortened file name and the line
      (log.c:228): no directory separator appears after the function name,
      since only the file's base name is printed. LineFormat shows where
      the base name and the line number sit. */
  function LocationField(func: string, file: string, line: DWord): (s: string)
    ensures |s| >= |func| + 7
    ensures s[..|func| + 4] == " " + func + "():"
    ensures '\\' !in s[|func| + 4..]
    ensures s[|s| - 2..] == ": "
  {
    LocationShape(func, TruncatePath(file), SignedDecimal(line));
    " " + func + "():" + TruncatePath(file) + ":" + SignedDecimal(line) + ": "
  }

  /** Where the pieces of a location field sit. */
  lemma LocationShape(func: string, base: string, n: string)
    requires '\\' !in base
    requires forall i :: 0 <= i < |n| ==> n[i] in "-0123456789"
    ensures var s := " " + func + "():" + base + ":" + n + ": ";
            && s[..|func| + 4] == " " + func + "():"
            && s[|func| + 4..] == base + ":" + n + ": "
            && '\\' !in s[|func| + 4..]
  {
    NoSeparatorAfterName(base, n);
    var s := " " + func + "():" + base + ":" + n + ": ";
    assert s[..|func| + 4] == " " + func + "():";
    assert s[|func| + 4..] == base + ":" + n + ": ";
  }

  /** The five strings Log writes one after another (log.c:204-230),
      already rendered. */
  datatype Fields = Fields(tag: string, time: string, thread: string, location: string, message: string)

  /** What Log's own renderings guarantee: a three-letter tag, and a time
      and a thread field that are short enough always to fit. */
  predicate WellFormed(f: Fields)
  {
    |f.tag| == 3 && 14 <= |f.time| <= 25 && 2 <= |f.thread| <= 9
  }

  /** The fields of one Log call. */
  function LogFields(level: Level, time: SystemTime, tid: DWord, func: string, file: string, line: DWord, msg: string): (f: Fields)
    ensures WellFormed(f) && f.tag == LevelTag(level) && f.message == msg
  {
    Fields(LevelTag(level), TimeField(time), ThreadField(tid), LocationField(func, file, line), msg)
  }

  /** The four fields in front of the message, concatenated. */
  function Header(f: Fields): string
  {
    f.tag + f.time + f.thread + f.location
  }

  /** The state WriteMsg2 works on: the buffer, the cursor BufPos as an
      offset into it, and BufLeft. */
  datatype Cursor = Cursor(buf: seq<char>, pos: int, left: DWord)

  predicate Valid(c: Cursor)
  {
    |c.buf| == BufSize && 0 <= c.pos && c.pos + c.left == BufSize
  }

  /** What has been written so far: the bytes behind the cursor. */
  function Text(c: Cursor): string
    requires Valid(c)
  {
    c.buf[..c.pos]
  }

  /** MSVC _vsnprintf on an already rendered string s, writing at offset
      `at` with room for `count` characters: a string shorter than count is
      stored with a terminating NUL, one of exactly count characters without
      it, and a longer one is cut to count characters and reported as -1. */
  function VsnPrintf(buf: seq<char>, at: nat, count: nat, s: string): (r: (seq<char>, int))
    requires at + count <= |buf|
    ensures |r.0| == |buf|
    ensures r.0[..at] == buf[..at]
    ensures r.1 == (if |s| <= count then |s| else -1)
    ensures |s| <= count ==> r.0[at..at + |s|] == s
    ensures |s| > count ==> r.0[at..at + count] == s[..count]
    ensures r.0[at + count..] == buf[at + count..]
  {
    if |s| < count then
      (buf[..at] + s + ['\0'] + buf[at + |s| + 1..], |s|)
    else if |s| == count then
      (buf[..at] + s + buf[at + count..], |s|)
    else
      (buf[..at] + s[..count] + buf[at + count..], -1)
  }

  /** The text one WriteMsg call leaves behind the cursor: the field appended
      when it fits, otherwise the old text with its last character dropped
      (the cursor steps back over it). */
  function Append(text: string, s: string): (r: string)
    requires |text| + |s| <= BufSize || 0 < |text|
    ensures |r| == if |text| + |s| <= BufSize then |text| + |s| else |text| - 1
  {
    if |text| + |s| <= BufSize then text + s else text[..|text| - 1]
  }

  /** Append never disturbs the text except possibly its last character. */
  lemma AppendKeepsPrefix(text: string, s: string, k: nat)
    requires |text| + |s| <= BufSize || 0 < |text|
    requires k < |text|
    ensures Append(text, s)[..k] == text[..k]
  {
  }

  /** WriteMsg2 (log.c:22-36). The guard at line 26 compares an unsigned
      value with zero and never fires, so it is not modelled. A result of -1
      moves the cursor back by one and, through ULONG arithmetic, grows the
      remaining count by one. */
  function WriteMsg(c: Cursor, s: string): (r: (Cursor, int))
    requires Valid(c)
    ensures |r.0.buf| == BufSize && r.0.pos + r.0.left == BufSize
    ensures r.0.buf[..c.pos] == c.buf[..c.pos]
    ensures |s| <= c.left ==> r.1 == |s| && r.0.pos == c.pos + |s|
    ensures |s| > c.left ==> r.1 == -1 && r.0.pos == c.pos - 1 && r.0.left == c.left + 1
    ensures r.1 == 0 ==> r.0.pos == c.pos && r.0.left == c.left
    ensures Valid(r.0) <==> |s| <= c.left || 0 < c.pos
    ensures Valid(r.0) ==> Text(r.0) == Append(Text(c), s)
  {
    var (buf, result) := VsnPrintf(c.buf, c.pos, c.left, s);
    if result != 0 then
      (Cursor(buf, c.pos + result, (c.left - result) % DWordModulus), result)
    else
      (Cursor(buf, c.pos, c.left), result)
  }

  /** Lines 231-236: if the terminator did not fit, the last two bytes of
      the buffer are forced to CR LF and the whole buffer is used; otherwise
      the used count is what the cursor has consumed. */
  function Seal(c: Cursor, result: int): (e: Record)
    requires |c.buf| == BufSize && c.left <= BufSize
    ensures result <= 0 ==> e.used == BufSize && e.buf[..BufSize - 2] == c.buf[..BufSize - 2]
                            && e.buf[BufSize - 2..] == "\r\n"
    ensures result > 0 ==> e.buf == c.buf && e.used + c.left == BufSize
  {
    if result <= 0 then Entry(c.buf[BufSize - 2 := '\r'][BufSize - 1 := '\n'], BufSize)
    else Entry(c.buf, BufSize - c.left)
  }

  /** A line as the text model predicts it: the text followed by CR LF, or,
      when that does not fit, the text cut to 254 bytes followed by CR LF. */
  function Terminated(text: string): (line: string)
    requires |text| <= BufSize
  {
    if |text| + 2 <= BufSize then text + "\r\n" else text[..BufSize - 2] + "\r\n"
  }

  /** The text after the four header writes, computed field by field with
      Append; it is the plain concatenation whenever that fits. */
  function HeaderText(f: Fields): (t: string)
    requires WellFormed(f)
    ensures 18 <= |t| <= BufSize
    ensures t[..3] == f.tag
    ensures |Header(f)| <= BufSize ==> t == Header(f)
  {
    var t1 := Append("", f.tag);
    assert t1 == f.tag by { assert "" + f.tag == f.tag; }
    var t2 := Append(t1, f.time);
    assert t2[..3] == f.tag;
    var t3 := Append(t2, f.thread);
    AppendKeepsPrefix(t2, f.thread, 3);
    var t4 := Append(t3, f.location);
    AppendKeepsPrefix(t3, f.location, 3);
    t4
  }

  /** The text in front of the terminator: the header text with the
      message appended the same way. */
  function BodyText(f: Fields): (t: string)
    requires WellFormed(f)
    ensures 17 <= |t| <= BufSize
    ensures t[..3] == f.tag
    ensures |Header(f)| + |f.message| <= BufSize ==> t == Header(f) + f.message
  {
    var h := HeaderText(f);
    AppendKeepsPrefix(h, f.message, 3);
    Append(h, f.message)
  }

  /** A record whose used bytes end in CR LF. */
  predicate CrLfTerminated(e: Record)
  {
    2 <= e.used && e.buf[e.used - 2] == '\r' && e.buf[e.used - 1] == '\n'
  }

  /** What every line of the text model looks like. */
  lemma RecordShape(e: Record, text: string)
    requires 3 <= |text| <= BufSize
    requires Bytes(e) == Terminated(text)
    ensures CrLfTerminated(e)
    ensures e.buf[..3] == text[..3]
    ensures |text| <= BufSize - 2 ==> e.used == |text| + 2
    ensures |text| > BufSize - 2 ==> e.used == BufSize && e.buf[BufSize - 2..] == "\r\n"
  {
    assert e.buf[..3] == Bytes(e)[..3];
    assert e.buf[e.used - 2] == Bytes(e)[e.used - 2];
    assert e.buf[e.used - 1] == Bytes(e)[e.used - 1];
  }

  /** The five field writes of Log (log.c:204-230) on a fresh buffer. */
  function FillFields(garbage: seq<char>, f: Fields): (c: Cursor)
    requires |garbage| == BufSize && WellFormed(f)
    ensures Valid(c) && Text(c) == BodyText(f)
  {
    var c0 := Cursor(garbage, 0, BufSize);
    var c1 := WriteMsg(c0, f.tag).0;
    var c2 := WriteMsg(c1, f.time).0;
    var c3 := WriteMsg(c2, f.thread).0;
    var c4 := WriteMsg(c3, f.location).0;
    assert Text(c4) == HeaderText(f);
    WriteMsg(c4, f.message).0
  }

  lemma SealLine(before: Cursor, after: Cursor, result: int)
    requires Valid(before)
    requires (after, result) == WriteMsg(before, "\r\n")
    ensures after.left <= BufSize
    ensures Bytes(Seal(after, result)) == Terminated(Text(before))
  {
    if result <= 0 {
      assert before.pos >= BufSize - 1;
      var e := Seal(after, result);
      assert e.buf[..BufSize - 2] == after.buf[..BufSize - 2] == before.buf[..BufSize - 2];
      assert Bytes(e) == e.buf[..BufSize - 2] + "\r\n";
    }
  }

  /** Record building (log.c:199-236) on the uninitialised bytes malloc
      returned. The record is the text model's line: it always ends in
      CR LF, starts with the tag, and is the body text plus CR LF when that
      fits; otherwise (fewer than two bytes left for the terminator) it
      uses the whole buffer and its last two bytes are CR LF. */
  function Render(garbage: seq<char>, f: Fields): (e: Record)
    requires |garbage| == BufSize && WellFormed(f)
    ensures Bytes(e) == Terminated(BodyText(f))
    ensures CrLfTerminated(e)
    ensures e.buf[..3] == f.tag
    ensures |BodyText(f)| <= BufSize - 2 ==> e.used == |BodyText(f)| + 2
    ensures |BodyText(f)| > BufSize - 2 ==> e.used == BufSize && e.buf[BufSize - 2..] == "\r\n"
  {
    var c := FillFields(garbage, f);
    var (after, result) := WriteMsg(c, "\r\n");
    SealLine(c, after, result);
    var e := Seal(after, result);
    RecordShape(e, Text(c));
    e
  }

  /** Log's record for one call: its first three bytes name the level,
      "UNK" exactly for a level outside the four known ones, and it is
      terminated by CR LF within the buffer. */
  function LogRecord(garbage: seq<char>, level: Level, time: SystemTime, tid: DWord,
                     func: string, file: string, line: DWord, msg: string): (e: Record)
    requires |garbage| == BufSize
    ensures e.buf[..3] == LevelTag(level)
    ensures e.buf[..3] == "UNK" <==> level.Unknown?
    ensures CrLfTerminated(e)
  {
    Render(garbage, LogFields(level, time, tid, func, file, line, msg))
  }

  /** The line format: the tag, the time, the thread, the line number and
      the punctuation take at most 57 of the 256 bytes, so a call whose
      function name, file name and message total at most 199 characters
      gets the tag, the time, the thread, " func():", the file's base name,
      ":line: ", the message and CR LF, nothing cut. FittingLine states the
      same under the exact condition. */
  lemma LineFormat(garbage: seq<char>, level: Level, time: SystemTime, tid: DWord,
                   func: string, file: string, line: DWord, msg: string)
    requires |garbage| == BufSize
    requires |func| + |file| + |msg| <= BufSize - 57
    ensures Bytes(LogRecord(garbage, level, time, tid, func, file, line, msg))
         == LevelTag(level) + TimeField(time) + ThreadField(tid)
            + " " + func + "():" + TruncatePath(file) + ":" + SignedDecimal(line) + ": "
            + msg + "\r\n"
  {
    var f := LogFields(level, time, tid, func, file, line, msg);
    assert |Header(f)| <= 55 + |func| + |file|;
    FittingLine(garbage, f);
    assert f.location == LocationField(func, file, line);
    assert LocationField(func, file, line)
        == " " + func + "():" + TruncatePath(file) + ":" + SignedDecimal(line) + ": ";
    LocationJoin(f.tag + f.time + f.thread, func, TruncatePath(file), SignedDecimal(line), msg);
  }

  /** Regrouping the location field's pieces inside a line. */
  lemma LocationJoin(front: string, func: string, base: string, n: string, msg: string)
    ensures front + (" " + func + "():" + base + ":" + n + ": ") + msg + "\r\n"
         == front + " " + func + "():" + base + ":" + n + ": " + msg + "\r\n"
  {
  }

  /** A record whose text leaves room for the terminator is the header, the
      message and CR LF. */
  lemma FittingLine(garbage: seq<char>, f: Fields)
    requires |garbage| == BufSize && WellFormed(f)
    requires |Header(f)| + |f.message| <= BufSize - 2
    ensures Bytes(Render(garbage, f)) == f.tag + f.time + f.thread + f.location + f.message + "\r\n"
  {
    assert BodyText(f) == Header(f) + f.message;
  }

  /** The as-written behaviour for an over-long message: when the header
      fits with room to spare but the message does not, the message
      contributes nothing, the header loses its last byte to the CR, and the
      line is shorter than the buffer. */
  lemma OverlongMessageDropped(garbage: seq<char>, f: Fields)
    requires |garbage| == BufSize && WellFormed(f)
    requires |Header(f)| < BufSize - 1
    requires |Header(f)| + |f.message| > BufSize
    ensures var h := Header(f);
            Bytes(Render(garbage, f)) == h[..|h| - 1] + "\r\n"
    ensures Render(garbage, f).used < BufSize
  {
    assert HeaderText(f) == Header(f);
  }
}

module FormatterExamples {
  import opened Records
  import opened Formatter

  /** Dropping the last character of a header drops it from its last field. */
  lemma DropLast(front: string, last: string)
    requires 0 < |last|
    ensures (front + last)[..|front + last| - 1] == front + last[..|last| - 1]
  {
  }

  /** A 1000-character message logged at level INF: the line comes out as
      the header minus its final blank, then CR LF, and none of the message
      is kept. */
  lemma OverlongMessageExample(garbage: seq<char>)
    requires |garbage| == BufSize
    ensures var f := Fields("INF", " 12:34:56.789 ", "t1a2b", " Run():log.c:42: ", seq(1000, _ => 'a'));
            Bytes(Render(garbage, f)) == "INF" + " 12:34:56.789 " + "t1a2b" + " Run():log.c:42:" + "\r\n"
  {
    var f := Fields("INF", " 12:34:56.789 ", "t1a2b", " Run():log.c:42: ", seq(1000, _ => 'a'));
    OverlongMessageDropped(garbage, f);
    DropLast(f.tag + f.time + f.thread, f.location);
    assert f.location[..|f.location| - 1] == " Run():log.c:42:";
  }
}
