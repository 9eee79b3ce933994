/** The record building the logger evidently intends: once the buffer is
    full, further fields silently stop contributing and the line is cut at
    the buffer's end, keeping the forced CR LF. The only change from
    log.c:29-33 is what a -1 from _vsnprintf does to the cursor: it moves
    to the end of the buffer and nothing is left, instead of stepping back
    one byte. */
module ClampedFormatter {
  import opened Records
  import opened Formatter

  /** The formatted text cut to the buffer's capacity. */
  function Clamp(text: string): (r: string)
  {
    if |text| <= BufSize then text else text[..BufSize]
  }

  /** The text one corrected write leaves: as much of the field as fits. */
  function AppendClamped(text: string, s: string): string
  {
    Clamp(text + s)
  }

  /** Writing two fields one after the other keeps the same text as writing
      their concatenation. */
  lemma AppendClampedTwice(text: string, a: string, b: string)
    requires |text| <= BufSize
    ensures AppendClamped(AppendClamped(text, a), b) == AppendClamped(text, a + b)
  {
    assert text + a + b == text + (a + b);
    if |text + a| > BufSize {
      var cut := (text + a)[..BufSize];
      assert (cut + b)[..BufSize] == cut;
      assert (text + (a + b))[..BufSize] == cut;
    }
  }

  /** WriteMsg2 with the overflow case corrected. */
  function WriteMsgClamped(c: Cursor, s: string): (r: (Cursor, int))
    requires Valid(c)
    ensures Valid(r.0)
    ensures Text(r.0) == AppendClamped(Text(c), s)
    ensures r.0.buf[..c.pos] == c.buf[..c.pos]
    ensures r.1 == (if |s| <= c.left then |s| else -1)
  {
    var (buf, result) := VsnPrintf(c.buf, c.pos, c.left, s);
    if result < 0 then
      assert buf[..BufSize] == buf[..c.pos] + buf[c.pos..BufSize];
      (Cursor(buf, BufSize, 0), result)
    else
      (Cursor(buf, c.pos + result, c.left - result), result)
  }

  lemma SealLineClamped(before: Cursor, after: Cursor, result: int)
    requires Valid(before)
    requires (after, result) == WriteMsgClamped(before, "\r\n")
    ensures after.left <= BufSize
    ensures Bytes(Seal(after, result)) == Terminated(Text(before))
  {
    if result <= 0 {
      var e := Seal(after, result);
      assert e.buf[..BufSize - 2] == after.buf[..BufSize - 2] == before.buf[..BufSize - 2];
      assert Bytes(e) == e.buf[..BufSize - 2] + "\r\n";
    } else {
      assert Text(after) == Text(before) + "\r\n";
    }
  }

  /** The line of a clamped text: the text cut to leave room for the
      terminator, then CR LF. */
  lemma TerminatedClamp(full: string)
    ensures Terminated(Clamp(full)) == (if |full| <= BufSize - 2 then full else full[..BufSize - 2]) + "\r\n"
  {
    if |full| > BufSize {
      assert Clamp(full)[..BufSize - 2] == full[..BufSize - 2];
    }
  }

  /** The five corrected field writes on a fresh buffer leave the whole
      formatted text, cut to the buffer. */
  function FillFieldsClamped(garbage: seq<char>, f: Fields): (c: Cursor)
    requires |garbage| == BufSize
    ensures Valid(c) && Text(c) == Clamp(Header(f) + f.message)
  {
    var c0 := Cursor(garbage, 0, BufSize);
    assert Text(c0) == [];
    var c1 := WriteMsgClamped(c0, f.tag).0;
    var c2 := WriteMsgClamped(c1, f.time).0;
    AppendClampedTwice([], f.tag, f.time);
    var c3 := WriteMsgClamped(c2, f.thread).0;
    AppendClampedTwice([], f.tag + f.time, f.thread);
    var c4 := WriteMsgClamped(c3, f.location).0;
    AppendClampedTwice([], f.tag + f.time + f.thread, f.location);
    var c5 := WriteMsgClamped(c4, f.message).0;
    AppendClampedTwice([], Header(f), f.message);
    assert [] + (Header(f) + f.message) == Header(f) + f.message;
    c5
  }

  /** The corrected record: the formatted text, cut to leave room for the
      terminator, followed by CR LF. A line whose text does not fit fills
      the whole buffer. */
  function RenderClamped(garbage: seq<char>, f: Fields): (e: Record)
    requires |garbage| == BufSize
    ensures var full := Header(f) + f.message;
            Bytes(e) == (if |full| <= BufSize - 2 then full else full[..BufSize - 2]) + "\r\n"
    ensures |Header(f) + f.message| >= BufSize - 2 <==> e.used == BufSize
  {
    var c := FillFieldsClamped(garbage, f);
    var (after, result) := WriteMsgClamped(c, "\r\n");
    SealLineClamped(c, after, result);
    TerminatedClamp(Header(f) + f.message);
    var e := Seal(after, result);
    assert |Bytes(e)| == e.used;
    e
  }
}
