/** The log record shared by the formatter, the writer and the queue: a
    LOG_ENTRY without its intrusive list link, plus the Windows integer
    types the logger computes with. */
module Records {

  /** sizeof(LOG_ENTRY.Buf). */
  const BufSize: nat := 256

  const DWordModulus: int := 0x1_0000_0000

  /** ULONG / DWORD: 32-bit unsigned. */
  type DWord = x: int | 0 <= x < DWordModulus

  /** WORD: 16-bit unsigned (the SYSTEMTIME fields). */
  type Word = x: int | 0 <= x < 0x1_0000

  datatype Entry = Entry(buf: seq<char>, used: DWord)

  /** A record as Log hands it over: the whole fixed buffer and a used
      count that lies within it. */
  type Record = e: Entry | |e.buf| == BufSize && e.used <= BufSize
    witness Entry(seq(BufSize, _ => ' '), 0)

  /** The bytes of a record that belong on disk. */
  function Bytes(r: Record): seq<char>
  {
    r.buf[..r.used]
  }

  function Concat(chunks: seq<seq<char>>): seq<char>
  {
    if |chunks| == 0 then [] else chunks[0] + Concat(chunks[1..])
  }

  /** The file text of a sequence of records written one after another. */
  function Lines(records: seq<Record>): seq<char>
  {
    if |records| == 0 then [] else Bytes(records[0]) + Lines(records[1..])
  }

  lemma {:induction false} ConcatAppend(a: seq<seq<char>>, b: seq<seq<char>>)
    ensures Concat(a + b) == Concat(a) + Concat(b)
    decreases |a|
  {
    if |a| == 0 {
      assert a + b == b;
    } else {
      assert (a + b)[1..] == a[1..] + b;
      ConcatAppend(a[1..], b);
    }
  }

  lemma {:induction false} LinesAppend(a: seq<Record>, b: seq<Record>)
    ensures Lines(a + b) == Lines(a) + Lines(b)
    decreases |a|
  {
    if |a| == 0 {
      assert a + b == b;
    } else {
      assert (a + b)[1..] == a[1..] + b;
      LinesAppend(a[1..], b);
    }
  }
}
