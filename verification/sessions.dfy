/** The log file across sessions. LogInit (log.c:127) opens the file with
    OPEN_ALWAYS and GENERIC_WRITE and never moves the file position, so a
    session's writes start at offset 0 of whatever the file already holds.
    A log kept across restarts is meant to be appended to and never
    overwritten on reopen; AppendAtEnd is that behaviour. */
module Sessions {
  import opened Records
  import opened Logger
  import opened Lifecycle

  /** The file after a session as log.c leaves it: each position holds the
      session's byte where the session wrote one, and the earlier byte
      beyond that. */
  function Overwrite(before: seq<char>, written: seq<char>): (disk: seq<char>)
    ensures |disk| == if |written| < |before| then |before| else |written|
    ensures forall i :: 0 <= i < |disk| ==> disk[i] == if i < |written| then written[i] else before[i]
  {
    if |written| < |before| then written + before[|written|..] else written
  }

  /** The file after a session opened for appending: the earlier text, intact,
      followed by the session's bytes. */
  function AppendAtEnd(before: seq<char>, written: seq<char>): (disk: seq<char>)
    ensures before <= disk && |disk| == |before| + |written|
    ensures forall i :: 0 <= i < |written| ==> disk[|before| + i] == written[i]
  {
    before + written
  }

  /** An existing two-line log followed by a session that writes one line
      of the same length: as written, the new line replaces the first old
      line and the second old line stays behind it; appended, all three
      lines survive in order. */
  lemma OverwriteLosesLines()
    ensures Overwrite("INF a\r\nINF b\r\n", "ERR c\r\n") == "ERR c\r\nINF b\r\n"
    ensures AppendAtEnd("INF a\r\nINF b\r\n", "ERR c\r\n") == "INF a\r\nINF b\r\nERR c\r\n"
    ensures Overwrite("INF a\r\nINF b\r\n", "ERR c\r\n") != AppendAtEnd("INF a\r\nINF b\r\n", "ERR c\r\n")
  {
    var disk := Overwrite("INF a\r\nINF b\r\n", "ERR c\r\n");
    assert disk[..7] == "ERR c\r\n";
    assert disk[7..] == "INF b\r\n";
    assert disk == disk[..7] + disk[7..];
    assert |AppendAtEnd("INF a\r\nINF b\r\n", "ERR c\r\n")| == 21;
  }

  /** Every session runs from LogInit through LogRelease with no failing
      write. */
  ghost predicate CleanSessions(runs: seq<seq<Event>>)
  {
    forall i :: 0 <= i < |runs| ==>
      AllHonest(runs[i]) && NoWriteFails(runs[i]) && HasShutdown(runs[i])
  }

  /** Each session's own file contents, the session started from a fresh
      context. */
  function SessionFiles(runs: seq<seq<Event>>): (files: seq<seq<char>>)
    requires CleanSessions(runs)
    ensures |files| == |runs|
  {
    seq(|runs|, i requires 0 <= i < |runs| => Run(Fresh(), runs[i]).ctx.file)
  }

  /** Each session's queued records. */
  function SessionRecords(runs: seq<seq<Event>>): (records: seq<seq<Record>>)
    requires CleanSessions(runs)
    ensures |records| == |runs|
  {
    seq(|runs|, i requires 0 <= i < |runs| => Run(Fresh(), runs[i]).accepted)
  }

  /** The file after a series of sessions, each appending its own text. */
  function AppendAll(before: seq<char>, files: seq<seq<char>>): seq<char>
    decreases |files|
  {
    if |files| == 0 then before else AppendAll(AppendAtEnd(before, files[0]), files[1..])
  }

  function Flatten(records: seq<seq<Record>>): seq<Record>
    decreases |records|
  {
    if |records| == 0 then [] else records[0] + Flatten(records[1..])
  }

  /** The file after a series of appending sessions, each started from a
      fresh context. */
  function Cycles(before: seq<char>, runs: seq<seq<Event>>): seq<char>
    requires CleanSessions(runs)
  {
    AppendAll(before, SessionFiles(runs))
  }

  /** The records queued over a series of sessions, in session order. */
  function AllAccepted(runs: seq<seq<Event>>): seq<Record>
    requires CleanSessions(runs)
  {
    Flatten(SessionRecords(runs))
  }

  lemma JoinLines(before: seq<char>, first: seq<Record>, rest: seq<Record>)
    ensures (before + Lines(first)) + Lines(rest) == before + Lines(first + rest)
  {
    LinesAppend(first, rest);
    assert (before + Lines(first)) + Lines(rest) == before + (Lines(first) + Lines(rest));
  }

  /** Appending sessions that each write exactly their own lines leaves the
      earlier text followed by all of those lines, session by session. */
  lemma {:induction false} AppendAllLines(before: seq<char>, files: seq<seq<char>>, records: seq<seq<Record>>)
    requires |files| == |records|
    requires forall i :: 0 <= i < |files| ==> files[i] == Lines(records[i])
    ensures AppendAll(before, files) == before + Lines(Flatten(records))
    decreases |files|
  {
    if |files| == 0 {
      assert before + [] == before;
    } else {
      var rest := Flatten(records[1..]);
      forall i | 0 <= i < |files| - 1
        ensures files[1..][i] == Lines(records[1..][i])
      {
        assert files[1..][i] == files[i + 1] && records[1..][i] == records[i + 1];
      }
      assert files[0] == Lines(records[0]);
      assert AppendAll(before, files) == AppendAll(before + Lines(records[0]), files[1..]);
      AppendAllLines(before + Lines(records[0]), files[1..], records[1..]);
      assert Flatten(records) == records[0] + rest;
      JoinLines(before, records[0], rest);
    }
  }

  /** Repeated init / log / release cycles on an appending file leave the
      earlier text followed by every queued record of every session, in the
      order they were logged. */
  lemma CyclesKeepEveryLine(before: seq<char>, runs: seq<seq<Event>>)
    requires CleanSessions(runs)
    ensures Cycles(before, runs) == before + Lines(AllAccepted(runs))
  {
    var files := SessionFiles(runs);
    var records := SessionRecords(runs);
    forall i | 0 <= i < |runs|
      ensures files[i] == Lines(records[i])
    {
      ShutdownWritesEveryQueuedRecord(runs[i]);
    }
    AppendAllLines(before, files, records);
  }
}
