# Asynchronous logger of the filter agent, modelled in Dafny

The agent's server logs through one small subsystem, `Agent/Server/log.c`.
A `Log` call formats one line into a fixed 256-byte `LOG_ENTRY` buffer:

- a level tag;
- the time;
- the thread id;
- `function():file:line:`;
- the caller's message;
- CR LF.

The call then appends the entry to a locked queue. A single writer thread
wakes, detaches the whole queue and writes each entry to the log file with
`LogWriteEntry`. That function retries partial `WriteFile`s and gives up on
the first failure. `LogRelease` sets the one-way `Stopping` flag, joins the
writer, and drains whatever is still queued.

This project models that core as pure functions over sequences and proves
what it promises:

- `Records`: the `LOG_ENTRY` (buffer and used count) and the Windows
  integer types.
- `Numerals`: `%d`, `%0Nd` and `%x`, each with a parse-back reference.
- `Path`: `TruncatePath` via `strrchr`.
- `Formatter`: `WriteMsg2` and record building in `Log`, exactly as
  written. MSVC `_vsnprintf` is modelled with its three outcomes: fits
  with a NUL, fits exactly with no NUL, and truncated with -1.
  - The record is proved equal to a text-level partner. Each field write
    either appends the field, or drops the last character already written.
- `ClampedFormatter`: the same record building with the `-1` case
  corrected; see Findings.
- `Writer`: `LogWriteEntry` as a loop method, against `WriteFile` seen
  as an oracle. The oracle is a function from (call number, bytes
  requested) to an outcome. A recursive reference definition is proved
  equal to the loop. The per-batch drain is a recursive function over the
  batch. Each record's share of the file is proved to be exactly what its
  own retry loop got accepted, so a failed record does not stop the
  records after it.
- `Logger`: the `LOG_CONTEXT` as a sequential state machine.
  - Each critical section is one atomic step: enqueue or free, one writer
    wake, and `LogRelease`.
  - `Run` folds a sequence of such events.
- `Lifecycle`: properties of whole runs, each proved by induction:
  - the flag is one-way;
  - FIFO, exactly-once consumption;
  - every logged record is either queued or freed;
  - the file grows by prefixes of consumed records;
  - with no write failures, shutdown leaves exactly the queued records on
    the file, in order.
- `Sessions`: the file across repeated init/release sessions, as the code
  opens it and as an appending file would hold it; see Findings.

The code departs from the evidently intended behaviour in two places.
The model follows the code in both, proves the corrected behaviour
alongside, and logs both under Findings:

- An over-long message should yield a 256-byte line: the formatted text
  cut to 254 bytes, then CR LF. The code drops the message instead, and
  the line is shorter.
- A log kept across restarts should be appended to, never overwritten on
  reopen. The code opens it with `OPEN_ALWAYS` and writes from offset 0.

## Model

| member | source | states |
|---|---|---|
| Numerals.Digits | Agent/Server/log.c:223-228 | a number renders as at least one character, every one of them a digit of the base: one of the first `base` characters of `0123456789abcdef` |
| Numerals.DigitsRoundTrip | Agent/Server/log.c:223-228 | reading the rendered digits back in the same base gives the number again |
| Numerals.DigitsLength | Agent/Server/log.c:223-227 | a value below base^k renders in at most k digits, which bounds the WORD and DWORD fields |
| Numerals.ZeroPad | Agent/Server/log.c:223 | `%02d` / `%03d`: the result is max(width, digits) long, ends with the digits, and everything in front of them is '0' |
| Numerals.WordDecimal | Agent/Server/log.c:223-225 | a SYSTEMTIME WORD prints as one to five decimal digits that parse back to the value |
| Numerals.DWordHex | Agent/Server/log.c:227 | `%x` of the thread id is one to eight hex digits that parse back to the id |
| Numerals.SignedDecimal | Agent/Server/log.c:228 | `%d` of the ULONG line number: below 2^31 it parses back to the value, from 2^31 on it is '-' followed by 2^32 minus the value; it is 1 to 11 characters of '-' and decimal digits |
| Path.LastIndexOf | Agent/Server/log.c:54 | `strrchr`: none exactly when the character is absent, otherwise an index holding it with no occurrence after it |
| Path.TruncatePath | Agent/Server/log.c:50-59 | the result is a suffix without '\\'; it is the whole input when there is no '\\', and otherwise input = prefix + '\\' + result |
| Path.TruncatePathExamples | Agent/Server/log.c:50-59 | `C:\a\b\c.c` shortens to `c.c`, and `c.c` stays `c.c` |
| Formatter.LevelTag | Agent/Server/log.c:204-220 | the tag is three letters, and it is "UNK" exactly for a level outside INF/ERR/DBG/WRN |
| Formatter.TimeField | Agent/Server/log.c:223-225 | the time field is 14 to 25 characters, so it always fits after the tag |
| Formatter.ThreadField | Agent/Server/log.c:227 | the thread field is 't' followed by 1 to 8 hex digits |
| Formatter.LocationField | Agent/Server/log.c:228 | the field starts with " func():" and ends in ": "; no backslash appears after the function name, so no directory part of the file name survives |
| Formatter.LogFields | Agent/Server/log.c:204-230 | the five fields of one call are well formed, carry the level's tag, and pass the message through unchanged |
| Formatter.VsnPrintf | Agent/Server/log.c:29 | MSVC `_vsnprintf`: returns the length when the string fits and -1 otherwise; stores the string, or its first `count` characters; never touches bytes before the cursor or past `count` |
| Formatter.WriteMsg | Agent/Server/log.c:22-36 | the cursor keeps pos + left = 256; a field that fits advances the cursor by its length; a field that does not fit moves it back one byte and grows BufLeft by one; the text behind the cursor is the Append partner's text |
| Formatter.HeaderText | Agent/Server/log.c:204-228 | after the four header writes the text starts with the tag and is the plain concatenation whenever that fits |
| Formatter.BodyText | Agent/Server/log.c:199-230 | the text in front of the terminator starts with the tag, is at most 256 characters, and is the header followed by the whole message whenever that fits |
| Formatter.FillFields | Agent/Server/log.c:199-230 | five writes on a fresh buffer leave exactly the text-level body behind the cursor, whatever the buffer held before |
| Formatter.Seal | Agent/Server/log.c:231-236 | when the CR LF write returned 0 or less, the last two bytes are forced to CR LF, the rest of the buffer is kept and all 256 bytes are used; otherwise the buffer is kept and the used count is 256 minus BufLeft |
| Formatter.SealLine | Agent/Server/log.c:231-236 | writing CR LF and sealing gives the body plus CR LF when it fits, and otherwise the first 254 bytes of the buffer plus forced CR LF |
| Formatter.Render | Agent/Server/log.c:199-236 | the record's bytes are the body text plus CR LF (cut to 254 + CR LF when full); it starts with the tag, always ends in CR LF, and its used count is the body length + 2 or 256 |
| Formatter.LogRecord | Agent/Server/log.c:188-236 | a record built from a call's arguments names its level in the first three bytes, "UNK" exactly for unknown levels, and ends in CR LF |
| Formatter.FittingLine | Agent/Server/log.c:199-236 | a record whose header and message leave room for CR LF is exactly tag, time, thread, location, message and CR LF, nothing cut |
| Formatter.LineFormat | Agent/Server/log.c:188-236 | the line format: when the function name, file name and message total at most 199 characters, the line is the level tag, the time, the thread, " func():", the file's base name, ":line: ", the message and CR LF |
| Formatter.OverlongMessageDropped | Agent/Server/log.c:29-33 | as written: when the header fits with room to spare but the message does not, the line is the header minus its last byte, then CR LF, shorter than 256 bytes |
| FormatterExamples.OverlongMessageExample | Agent/Server/log.c:29-33 | an INF call with a 1000-character message produces `INF 12:34:56.789 t1a2b Run():log.c:42:` + CR LF, with none of the message |
| ClampedFormatter.AppendClampedTwice | Agent/Server/log.c:29-33 | with the corrected cursor update, writing two fields in a row keeps the same text as writing their concatenation |
| ClampedFormatter.WriteMsgClamped | Agent/Server/log.c:22-36 | the corrected write keeps the cursor valid and leaves as much of the field as fits |
| ClampedFormatter.FillFieldsClamped | Agent/Server/log.c:199-230 | corrected: the five writes leave the whole formatted text cut to 256 bytes |
| ClampedFormatter.RenderClamped | Agent/Server/log.c:199-236 | corrected: the line is the formatted text cut to 254 bytes, then CR LF; it is exactly 256 bytes long when the text does not fit |
| Writer.TransferFrom | Agent/Server/log.c:61-76 | reference retry loop: it reports 0 exactly when every byte was accepted, and always 0 on a device that never fails |
| Writer.ReachedTransfer | Agent/Server/log.c:66-73 | contiguous accepted calls leave the recursive retry loop at the same offset and call number as the iterative one |
| Writer.TransferFail | Agent/Server/log.c:67-69 | a failing `WriteFile` ends the transfer with its nonzero `GetLastError` code |
| Writer.LogWriteEntry | Agent/Server/log.c:61-76 | the bytes sent are a prefix of the record's used bytes; 0 is returned exactly when all were sent; calls are contiguous; a failure is the last call's code; the result equals the reference loop |
| Writer.WriteBatch | Agent/Server/log.c:102-107 | each record of a batch is written once, in order: the file grows by a prefix of each record's bytes, and by exactly their bytes when no write fails |
| Writer.WriteBatchSent | Agent/Server/log.c:102-107 | each record's chunk is exactly what its own retry loop got accepted, the loop starting at the call after the previous record's loop ended, whether that one succeeded or failed; the drain ends where a further record would start |
| Writer.TransferCompletes | Agent/Server/log.c:66-73 | a retry loop that starts where every `WriteFile` call is accepted sends the whole record |
| Writer.RecoversAfterFailure | Agent/Server/log.c:102-107 | a failure does not stop the drain: once every call from record k's first call on is accepted, record k and every later record reach the file whole, whatever happened before |
| Logger.Fresh | Agent/Server/log.c:114-118 | LogInit leaves an empty queue, a clear flag and nothing written |
| Logger.EntryEnqueue | Agent/Server/log.c:169-186 | inserted exactly when not stopping; then the record is at the queue's tail, otherwise the queue is unchanged; the flag and file never change |
| Logger.LogTail | Agent/Server/log.c:238-239 | the record is freed exactly when the context is stopping, and otherwise queued at the tail, never both |
| Logger.WriterWake | Agent/Server/log.c:84-109 | when stopping, the thread exits and nothing changes; otherwise the whole queue is detached, leaving it empty, and written in FIFO order |
| Logger.Release | Agent/Server/log.c:150-161 | the flag is set and the queue left empty; everything still queued is written in FIFO order |
| Logger.DrainSent | Agent/Server/log.c:102-107 | in a writer wake, and likewise in the drain of `LogRelease` (lines 155-160), each record's chunk is what its own retry loop got accepted, calls numbered from 0 per drain |
| Lifecycle.StepFacts | Agent/Server/log.c:84-186 | one event: the flag only goes up; what is consumed plus the queue equals the old queue plus what is accepted; a logged record is accepted or rejected; the file grows by record prefixes |
| Lifecycle.StoppingOneWay | Agent/Server/log.c:150 | at the end of a run the flag is set exactly when it was set before or the run contains a LogRelease |
| Lifecycle.AfterShutdown | Agent/Server/log.c:84-93 | after the final drain nothing changes: every later record is freed by its producer and nothing is queued, consumed or written |
| Lifecycle.SettledPreserved | Agent/Server/log.c:150-160 | "stopping implies an empty queue" holds in every reachable context |
| Lifecycle.FifoExactlyOnce | Agent/Server/log.c:95-103 | over a run, the consumed records followed by the queue equal the initial queue followed by the accepted records |
| Lifecycle.ProducerOwnership | Agent/Server/log.c:238-239 | every logged record is either queued or freed by its producer, and all queued ones come before all freed ones |
| Lifecycle.FileGrowth | Agent/Server/log.c:102-107 | the file only grows, by a prefix of each consumed record's bytes in consumption order |
| Lifecycle.NoFailureFile | Agent/Server/log.c:155-160 | with no write failures the file grows by exactly the consumed records' bytes |
| Lifecycle.ShutdownEmptiesQueue | Agent/Server/log.c:155-160 | a run containing LogRelease ends with an empty queue |
| Lifecycle.ShutdownWritesEveryQueuedRecord | Agent/Server/log.c:145-186 | from LogInit through LogRelease with no failing write, the handle receives exactly the queued records, in the order they were logged |
| Sessions.Overwrite | Agent/Server/log.c:127 | as written: each byte of the file after a session is the session's byte where it wrote one, and the old byte beyond that |
| Sessions.OverwriteLosesLines | Agent/Server/log.c:127 | as written: a session writing `ERR c` over a log holding `INF a` and `INF b` leaves `ERR c` and `INF b`, which differs from appending |
| Sessions.AppendAllLines | Agent/Server/log.c:127 | corrected: sessions that each write exactly their own lines, appended in turn, leave the earlier text followed by all those lines, session by session |
| Sessions.CyclesKeepEveryLine | Agent/Server/log.c:127 | corrected: repeated clean init/log/release sessions leave the old text followed by every queued record of every session, in order |

## Left out

- Concurrency and waiting are not modelled. Each critical section is one
  atomic step, and a wake is one step as a whole; its write phase touches
  only the file, which producers never touch. The unlocked `Stopping`
  test in `LogEntryEnqueue` and the locked re-test read the same one-way
  flag, so both reduce to its value.
- Liveness: `LogRelease` sets `Stopping` but never signals the event. A
  writer parked in `WaitForSingleObject` at line 85 can therefore sleep
  forever, and the join at line 152 with it, unless another `Log` call
  happens to signal. A sequential model cannot express the hang.
- LogInit's resource plumbing is not modelled: creating the event, file
  and thread, their failure paths, and the handles closed at the end of
  LogRelease. Only its resulting state, `Logger.Fresh`, and its file
  position are. On a failed `CreateEvent`, LogInit returns without
  deleting the critical section; that leak is not modelled.
- `malloc` failure in `Log` (line 196): the call simply does nothing,
  so there is nothing to model.
- `GetSystemTime` and `GetCurrentThreadId` are parameters (`SystemTime`,
  `tid`).
- The caller's `Fmt` and `va_list` are taken as the already-rendered
  message string. `printf` formatting of arbitrary arguments is not
  modelled.
- Strings may contain NUL in the model; the C strings passed to `%s`
  cannot.
- The numeric values of `LOG_INF`, `LOG_ERR`, `LOG_DBG` and `LOG_WRN`
  live in `log.h`, which is not part of this model. `Formatter.Level`
  names the four known levels and `Unknown(code)` for every other value.
- The guard `*pLeft < 0` in `WriteMsg2` compares an unsigned value with
  zero, never fires, and is not modelled.
- `FlushFileBuffers` (lines 108 and 161) does not change the file's
  contents and is not modelled.
- `WriteFile` is an oracle, the `Writer.Device` parameter. Only what the
  API promises is assumed: a success reports between 1 and the requested
  number of bytes, and a failure leaves a nonzero error code. A success
  that reports 0 bytes would make the loop at line 66 spin forever; it
  is excluded by that assumption.
- The status `LogWriteEntry` returns is ignored by both callers (lines
  105 and 158). The model returns it, but the drains only record what
  reached the file.
- `GlobalLogInit`, `GlobalLogRelease` and `GlobalLog` (lines 242-259)
  only forward to the same functions on one global context.
- Lifecycle.FileGrowth: over a whole run it states that each consumed
  record contributes a prefix of its bytes. The exact chunk is stated per
  drain by `Logger.DrainSent`, because each drain has its own `WriteFile`
  oracle with calls numbered from 0.
- Formatter.LineFormat: states the line format for calls whose function
  name, file name and message total at most 199 characters, a bound that
  always leaves room. `Formatter.FittingLine` states it under the exact
  condition, that the header and the message leave room for CR LF.
- Characters: `CHAR` buffers and C strings are sequences of Dafny `char`,
  and every length counts characters. Inputs are meant as byte-valued
  characters. A message holding multi-byte UTF-8 characters counts bytes
  in the source, so its cut points there differ from the model's.
- Logger.WriterWake, Logger.Release: the `LIST_ENTRY` intrusive list is
  a sequence, and freeing an entry after its write is not represented
  (the record simply leaves the queue). The exactly-once property is
  stated as `Lifecycle.FifoExactlyOnce` instead.

## Findings

| source | as written | input that shows it | evidently intended | confidence | as-written member | corrected member |
|---|---|---|---|---|---|---|
| Agent/Server/log.c:29-33 | when a field does not fit, `_vsnprintf` returns -1, which is added to `BufPos` and subtracted from `BufLeft`: the cursor steps back one byte, and the next write (ultimately CR LF) overwrites the truncated field and the header's last byte | an INF call whose message is 1000 × 'a': the line is `INF 12:34:56.789 t1a2b Run():log.c:42:` + CR LF, none of the message is kept, and the line is far shorter than 256 bytes | the message is cut at the buffer's end, and the line is the first 254 bytes of the formatted text followed by CR LF, 256 bytes in all | high; not executed | FormatterExamples.OverlongMessageExample | ClampedFormatter.RenderClamped |
| Agent/Server/log.c:127 | the log file is opened with `OPEN_ALWAYS` and `GENERIC_WRITE` and the file position is never moved, so each session writes from offset 0 over the previous contents | an existing log `INF a` CR LF `INF b` CR LF, and a session that logs one record `ERR c` CR LF: the file becomes `ERR c` CR LF `INF b` CR LF, losing `INF a` and keeping a stale line | the file is opened for appending: every session's records follow the previous contents, so N sessions of K records leave N × K lines in call order | high; not executed | Sessions.OverwriteLosesLines | Sessions.CyclesKeepEveryLine |
