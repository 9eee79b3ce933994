/** The logger context as a sequential state machine: LogEntryEnqueue
    (log.c:169-186), the enqueue-or-free tail of Log (log.c:238-239), one
    wake of LogThreadRoutine (log.c:84-109) and the final drain of
    LogRelease (log.c:150-161). Each critical section is one atomic step.
    A wake is one step as a whole: its write phase runs outside the lock
    but touches only the file, which no producer touches. */
module Logger {
  import opened Records
  import opened Writer

  /** The shared state of one LOG_CONTEXT: the pending queue (ListHead),
      the Stopping flag, and the bytes written through the file handle
      since LogInit opened it, in the order they were written. */
  datatype Context = Context(queue: seq<Record>, stopping: bool, file: seq<char>)

  /** Contexts the operations reach from a fresh one: once stopping is set
      the final drain has emptied the queue and nothing refills it. */
  predicate Settled(ctx: Context)
  {
    ctx.stopping ==> ctx.queue == []
  }

  /** A context as LogInit leaves it: an empty queue, not stopping, and
      nothing written yet through the newly opened handle. */
  function Fresh(): (ctx: Context)
    ensures Settled(ctx) && !ctx.stopping && ctx.queue == [] && ctx.file == []
  {
    Context([], false, [])
  }

  datatype Enqueued = Enqueued(ctx: Context, inserted: bool)

  /** LogEntryEnqueue. The unlocked test at line 172 and the locked re-test
      at line 176 read the same one-way flag, so in one atomic step both
      come down to the flag's value: the record is appended at the tail
      when the context is not stopping, and refused otherwise, with nothing
      else changed either way. */
  function EntryEnqueue(ctx: Context, entry: Record): (r: Enqueued)
    ensures r.inserted <==> !ctx.stopping
    ensures r.inserted ==> r.ctx.queue == ctx.queue + [entry]
    ensures !r.inserted ==> r.ctx.queue == ctx.queue
    ensures r.ctx.stopping == ctx.stopping && r.ctx.file == ctx.file
  {
    if ctx.stopping then Enqueued(ctx, false)
    else Enqueued(ctx.(queue := ctx.queue + [entry]), true)
  }

  datatype Logged = Logged(ctx: Context, freed: bool)

  /** The tail of Log: the record either joins the queue or is freed by
      the caller, and never both. */
  function LogTail(ctx: Context, entry: Record): (r: Logged)
    ensures r.freed <==> ctx.stopping
    ensures r.freed ==> r.ctx == ctx
    ensures !r.freed ==> r.ctx.queue == ctx.queue + [entry] && r.ctx.stopping == ctx.stopping && r.ctx.file == ctx.file
  {
    var e := EntryEnqueue(ctx, entry);
    Logged(e.ctx, !e.inserted)
  }

  /** The records a drain took off the queue, the bytes that reached the
      file for each, and whether the writer thread has left its loop. */
  datatype Drained = Drained(ctx: Context, batch: seq<Record>, chunks: seq<seq<char>>, exited: bool)

  /** One wake of the writer thread. If stopping is set it leaves the loop
      and touches nothing; otherwise it detaches the whole queue, leaving
      it empty, and writes the batch to the file in FIFO order. */
  function WriterWake(ctx: Context, dev: Device): (r: Drained)
    requires WellBehaved(dev)
    ensures r.exited <==> ctx.stopping
    ensures r.exited ==> r.ctx == ctx && r.batch == []
    ensures !r.exited ==> r.ctx.queue == [] && r.batch == ctx.queue && !r.ctx.stopping
    ensures |r.chunks| == |r.batch|
    ensures forall i :: 0 <= i < |r.batch| ==> r.chunks[i] <= Bytes(r.batch[i])
    ensures r.ctx.file == ctx.file + Concat(r.chunks)
    ensures NeverFails(dev) ==> r.ctx.file == ctx.file + Lines(r.batch)
  {
    if ctx.stopping then Drained(ctx, [], [], true)
    else
      var batch := ctx.queue;
      var w := WriteBatch(ctx.file, batch, dev, 0);
      Drained(Context([], false, w.file), batch, w.chunks, false)
  }

  /** LogRelease: sets the stopping flag, which nothing ever clears, and,
      after the writer thread has exited, writes whatever is still queued
      in FIFO order and leaves the queue empty. */
  function Release(ctx: Context, dev: Device): (r: Drained)
    requires WellBehaved(dev)
    ensures r.ctx.stopping && r.ctx.queue == [] && r.exited
    ensures r.batch == ctx.queue
    ensures |r.chunks| == |r.batch|
    ensures forall i :: 0 <= i < |r.batch| ==> r.chunks[i] <= Bytes(r.batch[i])
    ensures r.ctx.file == ctx.file + Concat(r.chunks)
    ensures NeverFails(dev) ==> r.ctx.file == ctx.file + Lines(r.batch)
  {
    var w := WriteBatch(ctx.file, ctx.queue, dev, 0);
    Drained(Context([], true, w.file), ctx.queue, w.chunks, true)
  }

  /** Each drain numbers its WriteFile calls from 0 and gives every record
      of the batch its own retry loop: a wake's or a release's chunk for
      record i is what that record's loop got accepted from its start call
      on, so one record's failure does not stop the rest. */
  lemma DrainSent(ctx: Context, dev: Device)
    requires WellBehaved(dev)
    ensures var d := WriterWake(ctx, dev);
            forall i :: 0 <= i < |d.batch| ==> d.chunks[i] == Sent(d.batch, dev, 0, i)
    ensures var d := Release(ctx, dev);
            forall i :: 0 <= i < |d.batch| ==> d.chunks[i] == Sent(d.batch, dev, 0, i)
  {
    WriteBatchSent(ctx.file, ctx.queue, dev, 0);
  }

  /** What can happen to a context: a Log call finishing with a record, a
      wake of the writer thread, or LogRelease. Each write phase gets its
      own WriteFile oracle. */
  datatype Event = Log(entry: Record) | Wake(dev: Device) | Shutdown(dev: Device)

  ghost predicate HonestEvent(ev: Event)
  {
    match ev
    case Log(_) => true
    case Wake(dev) => WellBehaved(dev)
    case Shutdown(dev) => WellBehaved(dev)
  }

  ghost predicate AllHonest(events: seq<Event>)
  {
    forall i :: 0 <= i < |events| ==> HonestEvent(events[i])
  }

  ghost predicate NoWriteFails(events: seq<Event>)
  {
    forall i :: 0 <= i < |events| ==>
      match events[i]
      case Log(_) => true
      case Wake(dev) => NeverFails(dev)
      case Shutdown(dev) => NeverFails(dev)
  }

  /** The records of the Log events, in order. */
  function Produced(events: seq<Event>): seq<Record>
  {
    if |events| == 0 then []
    else (if events[0].Log? then [events[0].entry] else []) + Produced(events[1..])
  }

  ghost predicate HasShutdown(events: seq<Event>)
  {
    exists i :: 0 <= i < |events| && events[i].Shutdown?
  }

  /** The effect of a run of events: the final context, the records that
      were queued and those the producer freed, the records a drain took
      off the queue, and what reached the file for each of those. */
  datatype Trace = Trace(ctx: Context, accepted: seq<Record>, rejected: seq<Record>,
                         consumed: seq<Record>, written: seq<seq<char>>)

  function Step(ctx: Context, ev: Event): Trace
    requires HonestEvent(ev)
  {
    match ev
    case Log(entry) =>
      var l := LogTail(ctx, entry);
      if l.freed then Trace(l.ctx, [], [entry], [], []) else Trace(l.ctx, [entry], [], [], [])
    case Wake(dev) =>
      var d := WriterWake(ctx, dev);
      Trace(d.ctx, [], [], d.batch, d.chunks)
    case Shutdown(dev) =>
      var d := Release(ctx, dev);
      Trace(d.ctx, [], [], d.batch, d.chunks)
  }

  function Run(ctx: Context, events: seq<Event>): Trace
    requires AllHonest(events)
    decreases |events|
  {
    if |events| == 0 then Trace(ctx, [], [], [], [])
    else
      assert HonestEvent(events[0]);
      var s := Step(ctx, events[0]);
      var t := Run(s.ctx, events[1..]);
      Trace(t.ctx, s.accepted + t.accepted, s.rejected + t.rejected,
            s.consumed + t.consumed, s.written + t.written)
  }
}
