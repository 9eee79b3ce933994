/** Properties of whole runs of the logger: the stopping flag is one-way,
    the queue is consumed in FIFO order with every record taken exactly
    once, every logged record is either queued or freed by its producer,
    and with no write failures LogRelease leaves the file holding exactly
    the queued records in the order they were logged. */
module Lifecycle {
  import opened Records
  import opened Writer
  import opened Logger

  lemma HonestTail(events: seq<Event>)
    requires |events| > 0 && AllHonest(events)
    ensures HonestEvent(events[0]) && AllHonest(events[1..])
  {
    assert HonestEvent(events[0]);
    forall i | 0 <= i < |events| - 1
      ensures HonestEvent(events[1..][i])
    {
      assert events[1..][i] == events[i + 1];
    }
  }

  /** The single-step versions of the run properties below. */
  lemma StepFacts(ctx: Context, ev: Event)
    requires HonestEvent(ev)
    ensures var s := Step(ctx, ev);
            && (s.ctx.stopping <==> ctx.stopping || ev.Shutdown?)
            && s.consumed + s.ctx.queue == ctx.queue + s.accepted
            && s.accepted + s.rejected == (if ev.Log? then [ev.entry] else [])
            && (ctx.stopping ==> s.accepted == [])
            && (Settled(ctx) ==> Settled(s.ctx))
            && (Settled(ctx) && ctx.stopping ==> s.ctx == ctx && s.consumed == [] && s.written == [])
            && |s.written| == |s.consumed|
            && (forall i :: 0 <= i < |s.consumed| ==> s.written[i] <= Bytes(s.consumed[i]))
            && s.ctx.file == ctx.file + Concat(s.written)
  {
    match ev
    case Log(entry) =>
    case Wake(dev) =>
      var d := WriterWake(ctx, dev);
      assert d.ctx.queue == [] || d.ctx == ctx;
    case Shutdown(dev) =>
  }

  lemma StepNoFailure(ctx: Context, ev: Event)
    requires HonestEvent(ev)
    requires match ev
             case Log(_) => true
             case Wake(dev) => NeverFails(dev)
             case Shutdown(dev) => NeverFails(dev)
    ensures Step(ctx, ev).ctx.file == ctx.file + Lines(Step(ctx, ev).consumed)
  {
    match ev
    case Log(entry) =>
      assert ctx.file + [] == ctx.file;
    case Wake(dev) =>
    case Shutdown(dev) =>
  }

  lemma Regroup<T>(c1: seq<T>, c2: seq<T>, q2: seq<T>, q1: seq<T>, a2: seq<T>, q0: seq<T>, a1: seq<T>)
    requires c2 + q2 == q1 + a2
    requires c1 + q1 == q0 + a1
    ensures (c1 + c2) + q2 == q0 + (a1 + a2)
  {
    calc {
      (c1 + c2) + q2;
      c1 + (c2 + q2);
      c1 + (q1 + a2);
      (c1 + q1) + a2;
      (q0 + a1) + a2;
    }
  }

  /** The stopping flag ends up set exactly when it was set already or the
      run contains a LogRelease: nothing ever clears it. */
  lemma {:induction false} StoppingOneWay(ctx: Context, events: seq<Event>)
    requires AllHonest(events)
    ensures Run(ctx, events).ctx.stopping <==> ctx.stopping || HasShutdown(events)
    decreases |events|
  {
    if |events| > 0 {
      HonestTail(events);
      var s := Step(ctx, events[0]);
      StepFacts(ctx, events[0]);
      StoppingOneWay(s.ctx, events[1..]);
      if HasShutdown(events[1..]) {
        var i :| 0 <= i < |events[1..]| && events[1..][i].Shutdown?;
        assert events[i + 1].Shutdown?;
      }
      if HasShutdown(events) && !events[0].Shutdown? {
        var i :| 0 <= i < |events| && events[i].Shutdown?;
        assert events[1..][i - 1].Shutdown?;
      }
    }
  }

  /** Once stopping is set (and the final drain has run), nothing more
      happens: every later Log call frees its record, wakes and repeated
      releases change nothing, and no record is queued or consumed. */
  lemma {:induction false} AfterShutdown(ctx: Context, events: seq<Event>)
    requires AllHonest(events)
    requires Settled(ctx) && ctx.stopping
    ensures var t := Run(ctx, events);
            t.ctx == ctx && t.accepted == [] && t.consumed == [] && t.written == []
            && t.rejected == Produced(events)
    decreases |events|
  {
    if |events| > 0 {
      HonestTail(events);
      var s := Step(ctx, events[0]);
      StepFacts(ctx, events[0]);
      AfterShutdown(ctx, events[1..]);
    }
  }

  /** Reachable contexts stay reachable. */
  lemma {:induction false} SettledPreserved(ctx: Context, events: seq<Event>)
    requires AllHonest(events) && Settled(ctx)
    ensures Settled(Run(ctx, events).ctx)
    decreases |events|
  {
    if |events| > 0 {
      HonestTail(events);
      StepFacts(ctx, events[0]);
      SettledPreserved(Step(ctx, events[0]).ctx, events[1..]);
    }
  }

  /** FIFO and exactly-once consumption: what the drains took off the queue,
      followed by what is still queued, is the initial queue followed by
      the records accepted during the run, in order. */
  lemma {:induction false} FifoExactlyOnce(ctx: Context, events: seq<Event>)
    requires AllHonest(events)
    ensures var t := Run(ctx, events);
            t.consumed + t.ctx.queue == ctx.queue + t.accepted
    decreases |events|
  {
    if |events| > 0 {
      HonestTail(events);
      var s := Step(ctx, events[0]);
      var t := Run(s.ctx, events[1..]);
      FifoExactlyOnce(s.ctx, events[1..]);
      StepFacts(ctx, events[0]);
      Regroup(s.consumed, t.consumed, t.ctx.queue, s.ctx.queue, t.accepted, ctx.queue, s.accepted);
    }
  }

  /** Accepted and rejected records interleave into the produced ones when
      no acceptance follows a rejection. */
  lemma Interleave<T>(sa: seq<T>, sr: seq<T>, ta: seq<T>, tr: seq<T>)
    requires sr == [] || ta == []
    ensures (sa + ta) + (sr + tr) == (sa + sr) + (ta + tr)
  {
    if sr == [] {
      assert sa + sr == sa && sr + tr == tr;
    } else {
      assert sa + ta == sa && ta + tr == tr;
    }
  }

  /** Ownership of logged records: each is either queued or freed by the
      Log call that built it, never both and never neither. The freed ones
      are exactly those logged once stopping was set, so they come after
      all the queued ones. */
  lemma {:induction false} ProducerOwnership(ctx: Context, events: seq<Event>)
    requires AllHonest(events)
    ensures var t := Run(ctx, events);
            t.accepted + t.rejected == Produced(events)
            && (ctx.stopping ==> t.accepted == [])
    decreases |events|
  {
    if |events| > 0 {
      HonestTail(events);
      var s := Step(ctx, events[0]);
      var t := Run(s.ctx, events[1..]);
      ProducerOwnership(s.ctx, events[1..]);
      StepFacts(ctx, events[0]);
      assert s.rejected != [] ==> s.ctx.stopping;
      Interleave(s.accepted, s.rejected, t.accepted, t.rejected);
    }
  }

  /** Chunks that are prefixes of their records stay so when two runs'
      chunks and records are put one after the other. */
  lemma PrefixwiseAppend(w1: seq<seq<char>>, c1: seq<Record>, w2: seq<seq<char>>, c2: seq<Record>)
    requires |w1| == |c1| && |w2| == |c2|
    requires forall i :: 0 <= i < |c1| ==> w1[i] <= Bytes(c1[i])
    requires forall i :: 0 <= i < |c2| ==> w2[i] <= Bytes(c2[i])
    ensures forall i :: 0 <= i < |c1 + c2| ==> (w1 + w2)[i] <= Bytes((c1 + c2)[i])
  {
    forall i | 0 <= i < |c1 + c2|
      ensures (w1 + w2)[i] <= Bytes((c1 + c2)[i])
    {
      if i >= |c1| {
        assert (w1 + w2)[i] == w2[i - |w1|];
        assert (c1 + c2)[i] == c2[i - |c1|];
      }
    }
  }

  /** A step's write facts followed by a run's compose into the run's. */
  lemma GrowthCompose(file: seq<char>, s: Trace, t: Trace)
    requires |s.written| == |s.consumed| && |t.written| == |t.consumed|
    requires forall i :: 0 <= i < |s.consumed| ==> s.written[i] <= Bytes(s.consumed[i])
    requires forall i :: 0 <= i < |t.consumed| ==> t.written[i] <= Bytes(t.consumed[i])
    requires s.ctx.file == file + Concat(s.written)
    requires t.ctx.file == s.ctx.file + Concat(t.written)
    ensures forall i :: 0 <= i < |s.consumed + t.consumed| ==>
              (s.written + t.written)[i] <= Bytes((s.consumed + t.consumed)[i])
    ensures t.ctx.file == file + Concat(s.written + t.written)
  {
    ConcatAppend(s.written, t.written);
    PrefixwiseAppend(s.written, s.consumed, t.written, t.consumed);
  }

  /** What reaches the file: it only grows, and it grows by a prefix of the
      bytes of each consumed record, in the order they were consumed. */
  lemma {:induction false} FileGrowth(ctx: Context, events: seq<Event>)
    requires AllHonest(events)
    ensures var t := Run(ctx, events);
            |t.written| == |t.consumed|
            && (forall i :: 0 <= i < |t.consumed| ==> t.written[i] <= Bytes(t.consumed[i]))
            && t.ctx.file == ctx.file + Concat(t.written)
    decreases |events|
  {
    if |events| > 0 {
      HonestTail(events);
      var s := Step(ctx, events[0]);
      FileGrowth(s.ctx, events[1..]);
      StepFacts(ctx, events[0]);
      GrowthCompose(ctx.file, s, Run(s.ctx, events[1..]));
    } else {
      assert ctx.file + [] == ctx.file;
    }
  }

  lemma NoWriteFailsTail(events: seq<Event>)
    requires |events| > 0 && NoWriteFails(events)
    ensures NoWriteFails(events[1..])
  {
    forall i | 0 <= i < |events| - 1
      ensures match events[1..][i]
              case Log(_) => true
              case Wake(dev) => NeverFails(dev)
              case Shutdown(dev) => NeverFails(dev)
    {
      assert events[1..][i] == events[i + 1];
    }
  }

  lemma LinesCompose(file: seq<char>, s: Trace, t: Trace)
    requires s.ctx.file == file + Lines(s.consumed)
    requires t.ctx.file == s.ctx.file + Lines(t.consumed)
    ensures t.ctx.file == file + Lines(s.consumed + t.consumed)
  {
    LinesAppend(s.consumed, t.consumed);
  }

  /** With no write failures, the file gains exactly the bytes of the
      consumed records, concatenated in the order they were consumed. */
  lemma {:induction false} NoFailureFile(ctx: Context, events: seq<Event>)
    requires AllHonest(events) && NoWriteFails(events)
    ensures Run(ctx, events).ctx.file == ctx.file + Lines(Run(ctx, events).consumed)
    decreases |events|
  {
    if |events| > 0 {
      HonestTail(events);
      NoWriteFailsTail(events);
      var s := Step(ctx, events[0]);
      NoFailureFile(s.ctx, events[1..]);
      StepNoFailure(ctx, events[0]);
      LinesCompose(ctx.file, s, Run(s.ctx, events[1..]));
    } else {
      assert ctx.file + [] == ctx.file;
    }
  }

  /** A run that contains a LogRelease ends with an empty queue. */
  lemma {:induction false} ShutdownEmptiesQueue(ctx: Context, events: seq<Event>)
    requires AllHonest(events) && HasShutdown(events)
    ensures Run(ctx, events).ctx.queue == []
    decreases |events|
  {
    HonestTail(events);
    var s := Step(ctx, events[0]);
    StepFacts(ctx, events[0]);
    if events[0].Shutdown? {
      AfterShutdown(s.ctx, events[1..]);
    } else {
      var i :| 0 <= i < |events| && events[i].Shutdown?;
      assert events[1..][i - 1].Shutdown?;
      ShutdownEmptiesQueue(s.ctx, events[1..]);
    }
  }

  /** The end-to-end promise: starting from a fresh context, if no write
      fails and LogRelease is called, the handle has received exactly the
      queued records, concatenated in the order they were logged. */
  lemma ShutdownWritesEveryQueuedRecord(events: seq<Event>)
    requires AllHonest(events) && NoWriteFails(events) && HasShutdown(events)
    ensures var t := Run(Fresh(), events);
            t.ctx.queue == [] && t.ctx.stopping && t.ctx.file == Lines(t.accepted)
  {
    var t := Run(Fresh(), events);
    ShutdownEmptiesQueue(Fresh(), events);
    StoppingOneWay(Fresh(), events);
    FifoExactlyOnce(Fresh(), events);
    NoFailureFile(Fresh(), events);
    assert t.consumed == t.consumed + t.ctx.queue == [] + t.accepted == t.accepted;
    assert [] + Lines(t.consumed) == Lines(t.consumed);
  }
}
