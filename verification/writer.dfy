/** LogWriteEntry (log.c:61-76) and the per-batch write loop
    (log.c:102-107, log.c:155-160), against WriteFile seen as an oracle. */
module Writer {
  import opened Records

  /** One WriteFile outcome: success with the count it reports in Written,
      or failure with the code GetLastError then returns. */
  datatype WriteResult = Accepted(count: nat) | Failed(code: nat)

  /** WriteFile as the logger sees it: the outcome of the call-th call
      asked to write `requested` bytes. */
  type Device = (nat, nat) -> WriteResult

  /** What WriteFile promises a caller on a synchronous file handle: a
      success accepts at least one and at most the requested bytes, and a
      failure leaves a nonzero error code. */
  predicate Honest(r: WriteResult, requested: nat)
  {
    match r
    case Accepted(n) => 0 < n <= requested
    case Failed(code) => code != 0
  }

  ghost predicate WellBehaved(dev: Device)
  {
    forall call: nat, requested: nat :: 0 < requested ==> Honest(dev(call, requested), requested)
  }

  /** A device on which no write fails. */
  ghost predicate NeverFails(dev: Device)
  {
    forall call: nat, requested: nat :: 0 < requested ==> dev(call, requested).Accepted?
  }

  /** The outcome of writing one record: the status LogWriteEntry returns,
      how many bytes the file accepted, and the index of the next WriteFile
      call. */
  datatype Transfer = Transfer(status: nat, sent: nat, nextCall: nat)

  /** The retry loop as a recursive function, from `done` bytes already
      accepted: it reports success exactly when every byte was accepted,
      and always succeeds on a device that never fails. */
  function TransferFrom(bytes: seq<char>, dev: Device, call: nat, done: nat): (t: Transfer)
    requires WellBehaved(dev) && done <= |bytes|
    ensures done <= t.sent <= |bytes| && call <= t.nextCall
    ensures t.status == 0 <==> t.sent == |bytes|
    ensures NeverFails(dev) ==> t.status == 0
    decreases |bytes| - done
  {
    if done >= |bytes| then Transfer(0, done, call)
    else
      var requested := |bytes| - done;
      assert Honest(dev(call, requested), requested);
      match dev(call, requested)
      case Failed(code) => Transfer(code, done, call + 1)
      case Accepted(n) => TransferFrom(bytes, dev, call + 1, done + n)
  }

  /** Offsets at which successive accepted WriteFile calls started, ending
      at `total`: the first call started at 0, each next one where the
      previous call's accepted bytes ended, and the last one's accepted
      bytes end at `total`. */
  ghost predicate Reached(bytes: seq<char>, dev: Device, firstCall: nat, starts: seq<nat>, total: nat)
    decreases |starts|
  {
    if |starts| == 0 then total == 0
    else
      var last := starts[|starts| - 1];
      && Reached(bytes, dev, firstCall, starts[..|starts| - 1], last)
      && last < |bytes|
      && dev(firstCall + |starts| - 1, |bytes| - last).Accepted?
      && last + dev(firstCall + |starts| - 1, |bytes| - last).count == total
  }

  /** Offsets at which successive WriteFile calls started: every call but
      the last was accepted and the next one started where its bytes ended;
      the last one started inside the record. */
  ghost predicate Contiguous(bytes: seq<char>, dev: Device, firstCall: nat, starts: seq<nat>)
  {
    |starts| > 0 ==> var last := starts[|starts| - 1];
                     Reached(bytes, dev, firstCall, starts[..|starts| - 1], last) && last < |bytes|
  }

  /** An accepted call that starts at `total` moves the loop state on. */
  lemma ReachedExtend(bytes: seq<char>, dev: Device, firstCall: nat, starts: seq<nat>, total: nat, n: nat)
    requires Reached(bytes, dev, firstCall, starts, total) && total < |bytes|
    requires dev(firstCall + |starts|, |bytes| - total) == Accepted(n)
    ensures Reached(bytes, dev, firstCall, starts + [total], total + n)
  {
    assert (starts + [total])[..|starts|] == starts;
  }

  /** One accepted call of the retry loop, as the recursive function sees it. */
  lemma TransferStep(bytes: seq<char>, dev: Device, call: nat, done: nat, n: nat)
    requires WellBehaved(dev) && done < |bytes|
    requires dev(call, |bytes| - done) == Accepted(n)
    ensures done + n <= |bytes|
    ensures TransferFrom(bytes, dev, call, done) == TransferFrom(bytes, dev, call + 1, done + n)
  {
    assert Honest(dev(call, |bytes| - done), |bytes| - done);
  }

  /** Calls that started contiguously and were all accepted leave the
      recursive retry loop exactly where the iterative one is. */
  lemma {:induction false} ReachedTransfer(bytes: seq<char>, dev: Device, firstCall: nat, starts: seq<nat>, total: nat)
    requires WellBehaved(dev) && Reached(bytes, dev, firstCall, starts, total)
    ensures total <= |bytes|
    ensures TransferFrom(bytes, dev, firstCall, 0) == TransferFrom(bytes, dev, firstCall + |starts|, total)
    decreases |starts|
  {
    if |starts| > 0 {
      var front, last := starts[..|starts| - 1], starts[|starts| - 1];
      ReachedTransfer(bytes, dev, firstCall, front, last);
      TransferStep(bytes, dev, firstCall + |front|, last, total - last);
    }
  }

  /** A failed call of the retry loop ends the transfer with its code. */
  lemma TransferFail(bytes: seq<char>, dev: Device, call: nat, done: nat, code: nat)
    requires WellBehaved(dev) && done < |bytes|
    requires dev(call, |bytes| - done) == Failed(code)
    ensures code != 0
    ensures TransferFrom(bytes, dev, call, done) == Transfer(code, done, call + 1)
  {
    assert Honest(dev(call, |bytes| - done), |bytes| - done);
  }

  /** LogWriteEntry: writes the used bytes of the record, calling WriteFile
      again on the rest after each partial write, and stops at the first
      failure with its error code. The bytes go to the device contiguously
      and in order; 0 is returned exactly when all of them were accepted,
      and otherwise only a prefix was. */
  method LogWriteEntry(entry: Record, dev: Device, firstCall: nat)
    returns (status: nat, sent: seq<char>, nextCall: nat, starts: seq<nat>)
    requires WellBehaved(dev)
    ensures sent <= Bytes(entry)
    ensures status == 0 <==> sent == Bytes(entry)
    ensures NeverFails(dev) ==> status == 0
    ensures nextCall == firstCall + |starts|
    ensures Contiguous(Bytes(entry), dev, firstCall, starts)
    ensures status != 0 ==> |starts| > 0 && |sent| == starts[|starts| - 1]
                            && dev(nextCall - 1, |Bytes(entry)| - |sent|) == Failed(status)
    ensures TransferFrom(Bytes(entry), dev, firstCall, 0) == Transfer(status, |sent|, nextCall)
  {
    var bytes := Bytes(entry);
    assert |bytes| == entry.used;
    var total := 0;
    nextCall := firstCall;
    starts := [];
    while total < entry.used
      invariant total <= |bytes|
      invariant nextCall == firstCall + |starts|
      invariant Reached(bytes, dev, firstCall, starts, total)
      decreases |bytes| - total
    {
      var requested := entry.used - total;
      match dev(nextCall, requested) {
        case Failed(code) =>
          ReachedTransfer(bytes, dev, firstCall, starts, total);
          TransferFail(bytes, dev, nextCall, total, code);
          assert (starts + [total])[..|starts|] == starts;
          starts := starts + [total];
          return code, bytes[..total], nextCall + 1, starts;
        case Accepted(n) =>
          ReachedExtend(bytes, dev, firstCall, starts, total, n);
          starts := starts + [total];
          total := total + n;
          nextCall := nextCall + 1;
      }
    }
    ReachedTransfer(bytes, dev, firstCall, starts, total);
    status, sent := 0, bytes;
  }

  /** Chunk-by-chunk facts about a batch's tail extend to the whole batch. */
  lemma ChunksCons(chunk: seq<char>, chunks: seq<seq<char>>, batch: seq<Record>)
    requires |batch| > 0 && |chunks| == |batch| - 1
    requires forall i :: 0 <= i < |chunks| ==> chunks[i] <= Bytes(batch[1..][i])
    requires chunk <= Bytes(batch[0])
    ensures forall i :: 0 <= i < |batch| ==> ([chunk] + chunks)[i] <= Bytes(batch[i])
    ensures (chunk == Bytes(batch[0]) && forall i :: 0 <= i < |chunks| ==> chunks[i] == Bytes(batch[1..][i]))
            ==> forall i :: 0 <= i < |batch| ==> ([chunk] + chunks)[i] == Bytes(batch[i])
  {
    forall i | 1 <= i < |batch|
      ensures ([chunk] + chunks)[i] == chunks[i - 1] && batch[i] == batch[1..][i - 1]
    {
    }
  }

  /** The WriteFile call at which the drain loop starts writing record i of
      a batch whose first record starts at `call`: each record's retry loop
      begins right after the previous record's loop ended, whether that
      loop succeeded or gave up. */
  function StartCall(batch: seq<Record>, dev: Device, call: nat, i: nat): (c: nat)
    requires WellBehaved(dev) && i <= |batch|
    ensures call <= c
    decreases i
  {
    if i == 0 then call
    else StartCall(batch[1..], dev, TransferFrom(Bytes(batch[0]), dev, call, 0).nextCall, i - 1)
  }

  /** The bytes of record i that reach the file: what its own retry loop,
      started at its start call, got accepted. */
  function Sent(batch: seq<Record>, dev: Device, call: nat, i: nat): (chunk: seq<char>)
    requires WellBehaved(dev) && i < |batch|
    ensures chunk <= Bytes(batch[i])
  {
    Bytes(batch[i])[..TransferFrom(Bytes(batch[i]), dev, StartCall(batch, dev, call, i), 0).sent]
  }

  /** Dropping the first record of a batch shifts the later records' start
      calls and chunks by one. */
  lemma SentShift(batch: seq<Record>, dev: Device, call: nat, i: nat)
    requires WellBehaved(dev) && 0 < i < |batch|
    ensures var next := TransferFrom(Bytes(batch[0]), dev, call, 0).nextCall;
            Sent(batch, dev, call, i) == Sent(batch[1..], dev, next, i - 1)
  {
    assert batch[i] == batch[1..][i - 1];
  }

  lemma SentCons(chunk: seq<char>, chunks: seq<seq<char>>, batch: seq<Record>, dev: Device, call: nat)
    requires WellBehaved(dev) && |batch| > 0 && |chunks| == |batch| - 1
    requires chunk == Sent(batch, dev, call, 0)
    requires var next := TransferFrom(Bytes(batch[0]), dev, call, 0).nextCall;
             forall i :: 0 <= i < |chunks| ==> chunks[i] == Sent(batch[1..], dev, next, i)
    ensures forall i :: 0 <= i < |batch| ==> ([chunk] + chunks)[i] == Sent(batch, dev, call, i)
  {
    forall i | 1 <= i < |batch|
      ensures ([chunk] + chunks)[i] == Sent(batch, dev, call, i)
    {
      SentShift(batch, dev, call, i);
      assert ([chunk] + chunks)[i] == chunks[i - 1];
    }
  }

  /** Result of writing a detached batch: the file afterwards, the bytes
      that reached it for each record, and the next WriteFile call. */
  datatype Batch = Batch(file: seq<char>, chunks: seq<seq<char>>, nextCall: nat)

  /** The drain loop: every record of the batch, in order, is written once
      (and then freed). The file only grows, by a prefix of each record's
      bytes in batch order; with no failures, by exactly the records' bytes. */
  function WriteBatch(file: seq<char>, batch: seq<Record>, dev: Device, call: nat): (r: Batch)
    requires WellBehaved(dev)
    ensures |r.chunks| == |batch|
    ensures forall i :: 0 <= i < |batch| ==> r.chunks[i] <= Bytes(batch[i])
    ensures r.file == file + Concat(r.chunks)
    ensures NeverFails(dev) ==> forall i :: 0 <= i < |batch| ==> r.chunks[i] == Bytes(batch[i])
    ensures NeverFails(dev) ==> r.file == file + Lines(batch)
    decreases |batch|
  {
    if |batch| == 0 then Batch(file, [], call)
    else
      var bytes := Bytes(batch[0]);
      var t := TransferFrom(bytes, dev, call, 0);
      var chunk := bytes[..t.sent];
      var rest := WriteBatch(file + chunk, batch[1..], dev, t.nextCall);
      var chunks := [chunk] + rest.chunks;
      assert chunks[1..] == rest.chunks;
      ChunksCons(chunk, rest.chunks, batch);
      Batch(rest.file, chunks, rest.nextCall)
  }

  /** The drain loop gives each record its own retry loop: record i's chunk
      is exactly what its loop got accepted starting at its start call, so a
      record that failed to write does not stop the later ones, and the
      loop's next call is where a further record would start. */
  lemma {:induction false} WriteBatchSent(file: seq<char>, batch: seq<Record>, dev: Device, call: nat)
    requires WellBehaved(dev)
    ensures var r := WriteBatch(file, batch, dev, call);
            && (forall i :: 0 <= i < |batch| ==> r.chunks[i] == Sent(batch, dev, call, i))
            && r.nextCall == StartCall(batch, dev, call, |batch|)
    decreases |batch|
  {
    if |batch| > 0 {
      var bytes := Bytes(batch[0]);
      var t := TransferFrom(bytes, dev, call, 0);
      var rest := WriteBatch(file + bytes[..t.sent], batch[1..], dev, t.nextCall);
      WriteBatchSent(file + bytes[..t.sent], batch[1..], dev, t.nextCall);
      assert WriteBatch(file, batch, dev, call).chunks == [bytes[..t.sent]] + rest.chunks;
      SentCons(bytes[..t.sent], rest.chunks, batch, dev, call);
      assert StartCall(batch, dev, call, |batch|) == StartCall(batch[1..], dev, t.nextCall, |batch| - 1);
    }
  }

  /** A device on which every call from `first` on is accepted. */
  ghost predicate AcceptsFrom(dev: Device, first: nat)
  {
    forall call: nat, requested: nat :: first <= call && 0 < requested ==> dev(call, requested).Accepted?
  }

  /** A retry loop that starts where every call is accepted sends the whole
      record. */
  lemma {:induction false} TransferCompletes(bytes: seq<char>, dev: Device, call: nat, done: nat)
    requires WellBehaved(dev) && done <= |bytes| && AcceptsFrom(dev, call)
    ensures TransferFrom(bytes, dev, call, done).sent == |bytes|
    decreases |bytes| - done
  {
    if done < |bytes| {
      var n := dev(call, |bytes| - done).count;
      assert Honest(dev(call, |bytes| - done), |bytes| - done);
      TransferCompletes(bytes, dev, call + 1, done + n);
    }
  }

  /** Later records start at later calls. */
  lemma {:induction false} StartCallGrows(batch: seq<Record>, dev: Device, call: nat, k: nat, j: nat)
    requires WellBehaved(dev) && k <= j <= |batch|
    ensures StartCall(batch, dev, call, k) <= StartCall(batch, dev, call, j)
    decreases k
  {
    if k > 0 {
      var next := TransferFrom(Bytes(batch[0]), dev, call, 0).nextCall;
      StartCallGrows(batch[1..], dev, next, k - 1, j - 1);
    }
  }

  /** A failed record does not stop the drain: once every WriteFile call
      from record k's first call on is accepted, record k and every later
      record reach the file whole, whatever happened to the records before
      k. */
  lemma RecoversAfterFailure(file: seq<char>, batch: seq<Record>, dev: Device, call: nat, k: nat)
    requires WellBehaved(dev) && k <= |batch|
    requires AcceptsFrom(dev, StartCall(batch, dev, call, k))
    ensures forall j :: k <= j < |batch| ==> WriteBatch(file, batch, dev, call).chunks[j] == Bytes(batch[j])
  {
    WriteBatchSent(file, batch, dev, call);
    forall j | k <= j < |batch|
      ensures WriteBatch(file, batch, dev, call).chunks[j] == Bytes(batch[j])
    {
      StartCallGrows(batch, dev, call, k, j);
      TransferCompletes(Bytes(batch[j]), dev, StartCall(batch, dev, call, j), 0);
    }
  }
}
