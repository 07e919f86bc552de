/** Chunked streaming with retries and checkpoints. The consumer is an arbitrary answer to each
    `onChunk` call; a chunk counts as delivered when its call completes without throwing. */
module StreamExport {
  import opened Basics
  import opened FloorDivision

  datatype Message<R> =
    | Start
    | Chunk(seqNo: nat, rows: seq<R>)
    | End(seqNo: nat, rowCount: nat)
    | Error(seqNo: nat, checkpoint: nat)

  datatype Delivery<R> = Delivery(message: Message<R>, ok: bool)

  type Log<R> = seq<Delivery<R>>

  datatype Outcome = Finished | StartRefused | ChunkRefused(checkpoint: nat) | EndRefused

  datatype Stats = Stats(chunks: nat, rows: nat, retries: nat, paused: nat)

  datatype Options = Options(chunkSize: int, highWaterMark: int, maxRetries: int, checkpoint: int)

  function StartRow(opts: Options, count: nat): (r: nat)
    ensures r <= count
  {
    Max(0, Min(opts.checkpoint, count))
  }

  function ChunkSize(opts: Options): (r: nat)
    ensures r >= 1
  {
    Max(1, opts.chunkSize)
  }

  function Retries(opts: Options): nat {
    Max(0, opts.maxRetries)
  }

  /** Options are taken as they are when they make sense, and else the nearest that does. */
  lemma OptionsMean(opts: Options, count: nat)
    ensures ChunkSize(opts) == if opts.chunkSize >= 1 then opts.chunkSize else 1
    ensures Retries(opts) == if opts.maxRetries >= 0 then opts.maxRetries else 0
    ensures StartRow(opts, count) ==
            if opts.checkpoint < 0 then 0 else if opts.checkpoint > count then count else opts.checkpoint
  {
  }

  // ---------------------------------------------------------------------------
  // Reading a log

  predicate IsDelivered<R>(d: Delivery<R>) {
    d.message.Chunk? && d.ok
  }

  /** The rows of the delivered chunks, in order. */
  function DeliveredRows<R>(log: Log<R>): seq<R> {
    if log == [] then []
    else
      var last := log[|log| - 1];
      DeliveredRows(log[..|log| - 1]) + if IsDelivered(last) then last.message.rows else []
  }

  function DeliveredCount<R>(log: Log<R>): nat {
    if log == [] then 0
    else DeliveredCount(log[..|log| - 1]) + if IsDelivered(log[|log| - 1]) then 1 else 0
  }

  /** Every chunk call carries the number of chunks delivered before it, so the delivered ones
      are numbered 0, 1, 2, ... */
  predicate Numbered<R>(log: Log<R>) {
    log == [] ||
    (Numbered(log[..|log| - 1]) &&
     (log[|log| - 1].message.Chunk? ==> log[|log| - 1].message.seqNo == DeliveredCount(log[..|log| - 1])))
  }

  /** How often chunk number `n` was sent. */
  function Attempts<R>(log: Log<R>, n: nat): nat {
    if log == [] then 0
    else
      var last := log[|log| - 1].message;
      Attempts(log[..|log| - 1], n) + if last.Chunk? && last.seqNo == n then 1 else 0
  }

  /** How many chunk calls were refused. */
  function Refusals<R>(log: Log<R>): nat {
    if log == [] then 0
    else
      var last := log[|log| - 1];
      Refusals(log[..|log| - 1]) + if last.message.Chunk? && !last.ok then 1 else 0
  }

  predicate Answered<R>(log: Log<R>, consumer: nat -> bool) {
    forall k :: 0 <= k < |log| ==> log[k].ok == consumer(k)
  }

  /** Chunks hold at least one row and at most `size`. */
  predicate Sized<R>(log: Log<R>, size: nat) {
    forall k :: 0 <= k < |log| && log[k].message.Chunk? ==> 1 <= |log[k].message.rows| <= size
  }

  ghost predicate AttemptsAtMost<R>(log: Log<R>, limit: nat) {
    forall n: nat :: Attempts(log, n) <= limit
  }

  ghost predicate Unattempted<R>(log: Log<R>, from: nat) {
    forall n: nat :: n >= from ==> Attempts(log, n) == 0
  }

  lemma Append<R>(log: Log<R>, d: Delivery<R>)
    ensures DeliveredRows(log + [d]) == DeliveredRows(log) + if IsDelivered(d) then d.message.rows else []
    ensures DeliveredCount(log + [d]) == DeliveredCount(log) + if IsDelivered(d) then 1 else 0
    ensures Refusals(log + [d]) == Refusals(log) + if d.message.Chunk? && !d.ok then 1 else 0
    ensures Numbered(log + [d]) <==> Numbered(log) && (d.message.Chunk? ==> d.message.seqNo == DeliveredCount(log))
    ensures forall n: nat :: Attempts(log + [d], n) ==
                        Attempts(log, n) + if d.message.Chunk? && d.message.seqNo == n then 1 else 0
  {
    assert (log + [d])[..|log|] == log;
  }

  // ---------------------------------------------------------------------------
  // Streaming

  /** What holds of the log whenever the producer has no chunk under way. */
  ghost predicate Progress<R>(log: Log<R>, rows: seq<R>, start: nat, offset: nat, opts: Options, consumer: nat -> bool)
    requires start <= offset <= |rows|
  {
    && DeliveredRows(log) == rows[start..offset]
    && Numbered(log) && Answered(log, consumer) && Sized(log, ChunkSize(opts))
    && AttemptsAtMost(log, Retries(opts) + 1)
    && Unattempted(log, DeliveredCount(log))
  }

  /** MAIN RESULT. For any consumer: the delivered chunks are numbered in order and their rows are
      rows[start..stop]; stop is the end of the rows, or the reported checkpoint when one chunk was
      refused maxRetries + 1 times; no chunk is sent more often; the statistics match. */
  method Stream<R>(rows: seq<R>, opts: Options, consumer: nat -> bool)
    returns (log: Log<R>, outcome: Outcome, stats: Stats, ghost stop: nat)
    ensures StartRow(opts, |rows|) <= stop <= |rows|
    ensures DeliveredRows(log) == rows[StartRow(opts, |rows|)..stop]
    ensures Numbered(log) && Answered(log, consumer) && Sized(log, ChunkSize(opts))
    ensures AttemptsAtMost(log, Retries(opts) + 1)
    ensures match outcome
            case Finished => stop == |rows|
            case EndRefused => stop == |rows|
            case StartRefused => stop == StartRow(opts, |rows|) && DeliveredCount(log) == 0
            case ChunkRefused(checkpoint) =>
              stop == checkpoint < |rows| && Attempts(log, DeliveredCount(log)) == Retries(opts) + 1
    ensures stats.chunks == ChunksFor(stop - StartRow(opts, |rows|), ChunkSize(opts))
    ensures stats.chunks == DeliveredCount(log) && stats.rows == stop - StartRow(opts, |rows|)
    ensures stats.retries + (if outcome.ChunkRefused? then 1 else 0) == Refusals(log)
    ensures stats.paused == |log| / Max(1, opts.highWaterMark)
    ensures log != [] && log[0].message.Start? && (outcome.StartRefused? <==> !log[0].ok)
    ensures outcome.Finished? || outcome.EndRefused? ==>
              log[|log| - 1] == Delivery(End(stats.chunks, stats.rows), outcome.Finished?)
    ensures outcome.ChunkRefused? ==> log[|log| - 1].message == Error(stats.chunks, outcome.checkpoint)
  {
    hide DeliveredRows, DeliveredCount, Refusals, Numbered, Attempts;
    hide AttemptsAtMost, Unattempted, Sized, Answered, ChunksFor;
    var start := StartRow(opts, |rows|);
    var size := ChunkSize(opts);
    var hwm: nat := Max(1, opts.highWaterMark);
    LogIsEmpty<R>();
    NoChunks(size);
    var producer := new Producer<R>(hwm, consumer);
    stop := start;
    NothingSent(rows, start, opts, consumer);
    var sent := producer.Deliver(Start);
    OtherMessage([], Delivery(Message<R>.Start, sent), rows, start, start, opts, consumer);
    if !sent {
      PausedCount(producer.buffered, producer.paused, hwm, |producer.log|);
      return producer.log, StartRefused, Stats(0, 0, 0, producer.paused), stop;
    }
    var seqNo, rowsSent, retries := 0, 0, 0;
    var offset := start;
    while offset < |rows|
      invariant producer.Good() && producer.hwm == hwm && producer.consumer == consumer && fresh(producer)
      invariant start <= offset && stop == Min(offset, |rows|) && start <= stop
      invariant Progress(producer.log, rows, start, stop, opts, consumer)
      invariant seqNo == DeliveredCount(producer.log) && rowsSent == stop - start
      invariant retries == Refusals(producer.log)
      invariant seqNo == ChunksFor(stop - start, size) && (offset < |rows| ==> offset == start + seqNo * size)
      invariant producer.log != [] && producer.log[0] == Delivery(Start, true)
    {
      var slice := rows[offset..Min(offset + size, |rows|)];
      var ok, failed := SendChunk(producer, seqNo, slice, Retries(opts), size);
      retries := retries + failed;
      if !ok {
        ghost var before := producer.log;
        sent := producer.Deliver(Error(seqNo, offset));
        FiguresStay(before, Delivery(Error(seqNo, offset), sent));
        AnsweredNext(before, Delivery(Error(seqNo, offset), sent), consumer);
        retries := retries - 1;
        PausedCount(producer.buffered, producer.paused, hwm, |producer.log|);
        return producer.log, ChunkRefused(offset), Stats(seqNo, rowsSent, retries, producer.paused), stop;
      }
      ChunkProgress(rows, start, offset, size);
      OneMoreChunk(offset - start, Min(offset + size, |rows|) - start, seqNo, size);
      seqNo, rowsSent := seqNo + 1, rowsSent + |slice|;
      stop := Min(offset + size, |rows|);
      offset := offset + size;
    }
    ghost var before := producer.log;
    sent := producer.Deliver(End(seqNo, rowsSent));
    OtherMessage(before, Delivery(End(seqNo, rowsSent), sent), rows, start, |rows|, opts, consumer);
    PausedCount(producer.buffered, producer.paused, hwm, |producer.log|);
    return producer.log, if sent then Finished else EndRefused, Stats(seqNo, rowsSent, retries, producer.paused), stop;
  }

  lemma FiguresStay<R>(log: Log<R>, d: Delivery<R>)
    requires !d.message.Chunk?
    ensures DeliveredRows(log + [d]) == DeliveredRows(log) && DeliveredCount(log + [d]) == DeliveredCount(log)
    ensures Refusals(log + [d]) == Refusals(log) && (Numbered(log + [d]) <==> Numbered(log))
    ensures forall n: nat :: Attempts(log + [d], n) == Attempts(log, n)
    ensures forall limit: nat :: AttemptsAtMost(log, limit) ==> AttemptsAtMost(log + [d], limit)
    ensures forall size: nat :: Sized(log, size) ==> Sized(log + [d], size)
  {
    hide DeliveredRows, DeliveredCount, Refusals, Numbered, Attempts;
    Append(log, d);
    assert DeliveredRows(log) + [] == DeliveredRows(log);
  }

  /** A message that is no chunk changes none of the chunk figures. */
  lemma OtherMessage<R>(log: Log<R>, d: Delivery<R>, rows: seq<R>, start: nat, offset: nat, opts: Options,
                        consumer: nat -> bool)
    requires start <= offset <= |rows| && Progress(log, rows, start, offset, opts, consumer)
    requires !d.message.Chunk? && d.ok == consumer(|log|)
    ensures Progress(log + [d], rows, start, offset, opts, consumer)
    ensures DeliveredCount(log + [d]) == DeliveredCount(log) && Refusals(log + [d]) == Refusals(log)
    ensures forall n: nat :: Attempts(log + [d], n) == Attempts(log, n)
  {
    hide DeliveredRows, DeliveredCount, Refusals, Numbered, Attempts, Answered, Sized, AttemptsAtMost, Unattempted;
    FiguresStay(log, d);
    UnattemptedStays(log, d, DeliveredCount(log));
    AnsweredNext(log, d, consumer);
  }

  lemma UnattemptedStays<R>(log: Log<R>, d: Delivery<R>, from: nat)
    requires Unattempted(log, from) && forall n: nat :: Attempts(log + [d], n) == Attempts(log, n)
    ensures Unattempted(log + [d], from)
  {
    hide Attempts;
  }

  lemma AnsweredNext<R>(log: Log<R>, d: Delivery<R>, consumer: nat -> bool)
    requires Answered(log, consumer) && d.ok == consumer(|log|)
    ensures Answered(log + [d], consumer)
  {
  }

  lemma NothingSent<R>(rows: seq<R>, start: nat, opts: Options, consumer: nat -> bool)
    requires start <= |rows|
    ensures Progress([], rows, start, start, opts, consumer)
  {
  }

  lemma LogIsEmpty<R>()
    ensures var log: Log<R> := [];
            DeliveredRows(log) == [] && DeliveredCount(log) == 0 && Refusals(log) == 0 && Numbered(log)
    ensures forall n: nat :: Attempts<R>([], n) == 0
  {
  }

  lemma PausedCount(buffered: nat, paused: nat, hwm: nat, calls: nat)
    requires hwm >= 1 && buffered < hwm && buffered + hwm * paused == calls
    ensures paused == calls / hwm
  {
    FloorIs(calls, hwm, paused);
  }

  /** The number of chunks of `size` rows that `count` rows fill, the last one perhaps partly. */
  function ChunksFor(count: nat, size: nat): nat
    requires size >= 1
  {
    (count + size - 1) / size
  }

  lemma OneMoreChunk(sent: nat, now: nat, chunks: nat, size: nat)
    requires size >= 1 && sent == chunks * size && sent < now <= sent + size
    ensures ChunksFor(now, size) == chunks + 1
    ensures (chunks + 1) * size == sent + size
  {
    FloorIs(now + size - 1, size, chunks + 1);
  }

  lemma NoChunks(size: nat)
    requires size >= 1
    ensures ChunksFor(0, size) == 0
  {
    FloorIs(size - 1, size, 0);
  }

  lemma ChunkProgress<R>(rows: seq<R>, start: nat, offset: nat, size: nat)
    requires start <= offset < |rows| && size >= 1
    ensures rows[start..offset] + rows[offset..Min(offset + size, |rows|)] == rows[start..Min(offset + size, |rows|)]
  {
  }

  /** The producer's side: the log of `onChunk` calls and the backpressure counter. */
  class Producer<R> {
    const hwm: nat
    const consumer: nat -> bool
    var log: Log<R>
    var buffered: nat
    var paused: nat

    constructor (hwm: nat, consumer: nat -> bool)
      requires hwm >= 1
      ensures this.hwm == hwm && this.consumer == consumer && log == [] && Good()
    {
      this.hwm, this.consumer, log, buffered, paused := hwm, consumer, [], 0, 0;
    }

    predicate Good()
      reads this
    {
      hwm >= 1 && buffered < hwm && buffered + hwm * paused == |log|
    }

    /** One `deliver`: counts the call, pauses at the high-water mark, then asks the consumer. */
    method Deliver(message: Message<R>) returns (ok: bool)
      requires Good()
      modifies this
      ensures Good() && log == old(log) + [Delivery(message, ok)] && ok == consumer(|old(log)|)
    {
      buffered := buffered + 1;
      if buffered >= hwm {
        paused := paused + 1;
        buffered := 0;
      }
      ok := consumer(|log|);
      log := log + [Delivery(message, ok)];
    }
  }

  /** The retry loop of one chunk. */
  method SendChunk<R>(producer: Producer<R>, seqNo: nat, slice: seq<R>, maxRetries: nat, size: nat)
    returns (ok: bool, failed: nat)
    requires producer.Good() && 1 <= |slice| <= size
    requires seqNo == DeliveredCount(producer.log) && Numbered(producer.log)
    requires Answered(producer.log, producer.consumer) && Sized(producer.log, size)
    requires AttemptsAtMost(producer.log, maxRetries + 1) && Unattempted(producer.log, seqNo)
    modifies producer
    ensures producer.Good() && old(producer.log) <= producer.log
    ensures Numbered(producer.log) && Answered(producer.log, producer.consumer) && Sized(producer.log, size)
    ensures AttemptsAtMost(producer.log, maxRetries + 1)
    ensures Refusals(producer.log) == old(Refusals(producer.log)) + failed
    ensures DeliveredRows(producer.log) == old(DeliveredRows(producer.log)) + if ok then slice else []
    ensures DeliveredCount(producer.log) == seqNo + if ok then 1 else 0
    ensures ok ==> Unattempted(producer.log, seqNo + 1)
    ensures !ok ==> Attempts(producer.log, seqNo) == maxRetries + 1 && failed > 0
  {
    hide DeliveredRows, DeliveredCount, Refusals, Numbered, Attempts;
    var attempt := 0;
    failed := 0;
    while true
      invariant producer.Good() && old(producer.log) <= producer.log
      invariant attempt == failed <= maxRetries
      invariant Numbered(producer.log) && Answered(producer.log, producer.consumer) && Sized(producer.log, size)
      invariant Attempts(producer.log, seqNo) == attempt
      invariant forall n: nat :: n != seqNo ==> Attempts(producer.log, n) == Attempts(old(producer.log), n)
      invariant Refusals(producer.log) == Refusals(old(producer.log)) + failed
      invariant DeliveredRows(producer.log) == DeliveredRows(old(producer.log))
      invariant DeliveredCount(producer.log) == seqNo
      decreases maxRetries - attempt
    {
      ghost var before := producer.log;
      ok := producer.Deliver(Chunk(seqNo, slice));
      Append(before, Delivery(Chunk(seqNo, slice), ok));
      if ok {
        return;
      }
      failed := failed + 1;
      if attempt < maxRetries {
        attempt := attempt + 1;
      } else {
        return;
      }
    }
  }

  // ---------------------------------------------------------------------------
  // Resuming

  /** One call of `stream`: where it started, the log of its `onChunk` calls and how it ended. */
  datatype Pass<R> = Pass(from: nat, log: Log<R>, outcome: Outcome)

  /** Where the next pass starts: at the checkpoint an error reports, else where this one got to. */
  function ResumeAt<R>(pass: Pass<R>, count: nat): nat {
    match pass.outcome
    case ChunkRefused(checkpoint) => checkpoint
    case StartRefused => pass.from
    case _ => count
  }

  predicate AllSent(outcome: Outcome) {
    outcome.Finished? || outcome.EndRefused?
  }

  /** A pass as Stream promises it, for this consumer and from this row on. */
  ghost predicate Legal<R>(pass: Pass<R>, rows: seq<R>, opts: Options, consumer: nat -> bool) {
    && pass.from <= ResumeAt(pass, |rows|) <= |rows|
    && DeliveredRows(pass.log) == rows[pass.from..ResumeAt(pass, |rows|)]
    && Numbered(pass.log) && Answered(pass.log, consumer) && Sized(pass.log, ChunkSize(opts))
    && AttemptsAtMost(pass.log, Retries(opts) + 1)
    && pass.log != [] && pass.log[0].message.Start?
    && (pass.outcome.StartRefused? <==> !pass.log[0].ok)
    && (AllSent(pass.outcome) ==>
          pass.log[|pass.log| - 1].message.End? && (pass.outcome.Finished? <==> pass.log[|pass.log| - 1].ok))
    && (pass.outcome.ChunkRefused? ==>
          && Attempts(pass.log, DeliveredCount(pass.log)) == Retries(opts) + 1
          && pass.log[|pass.log| - 1].message == Error(DeliveredCount(pass.log), ResumeAt(pass, |rows|)))
  }

  /** The n-th pass goes to the n-th consumer and is legal, starts where the one before left off,
      and does not follow one that has sent everything. */
  ghost predicate Chained<R>(passes: seq<Pass<R>>, rows: seq<R>, opts: Options, consumers: seq<nat -> bool>) {
    if passes == [] then true
    else
      var earlier, last := passes[..|passes| - 1], passes[|passes| - 1];
      && Chained(earlier, rows, opts, consumers)
      && |passes| <= |consumers| && Legal(last, rows, opts, consumers[|passes| - 1])
      && last.from == Reached(earlier, rows, opts)
      && (earlier != [] ==> !AllSent(earlier[|earlier| - 1].outcome))
  }

  /** The row after all passes. */
  function Reached<R>(passes: seq<Pass<R>>, rows: seq<R>, opts: Options): nat {
    if passes == [] then StartRow(opts, |rows|) else ResumeAt(passes[|passes| - 1], |rows|)
  }

  /** All rows delivered by the passes, in order. */
  function DeliveredBy<R>(passes: seq<Pass<R>>): seq<R> {
    if passes == [] then [] else DeliveredBy(passes[..|passes| - 1]) + DeliveredRows(passes[|passes| - 1].log)
  }

  /** One pass of Stream, as what it promises about its log. */
  method StreamFrom<R>(rows: seq<R>, opts: Options, from: nat, consumer: nat -> bool) returns (pass: Pass<R>)
    requires from <= |rows|
    ensures pass.from == from && Legal(pass, rows, opts, consumer)
  {
    hide DeliveredRows, DeliveredCount, Refusals, Numbered, Attempts;
    hide AttemptsAtMost, Unattempted, Sized, Answered, ChunksFor;
    var log, outcome, stats, stop := Stream(rows, opts.(checkpoint := from), consumer);
    pass := Pass(from, log, outcome);
  }

  lemma OneMorePass<R>(passes: seq<Pass<R>>, pass: Pass<R>, rows: seq<R>, opts: Options, consumers: seq<nat -> bool>)
    requires Chained(passes, rows, opts, consumers) && |passes| < |consumers|
    requires passes != [] ==> !AllSent(passes[|passes| - 1].outcome)
    requires Legal(pass, rows, opts, consumers[|passes|]) && pass.from == Reached(passes, rows, opts)
    ensures Chained(passes + [pass], rows, opts, consumers)
    ensures DeliveredBy(passes + [pass]) == DeliveredBy(passes) + DeliveredRows(pass.log)
  {
    hide Legal, DeliveredRows, Reached;
    assert (passes + [pass])[..|passes|] == passes;
  }

  /** MAIN RESULT. Resuming at the reported checkpoint, whatever the consumers do: every pass is a
      legal one that starts where the one before left off, and all passes together have delivered
      every row up to the one reached exactly once and in order. It ends when a pass has sent all
      rows, and otherwise only when no consumer is left. */
  method StreamResuming<R>(rows: seq<R>, opts: Options, consumers: seq<nat -> bool>)
    returns (passes: seq<Pass<R>>, reached: nat, done: bool)
    ensures Chained(passes, rows, opts, consumers)
    ensures reached == Reached(passes, rows, opts) && StartRow(opts, |rows|) <= reached <= |rows|
    ensures DeliveredBy(passes) == rows[StartRow(opts, |rows|)..reached]
    ensures done <==> passes != [] && AllSent(passes[|passes| - 1].outcome)
    ensures if done then reached == |rows| else |passes| == |consumers|
  {
    hide DeliveredRows, DeliveredBy, Chained;
    reached, passes, done := StartRow(opts, |rows|), [], false;
    NoPasses(rows, opts, consumers);
    while |passes| < |consumers|
      invariant Chained(passes, rows, opts, consumers)
      invariant reached == Reached(passes, rows, opts) && StartRow(opts, |rows|) <= reached <= |rows|
      invariant DeliveredBy(passes) == rows[StartRow(opts, |rows|)..reached]
      invariant passes != [] ==> !AllSent(passes[|passes| - 1].outcome)
      invariant |passes| <= |consumers|
      decreases |consumers| - |passes|
    {
      var pass := StreamFrom(rows, opts, reached, consumers[|passes|]);
      OneMorePass(passes, pass, rows, opts, consumers);
      var next := ResumeAt(pass, |rows|);
      assert rows[StartRow(opts, |rows|)..reached] + rows[reached..next] == rows[StartRow(opts, |rows|)..next];
      passes, reached := passes + [pass], next;
      if AllSent(pass.outcome) {
        done := true;
        return;
      }
    }
  }

  lemma NoPasses<R>(rows: seq<R>, opts: Options, consumers: seq<nat -> bool>)
    ensures Chained<R>([], rows, opts, consumers) && DeliveredBy<R>([]) == []
  {
  }
}
