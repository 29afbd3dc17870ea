/** The remote-write batcher (proxy/clickhouse/writer.go:16-95) as the events of its loop:
    an enqueue by a client, a receive from the queue, a tick, a cancellation. */
module Writer {
  import opened Types
  import opened Flush

  /** What one flush inserts. */
  datatype Rows = Rows(series: seq<SeriesRow>, samples: seq<SampleRow>)

  function Flatten<T>(xs: seq<seq<T>>): seq<T> {
    if xs == [] then [] else Flatten(xs[..|xs| - 1]) + xs[|xs| - 1]
  }

  lemma {:induction false} FlattenHead<T>(xs: seq<seq<T>>)
    requires xs != []
    ensures Flatten(xs) == xs[0] + Flatten(xs[1..])
  {
    if |xs| > 1 {
      FlattenHead(xs[..|xs| - 1]);
      assert xs[1..][..|xs| - 2] == xs[..|xs| - 1][1..];
    } else {
      assert xs[..0] == [] && xs[1..] == [];
    }
  }

  lemma FlattenSnoc<T>(xs: seq<seq<T>>, x: seq<T>)
    ensures Flatten(xs + [x]) == Flatten(xs) + x
  {
    assert (xs + [x])[..|xs|] == xs;
  }

  /** What has been accepted is, in order, what was flushed, what is batched and what is
      queued. */
  ghost predicate Conserved(accepted: seq<TimeSeries>, flushed: seq<seq<TimeSeries>>, batch: seq<TimeSeries>,
                            queue: seq<seq<TimeSeries>>) {
    accepted == Flatten(flushed) + batch + Flatten(queue)
  }

  lemma Enqueued(accepted: seq<TimeSeries>, flushed: seq<seq<TimeSeries>>, batch: seq<TimeSeries>,
                 queue: seq<seq<TimeSeries>>, x: seq<TimeSeries>)
    requires Conserved(accepted, flushed, batch, queue)
    ensures Conserved(accepted + x, flushed, batch, queue + [x])
  {
    FlattenSnoc(queue, x);
  }

  lemma Received(accepted: seq<TimeSeries>, flushed: seq<seq<TimeSeries>>, batch: seq<TimeSeries>,
                 queue: seq<seq<TimeSeries>>)
    requires Conserved(accepted, flushed, batch, queue) && queue != []
    ensures Conserved(accepted, flushed, batch + queue[0], queue[1..])
  {
    FlattenHead(queue);
  }

  lemma Flushed(accepted: seq<TimeSeries>, flushed: seq<seq<TimeSeries>>, batch: seq<TimeSeries>,
                queue: seq<seq<TimeSeries>>)
    requires Conserved(accepted, flushed, batch, queue)
    ensures Conserved(accepted, flushed + [batch], [], queue)
  {
    FlattenSnoc(flushed, batch);
  }

  /** The rows are those of the batches that were flushed, each at its own time. */
  ghost predicate RowsOf(hash: Labels -> nat, inserts: seq<Rows>, flushed: seq<seq<TimeSeries>>, times: seq<int>) {
    && |inserts| == |flushed| == |times|
    && forall i :: 0 <= i < |flushed| ==>
         inserts[i] == Rows(SeriesRows(hash, flushed[i], times[i]), SampleRows(hash, flushed[i]))
  }

  class Writer {
    const hash: Labels -> nat
    const batchSize: nat
    const queueSize: nat
    var queue: seq<seq<TimeSeries>>
    var batch: seq<TimeSeries>
    var running: bool
    var inserts: seq<Rows>

    ghost var accepted: seq<TimeSeries>
    ghost var flushed: seq<seq<TimeSeries>>
    ghost var times: seq<int>

    /** Between two events of the loop. */
    ghost predicate Valid()
      reads this
    {
      && 0 < batchSize && |queue| <= queueSize
      && Conserved(accepted, flushed, batch, queue)
      && RowsOf(hash, inserts, flushed, times)
      && (forall i :: 0 <= i < |flushed| ==> flushed[i] != [])
      && |batch| < batchSize
      && (!running ==> batch == [])
    }

    /** NewWriter and Start: sizes that are not positive are replaced by defaults. */
    constructor (hash: Labels -> nat, batchSize: int, queueSize: int)
      ensures Valid() && running && accepted == [] && flushed == [] && queue == [] && batch == []
      ensures this.hash == hash
      ensures this.batchSize == if batchSize <= 0 then 10000 else batchSize
      ensures this.queueSize == if queueSize <= 0 then 100000 else queueSize
    {
      this.hash := hash;
      this.batchSize := if batchSize <= 0 then 10000 else batchSize;
      this.queueSize := if queueSize <= 0 then 100000 else queueSize;
      queue, batch, running, inserts := [], [], true, [];
      accepted, flushed, times := [], [], [];
    }

    /** Write: the send blocks while the queue is full, until the context of the client
        ends; when both are possible, `send` says which one happens. */
    method Write(series: seq<TimeSeries>, ended: bool, send: bool) returns (ok: bool)
      requires Valid() && (|queue| < queueSize || ended)
      modifies this`queue, this`accepted
      ensures Valid()
      ensures ok == (old(|queue|) < queueSize && (send || !ended))
      ensures queue == old(queue) + (if ok then [series] else [])
      ensures accepted == old(accepted) + (if ok then series else [])
    {
      ok := |queue| < queueSize && (send || !ended);
      if ok {
        Enqueued(accepted, flushed, batch, queue, series);
        queue := queue + [series];
        accepted := accepted + series;
      }
    }

    /** flush, on a batch that is not empty; a failed insert is only logged. */
    method FlushBatch(now: int)
      requires 0 < batchSize && |queue| <= queueSize && batch != []
      requires Conserved(accepted, flushed, batch, queue) && RowsOf(hash, inserts, flushed, times)
      requires forall i :: 0 <= i < |flushed| ==> flushed[i] != []
      modifies this`batch, this`inserts, this`flushed, this`times
      ensures Valid() && batch == [] && flushed == old(flushed) + [old(batch)]
      ensures |inserts| == old(|inserts|) + 1 && inserts[..old(|inserts|)] == old(inserts)
    {
      Flushed(accepted, flushed, batch, queue);
      var seriesRows, sampleRows := BuildRows(hash, batch, now);
      hide SeriesRows;
      hide SampleRows;
      inserts := inserts + [Rows(seriesRows, sampleRows)];
      flushed, times := flushed + [batch], times + [now];
      batch := [];
    }

    /** The loop takes a request off the queue, and flushes when the batch is full. */
    method Receive(now: int)
      requires Valid() && running && queue != []
      modifies this`queue, this`batch, this`inserts, this`flushed, this`times
      ensures Valid() && queue == old(queue)[1..]
      ensures var all := old(batch) + old(queue)[0];
              if |all| >= batchSize then batch == [] && flushed == old(flushed) + [all]
              else batch == all && flushed == old(flushed)
    {
      Received(accepted, flushed, batch, queue);
      batch := batch + queue[0];
      queue := queue[1..];
      if |batch| >= batchSize {
        FlushBatch(now);
      }
    }

    /** The ticker flushes what there is. */
    method Tick(now: int)
      requires Valid() && running
      modifies this`batch, this`inserts, this`flushed, this`times
      ensures Valid() && batch == []
      ensures flushed == old(flushed) + (if old(batch) == [] then [] else [old(batch)])
    {
      if |batch| > 0 {
        FlushBatch(now);
      }
    }

    /** Cancellation flushes the batch and ends the loop; the queue is not drained. */
    method Cancel(now: int)
      requires Valid() && running
      modifies this`batch, this`inserts, this`flushed, this`times, this`running
      ensures Valid() && !running && batch == []
      ensures accepted == Flatten(flushed) + Flatten(queue)
    {
      if |batch| > 0 {
        FlushBatch(now);
      }
      running := false;
    }
  }

  // ---- Conservation of samples ----

  lemma {:induction false} SampleRowsAppend(hash: Labels -> nat, a: seq<TimeSeries>, b: seq<TimeSeries>)
    ensures SampleRows(hash, a + b) == SampleRows(hash, a) + SampleRows(hash, b)
  {
    if b == [] {
      assert a + b == a;
    } else {
      assert (a + b)[..|a + b| - 1] == a + b[..|b| - 1];
      SampleRowsAppend(hash, a, b[..|b| - 1]);
    }
  }

  function InsertedSamples(inserts: seq<Rows>): seq<SampleRow> {
    if inserts == [] then [] else InsertedSamples(inserts[..|inserts| - 1]) + inserts[|inserts| - 1].samples
  }

  lemma {:induction false} InsertedAreFlushed(hash: Labels -> nat, inserts: seq<Rows>, flushed: seq<seq<TimeSeries>>, times: seq<int>)
    requires RowsOf(hash, inserts, flushed, times)
    ensures InsertedSamples(inserts) == SampleRows(hash, Flatten(flushed))
  {
    var n := |flushed|;
    if n > 0 {
      hide SeriesRows;
      InsertedAreFlushed(hash, inserts[..n - 1], flushed[..n - 1], times[..n - 1]);
      SampleRowsAppend(hash, Flatten(flushed[..n - 1]), flushed[n - 1]);
    }
  }

  /** Every accepted sample is inserted once and in order, or still waits: the inserted
      rows, then those of the batch, then those of the queue are the rows of everything
      that was accepted. */
  lemma SamplesConserved(hash: Labels -> nat, accepted: seq<TimeSeries>, inserts: seq<Rows>, flushed: seq<seq<TimeSeries>>,
                         times: seq<int>, batch: seq<TimeSeries>, queue: seq<seq<TimeSeries>>)
    requires Conserved(accepted, flushed, batch, queue) && RowsOf(hash, inserts, flushed, times)
    ensures SampleRows(hash, accepted)
         == InsertedSamples(inserts) + SampleRows(hash, batch) + SampleRows(hash, Flatten(queue))
  {
    InsertedAreFlushed(hash, inserts, flushed, times);
    SampleRowsAppend(hash, Flatten(flushed) + batch, Flatten(queue));
    SampleRowsAppend(hash, Flatten(flushed), batch);
  }
}
