/**
 * What a whole run does, proved about the functions of coordinator.dfy: how
 * many times it saves, where the progress bar goes, where a stop takes
 * effect, which cells it may change and what the final report says.
 */
module RunProperties {
  import opened Wrappers
  import opened FieldSchema
  import opened RowTask
  import opened Tables
  import opened Batching
  import opened Coordinator

  // ---------------------------------------------------------------------------
  // The progress bar
  // ---------------------------------------------------------------------------

  /** The values the progress bar is set to, oldest first. */
  function ProgressOf(events: seq<Event>): (r: seq<nat>)
    ensures |r| <= |events|
    decreases |events|
  {
    if events == [] then []
    else
      var last := events[|events| - 1];
      ProgressOf(events[..|events| - 1]) + (if last.Progress? then [last.done] else [])
  }

  lemma ProgressOfSnoc(events: seq<Event>, e: Event)
    ensures ProgressOf(events + [e]) == ProgressOf(events) + (if e.Progress? then [e.done] else [])
  {
    assert (events + [e])[..|events|] == events;
  }

  /** The ends of a list of batches, where the progress bar stands after each. */
  function Ends(bs: seq<(nat, nat)>): seq<nat>
  {
    seq(|bs|, j requires 0 <= j < |bs| => bs[j].1)
  }

  lemma EndsCons(b: (nat, nat), bs: seq<(nat, nat)>, m: nat)
    requires 1 <= m <= |bs| + 1
    ensures Ends(([b] + bs)[..m]) == [b.1] + Ends(bs[..m - 1])
  {
    assert ([b] + bs)[..m] == [b] + bs[..m - 1];
  }

  lemma AppendAssoc(a: seq<nat>, b: seq<nat>, c: seq<nat>)
    ensures (a + b) + c == a + (b + c)
  {
  }

  /** A status line leaves the progress bar alone. */
  lemma LoggedQuiet(s: State, note: Note)
    ensures ProgressOf(Logged(s, note).events) == ProgressOf(s.events)
  {
    ProgressOfSnoc(s.events, Status(note));
  }

  // ---------------------------------------------------------------------------
  // Saving and stopping
  // ---------------------------------------------------------------------------

  /**
   * Every save is one more attempt; it writes the current table when the file
   * accepts it, and otherwise logs the failure instead of the caller's note.
   */
  lemma SaveThenFacts(s: State, storage: Storage, note: Note)
    ensures var r := SaveThen(s, storage, note);
            && r.attempts == s.attempts + 1
            && ProgressOf(r.events) == ProgressOf(s.events)
            && (SaveWorks(s, storage) ==> r.written == s.written + [s.df.value] && r.events == s.events + [Status(note)])
            && (!SaveWorks(s, storage) ==> r.written == s.written && r.events == s.events + [Status(SaveFailed)])
  {
    ProgressOfSnoc(s.events, Status(note));
    ProgressOfSnoc(s.events, Status(SaveFailed));
  }

  /** A stop clears the flag; only Stop-and-save makes a save attempt; the progress bar stays. */
  lemma ApplyStopFacts(s: State, request: StopRequest, storage: Storage)
    requires s.df.Some?
    ensures var r := ApplyStop(s, request, storage);
            && r.attempts == s.attempts + (if request == StopSave then 1 else 0)
            && ProgressOf(r.events) == ProgressOf(s.events)
            && (r.processing <==> s.processing && request == NoStop)
  {
    match request
    case NoStop =>
    case StopSave =>
      SaveThenFacts(s.(processing := false), storage, StoppedWithSave);
    case StopDiscard =>
      LoggedQuiet(s.(processing := false), StoppedWithoutSave);
  }

  // ---------------------------------------------------------------------------
  // Which cells a run may change
  // ---------------------------------------------------------------------------

  /**
   * `u` is `t` with at most the cells of rows `lo .. hi-1` in the schema's
   * columns changed: same columns, same row count, the other rows unchanged,
   * and every cell outside the schema's columns kept.
   */
  ghost predicate OnlySchemaCells(t: Table, u: Table, fields: seq<string>, lo: nat, hi: nat)
  {
    && u.columns == t.columns
    && |u.rows| == |t.rows|
    && (forall i :: 0 <= i < |t.rows| && !(lo <= i < hi) ==> u.rows[i] == t.rows[i])
    && (forall i, c :: 0 <= i < |t.rows| && c in t.rows[i] && c !in fields ==>
          c in u.rows[i] && u.rows[i][c] == t.rows[i][c])
  }

  lemma OnlySchemaCellsWiden(t: Table, u: Table, fields: seq<string>, lo: nat, hi: nat, lo': nat, hi': nat)
    requires OnlySchemaCells(t, u, fields, lo, hi) && lo' <= lo && hi <= hi'
    ensures OnlySchemaCells(t, u, fields, lo', hi')
  {
  }

  lemma OnlySchemaCellsCompose(t: Table, u: Table, v: Table, fields: seq<string>, lo: nat, hi: nat)
    requires OnlySchemaCells(t, u, fields, lo, hi) && OnlySchemaCells(u, v, fields, lo, hi)
    ensures OnlySchemaCells(t, v, fields, lo, hi)
  {
    forall i, c | 0 <= i < |t.rows| && c in t.rows[i] && c !in fields
      ensures c in v.rows[i] && v.rows[i][c] == t.rows[i][c]
    {
      assert c in u.rows[i] && u.rows[i][c] == t.rows[i][c];
    }
  }

  /** A change confined to rows `lo .. mid-1` followed by one confined to `mid .. hi-1` is confined to `lo .. hi-1`. */
  lemma OnlySchemaCellsChain(t: Table, u: Table, v: Table, fields: seq<string>, lo: nat, mid: nat, hi: nat)
    requires lo <= mid <= hi
    requires OnlySchemaCells(t, u, fields, lo, mid) && OnlySchemaCells(u, v, fields, mid, hi)
    ensures OnlySchemaCells(t, v, fields, lo, hi)
  {
    OnlySchemaCellsWiden(t, u, fields, lo, mid, lo, hi);
    OnlySchemaCellsWiden(u, v, fields, mid, hi, lo, hi);
    OnlySchemaCellsCompose(t, u, v, fields, lo, hi);
  }

  // ---------------------------------------------------------------------------
  // Rows and batches
  // ---------------------------------------------------------------------------

  /** Collecting a row leaves the progress bar alone. */
  lemma RowStepQuiet(s: State, job: Job, env: Env, idx: nat)
    requires Ready(s, job) && idx < job.total
    ensures ProgressOf(RowStep(s, job, env, idx).events) == ProgressOf(s.events)
  {
    var reply := RowReply(s, job, env, idx);
    var m := RowResult(job.word, s.fields, reply);
    var s1 := if reply.ApiFailure? then Logged(s, RowApiError(idx + 1)) else s;
    LoggedQuiet(s, RowApiError(idx + 1));
    LoggedQuiet(s, RowTimeout(idx + 1));
    LoggedQuiet(s1, RowNothing(idx + 1));
    LoggedQuiet(s1, RowFields(idx + 1, |m|));
  }

  /** Collecting a row changes at most that row's cells in the schema's columns. */
  lemma RowStepCells(s: State, job: Job, env: Env, idx: nat)
    requires Ready(s, job) && idx < job.total
    ensures OnlySchemaCells(s.df.value, RowStep(s, job, env, idx).df.value, s.fields, idx, idx + 1)
  {
    var reply := RowReply(s, job, env, idx);
    var m := RowResult(job.word, s.fields, reply);
    MergeRowCells(s.df.value, idx, m);
  }

  /**
   * A timeout, a failed call, or an answer that yields no schema field leaves
   * the table as it was.
   */
  lemma RowStepKeepsTable(s: State, job: Job, env: Env, idx: nat)
    requires Ready(s, job) && idx < job.total
    ensures !RowReply(s, job, env, idx).Answer? ==> RowStep(s, job, env, idx).df == s.df
    ensures RowResult(job.word, s.fields, RowReply(s, job, env, idx)) == map[] ==>
              RowStep(s, job, env, idx).df == s.df
  {
  }

  /**
   * Row `i` as collecting it leaves it: the result of the row's own prompt
   * written over its cells, every other cell kept.
   */
  function CollectedRow(job: Job, env: Env, fields: seq<string>, i: nat, row: Row): Row
  {
    row + RowResult(job.word, fields, env.service(i, BuildPrompt(job.template, job.originals, row)))
  }

  /** Collecting row `idx` leaves it holding its own result over its old cells. */
  lemma RowStepMerged(s: State, job: Job, env: Env, idx: nat)
    requires Ready(s, job) && idx < job.total
    ensures RowStep(s, job, env, idx).df.value.rows[idx] ==
              CollectedRow(job, env, s.fields, idx, s.df.value.rows[idx])
  {
    var row := s.df.value.rows[idx];
    var m := RowResult(job.word, s.fields, RowReply(s, job, env, idx));
    if m == map[] {
      assert row + m == row;
    }
  }

  /**
   * Collecting row `idx` and going on with the next: the row leaves the flag,
   * the saves and the progress bar alone and changes at most its own cells in
   * the schema's columns.
   */
  lemma NextRow(s: State, job: Job, env: Env, idx: nat, hi: nat) returns (s1: State)
    requires Ready(s, job) && idx < hi <= job.total
    ensures s1 == RowStep(s, job, env, idx)
    ensures Ready(s1, job) && s1.fields == s.fields
    ensures RunRows(s, job, env, idx, hi) == RunRows(s1, job, env, idx + 1, hi)
    ensures s1.processing == s.processing && s1.attempts == s.attempts && s1.written == s.written
    ensures ProgressOf(s1.events) == ProgressOf(s.events)
    ensures OnlySchemaCells(s.df.value, s1.df.value, s.fields, idx, idx + 1)
  {
    s1 := RowStep(s, job, env, idx);
    RunRowsUnfold(s, job, env, idx, hi);
    RowStepQuiet(s, job, env, idx);
    RowStepCells(s, job, env, idx);
  }

  /** Collecting rows `idx .. hi-1` leaves the flag, the saves and the progress bar alone. */
  lemma {:induction false} RunRowsQuiet(s: State, job: Job, env: Env, idx: nat, hi: nat)
    requires Ready(s, job) && idx <= hi <= job.total
    ensures var r := RunRows(s, job, env, idx, hi);
            && r.processing == s.processing && r.attempts == s.attempts && r.written == s.written
            && ProgressOf(r.events) == ProgressOf(s.events)
    decreases hi - idx
  {
    if idx < hi {
      var s1 := NextRow(s, job, env, idx, hi);
      RunRowsQuiet(s1, job, env, idx + 1, hi);
    }
  }

  /**
   * Collecting rows `idx .. hi-1`, which ends in `r`, changes at most their
   * cells in the schema's columns, and leaves each of them holding its own
   * result over its old cells.
   */
  lemma {:induction false} RunRowsCells(s: State, job: Job, env: Env, idx: nat, hi: nat, r: State)
    requires Ready(s, job) && idx <= hi <= job.total
    requires r == RunRows(s, job, env, idx, hi)
    ensures OnlySchemaCells(s.df.value, r.df.value, s.fields, idx, hi)
    ensures forall i :: idx <= i < hi ==>
              r.df.value.rows[i] == CollectedRow(job, env, s.fields, i, s.df.value.rows[i])
    decreases hi - idx
  {
    if idx < hi {
      var s1 := NextRow(s, job, env, idx, hi);
      RowStepMerged(s, job, env, idx);
      RunRowsCells(s1, job, env, idx + 1, hi, r);
      OnlySchemaCellsChain(s.df.value, s1.df.value, r.df.value, s.fields, idx, idx + 1, hi);
      forall i | idx <= i < hi
        ensures r.df.value.rows[i] == CollectedRow(job, env, s.fields, i, s.df.value.rows[i])
      {
        if i == idx {
          assert r.df.value.rows[i] == s1.df.value.rows[i];
        } else {
          assert s1.df.value.rows[i] == s.df.value.rows[i];
        }
      }
    }
  }

  /**
   * A batch moves the progress bar to the batch's end, makes one save attempt,
   * which writes the table as it stands after the batch, and changes only the
   * schema cells of the batch's rows.
   */
  lemma BatchStepFacts(s: State, job: Job, env: Env, lo: nat)
    requires Ready(s, job) && job.size >= 1 && lo < job.total
    ensures var r := BatchStep(s, job, env, lo);
            && r.processing == s.processing
            && r.attempts == s.attempts + 1
            && r.written == s.written + (if env.storage(s.attempts) then [r.df.value] else [])
            && ProgressOf(r.events) == ProgressOf(s.events) + [BatchEnd(job, lo)]
            && OnlySchemaCells(s.df.value, r.df.value, s.fields, lo, BatchEnd(job, lo))
            && forall i :: lo <= i < BatchEnd(job, lo) ==>
                 r.df.value.rows[i] == CollectedRow(job, env, s.fields, i, s.df.value.rows[i])
  {
    var hi := BatchEnd(job, lo);
    var begun := Logged(s, BatchBegun(lo / job.size + 1, lo + 1, hi));
    var collected := RunRows(begun, job, env, lo, hi);
    var progressed := collected.(events := collected.events + [Progress(hi, job.total)]);
    BatchStepUnfold(s, job, env, lo, begun, collected, progressed);
    LoggedQuiet(s, BatchBegun(lo / job.size + 1, lo + 1, hi));
    RunRowsQuiet(begun, job, env, lo, hi);
    RunRowsCells(begun, job, env, lo, hi, collected);
    ProgressOfSnoc(collected.events, Progress(hi, job.total));
    SaveThenFacts(progressed, env.storage, BatchSaved);
  }

  /** The batch loop from row `lo` on, which ends in `r`, changes only schema cells of rows from `lo` on. */
  lemma {:induction false} RunBatchesCells(s: State, job: Job, env: Env, lo: nat, r: State)
    requires Ready(s, job) && job.size >= 1
    requires r == RunBatches(s, job, env, lo)
    ensures OnlySchemaCells(s.df.value, r.df.value, s.fields, lo, job.total)
    decreases job.total - lo
  {
    RunBatchesUnfold(s, job, env, lo);
    var s1 := ApplyStop(s, env.stop(lo), env.storage);
    if lo < job.total && s1.processing {
      var s2 := BatchStep(s1, job, env, lo);
      BatchStepFacts(s1, job, env, lo);
      RunBatchesCells(s2, job, env, lo + job.size, r);
      OnlySchemaCellsWiden(s2.df.value, r.df.value, s.fields, lo + job.size, job.total, BatchEnd(job, lo), job.total);
      OnlySchemaCellsChain(s1.df.value, s2.df.value, r.df.value, s.fields, lo, BatchEnd(job, lo), job.total);
    }
  }

  /** A pass of the batch loop that finds no button pressed runs the batch at `lo` and goes on. */
  lemma NextBatch(s: State, job: Job, env: Env, lo: nat) returns (s2: State)
    requires Ready(s, job) && job.size >= 1 && s.processing && lo < job.total
    requires env.stop(lo) == NoStop
    ensures s2 == BatchStep(s, job, env, lo)
    ensures Ready(s2, job) && s2.processing
    ensures RunBatches(s, job, env, lo) == RunBatches(s2, job, env, lo + job.size)
    ensures s2.attempts == s.attempts + 1
    ensures ProgressOf(s2.events) == ProgressOf(s.events) + [BatchEnd(job, lo)]
  {
    RunBatchesUnfold(s, job, env, lo);
    s2 := BatchStep(s, job, env, lo);
    BatchStepFacts(s, job, env, lo);
  }

  /** A pass of the batch loop that finds a button pressed, or no rows left, is the last one. */
  lemma LastBoundary(s: State, job: Job, env: Env, lo: nat)
    requires Ready(s, job) && job.size >= 1 && s.processing
    requires lo < job.total ==> env.stop(lo) != NoStop
    ensures var r := RunBatches(s, job, env, lo);
            var request := env.stop(lo);
            && r.attempts == s.attempts + (if request == StopSave then 1 else 0)
            && ProgressOf(r.events) == ProgressOf(s.events)
            && (r.processing <==> request == NoStop)
  {
    RunBatchesUnfold(s, job, env, lo);
    ApplyStopFacts(s, env.stop(lo), env.storage);
  }

  /**
   * Where the batch loop looks at the flag for the `b`-th time after looking
   * at row `lo`: `b` batch sizes further on (see StrideIsProduct).
   */
  function Stride(lo: nat, size: nat, b: nat): nat
    decreases b
  {
    if b == 0 then lo else Stride(lo + size, size, b - 1)
  }

  lemma {:induction false} StrideIsProduct(lo: nat, size: nat, b: nat)
    ensures Stride(lo, size, b) == lo + b * size
    decreases b
  {
    if b > 0 {
      StrideIsProduct(lo + size, size, b - 1);
      assert (lo + size) + (b - 1) * size == lo + b * size;
    }
  }

  /** The stop schedule seen from row `lo` on, shifted by one look to start at row `next`. */
  lemma StridesShift(env: Env, lo: nat, next: nat, size: nat, m: nat)
    requires m >= 1 && next == lo + size
    requires forall b :: 0 <= b < m ==> env.stop(Stride(lo, size, b)) == NoStop
    ensures env.stop(lo) == NoStop
    ensures forall b :: 0 <= b < m - 1 ==> env.stop(Stride(next, size, b)) == NoStop
    ensures Stride(lo, size, m) == Stride(next, size, m - 1)
  {
    assert Stride(lo, size, 0) == lo;
    forall b | 0 <= b < m - 1
      ensures env.stop(Stride(next, size, b)) == NoStop
    {
      assert Stride(lo, size, b + 1) == Stride(next, size, b);
    }
  }

  /** The first of the batches left starts at `lo`; the rest start a batch size later. */
  lemma BatchesFromFirst(job: Job, lo: nat, m: nat)
    requires job.size >= 1 && 1 <= m <= |BatchesFrom(lo, job.total, job.size)|
    ensures lo < job.total
    ensures |BatchesFrom(lo, job.total, job.size)| == |BatchesFrom(lo + job.size, job.total, job.size)| + 1
    ensures Ends(BatchesFrom(lo, job.total, job.size)[..m]) ==
              [BatchEnd(job, lo)] + Ends(BatchesFrom(lo + job.size, job.total, job.size)[..m - 1])
  {
    var rest := BatchesFrom(lo + job.size, job.total, job.size);
    assert BatchesFrom(lo, job.total, job.size) == [(lo, BatchEnd(job, lo))] + rest;
    EndsCons((lo, BatchEnd(job, lo)), rest, m);
  }

  /**
   * The batch loop from row `lo` on, when the first stop button it sees is
   * the one at its `m`-th look (or none is, `m` being the number of batches
   * left): the next `m` batches run, one save attempt each, a Stop-and-save
   * adds one attempt, and the flag is still set only if no button was
   * pressed.
   */
  lemma {:induction false} RunBatchesSaves(s: State, job: Job, env: Env, lo: nat, m: nat)
    requires Ready(s, job) && job.size >= 1 && s.processing
    requires m <= |BatchesFrom(lo, job.total, job.size)|
    requires forall b :: 0 <= b < m ==> env.stop(Stride(lo, job.size, b)) == NoStop
    requires m < |BatchesFrom(lo, job.total, job.size)| ==> env.stop(Stride(lo, job.size, m)) != NoStop
    ensures var r := RunBatches(s, job, env, lo);
            var last := env.stop(Stride(lo, job.size, m));
            && r.attempts == s.attempts + m + (if last == StopSave then 1 else 0)
            && (r.processing <==> last == NoStop)
    decreases m
  {
    if m > 0 {
      StridesShift(env, lo, lo + job.size, job.size, m);
      BatchesFromFirst(job, lo, m);
      var s2 := NextBatch(s, job, env, lo);
      RunBatchesSaves(s2, job, env, lo + job.size, m - 1);
    } else {
      LastBoundary(s, job, env, lo);
    }
  }

  /**
   * The row at which the batch loop from row `lo` on stops: the first of
   * `lo`, `lo + size`, ... at which a stop button is seen or the rows are used up.
   */
  function StopRow(job: Job, env: Env, lo: nat): (r: nat)
    requires job.size >= 1
    ensures lo <= r
    decreases job.total - lo
  {
    if lo >= job.total || env.stop(lo) != NoStop then lo else StopRow(job, env, lo + job.size)
  }

  /** Seen from the batch schedule, the loop stops at the boundary of the first stop button. */
  lemma {:induction false} StopRowIsStride(job: Job, env: Env, lo: nat, m: nat)
    requires job.size >= 1
    requires m <= |BatchesFrom(lo, job.total, job.size)|
    requires forall b :: 0 <= b < m ==> env.stop(Stride(lo, job.size, b)) == NoStop
    requires m < |BatchesFrom(lo, job.total, job.size)| ==> env.stop(Stride(lo, job.size, m)) != NoStop
    ensures StopRow(job, env, lo) == Stride(lo, job.size, m)
    decreases m
  {
    if m > 0 {
      StridesShift(env, lo, lo + job.size, job.size, m);
      BatchesFromFirst(job, lo, m);
      StopRowIsStride(job, env, lo + job.size, m - 1);
    } else if lo < job.total {
      assert BatchesFrom(lo, job.total, job.size) != [];
    }
  }

  /**
   * `u` is `t` after the batches from row `lo` on, which stop at row `stop`,
   * `f` giving what collecting a row leaves in it: each row from `lo` to
   * `stop` is `f` of its old value, and each row from `stop` on is as it was.
   */
  ghost predicate MergedUntil(f: (nat, Row) -> Row, t: seq<Row>, u: seq<Row>, total: nat, lo: nat, stop: nat)
  {
    && |t| == total && |u| == total
    && (forall i :: lo <= i < Min(stop, total) ==> u[i] == f(i, t[i]))
    && (forall i :: lo <= i < total && stop <= i ==> u[i] == t[i])
  }

  /** `f` is what collecting a row leaves in it. */
  ghost predicate Collects(job: Job, env: Env, fields: seq<string>, f: (nat, Row) -> Row)
  {
    forall i: nat, row: Row {:trigger CollectedRow(job, env, fields, i, row)} ::
      CollectedRow(job, env, fields, i, row) == f(i, row)
  }

  /**
   * The batch loop from row `lo` on, which ends in `r`: the rows of the
   * batches that run hold their own results over their old cells, and the
   * rows from where the loop stops on are as they were.
   */
  lemma RunBatchesMerged(s: State, job: Job, env: Env, lo: nat, r: State)
    requires Ready(s, job) && job.size >= 1 && s.processing
    requires r == RunBatches(s, job, env, lo)
    ensures var t, u, stop := s.df.value.rows, r.df.value.rows, StopRow(job, env, lo);
            && |u| == job.total
            && (forall i :: lo <= i < Min(stop, job.total) ==> u[i] == CollectedRow(job, env, s.fields, i, t[i]))
            && (forall i :: lo <= i < job.total && stop <= i ==> u[i] == t[i])
  {
    var f := (i: nat, row: Row) => CollectedRow(job, env, s.fields, i, row);
    RunBatchesMergedBy(s, job, env, lo, r, f);
  }

  /** RunBatchesMerged, with the collected rows named by `f`. */
  lemma {:induction false} RunBatchesMergedBy(s: State, job: Job, env: Env, lo: nat, r: State, f: (nat, Row) -> Row)
    requires Ready(s, job) && job.size >= 1 && s.processing
    requires r == RunBatches(s, job, env, lo)
    requires Collects(job, env, s.fields, f)
    ensures MergedUntil(f, s.df.value.rows, r.df.value.rows, job.total, lo, StopRow(job, env, lo))
    decreases job.total - lo
  {
    if lo < job.total && env.stop(lo) == NoStop {
      var s2 := NextBatch(s, job, env, lo);
      RunBatchesMergedBy(s2, job, env, lo + job.size, r, f);
      BatchThenRestMerged(s, job, env, lo, s2, r, f);
    } else {
      RunBatchesUnfold(s, job, env, lo);
    }
  }

  /** One batch and then the rest of the loop, seen on the rows. */
  lemma BatchThenRestMerged(s: State, job: Job, env: Env, lo: nat, s2: State, r: State, f: (nat, Row) -> Row)
    requires Ready(s, job) && job.size >= 1 && lo < job.total && env.stop(lo) == NoStop
    requires Collects(job, env, s.fields, f)
    requires s2 == BatchStep(s, job, env, lo) && r == RunBatches(s2, job, env, lo + job.size)
    requires MergedUntil(f, s2.df.value.rows, r.df.value.rows, job.total, lo + job.size, StopRow(job, env, lo + job.size))
    ensures MergedUntil(f, s.df.value.rows, r.df.value.rows, job.total, lo, StopRow(job, env, lo))
  {
    BatchRows(s, job, env, lo, f);
    RunBatchesRowsBefore(s2, job, env, lo + job.size, r);
    BatchThenRestRows(f, s.df.value.rows, s2.df.value.rows, r.df.value.rows,
                      job.total, lo, lo + job.size, StopRow(job, env, lo + job.size));
  }

  /** The rows of a batch hold their own results; the other rows are as they were. */
  lemma BatchRows(s: State, job: Job, env: Env, lo: nat, f: (nat, Row) -> Row)
    requires Ready(s, job) && job.size >= 1 && lo < job.total
    requires Collects(job, env, s.fields, f)
    ensures var t, u := s.df.value.rows, BatchStep(s, job, env, lo).df.value.rows;
            && (forall i :: lo <= i < BatchEnd(job, lo) ==> u[i] == f(i, t[i]))
            && (forall i :: 0 <= i < |t| && !(lo <= i < BatchEnd(job, lo)) ==> u[i] == t[i])
  {
    BatchStepFacts(s, job, env, lo);
  }

  /** The batch loop from row `lo` on leaves the rows before `lo` as they were. */
  lemma RunBatchesRowsBefore(s: State, job: Job, env: Env, lo: nat, r: State)
    requires Ready(s, job) && job.size >= 1
    requires r == RunBatches(s, job, env, lo)
    ensures forall i :: 0 <= i < job.total && !(lo <= i < job.total) ==> r.df.value.rows[i] == s.df.value.rows[i]
  {
    RunBatchesCells(s, job, env, lo, r);
  }

  /**
   * The rows after one batch and the rest of the loop: `u` is `t` after the
   * batch `[lo, next)`, `v` is `u` after the batches from `next` on, which
   * stop at `stop`.
   */
  lemma BatchThenRestRows(f: (nat, Row) -> Row, t: seq<Row>, u: seq<Row>, v: seq<Row>,
                          total: nat, lo: nat, next: nat, stop: nat)
    requires |t| == total && |u| == total && |v| == total && lo < next <= stop
    requires forall i :: lo <= i < Min(next, total) ==> u[i] == f(i, t[i])
    requires forall i :: 0 <= i < |t| && !(lo <= i < Min(next, total)) ==> u[i] == t[i]
    requires forall i :: next <= i < Min(stop, total) ==> v[i] == f(i, u[i])
    requires forall i :: next <= i < total && stop <= i ==> v[i] == u[i]
    requires forall i :: 0 <= i < total && !(next <= i < total) ==> v[i] == u[i]
    ensures forall i :: lo <= i < Min(stop, total) ==> v[i] == f(i, t[i])
    ensures forall i :: lo <= i < total && stop <= i ==> v[i] == t[i]
  {
    forall i | lo <= i < Min(stop, total)
      ensures v[i] == f(i, t[i])
    {
      if i < Min(next, total) {
        assert v[i] == u[i];
      } else {
        assert u[i] == t[i];
      }
    }
  }

  /** In the same run, the progress bar visits the ends of those `m` batches in order. */
  lemma {:induction false} RunBatchesProgress(s: State, job: Job, env: Env, lo: nat, m: nat)
    requires Ready(s, job) && job.size >= 1 && s.processing
    requires m <= |BatchesFrom(lo, job.total, job.size)|
    requires forall b :: 0 <= b < m ==> env.stop(Stride(lo, job.size, b)) == NoStop
    requires m < |BatchesFrom(lo, job.total, job.size)| ==> env.stop(Stride(lo, job.size, m)) != NoStop
    ensures ProgressOf(RunBatches(s, job, env, lo).events) ==
              ProgressOf(s.events) + Ends(BatchesFrom(lo, job.total, job.size)[..m])
    decreases m
  {
    if m > 0 {
      StridesShift(env, lo, lo + job.size, job.size, m);
      BatchesFromFirst(job, lo, m);
      var s2 := NextBatch(s, job, env, lo);
      RunBatchesProgress(s2, job, env, lo + job.size, m - 1);
      var later := Ends(BatchesFrom(lo + job.size, job.total, job.size)[..m - 1]);
      AppendAssoc(ProgressOf(s.events), [BatchEnd(job, lo)], later);
    } else {
      LastBoundary(s, job, env, lo);
      assert Ends(BatchesFrom(lo, job.total, job.size)[..0]) == [];
    }
  }

  // ---------------------------------------------------------------------------
  // A whole run of process_data
  // ---------------------------------------------------------------------------

  /** Both numbers were read, the pool has a worker, and the batch size is positive. */
  predicate Runs(settings: RunSettings)
  {
    && settings.batchSize.Some? && settings.batchSize.value > 0
    && settings.maxWorkers.Some? && settings.maxWorkers.value > 0
  }

  /** The preparation saves once and leaves the progress bar and the flag alone. */
  lemma PreparedFacts(s: State, t0: Table, storage: Storage)
    ensures var r := Prepared(s, t0, storage);
            && r.attempts == s.attempts + 1 && ProgressOf(r.events) == ProgressOf(s.events)
  {
    var s0 := s.(df := Some(t0));
    var s1 := Logged(s0, Loaded(|t0.rows|));
    var s2 := Logged(s1, SchemaListed(s.fields));
    LoggedQuiet(s0, Loaded(|t0.rows|));
    LoggedQuiet(s1, SchemaListed(s.fields));
    SaveThenFacts(s2.(df := Some(AddColumns(t0, s.fields))), storage, InitialSaved);
  }

  /**
   * A run whose first stop button is seen at the batch loop's `j`-th look at
   * the flag (row `j * size`, see StrideIsProduct): the initial save,
   * one save per batch for the first `j` batches, the save of Stop-and-save
   * if that was the button, and the final save, which happens after
   * Stop-without-saving too; the progress bar visits the ends of the first
   * `j` batches.
   */
  lemma RunTrace(word: WordClass, s: State, t0: Table, settings: RunSettings, env: Env, j: nat)
    requires WellFormed(t0) && Runs(settings) && s.processing
    requires j <= |Batches(|t0.rows|, settings.batchSize.value)|
    requires forall b :: 0 <= b < j ==> env.stop(Stride(0, settings.batchSize.value, b)) == NoStop
    requires j < |Batches(|t0.rows|, settings.batchSize.value)| ==>
               env.stop(Stride(0, settings.batchSize.value, j)) != NoStop
    ensures var r := ProcessDataSpec(word, s, Some(t0), settings, env);
            var last := env.stop(Stride(0, settings.batchSize.value, j));
            && r.attempts == s.attempts + 2 + j + (if last == StopSave then 1 else 0)
            && ProgressOf(r.events) ==
                 ProgressOf(s.events) + Ends(Batches(|t0.rows|, settings.batchSize.value)[..j])
  {
    var size, workers := settings.batchSize.value, settings.maxWorkers.value;
    var s3 := Prepared(s, t0, env.storage);
    var s4 := Logged(s3, ConfigShown(size, workers));
    var job := RunJob(word, settings, t0);
    PreparedFacts(s, t0, env.storage);
    LoggedQuiet(s3, ConfigShown(size, workers));
    RunBatchesSaves(s4, job, env, 0, j);
    RunBatchesProgress(s4, job, env, 0, j);
    assert Batches(|t0.rows|, size) == BatchesFrom(0, |t0.rows|, size);
    var ran := RunBatches(s4, job, env, 0);
    ProcessDataUnfold(word, s, t0, settings, env, s4, ran);
    SaveThenFacts(ran, env.storage, Finished(t0.columns, Without(ran.df.value.columns, t0.columns)));
  }

  /**
   * Where the progress bar goes in a run nobody stops: once per batch,
   * strictly upwards, ending at the row count.
   */
  lemma BatchEndsClimb(n: nat, size: nat)
    requires size >= 1
    ensures var e := Ends(Batches(n, size));
            && |e| == BatchCount(n, size)
            && (forall a, b :: 0 <= a < b < |e| ==> e[a] < e[b])
            && (n > 0 ==> e[|e| - 1] == n)
  {
    BatchesPartition(n, size);
    BatchEndsIncrease(n, size);
  }

  /** Where the progress bar stops when the run stops at boundary `j`: row `j * size`, short of `n`. */
  lemma BatchEndsStopEarly(n: nat, size: nat, j: nat)
    requires size >= 1 && j < |Batches(n, size)|
    ensures var e := Ends(Batches(n, size)[..j]);
            && |e| == j
            && (j > 0 ==> e[j - 1] == j * size < n)
  {
    var bs := Batches(n, size);
    BatchesPartition(n, size);
    if j > 0 {
      BatchAt(n, size, j - 1);
      BatchAt(n, size, j);
      MulDistributes(j, j - 1, size);
      assert bs[j - 1].1 == bs[j].0;
    }
  }

  /**
   * A run nobody stops makes `ceil(N / B) + 2` save attempts, and the
   * progress bar visits the end of every batch in order.
   */
  lemma UninterruptedRun(word: WordClass, s: State, t0: Table, settings: RunSettings, env: Env)
    requires WellFormed(t0) && Runs(settings) && s.processing
    requires forall lo :: env.stop(lo) == NoStop
    ensures var r := ProcessDataSpec(word, s, Some(t0), settings, env);
            && r.attempts == s.attempts + BatchCount(|t0.rows|, settings.batchSize.value) + 2
            && ProgressOf(r.events) == ProgressOf(s.events) + Ends(Batches(|t0.rows|, settings.batchSize.value))
  {
    var n, size := |t0.rows|, settings.batchSize.value;
    var count := BatchCount(n, size);
    BatchesCount(n, size);
    RunTrace(word, s, t0, settings, env, count);
    assert Batches(n, size)[..count] == Batches(n, size);
  }

  /** The unfolding of process_data for a run that reaches the batch loop. */
  lemma ProcessDataUnfold(word: WordClass, s: State, t0: Table, settings: RunSettings, env: Env, s4: State, ran: State)
    requires WellFormed(t0)
    requires settings.batchSize.Some? && settings.batchSize.value != 0
    requires settings.maxWorkers.Some? && settings.maxWorkers.value > 0
    requires s4 == Logged(Prepared(s, t0, env.storage), ConfigShown(settings.batchSize.value, settings.maxWorkers.value))
    requires Ready(s4, RunJob(word, settings, t0))
    requires ran == if settings.batchSize.value < 0 then s4 else RunBatches(s4, RunJob(word, settings, t0), env, 0)
    ensures ProcessDataSpec(word, s, Some(t0), settings, env) == Concluded(ran, t0.columns, env.storage)
  {
  }

  /**
   * The state a run that reaches the batch loop is in before its final save:
   * its table is the input with the schema's columns added, changed at most
   * in the schema's cells.
   */
  lemma RunEnd(word: WordClass, s: State, t0: Table, settings: RunSettings, env: Env) returns (ran: State)
    requires WellFormed(t0)
    requires settings.batchSize.Some? && settings.batchSize.value != 0
    requires settings.maxWorkers.Some? && settings.maxWorkers.value > 0
    ensures ran.df.Some? && OnlySchemaCells(AddColumns(t0, s.fields), ran.df.value, s.fields, 0, |t0.rows|)
    ensures ProcessDataSpec(word, s, Some(t0), settings, env) == Concluded(ran, t0.columns, env.storage)
  {
    var size, workers := settings.batchSize.value, settings.maxWorkers.value;
    var s4 := Logged(Prepared(s, t0, env.storage), ConfigShown(size, workers));
    var job := RunJob(word, settings, t0);
    ran := if size < 0 then s4 else RunBatches(s4, job, env, 0);
    if size > 0 {
      RunBatchesCells(s4, job, env, 0, ran);
    }
    ProcessDataUnfold(word, s, t0, settings, env, s4, ran);
  }

  /** The final save keeps the table, makes one more attempt and logs its outcome last. */
  lemma ConcludedFacts(ran: State, originals: seq<string>, storage: Storage)
    requires ran.df.Some?
    ensures var r := Concluded(ran, originals, storage);
            && r.df == ran.df && r.attempts == ran.attempts + 1 && |r.events| >= 1
            && (storage(ran.attempts) ==>
                  && |r.written| >= 1 && r.written[|r.written| - 1] == ran.df.value
                  && r.events[|r.events| - 1] == Status(Finished(originals, Without(ran.df.value.columns, originals))))
            && (!storage(ran.attempts) ==> r.events[|r.events| - 1] == Status(SaveFailed))
  {
    SaveThenFacts(ran, storage, Finished(originals, Without(ran.df.value.columns, originals)));
  }

  /**
   * However a run with a table ends, its table has the original columns
   * followed by the schema fields that were not among them, the input's rows,
   * and every cell outside the schema's columns as in the input.
   */
  lemma RunTable(word: WordClass, s: State, t0: Table, settings: RunSettings, env: Env)
    requires WellFormed(t0) && NoDuplicates(s.fields)
    requires settings.batchSize.Some? && settings.batchSize.value != 0
    requires settings.maxWorkers.Some? && settings.maxWorkers.value > 0
    ensures var r := ProcessDataSpec(word, s, Some(t0), settings, env);
            && r.df.Some? && r.df.value.columns == t0.columns + Without(s.fields, t0.columns)
            && |r.df.value.rows| == |t0.rows|
            && (forall i, c :: 0 <= i < |t0.rows| && c in t0.rows[i] && c !in s.fields ==>
                  c in r.df.value.rows[i] && r.df.value.rows[i][c] == t0.rows[i][c])
  {
    var ran := RunEnd(word, s, t0, settings, env);
    ConcludedFacts(ran, t0.columns, env.storage);
    AppendedColumns(t0, s.fields);
  }

  /**
   * What a run whose first stop button is seen at the batch loop's `j`-th
   * look (row `j * size` by StrideIsProduct; or none, `j` being the number of
   * batches) leaves in its table, which is the one the final save writes:
   * every row before that row holds the result of its own prompt over the
   * cells the preparation gave it, a schema field missing from that result
   * keeping its cell, and every row from that row on is as the preparation
   * left it.
   */
  lemma RunTableContents(word: WordClass, s: State, t0: Table, settings: RunSettings, env: Env, j: nat)
    requires WellFormed(t0) && Runs(settings) && s.processing
    requires j <= |Batches(|t0.rows|, settings.batchSize.value)|
    requires forall b :: 0 <= b < j ==> env.stop(Stride(0, settings.batchSize.value, b)) == NoStop
    requires j < |Batches(|t0.rows|, settings.batchSize.value)| ==>
               env.stop(Stride(0, settings.batchSize.value, j)) != NoStop
    ensures var r := ProcessDataSpec(word, s, Some(t0), settings, env);
            var prepared := AddColumns(t0, s.fields);
            var job := RunJob(word, settings, t0);
            && r.df.Some? && |r.df.value.rows| == |t0.rows|
            && (forall i :: 0 <= i < |t0.rows| && i < Stride(0, settings.batchSize.value, j) ==>
                  r.df.value.rows[i] == CollectedRow(job, env, s.fields, i, prepared.rows[i]))
            && (forall i :: Stride(0, settings.batchSize.value, j) <= i < |t0.rows| ==>
                  r.df.value.rows[i] == prepared.rows[i])
  {
    var size, workers := settings.batchSize.value, settings.maxWorkers.value;
    var s4 := Logged(Prepared(s, t0, env.storage), ConfigShown(size, workers));
    var job := RunJob(word, settings, t0);
    assert Batches(|t0.rows|, size) == BatchesFrom(0, |t0.rows|, size);
    var ran := RunBatches(s4, job, env, 0);
    RunBatchesMerged(s4, job, env, 0, ran);
    StopRowIsStride(job, env, 0, j);
    ProcessDataUnfold(word, s, t0, settings, env, s4, ran);
  }

  /**
   * The final save of a run: one more attempt, which, when the file accepts
   * it, writes the final table and reports the original columns and the
   * added ones, and otherwise reports the failure.
   */
  lemma RunReport(word: WordClass, s: State, t0: Table, settings: RunSettings, env: Env)
    requires WellFormed(t0) && NoDuplicates(s.fields)
    requires settings.batchSize.Some? && settings.batchSize.value != 0
    requires settings.maxWorkers.Some? && settings.maxWorkers.value > 0
    ensures var r := ProcessDataSpec(word, s, Some(t0), settings, env);
            && r.attempts >= 1 && |r.events| >= 1 && r.df.Some?
            && (env.storage(r.attempts - 1) ==>
                  && |r.written| >= 1 && r.written[|r.written| - 1] == r.df.value
                  && r.events[|r.events| - 1] == Status(Finished(t0.columns, Without(s.fields, t0.columns))))
            && (!env.storage(r.attempts - 1) ==> r.events[|r.events| - 1] == Status(SaveFailed))
  {
    var ran := RunEnd(word, s, t0, settings, env);
    ConcludedFacts(ran, t0.columns, env.storage);
    AddedFieldsAreNewSchemaFields(t0, s.fields);
  }
}
