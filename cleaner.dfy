/**
 * The application object `MacAICleaner` (mac_ai_cleaner.py) with the fields
 * a run reads and writes. Its methods do what the source's methods do, one
 * step at a time, and each is proved to end in the state the matching
 * function of module Coordinator gives; the properties of a run are proved
 * about those functions (run_properties.dfy).
 *
 * The progress queue is the sequence `events`; the output file is the
 * sequence `written` of the tables written to it, together with the count
 * `attempts` of calls of save_excel_file.
 */
module Cleaner {
  import opened Wrappers
  import opened FieldSchema
  import opened RowTask
  import opened Tables
  import opened Batching
  import opened Coordinator

  class MacAICleaner {
    /** The character class `\w` the field cleaner keeps. */
    const word: WordClass
    var processing: bool
    var df: Option<Table>
    var fields: seq<string>
    var events: seq<Event>
    var written: seq<Table>
    var attempts: nat

    function Snapshot(): State
      reads this
    {
      State(processing, df, fields, events, written, attempts)
    }

    /** mac_ai_cleaner.py:37-39: not processing, no table, no schema. */
    constructor (word: WordClass)
      ensures this.word == word && Snapshot() == InitialState
    {
      this.word := word;
      processing := false;
      df := None;
      fields := [];
      events := [];
      written := [];
      attempts := 0;
    }

    /** A status line on the progress queue. */
    method Report(note: Note)
      modifies this
      ensures Snapshot() == Logged(old(Snapshot()), note)
    {
      events := events + [Status(note)];
    }

    /** save_excel_file: write the table, or log the error and answer false. */
    method SaveExcelFile(storage: Storage) returns (ok: bool)
      modifies this
      ensures ok == SaveWorks(old(Snapshot()), storage)
      ensures Snapshot() == Saved(old(Snapshot()), storage)
    {
      ok := df.Some? && storage(attempts);
      if ok {
        written := written + [df.value];
      } else {
        Report(SaveFailed);
      }
      attempts := attempts + 1;
    }

    method StopAndSave(storage: Storage)
      modifies this
      ensures Snapshot() == StopAndSaveSpec(old(Snapshot()), storage)
    {
      processing := false;
      if df.Some? {
        var ok := SaveExcelFile(storage);
        if ok {
          Report(StoppedWithSave);
        }
      }
    }

    method StopNoSave()
      modifies this
      ensures Snapshot() == StopNoSaveSpec(old(Snapshot()))
    {
      processing := false;
      Report(StoppedWithoutSave);
    }

    /** The button the user pressed, handled when the coordinator next looks at the flag. */
    method ApplyStopRequest(request: StopRequest, storage: Storage)
      modifies this
      ensures Snapshot() == ApplyStop(old(Snapshot()), request, storage)
    {
      match request
      case NoStop =>
      case StopSave => StopAndSave(storage);
      case StopDiscard => StopNoSave();
    }

    /** mac_ai_cleaner.py:390-392: an empty column for every field the table lacks. */
    method AddFieldColumns()
      requires df.Some?
      modifies this`df
      ensures Snapshot() == old(Snapshot()).(df := Some(AddColumns(old(df.value), fields)))
    {
      ghost var t0 := df.value;
      var i := 0;
      while i < |fields|
        invariant 0 <= i <= |fields|
        invariant df == Some(AddColumns(t0, fields[..i]))
      {
        var field := fields[i];
        if field !in df.value.columns {
          df := Some(AddColumn(df.value, field));
        }
        AddColumnsSnoc(t0, fields, i);
        i := i + 1;
      }
      assert fields[..|fields|] == fields;
    }

    /** mac_ai_cleaner.py:439-440: each field of the row task's map written into row `idx`. */
    method MergeRowResult(idx: nat, result: map<string, string>)
      requires df.Some? && idx < |df.value.rows|
      modifies this`df
      ensures Snapshot() == old(Snapshot()).(df := Some(MergeRow(old(df.value), idx, result)))
    {
      ghost var t0 := df.value;
      var rest := result;
      MergeRowEmpty(t0, idx);
      assert result - rest.Keys == map[];
      while rest != map[]
        invariant rest.Keys <= result.Keys
        invariant df == Some(MergeRow(t0, idx, result - rest.Keys))
        decreases |rest|
      {
        var field :| field in rest;
        MergeRowSetCell(t0, idx, result - rest.Keys, field, result[field]);
        MergeOneMoreKey(result, rest, field);
        df := Some(SetCell(df.value, idx, field, result[field]));
        rest := rest - {field};
      }
      assert result - rest.Keys == result;
    }

    /**
     * The part of process_single_row (mac_ai_cleaner.py:485-523) after the
     * call: parse the answer, or log the failed call and give the empty map.
     */
    method ProcessSingleRow(idx: nat, reply: ApiReply) returns (fieldValues: map<string, string>)
      modifies this
      ensures fieldValues == RowResult(word, fields, reply)
      ensures Snapshot() == if reply.ApiFailure? then Logged(old(Snapshot()), RowApiError(idx + 1)) else old(Snapshot())
    {
      match reply
      case Answer(text) =>
        fieldValues := ParseReply(word, fields, text);
      case ApiFailure =>
        Report(RowApiError(idx + 1));
        fieldValues := map[];
      case NoReplyInTime =>
        fieldValues := map[];
    }

    /** Submitting row `idx` and collecting its result (mac_ai_cleaner.py:423-448). */
    method CollectRow(job: Job, env: Env, idx: nat)
      requires job.word == word && Ready(Snapshot(), job) && idx < job.total
      modifies this
      ensures Snapshot() == RowStep(old(Snapshot()), job, env, idx)
    {
      var prompt := BuildPrompt(job.template, job.originals, df.value.rows[idx]);
      var reply := env.service(idx, prompt);
      if reply.NoReplyInTime? {
        Report(RowTimeout(idx + 1));
      } else {
        var result := ProcessSingleRow(idx, reply);
        if result == map[] {
          Report(RowNothing(idx + 1));
        } else {
          Report(RowFields(idx + 1, |result|));
          MergeRowResult(idx, result);
        }
      }
    }

    /** The collection loop over the rows `lo .. hi-1` of a batch (mac_ai_cleaner.py:432-448). */
    method CollectRows(job: Job, env: Env, lo: nat, hi: nat)
      requires job.word == word && Ready(Snapshot(), job) && lo <= hi <= job.total
      modifies this
      ensures Snapshot() == RunRows(old(Snapshot()), job, env, lo, hi)
    {
      var idx := lo;
      while idx < hi
        invariant lo <= idx <= hi
        invariant Ready(Snapshot(), job)
        invariant RunRows(Snapshot(), job, env, idx, hi) == RunRows(old(Snapshot()), job, env, lo, hi)
        decreases hi - idx
      {
        ghost var before := Snapshot();
        RunRowsUnfold(before, job, env, idx, hi);
        CollectRow(job, env, idx);
        assert Snapshot() == RowStep(before, job, env, idx);
        idx := idx + 1;
      }
    }

    /** The end of a batch (mac_ai_cleaner.py:450-456): the progress bar moves to its end, then a save. */
    method EndBatch(batchEnd: nat, total: nat, storage: Storage)
      modifies this
      ensures Snapshot() ==
                SaveThen(old(Snapshot()).(events := old(events) + [Progress(batchEnd, total)]), storage, BatchSaved)
    {
      events := events + [Progress(batchEnd, total)];
      var ok := SaveExcelFile(storage);
      if ok {
        Report(BatchSaved);
      }
    }

    /** One pass of the batch loop's body (mac_ai_cleaner.py:413-456). */
    method RunBatch(job: Job, env: Env, batchStart: nat)
      requires job.word == word && job.size >= 1 && Ready(Snapshot(), job) && batchStart < job.total
      modifies this
      ensures Snapshot() == BatchStep(old(Snapshot()), job, env, batchStart)
    {
      ghost var s0 := Snapshot();
      var batchEnd := Min(batchStart + job.size, job.total);
      Report(BatchBegun(batchStart / job.size + 1, batchStart + 1, batchEnd));
      ghost var begun := Snapshot();
      CollectRows(job, env, batchStart, batchEnd);
      ghost var collected := Snapshot();
      EndBatch(batchEnd, job.total, env.storage);
      BatchStepUnfold(s0, job, env, batchStart, begun, collected,
                      collected.(events := collected.events + [Progress(batchEnd, job.total)]));
    }

    /**
     * The check at the top of each pass of the batch loop (mac_ai_cleaner.py:413-415):
     * the button pressed since the last look takes effect, then the loop goes on
     * only while rows are left and the flag is set.
     */
    method AtBoundary(env: Env, batchStart: nat, total: nat) returns (go: bool)
      modifies this
      ensures Snapshot() == ApplyStop(old(Snapshot()), env.stop(batchStart), env.storage)
      ensures go == (batchStart < total && processing)
    {
      ApplyStopRequest(env.stop(batchStart), env.storage);
      go := batchStart < total && processing;
    }

    /** The batch loop (mac_ai_cleaner.py:413-456), the flag read at each batch boundary. */
    method RunBatchLoop(job: Job, env: Env)
      requires job.word == word && job.size >= 1 && Ready(Snapshot(), job)
      modifies this
      ensures Snapshot() == RunBatches(old(Snapshot()), job, env, 0)
    {
      var batchStart := 0;
      while true
        invariant Ready(Snapshot(), job)
        invariant RunBatches(Snapshot(), job, env, batchStart) == RunBatches(old(Snapshot()), job, env, 0)
        decreases job.total - batchStart
      {
        ghost var before := Snapshot();
        RunBatchesUnfold(before, job, env, batchStart);
        var go := AtBoundary(env, batchStart, job.total);
        if !go {
          break;
        }
        RunBatch(job, env, batchStart);
        batchStart := batchStart + job.size;
      }
    }

    /** The start of process_data (mac_ai_cleaner.py:382-396): load, log, add the schema's columns, save. */
    method PrepareTable(t0: Table, storage: Storage)
      modifies this
      ensures Snapshot() == Prepared(old(Snapshot()), t0, storage)
    {
      df := Some(t0);
      Report(Loaded(|t0.rows|));
      Report(SchemaListed(fields));
      AddFieldColumns();
      var ok := SaveExcelFile(storage);
      if ok {
        Report(InitialSaved);
      }
    }

    /** The end of process_data (mac_ai_cleaner.py:466-476, 482): save, report, clear the flag. */
    method Conclude(originalColumns: seq<string>, storage: Storage)
      requires df.Some?
      modifies this
      ensures Snapshot() == Concluded(old(Snapshot()), originalColumns, storage)
    {
      var ok := SaveExcelFile(storage);
      if ok {
        Report(Finished(originalColumns, Without(df.value.columns, originalColumns)));
      }
      processing := false;
    }

    /** process_data (mac_ai_cleaner.py:378-483). */
    method ProcessData(input: Option<Table>, settings: RunSettings, env: Env)
      requires input.Some? ==> WellFormed(input.value)
      modifies this
      ensures Snapshot() == ProcessDataSpec(word, old(Snapshot()), input, settings, env)
    {
      if input.None? {
        Report(RunFailed);
        processing := false;
        return;
      }
      var t0 := input.value;
      var originalColumns := t0.columns;
      var totalRows := |t0.rows|;
      PrepareTable(t0, env.storage);
      if settings.batchSize.None? || settings.maxWorkers.None? {
        Report(RunFailed);
        processing := false;
        return;
      }
      var batchSize, maxWorkers := settings.batchSize.value, settings.maxWorkers.value;
      Report(ConfigShown(batchSize, maxWorkers));
      if maxWorkers <= 0 || batchSize == 0 {
        Report(RunFailed);
        processing := false;
        return;
      }
      var job := Job(word, settings.template, originalColumns, totalRows, if batchSize > 0 then batchSize else 1);
      if batchSize > 0 {
        RunBatchLoop(job, env);
      }
      Conclude(originalColumns, env.storage);
    }

    /** start_processing (mac_ai_cleaner.py:283-323), with the run performed in place of the thread. */
    method StartProcessing(req: StartRequest, input: Option<Table>, env: Env) returns (verdict: Verdict)
      requires input.Some? ==> WellFormed(input.value)
      modifies this
      ensures verdict == StartVerdict(word, req)
      ensures Snapshot() == StartSpec(word, old(Snapshot()), req, input, env)
    {
      if req.apiKey == "" {
        return MissingApiKey;
      }
      if req.inputPath == "" || req.outputPath == "" {
        return MissingPaths;
      }
      if req.outputLocked {
        return OutputLocked;
      }
      fields := ExtractDynamicFields(word, req.prompt);
      if fields == [] {
        return EmptySchema;
      }
      processing := true;
      ProcessData(input, RunSettings(req.prompt, req.batchSize, req.maxWorkers), env);
      verdict := Started;
    }
  }
}
