/**
 * What a run of the cleaner does to the application's state, as functions of
 * the state before it: the status log, the table `df`, the schema `fields`,
 * the `processing` flag and the writes to the output file. The class in
 * cleaner.dfy performs the same steps one assignment at a time and is proved
 * to end in the state these functions give.
 *
 * Everything the run cannot decide by itself is an oracle: the text-generation
 * service (what the call for a row gives back, or that the coordinator's wait
 * for it ran out), the output file (whether the n-th write succeeds) and the
 * user (which stop button, if any, was pressed while batch k-1 ran, taking
 * effect when the coordinator next looks at the `processing` flag).
 */
module Coordinator {
  import opened Wrappers
  import opened FieldSchema
  import opened RowTask
  import opened Tables
  import opened Batching

  /** The kinds of status line the run puts on the progress queue, with the values they show. */
  datatype Note =
    | Loaded(rows: nat)                                    // mac_ai_cleaner.py:386
    | SchemaListed(fields: seq<string>)                    // :387
    | InitialSaved                                         // :395-396
    | ConfigShown(batchSize: int, maxWorkers: int)         // :404
    | BatchBegun(number: nat, first: nat, last: nat)       // :420
    | RowFields(row: nat, count: nat)                      // :438
    | RowNothing(row: nat)                                 // :444
    | RowTimeout(row: nat)                                 // :446
    | RowApiError(row: nat)                                // :522
    | BatchSaved                                           // :455-456
    | SaveFailed                                           // :357-360
    | Finished(originals: seq<string>, added: seq<string>) // :467-476
    | RunFailed                                            // :478-480
    | StoppedWithSave                                      // :330-333
    | StoppedWithoutSave                                   // :341

  /** A message on the progress queue: a status line, or the progress bar set to `done / total`. */
  datatype Event = Status(note: Note) | Progress(done: nat, total: nat)

  /** The part of `MacAICleaner` a run reads and changes. */
  datatype State = State(
    processing: bool,
    df: Option<Table>,
    fields: seq<string>,
    events: seq<Event>,
    written: seq<Table>,  // the tables written to the output file, oldest first
    attempts: nat)        // the calls of save_excel_file so far

  /** Whether the n-th call of save_excel_file manages to write the file. */
  type Storage = nat -> bool

  datatype StopRequest = NoStop | StopSave | StopDiscard

  /**
   * The stop button pressed since the coordinator last looked at the flag, as
   * seen when the batch loop reaches `batch_start == lo` (`lo` is at or past the
   * row count for the look after the last batch), if any.
   */
  type StopSchedule = nat -> StopRequest

  datatype Env = Env(service: Service, storage: Storage, stop: StopSchedule)

  /**
   * What the batch loop works with: the word class of the field cleaner, the
   * prompt template, the input's original columns, the row count and the
   * batch size.
   */
  datatype Job = Job(word: WordClass, template: string, originals: seq<string>, total: nat, size: nat)

  /** The settings `process_data` reads back from the configuration; `None` is a value `int()` rejects. */
  datatype RunSettings = RunSettings(template: string, batchSize: Option<int>, maxWorkers: Option<int>)

  const InitialState: State := State(false, None, [], [], [], 0)

  // ---------------------------------------------------------------------------
  // Logging, saving and the stop buttons (mac_ai_cleaner.py:325-360)
  // ---------------------------------------------------------------------------

  function Logged(s: State, note: Note): (r: State)
    ensures r.df == s.df && r.fields == s.fields && r.processing == s.processing
    ensures r.attempts == s.attempts && r.written == s.written
  {
    s.(events := s.events + [Status(note)])
  }

  /** Whether save_excel_file writes the file: there is a table, and the file accepts this write. */
  predicate SaveWorks(s: State, storage: Storage)
  {
    s.df.Some? && storage(s.attempts)
  }

  /** The state after save_excel_file, which logs its own failure and leaves success to the caller. */
  function Saved(s: State, storage: Storage): (r: State)
    ensures r.df == s.df && r.fields == s.fields && r.processing == s.processing
  {
    if SaveWorks(s, storage) then s.(written := s.written + [s.df.value], attempts := s.attempts + 1)
    else Logged(s, SaveFailed).(attempts := s.attempts + 1)
  }

  /** A save whose caller logs `note` when it worked. */
  function SaveThen(s: State, storage: Storage, note: Note): (r: State)
    ensures r.df == s.df && r.fields == s.fields && r.processing == s.processing
  {
    var r := Saved(s, storage);
    if SaveWorks(s, storage) then Logged(r, note) else r
  }

  /** stop_and_save: clear the flag, and save the table if one was loaded. */
  function StopAndSaveSpec(s: State, storage: Storage): (r: State)
    ensures r.df == s.df && r.fields == s.fields && !r.processing
    ensures s.df.None? ==> r.events == s.events && r.written == s.written && r.attempts == s.attempts
    ensures s.df.Some? ==> r.attempts == s.attempts + 1
    ensures s.df.Some? && storage(s.attempts) ==>
              r.written == s.written + [s.df.value] && r.events == s.events + [Status(StoppedWithSave)]
    ensures s.df.Some? && !storage(s.attempts) ==>
              r.written == s.written && r.events == s.events + [Status(SaveFailed)]
  {
    var r := s.(processing := false);
    if r.df.None? then r else SaveThen(r, storage, StoppedWithSave)
  }

  /** stop_no_save: clear the flag and say so. */
  function StopNoSaveSpec(s: State): (r: State)
    ensures r.df == s.df && r.fields == s.fields && !r.processing
    ensures r.written == s.written && r.attempts == s.attempts
    ensures r.events == s.events + [Status(StoppedWithoutSave)]
  {
    Logged(s.(processing := false), StoppedWithoutSave)
  }

  function ApplyStop(s: State, request: StopRequest, storage: Storage): (r: State)
    ensures r.df == s.df && r.fields == s.fields
  {
    match request
    case NoStop => s
    case StopSave => StopAndSaveSpec(s, storage)
    case StopDiscard => StopNoSaveSpec(s)
  }

  // ---------------------------------------------------------------------------
  // The batch loop (mac_ai_cleaner.py:413-456)
  // ---------------------------------------------------------------------------

  /** The table is loaded and has the run's row count. */
  ghost predicate Ready(s: State, job: Job)
  {
    && s.df.Some?
    && |s.df.value.rows| == job.total
  }

  /** The prompt of row `idx`. */
  function RowPrompt(s: State, job: Job, idx: nat): string
    requires Ready(s, job) && idx < job.total
  {
    BuildPrompt(job.template, job.originals, s.df.value.rows[idx])
  }

  /** What the coordinator gets back for row `idx`. */
  function RowReply(s: State, job: Job, env: Env, idx: nat): ApiReply
    requires Ready(s, job) && idx < job.total
  {
    env.service(idx, RowPrompt(s, job, idx))
  }

  /**
   * Collecting row `idx`'s result (mac_ai_cleaner.py:432-448): a timeout is
   * logged; a failed call logs the task's API error and then that nothing was
   * extracted; an answer whose parse is empty logs that nothing was
   * extracted; otherwise the number of fields is logged and the fields are
   * written into the row.
   */
  function RowStep(s: State, job: Job, env: Env, idx: nat): (r: State)
    requires Ready(s, job) && idx < job.total
    ensures Ready(r, job)
    ensures r.fields == s.fields && r.processing == s.processing
    ensures r.attempts == s.attempts && r.written == s.written
  {
    var t := s.df.value;
    var reply := RowReply(s, job, env, idx);
    var m := RowResult(job.word, s.fields, reply);
    var s1 := if reply.ApiFailure? then Logged(s, RowApiError(idx + 1)) else s;
    if reply.NoReplyInTime? then Logged(s, RowTimeout(idx + 1))
    else if m == map[] then Logged(s1, RowNothing(idx + 1))
    else
      Logged(s1, RowFields(idx + 1, |m|)).(df := Some(MergeRow(t, idx, m)))
  }

  /** The rows `idx .. hi-1` collected in order. */
  function RunRows(s: State, job: Job, env: Env, idx: nat, hi: nat): (r: State)
    requires Ready(s, job) && idx <= hi <= job.total
    ensures Ready(r, job) && r.fields == s.fields
    decreases hi - idx, 1
  {
    if idx == hi then s else RowThenRest(s, job, env, idx, hi)
  }

  /** Row `idx`, then the rows after it. */
  function RowThenRest(s: State, job: Job, env: Env, idx: nat, hi: nat): (r: State)
    requires Ready(s, job) && idx < hi <= job.total
    ensures Ready(r, job) && r.fields == s.fields
    decreases hi - idx, 0
  {
    RunRows(RowStep(s, job, env, idx), job, env, idx + 1, hi)
  }

  lemma RunRowsUnfold(s: State, job: Job, env: Env, idx: nat, hi: nat)
    requires Ready(s, job) && idx < hi <= job.total
    ensures RunRows(s, job, env, idx, hi) == RunRows(RowStep(s, job, env, idx), job, env, idx + 1, hi)
  {
  }

  /** The end of the batch that starts at row `lo`. */
  function BatchEnd(job: Job, lo: nat): nat
  {
    Min(lo + job.size, job.total)
  }

  /**
   * One batch: announce it, collect its rows, move the progress bar to its
   * end and save.
   */
  function BatchStep(s: State, job: Job, env: Env, lo: nat): (r: State)
    requires Ready(s, job) && job.size >= 1 && lo < job.total
    ensures Ready(r, job) && r.fields == s.fields
  {
    var hi := BatchEnd(job, lo);
    var s1 := Logged(s, BatchBegun(lo / job.size + 1, lo + 1, hi));
    var s2 := RunRows(s1, job, env, lo, hi);
    var s3 := s2.(events := s2.events + [Progress(hi, job.total)]);
    SaveThen(s3, env.storage, BatchSaved)
  }

  lemma BatchStepUnfold(s: State, job: Job, env: Env, lo: nat, begun: State, collected: State, progressed: State)
    requires Ready(s, job) && job.size >= 1 && lo < job.total
    requires begun == Logged(s, BatchBegun(lo / job.size + 1, lo + 1, BatchEnd(job, lo)))
    requires collected == RunRows(begun, job, env, lo, BatchEnd(job, lo))
    requires progressed == collected.(events := collected.events + [Progress(BatchEnd(job, lo), job.total)])
    ensures BatchStep(s, job, env, lo) == SaveThen(progressed, env.storage, BatchSaved)
  {
  }

  /**
   * The loop from `batch_start == lo` on: the stop button pressed before this
   * boundary takes effect, the loop ends when the rows are used up or the
   * flag is clear, and otherwise runs this batch and goes on with the next.
   */
  function RunBatches(s: State, job: Job, env: Env, lo: nat): (r: State)
    requires Ready(s, job) && job.size >= 1
    ensures Ready(r, job) && r.fields == s.fields
    decreases job.total - lo, 1
  {
    var s1 := ApplyStop(s, env.stop(lo), env.storage);
    if lo >= job.total || !s1.processing then s1
    else BatchThenRest(s1, job, env, lo)
  }

  /** The loop body: the batch at `lo`, then the loop from the next batch on. */
  function BatchThenRest(s: State, job: Job, env: Env, lo: nat): (r: State)
    requires Ready(s, job) && job.size >= 1 && lo < job.total
    ensures Ready(r, job) && r.fields == s.fields
    decreases job.total - lo, 0
  {
    RunBatches(BatchStep(s, job, env, lo), job, env, lo + job.size)
  }

  lemma RunBatchesUnfold(s: State, job: Job, env: Env, lo: nat)
    requires Ready(s, job) && job.size >= 1
    ensures var s1 := ApplyStop(s, env.stop(lo), env.storage);
            RunBatches(s, job, env, lo) ==
              if lo >= job.total || !s1.processing then s1
              else RunBatches(BatchStep(s1, job, env, lo), job, env, lo + job.size)
  {
  }

  // ---------------------------------------------------------------------------
  // process_data and start_processing (mac_ai_cleaner.py:283-323, 378-483)
  // ---------------------------------------------------------------------------

  /** The `except` branch: log the error; the `finally` branch clears the flag. */
  function Failed(s: State): (r: State)
  {
    Logged(s, RunFailed).(processing := false)
  }

  /** Loading the table, logging it and the schema, adding the schema's columns and saving (mac_ai_cleaner.py:382-396). */
  function Prepared(s: State, t0: Table, storage: Storage): (r: State)
    ensures r.df == Some(AddColumns(t0, s.fields)) && r.fields == s.fields && r.processing == s.processing
  {
    var s1 := Logged(Logged(s.(df := Some(t0)), Loaded(|t0.rows|)), SchemaListed(s.fields));
    SaveThen(s1.(df := Some(AddColumns(t0, s.fields))), storage, InitialSaved)
  }

  /** The final save with its report (mac_ai_cleaner.py:466-476), and the flag cleared (:482). */
  function Concluded(s: State, originals: seq<string>, storage: Storage): State
    requires s.df.Some?
  {
    SaveThen(s, storage, Finished(originals, Without(s.df.value.columns, originals))).(processing := false)
  }

  /**
   * process_data: load the input (or fail), log it and the schema, add the
   * schema's columns, save, read the batch size and the worker count (or
   * fail), refuse a worker count below one and a batch size of zero as the
   * thread pool and `range` do, run the batches (none for a negative batch
   * size), save once more and report the original and the added columns;
   * the flag is clear at the end whatever happened.
   */
  function ProcessDataSpec(word: WordClass, s: State, input: Option<Table>, settings: RunSettings, env: Env): (r: State)
    requires input.Some? ==> WellFormed(input.value)
    ensures !r.processing && r.fields == s.fields
  {
    match input
    case None => Failed(s)
    case Some(t0) =>
      var s3 := Prepared(s, t0, env.storage);
      if settings.batchSize.None? || settings.maxWorkers.None? then Failed(s3)
      else
        var size, workers := settings.batchSize.value, settings.maxWorkers.value;
        var s4 := Logged(s3, ConfigShown(size, workers));
        if workers <= 0 || size == 0 then Failed(s4)
        else
          var job := RunJob(word, settings, t0);
          Concluded(if size < 0 then s4 else RunBatches(s4, job, env, 0), t0.columns, env.storage)
  }

  /** The batch loop's job for a run whose batch size was read (a negative size runs no batch). */
  function RunJob(word: WordClass, settings: RunSettings, t0: Table): Job
    requires settings.batchSize.Some?
  {
    var size := settings.batchSize.value;
    Job(word, settings.template, t0.columns, |t0.rows|, if size > 0 then size else 1)
  }

  /** The answer to pressing Start: a warning, or the run. */
  datatype Verdict = MissingApiKey | MissingPaths | OutputLocked | EmptySchema | Started

  /**
   * What Start is given: the API key, the two paths, whether the output file
   * exists and refuses to be opened for appending, the prompt and the two
   * numbers as `int()` reads them.
   */
  datatype StartRequest = StartRequest(
    apiKey: string, inputPath: string, outputPath: string, outputLocked: bool,
    prompt: string, batchSize: Option<int>, maxWorkers: Option<int>)

  function StartVerdict(word: WordClass, req: StartRequest): (v: Verdict)
    ensures v == Started <==>
              req.apiKey != "" && req.inputPath != "" && req.outputPath != "" && !req.outputLocked
              && SchemaOf(word, req.prompt) != []
  {
    if req.apiKey == "" then MissingApiKey
    else if req.inputPath == "" || req.outputPath == "" then MissingPaths
    else if req.outputLocked then OutputLocked
    else if SchemaOf(word, req.prompt) == [] then EmptySchema
    else Started
  }

  /**
   * start_processing: the guards in order; the schema is replaced only once
   * the key and the paths passed; a run sets the flag and processes the data.
   */
  function StartSpec(word: WordClass, s: State, req: StartRequest, input: Option<Table>, env: Env): (r: State)
    requires input.Some? ==> WellFormed(input.value)
    ensures StartVerdict(word, req) == Started ==> !r.processing && r.fields == SchemaOf(word, req.prompt)
    ensures StartVerdict(word, req) == EmptySchema ==> r.fields == [] && r.processing == s.processing
    ensures StartVerdict(word, req) != Started ==>
              r.df == s.df && r.events == s.events && r.written == s.written && r.attempts == s.attempts
    ensures StartVerdict(word, req) != Started && StartVerdict(word, req) != EmptySchema ==> r == s
  {
    var verdict := StartVerdict(word, req);
    if verdict == MissingApiKey || verdict == MissingPaths || verdict == OutputLocked then s
    else if verdict == EmptySchema then s.(fields := [])
    else
      var s1 := s.(fields := SchemaOf(word, req.prompt), processing := true);
      ProcessDataSpec(word, s1, input, RunSettings(req.prompt, req.batchSize, req.maxWorkers), env)
  }
}
