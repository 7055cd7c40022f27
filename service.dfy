/** `ConversionService`: job creation from an upload stream and the worker that drives
    a queued job through `queued -> running -> succeeded | failed`.

    The upload arrives as the sequence of chunks that successive `reader(CHUNK)` calls
    return. The converter is a function from an input URI to its outcome. The job id,
    the 32 token bytes and the clock readings are parameters. A failing file or store
    operation of a worker step is named by an `IoStep` and carries the message of the
    exception it raises. */
module Service {
  import opened Wrappers
  import opened PyText
  import opened Base64Url
  import opened Security
  import opened Jobs
  import opened Storage
  import opened JobQueue

  /** One mebibyte: the unit of `max_upload_mb`. */
  const MiB: int := 1024 * 1024

  /** The content type recorded for an upload that gives none. */
  const DefaultContentType: string := "application/octet-stream"

  // ---------------------------------------------------------------------------
  // Stored input name

  /** `filename or "upload"`. */
  function OriginalName(filename: string): string {
    if filename == [] then "upload" else filename
  }

  /** The name the upload is stored under: `original`, followed by a dot and the text
      after the client name's last dot when that name has a dot. */
  function StoredInputName(filename: string): (name: string)
    ensures "original" <= name
    ensures name == "original" <==> '.' !in OriginalName(filename)
    ensures name != "original" ==> |name| > 8 && name[8] == '.'
    ensures forall i :: 9 <= i < |name| ==> name[i] != '.'
  {
    var n := OriginalName(filename);
    if '.' in n then "original." + AfterLast(n, '.') else "original"
  }

  /** The stored name keeps exactly the client name's last extension. */
  lemma StoredNameKeepsExtension(stem: string, ext: string)
    requires '.' !in ext
    ensures StoredInputName(stem + "." + ext) == "original." + ext
  {
    var s := stem + "." + ext;
    assert s[|stem|] == '.';
    var r := AfterLast(s, '.');
    if |r| != |ext| {
      assert false;
    }
    assert r == s[|stem| + 1..];
  }

  /** The extension is not confined to the last path component: a client name with a
      `/` after its last dot yields a stored name with a `/` in it. */
  lemma ExtensionMayCarrySeparator()
    ensures StoredInputName("report.v2/x") == "original.v2/x"
  {
    var name, ext := "report.v2/x", "v2/x";
    assert name == "report" + "." + ext;
    StoredNameKeepsExtension("report", ext);
    assert "original." + ext == "original.v2/x";
  }

  /** A NUL after the client name's last dot reaches the stored name, so opening
      the input file raises `ValueError` (see `OpenConsistent`). */
  lemma NulInExtensionReachesStoredName(stem: string, ext: string)
    requires '.' !in ext && '\0' in ext
    ensures '\0' in StoredInputName(stem + "." + ext)
  {
    StoredNameKeepsExtension(stem, ext);
    var k :| 0 <= k < |ext| && ext[k] == '\0';
    assert ("original." + ext)[9 + k] == '\0';
  }

  // ---------------------------------------------------------------------------
  // Upload ingestion

  /** The chunks that make up the upload: those read before the first empty one. */
  function UploadChunks(chunks: seq<seq<byte>>): (r: seq<seq<byte>>)
    ensures |r| <= |chunks| && r == chunks[..|r|]
    ensures forall j :: 0 <= j < |r| ==> r[j] != []
    ensures |r| < |chunks| ==> chunks[|r|] == []
  {
    if chunks == [] || chunks[0] == [] then []
    else
      var rest := UploadChunks(chunks[1..]);
      assert [chunks[0]] + rest == chunks[..|rest| + 1];
      [chunks[0]] + rest
  }

  /** The chunks joined in order. */
  function Concat(parts: seq<seq<byte>>): seq<byte> {
    if parts == [] then [] else Concat(parts[..|parts| - 1]) + parts[|parts| - 1]
  }

  /** The bytes of the upload. */
  function UploadBytes(chunks: seq<seq<byte>>): seq<byte> {
    Concat(UploadChunks(chunks))
  }

  /** Joining a prefix of the parts gives a prefix of the whole. */
  lemma {:induction false} ConcatPrefix(parts: seq<seq<byte>>, k: nat)
    requires k <= |parts|
    ensures Concat(parts[..k]) <= Concat(parts)
    decreases |parts|
  {
    if k < |parts| {
      var init := parts[..|parts| - 1];
      ConcatPrefix(init, k);
      assert init[..k] == parts[..k];
    } else {
      assert parts[..k] == parts;
    }
  }

  /** Joining one more part appends it. */
  lemma ConcatStep(parts: seq<seq<byte>>, i: nat)
    requires i < |parts|
    ensures Concat(parts[..i + 1]) == Concat(parts[..i]) + parts[i]
  {
    assert parts[..i + 1][..i] == parts[..i];
  }

  /** The outcome of the ingest loop. `Stored` carries the file's content, the bytes
      fed to SHA-256 and `size_bytes`. `TooLarge` carries what the file held when the
      limit was crossed (the file is then removed) and the running total that
      crossed it. */
  datatype Ingested =
    | Stored(written: seq<byte>, hashed: seq<byte>, size: nat)
    | TooLarge(written: seq<byte>, size: nat)

  /** The ingest loop of `create_job_from_upload`: read chunks until an empty one,
      adding each chunk's length to the running size before writing it, and stop
      as soon as the size exceeds `maxBytes`. */
  method Ingest(chunks: seq<seq<byte>>, maxBytes: int) returns (r: Ingested)
    ensures r.Stored? <==> UploadBytes(chunks) == [] || |UploadBytes(chunks)| <= maxBytes
    ensures r.Stored? ==> r.written == UploadBytes(chunks) && r.hashed == r.written && r.size == |r.written|
    ensures r.TooLarge? ==>
              && maxBytes < r.size <= |UploadBytes(chunks)|
              && |r.written| < r.size
              && r.written == UploadBytes(chunks)[..|r.written|]
              && (r.written == [] || |r.written| <= maxBytes)
    ensures r.TooLarge? ==>
              exists i :: 0 <= i < |UploadChunks(chunks)|
                && r.written == Concat(UploadChunks(chunks)[..i])
                && r.size == |r.written| + |UploadChunks(chunks)[i]|
  {
    var up := UploadChunks(chunks);
    var i := 0;
    var size := 0;
    var written: seq<byte> := [];
    var hashed: seq<byte> := [];
    while true
      invariant 0 <= i <= |up|
      invariant written == Concat(up[..i]) && hashed == written && size == |written|
      invariant i > 0 ==> size <= maxBytes
      decreases |up| - i
    {
      var chunk := if i < |chunks| then chunks[i] else [];
      if chunk == [] {
        break;
      }
      assert i < |up| && chunk == up[i];
      ConcatStep(up, i);
      size := size + |chunk|;
      if size > maxBytes {
        ConcatPrefix(up, i);
        ConcatPrefix(up, i + 1);
        assert up[..|up|] == up;
        r := TooLarge(written, size);
        assert r.written == Concat(up[..i]) && r.size == |r.written| + |up[i]|;
        return;
      }
      written := written + chunk;
      hashed := hashed + chunk;
      i := i + 1;
    }
    assert up[..i] == up;
    r := Stored(written, hashed, size);
  }

  /** An exception raised on the upload path, by its Python class and message. */
  datatype Raised = ValueError(message: string) | OSError(message: string)

  /** How `input_path.open("wb")` ends: the file is created, or `open` raises. */
  datatype OpenOutcome = Opened | OpenFailed(raised: Raised)

  /** The message of the `ValueError` that `open` raises for a path holding a NUL. */
  const EmbeddedNull: string := "embedded null byte"

  /** `open` rejects a path with a NUL character before it reaches the file system.
      Any other refusal (such as a stored name whose extension holds a `/`, naming a
      directory that was never created) is the file system's decision, so the
      outcome is otherwise free. */
  predicate OpenConsistent(path: string, open: OpenOutcome) {
    '\0' in path ==> open == OpenFailed(ValueError(EmbeddedNull))
  }

  // ---------------------------------------------------------------------------
  // One worker step as a specification

  /** The operations of a worker step that can raise. */
  datatype IoStep = Load | SaveRunning | MakeOutputDir | WriteOutput | SaveSucceeded | Reload | SaveFailed

  /** What `convert_to_markdown` does with an input: Markdown text, or an exception
      with its message. */
  datatype Conversion = Converted(markdown: string) | ConversionFailed(message: string)

  function Fault(faults: map<IoStep, string>, step: IoStep): Option<string> {
    if step in faults then Some(faults[step]) else None
  }

  function Lookup(jobs: map<string, JobRecord>, id: string): Option<JobRecord> {
    if id in jobs then Some(jobs[id]) else None
  }

  function MarkRunning(j: JobRecord, now: string): JobRecord {
    j.(status := Running, startedAt := Some(now), updatedAt := now)
  }

  function MarkSucceeded(j: JobRecord, outputPath: string, now: string): JobRecord {
    j.(progress := 100, outputUri := Some(outputPath), status := Succeeded, completedAt := Some(now), updatedAt := now)
  }

  function MarkFailed(j: JobRecord, message: string, now: string): JobRecord {
    j.(status := Failed, error := Some(message), failedAt := Some(now), updatedAt := now)
  }

  /** The `try` block of a worker step: the records it saved, the text it wrote to
      `result.md`, and the message of the exception that ended it. */
  datatype Attempt = Attempt(saves: seq<JobRecord>, output: Option<string>, error: Option<string>)

  function TryProcess(stored: Option<JobRecord>, outputPath: string, convert: string -> Conversion,
                      faults: map<IoStep, string>, startedAt: string, completedAt: string): Attempt
  {
    if stored.None? then Attempt([], None, Some("job not found"))
    else if Load in faults then Attempt([], None, Some(faults[Load]))
    else
      var running := MarkRunning(stored.value, startedAt);
      if SaveRunning in faults then Attempt([], None, Some(faults[SaveRunning]))
      else if MakeOutputDir in faults then Attempt([running], None, Some(faults[MakeOutputDir]))
      else match convert(running.inputUri)
        case ConversionFailed(message) => Attempt([running], None, Some(message))
        case Converted(markdown) =>
          if WriteOutput in faults then Attempt([running], None, Some(faults[WriteOutput]))
          else
            var done := MarkSucceeded(running, outputPath, completedAt);
            if SaveSucceeded in faults then Attempt([running], Some(markdown), Some(faults[SaveSucceeded]))
            else Attempt([running, done], Some(markdown), None)
  }

  /** The effect of a worker step: the records saved for the job, in order, and the
      text written to its `result.md`. */
  datatype JobRun = JobRun(saves: seq<JobRecord>, output: Option<string>)

  /** A worker step for a job whose stored record is `stored`: the `try` block, then,
      if it raised, the `except` block that reloads the record and saves it as
      failed, giving up silently when that reload or save raises. */
  function ProcessJob(stored: Option<JobRecord>, outputPath: string, convert: string -> Conversion,
                      faults: map<IoStep, string>, startedAt: string, completedAt: string, failedAt: string): JobRun
  {
    var a := TryProcess(stored, outputPath, convert, faults, startedAt, completedAt);
    if a.error.None? || stored.None? || Reload in faults || SaveFailed in faults then
      JobRun(a.saves, a.output)
    else
      var current := if a.saves == [] then stored.value else a.saves[|a.saves| - 1];
      JobRun(a.saves + [MarkFailed(current, a.error.value, failedAt)], a.output)
  }

  /** Some operation of the `try` block raises, or the converter fails. */
  predicate AttemptFails(rec: JobRecord, convert: string -> Conversion, faults: map<IoStep, string>) {
    || Load in faults || SaveRunning in faults || MakeOutputDir in faults
    || convert(rec.inputUri).ConversionFailed?
    || WriteOutput in faults || SaveSucceeded in faults
  }

  /** The `try` block ends with an exception exactly when one of its operations
      raises or the converter fails. */
  lemma AttemptFailsIff(rec: JobRecord, outputPath: string, convert: string -> Conversion,
                        faults: map<IoStep, string>, startedAt: string, completedAt: string)
    ensures TryProcess(Some(rec), outputPath, convert, faults, startedAt, completedAt).error.Some?
            <==> AttemptFails(rec, convert, faults)
  {
  }

  /** A successful step saves the record twice: first as running with `started_at`
      set, then as succeeded with progress 100, the output path and
      `completed_at == updated_at`; it writes the converter's text to the output. */
  lemma ProcessJobSucceeds(rec: JobRecord, outputPath: string, convert: string -> Conversion,
                           faults: map<IoStep, string>, startedAt: string, completedAt: string, failedAt: string)
    requires !AttemptFails(rec, convert, faults)
    ensures var run := ProcessJob(Some(rec), outputPath, convert, faults, startedAt, completedAt, failedAt);
      && |run.saves| == 2
      && run.saves[0].status == Running && run.saves[0].startedAt == Some(startedAt)
      && run.saves[0].updatedAt == startedAt && run.saves[0].progress == rec.progress
      && run.saves[1].status == Succeeded && run.saves[1].progress == 100
      && run.saves[1].outputUri == Some(outputPath) && run.saves[1].startedAt == Some(startedAt)
      && run.saves[1].completedAt == Some(run.saves[1].updatedAt) && run.saves[1].updatedAt == completedAt
      && run.saves[1].error == rec.error && run.saves[1].failedAt == rec.failedAt
      && SameIdentity(run.saves[0], rec) && SameIdentity(run.saves[1], rec)
      && run.output == Some(convert(rec.inputUri).markdown)
  {
  }

  /** A failed `try` block followed by a working reload and save ends with the record
      saved as failed: error set, `failed_at == updated_at`, and every other field as
      last persisted, including progress and output URI. */
  lemma ProcessJobRecordsFailure(rec: JobRecord, outputPath: string, convert: string -> Conversion,
                                 faults: map<IoStep, string>, startedAt: string, completedAt: string, failedAt: string)
    requires AttemptFails(rec, convert, faults)
    requires Reload !in faults && SaveFailed !in faults
    ensures var run := ProcessJob(Some(rec), outputPath, convert, faults, startedAt, completedAt, failedAt);
      var last := run.saves[|run.saves| - 1];
      && 1 <= |run.saves| <= 2
      && last.status == Failed && last.error.Some?
      && last.failedAt == Some(failedAt) && last.updatedAt == failedAt
      && last.progress == rec.progress && last.outputUri == rec.outputUri
      && last.completedAt == rec.completedAt && SameIdentity(last, rec)
      && (|run.saves| == 2 <==> !(Load in faults || SaveRunning in faults))
  {
    AttemptFailsIff(rec, outputPath, convert, faults, startedAt, completedAt);
  }

  /** A converter failure with no I/O fault: running, then failed with the
      converter's message. */
  lemma ConversionFailureRecorded(rec: JobRecord, outputPath: string, convert: string -> Conversion,
                                  startedAt: string, completedAt: string, failedAt: string)
    requires convert(rec.inputUri).ConversionFailed?
    ensures var run := ProcessJob(Some(rec), outputPath, convert, map[], startedAt, completedAt, failedAt);
      && |run.saves| == 2 && run.output == None
      && run.saves[0].status == Running
      && run.saves[1].status == Failed && run.saves[1].error == Some(convert(rec.inputUri).message)
      && run.saves[1].startedAt == Some(startedAt)
  {
  }

  /** When the failure handler's own reload or save raises, nothing marks the job
      failed: the step ends quietly with what the `try` block saved. */
  lemma FailureHandlerErrorsSwallowed(rec: JobRecord, outputPath: string, convert: string -> Conversion,
                                      faults: map<IoStep, string>, startedAt: string, completedAt: string, failedAt: string)
    requires Reload in faults || SaveFailed in faults
    ensures var run := ProcessJob(Some(rec), outputPath, convert, faults, startedAt, completedAt, failedAt);
      forall i :: 0 <= i < |run.saves| ==> run.saves[i].status != Failed
  {
  }

  /** A job whose record is gone is abandoned: nothing is saved or written. */
  lemma MissingJobAbandoned(outputPath: string, convert: string -> Conversion,
                            faults: map<IoStep, string>, startedAt: string, completedAt: string, failedAt: string)
    ensures ProcessJob(None, outputPath, convert, faults, startedAt, completedAt, failedAt) == JobRun([], None)
  {
  }

  /** Unless the failure handler itself fails, a step leaves the job in a terminal
      state. */
  lemma ProcessJobTerminates(rec: JobRecord, outputPath: string, convert: string -> Conversion,
                             faults: map<IoStep, string>, startedAt: string, completedAt: string, failedAt: string)
    requires Reload !in faults && SaveFailed !in faults
    ensures var run := ProcessJob(Some(rec), outputPath, convert, faults, startedAt, completedAt, failedAt);
      |run.saves| > 0 && run.saves[|run.saves| - 1].status.IsTerminal()
  {
  }

  /** Starting from a queued record, every save of a step is an allowed transition,
      keeps the record's identity, input and digest, and keeps the record
      well-formed. */
  lemma ProcessJobPreservesRecord(rec: JobRecord, outputPath: string, convert: string -> Conversion,
                                  faults: map<IoStep, string>, startedAt: string, completedAt: string, failedAt: string)
    requires rec.status == Queued && WellFormed(rec)
    ensures var run := ProcessJob(Some(rec), outputPath, convert, faults, startedAt, completedAt, failedAt);
      && TransitionChain(Queued, run.saves)
      && (forall i :: 0 <= i < |run.saves| ==> SameIdentity(run.saves[i], rec) && WellFormed(run.saves[i]))
  {
    var a := TryProcess(Some(rec), outputPath, convert, faults, startedAt, completedAt);
    var run := ProcessJob(Some(rec), outputPath, convert, faults, startedAt, completedAt, failedAt);
    var running := MarkRunning(rec, startedAt);
    var done := MarkSucceeded(running, outputPath, completedAt);
    TryProcessSaves(rec, outputPath, convert, faults, startedAt, completedAt);
    assert WellFormed(running) && SameIdentity(running, rec);
    assert WellFormed(done) && SameIdentity(done, rec);
    if a.error.None? || Reload in faults || SaveFailed in faults {
      assert run.saves == a.saves;
    } else {
      var current := if a.saves == [] then rec else running;
      var failed := MarkFailed(current, a.error.value, failedAt);
      assert run.saves == a.saves + [failed];
      assert WellFormed(failed) && SameIdentity(failed, rec);
    }
  }

  /** The `try` block saves the running record, then the succeeded one, stopping
      at the first exception; it raises exactly when it did not save both. */
  lemma TryProcessSaves(rec: JobRecord, outputPath: string, convert: string -> Conversion,
                        faults: map<IoStep, string>, startedAt: string, completedAt: string)
    ensures var a := TryProcess(Some(rec), outputPath, convert, faults, startedAt, completedAt);
      var running := MarkRunning(rec, startedAt);
      && (a.saves == [] || a.saves == [running] || a.saves == [running, MarkSucceeded(running, outputPath, completedAt)])
      && (a.error.None? <==> |a.saves| == 2)
  {
  }

  // ---------------------------------------------------------------------------
  // The service object

  /** What the service did, in order: records persisted, ids enqueued, ids dequeued
      and `task_done` calls. */
  datatype Event = Saved(record: JobRecord) | Enqueued(id: string) | Dequeued(id: string) | Acknowledged(id: string)

  /** One `Saved` event per saved record, in order. */
  function SavedEvents(saves: seq<JobRecord>): seq<Event> {
    if saves == [] then [] else [Saved(saves[0])] + SavedEvents(saves[1..])
  }

  /** Between worker steps: every queued id is distinct, has a stored record, and
      that record is still queued; the queue's unfinished count is its length; every
      stored record is well-formed. */
  ghost predicate QueueInvariant(items: seq<string>, unfinished: nat, jobs: map<string, JobRecord>) {
    && unfinished == |items|
    && (forall i, j :: 0 <= i < j < |items| ==> items[i] != items[j])
    && (forall i :: 0 <= i < |items| ==> items[i] in jobs && jobs[items[i]].status == Queued)
    && (forall id :: id in jobs ==> WellFormed(jobs[id]))
  }

  /** Persisting a fresh queued record and then enqueueing its id keeps the invariant. */
  lemma EnqueueKeepsInvariant(items: seq<string>, unfinished: nat, jobs: map<string, JobRecord>, job: JobRecord)
    requires QueueInvariant(items, unfinished, jobs)
    requires job.id !in jobs && job.status == Queued && WellFormed(job)
    ensures QueueInvariant(items + [job.id], unfinished + 1, jobs[job.id := job])
  {
    var items' := items + [job.id];
    forall i, j | 0 <= i < j < |items'| ensures items'[i] != items'[j] {
      if j == |items| {
        assert items[i] in jobs;
      }
    }
  }

  /** Taking the head off the queue, acknowledging it and replacing its record by a
      well-formed one keeps the invariant. */
  lemma DequeueKeepsInvariant(items: seq<string>, unfinished: nat, jobs: map<string, JobRecord>,
                              jobs': map<string, JobRecord>)
    requires QueueInvariant(items, unfinished, jobs) && items != []
    requires jobs'.Keys == jobs.Keys
    requires forall id :: id in jobs && id != items[0] ==> jobs'[id] == jobs[id]
    requires WellFormed(jobs'[items[0]])
    ensures QueueInvariant(items[1..], unfinished - 1, jobs')
  {
    var rest := items[1..];
    forall i | 0 <= i < |rest| ensures rest[i] in jobs' && jobs'[rest[i]].status == Queued {
      assert rest[i] == items[i + 1] != items[0];
    }
  }

  /** One worker step on the store, as values: the head's record is replaced by the
      last record `ProcessJob` saves, the invariant holds for the rest of the queue,
      no other record changes, and the head ends terminal when the failure handler
      works. */
  lemma StepKeepsInvariant(items: seq<string>, unfinished: nat, jobs: map<string, JobRecord>, outputPath: string,
                           convert: string -> Conversion, faults: map<IoStep, string>,
                           startedAt: string, completedAt: string, failedAt: string)
    requires QueueInvariant(items, unfinished, jobs) && items != []
    ensures var id := items[0];
      var run := ProcessJob(Lookup(jobs, id), outputPath, convert, faults, startedAt, completedAt, failedAt);
      var jobs' := if run.saves == [] then jobs else jobs[id := run.saves[|run.saves| - 1]];
      && id in jobs && jobs[id].status == Queued
      && QueueInvariant(items[1..], unfinished - 1, jobs')
      && jobs'.Keys == jobs.Keys
      && (forall k :: k in jobs && k != id ==> jobs'[k] == jobs[k])
      && (Reload !in faults && SaveFailed !in faults ==> jobs'[id].status.IsTerminal())
  {
    var id := items[0];
    var rec := jobs[id];
    var run := ProcessJob(Some(rec), outputPath, convert, faults, startedAt, completedAt, failedAt);
    var jobs' := if run.saves == [] then jobs else jobs[id := run.saves[|run.saves| - 1]];
    ProcessJobPreservesRecord(rec, outputPath, convert, faults, startedAt, completedAt, failedAt);
    if Reload !in faults && SaveFailed !in faults {
      ProcessJobTerminates(rec, outputPath, convert, faults, startedAt, completedAt, failedAt);
    }
    DequeueKeepsInvariant(items, unfinished, jobs, jobs');
  }

  /** `ProcessJob` seen from the store after the `try` block: the `except` block
      marks failed the record the `try` block left behind, when there is one and
      neither the reload nor the save raises. */
  lemma ProcessJobAfterAttempt(jobs: map<string, JobRecord>, id: string, outputPath: string,
                               convert: string -> Conversion, faults: map<IoStep, string>,
                               startedAt: string, completedAt: string, failedAt: string)
    ensures var a := TryProcess(Lookup(jobs, id), outputPath, convert, faults, startedAt, completedAt);
      var jobs' := if a.saves == [] then jobs else jobs[id := a.saves[|a.saves| - 1]];
      var run := ProcessJob(Lookup(jobs, id), outputPath, convert, faults, startedAt, completedAt, failedAt);
      && run.output == a.output
      && (id in jobs' <==> id in jobs)
      && (a.error.Some? && id in jobs' && Reload !in faults && SaveFailed !in faults ==>
            run.saves == a.saves + [MarkFailed(jobs'[id], a.error.value, failedAt)])
      && (a.error.None? || id !in jobs' || Reload in faults || SaveFailed in faults ==> run.saves == a.saves)
  {
    var a := TryProcess(Lookup(jobs, id), outputPath, convert, faults, startedAt, completedAt);
    assert a.saves != [] ==> id in jobs;
  }

  /** `str(job.data.get("access_token_hash", ""))`: the stored digest, or the empty
      string for a record without one. */
  function StoredDigest(job: JobRecord): string {
    if job.accessTokenHash.Some? then job.accessTokenHash.value else ""
  }

  /** The record `create_job_from_upload` writes for a new job: queued at `now`
      with progress 0, no start, completion, failure, error or output, the upload's
      size and checksum, the input path and the token digest. */
  predicate NewQueuedRecord(job: JobRecord, jobId: string, filename: string, contentType: string,
                            upload: seq<byte>, inputPath: string, now: string, checksum: string,
                            tokenHash: Option<string>)
  {
    && job.id == jobId && job.filename == OriginalName(filename)
    && job.contentType == (if contentType == [] then DefaultContentType else contentType)
    && job.sizeBytes == |upload|
    && job.createdAt == now && job.updatedAt == now
    && job.startedAt == None && job.completedAt == None && job.failedAt == None
    && job.status == Queued && job.progress == 0 && job.error == None
    && job.inputUri == inputPath && job.outputUri == None
    && job.artifacts == []
    && job.checksum == checksum
    && job.accessTokenHash == tokenHash
  }

  class ConversionService {
    const storage: LocalStorage
    const queue: AsyncQueue
    const crypto: Crypto
    /** Uploaded inputs, by path. */
    var inputFiles: map<string, seq<byte>>
    /** Written `result.md` files, by path. */
    var outputFiles: map<string, string>
    /** A summary of the visible effects, in the order the source performs them.
        A worker step appends its events in one block after the step, so the trace
        records that order rather than observing it; the queue's unfinished count
        is what the model tracks step by step. */
    ghost var trace: seq<Event>

    /** The service invariant: the store files every record under its own id and
        the queue, store and unfinished count agree (`QueueInvariant`). */
    ghost predicate Valid()
      reads storage, queue
    {
      storage.Valid() && QueueInvariant(queue.items, queue.unfinished, storage.jobs)
    }

    constructor (s: LocalStorage, c: Crypto)
      requires s.Valid() && forall id :: id in s.jobs ==> WellFormed(s.jobs[id])
      ensures storage == s && crypto == c && fresh(queue)
      ensures queue.items == [] && inputFiles == map[] && outputFiles == map[] && trace == []
      ensures Valid()
    {
      storage := s;
      crypto := c;
      queue := new AsyncQueue();
      inputFiles := map[];
      outputFiles := map[];
      trace := [];
    }

    /** `<data dir>/jobs/<id>/input/<stored name>`. */
    function InputPath(jobId: string, filename: string): string {
      storage.JobDir(jobId) + "/input/" + StoredInputName(filename)
    }

    /** `<data dir>/jobs/<id>/output/result.md`. */
    function OutputPath(jobId: string): string {
      storage.JobDir(jobId) + "/output/result.md"
    }

    /** `create_job_from_upload` for a fresh `jobId` and token bytes `rawToken`, at
        time `now`, where `open` is how opening the input file ends. Either the open
        raises, and that exception propagates with nothing written, saved or
        enqueued; or the upload exceeds the limit, the partial file is removed and
        nothing is saved or enqueued; or a queued record is persisted, then its id is
        enqueued once, and the record is returned with the token. */
    method CreateJobFromUpload(filename: string, contentType: string, chunks: seq<seq<byte>>, open: OpenOutcome,
                               maxUploadMb: int, jobId: string, rawToken: seq<byte>, now: string)
      returns (r: Result<(JobRecord, string), Raised>)
      requires Valid() && jobId !in storage.jobs && |rawToken| == TokenBytes
      requires OpenConsistent(InputPath(jobId, filename), open)
      modifies this`inputFiles, this`trace, storage, queue
      ensures Valid()
      ensures r.Ok? <==> open.Opened? && (UploadBytes(chunks) == [] || |UploadBytes(chunks)| <= maxUploadMb * MiB)
      ensures r.Err? ==>
                && storage.jobs == old(storage.jobs)
                && queue.items == old(queue.items) && queue.unfinished == old(queue.unfinished)
                && trace == old(trace)
      ensures open.OpenFailed? ==> r == Err(open.raised) && inputFiles == old(inputFiles)
      ensures open.Opened? && r.Err? ==>
                && r.error == ValueError("upload exceeds " + IntToString(maxUploadMb) + " MB")
                && inputFiles == old(inputFiles) - {InputPath(jobId, filename)}
      ensures r.Ok? ==>
                var job := r.value.0;
                var upload := UploadBytes(chunks);
                && r.value.1 == NewToken(rawToken)
                && NewQueuedRecord(job, jobId, filename, contentType, upload, InputPath(jobId, filename), now,
                                   HexDigest(crypto.sha256(upload)), HashToken(crypto, r.value.1))
                && storage.jobs == old(storage.jobs)[jobId := job]
                && inputFiles == old(inputFiles)[job.inputUri := upload]
                && queue.items == old(queue.items) + [jobId]
                && queue.unfinished == old(queue.unfinished) + 1
                && trace == old(trace) + [Saved(job), Enqueued(jobId)]
    {
      var token := NewToken(rawToken);
      var inputPath := InputPath(jobId, filename);
      var stored := StoreUpload(inputPath, open, chunks, maxUploadMb * MiB);
      if stored.Err? {
        r := Err(stored.error);
        return;
      }
      if stored.value.TooLarge? {
        r := Err(ValueError("upload exceeds " + IntToString(maxUploadMb) + " MB"));
        return;
      }
      var job := RegisterUpload(filename, contentType, stored.value.hashed, inputPath, jobId, token, now);
      r := Ok((job, token));
    }

    /** The end of `create_job_from_upload` once the upload is stored: build the
        queued record, write it, then put its id on the queue. */
    method RegisterUpload(filename: string, contentType: string, upload: seq<byte>, inputPath: string,
                          jobId: string, token: string, now: string)
      returns (job: JobRecord)
      requires Valid() && jobId !in storage.jobs
      modifies this`trace, storage, queue
      ensures Valid()
      ensures NewQueuedRecord(job, jobId, filename, contentType, upload, inputPath, now,
                              HexDigest(crypto.sha256(upload)), HashToken(crypto, token))
      ensures storage.jobs == old(storage.jobs)[jobId := job]
      ensures queue.items == old(queue.items) + [jobId] && queue.unfinished == old(queue.unfinished) + 1
      ensures trace == old(trace) + [Saved(job), Enqueued(jobId)]
    {
      job := JobRecord(
        id := jobId,
        filename := OriginalName(filename),
        contentType := if contentType == [] then DefaultContentType else contentType,
        sizeBytes := |upload|,
        createdAt := now,
        updatedAt := now,
        startedAt := None,
        completedAt := None,
        failedAt := None,
        status := Queued,
        progress := 0,
        error := None,
        inputUri := inputPath,
        outputUri := None,
        artifacts := [],
        checksum := HexDigest(crypto.sha256(upload)),
        accessTokenHash := HashToken(crypto, token));
      PersistAndEnqueue(job);
    }

    /** Open `inputPath` and write the upload to it chunk by chunk; a failing open
        raises before anything is read, and an oversized upload's partial file is
        removed. */
    method StoreUpload(inputPath: string, open: OpenOutcome, chunks: seq<seq<byte>>, maxBytes: int)
      returns (r: Result<Ingested, Raised>)
      modifies this`inputFiles
      ensures open.OpenFailed? ==> r == Err(open.raised) && inputFiles == old(inputFiles)
      ensures open.Opened? ==> r.Ok?
      ensures r.Ok? ==> (r.value.Stored? <==> UploadBytes(chunks) == [] || |UploadBytes(chunks)| <= maxBytes)
      ensures r.Ok? && r.value.Stored? ==>
                && r.value.written == UploadBytes(chunks) && r.value.hashed == r.value.written
                && r.value.size == |r.value.written|
                && inputFiles == old(inputFiles)[inputPath := r.value.written]
      ensures r.Ok? && r.value.TooLarge? ==> inputFiles == old(inputFiles) - {inputPath}
    {
      if open.OpenFailed? {
        return Err(open.raised);
      }
      var ingested := Ingest(chunks, maxBytes);
      if ingested.TooLarge? {
        inputFiles := inputFiles - {inputPath};
      } else {
        inputFiles := inputFiles[inputPath := ingested.written];
      }
      r := Ok(ingested);
    }

    /** Write a new queued record, then put its id on the queue. */
    method PersistAndEnqueue(job: JobRecord)
      requires Valid() && job.id !in storage.jobs && job.status == Queued && WellFormed(job)
      modifies this`trace, storage, queue
      ensures Valid()
      ensures inputFiles == old(inputFiles) && outputFiles == old(outputFiles)
      ensures storage.jobs == old(storage.jobs)[job.id := job]
      ensures queue.items == old(queue.items) + [job.id] && queue.unfinished == old(queue.unfinished) + 1
      ensures trace == old(trace) + [Saved(job), Enqueued(job.id)]
    {
      EnqueueKeepsInvariant(queue.items, queue.unfinished, storage.jobs, job);
      var _ := storage.SaveJob(job, None);
      trace := trace + [Saved(job)];
      queue.Put(job.id);
      trace := trace + [Enqueued(job.id)];
    }

    /** `verify_token`: the presented token checked against the record's stored
        digest (the empty string when the record has none). */
    function VerifyToken(job: JobRecord, token: string): (ok: bool)
      ensures B64UrlToBytes(token).None? ==> !ok
      ensures job.accessTokenHash.Some? && job.accessTokenHash == HashToken(crypto, token) ==> ok
      ensures !(Argon2Prefix <= StoredDigest(job)) ==> (ok <==> HashToken(crypto, token) == Some(StoredDigest(job)))
      ensures Argon2Prefix <= StoredDigest(job) ==>
                ok == (B64UrlToBytes(token).Some? && crypto.argon2VerifySecret(StoredDigest(job), B64UrlToBytes(token).value))
    {
      var phc := StoredDigest(job);
      if job.accessTokenHash.Some? && job.accessTokenHash == HashToken(crypto, token) then
        VerifyHashToken(crypto, token);
        Verify(crypto, phc, token)
      else
        Verify(crypto, phc, token)
    }

    /** The `try` block of a worker step for job `id`: load, save as running, make
        the output directory, convert, write `result.md`, save as succeeded. It
        stops at the first operation that raises and returns that message. */
    method RunAttempt(id: string, convert: string -> Conversion, faults: map<IoStep, string>,
                      startedAt: string, completedAt: string)
      returns (error: Option<string>, ghost saves: seq<JobRecord>)
      requires storage.Valid()
      modifies this`outputFiles, storage
      ensures storage.Valid()
      ensures var a := TryProcess(Lookup(old(storage.jobs), id), OutputPath(id), convert, faults, startedAt, completedAt);
        && saves == a.saves && error == a.error
        && storage.jobs == (if saves == [] then old(storage.jobs) else old(storage.jobs)[id := saves[|saves| - 1]])
        && outputFiles == (if a.output.Some? then old(outputFiles)[OutputPath(id) := a.output.value] else old(outputFiles))
    {
      saves := [];
      error := None;
      var loaded := storage.LoadJob(id, Fault(faults, Load));
      if loaded.Err? {
        error := Some(loaded.error);
        return;
      }
      var job := MarkRunning(loaded.value, startedAt);
      var e := storage.SaveJob(job, Fault(faults, SaveRunning));
      if e.Some? {
        error := e;
        return;
      }
      saves := [job];
      if MakeOutputDir in faults {
        error := Some(faults[MakeOutputDir]);
        return;
      }
      var outcome := convert(job.inputUri);
      if outcome.ConversionFailed? {
        error := Some(outcome.message);
        return;
      }
      if WriteOutput in faults {
        error := Some(faults[WriteOutput]);
        return;
      }
      outputFiles := outputFiles[OutputPath(id) := outcome.markdown];
      job := MarkSucceeded(job, OutputPath(id), completedAt);
      e := storage.SaveJob(job, Fault(faults, SaveSucceeded));
      if e.Some? {
        error := e;
        return;
      }
      saves := saves + [job];
    }

    /** The `except` block: reload the record and save it as failed with `message`;
        a raising reload or save is swallowed. */
    method RecordFailure(id: string, message: string, faults: map<IoStep, string>, failedAt: string)
      returns (ghost saved: Option<JobRecord>)
      requires storage.Valid()
      modifies storage
      ensures storage.Valid()
      ensures saved.Some? <==> id in old(storage.jobs) && Reload !in faults && SaveFailed !in faults
      ensures saved.Some? ==> saved.value == MarkFailed(old(storage.jobs)[id], message, failedAt)
                              && storage.jobs == old(storage.jobs)[id := saved.value]
      ensures saved.None? ==> storage.jobs == old(storage.jobs)
    {
      saved := None;
      var reloaded := storage.LoadJob(id, Fault(faults, Reload));
      if reloaded.Ok? {
        var failed := MarkFailed(reloaded.value, message, failedAt);
        var e := storage.SaveJob(failed, Fault(faults, SaveFailed));
        if e.None? {
          saved := Some(failed);
        }
      }
    }

    /** The body of a worker step for a dequeued `id`: the `try` block, then the
        `except` block when the `try` block raised. */
    method ProcessDequeued(id: string, convert: string -> Conversion, faults: map<IoStep, string>,
                           startedAt: string, completedAt: string, failedAt: string)
      returns (ghost saves: seq<JobRecord>)
      requires storage.Valid()
      modifies this`outputFiles, storage
      ensures storage.Valid()
      ensures inputFiles == old(inputFiles) && trace == old(trace)
      ensures queue.items == old(queue.items) && queue.unfinished == old(queue.unfinished)
      ensures var run := ProcessJob(Lookup(old(storage.jobs), id), OutputPath(id), convert, faults,
                                    startedAt, completedAt, failedAt);
        && saves == run.saves
        && storage.jobs == (if saves == [] then old(storage.jobs) else old(storage.jobs)[id := saves[|saves| - 1]])
        && outputFiles == (if run.output.Some? then old(outputFiles)[OutputPath(id) := run.output.value] else old(outputFiles))
    {
      ghost var jobs0 := storage.jobs;
      ProcessJobAfterAttempt(jobs0, id, OutputPath(id), convert, faults, startedAt, completedAt, failedAt);
      var error;
      error, saves := RunAttempt(id, convert, faults, startedAt, completedAt);
      if error.Some? {
        ghost var tried := saves;
        var saved := RecordFailure(id, error.value, faults, failedAt);
        if saved.Some? {
          saves := saves + [saved.value];
          if tried != [] {
            assert jobs0[id := tried[|tried| - 1]][id := saved.value] == jobs0[id := saved.value];
          }
        }
      }
    }

    /** The work of one iteration of `_worker_loop`: dequeue the head, run the job,
        then `task_done`. */
    method TakeAndProcess(convert: string -> Conversion, faults: map<IoStep, string>,
                          startedAt: string, completedAt: string, failedAt: string)
      returns (id: string, ghost saves: seq<JobRecord>)
      requires Valid() && queue.items != []
      modifies this`outputFiles, storage, queue
      ensures Valid()
      ensures id == old(queue.items[0]) && queue.items == old(queue.items[1..]) && queue.unfinished == old(queue.unfinished) - 1
      ensures var run := ProcessJob(Lookup(old(storage.jobs), id), OutputPath(id), convert, faults,
                                    startedAt, completedAt, failedAt);
        && saves == run.saves
        && storage.jobs == (if saves == [] then old(storage.jobs) else old(storage.jobs)[id := saves[|saves| - 1]])
        && outputFiles == (if run.output.Some? then old(outputFiles)[OutputPath(id) := run.output.value] else old(outputFiles))
    {
      StepKeepsInvariant(queue.items, queue.unfinished, storage.jobs, OutputPath(queue.items[0]), convert, faults,
                         startedAt, completedAt, failedAt);
      id := queue.Get();
      saves := ProcessDequeued(id, convert, faults, startedAt, completedAt, failedAt);
      var _ := queue.TaskDone();
    }

    /** One iteration of `_worker_loop` on a non-empty queue: dequeue the head, run
        the job (timestamps `startedAt`, `completedAt`, `failedAt`; the converter
        `convert`; the raising operations in `faults`), then `task_done`. */
    method WorkerStep(convert: string -> Conversion, faults: map<IoStep, string>,
                      startedAt: string, completedAt: string, failedAt: string)
      returns (id: string)
      requires Valid() && queue.items != []
      modifies this, storage, queue
      ensures Valid()
      ensures id == old(queue.items[0]) && queue.items == old(queue.items[1..]) && queue.unfinished == old(queue.unfinished) - 1
      ensures inputFiles == old(inputFiles)
      ensures var run := ProcessJob(Lookup(old(storage.jobs), id), OutputPath(id), convert, faults,
                                    startedAt, completedAt, failedAt);
        && storage.jobs == (if run.saves == [] then old(storage.jobs) else old(storage.jobs)[id := run.saves[|run.saves| - 1]])
        && outputFiles == (if run.output.Some? then old(outputFiles)[OutputPath(id) := run.output.value] else old(outputFiles))
        && trace == old(trace) + [Dequeued(id)] + SavedEvents(run.saves) + [Acknowledged(id)]
    {
      ghost var saves;
      id, saves := TakeAndProcess(convert, faults, startedAt, completedAt, failedAt);
      trace := trace + [Dequeued(id)] + SavedEvents(saves) + [Acknowledged(id)];
    }

    /** A worker step seen from the loop: the head is served, its record may change,
        and no other record does. */
    method ServeHead(convert: string -> Conversion, faults: map<IoStep, string>, now: string)
      returns (id: string)
      requires Valid() && queue.items != []
      modifies this, storage, queue
      ensures Valid()
      ensures id == old(queue.items[0]) && queue.items == old(queue.items[1..])
      ensures id in storage.jobs && storage.jobs.Keys == old(storage.jobs).Keys
      ensures forall k :: k in old(storage.jobs) && k != id ==> storage.jobs[k] == old(storage.jobs)[k]
      ensures Reload !in faults && SaveFailed !in faults ==> storage.jobs[id].status.IsTerminal()
    {
      StepKeepsInvariant(queue.items, queue.unfinished, storage.jobs, OutputPath(queue.items[0]), convert, faults,
                         now, now, now);
      id := WorkerStep(convert, faults, now, now, now);
    }

    /** `_worker_loop` run until the queue is drained, with the same clock reading
        `now` for every timestamp and `faults(id)` naming the raising operations of
        job `id`. Every queued job is taken in turn and acknowledged; no other record
        changes; and each job whose failure handler works ends terminal. */
    method WorkerLoop(convert: string -> Conversion, faults: string -> map<IoStep, string>, now: string)
      requires Valid()
      modifies this, storage, queue
      ensures Valid() && queue.items == [] && queue.unfinished == 0
      ensures storage.jobs.Keys == old(storage.jobs).Keys
      ensures forall id :: id in old(storage.jobs) && id !in old(queue.items) ==> storage.jobs[id] == old(storage.jobs[id])
      ensures forall id :: id in old(queue.items) && Reload !in faults(id) && SaveFailed !in faults(id) ==>
                storage.jobs[id].status.IsTerminal()
    {
      ghost var jobs0 := storage.jobs;
      ghost var items0 := queue.items;
      ghost var processed: seq<string> := [];
      while queue.items != []
        invariant Valid()
        invariant items0 == processed + queue.items
        invariant storage.jobs.Keys == jobs0.Keys
        invariant forall id :: id in jobs0 && id !in processed ==> storage.jobs[id] == jobs0[id]
        invariant forall id :: id in processed && Reload !in faults(id) && SaveFailed !in faults(id) ==>
                    id in storage.jobs && storage.jobs[id].status.IsTerminal()
        decreases |queue.items|
      {
        var head := queue.items[0];
        ghost var rest := queue.items;
        ghost var before := storage.jobs;
        HeadNotProcessed(items0, processed, rest);
        var id := ServeHead(convert, faults(head), now);
        SplitHead(processed, rest);
        ServedFrame(jobs0, before, storage.jobs, processed, id, faults);
        processed := processed + [id];
      }
    }
  }

  /** Ids are taken from a queue without repeats, so the head was not taken before. */
  lemma HeadNotProcessed(items0: seq<string>, processed: seq<string>, rest: seq<string>)
    requires items0 == processed + rest && rest != []
    requires forall i, j :: 0 <= i < j < |items0| ==> items0[i] != items0[j]
    ensures rest[0] !in processed
  {
    assert items0[|processed|] == rest[0];
    forall k | 0 <= k < |processed| ensures processed[k] != rest[0] {
      assert items0[k] == processed[k];
    }
  }

  /** Serving `id` changes no record but its own, so what the loop knows about the
      records it has not taken, and about those it has, carries over. */
  lemma ServedFrame(jobs0: map<string, JobRecord>, before: map<string, JobRecord>, after: map<string, JobRecord>,
                    processed: seq<string>, id: string, faults: string -> map<IoStep, string>)
    requires before.Keys == jobs0.Keys && after.Keys == before.Keys
    requires forall k :: k in jobs0 && k !in processed ==> before[k] == jobs0[k]
    requires forall k :: k in processed && Reload !in faults(k) && SaveFailed !in faults(k) ==>
               k in before && before[k].status.IsTerminal()
    requires forall k :: k in before && k != id ==> after[k] == before[k]
    requires id in after && (Reload !in faults(id) && SaveFailed !in faults(id) ==> after[id].status.IsTerminal())
    ensures forall k :: k in jobs0 && k !in processed + [id] ==> after[k] == jobs0[k]
    ensures forall k :: k in processed + [id] && Reload !in faults(k) && SaveFailed !in faults(k) ==>
              k in after && after[k].status.IsTerminal()
  {
    forall k | k in processed + [id] && Reload !in faults(k) && SaveFailed !in faults(k)
      ensures k in after && after[k].status.IsTerminal()
    {
      if k != id {
        assert k in processed;
      }
    }
  }

  /** Moving the head of `rest` to the end of `done` keeps their concatenation; a
      local step of `WorkerLoop`'s invariant. */
  lemma SplitHead<T>(done: seq<T>, rest: seq<T>)
    requires rest != []
    ensures done + rest == (done + [rest[0]]) + rest[1..]
  {
    assert rest == [rest[0]] + rest[1..];
  }

  /** The token returned with a new job opens that job. */
  lemma IssuedTokenOpensJob(svc: ConversionService, job: JobRecord, rawToken: seq<byte>)
    requires |rawToken| == TokenBytes
    requires job.accessTokenHash == HashToken(svc.crypto, NewToken(rawToken))
    ensures svc.VerifyToken(job, NewToken(rawToken))
  {
    IssuedTokenVerifies(svc.crypto, rawToken);
  }
}
