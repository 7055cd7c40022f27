# doc_service conversion core in Dafny

This project models the job-orchestration core of `doc_service`, an HTTP service that
turns uploaded office documents into Markdown. A client uploads a document. The service
stores the document, records a `queued` job and hands back a one-time capability token.
Background workers take job ids off a FIFO queue and move each job through
`queued → running → succeeded | failed`. The holder of the token can read the job's
status and, once the job has succeeded, its Markdown.

Modules, in dependency order:

- `Wrappers` (`wrappers.dfy`): `Option` and `Result`. They stand in for Python's `None` and for raised exceptions.
- `PyText` (`pytext.dfy`): the Python string operations the core's decisions depend on. These are `lower`, `strip`, `rstrip`, `partition`, `rsplit`, POSIX `os.path.splitext`, `str(int)` and `hexdigest`.
- `Base64Url` (`base64url.dfy`): the base64url alphabet of section 5 of RFC 4648.
  - `urlsafe_b64encode`, then `rstrip("=")`.
  - Re-padding with `-len % 4` `=` characters.
  - `urlsafe_b64decode`, modelled as CPython's non-strict decoder: it skips characters outside the alphabet, stops at a complete padding, and rejects a dangling character or non-ASCII text.
  - The round trip is proved: decoding the re-padded unpadded encoding gives back the bytes.
- `Security` (`security.dfy`): `Argon2Security.new_token`, `hash_token` and `verify`. SHA-256 and argon2's `verify_secret` are opaque function fields of `Crypto`. Every property holds whatever those functions compute, except in `WebApi.IssuedDigestPresent`, `WebApi.IssuedTokenReadsStatus` and `WebApi.SucceededJobServesMarkdown`. Those three assume `Security.Sha256Width`: SHA-256 returns 32 bytes, so an issued token's digest is non-empty.
- `Jobs` (`jobs.dfy`): the job record, its status names, the record as a JSON dictionary, the redacted status view, the allowed status transitions and the record invariant.
- `Storage` (`storage.dfy`): `LocalStorage` as a class whose `job.json` files are a map from job id to record.
- `JobQueue` (`jobqueue.dfy`): the `put`/`get`/`task_done` part of `asyncio.Queue`, as a class holding a sequence of ids and an unfinished-task counter.
- `Service` (`service.dfy`): `ConversionService`. It covers:
  - the stored input name;
  - the chunked ingest loop, an imperative method proved against the concatenation of the chunks;
  - `create_job_from_upload`;
  - `verify_token`;
  - one worker step, as the methods that perform it and as the function `ProcessJob` that specifies it;
  - the worker loop run until the queue is empty.
- `WebApi` (`webapi.dfy`):
  - bearer-token parsing, with the token regular expression given an independent definition;
  - the debug fingerprint and headers;
  - the upload media gate;
  - the job-creation endpoint;
  - the status and result endpoints, with their fixed 401 → 404 → 423 → 403 order.

Inputs the model cannot compute are parameters:

- the job id (`uuid4`);
- the 32 token bytes (`secrets.token_bytes`);
- clock readings;
- the converter's outcome (a function from input URI to Markdown text or an error message);
- the chunks the upload reader returns;
- how opening the input file ends: it opens, or raises a `ValueError` or an `OSError` with its message;
- for each worker step, the map from each raising store or file operation to its exception message.

The stored input name keeps everything after the client name's last dot, including a `/` or a NUL. The model follows the code here rather than the "safe filename" intent stated in its comment. The consequences come from opening the input file (`input_path.open("wb")`), whose outcome is a parameter of job creation:

- For the client name `report.v2/x`, the computed name is `original.v2/x` (`Service.ExtensionMayCarrySeparator`). That path runs through a directory `original.v2` that the service never creates. The open then raises `FileNotFoundError`, so no record is saved, nothing is enqueued and `create_job` answers 500.
- A NUL after the last dot reaches the stored name (`Service.NulInExtensionReachesStoredName`). `open` then raises `ValueError("embedded null byte")`, and `create_job` turns every `ValueError` into 413 `payload_too_large`, whatever the upload's size (`WebApi.CreateJob`).

## Model

| member | source | states |
|---|---|---|
| Base64Url.Repad | src/doc_service/webapi.py:63-66 | appends `-len % 4` `=` characters: the padded length is a multiple of 4, at most 3 characters are added, all of them `=`, and the token is a prefix of the result |
| Base64Url.EncodeUnpaddedIsPrefix | src/doc_service/conversion/adapters.py:36 | `rstrip("=")` removes exactly the pad characters of the padded encoding; the unpadded text has length (4n+2)/3 and only base64url characters |
| Base64Url.RepadEncodeUnpadded | src/doc_service/conversion/adapters.py:68-71 | re-padding an unpadded encoding restores the padded encoding exactly |
| Base64Url.DecodeEncode | src/doc_service/conversion/adapters.py:71 | the non-strict decoder inverts the padded encoder for every byte string |
| Base64Url.B64UrlRoundTrip | src/doc_service/conversion/adapters.py:68-71 | `_b64url_to_bytes` of the unpadded encoding of any bytes `b` returns `b` |
| Security.NewToken | src/doc_service/conversion/adapters.py:34-36 | an issued token is 43 base64url characters and decodes back to its 32 random bytes |
| Security.HashToken | src/doc_service/conversion/adapters.py:38-47 | the digest exists exactly when the token decodes, and is base64url text |
| Security.Verify | src/doc_service/conversion/adapters.py:49-66 | an undecodable token gives false (never an error); a `$argon2` value is checked only by the legacy routine; any other value accepts exactly the tokens whose recomputed digest equals it |
| Security.DigestIsNotArgon2 | src/doc_service/conversion/adapters.py:56-64 | a digest made by `hash_token` never starts with `$argon2`, so it always takes the SHA-256 path |
| Security.VerifyHashToken | src/doc_service/conversion/adapters.py:45-64 | `verify(hash_token(t), t)` holds for every token `hash_token` accepts |
| Security.IssuedTokenVerifies | src/doc_service/conversion/adapters.py:34-47 | the digest of an issued token is the unpadded base64url SHA-256 of its raw bytes, and that digest verifies the token |
| Jobs.ToJson | src/doc_service/conversion/service.py:119-137 | a record is stored as a dictionary with exactly the seventeen keys written at creation; the status is stored by name and the digest under `access_token_hash` |
| Jobs.Redact | src/doc_service/webapi.py:280 | the view has the record's keys minus `access_token_hash`, and every other key keeps its value |
| Jobs.StatusViewOmitsDigest | src/doc_service/webapi.py:280 | the status body of any record lacks the digest and holds every other stored key with its stored value |
| Storage.LocalStorage.JobDirInjective | src/doc_service/conversion/adapters.py:13-14 | two job ids share a directory only if they are equal |
| Storage.LocalStorage.SaveJob | src/doc_service/conversion/adapters.py:16-22 | a save files the record under its own id and leaves other records alone; a failing write raises its message and leaves the map as it was |
| Storage.LocalStorage.LoadJob | src/doc_service/conversion/adapters.py:24-30 | an id never saved raises "job not found"; otherwise the stored record, which carries that id, or the read error |
| Storage.SaveThenLoad | src/doc_service/conversion/adapters.py:16-30 | after a save, a load of the same id returns the saved record, and other ids are unaffected |
| JobQueue.AsyncQueue.Put | src/doc_service/conversion/service.py:143 | appends at the tail and adds one unfinished task |
| JobQueue.AsyncQueue.Get | src/doc_service/conversion/service.py:157 | removes and returns the head (FIFO); the unfinished count is unchanged |
| JobQueue.AsyncQueue.TaskDone | src/doc_service/conversion/service.py:196-197 | removes one unfinished task; fails, as asyncio does, when none is left |
| Service.StoredInputName | src/doc_service/conversion/service.py:88-92 | the stored name is `original` exactly when the client name (an empty name becomes `upload`) has no dot; otherwise it is `original.` followed by a dot-free suffix |
| Service.StoredNameKeepsExtension | src/doc_service/conversion/service.py:88-92 | for a name `stem.ext` with a dot-free `ext`, the stored name is `original.ext` |
| Service.ExtensionMayCarrySeparator | src/doc_service/conversion/service.py:90-92 | the extension is not confined to the last path component: the name computed for `report.v2/x` is `original.v2/x` |
| Service.NulInExtensionReachesStoredName | src/doc_service/conversion/service.py:88-92 | a NUL after the client name's last dot appears in the computed input name |
| Service.UploadChunks | src/doc_service/conversion/service.py:101-104 | the upload is the chunks read before the first empty one, in order |
| Service.Ingest | src/doc_service/conversion/service.py:96-116 | accepted exactly when the upload is empty or its total length is within the limit. Then the file holds the concatenation of the chunks, the checksum is fed exactly those bytes and `size_bytes` is their count. Otherwise the file held the chunks before the one that crossed the limit, which was not written, and the reported size includes that chunk |
| Service.AttemptFailsIff | src/doc_service/conversion/service.py:158-185 | the `try` block raises exactly when the load, either save, the output directory or the write raises, or the converter fails |
| Service.ProcessJobSucceeds | src/doc_service/conversion/service.py:159-185 | a successful step first saves `running` with `started_at = updated_at`. It then saves `succeeded` with progress 100, the output path and `completed_at = updated_at`. Identity, checksum and digest are untouched, and the converter's text is written |
| Service.ProcessJobRecordsFailure | src/doc_service/conversion/service.py:186-193 | on any failure, with a working reload and save, the last save is `failed` with an error and `failed_at = updated_at`. Progress, output URI, completion time and identity stay as last persisted |
| Service.ConversionFailureRecorded | src/doc_service/conversion/service.py:171-193 | a converter failure is recorded as `failed` with the converter's message, after `running` |
| Service.FailureHandlerErrorsSwallowed | src/doc_service/conversion/service.py:187-195 | if the reload or the failed save raises, nothing is marked failed and the step still ends normally |
| Service.MissingJobAbandoned | src/doc_service/conversion/service.py:158-195 | a job whose record is gone is abandoned with nothing saved or written |
| Service.ProcessJobTerminates | src/doc_service/conversion/service.py:155-195 | unless the failure handler itself fails, the job's last saved status is terminal |
| Service.ProcessJobPreservesRecord | src/doc_service/conversion/service.py:159-193 | from a queued record, every save is an allowed transition (`queued→running`, `running→succeeded`, `running→failed`, `queued→failed`), keeps identity, input, checksum and digest, and keeps the record well-formed |
| Service.TryProcessSaves | src/doc_service/conversion/service.py:158-185 | the `try` block saves nothing, the running record, or the running then the succeeded record, in that order, and raises exactly when it did not save both |
| Service.ProcessJobAfterAttempt | src/doc_service/conversion/service.py:186-195 | the `except` block marks failed the record the `try` block left in the store, and only when a record exists and neither the reload nor the save raises; it never changes the written output |
| Service.StepKeepsInvariant | src/doc_service/conversion/service.py:155-197 | one step on the store: the head was stored and queued, only its record changes, the invariant holds for the rest of the queue, and the head ends terminal when the failure handler works |
| Service.EnqueueKeepsInvariant | src/doc_service/conversion/service.py:138-143 | persisting a fresh queued record and then enqueueing its id keeps queue ids distinct, stored and queued, and the unfinished count equal to the queue length |
| Service.DequeueKeepsInvariant | src/doc_service/conversion/service.py:157-197 | dequeuing the head, acknowledging it and replacing its record by a well-formed one keeps the same invariant |
| Service.ConversionService.CreateJobFromUpload | src/doc_service/conversion/service.py:65-145 | a failing open of the input file raises its exception, with no input file, nothing saved and nothing enqueued; a path with a NUL always raises `ValueError("embedded null byte")`. On an oversized upload, `ValueError("upload exceeds N MB")` is raised, the partial file is removed and nothing is saved or enqueued. Otherwise a new queued record is stored (`NewQueuedRecord`): progress 0, null timestamps, error and output, the SHA-256 hex checksum of the upload, and a digest equal to `hash_token` of the returned token. The record is saved, then its id is enqueued once |
| Service.ConversionService.StoreUpload | src/doc_service/conversion/service.py:92-116 | a failing open raises before anything is read and writes nothing; otherwise the input file holds the whole upload when it is within the limit, and is removed when it is not |
| Service.ConversionService.RegisterUpload | src/doc_service/conversion/service.py:117-143 | the record built from a stored upload is a new queued record with the upload's size and checksum and the token's digest; it is saved, then its id is enqueued once |
| Service.ConversionService.PersistAndEnqueue | src/doc_service/conversion/service.py:138-143 | the record is saved before its id is enqueued, exactly once each |
| Service.ConversionService.VerifyToken | src/doc_service/conversion/service.py:151-153 | the stored digest, or `""` when there is none, is checked as `verify` does. An undecodable token never passes. For a digest not starting with `$argon2`, a token passes exactly when its `hash_token` equals the digest. For an `$argon2` value, the legacy routine decides |
| Service.ConversionService.RunAttempt | src/doc_service/conversion/service.py:158-185 | the `try` block leaves the store, the outputs and the raised message as `TryProcess` gives them |
| Service.ConversionService.RecordFailure | src/doc_service/conversion/service.py:186-195 | the `except` block saves the reloaded record as failed with the message, or changes nothing when the reload or save raises |
| Service.ConversionService.ProcessDequeued | src/doc_service/conversion/service.py:158-195 | the step's store and output changes are those of `ProcessJob` |
| Service.ConversionService.TakeAndProcess | src/doc_service/conversion/service.py:157-197 | dequeues the head (FIFO), applies `ProcessJob` to the store and the outputs, and leaves one fewer unfinished task |
| Service.ConversionService.WorkerStep | src/doc_service/conversion/service.py:155-197 | dequeues the head (FIFO), runs it as `ProcessJob` says, calls `task_done` once whatever happened, and keeps the service invariant; no other record changes |
| Service.ConversionService.ServeHead | src/doc_service/conversion/service.py:155-197 | one step, as the loop sees it: only the head's record may change, and it ends terminal when the failure handler works |
| Service.ConversionService.WorkerLoop | src/doc_service/conversion/service.py:155-197 | draining the queue processes every queued id and leaves the unfinished count at zero. The set of stored ids is unchanged, and records not queued are unchanged. Each processed job whose failure handler works ends terminal |
| Service.IssuedTokenOpensJob | src/doc_service/conversion/service.py:151-153 | the token returned with a new job verifies against that job's record |
| WebApi.TokenShapeIsPattern | src/doc_service/webapi.py:151-153 | the evaluated token check agrees with the meaning of `[A-Za-z0-9_-]+={0,2}`, and its alphabet part is what `rstrip("=")` leaves |
| WebApi.ValidateBearerToken | src/doc_service/webapi.py:141-157 | every rejection is 401. "missing bearer token" is returned exactly when there is no header, no `bearer` scheme in any case, or nothing after the space. A token is accepted exactly when the stripped credential matches the pattern with a 43-character alphabet part, and that part is returned |
| WebApi.PartitionAfterScheme | src/doc_service/webapi.py:145 | a header `scheme + " " + rest` with a Bearer scheme splits into exactly that scheme and rest |
| WebApi.WellFormedCredentialAccepted | src/doc_service/webapi.py:145-157 | a 43-character credential with up to two `=`, and no surrounding whitespace, is accepted without its `=` |
| WebApi.IssuedTokenAccepted | src/doc_service/webapi.py:141-157 | an issued token, after any capitalisation of `Bearer`, with up to two `=`, is accepted and returned unpadded |
| WebApi.BearerNewTokenAccepted | src/doc_service/webapi.py:141-157 | `"Bearer " + new_token()` is accepted and returned unchanged |
| WebApi.Fingerprint | src/doc_service/webapi.py:93-95 | a token of at least 8 characters gives a 10-character fingerprint with `..` in the middle; a shorter one gives nothing |
| WebApi.FingerprintShowsOnlyEnds | src/doc_service/webapi.py:95 | the fingerprint's ends are the token's first and last four characters, and tokens sharing those ends have the same fingerprint |
| WebApi.AuthDebugHeaders | src/doc_service/webapi.py:87-108 | exactly six headers, each value fixed: `X-Auth-Debug` is `1`, then the token's length in decimal, its fingerprint, a has-digest flag that is `1` exactly when the record has a non-empty digest, the job id (empty without a job) and the data directory. Neither the token nor the digest is a value |
| WebApi.MediaGate | src/doc_service/webapi.py:206-227 | 415 exactly when the stripped, lower-cased content type is non-empty, the allowed list is non-empty, the type is not listed, and the lower-cased filename's extension is unsupported. The PPT-variant branch adds no acceptance |
| WebApi.SupportedExtensionOrNoTypePasses | src/doc_service/webapi.py:214-225 | a supported extension, or a missing content type, always passes the gate |
| WebApi.DefaultAllowedMimeGate | src/doc_service/webapi.py:25-37 | under the default allowed list, a listed type always passes; of the PPT variants only `application/octet-stream` is unlisted, and it passes exactly when the file name has a supported extension |
| WebApi.CreateJob | src/doc_service/webapi.py:196-259 | a gate rejection changes nothing: no file, record, queue entry or event. Every error leaves the store and the queue alone. 413 "payload_too_large" happens exactly when the input file opens and the upload is oversized, or the open raises a `ValueError` (a NUL in the stored name), whose message it carries. A 500 happens exactly when the open raises another `OSError`. Otherwise the 202 body carries the id, `queued`, progress 0, the issued token and the self, result and `Location` links; only the new job's record and input file are added, and its id is enqueued |
| WebApi.GetJob | src/doc_service/webapi.py:262-282 | checks run in order: header (401), unknown job (404), missing or empty digest (423), failed verify (403). A request passing all four gets the record without `access_token_hash`, with the debug headers when enabled; any body returned has every other key with its stored value |
| WebApi.GetResult | src/doc_service/webapi.py:285-308 | the same four checks in the same order, with the same codes, messages and debug headers. Then 404 "result not available" while the output URI is missing, empty or has no file; otherwise the file's text with the debug headers |
| WebApi.IssuedDigestPresent | src/doc_service/webapi.py:272 | with SHA-256's 32-byte output, the digest stored for an issued token is present and non-empty, so the 423 check never blocks it |
| WebApi.IssuedTokenReadsStatus | src/doc_service/webapi.py:262-282 | with `"Bearer " + token` for the token issued with a job, the status endpoint returns that job's redacted record |
| WebApi.SucceededJobServesMarkdown | src/doc_service/webapi.py:285-308 | after a successful worker step, the holder of the job's token reads exactly the converter's Markdown from the result endpoint |

## Left out

- WebApi.IssuedDigestPresent: assumes `Security.Sha256Width`, that SHA-256 returns 32 bytes. With an empty SHA-256 output the digest would be empty, and the status and result endpoints would answer 423.
- WebApi.IssuedTokenReadsStatus: assumes `Security.Sha256Width`, for the same reason.
- WebApi.SucceededJobServesMarkdown: assumes `Security.Sha256Width`, for the same reason.
- `DoclingConverter` is not part of this model. The converter is a function from input URI to Markdown text or an error message.
- Concurrency is not modelled:
  - `start`/`stop` spawning and cancelling several worker tasks;
  - `asyncio.to_thread`;
  - a `get` that blocks on an empty queue.
- Service.ConversionService.WorkerLoop: runs the `while True` loop one step at a time until the queue is empty, with one clock reading for every timestamp. Interleavings of several workers are not modelled.
- SHA-256, argon2's `verify_secret`, `secrets.token_bytes`, `uuid4` and `datetime.now` are opaque functions or parameters.
  - The freshness of `uuid4` is the precondition that the job id is not yet stored.
  - `hmac.compare_digest` is plain equality; its constant-time behaviour cannot be stated.
- File-system and JSON I/O are maps from path to content:
  - `mkdir` of the `input`, `output` and `artifacts` directories;
  - JSON encoding;
  - reading `result.md`.
  Stored records are typed, so a `job.json` with missing or mistyped keys is not modelled.
- Service.ConversionService.CreateJobFromUpload: whether opening the input file succeeds is a parameter, constrained only for a path with a NUL. The model does not derive from the name that a `/` after the last dot makes the open raise `FileNotFoundError`. That depends on which directories exist, and pathlib drops a trailing `/` or a `.` component, so some such names still open.
- WebApi.CreateJob: the 500 answer to an uncaught exception is the web framework's plain-text "Internal Server Error"; its exact body and headers are not modelled.
- Storage.LocalStorage.SaveJob: the write is not atomic in the source. `open("w")` truncates `job.json` before `json.dump` runs, so a failure during the dump leaves an empty or partial file, and a later `load_job` raises a JSON decoding error. The model keeps the previous record when a save fails.
- Service.ConversionService.CreateJobFromUpload: the creation path writes `job.json` directly under `DATA_DIR`, not through `LocalStorage`. The model sends that write to the same store map, as the application builds its storage on the same `DATA_DIR`. Neither that write nor the removal of an oversized partial file can fail in the model.
- Service.ConversionService.CreateJobFromUpload: the reader's chunk size (1 MiB) is not modelled. Chunks may have any length.
- Service.ConversionService.RunAttempt: a failing write of `result.md` leaves no output file in the model. The source may leave a truncated file.
- Service.ConversionService.VerifyToken: a record without a digest is checked against the empty string. This matches a missing key in the source. A JSON `null` there would be checked against the text `None`, which the model does not distinguish.
- Security.HashToken: a token that does not decode yields no digest; in the source `hash_token` raises. Only issued tokens, which always decode, are hashed.
- PyText.Lower maps only ASCII letters. The `bearer` scheme comparison is exact with it, because no non-ASCII character lowers to a letter of `bearer`. Content types and file names containing non-ASCII letters may lower differently in Python.
- Storage.LocalStorage.JobDir: pathlib's joining and normalisation is not modelled. In the source, `a`, `./a` and `a/` name the same directory, and an absolute id replaces the base. `Storage.LocalStorage.JobDirInjective` therefore holds for the source only for ids that are already normalised relative names, such as the `uuid4` strings the service generates.
- WebApi.AuthDebugHeaders: the `header_build_failed` fallback is not modelled, since nothing in the header computation raises for a stored record.
- WebApi.GetJob and WebApi.GetResult: load errors other than a missing record (HTTP 500) are not modelled.
- FastAPI routing, multipart decoding, response encoding, startup hooks, the `/health` endpoint and the `MAX_UPLOAD_MB`, `WORKERS` and `JOB_TIMEOUT_SEC` environment settings are HTTP and configuration plumbing. `ALLOWED_MIME`, `DOC_SERVICE_DEBUG_AUTH`, `DATA_DIR` and the upload limit appear as `WebApi.Config` fields.
- `_argon2_hash_token`, `_verify_token`, `_load_job`, `_save_job` and `_job_dir` in `webapi.py` are not called by any modelled path and are left out.
- `streamlit_app.py`, `main.py`, `interfaces.py` and the `__init__.py` files are not part of this model.
