/** The persisted job record, its status values and the client-facing view of it.
    The source keeps a job as a `dict` written to `job.json`; here it is a record
    with one field per key, and `ToJson` gives back the dictionary. */
module Jobs {
  import opened Wrappers

  /** `JobStatus`: the four values of the `status` key. */
  datatype JobStatus = Queued | Running | Succeeded | Failed {
    /** The string stored under `status`. */
    function Name(): string {
      match this
      case Queued => "queued"
      case Running => "running"
      case Succeeded => "succeeded"
      case Failed => "failed"
    }

    predicate IsTerminal() {
      this == Succeeded || this == Failed
    }
  }

  /** One job's `job.json`. Timestamps are ISO-8601 strings; None is JSON null.
      `accessTokenHash` is None for a stored file whose `access_token_hash` is null
      or missing; `ToJson` always writes the key. */
  datatype JobRecord = JobRecord(
    id: string,
    filename: string,
    contentType: string,
    sizeBytes: nat,
    createdAt: string,
    updatedAt: string,
    startedAt: Option<string>,
    completedAt: Option<string>,
    failedAt: Option<string>,
    status: JobStatus,
    progress: int,
    error: Option<string>,
    inputUri: string,
    outputUri: Option<string>,
    artifacts: seq<string>,
    checksum: string,
    accessTokenHash: Option<string>)

  /** The JSON values a job record holds. */
  datatype Json = JNull | JString(s: string) | JInt(i: int) | JArray(items: seq<Json>)

  /** The key under which the token digest is stored. */
  const TokenHashKey: string := "access_token_hash"

  /** The keys of a job record, as written at creation. */
  const RecordKeys: set<string> := {
    "id", "filename", "content_type", "size_bytes", "created_at", "updated_at",
    "started_at", "completed_at", "failed_at", "status", "progress", "error",
    "input_uri", "output_uri", "artifacts", "checksum", TokenHashKey }

  function OptString(o: Option<string>): Json {
    match o
    case None => JNull
    case Some(s) => JString(s)
  }

  /** The dictionary the record is stored as. */
  function ToJson(r: JobRecord): (d: map<string, Json>)
    ensures d.Keys == RecordKeys
    ensures d["id"] == JString(r.id) && d["status"] == JString(r.status.Name())
    ensures d[TokenHashKey] == OptString(r.accessTokenHash)
  {
    map[
      "filename" := JString(r.filename),
      "content_type" := JString(r.contentType),
      "size_bytes" := JInt(r.sizeBytes),
      "created_at" := JString(r.createdAt),
      "updated_at" := JString(r.updatedAt),
      "started_at" := OptString(r.startedAt),
      "completed_at" := OptString(r.completedAt),
      "failed_at" := OptString(r.failedAt),
      "progress" := JInt(r.progress),
      "error" := OptString(r.error),
      "input_uri" := JString(r.inputUri),
      "output_uri" := OptString(r.outputUri),
      "artifacts" := JArray(seq(|r.artifacts|, i requires 0 <= i < |r.artifacts| => JString(r.artifacts[i]))),
      "checksum" := JString(r.checksum),
      "id" := JString(r.id),
      "status" := JString(r.status.Name()),
      TokenHashKey := OptString(r.accessTokenHash)]
  }

  /** `{k: v for k, v in job.items() if k != "access_token_hash"}`. */
  function Redact(d: map<string, Json>): (view: map<string, Json>)
    ensures view.Keys == d.Keys - {TokenHashKey}
    ensures forall k :: k in view ==> view[k] == d[k]
  {
    map k | k in d && k != TokenHashKey :: d[k]
  }

  /** The status body for a record: every stored key but the digest, each with its
      stored value. */
  lemma StatusViewOmitsDigest(r: JobRecord)
    ensures TokenHashKey !in Redact(ToJson(r))
    ensures Redact(ToJson(r)).Keys == RecordKeys - {TokenHashKey}
    ensures forall k :: k in RecordKeys && k != TokenHashKey ==> Redact(ToJson(r))[k] == ToJson(r)[k]
  {
  }

  /** `bool(job.get("access_token_hash"))`: a digest is present and non-empty. */
  predicate HasTokenHash(r: JobRecord) {
    r.accessTokenHash.Some? && r.accessTokenHash.value != ""
  }

  /** The status changes a persisted record may go through. `Queued` to `Failed`
      happens when the failure is recorded before `running` was ever persisted. */
  predicate AllowedTransition(from: JobStatus, to: JobStatus) {
    || (from == Queued && to == Running)
    || (from == Running && to == Succeeded)
    || (from == Running && to == Failed)
    || (from == Queued && to == Failed)
  }

  /** Every step from `start` through the statuses of `saves` is allowed. */
  predicate TransitionChain(start: JobStatus, saves: seq<JobRecord>) {
    && (|saves| > 0 ==> AllowedTransition(start, saves[0].status))
    && (forall i :: 0 < i < |saves| ==> AllowedTransition(saves[i - 1].status, saves[i].status))
  }

  /** The record invariant: an output URI exactly when succeeded, an error exactly
      when failed, and a progress between 0 and 100. */
  predicate WellFormed(r: JobRecord) {
    && (r.status == Succeeded <==> r.outputUri.Some?)
    && (r.status == Failed <==> r.error.Some?)
    && 0 <= r.progress <= 100
  }

  /** Identity, input and digest of a record: the fields no transition touches. */
  predicate SameIdentity(a: JobRecord, b: JobRecord) {
    && a.id == b.id
    && a.filename == b.filename
    && a.contentType == b.contentType
    && a.sizeBytes == b.sizeBytes
    && a.createdAt == b.createdAt
    && a.inputUri == b.inputUri
    && a.artifacts == b.artifacts
    && a.checksum == b.checksum
    && a.accessTokenHash == b.accessTokenHash
  }
}
