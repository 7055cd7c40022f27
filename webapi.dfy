/** The decisions of the HTTP layer: parsing the `Authorization` header (the Bearer
    scheme of section 2.1 of RFC 6750, restricted to capability tokens), the debug
    fingerprint, the upload media gate, and the order of checks on the status and
    result endpoints. Routing and response encoding are not modelled; an endpoint is
    a function (or, for job creation, a method on the service) from the request to
    a response or an `HttpError`. */
module WebApi {
  import opened Wrappers
  import opened PyText
  import opened Base64Url
  import opened Security
  import opened Jobs
  import opened Service

  /** An `HTTPException`: status, `detail.code`, `detail.message` and extra headers
      (empty for `headers=None`). */
  datatype HttpError = HttpError(status: int, code: string, message: string, headers: map<string, string>)

  /** A successful response: its body and headers. */
  datatype Response<T> = Response(body: T, headers: map<string, string>)

  /** The environment-derived settings the endpoints read. */
  datatype Config = Config(debugAuth: bool, dataDir: string, allowedMime: set<string>, maxUploadMb: int)

  const MissingBearer: string := "missing bearer token"
  const MalformedToken: string := "malformed token"

  function Unauthorized(message: string): HttpError {
    HttpError(401, "unauthorized", message, map[])
  }

  function OrEmpty(s: Option<string>): string {
    if s.Some? then s.value else ""
  }

  // ---------------------------------------------------------------------------
  // Bearer token

  /** The header names the Bearer scheme and carries something after the first
      space. */
  predicate HasBearerCredential(header: Option<string>) {
    && header.Some? && header.value != ""
    && Lower(Partition(header.value, ' ').0) == "bearer"
    && Partition(header.value, ' ').1 != ""
  }

  /** The text after the header's first space. */
  function Credential(header: Option<string>): string {
    Partition(OrEmpty(header), ' ').1
  }

  /** `s` is matched by `[A-Za-z0-9_-]+={0,2}` with the alphabet part of length `k`. */
  predicate TokenPatternBody(s: string, k: nat) {
    && 1 <= k <= |s| <= k + 2
    && AllUrlChars(s[..k])
    && forall i :: k <= i < |s| ==> s[i] == '='
  }

  /** `re.fullmatch(r"[A-Za-z0-9_-]+={0,2}", s)`, by its meaning. */
  ghost predicate MatchesTokenPattern(s: string) {
    exists k: nat :: TokenPatternBody(s, k)
  }

  /** The regular expression as the parser evaluates it: strip trailing `=`, then
      check what is left and how much was stripped. */
  predicate TokenShape(s: string) {
    var body := RStrip(s, IsPad);
    |body| >= 1 && |s| - |body| <= 2 && AllUrlChars(body)
  }

  /** The evaluated check is the regular expression, and its alphabet part is what
      stripping the `=` leaves. */
  lemma TokenShapeIsPattern(s: string)
    ensures TokenShape(s) <==> MatchesTokenPattern(s)
    ensures forall k: nat :: TokenPatternBody(s, k) ==> |RStrip(s, IsPad)| == k
  {
    var body := RStrip(s, IsPad);
    forall k: nat | TokenPatternBody(s, k) ensures |body| == k {
      assert forall i :: 0 <= i < k ==> !IsPad(s[i]) by {
        forall i | 0 <= i < k ensures !IsPad(s[i]) {
          assert s[..k][i] == s[i];
        }
      }
      assert body == s[..|body|];
      var last := s[k - 1];
      assert |body| < k ==> IsPad(last);
      assert |body| >= k;
      assert |body| <= k;
    }
    if TokenShape(s) {
      assert TokenPatternBody(s, |body|);
    }
  }

  /** `_validate_bearer_token`: the capability token in an `Authorization` header.
      A missing header, another scheme or nothing after the space is "missing
      bearer token"; a credential that does not match the pattern, or whose
      alphabet part is not 43 characters, is "malformed token". */
  function ValidateBearerToken(header: Option<string>): (r: Result<string, HttpError>)
    ensures r.Err? ==> r.error.status == 401 && r.error.code == "unauthorized" && r.error.headers == map[]
    ensures r.Err? ==> r.error.message in {MissingBearer, MalformedToken}
    ensures (r.Err? && r.error.message == MissingBearer) <==> !HasBearerCredential(header)
    ensures r.Ok? <==> HasBearerCredential(header) && TokenPatternBody(Strip(Credential(header)), TokenLength)
    ensures r.Ok? ==> |r.value| == TokenLength && AllUrlChars(r.value)
                      && r.value == Strip(Credential(header))[..TokenLength]
  {
    if header.None? || header.value == "" then Err(Unauthorized(MissingBearer))
    else
      var (scheme, rest) := Partition(header.value, ' ');
      if Lower(scheme) != "bearer" || rest == "" then Err(Unauthorized(MissingBearer))
      else
        var raw := Strip(rest);
        TokenShapeIsPattern(raw);
        if !TokenShape(raw) then Err(Unauthorized(MalformedToken))
        else
          var token := RStrip(raw, IsPad);
          if |token| != TokenLength then Err(Unauthorized(MalformedToken))
          else Ok(token)
  }

  /** A header whose scheme is any capitalisation of `Bearer` splits at the space
      after it. */
  lemma PartitionAfterScheme(scheme: string, rest: string)
    requires Lower(scheme) == "bearer"
    ensures Partition(scheme + " " + rest, ' ') == (scheme, rest)
  {
    var s := scheme + " " + rest;
    assert ' ' !in scheme by {
      forall i | 0 <= i < |scheme| ensures scheme[i] != ' ' {
        assert Lower(scheme)[i] == LowerChar(scheme[i]);
      }
    }
    assert s[|scheme|] == ' ';
    var p := Partition(s, ' ');
    assert p.0 == s[..|p.0|] && s[|p.0|] == ' ';
    assert forall i :: 0 <= i < |scheme| ==> s[i] != ' ';
    assert |p.0| == |scheme|;
    assert p.0 == s[..|scheme|] == scheme;
    assert p.1 == s[|scheme| + 1..] == rest;
  }

  /** A credential without surrounding whitespace, of 43 alphabet characters and
      at most two `=`, is accepted after a Bearer scheme and comes back without
      the `=`. */
  lemma WellFormedCredentialAccepted(scheme: string, cred: string)
    requires Lower(scheme) == "bearer" && TokenPatternBody(cred, TokenLength)
    requires !IsSpace(cred[0]) && !IsSpace(cred[|cred| - 1])
    ensures ValidateBearerToken(Some(scheme + " " + cred)) == Ok(cred[..TokenLength])
  {
    PartitionAfterScheme(scheme, cred);
    StripUnchanged(cred);
    TokenShapeIsPattern(cred);
  }

  /** An issued token, sent after any capitalisation of `Bearer` and with up to two
      `=` of padding, is accepted and comes back without the padding. */
  lemma IssuedTokenAccepted(scheme: string, raw: seq<byte>, pads: nat)
    requires Lower(scheme) == "bearer" && |raw| == TokenBytes && pads <= 2
    ensures ValidateBearerToken(Some(scheme + " " + NewToken(raw) + seq(pads, _ => '='))) == Ok(NewToken(raw))
  {
    var t := NewToken(raw);
    var cred := t + seq(pads, _ => '=');
    assert scheme + " " + t + seq(pads, _ => '=') == scheme + " " + cred;
    assert cred[..TokenLength] == t;
    assert !IsSpace(cred[0]) by { assert cred[0] == t[0] && IsUrlChar(t[0]); }
    assert !IsSpace(cred[|cred| - 1]) by {
      if pads == 0 {
        assert cred[|cred| - 1] == t[|t| - 1] && IsUrlChar(t[|t| - 1]);
      }
    }
    WellFormedCredentialAccepted(scheme, cred);
  }

  lemma LowerBearer()
    ensures Lower("Bearer") == "bearer"
  {
    var l := Lower("Bearer");
    assert l[0] == LowerChar('B') == 'b';
  }

  /** With the scheme plain `Bearer` and no padding: `"Bearer " + new_token()` is
      accepted unchanged. */
  lemma BearerNewTokenAccepted(raw: seq<byte>)
    requires |raw| == TokenBytes
    ensures ValidateBearerToken(Some("Bearer " + NewToken(raw))) == Ok(NewToken(raw))
  {
    var t := NewToken(raw);
    var none: string := seq(0, _ => '=');
    assert none == [];
    assert "Bearer" + " " + t + none == "Bearer " + t;
    LowerBearer();
    IssuedTokenAccepted("Bearer", raw, 0);
  }

  // ---------------------------------------------------------------------------
  // Debug headers

  /** The token fingerprint: its first four and last four characters around `..`,
      or nothing for a token shorter than eight. */
  function Fingerprint(tok: string): (f: string)
    ensures |tok| < 8 ==> f == ""
    ensures |tok| >= 8 ==> |f| == 10 && f[4..6] == ".."
  {
    if |tok| >= 8 then tok[..4] + ".." + tok[|tok| - 4..] else ""
  }

  /** The fingerprint shows only the ends of the token: tokens that share them are
      indistinguishable by it, and its ends are the token's ends. */
  lemma FingerprintShowsOnlyEnds(a: string, b: string)
    requires |a| >= 8 && |b| >= 8
    ensures Fingerprint(a)[..4] == a[..4] && Fingerprint(a)[6..] == a[|a| - 4..]
    ensures a[..4] == b[..4] && a[|a| - 4..] == b[|b| - 4..] ==> Fingerprint(a) == Fingerprint(b)
  {
    assert Fingerprint(a)[..4] == a[..4];
    assert Fingerprint(a)[6..] == a[|a| - 4..];
  }

  /** The keys of the debug headers. */
  const DebugHeaderKeys: set<string> := {
    "X-Auth-Debug", "X-Auth-Token-Length", "X-Auth-Token-Fingerprint",
    "X-Auth-Job-Has-Token-Hash", "X-Auth-Job-Id", "X-Auth-Data-Dir" }

  /** `_auth_debug_headers`: token length and fingerprint, whether the job has a
      digest, the job id and the data directory; never the token or the digest. */
  function AuthDebugHeaders(token: Option<string>, job: Option<JobRecord>, dataDir: string): (h: map<string, string>)
    ensures h.Keys == DebugHeaderKeys
    ensures h["X-Auth-Token-Length"] == NatToString(|OrEmpty(token)|)
    ensures DecimalValue(h["X-Auth-Token-Length"]) == |OrEmpty(token)|
    ensures h["X-Auth-Token-Fingerprint"] == Fingerprint(OrEmpty(token))
    ensures h["X-Auth-Job-Has-Token-Hash"] == "1" <==> job.Some? && HasTokenHash(job.value)
    ensures h["X-Auth-Job-Has-Token-Hash"] in {"0", "1"}
    ensures h["X-Auth-Debug"] == "1"
    ensures h["X-Auth-Job-Id"] == (if job.Some? then job.value.id else "")
    ensures h["X-Auth-Data-Dir"] == dataDir
  {
    var tok := OrEmpty(token);
    var hasHash := job.Some? && HasTokenHash(job.value);
    map[
      "X-Auth-Debug" := "1",
      "X-Auth-Token-Length" := NatToString(|tok|),
      "X-Auth-Token-Fingerprint" := Fingerprint(tok),
      "X-Auth-Job-Has-Token-Hash" := if hasHash then "1" else "0",
      "X-Auth-Job-Id" := if job.Some? then job.value.id else "",
      "X-Auth-Data-Dir" := dataDir]
  }

  /** `_auth_debug_headers(...) if DEBUG_AUTH else None`. */
  function DebugHeaders(cfg: Config, token: string, job: JobRecord): map<string, string> {
    if cfg.debugAuth then AuthDebugHeaders(Some(token), Some(job), cfg.dataDir) else map[]
  }

  // ---------------------------------------------------------------------------
  // Upload media gate

  /** The default `ALLOWED_MIME`. */
  const DefaultAllowedMime: set<string> := {
    "application/pdf",
    "application/vnd.openxmlformats-officedocument.wordprocessingml.document",
    "application/vnd.openxmlformats-officedocument.presentationml.presentation",
    "application/vnd.openxmlformats-officedocument.presentationml.slideshow",
    "application/vnd.ms-powerpoint",
    "application/vnd.openxmlformats-officedocument.spreadsheetml.sheet" }

  const SupportedExts: set<string> := {".pdf", ".docx", ".pptx", ".ppsx", ".ppt", ".xlsx"}

  const PptVariants: set<string> := {
    "application/vnd.ms-powerpoint",
    "application/vnd.openxmlformats-officedocument.presentationml.slideshow",
    "application/octet-stream" }

  predicate HasSupportedExt(name: string) {
    SplitExt(name) in SupportedExts
  }

  /** The content type as the gate compares it: stripped and lower-cased. */
  function NormalizedContentType(contentType: Option<string>): string {
    Lower(Strip(OrEmpty(contentType)))
  }

  /** The media gate of `create_job`: an unlisted content type is let through when
      the lower-cased filename has a supported extension, and refused with 415
      otherwise. */
  function MediaGate(contentType: Option<string>, filename: Option<string>, allowed: set<string>): (r: Option<HttpError>)
    ensures r.Some? <==>
              && NormalizedContentType(contentType) != ""
              && allowed != {}
              && NormalizedContentType(contentType) !in allowed
              && !HasSupportedExt(Lower(OrEmpty(filename)))
    ensures r.Some? ==> r.value.status == 415 && r.value.code == "unsupported_media_type"
                        && r.value.message == "content-type " + OrEmpty(contentType) + " not allowed"
  {
    var ct := NormalizedContentType(contentType);
    var fn := Lower(OrEmpty(filename));
    if ct != "" && allowed != {} && ct !in allowed then
      if ct in PptVariants && HasSupportedExt(fn) then None
      else if HasSupportedExt(fn) then None
      else Some(HttpError(415, "unsupported_media_type", "content-type " + OrEmpty(contentType) + " not allowed", map[]))
    else None
  }

  /** A supported extension lets any content type through, and with no content type
      nothing is refused. */
  lemma SupportedExtensionOrNoTypePasses(contentType: Option<string>, filename: Option<string>, allowed: set<string>)
    requires HasSupportedExt(Lower(OrEmpty(filename))) || contentType.None?
    ensures MediaGate(contentType, filename, allowed) == None
  {
    if contentType.None? {
      assert Strip("") == "";
    }
  }

  /** Under the default `ALLOWED_MIME`, every listed type passes whatever the file
      name. Two of the PPT variants are already listed; the third,
      `application/octet-stream`, is not, so under the defaults it passes only with
      a supported extension. */
  lemma DefaultAllowedMimeGate(contentType: Option<string>, filename: Option<string>)
    ensures NormalizedContentType(contentType) in DefaultAllowedMime ==>
              MediaGate(contentType, filename, DefaultAllowedMime) == None
    ensures PptVariants - DefaultAllowedMime == {"application/octet-stream"}
    ensures NormalizedContentType(contentType) == "application/octet-stream" ==>
              (MediaGate(contentType, filename, DefaultAllowedMime) == None <==> HasSupportedExt(Lower(OrEmpty(filename))))
  {
    var octet := "application/octet-stream";
    assert octet !in DefaultAllowedMime by {
      forall m | m in DefaultAllowedMime ensures m != octet {
        assert m[..12] != octet[..12] || |m| != |octet|;
      }
    }
    assert PptVariants - DefaultAllowedMime == {octet};
  }

  // ---------------------------------------------------------------------------
  // Endpoints

  /** An uploaded file part: its client name, its declared type and its content as
      read chunk by chunk. */
  datatype Upload = Upload(filename: Option<string>, contentType: Option<string>, chunks: seq<seq<byte>>)

  /** The 202 body and `Location` header of `create_job`. */
  datatype Accepted = Accepted(id: string, status: string, progress: int, accessToken: string,
                               selfLink: string, resultLink: string, location: string)

  /** The name `create_job` hands to the service: `file.filename or "upload"`. */
  function ClientName(file: Upload): string {
    if OrEmpty(file.filename) == "" then "upload" else file.filename.value
  }

  /** The upload exceeds the size ceiling. */
  predicate Oversized(file: Upload, cfg: Config) {
    UploadBytes(file.chunks) != [] && |UploadBytes(file.chunks)| > cfg.maxUploadMb * MiB
  }

  /** The response to an exception `create_job` does not catch. */
  const InternalServerError: HttpError := HttpError(500, "", "Internal Server Error", map[])

  /** `create_job`: the media gate, then job creation, where any `ValueError` (an
      oversized upload, or a NUL in the stored name) becomes 413 and any other
      exception a 500, then the 202 body carrying the one-time token. `open` is how
      opening the input file ends. */
  method CreateJob(svc: ConversionService, cfg: Config, file: Upload, open: OpenOutcome,
                   jobId: string, rawToken: seq<byte>, now: string)
    returns (r: Result<Accepted, HttpError>)
    requires svc.Valid() && jobId !in svc.storage.jobs && |rawToken| == TokenBytes
    requires OpenConsistent(svc.InputPath(jobId, ClientName(file)), open)
    modifies svc, svc.storage, svc.queue
    ensures svc.Valid()
    ensures svc.outputFiles == old(svc.outputFiles)
    ensures r.Err? ==>
              && svc.storage.jobs == old(svc.storage.jobs)
              && svc.queue.items == old(svc.queue.items) && svc.queue.unfinished == old(svc.queue.unfinished)
              && svc.trace == old(svc.trace)
    ensures MediaGate(file.contentType, file.filename, cfg.allowedMime).Some? ==>
              && r == Err(MediaGate(file.contentType, file.filename, cfg.allowedMime).value)
              && svc.inputFiles == old(svc.inputFiles)
    ensures (r.Err? && r.error.status == 413) <==>
              && MediaGate(file.contentType, file.filename, cfg.allowedMime).None?
              && (if open.Opened? then Oversized(file, cfg) else open.raised.ValueError?)
    ensures r.Err? && r.error.status == 413 ==>
              && r.error.code == "payload_too_large"
              && r.error.message == (if open.Opened? then "upload exceeds " + IntToString(cfg.maxUploadMb) + " MB"
                                     else open.raised.message)
    ensures r == Err(InternalServerError) <==>
              MediaGate(file.contentType, file.filename, cfg.allowedMime).None? && open.OpenFailed? && open.raised.OSError?
    ensures r.Ok? <==>
              MediaGate(file.contentType, file.filename, cfg.allowedMime).None? && open.Opened? && !Oversized(file, cfg)
    ensures r.Ok? ==>
              && r.value == Accepted(jobId, "queued", 0, NewToken(rawToken),
                                     "/jobs/" + jobId, "/jobs/" + jobId + "/result", "/jobs/" + jobId)
              && jobId in svc.storage.jobs && svc.storage.jobs[jobId].status == Queued
              && svc.storage.jobs[jobId].accessTokenHash == HashToken(svc.crypto, NewToken(rawToken))
              && svc.storage.jobs == old(svc.storage.jobs)[jobId := svc.storage.jobs[jobId]]
              && svc.inputFiles == old(svc.inputFiles)[svc.InputPath(jobId, ClientName(file)) := UploadBytes(file.chunks)]
              && svc.queue.items == old(svc.queue.items) + [jobId]
              && svc.queue.unfinished == old(svc.queue.unfinished) + 1
  {
    var gate := MediaGate(file.contentType, file.filename, cfg.allowedMime);
    if gate.Some? {
      return Err(gate.value);
    }
    var contentType := if OrEmpty(file.contentType) == "" then DefaultContentType else file.contentType.value;
    var created := svc.CreateJobFromUpload(ClientName(file), contentType, file.chunks, open, cfg.maxUploadMb,
                                           jobId, rawToken, now);
    if created.Err? {
      match created.error
      case ValueError(message) =>
        return Err(HttpError(413, "payload_too_large", message, map[]));
      case OSError(_) =>
        return Err(InternalServerError);
    }
    var (job, token) := created.value;
    r := Ok(Accepted(job.id, job.status.Name(), job.progress, token,
                     "/jobs/" + job.id, "/jobs/" + job.id + "/result", "/jobs/" + job.id));
  }

  /** `get_job` against the stored records `jobs`: 401 for the header, then 404 for
      an unknown job, then 423 for a record without a digest, then 403 for a token
      that does not verify; otherwise the record without its digest. */
  function GetJob(svc: ConversionService, jobs: map<string, JobRecord>, cfg: Config,
                  jobId: string, authorization: Option<string>): (r: Result<Response<map<string, Json>>, HttpError>)
    ensures ValidateBearerToken(authorization).Err? ==> r == Err(ValidateBearerToken(authorization).error)
    ensures ValidateBearerToken(authorization).Ok? && jobId !in jobs ==>
              r == Err(HttpError(404, "not_found", "job not found", map[]))
    ensures ValidateBearerToken(authorization).Ok? && jobId in jobs && !HasTokenHash(jobs[jobId]) ==>
              r.Err? && r.error.status == 423 && r.error.code == "not_ready" && r.error.message == "job not ready"
    ensures ValidateBearerToken(authorization).Ok? && jobId in jobs && HasTokenHash(jobs[jobId])
            && !svc.VerifyToken(jobs[jobId], ValidateBearerToken(authorization).value) ==>
              r.Err? && r.error.status == 403 && r.error.code == "forbidden" && r.error.message == "invalid token"
    ensures ValidateBearerToken(authorization).Ok? && jobId in jobs && HasTokenHash(jobs[jobId])
            && svc.VerifyToken(jobs[jobId], ValidateBearerToken(authorization).value) ==>
              && r.Ok? && r.value.body == Redact(ToJson(jobs[jobId]))
              && r.value.headers == DebugHeaders(cfg, ValidateBearerToken(authorization).value, jobs[jobId])
    ensures r.Ok? ==> jobId in jobs && TokenHashKey !in r.value.body
                      && r.value.body.Keys == RecordKeys - {TokenHashKey}
                      && forall k :: k in r.value.body ==> r.value.body[k] == ToJson(jobs[jobId])[k]
  {
    match ValidateBearerToken(authorization)
    case Err(e) => Err(e)
    case Ok(token) =>
      if jobId !in jobs then Err(HttpError(404, "not_found", "job not found", map[]))
      else
        var job := jobs[jobId];
        if !HasTokenHash(job) then Err(HttpError(423, "not_ready", "job not ready", DebugHeaders(cfg, token, job)))
        else if !svc.VerifyToken(job, token) then Err(HttpError(403, "forbidden", "invalid token", DebugHeaders(cfg, token, job)))
        else
          StatusViewOmitsDigest(job);
          Ok(Response(Redact(ToJson(job)), DebugHeaders(cfg, token, job)))
  }

  /** `get_result` against the stored records and the written outputs: the same
      four checks in the same order, then 404 "result not available" while the
      record has no output URI or its file does not exist; otherwise the file's
      text. */
  function GetResult(svc: ConversionService, jobs: map<string, JobRecord>, outputs: map<string, string>,
                     cfg: Config, jobId: string, authorization: Option<string>): (r: Result<Response<string>, HttpError>)
    ensures ValidateBearerToken(authorization).Err? ==> r == Err(ValidateBearerToken(authorization).error)
    ensures ValidateBearerToken(authorization).Ok? && jobId !in jobs ==>
              r == Err(HttpError(404, "not_found", "job not found", map[]))
    ensures ValidateBearerToken(authorization).Ok? && jobId in jobs && !HasTokenHash(jobs[jobId]) ==>
              r == Err(HttpError(423, "not_ready", "job not ready",
                                 DebugHeaders(cfg, ValidateBearerToken(authorization).value, jobs[jobId])))
    ensures ValidateBearerToken(authorization).Ok? && jobId in jobs && HasTokenHash(jobs[jobId])
            && !svc.VerifyToken(jobs[jobId], ValidateBearerToken(authorization).value) ==>
              r == Err(HttpError(403, "forbidden", "invalid token",
                                 DebugHeaders(cfg, ValidateBearerToken(authorization).value, jobs[jobId])))
    ensures ValidateBearerToken(authorization).Ok? && jobId in jobs && HasTokenHash(jobs[jobId])
            && svc.VerifyToken(jobs[jobId], ValidateBearerToken(authorization).value) ==>
              var uri := jobs[jobId].outputUri;
              var headers := DebugHeaders(cfg, ValidateBearerToken(authorization).value, jobs[jobId]);
              if uri.Some? && uri.value != "" && uri.value in outputs then r == Ok(Response(outputs[uri.value], headers))
              else r == Err(HttpError(404, "not_ready", "result not available", headers))
  {
    match ValidateBearerToken(authorization)
    case Err(e) => Err(e)
    case Ok(token) =>
      if jobId !in jobs then Err(HttpError(404, "not_found", "job not found", map[]))
      else
        var job := jobs[jobId];
        if !HasTokenHash(job) then Err(HttpError(423, "not_ready", "job not ready", DebugHeaders(cfg, token, job)))
        else if !svc.VerifyToken(job, token) then Err(HttpError(403, "forbidden", "invalid token", DebugHeaders(cfg, token, job)))
        else if job.outputUri.None? || job.outputUri.value == "" || job.outputUri.value !in outputs then
          Err(HttpError(404, "not_ready", "result not available", DebugHeaders(cfg, token, job)))
        else Ok(Response(outputs[job.outputUri.value], DebugHeaders(cfg, token, job)))
  }

  /** With SHA-256's 32-byte output, the digest of an issued token is present and
      non-empty. */
  lemma IssuedDigestPresent(c: Crypto, raw: seq<byte>)
    requires |raw| == TokenBytes && Sha256Width(c)
    ensures HashToken(c, NewToken(raw)).Some? && HashToken(c, NewToken(raw)).value != ""
  {
    IssuedTokenVerifies(c, raw);
    EncodeUnpaddedIsPrefix(c.sha256(raw));
  }

  /** The holder of a job's token reads its status: the header built from the
      token issued with the job passes all four checks and gets the record without
      its digest. */
  lemma IssuedTokenReadsStatus(svc: ConversionService, jobs: map<string, JobRecord>, cfg: Config,
                               job: JobRecord, rawToken: seq<byte>)
    requires |rawToken| == TokenBytes && Sha256Width(svc.crypto)
    requires job.id in jobs && jobs[job.id] == job
    requires job.accessTokenHash == HashToken(svc.crypto, NewToken(rawToken))
    ensures GetJob(svc, jobs, cfg, job.id, Some("Bearer " + NewToken(rawToken)))
            == Ok(Response(Redact(ToJson(job)), DebugHeaders(cfg, NewToken(rawToken), job)))
  {
    BearerNewTokenAccepted(rawToken);
    IssuedDigestPresent(svc.crypto, rawToken);
    IssuedTokenOpensJob(svc, job, rawToken);
  }

  /** After a worker step that succeeds, the holder of the job's token reads the
      converter's Markdown from the result endpoint. */
  lemma SucceededJobServesMarkdown(svc: ConversionService, jobs: map<string, JobRecord>, outputs: map<string, string>,
                                   cfg: Config, rec: JobRecord, rawToken: seq<byte>, outputPath: string,
                                   convert: string -> Conversion, faults: map<IoStep, string>,
                                   startedAt: string, completedAt: string, failedAt: string)
    requires |rawToken| == TokenBytes && Sha256Width(svc.crypto)
    requires rec.accessTokenHash == HashToken(svc.crypto, NewToken(rawToken))
    requires outputPath != "" && !AttemptFails(rec, convert, faults)
    ensures var run := ProcessJob(Some(rec), outputPath, convert, faults, startedAt, completedAt, failedAt);
      GetResult(svc, jobs[rec.id := run.saves[|run.saves| - 1]], outputs[outputPath := run.output.value],
                cfg, rec.id, Some("Bearer " + NewToken(rawToken))).Ok?
      && GetResult(svc, jobs[rec.id := run.saves[|run.saves| - 1]], outputs[outputPath := run.output.value],
                   cfg, rec.id, Some("Bearer " + NewToken(rawToken))).value.body
         == convert(rec.inputUri).markdown
  {
    var run := ProcessJob(Some(rec), outputPath, convert, faults, startedAt, completedAt, failedAt);
    ProcessJobSucceeds(rec, outputPath, convert, faults, startedAt, completedAt, failedAt);
    var last := run.saves[|run.saves| - 1];
    BearerNewTokenAccepted(rawToken);
    IssuedDigestPresent(svc.crypto, rawToken);
    IssuedTokenOpensJob(svc, last, rawToken);
  }
}
