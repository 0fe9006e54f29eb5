/** The video upload route (`POST /api/video-upload`): a signed-in user
    sends a multipart form with a video file and a title; the file goes to
    the remote media store, and on success a row describing it is created
    in the database and echoed back.

    The authentication lookup, the environment, the form parse, the remote
    store's answer and the database's answer are inputs here. `PostSpec`
    says what one request does (its response, and what it asks of the
    store and the database); `UploadRoute` holds the store's and the
    database's contents and changes them step by step as the handler does. */
module VideoUpload {
  import opened Wrappers
  import opened Js

  // ---------------------------------------------------------------------
  // Inputs

  /** The three environment variables the route needs. */
  datatype Env = Env(cloudName: Option<string>, apiKey: Option<string>, apiSecret: Option<string>)

  /** The uploaded file, as far as the route looks at it. */
  datatype FilePart = FilePart(size: nat)

  /** The form fields; a missing field is `None`. */
  datatype UploadForm = UploadForm(file: Option<FilePart>, title: Option<string>,
                                   description: Option<string>, originalSize: Option<string>)

  /** A thrown value: an `Error` with its message, or anything else. */
  datatype Thrown = ErrorWithMessage(message: string) | NonErrorValue

  /** Reading the request body as form data either succeeds or throws. */
  datatype FormOutcome = Parsed(form: UploadForm) | ParseThrows(thrown: Thrown)

  /** What the remote store reports for an upload. */
  datatype UploadResult = UploadResult(publicId: string, bytes: nat, duration: Option<real>)

  /** The upload callback receives either an error (with its message) or a
      result; or the call that starts the upload throws, which rejects the
      surrounding promise with the thrown value. */
  datatype RemoteOutcome = RemoteOk(result: UploadResult) | RemoteError(message: string) | UploadThrows(thrown: Thrown)

  /** Creating the database row either returns its id and creation time or throws. */
  datatype DbOutcome = DbOk(id: string, createdAt: int) | DbThrows(thrown: Thrown)

  /** The options the route passes with every upload, and the file's size. */
  datatype UploadRequest = UploadRequest(resourceType: string, folder: string, quality: string,
                                         fetchFormat: string, timeoutMs: nat, size: nat)

  // ---------------------------------------------------------------------
  // Outputs

  /** The fields of a new database row. */
  datatype VideoData = VideoData(title: string, description: string, publicId: string,
                                 originalSize: Option<string>, compressedSize: string, duration: real)

  /** A stored row: the data plus what the database assigns. */
  datatype VideoRow = VideoRow(id: string, data: VideoData, createdAt: int)

  /** The handler's error responses, each with its status and its `error`
      and `message` fields. */
  datatype Failure =
    | Unauthorized | NotConfigured | NoFile | NoTitle | TooLarge
    | UploadServiceError | DatabaseError | UnexpectedError
  {
    function Status(): int {
      match this
      case Unauthorized => 401
      case NoFile | NoTitle | TooLarge => 400
      case NotConfigured | UploadServiceError | DatabaseError | UnexpectedError => 500
    }

    function Error(): string {
      match this
      case Unauthorized => "Unauthorized"
      case NotConfigured => "Server configuration error"
      case NoFile => "No file provided"
      case NoTitle => "Title required"
      case TooLarge => "File too large"
      case UploadServiceError => "Upload service error"
      case DatabaseError => "Database error"
      case UnexpectedError => "Upload failed"
    }

    function Message(): string {
      match this
      case Unauthorized => "Please log in to upload videos"
      case NotConfigured => "Cloudinary credentials not configured"
      case NoFile => "Please select a video file to upload"
      case NoTitle => "Please provide a title for your video"
      case TooLarge => TooLargeMessage(MaxSize)
      case UploadServiceError => "Failed to upload video. Please try again."
      case DatabaseError => "Failed to save video information. Please try again."
      case UnexpectedError => "An unexpected error occurred. Please try again."
    }
  }

  datatype UploadResponse =
    | Rejected(failure: Failure)
    | Uploaded(message: string, video: VideoRow)

  /** The HTTP status of a response. */
  function HttpStatus(r: UploadResponse): int {
    if r.Uploaded? then 200 else r.failure.Status()
  }

  // ---------------------------------------------------------------------
  // Constants

  /** The size limit: 70 MiB. */
  const MaxSize: nat := 70 * 1024 * 1024

  /** The upload options: a video resource in the `video-uploads` folder,
      converted to mp4 at automatic quality, with a two-minute timeout. */
  function UploadOptions(size: nat): UploadRequest {
    UploadRequest("video", "video-uploads", "auto", "mp4", 120000, size)
  }

  /** The store's name, as it appears in its error messages. */
  const StoreName := "Cloudinary"

  /** The prefix the upload callback puts before the store's error message. */
  const UploadFailurePrefix := StoreName + " upload failed: "

  /** The size message, with the limit in MiB as `String` writes it. */
  function TooLargeMessage(maxSize: nat): string {
    "File size must be less than " + DecimalString(maxSize / 1024 / 1024) + "MB"
  }

  const SuccessMessage := "Video uploaded successfully"

  // ---------------------------------------------------------------------
  // Admission: the checks before anything is uploaded

  predicate CredentialsConfigured(env: Env) {
    Truthy(env.cloudName) && Truthy(env.apiKey) && Truthy(env.apiSecret)
  }

  /** A title is accepted when it is present and does not trim to nothing. */
  predicate TitleAccepted(title: Option<string>) {
    Truthy(title) && |Trim(title.value)| != 0
  }

  /** The outcome of the checks: refused with a response, or admitted with
      the file and the fields the rest of the handler uses. */
  datatype Admission =
    | Refused(failure: Failure)
    | Admitted(file: FilePart, title: string, description: Option<string>, originalSize: Option<string>)

  /** The exception handler's choice of response for a thrown value: a
      message mentioning `Cloudinary` is an upload service error, else one
      mentioning `Prisma` or `database` is a database error, and anything
      else (including a value that is not an `Error`) is unexpected. */
  function Classify(t: Thrown): (f: Failure)
    ensures f.Status() == 500
    ensures f in {UploadServiceError, DatabaseError, UnexpectedError}
  {
    if t.ErrorWithMessage? && Includes(t.message, StoreName) then UploadServiceError
    else if t.ErrorWithMessage? && (Includes(t.message, "Prisma") || Includes(t.message, "database")) then DatabaseError
    else UnexpectedError
  }

  /** The checks in the handler's order: the session, the credentials,
      reading the form, the file, the title, the size. */
  function Admit(userId: Option<string>, env: Env, form: FormOutcome): (a: Admission)
    ensures a.Refused? ==> a.failure.Status() in {400, 401, 500}
    ensures a.Admitted? ==> a.file.size <= MaxSize && Trim(a.title) != ""
  {
    if !Truthy(userId) then Refused(Unauthorized)
    else if !CredentialsConfigured(env) then Refused(NotConfigured)
    else if form.ParseThrows? then Refused(Classify(form.thrown))
    else if form.form.file.None? then Refused(NoFile)
    else if !TitleAccepted(form.form.title) then Refused(NoTitle)
    else if form.form.file.value.size > MaxSize then Refused(TooLarge)
    else Admitted(form.form.file.value, form.form.title.value, form.form.description, form.form.originalSize)
  }

  /** The row data built from the admitted fields and the store's result:
      title and description trimmed (a missing description is empty), the
      original size as sent, the stored size as a decimal string, and a
      missing duration as zero. */
  function Record(a: Admission, res: UploadResult): VideoData
    requires a.Admitted?
  {
    VideoData(Trim(a.title),
              if a.description.None? then "" else Trim(a.description.value),
              res.publicId,
              a.originalSize,
              DecimalString(res.bytes),
              if res.duration.None? then 0.0 else res.duration.value)
  }

  // ---------------------------------------------------------------------
  // One request

  /** What one request does: its response, the upload it asks for, the
      asset the store keeps and the row the database keeps. */
  datatype Trace = Trace(response: UploadResponse, request: Option<UploadRequest>,
                         uploaded: Option<UploadResult>, inserted: Option<VideoRow>)

  function PostSpec(userId: Option<string>, env: Env, form: FormOutcome,
                    remote: RemoteOutcome, db: DbOutcome): Trace
  {
    var a := Admit(userId, env, form);
    if a.Refused? then Trace(Rejected(a.failure), None, None, None)
    else AfterAdmit(a, remote, db)
  }

  /** What an admitted request does: one upload, then (if it succeeded)
      one row. */
  function AfterAdmit(a: Admission, remote: RemoteOutcome, db: DbOutcome): Trace
    requires a.Admitted?
  {
    var req := Some(UploadOptions(a.file.size));
    match remote
    case RemoteError(m) =>
      Trace(Rejected(Classify(ErrorWithMessage(UploadFailurePrefix + m))), req, None, None)
    case UploadThrows(t) =>
      Trace(Rejected(Classify(t)), req, None, None)
    case RemoteOk(res) =>
      match db
      case DbThrows(t) => Trace(Rejected(Classify(t)), req, Some(res), None)
      case DbOk(id, createdAt) =>
        var row := VideoRow(id, Record(a, res), createdAt);
        Trace(Uploaded(SuccessMessage, row), req, Some(res), Some(row))
  }

  function AsSeq<T>(o: Option<T>): (s: seq<T>)
    ensures |s| <= 1 && (o.Some? <==> |s| == 1) && (o.Some? ==> s == [o.value])
  {
    if o.Some? then [o.value] else []
  }

  /** The public ids of a sequence of stored assets. */
  function PublicIds(assets: seq<UploadResult>): seq<string> {
    seq(|assets|, i requires 0 <= i < |assets| => assets[i].publicId)
  }

  /** The remote store's and the database's contents as the route sees them. */
  class UploadRoute {
    /** Every upload the route has asked the store for. */
    var requests: seq<UploadRequest>
    /** Every asset the store has accepted. */
    var assets: seq<UploadResult>
    /** Every row the database holds. */
    var videos: seq<VideoRow>

    /** No asset without a request, and no row without an asset. */
    ghost predicate Valid()
      reads this
    {
      && |assets| <= |requests|
      && forall v | v in videos :: v.data.publicId in PublicIds(assets)
    }

    constructor()
      ensures requests == [] && assets == [] && videos == []
      ensures Valid()
    {
      requests, assets, videos := [], [], [];
    }

    /** Handles one request: the checks, then the upload, then the row. */
    method Post(userId: Option<string>, env: Env, form: FormOutcome,
                remote: RemoteOutcome, db: DbOutcome) returns (r: UploadResponse)
      requires Valid()
      modifies this
      ensures Valid()
      ensures r == PostSpec(userId, env, form, remote, db).response
      ensures requests == old(requests) + AsSeq(PostSpec(userId, env, form, remote, db).request)
      ensures assets == old(assets) + AsSeq(PostSpec(userId, env, form, remote, db).uploaded)
      ensures videos == old(videos) + AsSeq(PostSpec(userId, env, form, remote, db).inserted)
    {
      var a := Admit(userId, env, form);
      if a.Refused? {
        assert PostSpec(userId, env, form, remote, db) == Trace(Rejected(a.failure), None, None, None);
        return Rejected(a.failure);
      }
      assert PostSpec(userId, env, form, remote, db) == AfterAdmit(a, remote, db);

      var req := UploadOptions(a.file.size);
      requests := requests + [req];
      if remote.RemoteError? {
        return Rejected(Classify(ErrorWithMessage(UploadFailurePrefix + remote.message)));
      }
      if remote.UploadThrows? {
        return Rejected(Classify(remote.thrown));
      }
      var res := remote.result;
      assets := assets + [res];
      assert PublicIds(assets)[|assets| - 1] == res.publicId;
      assert forall i | 0 <= i < |old(assets)| :: PublicIds(assets)[i] == PublicIds(old(assets))[i];

      var data := Record(a, res);
      if db.DbThrows? {
        return Rejected(Classify(db.thrown));
      }
      var row := VideoRow(db.id, data, db.createdAt);
      videos := videos + [row];
      r := Uploaded(SuccessMessage, row);
    }
  }

  // ---------------------------------------------------------------------
  // Properties

  /** A title is accepted exactly when it is present and has a character
      that is not white space. */
  lemma TitleAcceptedIff(title: Option<string>)
    ensures TitleAccepted(title) <==> title.Some? && !AllWhiteSpace(title.value)
  {
    if title.Some? {
      TrimSpec(title.value);
    }
  }

  /** Which response a thrown value gets, as an if-and-only-if for each of
      the three: the store's name wins over the database words, and a
      value that is not an `Error` is always unexpected. */
  lemma ClassifyIff(t: Thrown)
    ensures Classify(t) == UploadServiceError <==> t.ErrorWithMessage? && Includes(t.message, StoreName)
    ensures Classify(t) == DatabaseError <==>
              && t.ErrorWithMessage? && !Includes(t.message, StoreName)
              && (Includes(t.message, "Prisma") || Includes(t.message, "database"))
    ensures Classify(t) == UnexpectedError <==>
              || t.NonErrorValue?
              || !(Includes(t.message, StoreName) || Includes(t.message, "Prisma") || Includes(t.message, "database"))
  {
  }

  /** The checks accept exactly a signed-in request with credentials
      configured, a readable form, a file no larger than the limit and a
      title that is not blank. */
  lemma AdmitIff(userId: Option<string>, env: Env, form: FormOutcome)
    ensures Admit(userId, env, form).Admitted? <==>
              && Truthy(userId) && CredentialsConfigured(env) && form.Parsed?
              && form.form.file.Some? && TitleAccepted(form.form.title)
              && form.form.file.value.size <= MaxSize
  {
  }

  /** The checks come in order: each one is reported only when the earlier
      ones pass. */
  lemma AdmitOrder(userId: Option<string>, env: Env, form: FormOutcome)
    ensures !Truthy(userId) ==> Admit(userId, env, form) == Refused(Unauthorized)
    ensures Truthy(userId) && !CredentialsConfigured(env) ==> Admit(userId, env, form) == Refused(NotConfigured)
    ensures Truthy(userId) && CredentialsConfigured(env) && form.ParseThrows? ==>
              Admit(userId, env, form) == Refused(Classify(form.thrown))
    ensures Truthy(userId) && CredentialsConfigured(env) && form.Parsed? && form.form.file.None? ==>
              Admit(userId, env, form) == Refused(NoFile)
    ensures (Truthy(userId) && CredentialsConfigured(env) && form.Parsed? && form.form.file.Some?
               && !TitleAccepted(form.form.title)) ==> Admit(userId, env, form) == Refused(NoTitle)
    ensures (Truthy(userId) && CredentialsConfigured(env) && form.Parsed? && form.form.file.Some?
               && TitleAccepted(form.form.title) && form.form.file.value.size > MaxSize) ==>
              Admit(userId, env, form) == Refused(TooLarge)
  {
  }

  /** A refused request asks nothing of the store or the database. */
  lemma RefusedHasNoEffect(userId: Option<string>, env: Env, form: FormOutcome,
                           remote: RemoteOutcome, db: DbOutcome)
    requires Admit(userId, env, form).Refused?
    ensures var t := PostSpec(userId, env, form, remote, db);
            && t.response == Rejected(Admit(userId, env, form).failure)
            && t.request.None? && t.uploaded.None? && t.inserted.None?
  {
  }

  /** An admitted request always asks for exactly one upload, with the
      route's options and the file's size. */
  lemma AdmittedRequestsUpload(userId: Option<string>, env: Env, form: FormOutcome,
                               remote: RemoteOutcome, db: DbOutcome)
    requires Admit(userId, env, form).Admitted?
    ensures PostSpec(userId, env, form, remote, db).request ==
              Some(UploadRequest("video", "video-uploads", "auto", "mp4", 120000, form.form.file.value.size))
  {
    AdmittedFields(userId, env, form);
  }

  /** A row is written only after an upload succeeded, and it names the
      asset that upload stored; an asset is stored only after an upload was
      asked for. */
  lemma InsertOnlyAfterUpload(userId: Option<string>, env: Env, form: FormOutcome,
                              remote: RemoteOutcome, db: DbOutcome)
    ensures var t := PostSpec(userId, env, form, remote, db);
            && (t.uploaded.Some? ==> t.request.Some? && remote == RemoteOk(t.uploaded.value))
            && (t.inserted.Some? ==> t.uploaded.Some? && t.inserted.value.data.publicId == t.uploaded.value.publicId)
  {
  }

  /** An error passed to the upload callback always reads as an upload
      service error, whatever the store's message, because the wrapped
      message names the store. */
  lemma UploadErrorIsServiceError(userId: Option<string>, env: Env, form: FormOutcome,
                                  message: string, db: DbOutcome)
    requires Admit(userId, env, form).Admitted?
    ensures var t := PostSpec(userId, env, form, RemoteError(message), db);
            && t.response == Rejected(UploadServiceError)
            && t.uploaded.None? && t.inserted.None?
  {
    WrappedUploadErrorClassified(message);
  }

  /** A value thrown by the call that starts the upload reaches the catch
      unwrapped, so it is classified on its own message: no asset is
      stored and no row is written. */
  lemma UploadThrowIsClassified(userId: Option<string>, env: Env, form: FormOutcome,
                                t: Thrown, db: DbOutcome)
    requires Admit(userId, env, form).Admitted?
    ensures var tr := PostSpec(userId, env, form, UploadThrows(t), db);
            && tr.response == Rejected(Classify(t)) && HttpStatus(tr.response) == 500
            && tr.request.Some? && tr.uploaded.None? && tr.inserted.None?
  {
  }

  /** Whatever the store's message, the wrapped message names the store. */
  lemma WrappedUploadErrorClassified(message: string)
    ensures Classify(ErrorWithMessage(UploadFailurePrefix + message)) == UploadServiceError
  {
    assert UploadFailurePrefix + message == StoreName + (" upload failed: " + message);
    IncludesPrefixOf(StoreName, " upload failed: " + message);
  }

  /** When the row cannot be written the asset stays in the store with no
      row pointing at it, and the response is a 500 chosen from the thrown
      value. */
  lemma DbFailureLeavesOrphan(userId: Option<string>, env: Env, form: FormOutcome,
                              res: UploadResult, t: Thrown)
    requires Admit(userId, env, form).Admitted?
    ensures var tr := PostSpec(userId, env, form, RemoteOk(res), DbThrows(t));
            && tr.uploaded == Some(res) && tr.inserted.None?
            && tr.response == Rejected(Classify(t)) && HttpStatus(tr.response) == 500
  {
  }

  /** A request succeeds exactly when it is admitted, the upload succeeds
      and the row is written; the response then carries that row with
      status 200. */
  lemma SuccessIff(userId: Option<string>, env: Env, form: FormOutcome,
                   remote: RemoteOutcome, db: DbOutcome)
    ensures var t := PostSpec(userId, env, form, remote, db);
            && (t.response.Uploaded? <==> Admit(userId, env, form).Admitted? && remote.RemoteOk? && db.DbOk?)
            && (t.response.Uploaded? ==>
                  && HttpStatus(t.response) == 200 && t.response.message == SuccessMessage
                  && t.inserted == Some(t.response.video) && t.response.video.id == db.id
                  && t.response.video.createdAt == db.createdAt)
            && (!t.response.Uploaded? ==> HttpStatus(t.response) in {400, 401, 500} && t.inserted.None?)
  {
  }

  /** The stored row (the admitted fields are the form's own, by
      `AdmittedFields`): the trimmed, non-blank title; the trimmed description
      or empty; the asset's public id; the original size as sent; the
      stored size as decimal digits that read back as the store's byte
      count; and the store's duration or zero. */
  lemma RecordFields(userId: Option<string>, env: Env, form: FormOutcome, res: UploadResult)
    requires Admit(userId, env, form).Admitted?
    ensures var a := Admit(userId, env, form);
            var d := Record(a, res);
            && d.title == Trim(a.title) && d.title != ""
            && (a.description.None? ==> d.description == "")
            && (a.description.Some? ==> d.description == Trim(a.description.value))
            && d.publicId == res.publicId
            && d.originalSize == a.originalSize
            && DecimalValue(d.compressedSize) == res.bytes
            && (res.duration.Some? ==> d.duration == res.duration.value)
            && (res.duration.None? ==> d.duration == 0.0)
  {
    DecimalRoundTrip(res.bytes);
  }

  /** An admitted request carries the form's own fields. */
  lemma AdmittedFields(userId: Option<string>, env: Env, form: FormOutcome)
    requires Admit(userId, env, form).Admitted?
    ensures var a := Admit(userId, env, form);
            && form.Parsed? && form.form.file == Some(a.file) && form.form.title == Some(a.title)
            && a.description == form.form.description && a.originalSize == form.form.originalSize
  {
  }

  /** The title and description stored are already trimmed. */
  lemma RecordTrimmed(a: Admission, res: UploadResult)
    requires a.Admitted?
    ensures Trim(Record(a, res).title) == Record(a, res).title
    ensures Trim(Record(a, res).description) == Record(a, res).description
  {
    TrimIdempotent(a.title);
    if a.description.Some? {
      TrimIdempotent(a.description.value);
    }
  }

  /** The size message names the limit as 70MB. */
  lemma TooLargeMessageNames70()
    ensures TooLarge.Message() == "File size must be less than 70MB"
  {
    assert MaxSize / 1024 / 1024 == 70;
    assert DecimalString(70) == DecimalString(7) + [Digit(0)];
  }

  /** The limit is inclusive: a file of exactly 70 MiB passes the size
      check. */
  lemma SizeLimitInclusive(userId: Option<string>, env: Env, title: string,
                           description: Option<string>, originalSize: Option<string>)
    requires Truthy(userId) && CredentialsConfigured(env) && TitleAccepted(Some(title))
    ensures Admit(userId, env, Parsed(UploadForm(Some(FilePart(MaxSize)), Some(title), description, originalSize)))
              == Admitted(FilePart(MaxSize), title, description, originalSize)
  {
  }

  /** One byte over the limit is refused as too large. */
  lemma OneByteOverRefused(userId: Option<string>, env: Env, title: string,
                           description: Option<string>, originalSize: Option<string>)
    requires Truthy(userId) && CredentialsConfigured(env) && TitleAccepted(Some(title))
    ensures Admit(userId, env, Parsed(UploadForm(Some(FilePart(MaxSize + 1)), Some(title), description, originalSize)))
              == Refused(TooLarge)
  {
  }

  /** A blank title is refused even though it is a non-empty string. */
  lemma BlankTitleRefused(userId: Option<string>, env: Env, file: FilePart,
                          description: Option<string>, originalSize: Option<string>)
    requires Truthy(userId) && CredentialsConfigured(env)
    ensures Admit(userId, env, Parsed(UploadForm(Some(file), Some("  \t"), description, originalSize)))
              == Refused(NoTitle)
  {
    assert Trim("  \t") == "";
  }

  /** The title is checked before the size: an oversized file with no
      title is reported as missing its title. */
  lemma TitleBeforeSize(userId: Option<string>, env: Env, description: Option<string>,
                        originalSize: Option<string>)
    requires Truthy(userId) && CredentialsConfigured(env)
    ensures Admit(userId, env, Parsed(UploadForm(Some(FilePart(MaxSize + 1)), None, description, originalSize)))
              == Refused(NoTitle)
  {
  }
}
