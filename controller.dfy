/**
 * The `uploadsImg` route handler of src/controllers/v1.ts: what one upload
 * request does to the process-wide digest set `hashCache`, to the files in the
 * upload directory and to the table of upload records, and which reply it
 * sends. `Handle` is the specification of one request on plain values;
 * `UploadController.Upload` performs it step by step on mutable state; the
 * lemmas at the end follow a whole sequence of requests in one process.
 *
 * The content digest is an opaque value (the hex SHA-256 of the bytes read
 * back from disk); nothing here assumes that different contents have
 * different digests.
 */
module Controller {
  import opened Wrappers
  import opened Intake

  type Digest = string
  type Path = string

  /** A row of the upload table: `{filename, path}`. */
  datatype Record = Record(filename: string, path: Path)

  /** The JSON body `{success, message[, path]}`. */
  datatype Body = Body(success: bool, message: string, path: Option<Path>)

  /** Why a request was handed to `next(error)`. */
  datatype Cause = SchemaRejected | CreateFailed

  /** A JSON reply with a status, or the error passed on to Express's error handler. */
  datatype Reply = Json(status: nat, body: Body) | PassedToNext(cause: Cause)

  /**
   * One request as the handler sees it: the middleware's outcome, the digest
   * of the file's bytes, whether `imageSchema.parse(req.file)` succeeds and
   * whether `UploadsSave.create` succeeds.
   */
  datatype Request = Request(outcome: MiddlewareOutcome, digest: Digest, schemaOk: bool, createOk: bool)

  /** The state one request can change. */
  datatype State = State(hashCache: set<Digest>, files: set<Path>, records: seq<Record>)

  datatype Step = Step(state: State, reply: Reply)

  const MulterErrorMessage := "Multer error occurred"
  const NotFoundMessage := "File not found"
  const DuplicateMessage := "File already exists"
  const SuccessMessage := "File uploaded successfully"

  function Failure(status: nat, message: string): Reply
  {
    Json(status, Body(false, message, None))
  }

  predicate Accepted(r: Reply)
  {
    r.Json? && r.status == 200
  }

  /** The record the handler stores for a written file. */
  function RecordOf(f: StoredFile): Record
  {
    Record(f.fileName, f.path)
  }

  /**
   * One request. The middleware's errors come first (500 for a MulterError,
   * 400 with the error's own message otherwise), then a missing file (400);
   * a written file whose digest is already cached is deleted (400); a schema
   * or database failure goes to `next`; only after both succeed is the record
   * appended and the digest cached (200).
   */
  function Handle(s: State, q: Request): (t: Step)
    ensures Accepted(t.reply) <==>
      q.outcome.Stored? && q.digest !in s.hashCache && q.schemaOk && q.createOk
    ensures t.state.hashCache == if Accepted(t.reply) then s.hashCache + {q.digest} else s.hashCache
    ensures t.state.records == if Accepted(t.reply) then s.records + [RecordOf(q.outcome.file)] else s.records
    ensures t.reply.Json? ==> (t.reply.body.success <==> Accepted(t.reply))
    ensures t.reply.Json? ==> t.reply.status == 200 || t.reply.status == 400 || t.reply.status == 500
    ensures t.reply.PassedToNext? <==> q.outcome.Stored? && q.digest !in s.hashCache && !(q.schemaOk && q.createOk)
    ensures !q.outcome.Stored? ==> t.state == s
    ensures q.outcome.Stored? ==>
      t.state.files == (if q.digest in s.hashCache then s.files - {q.outcome.file.path}
                        else s.files + {q.outcome.file.path})
  {
    match q.outcome
    case MulterError(_) => Step(s, Failure(500, MulterErrorMessage))
    case OtherError(message) => Step(s, Failure(400, message))
    case NoFile => Step(s, Failure(400, NotFoundMessage))
    case Stored(f) =>
      var written := s.files + {f.path};
      if q.digest in s.hashCache then
        Step(s.(files := written - {f.path}), Failure(400, DuplicateMessage))
      else if !q.schemaOk then
        Step(s.(files := written), PassedToNext(SchemaRejected))
      else if !q.createOk then
        Step(s.(files := written), PassedToNext(CreateFailed))
      else
        Step(State(s.hashCache + {q.digest}, written, s.records + [RecordOf(f)]),
             Json(200, Body(true, SuccessMessage, Some(f.path))))
  }

  // ---------------------------------------------------------------------------
  // The outcomes one by one
  // ---------------------------------------------------------------------------

  lemma MulterErrorReply(s: State, q: Request)
    requires q.outcome.MulterError?
    ensures Handle(s, q) == Step(s, Failure(500, MulterErrorMessage))
  {
  }

  lemma OtherErrorReply(s: State, q: Request)
    requires q.outcome.OtherError?
    ensures Handle(s, q) == Step(s, Failure(400, q.outcome.message))
  {
  }

  lemma MissingFileReply(s: State, q: Request)
    requires q.outcome.NoFile?
    ensures Handle(s, q) == Step(s, Failure(400, NotFoundMessage))
  {
  }

  lemma DuplicateReply(s: State, q: Request)
    requires q.outcome.Stored? && q.digest in s.hashCache
    ensures Handle(s, q) == Step(s.(files := s.files - {q.outcome.file.path}), Failure(400, DuplicateMessage))
    ensures q.outcome.file.path !in Handle(s, q).state.files
  {
  }

  lemma PersistFailureReply(s: State, q: Request)
    requires q.outcome.Stored? && q.digest !in s.hashCache && !(q.schemaOk && q.createOk)
    ensures Handle(s, q).state == s.(files := s.files + {q.outcome.file.path})
    ensures Handle(s, q).reply == PassedToNext(if q.schemaOk then CreateFailed else SchemaRejected)
  {
  }

  lemma SuccessReply(s: State, q: Request)
    requires q.outcome.Stored? && q.digest !in s.hashCache && q.schemaOk && q.createOk
    ensures Handle(s, q).reply == Json(200, Body(true, SuccessMessage, Some(q.outcome.file.path)))
    ensures Handle(s, q).state ==
      State(s.hashCache + {q.digest}, s.files + {q.outcome.file.path}, s.records + [RecordOf(q.outcome.file)])
  {
  }

  // ---------------------------------------------------------------------------
  // The handler over mutable state
  // ---------------------------------------------------------------------------

  class UploadController {
    /** The module-level `hashCache` set. */
    var hashCache: set<Digest>
    /** The paths present in the upload directory. */
    var files: set<Path>
    /** The rows of the upload table, in creation order. */
    var records: seq<Record>

    /** A fresh process: the digest set starts empty; disk and database keep what they hold. */
    constructor (disk: set<Path>, table: seq<Record>)
      ensures hashCache == {} && files == disk && records == table
    {
      hashCache := {};
      files := disk;
      records := table;
    }

    function Snapshot(): State
      reads this
    {
      State(hashCache, files, records)
    }

    /**
     * `uploadsImg` for one request. The handler itself calls the configured
     * multer; when that call stores a file, the storage's write of its path
     * is the first step here, followed by the callback's checks.
     */
    method Upload(outcome: MiddlewareOutcome, digest: Digest, schemaOk: bool, createOk: bool)
      returns (reply: Reply)
      modifies this
      ensures Step(Snapshot(), reply) == Handle(old(Snapshot()), Request(outcome, digest, schemaOk, createOk))
      ensures old(hashCache) <= hashCache
      ensures old(records) <= records && |records| <= |old(records)| + 1
    {
      match outcome
      case MulterError(_) =>
        reply := Failure(500, MulterErrorMessage);
      case OtherError(message) =>
        reply := Failure(400, message);
      case NoFile =>
        reply := Failure(400, NotFoundMessage);
      case Stored(file) =>
        files := files + {file.path};
        if digest in hashCache {
          files := files - {file.path};
          reply := Failure(400, DuplicateMessage);
          return;
        }
        if !schemaOk {
          reply := PassedToNext(SchemaRejected);
          return;
        }
        if !createOk {
          reply := PassedToNext(CreateFailed);
          return;
        }
        records := records + [RecordOf(file)];
        hashCache := hashCache + {digest};
        reply := Json(200, Body(true, SuccessMessage, Some(file.path)));
    }
  }

  // ---------------------------------------------------------------------------
  // A sequence of requests in one process
  // ---------------------------------------------------------------------------

  /** The state after handling `qs` in order, starting from `s`. */
  function Final(s: State, qs: seq<Request>): State
  {
    if qs == [] then s else Handle(Final(s, qs[..|qs| - 1]), qs[|qs| - 1]).state
  }

  /** The replies to `qs`, one per request, in order. */
  function Replies(s: State, qs: seq<Request>): (rs: seq<Reply>)
    ensures |rs| == |qs|
  {
    if qs == [] then []
    else
      var front := qs[..|qs| - 1];
      Replies(s, front) + [Handle(Final(s, front), qs[|qs| - 1]).reply]
  }

  /** Handling a prefix one request longer adds that request's step. */
  lemma FinalExtend(s: State, qs: seq<Request>, j: nat)
    requires j < |qs|
    ensures Final(s, qs[..j + 1]) == Handle(Final(s, qs[..j]), qs[j]).state
  {
    assert qs[..j + 1][..j] == qs[..j];
  }

  /** The j-th reply is the one `Handle` gives in the state the first j requests left. */
  lemma {:induction false} ReplyAt(s: State, qs: seq<Request>, j: nat)
    requires j < |qs|
    ensures Replies(s, qs)[j] == Handle(Final(s, qs[..j]), qs[j]).reply
  {
    var front := qs[..|qs| - 1];
    if j < |qs| - 1 {
      ReplyAt(s, front, j);
      assert front[..j] == qs[..j];
    } else {
      assert front == qs[..j];
    }
  }

  /** `hashCache` never shrinks: there is no removal anywhere. */
  lemma {:induction false} CacheNeverShrinks(s: State, qs: seq<Request>, i: nat, j: nat)
    requires i <= j <= |qs|
    ensures Final(s, qs[..i]).hashCache <= Final(s, qs[..j]).hashCache
  {
    if i < j {
      CacheNeverShrinks(s, qs, i, j - 1);
      FinalExtend(s, qs, j - 1);
    }
  }

  /**
   * Once a file with digest d has been accepted, every later file with digest
   * d that reaches the handler is deleted and refused with "File already
   * exists", and creates no record.
   */
  lemma SecondCopyRejected(s: State, qs: seq<Request>, i: nat, j: nat)
    requires i < j < |qs|
    requires Accepted(Replies(s, qs)[i])
    requires qs[j].digest == qs[i].digest && qs[j].outcome.Stored?
    ensures Replies(s, qs)[j] == Failure(400, DuplicateMessage)
    ensures qs[j].outcome.file.path !in Final(s, qs[..j + 1]).files
    ensures Final(s, qs[..j + 1]).records == Final(s, qs[..j]).records
  {
    ReplyAt(s, qs, i);
    ReplyAt(s, qs, j);
    FinalExtend(s, qs, i);
    FinalExtend(s, qs, j);
    CacheNeverShrinks(s, qs, i + 1, j);
  }

  /** Within one process no digest is accepted twice. */
  lemma AcceptedDigestsDistinct(s: State, qs: seq<Request>, i: nat, j: nat)
    requires i < j < |qs|
    requires Accepted(Replies(s, qs)[i]) && Accepted(Replies(s, qs)[j])
    ensures qs[i].digest != qs[j].digest
  {
    ReplyAt(s, qs, j);
    if qs[i].digest == qs[j].digest {
      SecondCopyRejected(s, qs, i, j);
    }
  }

  /**
   * Records and cached digests grow in lock step: every record created by
   * this process has its own new digest in `hashCache`.
   */
  lemma {:induction false} RecordsMatchCache(s: State, qs: seq<Request>)
    ensures s.hashCache <= Final(s, qs).hashCache
    ensures s.records <= Final(s, qs).records
    ensures |Final(s, qs).records| - |s.records| == |Final(s, qs).hashCache| - |s.hashCache|
  {
    if qs != [] {
      var front := qs[..|qs| - 1];
      RecordsMatchCache(s, front);
      var before := Final(s, front);
      var q := qs[|qs| - 1];
      if Accepted(Handle(before, q).reply) {
        assert |before.hashCache + {q.digest}| == |before.hashCache| + 1;
      }
    }
  }

  /** From a fresh process (empty cache) the table gains one row per cached digest. */
  lemma FreshProcessRecords(disk: set<Path>, table: seq<Record>, qs: seq<Request>)
    ensures table <= Final(State({}, disk, table), qs).records
    ensures |Final(State({}, disk, table), qs).records| == |table| + |Final(State({}, disk, table), qs).hashCache|
  {
    RecordsMatchCache(State({}, disk, table), qs);
  }

  // ---------------------------------------------------------------------------
  // Records and the files they name
  // ---------------------------------------------------------------------------

  /** Every record names a file that is on disk. */
  predicate RecordsOnDisk(s: State)
  {
    forall k :: 0 <= k < |s.records| ==> s.records[k].path in s.files
  }

  /** Some record already names path p. */
  predicate Recorded(s: State, p: Path)
  {
    exists k :: 0 <= k < |s.records| && s.records[k].path == p
  }

  /**
   * Within the handler only the duplicate branch's `unlinkSync` deletes a
   * file, and only the request's own path: unless that path is already named
   * by a record, every recorded file stays on disk. (multer's own cleanup
   * after an oversized file is outside `Handle`.)
   */
  lemma HandleKeepsRecordsOnDisk(s: State, q: Request)
    requires RecordsOnDisk(s)
    requires q.outcome.Stored? && q.digest in s.hashCache ==> !Recorded(s, q.outcome.file.path)
    ensures RecordsOnDisk(Handle(s, q).state)
  {
    var t := Handle(s, q).state;
    forall k | 0 <= k < |t.records|
      ensures t.records[k].path in t.files
    {
      if k < |s.records| {
        assert t.records[k] == s.records[k];
        if q.outcome.Stored? && q.digest in s.hashCache {
          assert s.records[k].path != q.outcome.file.path;
        }
      }
    }
  }

  /**
   * Without that precondition the invariant fails: a second upload of the same
   * bytes under the same original name in the same millisecond is written
   * over the first file's path and then deleted, leaving the first record
   * naming a file that is gone.
   */
  lemma CollidingDuplicateDeletesRecordedFile(p: Path, d: Digest, f: StoredFile)
    requires f.path == p
    ensures var s := State({d}, {p}, [Record(f.fileName, p)]);
      RecordsOnDisk(s) && Recorded(s, p) &&
      !RecordsOnDisk(Handle(s, Request(Stored(f), d, true, true)).state)
  {
    var s := State({d}, {p}, [Record(f.fileName, p)]);
    assert s.records[0].path == p;
    var t := Handle(s, Request(Stored(f), d, true, true)).state;
    assert t.records[0].path !in t.files;
  }

  // ---------------------------------------------------------------------------
  // Intake and handler together
  // ---------------------------------------------------------------------------

  /** A name the filter refuses is answered 400 with the filter's message; nothing is written or recorded. */
  lemma NonJpegRejected(s: State, p: Part, destination: string, now: nat, d: Digest, schemaOk: bool, createOk: bool)
    requires p.originalName != "" && p.fieldName == FileField && ImageFilter(p.originalName).Reject?
    ensures Handle(s, Request(Middleware(Some(p), destination, now), d, schemaOk, createOk))
      == Step(s, Failure(400, OnlyJpgMessage))
  {
  }

  /** A part with an empty file name never reaches the filter: it is answered 400 "File not found". */
  lemma EmptyFileNameNotFound(s: State, p: Part, destination: string, now: nat, d: Digest, schemaOk: bool, createOk: bool)
    requires p.originalName == ""
    ensures Handle(s, Request(Middleware(Some(p), destination, now), d, schemaOk, createOk))
      == Step(s, Failure(400, NotFoundMessage))
  {
  }

  /** A named file in a field other than "file" is refused by `.single("file")` and answered 500; nothing changes. */
  lemma WrongFieldRejected(s: State, p: Part, destination: string, now: nat, d: Digest, schemaOk: bool, createOk: bool)
    requires p.originalName != "" && p.fieldName != FileField
    ensures Handle(s, Request(Middleware(Some(p), destination, now), d, schemaOk, createOk))
      == Step(s, Failure(500, MulterErrorMessage))
  {
  }

  /** A JPEG over 2 MiB is answered 500; nothing is written or recorded. */
  lemma OversizedRejected(s: State, p: Part, destination: string, now: nat, d: Digest, schemaOk: bool, createOk: bool)
    requires p.fieldName == FileField && ImageFilter(p.originalName) == Accept && p.size > MaxFileSize
    ensures Handle(s, Request(Middleware(Some(p), destination, now), d, schemaOk, createOk))
      == Step(s, Failure(500, MulterErrorMessage))
  {
  }

  /**
   * An accepted upload's record names the stored file: its name splits back
   * into the upload time and the original name, which ended in ".jpg" or
   * ".jpeg", and its path is the one echoed in the reply.
   */
  lemma AcceptedRecordDescribesFile(s: State, part: Option<Part>, destination: string, now: nat, d: Digest, schemaOk: bool, createOk: bool)
    requires Accepted(Handle(s, Request(Middleware(part, destination, now), d, schemaOk, createOk)).reply)
    ensures part.Some? && ImageFilter(part.value.originalName) == Accept && part.value.size <= MaxFileSize
    ensures var t := Handle(s, Request(Middleware(part, destination, now), d, schemaOk, createOk));
      var r := t.state.records[|s.records|];
      |t.state.records| == |s.records| + 1 &&
      ParseStoredName(r.filename) == Some((now, part.value.originalName)) &&
      EndsWith(r.filename, part.value.originalName) &&
      r.path == destination + "/" + r.filename &&
      t.reply.body.path == Some(r.path) &&
      r.path in t.state.files
  {
    StoredNameKeepsExtension(now, part.value.originalName);
  }
}
