// The local receiver as a state machine: what each operation does to the sessions, the file
// records and the disk. The class in ReceiverService.dfy is proved to compute these functions.
module ReceiverState {
  import opened Prelude
  import opened PathSanitizer
  import opened StoragePaths
  import opened ReceiverModels

  datatype SessionStatus = Pending | Active | Completed | Expired | Cancelled

  datatype Session = Session(
    quoteId: string,
    status: SessionStatus,
    createdAt: int,
    expiresAt: int,
    allowedTypes: seq<string>,
    allowedExts: seq<string>,
    maxFileSize: int,
    maxFiles: int,
    maxTotal: int,
    uploaded: seq<string>,
    total: int)

  datatype FileRecord = FileRecord(
    fileId: string,
    sessionId: string,
    quoteId: string,
    contentType: string,
    extension: string,
    size: int,
    sha256: string,
    storedAt: int)

  type Directory = map<string, Bytes>

  /** `_sessions` with its insertion order, `_files`, the upload root by session directory, and
      two ghosts of the environment: ids already drawn, and the latest clock reading. */
  datatype State = State(
    sessions: map<string, Session>,
    order: seq<string>,
    files: map<string, FileRecord>,
    disk: map<string, Directory>,
    used: set<string>,
    clock: int)

  /** Which entry of a directory is listed first: one of its entries, but the model leaves open which. */
  type Lister = f: set<string> -> string | forall names: set<string> :: names != {} ==> f(names) in names
    ghost witness names => if names == {} then "" else var name :| name in names; name

  /** What the model does not see into: the digest, and the order of a directory listing. */
  datatype Env = Env(sha256: Bytes -> string, firstListed: Lister)

  const INITIAL := State(map[], [], map[], map[], {}, 0)

  // ---- Requests and answers ------------------------------------------------

  datatype CreateRequest = CreateRequest(
    quoteId: string,
    expiresAt: int,
    allowedTypes: seq<string>,
    allowedExts: seq<string>,
    maxFileSize: int,
    maxFiles: int,
    maxTotal: int)

  /** Validation errors, and the crash of the default-expiry branch (line 131 reads
      `timezone.timedelta`, which does not exist). */
  datatype CreateError = QuoteIdRequired | ExpiryInPast | BadLimit | TypeNotAllowed | ExtNotAllowed
    | AttributeErrorRaised

  /** `originalFilename` is "" when the request carries none. */
  datatype UploadRequest = UploadRequest(contentType: string, originalFilename: string)

  datatype RejectionReason =
    | EmptyFile | OverSizeLimit | DisallowedExtension | DisallowedContentType | ExtensionMismatch
    | ExpiredSession | CompletedSession | MaxFilesExceeded | MaxTotalBytesExceeded | InvalidSession

  /** `extension` is "" for `None`. */
  datatype Verdict = Accept(extension: string) | Reject(reason: RejectionReason)

  datatype UploadOutcome = Stored(record: FileRecord) | Rejected(reason: RejectionReason)

  datatype CompleteError = SessionUnavailable | AlreadyCompleted | QuoteMismatch

  datatype CompleteReceipt = CompleteReceipt(
    sessionId: string, quoteId: string, totalFiles: nat, totalBytes: int, receipts: seq<FileRecord>, completedAt: int)

  /** Python's `KeyError` from the misspelled counter key in `cleanup_session`. */
  datatype CleanupError = KeyErrorRaised

  // ---- Sessions ------------------------------------------------------------

  function CheckRequest(req: CreateRequest, now: int): Option<CreateError> {
    if req.quoteId == "" then Some(QuoteIdRequired)
    else if req.expiresAt < now then Some(ExpiryInPast)
    else if req.maxFileSize <= 0 || req.maxFiles <= 0 || req.maxTotal <= 0 then Some(BadLimit)
    else if exists ct :: ct in req.allowedTypes && !TypeAllowed(ct) then Some(TypeNotAllowed)
    else if exists e :: e in req.allowedExts && Lower(e) !in ALLOWED_EXTENSIONS then Some(ExtNotAllowed)
    else if req.expiresAt == now then Some(AttributeErrorRaised)
    else None
  }

  /** `path.mkdir(parents=True, exist_ok=True)`. */
  function MakeDirectory(disk: map<string, Directory>, dir: string): map<string, Directory> {
    if dir in disk then disk else disk[dir := map[]]
  }

  function CreateSession(st: State, req: CreateRequest, sid: string, now: int): (State, Result<string, CreateError>) {
    match CheckRequest(req, now)
    case Some(e) => (st.(clock := now), Err(e))
    case None =>
      var s := Session(req.quoteId, Active, now, req.expiresAt, req.allowedTypes, req.allowedExts,
                       req.maxFileSize, req.maxFiles, req.maxTotal, [], 0);
      (st.(sessions := st.sessions[sid := s],
           order := st.order + [sid],
           disk := MakeDirectory(st.disk, Sanitize(sid)),
           used := st.used + {sid},
           clock := now),
       Ok(sid))
  }

  /** `get_session`: an expired session is marked before the lookup fails. */
  function GetSession(st: State, sid: string, now: int): (State, bool) {
    if sid !in st.sessions then (st.(clock := now), false)
    else if st.sessions[sid].expiresAt < now then
      (st.(sessions := st.sessions[sid := st.sessions[sid].(status := Expired)], clock := now), false)
    else (st.(clock := now), true)
  }

  // ---- Validation ----------------------------------------------------------

  /** The extension part of `os.path.splitext`: leading dots of the last component do not count. */
  function SplitExt(filename: string): string {
    var sep := LastIndex(filename, '/');
    var dot := LastIndex(filename, '.');
    if dot > sep && exists k :: sep < k < dot && filename[k] != '.' then filename[dot..] else ""
  }

  function WithDot(e: string): string {
    if StartsWith(e, ".") then e else "." + e
  }

  /** The fallback when the filename gives no extension: the first of the type's list. */
  function CanonicalExtension(contentType: string): string {
    match Extensions(ALLOWED_CONTENT_TYPES, contentType)
    case Some(exts) => if exts == [] then "" else LStripDots(exts[0])
    case None => ""
  }

  function JudgeType(s: Session, req: UploadRequest): Verdict {
    var ct := req.contentType;
    if ct !in s.allowedTypes && !TypeAllowed(ct) then Reject(DisallowedContentType)
    else
      var raw := Lower(SplitExt(req.originalFilename));
      if raw == "" then Accept(CanonicalExtension(ct))
      else
        var ext := WithDot(raw);
        var inSession := exists e :: e in s.allowedExts && WithDot(e) == ext;
        if !inSession && ext !in ALLOWED_EXTENSIONS then Reject(DisallowedExtension)
        else if ext in ALLOWED_EXTENSIONS && ALLOWED_EXTENSIONS[ext] != ct then Reject(ExtensionMismatch)
        else if LStripDots(ext) == "" then Accept(CanonicalExtension(ct))
        else Accept(LStripDots(ext))
  }

  function Judge(s: Session, req: UploadRequest, size: int): Verdict {
    if s.status == Completed then Reject(CompletedSession)
    else if s.status == Expired then Reject(ExpiredSession)
    else if size <= 0 then Reject(EmptyFile)
    else if size > s.maxFileSize then Reject(OverSizeLimit)
    else if s.total + size > s.maxTotal then Reject(MaxTotalBytesExceeded)
    else if |s.uploaded| >= s.maxFiles then Reject(MaxFilesExceeded)
    else JudgeType(s, req)
  }

  /** `validate_file_upload`. */
  function ValidateUpload(st: State, sid: string, req: UploadRequest, size: int, now: int): (State, Verdict) {
    var (st1, live) := GetSession(st, sid, now);
    if live then (st1, Judge(st1.sessions[sid], req, size)) else (st1, Reject(InvalidSession))
  }

  // ---- Uploads -------------------------------------------------------------

  function PutFile(disk: map<string, Directory>, dir: string, name: string, content: Bytes): map<string, Directory> {
    disk[dir := (if dir in disk then disk[dir] else map[])[name := content]]
  }

  function DeleteFile(disk: map<string, Directory>, dir: string, name: string): map<string, Directory> {
    if dir in disk then disk[dir := disk[dir] - {name}] else disk
  }

  function MakeRecord(
    env: Env, s: Session, sid: string, req: UploadRequest, ext: string, content: Bytes, fid: string,
        now: int): FileRecord {
    FileRecord(fid, sid, s.quoteId, req.contentType, ext, |content|, env.sha256(content), now)
  }

  /** Bytes on disk, record stored, counters updated. */
  function Commit(
    env: Env, st: State, sid: string, req: UploadRequest, ext: string, content: Bytes, fid: string, now: int): State
    requires sid in st.sessions
  {
    var s := st.sessions[sid];
    st.(sessions := st.sessions[sid := s.(uploaded := s.uploaded + [fid], total := s.total + |content|)],
        files := st.files[fid := MakeRecord(env, s, sid, req, ext, content, fid, now)],
        disk := PutFile(st.disk, Sanitize(sid), StorageName(fid, ext), content),
        used := st.used + {fid})
  }

  /** `process_file_upload`. */
  function Upload(
    env: Env, st: State, sid: string, req: UploadRequest, content: Bytes, fid: string, now: int)
    : (State, UploadOutcome)
  {
    var (st1, v) := ValidateUpload(st, sid, req, |content|, now);
    match v
    case Reject(reason) => (st1, Rejected(reason))
    case Accept(ext) =>
      (Commit(env, st1, sid, req, ext, content, fid, now),
       Stored(MakeRecord(env, st1.sessions[sid], sid, req, ext, content, fid, now)))
  }

  /** `file_size or 1`, where a missing size reads as 0. */
  function Probe(declared: Option<int>): int {
    match declared
    case None => 1
    case Some(n) => if n == 0 then 1 else n
  }

  /** The first check of the streamed path lets `EMPTY_FILE` through, with no extension. */
  function StreamGate(v: Verdict): Verdict {
    if v == Reject(EmptyFile) then Accept("") else v
  }

  /** The checks made again once the size is known. */
  function Recheck(s: Session, size: int): Option<RejectionReason> {
    if size == 0 then Some(EmptyFile)
    else if size > s.maxFileSize then Some(OverSizeLimit)
    else if s.total + size > s.maxTotal then Some(MaxTotalBytesExceeded)
    else if |s.uploaded| >= s.maxFiles then Some(MaxFilesExceeded)
    else None
  }

  /** The streamed path after its first check: write, check again, then keep or delete. */
  function StreamTail(
    env: Env, st: State, sid: string, req: UploadRequest, ext: string, content: Bytes, fid: string,
        now: int): (State, UploadOutcome)
    requires sid in st.sessions
  {
    var dir, name := Sanitize(sid), StorageName(fid, ext);
    var written := st.(disk := PutFile(st.disk, dir, name, content), used := st.used + {fid});
    match Recheck(st.sessions[sid], |content|)
    case Some(EmptyFile) => (written, Rejected(EmptyFile))
    case Some(reason) => (written.(disk := DeleteFile(written.disk, dir, name)), Rejected(reason))
    case None =>
      (Commit(env, st, sid, req, ext, content, fid, now),
       Stored(MakeRecord(env, st.sessions[sid], sid, req, ext, content, fid, now)))
  }

  /** `process_streamed_file_upload`: an empty file is rejected but stays on disk. */
  function StreamUpload(
    env: Env, st: State, sid: string, req: UploadRequest, declared: Option<int>, content: Bytes, fid: string,
    now: int): (State, UploadOutcome) {
    var (st1, v) := ValidateUpload(st, sid, req, Probe(declared), now);
    match StreamGate(v)
    case Reject(reason) => (st1, Rejected(reason))
    case Accept(ext) => StreamTail(env, st1, sid, req, ext, content, fid, now)
  }

  // ---- Completion ----------------------------------------------------------

  /** The records listed by a completion receipt, in upload order. */
  function Receipts(files: map<string, FileRecord>, ids: seq<string>, sid: string): seq<FileRecord> {
    if ids == [] then []
    else
      var rest := Receipts(files, ids[..|ids| - 1], sid);
      var id := ids[|ids| - 1];
      if id in files && files[id].sessionId == sid then rest + [files[id]] else rest
  }

  function SumOf(records: seq<FileRecord>): int {
    if records == [] then 0 else SumOf(records[..|records| - 1]) + records[|records| - 1].size
  }

  function MarkCompleted(st: State, sid: string): State
    requires sid in st.sessions
  {
    st.(sessions := st.sessions[sid := st.sessions[sid].(status := Completed)])
  }

  /** `complete_session`. */
  function Complete(
    st: State, sid: string, quoteId: string, now: int): (State, Result<CompleteReceipt, CompleteError>) {
    var (st1, live) := GetSession(st, sid, now);
    if !live then (st1, Err(SessionUnavailable))
    else
      var s := st1.sessions[sid];
      if s.status == Completed then (st1, Err(AlreadyCompleted))
      else if s.quoteId != quoteId then (st1, Err(QuoteMismatch))
      else
        var receipts := Receipts(st1.files, s.uploaded, sid);
        (MarkCompleted(st1, sid),
         Ok(CompleteReceipt(sid, s.quoteId, |receipts|, SumOf(receipts), receipts, now)))
  }

  // ---- Cleanup -------------------------------------------------------------

  predicate IsExpired(s: Session, now: int) {
    s.expiresAt < now || s.status == Expired
  }

  /** The comprehension at the head of `cleanup_expired_sessions`, in dictionary order. */
  function ExpiredIds(st: State, ids: seq<string>, now: int): seq<string> {
    if ids == [] then []
    else
      var rest := ExpiredIds(st, ids[..|ids| - 1], now);
      var sid := ids[|ids| - 1];
      if sid in st.sessions && IsExpired(st.sessions[sid], now) then rest + [sid] else rest
  }

  function OwnedNames(files: map<string, FileRecord>, ids: seq<string>): set<string> {
    set id | id in ids && id in files :: StorageName(id, files[id].extension)
  }

  function Without(order: seq<string>, gone: set<string>): seq<string> {
    if order == [] then []
    else
      var rest := Without(order[..|order| - 1], gone);
      var id := order[|order| - 1];
      if id in gone then rest else rest + [id]
  }

  /** The body of the cleanup loop; the flag is false when `cleanup_session` raised `KeyError`.
      It raises at the first file it finds, after unlinking it, and leaves the session in place. */
  function CollectOne(env: Env, st: State, sid: string): (State, bool)
    requires sid in st.sessions
  {
    var s := st.sessions[sid];
    var dir := Sanitize(sid);
    var marked := if s.status != Completed then s.(status := Expired) else s;
    var files := map id | id in st.files && id !in s.uploaded :: st.files[id];
    var left := if dir in st.disk then st.disk[dir] - OwnedNames(st.files, s.uploaded) else map[];
    if left == map[] then
      (st.(sessions := st.sessions - {sid}, order := Without(st.order, {sid}), files := files,
           disk := st.disk - {dir}), true)
    else
      (st.(sessions := st.sessions[sid := marked], files := files,
           disk := st.disk[dir := left - {env.firstListed(left.Keys)}]), false)
  }

  function CollectAll(env: Env, st: State, ids: seq<string>): (State, Result<nat, CleanupError>)
    decreases |ids|
  {
    if ids == [] then (st, Ok(0))
    else if ids[0] !in st.sessions then (st, Err(KeyErrorRaised))
    else
      var (st1, ok) := CollectOne(env, st, ids[0]);
      if !ok then (st1, Err(KeyErrorRaised))
      else
        var (st2, r) := CollectAll(env, st1, ids[1..]);
        match r
        case Ok(n) => (st2, Ok(n + 1))
        case Err(e) => (st2, Err(e))
  }

  /** `cleanup_expired_sessions`. */
  function Cleanup(env: Env, st: State, now: int): (State, Result<nat, CleanupError>) {
    CollectAll(env, st.(clock := now), ExpiredIds(st, st.order, now))
  }

  // ---- Operations and runs -------------------------------------------------

  datatype Op =
    | OpCreate(req: CreateRequest, newId: string, now: int)
    | OpGet(sid: string, now: int)
    | OpUpload(sid: string, ureq: UploadRequest, content: Bytes, newId: string, now: int)
    | OpStream(sid: string, ureq: UploadRequest, declared: Option<int>, content: Bytes, newId: string, now: int)
    | OpComplete(sid: string, quoteId: string, now: int)
    | OpCleanup(now: int)

  /** The environment's promise: the clock never goes back, and ids are fresh hex strings. */
  predicate Admissible(st: State, op: Op) {
    op.now >= st.clock &&
    (op.OpCreate? || op.OpUpload? || op.OpStream? ==> HexId(op.newId) && op.newId !in st.used)
  }

  function Step(env: Env, st: State, op: Op): State {
    match op
    case OpCreate(req, id, now) => CreateSession(st, req, id, now).0
    case OpGet(sid, now) => GetSession(st, sid, now).0
    case OpUpload(sid, req, content, id, now) => Upload(env, st, sid, req, content, id, now).0
    case OpStream(sid, req, declared, content, id, now) => StreamUpload(env, st, sid, req, declared, content, id, now).0
    case OpComplete(sid, quoteId, now) => Complete(st, sid, quoteId, now).0
    case OpCleanup(now) => Cleanup(env, st, now).0
  }

  /** The state after `ops`, oldest first. */
  function Run(env: Env, ops: seq<Op>): State {
    if ops == [] then INITIAL else Step(env, Run(env, ops[..|ops| - 1]), ops[|ops| - 1])
  }

  predicate AdmissibleRun(env: Env, ops: seq<Op>) {
    ops == [] ||
    (AdmissibleRun(env, ops[..|ops| - 1]) && Admissible(Run(env, ops[..|ops| - 1]), ops[|ops| - 1]))
  }
}
