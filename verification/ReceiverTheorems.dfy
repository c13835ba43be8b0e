// Safety of the local receiver over whole runs.
module ReceiverTheorems {
  import opened Prelude
  import opened PathSanitizer
  import opened StoragePaths
  import opened ReceiverModels
  import opened ReceiverState
  import opened ReceiverInvariant
  import opened ReceiverCleanup
  import opened ReceiverRaises

  // ---- The invariant over every run -------------------------------------------

  lemma StepInv(env: Env, st: State, op: Op)
    requires Inv(env, st) && Admissible(st, op)
    ensures Inv(env, Step(env, st, op))
  {
    hide Inv, HexId, CreateSession, GetSession, Upload, StreamUpload, Complete, Cleanup;
    match op
    case OpCreate(req, id, now) => CreateInv(env, st, req, id, now);
    case OpGet(sid, now) => GetSessionInv(env, st, sid, now);
    case OpUpload(sid, req, content, id, now) => UploadInv(env, st, sid, req, content, id, now);
    case OpStream(sid, req, declared, content, id, now) => StreamInv(env, st, sid, req, declared, content, id, now);
    case OpComplete(sid, quoteId, now) => CompleteInv(env, st, sid, quoteId, now);
    case OpCleanup(now) => CleanupInv(env, st, now);
  }

  /** Every reachable state satisfies the receiver's invariant. */
  lemma {:induction false} RunInv(env: Env, ops: seq<Op>)
    requires AdmissibleRun(env, ops)
    ensures Inv(env, Run(env, ops))
  {
    hide Step, Admissible;
    if ops != [] {
      RunInv(env, ops[..|ops| - 1]);
      StepInv(env, Run(env, ops[..|ops| - 1]), ops[|ops| - 1]);
    }
  }

  // ---- Record types -----------------------------------------------------------

  /** A declared size below zero, which no real file reports. */
  predicate NegativeSize(op: Op) {
    op.OpStream? && Probe(op.declared) <= 0
  }

  lemma StepTyped(env: Env, st: State, op: Op)
    requires Inv(env, st) && Admissible(st, op) && AllTyped(st) && !NegativeSize(op)
    ensures AllTyped(Step(env, st, op))
  {
    hide Inv, HexId, AllTyped, GetSession, CreateSession, Upload, StreamUpload, Complete, Cleanup;
    match op
    case OpCreate(req, id, now) => CreateKeeps(env, st, req, id, now);
    case OpGet(sid, now) =>
      GetSessionInv(env, st, sid, now);
      TypedSame(st, GetSession(st, sid, now).0);
    case OpUpload(sid, req, content, id, now) => UploadInv(env, st, sid, req, content, id, now);
    case OpStream(sid, req, declared, content, id, now) => StreamInv(env, st, sid, req, declared, content, id, now);
    case OpComplete(sid, quoteId, now) =>
      CompleteInv(env, st, sid, quoteId, now);
      TypedSame(st, Complete(st, sid, quoteId, now).0);
    case OpCleanup(now) => CleanupInv(env, st, now);
  }

  lemma TypedSame(st: State, st': State)
    requires st'.files == st.files
    ensures AllTyped(st) ==> AllTyped(st')
  {
  }

  /** Unless a stream declared a negative size, every stored record's extension is listed for its type. */
  lemma {:induction false} RunTyped(env: Env, ops: seq<Op>)
    requires AdmissibleRun(env, ops) && forall op :: op in ops ==> !NegativeSize(op)
    ensures AllTyped(Run(env, ops))
  {
    hide Step, Admissible, AllTyped, NegativeSize;
    if ops != [] {
      var init := ops[..|ops| - 1];
      RunTyped(env, init);
      RunInv(env, init);
      StepTyped(env, Run(env, init), ops[|ops| - 1]);
    } else {
      TypedSame(INITIAL, INITIAL);
      NoFilesTyped(INITIAL);
    }
  }

  lemma NoFilesTyped(st: State)
    requires st.files == map[]
    ensures AllTyped(st)
  {
  }

  // ---- Strays and cleanup -----------------------------------------------------

  /** The one operation that leaves bytes behind without a record. */
  predicate EmptyStream(op: Op) {
    op.OpStream? && op.content == []
  }

  lemma CleanupStrays(env: Env, st: State, now: int)
    requires Inv(env, st) && now >= st.clock && AllStrayFree(st)
    ensures Cleanup(env, st, now).1.Ok?
    ensures var st' := Cleanup(env, st, now).0; st'.disk.Keys == st'.sessions.Keys && AllStrayFree(st')
  {
    hide Inv, Cleanup, IsExpired, StrayFree, RemoveSessions;
    CleanupExact(env, st, now);
    var gone := ExpiredSet(st, now);
    var st0 := st.(clock := now);
    ClockAdvance(env, st, now);
    CleanupInv(env, st, now);
    InvParts(env, Cleanup(env, st, now).0);
    RemovedKeys(st0, gone);
    forall x | x in RemoveSessions(st0, gone).sessions ensures StrayFree(RemoveSessions(st0, gone), x) {
      StraysLocal(env, st0, gone, x);
      StrayClock(st, now, x);
    }
  }

  lemma StepStrays(env: Env, st: State, op: Op)
    requires Inv(env, st) && Admissible(st, op) && AllStrayFree(st) && !EmptyStream(op)
    ensures var st' := Step(env, st, op); st'.disk.Keys == st'.sessions.Keys && AllStrayFree(st')
  {
    hide Inv, HexId, AllStrayFree, GetSession, CreateSession, Upload, StreamUpload, Complete, Cleanup;
    hide SessionsOk, RecordsOk;
    InvParts(env, st);
    StepInv(env, st, op);
    InvParts(env, Step(env, st, op));
    match op
    case OpCreate(req, id, now) => CreateKeeps(env, st, req, id, now);
    case OpGet(sid, now) => GetSessionInv(env, st, sid, now);
    case OpUpload(sid, req, content, id, now) => UploadInv(env, st, sid, req, content, id, now);
    case OpStream(sid, req, declared, content, id, now) => StreamInv(env, st, sid, req, declared, content, id, now);
    case OpComplete(sid, quoteId, now) => CompleteInv(env, st, sid, quoteId, now);
    case OpCleanup(now) => CleanupStrays(env, st, now);
  }

  /** A run that never streams an empty file leaves no stray bytes, so cleanup never crashes in it. */
  lemma {:induction false} RunWithoutEmptyStreams(env: Env, ops: seq<Op>)
    requires AdmissibleRun(env, ops) && forall op :: op in ops ==> !EmptyStream(op)
    ensures var st := Run(env, ops);
            && st.disk.Keys == st.sessions.Keys && AllStrayFree(st)
            && forall now :: now >= st.clock ==> Cleanup(env, st, now).1.Ok?
  {
    hide Step, Admissible, AllStrayFree, EmptyStream, Cleanup, Inv;
    RunInv(env, ops);
    InvParts(env, Run(env, ops));
    if ops != [] {
      var init := ops[..|ops| - 1];
      RunWithoutEmptyStreams(env, init);
      RunInv(env, init);
      StepStrays(env, Run(env, init), ops[|ops| - 1]);
    } else {
      NoSessionsStrayFree(INITIAL);
    }
    forall now | now >= Run(env, ops).clock ensures Cleanup(env, Run(env, ops), now).1.Ok? {
      CleanupStrays(env, Run(env, ops), now);
    }
  }

  lemma NoSessionsStrayFree(st: State)
    requires st.sessions == map[] && st.disk == map[]
    ensures AllStrayFree(st)
  {
  }

  /** Streaming an empty file past the first check leaves a stray in the session's directory... */
  lemma EmptyStreamLeavesStray(
    env: Env, st: State, sid: string, req: UploadRequest, declared: Option<int>, fid: string, now: int)
    requires Inv(env, st) && now >= st.clock && HexId(fid) && fid !in st.used
    requires StreamGate(ValidateUpload(st, sid, req, Probe(declared), now).1).Accept?
    ensures var (st', outcome) := StreamUpload(env, st, sid, req, declared, [], fid, now);
            outcome == Rejected(EmptyFile) && sid in st'.sessions && sid in st'.disk && !StrayFree(st', sid)
  {
    hide Inv, HexId, JudgeType, Sanitize, StorageName, PlainExtension, TableEntry, Intact, Fits, ValidateUpload;
    hide SessionsOk, RecordsOk;
    var (st1, v) := ValidateUpload(st, sid, req, Probe(declared), now);
    ValidateInv(env, st, sid, req, Probe(declared), now);
    assert PlainExtension(StreamGate(v).extension) by { NoExtensionPlain(); }
    SanitizeHexIdentity(sid);
    InvParts(env, st1);
    FreshId(env, st1, fid);
    var name := StorageName(fid, StreamGate(v).extension);
    var ids := st1.sessions[sid].uploaded;
    forall id | id in ids && id in st1.files ensures StorageName(id, st1.files[id].extension) != name {
      RecordOnDisk(env, st1, id);
      StorageNameInjective(fid, StreamGate(v).extension, id, st1.files[id].extension);
    }
    assert name !in OwnedNames(st1.files, ids);
  }

  /** ... and the next cleanup after the session's expiry raises `KeyError`; `StraysRunOut` says how many do. */
  lemma EmptyStreamBreaksCleanup(
    env: Env, st: State, sid: string, req: UploadRequest, declared: Option<int>, fid: string, now: int, later: int)
    requires Inv(env, st) && now >= st.clock && HexId(fid) && fid !in st.used
    requires StreamGate(ValidateUpload(st, sid, req, Probe(declared), now).1).Accept?
    requires sid in st.sessions && later > st.sessions[sid].expiresAt && later >= now
    ensures Cleanup(env, StreamUpload(env, st, sid, req, declared, [], fid, now).0, later).1.Err?
  {
    hide Inv, HexId, JudgeType, Sanitize, StorageName, PlainExtension, Cleanup, StrayFree, PutFile;
    EmptyStreamLeavesStray(env, st, sid, req, declared, fid, now);
    StreamInv(env, st, sid, req, declared, [], fid, now);
    CleanupExact(env, StreamUpload(env, st, sid, req, declared, [], fid, now).0, later);
  }

  // ---- What one operation leaves of a session ----------------------------------------------------

  /** The operation stored a new record in a live session whose books were in order. */
  predicate Grew(st: State, op: Op, st': State, x: string)
    requires x in st.sessions && x in st'.sessions
  {
    && (op.OpUpload? || op.OpStream?) && op.sid == x
    && st.sessions[x].expiresAt >= op.now && Intact(st, x)
    && st'.sessions[x].uploaded == st.sessions[x].uploaded + [op.newId] && op.newId in st'.files
  }

  /** A write into session `t` as session `x` sees it. */
  lemma CommitKeepsOthers(
    env: Env, st: State, t: string, req: UploadRequest, ext: string, content: Bytes, fid: string, now: int, x: string)
    requires t in st.sessions && x in st.sessions && x in st.disk && HexId(t) && fid !in st.sessions[x].uploaded
    ensures var st' := Commit(env, st, t, req, ext, content, fid, now);
            && x in st'.sessions && st'.sessions[x].expiresAt == st.sessions[x].expiresAt
            && (if x == t then st'.sessions[x].uploaded == st.sessions[x].uploaded + [fid] && fid in st'.files
                else Kept(st, st', x) && DirectoryKept(st, st', x))
  {
    hide HexId, Sanitize, StorageName;
    SanitizeHexIdentity(t);
  }

  lemma TailKeepsOthers(
    env: Env, st: State, t: string, req: UploadRequest, ext: string, content: Bytes, fid: string, now: int, x: string)
    requires t in st.sessions && x in st.sessions && x in st.disk && HexId(t) && fid !in st.sessions[x].uploaded
    ensures var st' := StreamTail(env, st, t, req, ext, content, fid, now).0;
            && x in st'.sessions && st'.sessions[x].expiresAt == st.sessions[x].expiresAt
            && ((st'.sessions == st.sessions && st'.files == st.files)
                || st' == Commit(env, st, t, req, ext, content, fid, now))
            && (x != t ==> Kept(st, st', x) && DirectoryKept(st, st', x))
  {
    hide HexId, Sanitize, StorageName, Recheck, Commit, Kept;
    SanitizeHexIdentity(t);
    CommitKeepsOthers(env, st, t, req, ext, content, fid, now, x);
    KeptSame(st, StreamTail(env, st, t, req, ext, content, fid, now).0, x);
  }

  lemma KeptSame(st: State, st': State, x: string)
    requires x in st.sessions
    ensures st'.sessions == st.sessions && st'.files == st.files ==> Kept(st, st', x)
  {
  }

  /** An upload, streamed or not, keeps every session but the one it stores a record in. */
  lemma UploadKeeps(env: Env, st: State, op: Op, x: string)
    requires Inv(env, st) && Admissible(st, op) && x in st.sessions && (op.OpUpload? || op.OpStream?)
    ensures var st' := Step(env, st, op);
            && x in st'.sessions && st'.sessions[x].expiresAt == st.sessions[x].expiresAt
            && (Kept(st, st', x) || Grew(st, op, st', x))
            && (Sealed(st, x) ==> Kept(st, st', x) && DirectoryKept(st, st', x))
  {
    hide Inv, HexId, Commit, StreamTail, Kept, DirectoryKept, Intact, JudgeType;
    var size := if op.OpUpload? then |op.content| else Probe(op.declared);
    var (st1, v) := ValidateUpload(st, op.sid, op.ureq, size, op.now);
    ValidateInv(env, st, op.sid, op.ureq, size, op.now);
    LookupKeeps(env, st, op.sid, op.now, x);
    if StreamGate(v).Accept? {
      JudgeOpen(st1.sessions[op.sid], op.ureq, size);
      GetSessionLive(env, st, op.sid, op.now);
      FreshUpload(env, st1, op.newId, x);
      CommitKeepsOthers(env, st1, op.sid, op.ureq, StreamGate(v).extension, op.content, op.newId, op.now, x);
      TailKeepsOthers(env, st1, op.sid, op.ureq, StreamGate(v).extension, op.content, op.newId, op.now, x);
      ClockIrrelevant(st, Step(env, st, op), op.now, x);
    }
  }

  lemma FreshUpload(env: Env, st: State, fid: string, x: string)
    requires Inv(env, st) && x in st.sessions && fid !in st.used
    ensures x in st.disk && fid !in st.sessions[x].uploaded
  {
    hide Inv, SessionsOk, RecordsOk;
    InvParts(env, st);
    FreshId(env, st, fid);
  }

  lemma JudgeOpen(s: Session, req: UploadRequest, size: int)
    ensures StreamGate(Judge(s, req, size)).Accept? ==> s.status != Completed && s.status != Expired
  {
    hide JudgeType;
  }

  lemma ClockIrrelevant(st: State, st': State, now: int, x: string)
    requires x in st.sessions && x in st'.sessions
    ensures Kept(st.(clock := now), st', x) <==> Kept(st, st', x)
    ensures DirectoryKept(st.(clock := now), st', x) <==> DirectoryKept(st, st', x)
    ensures Intact(st.(clock := now), x) <==> Intact(st, x)
    ensures st'.sessions == st.sessions && st'.files == st.files ==> Kept(st, st', x)
  {
  }

  lemma LookupKeeps(env: Env, st: State, sid: string, now: int, x: string)
    requires Inv(env, st) && x in st.sessions
    ensures var st' := GetSession(st, sid, now).0;
            && x in st'.sessions && st'.sessions[x].expiresAt == st.sessions[x].expiresAt
            && Kept(st, st', x) && DirectoryKept(st, st', x)
  {
    hide Inv, HexId, SessionsOk, RecordsOk;
    InvParts(env, st);
  }

  /** No operation but a cleanup takes a session, a record or a total away, and none touches a sealed session. */
  lemma StepKeeps(env: Env, st: State, op: Op, x: string)
    requires Inv(env, st) && Admissible(st, op) && x in st.sessions && !op.OpCleanup?
    ensures var st' := Step(env, st, op);
            && x in st'.sessions && st'.sessions[x].expiresAt == st.sessions[x].expiresAt
            && (Kept(st, st', x) || Grew(st, op, st', x))
            && (Sealed(st, x) ==> Kept(st, st', x) && DirectoryKept(st, st', x))
  {
    hide Inv, HexId, GetSession, Upload, StreamUpload, Intact, CheckRequest, Complete, Kept;
    match op
    case OpCreate(req, id, now) => CreateKeepsOthers(env, st, req, id, now, x);
    case OpGet(sid, now) => LookupKeeps(env, st, sid, now, x);
    case OpUpload(_, _, _, _, _) => UploadKeeps(env, st, op, x);
    case OpStream(_, _, _, _, _, _) => UploadKeeps(env, st, op, x);
    case OpComplete(sid, quoteId, now) =>
      LookupKeeps(env, st, sid, now, x);
      CompleteKeeps(st, sid, quoteId, now, x);
  }

  lemma CreateKeepsOthers(env: Env, st: State, req: CreateRequest, id: string, now: int, x: string)
    requires Inv(env, st) && HexId(id) && id !in st.used && x in st.sessions
    ensures var st' := CreateSession(st, req, id, now).0;
            && x in st'.sessions && st'.sessions[x] == st.sessions[x] && Kept(st, st', x) && DirectoryKept(st, st', x)
  {
    hide Inv, HexId, Sanitize, CheckRequest, SessionsOk, RecordsOk;
    InvParts(env, st);
    FreshId(env, st, id);
    SanitizeHexIdentity(id);
  }

  lemma CompleteKeeps(st: State, sid: string, quoteId: string, now: int, x: string)
    requires x in st.sessions && x in GetSession(st, sid, now).0.sessions
    requires Kept(st, GetSession(st, sid, now).0, x) && DirectoryKept(st, GetSession(st, sid, now).0, x)
    ensures var st' := Complete(st, sid, quoteId, now).0;
            && x in st'.sessions && st'.sessions[x].expiresAt == GetSession(st, sid, now).0.sessions[x].expiresAt
            && Kept(st, st', x) && DirectoryKept(st, st', x)
  {
    hide Complete, GetSession;
    CompleteShape(st, sid, quoteId, now);
  }

  // ---- Totals: exactly when they are right ---------------------------------------------------------

  /** Some cleanup of the run raised at `sid`. */
  predicate EverRaised(env: Env, ops: seq<Op>, sid: string) {
    ops != [] &&
    var init := ops[..|ops| - 1];
    EverRaised(env, init, sid) || RaisedAt(env, Run(env, init), ops[|ops| - 1]) == Some(sid)
  }

  lemma KeptIntact(st: State, st': State, x: string)
    requires x in st.sessions && x in st'.sessions && Kept(st, st', x)
    ensures Intact(st', x) <==> Intact(st, x)
  {
    SizeSumAgrees(st.files, st'.files, st.sessions[x].uploaded);
  }

  lemma GrownIntact(env: Env, st: State, op: Op, st': State, x: string)
    requires Inv(env, st') && x in st.sessions && x in st'.sessions && Grew(st, op, st', x)
    ensures Intact(st', x) && st'.sessions[x].uploaded != []
  {
    hide OrderOk, RecordsOk, OwnersUnique, SessionShape, HexId;
    assert SessionOk(st', x);
    var ids := st'.sessions[x].uploaded;
    assert ids[|ids| - 1] == op.newId;
  }

  lemma EmptiedIntact(st: State, st': State, x: string)
    requires x in st.sessions && x in st'.sessions && Emptied(st, st', x)
    requires st.sessions[x].uploaded == [] ==> Intact(st, x)
    ensures Intact(st', x) <==> st.sessions[x].uploaded == []
  {
    var ids := st.sessions[x].uploaded;
    if ids != [] { assert ids[0] in ids; }
  }

  lemma NewIntact(env: Env, st: State, op: Op, x: string)
    requires Inv(env, st) && Admissible(st, op) && x !in st.sessions && x in Step(env, st, op).sessions
    ensures var st' := Step(env, st, op); st'.sessions[x].uploaded == [] && Intact(st', x)
  {
    hide Inv, HexId, CheckRequest, Sanitize, Upload, StreamUpload, GetSession, Complete, Cleanup;
    if !op.OpCreate? { NoNewSession(env, st, op); }
  }

  /** Only a creation adds a session. */
  lemma NoNewSession(env: Env, st: State, op: Op)
    requires !op.OpCreate?
    ensures Step(env, st, op).sessions.Keys <= st.sessions.Keys
  {
    hide ValidateUpload, GetSession, Upload, StreamUpload, Complete, Cleanup;
    match op
    case OpGet(sid, now) => LookupKeys(st, sid, now);
    case OpUpload(sid, req, content, id, now) => UploadKeys(env, st, sid, req, content, id, now);
    case OpStream(sid, req, declared, content, id, now) => StreamKeys(env, st, sid, req, declared, content, id, now);
    case OpComplete(sid, quoteId, now) =>
      LookupKeys(st, sid, now);
      CompleteShape(st, sid, quoteId, now);
    case OpCleanup(now) => CleanupShape(env, st, now);
  }

  lemma LookupKeys(st: State, sid: string, now: int)
    ensures GetSession(st, sid, now).0.sessions.Keys == st.sessions.Keys
    ensures GetSession(st, sid, now).1 ==> sid in st.sessions
  {
  }

  lemma UploadKeys(
    env: Env, st: State, sid: string, req: UploadRequest, content: Bytes, fid: string, now: int)
    ensures Upload(env, st, sid, req, content, fid, now).0.sessions.Keys == st.sessions.Keys
  {
    hide Judge, GetSession, Sanitize, StorageName, PutFile;
    LookupKeys(st, sid, now);
  }

  lemma StreamKeys(
    env: Env, st: State, sid: string, req: UploadRequest, declared: Option<int>, content: Bytes, fid: string, now: int)
    ensures StreamUpload(env, st, sid, req, declared, content, fid, now).0.sessions.Keys == st.sessions.Keys
  {
    hide Judge, GetSession, Sanitize, StorageName, PutFile, DeleteFile, Recheck;
    LookupKeys(st, sid, now);
  }

  /** In every reachable state a session's records are all there and add up to its total, exactly when it has no uploads
      or no cleanup of the run raised at it. */
  lemma {:induction false} TotalsExact(env: Env, ops: seq<Op>, sid: string)
    requires AdmissibleRun(env, ops) && sid in Run(env, ops).sessions
    ensures var st := Run(env, ops);
            Intact(st, sid) <==> st.sessions[sid].uploaded == [] || !EverRaised(env, ops, sid)
    ensures EverRaised(env, ops, sid) ==> Run(env, ops).sessions[sid].expiresAt < Run(env, ops).clock
  {
    hide Step, Admissible, Inv, Intact, RaisedAt, Kept, Emptied, Grew, DirectoryKept;
    var init, op := ops[..|ops| - 1], ops[|ops| - 1];
    var st, st' := Run(env, init), Run(env, ops);
    RunInv(env, init);
    RunInv(env, ops);
    if sid !in st.sessions {
      NewIntact(env, st, op, sid);
      NotRaisedBefore(env, init, op, sid);
    } else {
      TotalsExact(env, init, sid);
      StepClock(env, st, op);
      if op.OpCleanup? {
        CleanupTotals(env, st, op, sid);
        if RaisedAt(env, st, op) == Some(sid) { EmptiedIntact(st, st', sid); } else { KeptIntact(st, st', sid); }
      } else {
        NoRaise(env, st, op);
        StepKeeps(env, st, op, sid);
        if Kept(st, st', sid) {
          KeptIntact(st, st', sid);
          KeptUploads(st, st', sid);
        } else {
          GrownIntact(env, st, op, st', sid);
          GrownLive(st, op, st', sid);
        }
      }
    }
  }

  lemma KeptUploads(st: State, st': State, x: string)
    requires x in st.sessions && x in st'.sessions
    ensures Kept(st, st', x) || Emptied(st, st', x) ==> st'.sessions[x].uploaded == st.sessions[x].uploaded
  {
  }

  lemma GrownLive(st: State, op: Op, st': State, x: string)
    requires x in st.sessions && x in st'.sessions && Grew(st, op, st', x) && Admissible(st, op)
    ensures st.sessions[x].expiresAt >= st.clock && Intact(st, x)
  {
    hide HexId;
  }

  lemma NoRaise(env: Env, st: State, op: Op)
    ensures !op.OpCleanup? ==> RaisedAt(env, st, op) == None
  {
  }

  lemma StepClock(env: Env, st: State, op: Op)
    requires Admissible(st, op)
    ensures Step(env, st, op).clock == op.now >= st.clock
  {
    hide HexId, Sanitize, StorageName, JudgeType, CheckRequest, PutFile, DeleteFile, Receipts, SumOf, Cleanup, Recheck;
    if op.OpCleanup? { CleanupClock(env, st, op.now); }
  }

  lemma CleanupTotals(env: Env, st: State, op: Op, sid: string)
    requires Inv(env, st) && Admissible(st, op) && op.OpCleanup? && sid in st.sessions
    ensures var st' := Step(env, st, op);
            sid in st'.sessions ==>
              && st'.sessions[sid].expiresAt == st.sessions[sid].expiresAt
              && st'.sessions[sid].uploaded == st.sessions[sid].uploaded
              && (if RaisedAt(env, st, op) == Some(sid)
                  then Emptied(st, st', sid) && st.sessions[sid].expiresAt < op.now
                  else Kept(st, st', sid) && DirectoryKept(st, st', sid))
  {
    hide Inv, RaisedAt, Cleanup, HexId;
    CleanupKeepsOthers(env, st, op.now, sid);
    CleanupShape(env, st, op.now);
  }

  lemma CleanupShape(env: Env, st: State, now: int)
    ensures var st' := Cleanup(env, st, now).0;
            forall x :: x in st'.sessions ==>
              x in st.sessions && st'.sessions[x] == st.sessions[x].(status := st'.sessions[x].status)
  {
    hide ExpiredIds, CollectAll;
    CollectAllShape(env, st.(clock := now), ExpiredIds(st, st.order, now));
  }

  /** No cleanup raised at an id before it was drawn. */
  lemma {:induction false} NotRaisedBefore(env: Env, init: seq<Op>, op: Op, sid: string)
    requires AdmissibleRun(env, init) && Admissible(Run(env, init), op) && sid !in Run(env, init).sessions
    requires sid in Step(env, Run(env, init), op).sessions
    ensures init + [op] != [] ==> !EverRaised(env, init, sid) && RaisedAt(env, Run(env, init), op) != Some(sid)
  {
    hide Step, Admissible, Inv, RaisedAt;
    var st := Run(env, init);
    RunInv(env, init);
    if EverRaised(env, init, sid) {
      RaisedWasDrawn(env, init, sid);
      NoRevival(env, st, op, sid);
    }
    RaisedIsThere(env, st, op);
  }

  lemma RaisedIsThere(env: Env, st: State, op: Op)
    requires Inv(env, st) && Admissible(st, op)
    ensures var site := RaisedAt(env, st, op); site.Some? ==> site.value in st.sessions && site.value in st.used
  {
    hide Inv, RaiseSite, ExpiredIds, HexId;
    if op.OpCleanup? {
      SiteInside(env, st.(clock := op.now), ExpiredIds(st, st.order, op.now));
      var site := RaisedAt(env, st, op);
      if site.Some? { SessionIdUsed(env, st, site.value); }
    }
  }

  lemma {:induction false} RaisedWasDrawn(env: Env, ops: seq<Op>, sid: string)
    requires AdmissibleRun(env, ops) && EverRaised(env, ops, sid)
    ensures sid in Run(env, ops).used
  {
    hide Step, Admissible, Inv, RaisedAt;
    var init, op := ops[..|ops| - 1], ops[|ops| - 1];
    RunInv(env, init);
    RaisedIsThere(env, Run(env, init), op);
    if EverRaised(env, init, sid) { RaisedWasDrawn(env, init, sid); }
    StepDrawn(env, Run(env, init), op);
  }

  lemma StepDrawn(env: Env, st: State, op: Op)
    ensures st.used <= Step(env, st, op).used
  {
    hide HexId, Sanitize, StorageName, JudgeType, CheckRequest, PutFile, DeleteFile, Receipts, SumOf, ExpiredIds;
    hide CollectAll;
    if op.OpCleanup? { CollectAllShape(env, st.(clock := op.now), ExpiredIds(st, st.order, op.now)); }
  }

  /** A session that has not expired has all its records, and they add up to its total. */
  lemma LiveIsIntact(env: Env, ops: seq<Op>, sid: string)
    requires AdmissibleRun(env, ops) && sid in Run(env, ops).sessions
    ensures Run(env, ops).sessions[sid].expiresAt >= Run(env, ops).clock ==> Intact(Run(env, ops), sid)
  {
    hide Intact, Run, EverRaised;
    TotalsExact(env, ops, sid);
  }

  /** In a run without empty streams every session has all its records, and they add up to its total. */
  lemma IntactWithoutEmptyStreams(env: Env, ops: seq<Op>, sid: string)
    requires AdmissibleRun(env, ops) && sid in Run(env, ops).sessions && forall op :: op in ops ==> !EmptyStream(op)
    ensures Intact(Run(env, ops), sid)
  {
    hide Intact, Run, EmptyStream;
    TotalsExact(env, ops, sid);
    NeverRaised(env, ops, sid);
  }

  lemma {:induction false} NeverRaised(env: Env, ops: seq<Op>, sid: string)
    requires AdmissibleRun(env, ops) && forall op :: op in ops ==> !EmptyStream(op)
    ensures !EverRaised(env, ops, sid)
  {
    hide Step, EmptyStream, Cleanup, Inv, RaiseSite, AllStrayFree;
    if ops != [] {
      var init, op := ops[..|ops| - 1], ops[|ops| - 1];
      NeverRaised(env, init, sid);
      RunInv(env, init);
      RunWithoutEmptyStreams(env, init);
      CleanRaiseNone(env, Run(env, init), op, sid);
    }
  }

  lemma CleanRaiseNone(env: Env, st: State, op: Op, sid: string)
    requires Inv(env, st) && Admissible(st, op)
    requires forall now :: now >= st.clock ==> Cleanup(env, st, now).1.Ok?
    ensures RaisedAt(env, st, op) != Some(sid)
  {
    hide Inv, Cleanup, RaiseSite, HexId;
    RaisedIsThere(env, st, op);
    if op.OpCleanup? && sid in st.sessions { CleanupKeepsOthers(env, st, op.now, sid); }
  }

  const LOSS_REQUEST := CreateRequest("q", 10, [], [], 10, 10, 10)
  const LOSS_UPLOAD := UploadRequest("image/png", "")

  /** A session, one byte, an empty stream, and a cleanup once the session has expired. */
  function LossRun(sid: string, f: string, g: string): seq<Op> {
    [ OpCreate(LOSS_REQUEST, sid, 0),
      OpUpload(sid, LOSS_UPLOAD, [0], f, 0),
      OpStream(sid, LOSS_UPLOAD, None, [], g, 0),
      OpCleanup(11) ]
  }

  lemma PngAccepted(s: Session)
    ensures JudgeType(s, LOSS_UPLOAD) == Accept(CanonicalExtension("image/png"))
  {
    assert TypeAllowed("image/png") by { CanonicalListed(); }
    assert SplitExt("") == "" && Lower("") == "";
  }

  lemma CanonicalListed()
    ensures TypeAllowed("image/png")
  {
  }

  lemma LossStates(env: Env, sid: string, f: string, g: string)
    requires HexId(sid) && HexId(f) && HexId(g) && sid != f && sid != g && f != g
    ensures var ops := LossRun(sid, f, g);
            && AdmissibleRun(env, ops[..3])
            && var st := Run(env, ops[..2]);
            && sid in st.sessions && st.sessions[sid].uploaded == [f] && st.sessions[sid].total == 1
            && st.sessions[sid].status == Active && st.sessions[sid].expiresAt == 10 && st.sessions.Keys == {sid}
            && st.sessions[sid].maxFileSize == st.sessions[sid].maxTotal == st.sessions[sid].maxFiles == 10
            && st.clock == 0 && g !in st.used && f in st.files
  {
    hide HexId, JudgeType, Sanitize, StorageName, PutFile, MakeDirectory, CanonicalExtension;
    var ops := LossRun(sid, f, g);
    assert ops[..3][..2] == ops[..2] && ops[..2][..1] == ops[..1] && ops[..1][..0] == [];
    var st0 := Run(env, []);
    var st1 := Run(env, ops[..1]);
    assert st1 == CreateSession(INITIAL, LOSS_REQUEST, sid, 0).0;
    assert AdmissibleRun(env, []) && AdmissibleRun(env, ops[..1]);
    PngAccepted(st1.sessions[sid]);
    assert Run(env, ops[..2]) == Upload(env, st1, sid, LOSS_UPLOAD, [0], f, 0).0;
    assert Admissible(st1, ops[1]) && AdmissibleRun(env, ops[..2]);
    assert Admissible(Run(env, ops[..2]), ops[2]);
  }

  /** The failing input: the cleanup raises, and the session stays with a total of one byte and no record. */
  lemma TotalIsLost(env: Env, sid: string, f: string, g: string)
    requires HexId(sid) && HexId(f) && HexId(g) && sid != f && sid != g && f != g
    ensures var ops := LossRun(sid, f, g);
            && AdmissibleRun(env, ops)
            && var st := Run(env, ops);
            && sid in st.sessions && st.sessions[sid].total == 1 && SizeSum(st.files, st.sessions[sid].uploaded) == 0
            && !Intact(st, sid) && EverRaised(env, ops, sid)
  {
    hide HexId, JudgeType, StreamUpload, Cleanup, RaisedAt, Inv, Emptied, Intact, Upload, CreateSession, AdmissibleRun;
    hide SizeSum, StreamGate;
    var ops := LossRun(sid, f, g);
    LossStates(env, sid, f, g);
    var st2, st3 := Run(env, ops[..2]), Run(env, ops[..3]);
    assert ops[..3][..2] == ops[..2] && ops[..4] == ops;
    LossStream(env, st2, sid, g);
    LossPrefix(env, ops);
    RunInv(env, ops[..2]);
    RunInv(env, ops[..3]);
    EmptyStreamBreaksCleanup(env, st2, sid, LOSS_UPLOAD, None, g, 0, 11);
    var op := ops[3];
    LossKeeps(env, st2, ops[2], sid);
    StepClock(env, st2, ops[2]);
    RaisedIsThere(env, st3, op);
    CleanupKeepsOthers(env, st3, 11, sid);
    LossEnd(env, ops, st3, sid);
  }

  lemma LossPrefix(env: Env, ops: seq<Op>)
    requires |ops| == 4 && AdmissibleRun(env, ops[..3])
    ensures AdmissibleRun(env, ops[..2])
  {
    hide Admissible;
    assert ops[..3][..2] == ops[..2];
  }

  lemma LossStream(env: Env, st: State, sid: string, g: string)
    requires sid in st.sessions && st.sessions[sid].total == 1 && |st.sessions[sid].uploaded| == 1
    requires st.sessions[sid].status == Active && st.sessions[sid].expiresAt == 10 && st.clock == 0
    requires st.sessions[sid].maxFileSize == st.sessions[sid].maxTotal == st.sessions[sid].maxFiles == 10
    ensures StreamGate(ValidateUpload(st, sid, LOSS_UPLOAD, Probe(None), 0).1).Accept?
  {
    hide JudgeType, CanonicalExtension;
    PngAccepted(st.sessions[sid]);
  }

  /** The empty stream leaves the session's books alone. */
  lemma LossKeeps(env: Env, st: State, op: Op, sid: string)
    requires Inv(env, st) && Admissible(st, op) && sid in st.sessions && op.OpStream? && op.content == []
    ensures var st' := Step(env, st, op);
            && sid in st'.sessions && Kept(st, st', sid) && st'.sessions.Keys == st.sessions.Keys
  {
    hide Inv, HexId, Judge, GetSession, Sanitize, StorageName, PutFile, DeleteFile, Commit, MakeRecord, Probe;
    LookupKeeps(env, st, op.sid, op.now, sid);
    LookupKeys(st, op.sid, op.now);
  }

  lemma LossEnd(env: Env, ops: seq<Op>, st: State, sid: string)
    requires |ops| == 4 && AdmissibleRun(env, ops[..3]) && st == Run(env, ops[..3]) && ops[3] == OpCleanup(11)
    requires st.clock <= 11 && st.sessions.Keys == {sid} && RaisedAt(env, st, ops[3]) == Some(sid)
    requires st.sessions[sid].total == 1 && st.sessions[sid].uploaded != []
    requires var st' := Cleanup(env, st, 11).0; sid in st'.sessions && Emptied(st, st', sid)
    ensures AdmissibleRun(env, ops) && EverRaised(env, ops, sid)
    ensures var st' := Run(env, ops);
            && sid in st'.sessions && st'.sessions[sid].total == 1
            && SizeSum(st'.files, st'.sessions[sid].uploaded) == 0 && !Intact(st', sid)
  {
    hide Cleanup, RaisedAt, EverRaised, SizeSum, Intact, AdmissibleRun;
    var st' := Cleanup(env, st, 11).0;
    assert ops[..|ops| - 1] == ops[..3];
    LossUnfold(env, ops, sid);
    NothingCounted(st'.files, st'.sessions[sid].uploaded);
    LossNotIntact(st', sid);
  }

  lemma LossUnfold(env: Env, ops: seq<Op>, sid: string)
    requires |ops| == 4 && AdmissibleRun(env, ops[..3]) && Admissible(Run(env, ops[..3]), ops[3])
    requires RaisedAt(env, Run(env, ops[..3]), ops[3]) == Some(sid)
    ensures AdmissibleRun(env, ops) && EverRaised(env, ops, sid)
            && Run(env, ops) == Step(env, Run(env, ops[..3]), ops[3])
  {
    hide Step, Admissible, RaisedAt;
    assert ops[..|ops| - 1] == ops[..3];
  }

  lemma {:induction false} NothingCounted(files: map<string, FileRecord>, ids: seq<string>)
    requires forall id :: id in ids ==> id !in files
    ensures SizeSum(files, ids) == 0
  {
    if ids != [] { NothingCounted(files, ids[..|ids| - 1]); }
  }

  lemma LossNotIntact(st: State, sid: string)
    requires sid in st.sessions && st.sessions[sid].total == 1 && SizeSum(st.files, st.sessions[sid].uploaded) == 0
    ensures !Intact(st, sid)
  {
  }

  // ---- The streamed path against the buffered path ------------------------------

  /** The size announced before reading fits the session's limits. */
  predicate ProbeFits(st: State, sid: string, declared: Option<int>) {
    sid in st.sessions ==>
      var s := st.sessions[sid];
      Probe(declared) <= s.maxFileSize && s.total + Probe(declared) <= s.maxTotal
  }

  lemma JudgeSplit(s: Session, req: UploadRequest, size: int)
    ensures Judge(s, req, size).Accept? <==>
              s.status != Completed && s.status != Expired && Fits(s, size) && JudgeType(s, req).Accept?
    ensures Judge(s, req, size).Accept? ==> Judge(s, req, size) == JudgeType(s, req)
    ensures size > 0 ==> Judge(s, req, size) != Reject(EmptyFile)
  {
    JudgeTypeNotEmpty(s, req);
  }

  /** For every content and every positive announced size, the streamed path accepts exactly when the
      buffered path accepts and the announced size fits; and then both end in the same state with the same record. */
  lemma StreamMatchesBuffered(
    env: Env, st: State, sid: string, req: UploadRequest, declared: Option<int>, content: Bytes, fid: string,
    now: int)
    requires Probe(declared) > 0
    ensures var (ss, so) := StreamUpload(env, st, sid, req, declared, content, fid, now);
            var (bs, bo) := Upload(env, st, sid, req, content, fid, now);
            && (so.Stored? <==> bo.Stored? && ProbeFits(st, sid, declared))
            && (so.Stored? ==> so == bo && ss == bs)
  {
    hide JudgeType, Sanitize, StorageName, PutFile, DeleteFile;
    var (st1, live) := GetSession(st, sid, now);
    if live {
      JudgeSplit(st1.sessions[sid], req, Probe(declared));
      JudgeSplit(st1.sessions[sid], req, |content|);
    }
  }

  /** With the size absent or correct the two paths agree on every content: same answer, same state. */
  lemma StreamRefinesBuffered(
    env: Env, st: State, sid: string, req: UploadRequest, declared: Option<int>, content: Bytes, fid: string,
    now: int)
    requires declared == None || declared == Some(|content|)
    ensures var (ss, so) := StreamUpload(env, st, sid, req, declared, content, fid, now);
            var (bs, bo) := Upload(env, st, sid, req, content, fid, now);
            && (so.Stored? <==> bo.Stored?)
            && (so.Stored? ==> so == bo && ss == bs)
  {
    hide JudgeType, Sanitize, StorageName, PutFile, DeleteFile, StreamUpload;
    StreamMatchesBuffered(env, st, sid, req, declared, content, fid, now);
    var (st1, live) := GetSession(st, sid, now);
    if live { JudgeSplit(st1.sessions[sid], req, |content|); }
  }

  /** A negative announced size skips the type checks altogether: only the limits decide. */
  lemma StreamNegativeSize(
    env: Env, st: State, sid: string, req: UploadRequest, declared: Option<int>, content: Bytes, fid: string,
    now: int)
    requires Probe(declared) <= 0
    ensures var (st1, live) := GetSession(st, sid, now);
            var so := StreamUpload(env, st, sid, req, declared, content, fid, now).1;
            && (so.Stored? <==> live && st1.sessions[sid].status != Completed && st1.sessions[sid].status != Expired
                                && Fits(st1.sessions[sid], |content|))
            && (so.Stored? ==> so.record.extension == "" && !TableEntry(so.record.contentType, so.record.extension))
  {
    hide JudgeType, Sanitize, StorageName, PutFile, DeleteFile;
    var (st1, live) := GetSession(st, sid, now);
    if live { JudgeSplit(st1.sessions[sid], req, |content|); }
  }

  /** A session's own allowlists never narrow anything: the verdict is that of the global tables. */
  lemma SessionListsIgnored(s: Session, req: UploadRequest)
    requires SessionShape(s)
    ensures JudgeType(s, req) == JudgeType(s.(allowedTypes := [], allowedExts := []), req)
  {
    hide Distinct, AddRows, Extensions, SplitExt, LStripDots;
    var raw := Lower(SplitExt(req.originalFilename));
    if raw != "" {
      var ext := WithDot(raw);
      SplitExtDot(req.originalFilename);
      LowerTwice(SplitExt(req.originalFilename));
      forall e | e in s.allowedExts && WithDot(e) == ext ensures ext in ALLOWED_EXTENSIONS {
        SessionExtension(e);
      }
    }
  }

  // ---- Completion --------------------------------------------------------------

  lemma {:induction false} ReceiptsAll(files: map<string, FileRecord>, ids: seq<string>, sid: string)
    requires forall id :: id in ids ==> id in files && files[id].sessionId == sid
    ensures |Receipts(files, ids, sid)| == |ids|
    ensures SumOf(Receipts(files, ids, sid)) == SizeSum(files, ids)
    ensures forall k :: 0 <= k < |ids| ==> Receipts(files, ids, sid)[k] == files[ids[k]]
  {
    if ids != [] {
      var init, id := ids[..|ids| - 1], ids[|ids| - 1];
      ReceiptsAll(files, init, sid);
      var r, all := Receipts(files, init, sid), Receipts(files, ids, sid);
      assert id in ids;
      assert all == r + [files[id]] && all[..|all| - 1] == r;
      hide Receipts;
      forall k | 0 <= k < |ids| ensures all[k] == files[ids[k]] {
        if k < |init| { assert r[k] == files[init[k]]; }
      }
    }
  }

  /** A completion receipt lists exactly the session's files and adds up to its counters. */
  lemma CompletionReceiptExact(env: Env, st: State, sid: string, quoteId: string, now: int)
    requires Inv(env, st) && now >= st.clock && Complete(st, sid, quoteId, now).1.Ok?
    ensures var r := Complete(st, sid, quoteId, now).1.value;
            && sid in st.sessions
            && r.totalFiles == |st.sessions[sid].uploaded|
            && r.totalBytes == st.sessions[sid].total
            && |r.receipts| == r.totalFiles
            && forall k :: 0 <= k < |r.receipts| ==>
                 st.sessions[sid].uploaded[k] in st.files && r.receipts[k] == st.files[st.sessions[sid].uploaded[k]]
  {
    hide Inv, Receipts, SumOf, SizeSum;
    GetSessionLive(env, st, sid, now);
    ReceiptsAll(st.files, st.sessions[sid].uploaded, sid);
  }

  /** The session was issued and can never complete (again): it is completed, expired or collected. */
  predicate Sealed(st: State, sid: string) {
    sid in st.used && (sid in st.sessions ==>
        st.sessions[sid].status == Completed || st.sessions[sid].status == Expired)
  }

  lemma SealedBlocked(env: Env, st: State, sid: string, now: int)
    requires Inv(env, st) && now >= st.clock && Sealed(st, sid)
    ensures GetSession(st, sid, now).1 ==> sid in st.sessions && st.sessions[sid].status == Completed
  {
    hide Inv;
    if GetSession(st, sid, now).1 { GetSessionLive(env, st, sid, now); }
  }

  lemma StatusStays(env: Env, st: State, op: Op, sid: string)
    requires Inv(env, st) && Admissible(st, op) && Sealed(st, sid)
    ensures Sealed(Step(env, st, op), sid)
  {
    hide Inv, HexId, CheckRequest, ExpiredIds, CollectAll, Sanitize, Receipts, SumOf, JudgeType, StorageName, PutFile;
    hide DeleteFile, Recheck;
    match op
    case OpComplete(x, quoteId, now) => if x == sid { SealedBlocked(env, st, sid, now); }
    case OpCleanup(now) => CollectAllShape(env, st.(clock := now), ExpiredIds(st, st.order, now));
    case _ =>
  }

  /** Once sealed, always sealed. While the session stays, no operation changes its uploads, its total, its records or
      its bytes, except that a cleanup raising at it takes all its records. */
  lemma SealedStep(env: Env, st: State, op: Op, sid: string)
    requires Inv(env, st) && Admissible(st, op) && Sealed(st, sid)
    ensures var st' := Step(env, st, op);
            && Sealed(st', sid)
            && (sid in st.sessions && sid in st'.sessions ==>
                  if RaisedAt(env, st, op) == Some(sid) then Emptied(st, st', sid)
                  else Kept(st, st', sid) && DirectoryKept(st, st', sid))
  {
    hide Inv, HexId, Step, Sealed, Emptied, Kept, DirectoryKept, RaisedAt;
    StatusStays(env, st, op, sid);
    NoRaise(env, st, op);
    if sid in st.sessions {
      if op.OpCleanup? { CleanupTotals(env, st, op, sid); } else { StepKeeps(env, st, op, sid); }
    }
  }

  predicate Completes(st: State, op: Op, sid: string) {
    op.OpComplete? && op.sid == sid && Complete(st, sid, op.quoteId, op.now).1.Ok?
  }

  /** How often `sid` was completed successfully in the run. */
  function Completions(env: Env, ops: seq<Op>, sid: string): nat {
    if ops == [] then 0
    else
      var init := ops[..|ops| - 1];
      Completions(env, init, sid) + (if Completes(Run(env, init), ops[|ops| - 1], sid) then 1 else 0)
  }

  lemma CompletesSeals(env: Env, st: State, op: Op, sid: string)
    requires Inv(env, st) && Admissible(st, op) && Completes(st, op, sid)
    ensures !Sealed(st, sid) && Sealed(Step(env, st, op), sid)
  {
    hide Inv, HexId, Receipts, SumOf;
    GetSessionLive(env, st, sid, op.now);
    if Sealed(st, sid) { SealedBlocked(env, st, sid, op.now); }
    SessionIdUsed(env, st, sid);
  }

  lemma SessionIdUsed(env: Env, st: State, sid: string)
    requires Inv(env, st) && sid in st.sessions
    ensures sid in st.used
  {
    assert SessionOk(st, sid);
  }

  /** In any run a session completes at most once, and is sealed from then on. */
  lemma {:induction false} CompletesAtMostOnce(env: Env, ops: seq<Op>, sid: string)
    requires AdmissibleRun(env, ops)
    ensures Completions(env, ops, sid) <= 1
    ensures Completions(env, ops, sid) == 1 ==> Sealed(Run(env, ops), sid)
  {
    hide Step, Admissible, Sealed, Completes, Inv;
    if ops != [] {
      var init, op := ops[..|ops| - 1], ops[|ops| - 1];
      CompletesAtMostOnce(env, init, sid);
      RunInv(env, init);
      if Completes(Run(env, init), op, sid) {
        CompletesSeals(env, Run(env, init), op, sid);
      } else if Sealed(Run(env, init), sid) {
        SealedStep(env, Run(env, init), op, sid);
      }
    }
  }

  /** Some cleanup after the first `n` operations raised at `sid`. */
  predicate RaisedSince(env: Env, ops: seq<Op>, n: nat, sid: string) {
    |ops| > n &&
    var init := ops[..|ops| - 1];
    RaisedSince(env, init, n, sid) || RaisedAt(env, Run(env, init), ops[|ops| - 1]) == Some(sid)
  }

  /** From the moment a session is sealed to its collection, whatever further operations run: it keeps its uploads and
      its total, and if no cleanup raised at it, each record and every byte; if one did, it has no record left. */
  lemma {:induction false} SealedForever(env: Env, ops: seq<Op>, n: nat, sid: string)
    requires AdmissibleRun(env, ops) && n <= |ops| && AdmissibleRun(env, ops[..n]) && Sealed(Run(env, ops[..n]), sid)
    ensures var st, st' := Run(env, ops[..n]), Run(env, ops);
            && Sealed(st', sid)
            && (sid in st'.sessions ==>
                  && sid in st.sessions
                  && if RaisedSince(env, ops, n, sid) then Emptied(st, st', sid)
                     else Kept(st, st', sid) && DirectoryKept(st, st', sid))
  {
    hide Step, Admissible, Inv, Sealed, Emptied, Kept, RaisedAt;
    var st, st' := Run(env, ops[..n]), Run(env, ops);
    if n == |ops| {
      assert ops[..n] == ops;
      RunInv(env, ops);
      if sid in st'.sessions { KeptSelf(env, st, sid); }
    } else {
      var init, op := ops[..|ops| - 1], ops[|ops| - 1];
      assert init[..n] == ops[..n];
      SealedForever(env, init, n, sid);
      RunInv(env, init);
      var mid := Run(env, init);
      SealedStep(env, mid, op, sid);
      if sid !in mid.sessions {
        SealedIsUsed(mid, sid);
        NoRevival(env, mid, op, sid);
      } else if sid in st'.sessions {
        Compose(st, mid, st', sid);
      }
    }
  }

  lemma SealedIsUsed(st: State, sid: string)
    requires Sealed(st, sid)
    ensures sid in st.used
  {
  }

  lemma Compose(a: State, b: State, c: State, sid: string)
    requires sid in a.sessions && sid in b.sessions && sid in c.sessions
    ensures Kept(a, b, sid) && Kept(b, c, sid) ==> Kept(a, c, sid)
    ensures (Kept(a, b, sid) || Emptied(a, b, sid)) && Emptied(b, c, sid) ==> Emptied(a, c, sid)
    ensures Emptied(a, b, sid) && Kept(b, c, sid) ==> Emptied(a, c, sid)
  {
  }

  /** A sealed session that stays loses a record exactly when it had one and a cleanup raised at it since. */
  lemma SealedLosesExactly(env: Env, ops: seq<Op>, n: nat, sid: string, id: string)
    requires AdmissibleRun(env, ops) && n <= |ops| && AdmissibleRun(env, ops[..n]) && Sealed(Run(env, ops[..n]), sid)
    requires sid in Run(env, ops).sessions
    ensures sid in Run(env, ops[..n]).sessions
    ensures id in Run(env, ops[..n]).sessions[sid].uploaded && id in Run(env, ops[..n]).files ==>
              (id !in Run(env, ops).files <==> RaisedSince(env, ops, n, sid))
  {
    hide Run, Sealed, RaisedSince;
    SealedForever(env, ops, n, sid);
  }

  /** A collected session id never comes back. */
  lemma NoRevival(env: Env, st: State, op: Op, sid: string)
    requires Inv(env, st) && Admissible(st, op) && sid in st.used && sid !in st.sessions
    ensures sid !in Step(env, st, op).sessions
  {
    hide Inv, HexId, CheckRequest, Sanitize, Upload, StreamUpload, GetSession, Complete, Cleanup;
    if !op.OpCreate? { NoNewSession(env, st, op); }
  }
}
