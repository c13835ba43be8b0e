// The receiver's global invariant and its preservation by every operation.
module ReceiverInvariant {
  import opened Prelude
  import opened PathSanitizer
  import opened StoragePaths
  import opened ReceiverModels
  import opened ReceiverState

  // ---- The invariant -------------------------------------------------------

  /** Total size of the listed files that still have a record. */
  function SizeSum(files: map<string, FileRecord>, ids: seq<string>): int {
    if ids == [] then 0
    else
      var id := ids[|ids| - 1];
      SizeSum(files, ids[..|ids| - 1]) + (if id in files then files[id].size else 0)
  }

  predicate Intact(st: State, sid: string)
    requires sid in st.sessions
  {
    var s := st.sessions[sid];
    (forall id :: id in s.uploaded ==> id in st.files && st.files[id].sessionId == sid)
    && s.total == SizeSum(st.files, s.uploaded)
  }

  /** An expired session whose cleanup crashed half-way: its records are gone. */
  predicate HalfCollected(st: State, sid: string)
    requires sid in st.sessions
  {
    var s := st.sessions[sid];
    s.expiresAt < st.clock && forall id :: id in s.uploaded ==> id !in st.files
  }

  predicate SessionShape(s: Session) {
    s.maxFileSize > 0 && s.maxFiles > 0 && s.maxTotal > 0
    && (forall ct :: ct in s.allowedTypes ==> TypeAllowed(ct))
    && (forall e :: e in s.allowedExts ==> Lower(e) in ALLOWED_EXTENSIONS)
    && (s.status == Active || s.status == Completed || s.status == Expired)
    && Distinct(s.uploaded)
    && |s.uploaded| <= s.maxFiles
    && s.total <= s.maxTotal
  }

  predicate SessionOk(st: State, sid: string)
    requires sid in st.sessions
  {
    var s := st.sessions[sid];
    HexId(sid) && sid in st.used
    && SessionShape(s)
    && (s.status == Expired ==> s.expiresAt < st.clock)
    && (forall id :: id in s.uploaded ==> HexId(id) && id in st.used)
    && (Intact(st, sid) || HalfCollected(st, sid))
  }

  predicate OnDisk(env: Env, disk: map<string, Directory>, r: FileRecord) {
    r.sessionId in disk
    && var name := StorageName(r.fileId, r.extension);
       name in disk[r.sessionId]
       && |disk[r.sessionId][name]| == r.size
       && env.sha256(disk[r.sessionId][name]) == r.sha256
  }

  predicate RecordOk(env: Env, st: State, id: string)
    requires id in st.files
  {
    var r := st.files[id];
    r.fileId == id && HexId(id) && id in st.used
    && r.sessionId in st.sessions
    && id in st.sessions[r.sessionId].uploaded
    && r.quoteId == st.sessions[r.sessionId].quoteId
    && 1 <= r.size <= st.sessions[r.sessionId].maxFileSize
    && PlainExtension(r.extension)
    && OnDisk(env, st.disk, r)
  }

  /** No file is claimed by two sessions. */
  predicate OwnersUnique(sessions: map<string, Session>) {
    forall s, s' :: s in sessions && s' in sessions && s != s' ==>
      forall id :: id in sessions[s].uploaded ==> id !in sessions[s'].uploaded
  }

  predicate OrderOk(st: State) {
    Distinct(st.order)
    && (forall sid :: sid in st.order ==> sid in st.sessions)
    && (forall sid :: sid in st.sessions ==> sid in st.order)
  }

  predicate SessionsOk(st: State) {
    forall sid :: sid in st.sessions ==> SessionOk(st, sid)
  }

  predicate RecordsOk(env: Env, st: State) {
    forall id :: id in st.files ==> RecordOk(env, st, id)
  }

  predicate Inv(env: Env, st: State) {
    OrderOk(st)
    && st.disk.Keys == st.sessions.Keys
    && SessionsOk(st)
    && RecordsOk(env, st)
    && OwnersUnique(st.sessions)
  }

  /** Every record's extension is in its content type's list. */
  predicate AllTyped(st: State) {
    forall id :: id in st.files ==> TableEntry(st.files[id].contentType, st.files[id].extension)
  }

  /** The session directory holds nothing but the session's recorded files. */
  predicate StrayFree(st: State, sid: string)
    requires sid in st.sessions && sid in st.disk
  {
    st.disk[sid].Keys <= OwnedNames(st.files, st.sessions[sid].uploaded)
  }

  predicate AllStrayFree(st: State)
    requires st.disk.Keys == st.sessions.Keys
  {
    forall sid :: sid in st.sessions ==> StrayFree(st, sid)
  }

  // ---- Sums ----------------------------------------------------------------

  lemma {:induction false} SizeSumAgrees(
    files: map<string, FileRecord>, files': map<string, FileRecord>, ids: seq<string>)
    requires forall id :: id in ids ==>
               (id in files <==> id in files') && (id in files ==> files[id].size == files'[id].size)
    ensures SizeSum(files, ids) == SizeSum(files', ids)
  {
    if ids != [] { SizeSumAgrees(files, files', ids[..|ids| - 1]); }
  }

  lemma SizeSumAppend(files: map<string, FileRecord>, ids: seq<string>, id: string, r: FileRecord)
    requires id !in ids
    ensures SizeSum(files[id := r], ids + [id]) == SizeSum(files, ids) + r.size
  {
    assert (ids + [id])[..|ids|] == ids;
    SizeSumAgrees(files, files[id := r], ids);
  }

  // ---- Validation ----------------------------------------------------------

  lemma {:induction false} LowerTwice(e: string)
    ensures Lower(Lower(e)) == Lower(e)
  {
    forall i | 0 <= i < |e| ensures LowerChar(LowerChar(e[i])) == LowerChar(e[i]) {}
  }

  lemma CanonicalTyped(ct: string)
    requires TypeAllowed(ct)
    ensures TableEntry(ct, CanonicalExtension(ct))
  {
    CanonicalEntry(ct);
  }

  /** The global tables decide: a session's own lists, being part of them, never add anything. */
  lemma JudgeTypeSound(s: Session, req: UploadRequest)
    requires SessionShape(s)
    requires JudgeType(s, req).Accept?
    ensures TableEntry(req.contentType, JudgeType(s, req).extension)
  {
    var ct := req.contentType;
    assert TypeAllowed(ct);
    var raw := Lower(SplitExt(req.originalFilename));
    CanonicalTyped(ct);
    if raw != "" {
      LowerTwice(SplitExt(req.originalFilename));
      var ext := WithDot(raw);
      SplitExtDot(req.originalFilename);
      assert ext == raw;
      assert Lower(ext) == ext;
      if ext !in ALLOWED_EXTENSIONS {
        var e :| e in s.allowedExts && WithDot(e) == ext;
        SessionExtension(e);
      }
      InvertedEntry(ct, ext);
    }
  }

  lemma JudgeTypeNotEmpty(s: Session, req: UploadRequest)
    ensures JudgeType(s, req) != Reject(EmptyFile)
  {
  }

  lemma SplitExtDot(f: string)
    ensures SplitExt(f) != "" ==> StartsWith(Lower(SplitExt(f)), ".")
  {
    LastIndexFound(f, '.');
    var x := SplitExt(f);
    if x != "" {
      assert x[0] == '.';
      assert Lower(x)[0] == '.';
      assert Lower(x)[..1] == ".";
    }
  }

  lemma {:induction false} LastIndexFound(s: string, c: char)
    ensures LastIndex(s, c) >= 0 ==> s[LastIndex(s, c)] == c
  {
    if s != [] && s[|s| - 1] != c { LastIndexFound(s[..|s| - 1], c); }
  }

  lemma SessionExtension(e: string)
    requires Lower(e) in ALLOWED_EXTENSIONS
    ensures WithDot(e) == e
  {
    InvertedEntry(ALLOWED_EXTENSIONS[Lower(e)], Lower(e));
    assert Lower(e)[0] == '.';
    assert LowerChar(e[0]) == '.';
    assert e[0] == '.';
    assert e[..1] == ".";
  }

  // ---- Frames: sessions and records an operation does not touch -------------

  predicate SameFiles(st: State, st': State, ids: seq<string>) {
    forall id :: id in ids ==>
      (id in st.files <==> id in st'.files) && (id in st.files ==> st'.files[id] == st.files[id])
  }

  /** A session is kept: at most its status moves, to "completed" or, once expired, to "expired". */
  predicate SameButStatus(s: Session, s': Session, clock: int) {
    s' == s.(status := s'.status)
    && (s'.status == s.status || s'.status == Completed || (s'.status == Expired && s.expiresAt < clock))
  }

  lemma SessionKept(st: State, st': State, sid: string)
    requires sid in st.sessions && sid in st'.sessions && SessionOk(st, sid)
    requires SameButStatus(st.sessions[sid], st'.sessions[sid], st'.clock)
    requires st.clock <= st'.clock && st.used <= st'.used && SameFiles(st, st', st.sessions[sid].uploaded)
    ensures SessionOk(st', sid)
  {
    hide HexId, TypeAllowed, AddRows, Lower, Distinct;
    SizeSumAgrees(st.files, st'.files, st.sessions[sid].uploaded);
  }

  lemma RecordKept(env: Env, st: State, st': State, id: string)
    requires id in st.files && RecordOk(env, st, id) && id in st'.files && st'.files[id] == st.files[id]
    requires st.files[id].sessionId in st'.sessions && st.used <= st'.used
    requires var sid := st.files[id].sessionId;
             && st'.sessions[sid].quoteId == st.sessions[sid].quoteId
             && st'.sessions[sid].maxFileSize == st.sessions[sid].maxFileSize
             && id in st'.sessions[sid].uploaded
    requires OnDisk(env, st'.disk, st.files[id])
    ensures RecordOk(env, st', id)
  {
    hide HexId, PlainExtension, OnDisk;
  }

  lemma OwnersKept(m: map<string, Session>, m': map<string, Session>)
    requires OwnersUnique(m) && m'.Keys <= m.Keys
    requires forall x :: x in m' ==> m'[x].uploaded == m[x].uploaded
    ensures OwnersUnique(m')
  {
  }

  lemma FramedSessions(st: State, st': State)
    requires SessionsOk(st) && st'.files == st.files && st'.sessions.Keys == st.sessions.Keys
    requires forall x :: x in st.sessions ==> SameButStatus(st.sessions[x], st'.sessions[x], st'.clock)
    requires st.clock <= st'.clock && st.used <= st'.used
    ensures SessionsOk(st')
  {
    hide SessionOk;
    forall sid | sid in st'.sessions ensures SessionOk(st', sid) { SessionKept(st, st', sid); }
  }

  lemma FramedRecords(env: Env, st: State, st': State)
    requires RecordsOk(env, st) && st'.files == st.files && st'.sessions.Keys == st.sessions.Keys
    requires forall x :: x in st.sessions ==> SameButStatus(st.sessions[x], st'.sessions[x], st'.clock)
    requires st.used <= st'.used
    requires forall id :: id in st.files ==> OnDisk(env, st'.disk, st.files[id])
    ensures RecordsOk(env, st')
  {
    hide OnDisk, HexId, PlainExtension;
    forall id | id in st'.files ensures RecordOk(env, st', id) {
      RecordOnDisk(env, st, id);
      RecordKept(env, st, st', id);
    }
  }

  /** Operations that leave uploads and records alone: the clock, statuses, ids drawn, stray bytes. */
  lemma Framed(env: Env, st: State, st': State)
    requires Inv(env, st)
    requires st'.order == st.order && st'.files == st.files && st'.sessions.Keys == st.sessions.Keys
            && st'.disk.Keys == st.disk.Keys
    requires forall x :: x in st.sessions ==> SameButStatus(st.sessions[x], st'.sessions[x], st'.clock)
    requires st.clock <= st'.clock && st.used <= st'.used
    requires forall id :: id in st.files ==> OnDisk(env, st'.disk, st.files[id])
    ensures Inv(env, st')
  {
    hide OnDisk, SessionsOk, RecordsOk, OwnersUnique, Distinct;
    OwnersKept(st.sessions, st'.sessions);
    FramedSessions(st, st');
    FramedRecords(env, st, st');
  }

  lemma StraysUnmoved(st: State, st1: State)
    requires st.disk.Keys == st.sessions.Keys && st1.sessions.Keys == st.sessions.Keys
    requires st1.files == st.files && st1.disk == st.disk
    requires forall x :: x in st.sessions ==> st1.sessions[x].uploaded == st.sessions[x].uploaded
    ensures AllStrayFree(st) ==> AllStrayFree(st1)
  {
    hide StorageName;
    forall x | AllStrayFree(st) && x in st1.sessions ensures StrayFree(st1, x) {
      assert StrayFree(st, x);
    }
  }

  lemma RecordOnDisk(env: Env, st: State, id: string)
    requires RecordsOk(env, st) && id in st.files
    ensures OnDisk(env, st.disk, st.files[id])
    ensures st.files[id].fileId == id && HexId(id) && id in st.used && PlainExtension(st.files[id].extension)
    ensures st.files[id].sessionId in st.sessions && id in st.sessions[st.files[id].sessionId].uploaded
  {
    hide HexId, PlainExtension, OnDisk;
    assert RecordOk(env, st, id);
  }

  lemma RecordsOnDisk(env: Env, st: State)
    requires RecordsOk(env, st)
    ensures forall id :: id in st.files ==> OnDisk(env, st.disk, st.files[id])
  {
    hide OnDisk, RecordsOk;
    forall id | id in st.files ensures OnDisk(env, st.disk, st.files[id]) { RecordOnDisk(env, st, id); }
  }

  // ---- Preservation: lookup --------------------------------------------------

  lemma GetSessionInv(env: Env, st: State, sid: string, now: int)
    requires Inv(env, st) && now >= st.clock
    ensures Inv(env, GetSession(st, sid, now).0)
    ensures GetSession(st, sid, now).0.files == st.files
    ensures AllStrayFree(st) ==> AllStrayFree(GetSession(st, sid, now).0)
  {
    hide OnDisk, SessionsOk, RecordsOk, OrderOk, OwnersUnique, AllStrayFree;
    var st' := GetSession(st, sid, now).0;
    RecordsOnDisk(env, st);
    Framed(env, st, st');
    StraysUnmoved(st, st');
  }

  lemma GetSessionLive(env: Env, st: State, sid: string, now: int)
    requires Inv(env, st) && now >= st.clock && GetSession(st, sid, now).1
    ensures sid in st.sessions && GetSession(st, sid, now).0 == st.(clock := now)
    ensures st.sessions[sid].status != Expired && st.sessions[sid].expiresAt >= now
    ensures Intact(st.(clock := now), sid)
  {
    hide OrderOk, OwnersUnique, RecordsOk, SessionShape, HexId;
    assert SessionOk(st, sid);
  }

  // ---- Preservation: creation ----------------------------------------------

  lemma CreatedSessionOk(st': State, req: CreateRequest, sid: string, now: int)
    requires CheckRequest(req, now).None? && HexId(sid) && sid in st'.used
    requires sid in st'.sessions
          && st'.sessions[sid] == Session(req.quoteId, Active, now, req.expiresAt, req.allowedTypes, req.allowedExts,
                                          req.maxFileSize, req.maxFiles, req.maxTotal, [], 0)
    ensures SessionOk(st', sid)
  {
    hide HexId, TypeAllowed, AddRows, Lower;
  }

  lemma OrderAppend(st: State, st': State, sid: string, s: Session)
    requires OrderOk(st) && sid !in st.sessions && st'.order == st.order + [sid]
            && st'.sessions == st.sessions[sid := s]
    ensures OrderOk(st')
  {
  }

  lemma OnDiskIn(env: Env, disk: map<string, Directory>, r: FileRecord)
    requires OnDisk(env, disk, r)
    ensures r.sessionId in disk
  {
  }

  lemma CreateRecords(env: Env, st: State, st': State, sid: string)
    requires RecordsOk(env, st) && st'.files == st.files && sid !in st.sessions && sid !in st.disk
    requires st.sessions.Keys <= st'.sessions.Keys && st.used <= st'.used && st.disk.Keys <= st'.disk.Keys
    requires forall x :: x in st.sessions ==> st'.sessions[x] == st.sessions[x]
    requires forall d :: d in st.disk ==> st'.disk[d] == st.disk[d]
    ensures RecordsOk(env, st')
  {
    hide HexId, PlainExtension, OnDisk, RecordOk;
    forall id | id in st'.files ensures RecordOk(env, st', id) {
      RecordOnDisk(env, st, id);
      OnDiskIn(env, st.disk, st.files[id]);
      assert OnDisk(env, st'.disk, st.files[id]) by { DiskKeeps(env, st.disk, st'.disk, st.files[id]); }
      RecordKept(env, st, st', id);
    }
  }

  lemma CreateInv(env: Env, st: State, req: CreateRequest, sid: string, now: int)
    requires Inv(env, st) && now >= st.clock && HexId(sid) && sid !in st.used
    ensures Inv(env, CreateSession(st, req, sid, now).0)
  {
    hide OnDisk, HexId, RecordsOk, SessionsOk, OrderOk, OwnersUnique, Sanitize, CheckRequest;
    var st' := CreateSession(st, req, sid, now).0;
    if CheckRequest(req, now).Some? {
      ClockAdvance(env, st, now);
    } else {
      SanitizeHexIdentity(sid);
      FreshId(env, st, sid);
      OrderAppend(st, st', sid, st'.sessions[sid]);
      CreateSessions(st, req, sid, now);
      CreateRecords(env, st, st', sid);
      CreateOwners(st.sessions, sid, st'.sessions[sid]);
    }
  }

  lemma CreateSessions(st: State, req: CreateRequest, sid: string, now: int)
    requires SessionsOk(st) && now >= st.clock && HexId(sid) && sid !in st.sessions && CheckRequest(req, now).None?
    ensures SessionsOk(CreateSession(st, req, sid, now).0)
  {
    hide HexId, SessionOk, Sanitize, CheckRequest;
    var st' := CreateSession(st, req, sid, now).0;
    forall x | x in st'.sessions ensures SessionOk(st', x) {
      if x != sid { SessionKept(st, st', x); } else { CreatedSessionOk(st', req, sid, now); }
    }
  }

  lemma CreateOwners(m: map<string, Session>, sid: string, s: Session)
    requires OwnersUnique(m) && sid !in m && s.uploaded == []
    ensures OwnersUnique(m[sid := s])
  {
  }

  lemma DiskKeeps(env: Env, disk: map<string, Directory>, disk': map<string, Directory>, r: FileRecord)
    requires OnDisk(env, disk, r) && r.sessionId in disk && r.sessionId in disk'
            && disk'[r.sessionId] == disk[r.sessionId]
    ensures OnDisk(env, disk', r)
  {
  }

  lemma ClockAdvance(env: Env, st: State, now: int)
    requires Inv(env, st) && now >= st.clock
    ensures Inv(env, st.(clock := now))
  {
    hide OnDisk, SessionsOk, RecordsOk, OrderOk, OwnersUnique;
    var st' := st.(clock := now);
    RecordsOnDisk(env, st);
    Framed(env, st, st');
  }

  /** A new session starts with an empty directory and disturbs no other. */
  lemma CreateKeeps(env: Env, st: State, req: CreateRequest, sid: string, now: int)
    requires Inv(env, st) && HexId(sid) && sid !in st.used
    ensures var st' := CreateSession(st, req, sid, now).0;
            && (AllTyped(st) ==> AllTyped(st'))
            && st'.disk.Keys == st'.sessions.Keys
            && (AllStrayFree(st) ==> AllStrayFree(st'))
  {
    hide HexId, Sanitize, TableEntry, CheckRequest, OrderOk, OwnersUnique, RecordsOk, SessionsOk;
    var st' := CreateSession(st, req, sid, now).0;
    SanitizeHexIdentity(sid);
    FreshId(env, st, sid);
    forall x | AllStrayFree(st) && x in st'.sessions ensures StrayFree(st', x) {
      if x in st.sessions { assert StrayFree(st, x); }
    }
  }

  // ---- Preservation: uploads -----------------------------------------------

  predicate Fits(s: Session, size: int) {
    1 <= size <= s.maxFileSize && s.total + size <= s.maxTotal && |s.uploaded| < s.maxFiles
  }

  /** Writing, or writing and deleting, under a fresh id leaves every recorded file as it was. */
  lemma PutFresh(
    env: Env, disk: map<string, Directory>, sid: string, fid: string, ext: string, content: Bytes, r: FileRecord)
    requires OnDisk(env, disk, r) && HexId(fid) && HexId(r.fileId) && fid != r.fileId
    requires PlainExtension(ext) && PlainExtension(r.extension)
    ensures var put := PutFile(disk, sid, StorageName(fid, ext), content);
            OnDisk(env, put, r) && OnDisk(env, DeleteFile(put, sid, StorageName(fid, ext)), r)
  {
    hide HexId, PlainExtension, StorageName;
    StorageNameInjective(fid, ext, r.fileId, r.extension);
  }

  lemma DistinctAppend(ids: seq<string>, id: string)
    requires Distinct(ids) && id !in ids
    ensures Distinct(ids + [id])
  {
  }

  lemma CommittedSessionOk(
    env: Env, st: State, sid: string, req: UploadRequest, ext: string, content: Bytes, fid: string, now: int)
    requires sid in st.sessions && SessionOk(st, sid) && Intact(st, sid)
    requires HexId(fid) && fid !in st.used && Fits(st.sessions[sid], |content|)
    ensures SessionOk(Commit(env, st, sid, req, ext, content, fid, now), sid)
  {
    hide HexId, TypeAllowed, AddRows, Lower, PutFile, StorageName, Distinct, Intact, HalfCollected;
    var s := st.sessions[sid];
    assert fid !in s.uploaded;
    CommittedIntact(env, st, sid, req, ext, content, fid, now);
    DistinctAppend(s.uploaded, fid);
  }

  lemma CommittedIntact(
    env: Env, st: State, sid: string, req: UploadRequest, ext: string, content: Bytes, fid: string, now: int)
    requires sid in st.sessions && Intact(st, sid) && fid !in st.sessions[sid].uploaded
    ensures Intact(Commit(env, st, sid, req, ext, content, fid, now), sid)
  {
    hide PutFile, StorageName, Sanitize, SizeSum;
    var s := st.sessions[sid];
    SizeSumAppend(st.files, s.uploaded, fid, MakeRecord(env, s, sid, req, ext, content, fid, now));
  }

  lemma CommittedRecordOk(
    env: Env, st: State, sid: string, req: UploadRequest, ext: string, content: Bytes, fid: string, now: int)
    requires sid in st.sessions && HexId(sid) && HexId(fid) && PlainExtension(ext) && Fits(st.sessions[sid], |content|)
    ensures RecordOk(env, Commit(env, st, sid, req, ext, content, fid, now), fid)
  {
    hide HexId, PlainExtension, StorageName, Sanitize;
    SanitizeHexIdentity(sid);
    var st' := Commit(env, st, sid, req, ext, content, fid, now);
    assert st'.sessions[sid].uploaded[|st.sessions[sid].uploaded|] == fid;
  }

  lemma CommittedOwners(st: State, st': State, sid: string, fid: string)
    requires OwnersUnique(st.sessions) && sid in st.sessions && st'.sessions.Keys == st.sessions.Keys
    requires forall x :: x in st.sessions ==> fid !in st.sessions[x].uploaded
    requires forall x :: x in st.sessions ==>
               st'.sessions[x].uploaded == if x == sid then st.sessions[x].uploaded + [fid] else st.sessions[x].uploaded
    ensures OwnersUnique(st'.sessions)
  {
  }

  lemma FreshId(env: Env, st: State, fid: string)
    requires SessionsOk(st) && RecordsOk(env, st) && fid !in st.used
    ensures fid !in st.files && fid !in st.sessions
    ensures forall x :: x in st.sessions ==> fid !in st.sessions[x].uploaded
  {
    hide HexId, PlainExtension, OnDisk, SessionShape, Intact, HalfCollected;
    forall id | id in st.files ensures id in st.used { assert RecordOk(env, st, id); }
    forall x | x in st.sessions ensures x in st.used && fid !in st.sessions[x].uploaded { assert SessionOk(st, x); }
  }

  lemma CommitSessions(
    env: Env, st: State, sid: string, req: UploadRequest, ext: string, content: Bytes, fid: string, now: int)
    requires SessionsOk(st) && sid in st.sessions && Intact(st, sid) && fid !in st.files
    requires forall x :: x in st.sessions ==> fid !in st.sessions[x].uploaded
    requires HexId(fid) && fid !in st.used && Fits(st.sessions[sid], |content|)
    ensures SessionsOk(Commit(env, st, sid, req, ext, content, fid, now))
  {
    hide HexId, Intact, Fits, SessionOk, PutFile, StorageName, Sanitize;
    var st' := Commit(env, st, sid, req, ext, content, fid, now);
    forall x | x in st'.sessions ensures SessionOk(st', x) {
      if x == sid {
        CommittedSessionOk(env, st, sid, req, ext, content, fid, now);
      } else {
        SessionKept(st, st', x);
      }
    }
  }

  lemma CommitRecords(
    env: Env, st: State, sid: string, req: UploadRequest, ext: string, content: Bytes, fid: string, now: int)
    requires RecordsOk(env, st) && sid in st.sessions
    requires HexId(sid) && HexId(fid) && PlainExtension(ext) && Fits(st.sessions[sid], |content|)
    ensures RecordsOk(env, Commit(env, st, sid, req, ext, content, fid, now))
  {
    hide HexId, PlainExtension, Fits, RecordOk, PutFile, StorageName, Sanitize;
    var st' := Commit(env, st, sid, req, ext, content, fid, now);
    forall id | id in st'.files ensures RecordOk(env, st', id) {
      if id == fid {
        CommittedRecordOk(env, st, sid, req, ext, content, fid, now);
      } else {
        CommitKeepsRecord(env, st, sid, req, ext, content, fid, now, id);
      }
    }
  }

  lemma CommitInv(
    env: Env, st: State, sid: string, req: UploadRequest, ext: string, content: Bytes, fid: string, now: int)
    requires Inv(env, st) && sid in st.sessions && Intact(st, sid) && HexId(sid)
    requires HexId(fid) && fid !in st.used && PlainExtension(ext) && Fits(st.sessions[sid], |content|)
    ensures Inv(env, Commit(env, st, sid, req, ext, content, fid, now))
  {
    hide HexId, PlainExtension, Fits, RecordsOk, SessionsOk, OwnersUnique, Intact, PutFile, StorageName, Sanitize;
    hide Distinct;
    FreshId(env, st, fid);
    CommittedOwners(st, Commit(env, st, sid, req, ext, content, fid, now), sid, fid);
    CommitSessions(env, st, sid, req, ext, content, fid, now);
    CommitRecords(env, st, sid, req, ext, content, fid, now);
    CommitDiskKeys(env, st, sid, req, ext, content, fid, now);
  }

  lemma CommitDiskKeys(
    env: Env, st: State, sid: string, req: UploadRequest, ext: string, content: Bytes, fid: string, now: int)
    requires sid in st.sessions && HexId(sid) && st.disk.Keys == st.sessions.Keys
    ensures var st' := Commit(env, st, sid, req, ext, content, fid, now); st'.disk.Keys == st'.sessions.Keys
  {
    hide HexId, Sanitize, StorageName;
    SanitizeHexIdentity(sid);
  }

  lemma CommitKeepsRecord(
    env: Env, st: State, sid: string, req: UploadRequest, ext: string, content: Bytes, fid: string, now: int,
    id: string)
    requires RecordsOk(env, st) && sid in st.sessions && id in st.files && id != fid
    requires HexId(sid) && HexId(fid) && PlainExtension(ext)
    ensures RecordOk(env, Commit(env, st, sid, req, ext, content, fid, now), id)
  {
    hide HexId, PlainExtension, StorageName, Sanitize, OnDisk, PutFile;
    RecordOnDisk(env, st, id);
    SanitizeHexIdentity(sid);
    PutFresh(env, st.disk, sid, fid, ext, content, st.files[id]);
    RecordKept(env, st, Commit(env, st, sid, req, ext, content, fid, now), id);
  }

  lemma CommitStrays(
    env: Env, st: State, sid: string, req: UploadRequest, ext: string, content: Bytes, fid: string, now: int)
    requires sid in st.sessions && HexId(sid) && st.disk.Keys == st.sessions.Keys && AllStrayFree(st)
    requires fid !in st.files
    ensures var st' := Commit(env, st, sid, req, ext, content, fid, now);
            st'.disk.Keys == st'.sessions.Keys && AllStrayFree(st')
  {
    hide HexId, Sanitize, StorageName;
    var st' := Commit(env, st, sid, req, ext, content, fid, now);
    SanitizeHexIdentity(sid);
    forall x | x in st'.sessions ensures StrayFree(st', x) {
      assert StrayFree(st, x);
      var ids, ids' := st.sessions[x].uploaded, st'.sessions[x].uploaded;
      assert OwnedNames(st.files, ids) <= OwnedNames(st'.files, ids') by {
        forall id | id in ids && id in st.files
          ensures StorageName(id, st.files[id].extension) in OwnedNames(st'.files, ids')
        {
          assert id in ids' && id in st'.files && st'.files[id] == st.files[id];
        }
      }
      if x == sid {
        assert ids'[|ids|] == fid && fid in ids' && fid in st'.files;
        assert StorageName(fid, ext) in OwnedNames(st'.files, ids');
      }
    }
  }

  // ---- Preservation: the two upload paths ------------------------------------

  lemma ValidateInv(env: Env, st: State, sid: string, req: UploadRequest, size: int, now: int)
    requires Inv(env, st) && now >= st.clock
    ensures var (st1, v) := ValidateUpload(st, sid, req, size, now);
            && Inv(env, st1) && st1.files == st.files && st1.used == st.used
            && (AllStrayFree(st) ==> AllStrayFree(st1))
            && (v == Reject(EmptyFile) ==> size <= 0)
            && (v.Accept? || v == Reject(EmptyFile) ==> sid in st1.sessions && HexId(sid) && Intact(st1, sid))
            && (v.Accept? ==>
                  Fits(st1.sessions[sid], size) && PlainExtension(v.extension)
                  && TableEntry(req.contentType, v.extension))
  {
    hide OrderOk, RecordsOk, OwnersUnique, OwnedNames, JudgeType, TableEntry, PlainExtension, HexId, Intact, Distinct;
    GetSessionInv(env, st, sid, now);
    var (st1, v) := ValidateUpload(st, sid, req, size, now);
    if GetSession(st, sid, now).1 {
      GetSessionLive(env, st, sid, now);
      assert SessionOk(st1, sid);
      JudgeTypeNotEmpty(st1.sessions[sid], req);
      if v.Accept? {
        JudgeTypeSound(st1.sessions[sid], req);
        TableEntryPlain(req.contentType, v.extension);
      }
    }
  }

  lemma UploadInv(env: Env, st: State, sid: string, req: UploadRequest, content: Bytes, fid: string, now: int)
    requires Inv(env, st) && now >= st.clock && HexId(fid) && fid !in st.used
    ensures var st' := Upload(env, st, sid, req, content, fid, now).0;
            && Inv(env, st')
            && (AllTyped(st) ==> AllTyped(st'))
            && (AllStrayFree(st) ==> AllStrayFree(st'))
  {
    hide Inv, HexId, TableEntry, PlainExtension, Intact, Fits, ValidateUpload, PutFile, StorageName, Sanitize;
    hide AllStrayFree, SessionsOk, RecordsOk;
    ValidateInv(env, st, sid, req, |content|, now);
    var (st1, v) := ValidateUpload(st, sid, req, |content|, now);
    InvParts(env, st);
    InvParts(env, st1);
    if v.Accept? {
      FreshId(env, st1, fid);
      CommitInv(env, st1, sid, req, v.extension, content, fid, now);
      InvParts(env, Commit(env, st1, sid, req, v.extension, content, fid, now));
      if AllStrayFree(st1) { CommitStrays(env, st1, sid, req, v.extension, content, fid, now); }
    }
  }

  lemma InvParts(env: Env, st: State)
    requires Inv(env, st)
    ensures st.disk.Keys == st.sessions.Keys && SessionsOk(st) && RecordsOk(env, st)
  {
  }

  /** Bytes written under a fresh id, and possibly deleted again, keep the invariant. */
  lemma ScratchFile(env: Env, st: State, sid: string, fid: string, ext: string, content: Bytes)
    requires Inv(env, st) && sid in st.sessions && HexId(sid) && HexId(fid) && fid !in st.used && PlainExtension(ext)
    ensures var put := PutFile(st.disk, sid, StorageName(fid, ext), content);
            var del := DeleteFile(put, sid, StorageName(fid, ext));
            && Inv(env, st.(disk := put, used := st.used + {fid}))
            && Inv(env, st.(disk := del, used := st.used + {fid}))
            && (AllStrayFree(st) ==> AllStrayFree(st.(disk := del, used := st.used + {fid})))
  {
    hide HexId, PlainExtension, StorageName, OnDisk, SessionsOk, RecordsOk, OwnersUnique, OrderOk, OwnedNames;
    var name := StorageName(fid, ext);
    var put := PutFile(st.disk, sid, name, content);
    var del := DeleteFile(put, sid, name);
    FreshId(env, st, fid);
    forall id | id in st.files ensures OnDisk(env, put, st.files[id]) && OnDisk(env, del, st.files[id]) {
      RecordOnDisk(env, st, id);
      PutFresh(env, st.disk, sid, fid, ext, content, st.files[id]);
    }
    Framed(env, st, st.(disk := put, used := st.used + {fid}));
    var st' := st.(disk := del, used := st.used + {fid});
    Framed(env, st, st');
    forall x | AllStrayFree(st) && x in st'.sessions ensures StrayFree(st', x) { assert StrayFree(st, x); }
  }

  lemma StreamTailInv(
    env: Env, st: State, sid: string, req: UploadRequest, ext: string, content: Bytes, fid: string, now: int)
    requires Inv(env, st) && sid in st.sessions && HexId(sid) && Intact(st, sid)
    requires HexId(fid) && fid !in st.used && PlainExtension(ext)
    ensures var st' := StreamTail(env, st, sid, req, ext, content, fid, now).0;
            && Inv(env, st')
            && (AllTyped(st) && TableEntry(req.contentType, ext) ==> AllTyped(st'))
            && st.disk.Keys == st.sessions.Keys && st'.disk.Keys == st'.sessions.Keys
            && (AllStrayFree(st) && content != [] ==> AllStrayFree(st'))
  {
    hide Inv, HexId, TableEntry, PlainExtension, Intact, PutFile, DeleteFile, StorageName, Sanitize, AllStrayFree;
    hide Commit, AllTyped, Recheck, SessionsOk, RecordsOk, Fits;
    var st' := StreamTail(env, st, sid, req, ext, content, fid, now).0;
    InvParts(env, st);
    SanitizeHexIdentity(sid);
    FreshId(env, st, fid);
    RecheckFits(st.sessions[sid], |content|);
    if Recheck(st.sessions[sid], |content|).None? {
      CommitInv(env, st, sid, req, ext, content, fid, now);
      CommitTyped(env, st, sid, req, ext, content, fid, now);
      InvParts(env, Commit(env, st, sid, req, ext, content, fid, now));
      if AllStrayFree(st) { CommitStrays(env, st, sid, req, ext, content, fid, now); }
    } else {
      ScratchFile(env, st, sid, fid, ext, content);
      SameTyped(st, st');
    }
    InvParts(env, st');
  }

  lemma RecheckFits(s: Session, size: nat)
    ensures Recheck(s, size).None? <==> Fits(s, size)
    ensures size > 0 ==> Recheck(s, size) != Some(EmptyFile)
  {
  }

  lemma SameTyped(st: State, st': State)
    ensures st'.files == st.files && AllTyped(st) ==> AllTyped(st')
  {
  }

  lemma CommitTyped(
    env: Env, st: State, sid: string, req: UploadRequest, ext: string, content: Bytes, fid: string, now: int)
    requires sid in st.sessions
    ensures AllTyped(st) && TableEntry(req.contentType, ext) ==>
            AllTyped(Commit(env, st, sid, req, ext, content, fid, now))
  {
    hide TableEntry, PutFile, StorageName, Sanitize;
  }

  /** The streamed path keeps the invariant for every declared size; the type of a record can only
      be wrong when the declared size is negative, and a stray only appears for an empty file. */
  lemma StreamInv(
    env: Env, st: State, sid: string, req: UploadRequest, declared: Option<int>, content: Bytes, fid: string,
    now: int)
    requires Inv(env, st) && now >= st.clock && HexId(fid) && fid !in st.used
    ensures var st' := StreamUpload(env, st, sid, req, declared, content, fid, now).0;
            && Inv(env, st')
            && (AllTyped(st) && Probe(declared) > 0 ==> AllTyped(st'))
            && st'.disk.Keys == st'.sessions.Keys
            && (AllStrayFree(st) && content != [] ==> AllStrayFree(st'))
  {
    hide Inv, HexId, TableEntry, PlainExtension, Intact, StreamTail, ValidateUpload, AllStrayFree, Fits;
    hide SessionsOk, RecordsOk;
    ValidateInv(env, st, sid, req, Probe(declared), now);
    var (st1, v) := ValidateUpload(st, sid, req, Probe(declared), now);
    InvParts(env, st);
    InvParts(env, st1);
    if StreamGate(v).Accept? {
      assert PlainExtension(StreamGate(v).extension) by { NoExtensionPlain(); }
      StreamTailInv(env, st1, sid, req, StreamGate(v).extension, content, fid, now);
    }
  }

  lemma NoExtensionPlain()
    ensures PlainExtension("")
  {
  }

  // ---- Preservation: completion --------------------------------------------

  lemma MarkCompletedInv(env: Env, st: State, sid: string)
    requires Inv(env, st) && sid in st.sessions
    ensures var st' := MarkCompleted(st, sid);
            Inv(env, st') && st'.files == st.files && (AllStrayFree(st) ==> AllStrayFree(st'))
  {
    hide OnDisk, SessionsOk, RecordsOk, OrderOk, OwnersUnique, AllStrayFree;
    var st' := MarkCompleted(st, sid);
    RecordsOnDisk(env, st);
    Framed(env, st, st');
    StraysUnmoved(st, st');
  }

  lemma CompleteShape(st: State, sid: string, quoteId: string, now: int)
    ensures var st1 := GetSession(st, sid, now).0;
            var st' := Complete(st, sid, quoteId, now).0;
            st' == st1 || (sid in st1.sessions && st' == MarkCompleted(st1, sid))
  {
    hide Receipts, SumOf;
  }

  lemma CompleteInv(env: Env, st: State, sid: string, quoteId: string, now: int)
    requires Inv(env, st) && now >= st.clock
    ensures var st' := Complete(st, sid, quoteId, now).0;
            && Inv(env, st') && st'.files == st.files
            && (AllStrayFree(st) ==> AllStrayFree(st'))
  {
    hide Inv, Complete, GetSession, AllStrayFree, MarkCompleted, SessionsOk, RecordsOk;
    CompleteShape(st, sid, quoteId, now);
    InvParts(env, st);
    GetSessionInv(env, st, sid, now);
    var st1 := GetSession(st, sid, now).0;
    InvParts(env, st1);
    if sid in st1.sessions {
      MarkCompletedInv(env, st1, sid);
      InvParts(env, MarkCompleted(st1, sid));
    }
  }
}
