// What each answer of the local receiver means, in terms of the request, the session and the allowlist table
// (src/intake/local_console/receiver/service.py, lines 113-445).
module ReceiverAnswers {
  import opened Prelude
  import opened PathSanitizer
  import opened StoragePaths
  import opened ReceiverModels
  import opened ReceiverState
  import opened ReceiverInvariant
  import opened ReceiverCleanup
  import opened ReceiverRaises

  // ---- The extension of a filename -------------------------------------------------------------

  /** `ext` is the filename's extension: it runs from the last dot to the end, that dot is in the last component, and
      some character of that component before it is no dot. */
  predicate IsExtension(filename: string, ext: string) {
    && 0 < |ext| <= |filename| && filename[|filename| - |ext|..] == ext
    && ext[0] == '.' && '.' !in ext[1..] && '/' !in ext[1..]
    && exists k :: 0 <= k < |filename| - |ext| && filename[k] != '.' && '/' !in filename[k..|filename| - |ext|]
  }

  lemma {:induction false} LastIndexExact(s: string, c: char)
    ensures LastIndex(s, c) == -1 <==> c !in s
    ensures LastIndex(s, c) >= 0 ==> s[LastIndex(s, c)] == c && c !in s[LastIndex(s, c) + 1..]
    ensures forall i :: LastIndex(s, c) < i < |s| ==> s[i] != c
  {
    if s != [] {
      var init := s[..|s| - 1];
      LastIndexExact(init, c);
      assert s == init + [s[|s| - 1]];
    }
  }

  /** `SplitExt` finds the extension if there is one, and nothing otherwise. */
  lemma SplitExtExact(filename: string, ext: string)
    ensures IsExtension(filename, ext) <==> ext != "" && SplitExt(filename) == ext
  {
    hide LastIndex;
    LastIndexExact(filename, '/');
    LastIndexExact(filename, '.');
    if IsExtension(filename, ext) { ExtensionFound(filename, ext); }
    if ext != "" && SplitExt(filename) == ext { FoundIsExtension(filename); }
  }

  lemma ExtensionFound(filename: string, ext: string)
    requires IsExtension(filename, ext)
    ensures SplitExt(filename) == ext
  {
    hide LastIndex;
    LastIndexExact(filename, '/');
    var n := |filename| - |ext|;
    ExtensionDot(filename, ext);
    var k :| 0 <= k < n && filename[k] != '.' && '/' !in filename[k..n];
    forall i | k <= i < n ensures filename[i] != '/' { assert filename[k..n][i - k] == filename[i]; }
    assert LastIndex(filename, '/') < k;
  }

  lemma ExtensionDot(filename: string, ext: string)
    requires IsExtension(filename, ext)
    ensures var n := |filename| - |ext|;
            && LastIndex(filename, '.') == n && filename[n] == '.'
            && forall i :: n < i < |filename| ==> filename[i] != '/'
  {
    hide LastIndex;
    LastIndexExact(filename, '.');
    var n := |filename| - |ext|;
    assert filename[n] == ext[0];
    forall i | n < i < |filename| ensures filename[i] != '.' && filename[i] != '/' {
      assert filename[i] == ext[i - n] && ext[1..][i - n - 1] == ext[i - n];
    }
  }

  lemma FoundIsExtension(filename: string)
    requires SplitExt(filename) != ""
    ensures IsExtension(filename, SplitExt(filename))
  {
    hide LastIndex;
    LastIndexExact(filename, '/');
    LastIndexExact(filename, '.');
    var sep, dot, ext := LastIndex(filename, '/'), LastIndex(filename, '.'), SplitExt(filename);
    var k :| sep < k < dot && filename[k] != '.';
    forall i | 1 <= i < |ext| ensures ext[i] != '.' && ext[i] != '/' { assert ext[i] == filename[dot + i]; }
    forall i | k <= i < dot ensures filename[i] != '/' {}
    assert |filename| - |ext| == dot;
    assert '/' !in filename[k..dot];
  }

  /** A filename has at most one extension. */
  lemma ExtensionUnique(filename: string, e: string, e': string)
    requires IsExtension(filename, e) && IsExtension(filename, e')
    ensures e == e'
  {
    SplitExtExact(filename, e);
    SplitExtExact(filename, e');
  }

  // ---- The type check -----------------------------------------------------------------------------

  predicate TypeListed(contentType: string) {
    exists row :: row in ALLOWED_CONTENT_TYPES && row.contentType == contentType
  }

  /** Some row of the table lists the extension. */
  ghost predicate ListedAnywhere(ext: string) {
    exists c :: Listed(ALLOWED_CONTENT_TYPES, c, ext)
  }

  /** The type is in the table, and the filename's extension, if it has one, is listed for it. */
  ghost predicate Suits(req: UploadRequest) {
    && TypeListed(req.contentType)
    && forall e :: IsExtension(req.originalFilename, e) ==> Listed(ALLOWED_CONTENT_TYPES, req.contentType, Lower(e))
  }

  /** The extension to store: the filename's own in lower case, or the first of the type's row. */
  ghost predicate Proper(req: UploadRequest, ext: string) {
    || (exists e :: IsExtension(req.originalFilename, e) && Lower(e) == "." + ext)
    || (&& (forall e :: !IsExtension(req.originalFilename, e))
        && exists row :: row in ALLOWED_CONTENT_TYPES && row.contentType == req.contentType
                         && row.extensions != [] && row.extensions[0] == "." + ext)
  }

  lemma TypeListedExact(ct: string)
    ensures TypeListed(ct) <==> TypeAllowed(ct)
    ensures TypeListed(ct) ==> TypeRow(ct, Extensions(ALLOWED_CONTENT_TYPES, ct).value) in ALLOWED_CONTENT_TYPES
  {
    TableUnique();
    if TypeListed(ct) {
      var row :| row in ALLOWED_CONTENT_TYPES && row.contentType == ct;
      ExtensionsFinds(ALLOWED_CONTENT_TYPES, row);
    }
    if TypeAllowed(ct) { ExtensionsSound(ALLOWED_CONTENT_TYPES, ct); }
  }

  lemma InvertedTable(ct: string, ext: string)
    ensures ext in ALLOWED_EXTENSIONS && ALLOWED_EXTENSIONS[ext] == ct <==> Listed(ALLOWED_CONTENT_TYPES, ct, ext)
    ensures ext in ALLOWED_EXTENSIONS <==> ListedAnywhere(ext)
  {
    hide AddRows, Listed;
    TableNoConflict();
    InvertedExact(ALLOWED_CONTENT_TYPES, ct, ext);
    if ext in ALLOWED_EXTENSIONS { InvertedExact(ALLOWED_CONTENT_TYPES, ALLOWED_EXTENSIONS[ext], ext); }
    forall c | Listed(ALLOWED_CONTENT_TYPES, c, ext) ensures ext in ALLOWED_EXTENSIONS {
      InvertedExact(ALLOWED_CONTENT_TYPES, c, ext);
    }
  }

  /** How `JudgeType` decides once the extension is known. */
  lemma JudgeWithExtension(s: Session, req: UploadRequest, e: string)
    requires SessionShape(s) && IsExtension(req.originalFilename, e)
    ensures var v, ct, ext := JudgeType(s, req), req.contentType, Lower(e);
            v == if !TypeAllowed(ct) then Reject(DisallowedContentType)
                 else if ext !in ALLOWED_EXTENSIONS then Reject(DisallowedExtension)
                 else if ALLOWED_EXTENSIONS[ext] != ct then Reject(ExtensionMismatch)
                 else Accept(ext[1..])
  {
    hide Distinct, AddRows, Extensions, SplitExt, LStripDots, IsExtension;
    SplitExtExact(req.originalFilename, e);
    SplitExtDot(req.originalFilename);
    var ext := Lower(e);
    assert WithDot(ext) == ext;
    forall x | x in s.allowedExts && WithDot(x) == ext ensures ext in ALLOWED_EXTENSIONS {
      SessionExtension(x);
      LowerTwice(e);
    }
    if ext in ALLOWED_EXTENSIONS {
      InvertedEntry(ALLOWED_EXTENSIONS[ext], ext);
      DottedPlainFacts(ext);
    }
  }

  lemma JudgeWithoutExtension(s: Session, req: UploadRequest)
    requires SessionShape(s) && forall e :: !IsExtension(req.originalFilename, e)
    ensures JudgeType(s, req) ==
            if !TypeAllowed(req.contentType) then Reject(DisallowedContentType)
            else Accept(CanonicalExtension(req.contentType))
  {
    hide Distinct, AddRows, Extensions, SplitExt, LStripDots, IsExtension, CanonicalExtension;
    SplitExtExact(req.originalFilename, SplitExt(req.originalFilename));
    assert Lower("") == "";
  }

  /** The type check from the table alone: each verdict exactly when the table says so, and the extension stored. */
  lemma TypeVerdict(s: Session, req: UploadRequest)
    requires SessionShape(s)
    ensures var v, f := JudgeType(s, req), req.originalFilename;
            && (v.Accept? <==> Suits(req))
            && (v.Accept? ==> Proper(req, v.extension))
            && (v == Reject(DisallowedContentType) <==> !TypeListed(req.contentType))
            && (v == Reject(DisallowedExtension) <==>
                TypeListed(req.contentType) && exists e :: IsExtension(f, e) && !ListedAnywhere(Lower(e)))
            && (v == Reject(ExtensionMismatch) <==>
                TypeListed(req.contentType) &&
                exists e, c :: IsExtension(f, e) && c != req.contentType && Listed(ALLOWED_CONTENT_TYPES, c, Lower(e)))
  {
    hide JudgeType, IsExtension, Listed, AddRows, SessionShape, CanonicalExtension, Extensions, TypeListed;
    var f, ct := req.originalFilename, req.contentType;
    TypeListedExact(ct);
    if e :| IsExtension(f, e) {
      JudgeWithExtension(s, req, e);
      InvertedTable(ct, Lower(e));
      forall e' | IsExtension(f, e') ensures e' == e { ExtensionUnique(f, e, e'); }
      forall c ensures Listed(ALLOWED_CONTENT_TYPES, c, Lower(e)) <==>
                       Lower(e) in ALLOWED_EXTENSIONS && ALLOWED_EXTENSIONS[Lower(e)] == c
      {
        InvertedTable(c, Lower(e));
      }
      if Lower(e) in ALLOWED_EXTENSIONS {
        InvertedEntry(ALLOWED_EXTENSIONS[Lower(e)], Lower(e));
        assert "." + Lower(e)[1..] == Lower(e);
      }
    } else {
      JudgeWithoutExtension(s, req);
      if TypeAllowed(ct) { CanonicalIsFirst(ct); }
    }
  }

  lemma CanonicalIsFirst(ct: string)
    requires TypeAllowed(ct)
    ensures exists row :: row in ALLOWED_CONTENT_TYPES && row.contentType == ct
                          && row.extensions != [] && row.extensions[0] == "." + CanonicalExtension(ct)
  {
    TypeListedExact(ct);
    CanonicalEntry(ct);
    var exts := Extensions(ALLOWED_CONTENT_TYPES, ct).value;
    var row := TypeRow(ct, exts);
    TableEntriesDotted(row, exts[0]);
    DottedPlainFacts(exts[0]);
    assert "." + exts[0][1..] == exts[0];
  }

  // ---- The verdict of a validation --------------------------------------------------------------------

  /** The session exists and has not expired. */
  predicate Reachable(st: State, sid: string, now: int) {
    sid in st.sessions && now <= st.sessions[sid].expiresAt
  }

  /** It also has not been completed. */
  predicate Open(st: State, sid: string, now: int) {
    Reachable(st, sid, now) && st.sessions[sid].status != Completed
  }

  /** When a validation rejects, check by check, and when it accepts. */
  ghost predicate Verdicts(st: State, sid: string, req: UploadRequest, size: int, now: int, v: Verdict) {
    && (v == Reject(InvalidSession) <==> !Reachable(st, sid, now))
    && (v == Reject(CompletedSession) <==> Reachable(st, sid, now) && st.sessions[sid].status == Completed)
    && v != Reject(ExpiredSession)
    && (v == Reject(EmptyFile) <==> Open(st, sid, now) && size <= 0)
    && (v == Reject(OverSizeLimit) <==> Open(st, sid, now) && size > 0 && size > st.sessions[sid].maxFileSize)
    && (v == Reject(MaxTotalBytesExceeded) <==>
        Open(st, sid, now) && 0 < size <= st.sessions[sid].maxFileSize
        && st.sessions[sid].total + size > st.sessions[sid].maxTotal)
    && (v == Reject(MaxFilesExceeded) <==>
        Open(st, sid, now) && 0 < size <= st.sessions[sid].maxFileSize
        && st.sessions[sid].total + size <= st.sessions[sid].maxTotal
        && |st.sessions[sid].uploaded| >= st.sessions[sid].maxFiles)
    && (v.Accept? <==>
        Open(st, sid, now) && 0 < size <= st.sessions[sid].maxFileSize
        && st.sessions[sid].total + size <= st.sessions[sid].maxTotal
        && |st.sessions[sid].uploaded| < st.sessions[sid].maxFiles && Suits(req))
    && (v.Accept? ==> Proper(req, v.extension))
  }

  /** In every reachable state each verdict is given exactly when its condition holds; an expired session is never found
      as such, because the lookup has already failed. */
  lemma ValidationExact(env: Env, st: State, sid: string, req: UploadRequest, size: int, now: int)
    requires Inv(env, st) && now >= st.clock
    ensures Verdicts(st, sid, req, size, now, ValidateUpload(st, sid, req, size, now).1)
  {
    hide Inv, JudgeType, SessionShape, Suits, Proper;
    if GetSession(st, sid, now).1 {
      GetSessionLive(env, st, sid, now);
      ShapeOf(env, st, sid);
      TypeVerdict(st.sessions[sid], req);
      JudgeTypeReasons(st.sessions[sid], req);
    }
  }

  lemma ShapeOf(env: Env, st: State, sid: string)
    requires Inv(env, st) && sid in st.sessions
    ensures SessionShape(st.sessions[sid])
  {
    hide OrderOk, RecordsOk, OwnersUnique, SessionShape, Intact, HalfCollected, HexId;
    assert SessionOk(st, sid);
  }

  lemma JudgeTypeReasons(s: Session, req: UploadRequest)
    ensures var v := JudgeType(s, req);
            v.Reject? ==> v.reason in {DisallowedContentType, DisallowedExtension, ExtensionMismatch}
  {
    hide AddRows, Extensions, SplitExt, LStripDots, CanonicalExtension;
  }

  /** A buffered upload is stored exactly when its session is open, it fits the limits and its name suits its
      type. What is stored is the request's own data under the new id, in this session and nowhere else; a
      rejected upload stores nothing. */
  lemma UploadStores(
    env: Env, st: State, sid: string, req: UploadRequest, content: Bytes, fid: string, now: int)
    requires Inv(env, st) && now >= st.clock && HexId(fid) && fid !in st.used
    ensures var (st', out) := Upload(env, st, sid, req, content, fid, now);
            && (out.Stored? <==>
                Open(st, sid, now) && 0 < |content| <= st.sessions[sid].maxFileSize
                && st.sessions[sid].total + |content| <= st.sessions[sid].maxTotal
                && |st.sessions[sid].uploaded| < st.sessions[sid].maxFiles && Suits(req))
            && (out.Stored? ==>
                  var s, r := st.sessions[sid], out.record;
                  && r == FileRecord(fid, sid, s.quoteId, req.contentType, r.extension, |content|,
                                     env.sha256(content), now)
                  && Proper(req, r.extension)
                  && st'.files == st.files[fid := r]
                  && st'.sessions ==
                     st.sessions[sid := s.(uploaded := s.uploaded + [fid], total := s.total + |content|)]
                  && sid in st'.disk && StorageName(fid, r.extension) in st'.disk[sid]
                  && st'.disk[sid][StorageName(fid, r.extension)] == content)
            && (out.Rejected? ==> st'.files == st.files && st'.disk == st.disk)
  {
    hide Inv, Judge, Suits, Proper, HexId, Sanitize, StorageName;
    ValidationExact(env, st, sid, req, |content|, now);
    if ValidateUpload(st, sid, req, |content|, now).1.Accept? {
      GetSessionLive(env, st, sid, now);
      HexOf(env, st, sid);
    }
  }

  lemma HexOf(env: Env, st: State, sid: string)
    requires Inv(env, st) && sid in st.sessions
    ensures HexId(sid) && Sanitize(sid) == sid
  {
    hide OrderOk, RecordsOk, OwnersUnique, SessionShape, Intact, HalfCollected, HexId, Sanitize;
    assert SessionOk(st, sid);
    SanitizeHexIdentity(sid);
  }

  // ---- Creation and completion ---------------------------------------------------------------------------

  /** When a creation fails, check by check. */
  ghost predicate CreateAnswers(req: CreateRequest, sid: string, now: int, r: Result<string, CreateError>) {
    var limits := req.maxFileSize > 0 && req.maxFiles > 0 && req.maxTotal > 0;
    var types := forall ct :: ct in req.allowedTypes ==> TypeListed(ct);
    var exts := forall e :: e in req.allowedExts ==> ListedAnywhere(Lower(e));
    && (r == Err(QuoteIdRequired) <==> req.quoteId == "")
    && (r == Err(ExpiryInPast) <==> req.quoteId != "" && req.expiresAt < now)
    && (r == Err(BadLimit) <==> req.quoteId != "" && req.expiresAt >= now && !limits)
    && (r == Err(TypeNotAllowed) <==> req.quoteId != "" && req.expiresAt >= now && limits && !types)
    && (r == Err(ExtNotAllowed) <==> req.quoteId != "" && req.expiresAt >= now && limits && types && !exts)
    && (r == Err(AttributeErrorRaised) <==>
        req.quoteId != "" && req.expiresAt == now && limits && types && exts)
    && (r.Ok? <==> req.quoteId != "" && req.expiresAt > now && limits && types && exts)
    && (r.Ok? ==> r.value == sid)
  }

  /** A session is created exactly for a quote, with an expiry in the future, positive limits and lists from the
      table; it starts active and empty under the new id, with the request's own data. */
  lemma CreationExact(st: State, req: CreateRequest, sid: string, now: int)
    ensures var (st', r) := CreateSession(st, req, sid, now);
            && CreateAnswers(req, sid, now, r)
            && st'.files == st.files
            && (r.Ok? ==>
                  && sid in st'.sessions && st'.sessions == st.sessions[sid := st'.sessions[sid]]
                  && var s := st'.sessions[sid];
                  && s.quoteId == req.quoteId && s.status == Active
                  && s.createdAt == now && s.expiresAt == req.expiresAt
                  && s.maxFileSize == req.maxFileSize && s.maxFiles == req.maxFiles && s.maxTotal == req.maxTotal
                  && s.allowedTypes == req.allowedTypes && s.allowedExts == req.allowedExts
                  && s.uploaded == [] && s.total == 0)
            && (r.Err? ==> st'.sessions == st.sessions && st'.disk == st.disk)
  {
    hide AddRows, Extensions, Sanitize, TypeListed, ListedAnywhere;
    forall ct ensures TypeAllowed(ct) <==> TypeListed(ct) { TypeListedExact(ct); }
    forall e: string ensures e in ALLOWED_EXTENSIONS <==> ListedAnywhere(e) { InvertedTable("", e); }
  }

  /** A session is completed exactly when it has not expired, was not completed before, and the request names its own
      quote; completion changes its status and nothing else. */
  lemma CompletionExact(env: Env, st: State, sid: string, quoteId: string, now: int)
    requires Inv(env, st) && now >= st.clock
    ensures var (st', r) := Complete(st, sid, quoteId, now);
            && (r == Err(SessionUnavailable) <==> !Reachable(st, sid, now))
            && (r == Err(AlreadyCompleted) <==> Reachable(st, sid, now) && st.sessions[sid].status == Completed)
            && (r == Err(QuoteMismatch) <==> Open(st, sid, now) && st.sessions[sid].quoteId != quoteId)
            && (r.Ok? <==> Open(st, sid, now) && st.sessions[sid].quoteId == quoteId)
            && (r.Ok? ==>
                  var completed := st.sessions[sid].(status := Completed);
                  && r.value.sessionId == sid && r.value.quoteId == quoteId && r.value.completedAt == now
                  && st' == st.(clock := now, sessions := st.sessions[sid := completed]))
            && st'.files == st.files && st'.disk == st.disk
  {
    hide Inv, Receipts, SumOf;
    if GetSession(st, sid, now).1 { GetSessionLive(env, st, sid, now); }
  }

  /** A cleanup that succeeds takes away exactly the sessions whose time is up, whatever their status, and counts
      them. */
  lemma CollectedExactly(env: Env, st: State, now: int)
    requires Inv(env, st) && now >= st.clock
    ensures var (st', r) := Cleanup(env, st, now);
            r.Ok? ==>
              && (forall x :: x in st'.sessions <==> x in st.sessions && st.sessions[x].expiresAt >= now)
              && r.value == |set x | x in st.sessions && st.sessions[x].expiresAt < now|
  {
    hide Inv, Cleanup, IsExpired;
    CleanupExact(env, st, now);
    forall x | x in st.sessions ensures IsExpired(st.sessions[x], now) <==> st.sessions[x].expiresAt < now {
      ExpiredByTime(env, st, now, x);
    }
    assert ExpiredSet(st, now) == set x | x in st.sessions && st.sessions[x].expiresAt < now;
  }

  lemma ExpiredByTime(env: Env, st: State, now: int, x: string)
    requires Inv(env, st) && now >= st.clock && x in st.sessions
    ensures IsExpired(st.sessions[x], now) <==> st.sessions[x].expiresAt < now
  {
    hide OrderOk, RecordsOk, OwnersUnique, HexId, SessionShape, Intact, HalfCollected;
    assert SessionOk(st, x);
  }

  /** A lookup finds exactly the sessions that have not expired. A late lookup marks the session expired, even a
      completed one; nothing else changes. */
  lemma LookupExact(st: State, sid: string, now: int)
    ensures var (st', found) := GetSession(st, sid, now);
            && (found <==> Reachable(st, sid, now))
            && st'.files == st.files && st'.disk == st.disk && st'.order == st.order && st'.clock == now
            && st'.sessions.Keys == st.sessions.Keys
            && forall x :: x in st.sessions ==>
                 st'.sessions[x] == if x == sid && !found then st.sessions[x].(status := Expired) else st.sessions[x]
  {
  }

  /** The status a raising cleanup leaves: a completed session stays completed, any other is expired. */
  function Marked(s: Session): Session {
    if s.status == Completed then s else s.(status := Expired)
  }

  lemma {:induction false} CollectAllStatuses(env: Env, st: State, ids: seq<string>, x: string)
    ensures var st' := CollectAll(env, st, ids).0;
            x in st'.sessions ==>
              x in st.sessions &&
              st'.sessions[x] == if RaiseSite(env, st, ids) == Some(x) then Marked(st.sessions[x]) else st.sessions[x]
    decreases |ids|
  {
    if ids != [] && ids[0] in st.sessions {
      CollectOneStatuses(env, st, ids[0], x);
      hide CollectOne;
      CollectAllStatuses(env, CollectOne(env, st, ids[0]).0, ids[1..], x);
    }
  }

  lemma CollectOneStatuses(env: Env, st: State, sid: string, x: string)
    requires sid in st.sessions
    ensures var (st', ok) := CollectOne(env, st, sid);
            && (x in st'.sessions ==>
                  x in st.sessions && st'.sessions[x] == if x == sid then Marked(st.sessions[x]) else st.sessions[x])
            && (ok ==> sid !in st'.sessions)
  {
    hide Sanitize, OwnedNames, Without;
  }

  /** A session that stays after a cleanup is as it was, but for the status of the one the cleanup raised at. */
  lemma CleanupStatuses(env: Env, st: State, now: int, x: string)
    ensures var st' := Cleanup(env, st, now).0;
            x in st'.sessions ==>
              x in st.sessions &&
              st'.sessions[x] ==
              if RaisedAt(env, st, OpCleanup(now)) == Some(x) then Marked(st.sessions[x]) else st.sessions[x]
  {
    hide CollectAll, ExpiredIds, RaiseSite;
    CollectAllStatuses(env, st.(clock := now), ExpiredIds(st, st.order, now), x);
  }
}
