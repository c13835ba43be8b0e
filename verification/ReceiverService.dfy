// `LocalReceiverService` with its storage service: the mutating code, proved against ReceiverState.
module ReceiverService {
  import opened Prelude
  import opened PathSanitizer
  import opened StoragePaths
  import opened ReceiverModels
  import opened ReceiverState
  import opened ReceiverInvariant
  import opened ReceiverCleanup

  /** A binary file object: `read(n)` returns at most n bytes, and nothing only at the end. */
  class ByteSource {
    var rest: Bytes

    constructor (content: Bytes)
      ensures rest == content
    {
      rest := content;
    }

    method Read(n: nat) returns (chunk: Bytes)
      requires n > 0
      modifies this
      ensures chunk + rest == old(rest) && |chunk| <= n && (chunk == [] <==> old(rest) == [])
    {
      var k := if n < |rest| then n else |rest|;
      chunk := rest[..k];
      rest := rest[k..];
    }
  }

  function TempName(fileId: string): string {
    "." + fileId + ".tmp"
  }

  /** No temporary file is lying around: names on disk never begin with a dot. */
  predicate NoTemps(disk: map<string, Directory>) {
    forall d :: d in disk ==> forall name :: name in disk[d] ==> !StartsWith(name, ".")
  }

  lemma StorageNameNotTemp(fileId: string, ext: string)
    requires HexId(fileId) && PlainExtension(ext)
    ensures !StartsWith(StorageName(fileId, ext), ".") && StorageName(fileId, ext) != TempName(fileId)
  {
    StorageNamePlain(fileId, ext);
    var n := StorageName(fileId, ext);
    assert n[0] == fileId[0] && HexDigit(fileId[0]);
    assert TempName(fileId)[0] == '.';
    assert n[..1][0] != '.';
  }

  lemma NoTempsPut(disk: map<string, Directory>, dir: string, name: string, content: Bytes)
    requires NoTemps(disk) && !StartsWith(name, ".")
    ensures NoTemps(PutFile(disk, dir, name, content))
    ensures NoTemps(DeleteFile(PutFile(disk, dir, name, content), dir, name))
  {
  }

  lemma NoTempsMake(disk: map<string, Directory>, dir: string)
    requires NoTemps(disk)
    ensures NoTemps(MakeDirectory(disk, dir))
  {
  }

  lemma PutTwice(disk: map<string, Directory>, dir: string, name: string, a: Bytes, b: Bytes)
    ensures PutFile(PutFile(disk, dir, name, a), dir, name, b) == PutFile(disk, dir, name, b)
    ensures dir in PutFile(disk, dir, name, a) && name in PutFile(disk, dir, name, a)[dir]
    ensures PutFile(disk, dir, name, a)[dir][name] == a
  {
    var d0 := if dir in disk then disk[dir] else map[];
    assert d0[name := a][name := b] == d0[name := b];
  }

  lemma PutMade(disk: map<string, Directory>, dir: string, name: string, a: Bytes)
    ensures PutFile(MakeDirectory(disk, dir), dir, name, a) == PutFile(disk, dir, name, a)
  {
  }

  /** Writing a temporary file and renaming it over the final name is the same as writing the final file. */
  lemma RenameTemp(disk: map<string, Directory>, dir: string, fileId: string, name: string, content: Bytes)
    requires NoTemps(disk) && name != TempName(fileId)
    ensures var temp := TempName(fileId);
            PutFile(DeleteFile(PutFile(disk, dir, temp, content), dir, temp), dir, name, content)
            == PutFile(disk, dir, name, content)
  {
    var t := TempName(fileId);
    assert StartsWith(t, ".") by { assert t[..1] == "."; }
    var d0 := if dir in disk then disk[dir] else map[];
    assert t !in d0;
    assert d0[t := content] - {t} == d0;
  }

  lemma CommitDisk(
    env: Env, st: State, sid: string, req: UploadRequest, ext: string, content: Bytes, fid: string, now: int)
    requires sid in st.sessions
    ensures Commit(env, st, sid, req, ext, content, fid, now).disk
         == PutFile(st.disk, Sanitize(sid), StorageName(fid, ext), content)
  {
    hide Sanitize, StorageName, PutFile;
  }

  function FilesWithout(files: map<string, FileRecord>, ids: seq<string>): map<string, FileRecord> {
    map id | id in files && id !in ids :: files[id]
  }

  lemma DeletedNone(files: map<string, FileRecord>, dir: Directory)
    ensures FilesWithout(files, []) == files && dir - OwnedNames(files, []) == dir
  {
    assert OwnedNames(files, []) == {};
  }

  /** One more record deleted: its file leaves the directory, if it still had a record. */
  lemma DeletedOneMore(files: map<string, FileRecord>, dir: Directory, ids: seq<string>, id: string)
    ensures var left := FilesWithout(files, ids);
            && (id in left ==> id in files && left[id] == files[id])
            && FilesWithout(files, ids + [id]) == (map k | k in left && k != id :: left[k])
            && (id !in left ==> FilesWithout(files, ids + [id]) == left)
            && dir - OwnedNames(files, ids + [id]) ==
                 if id in left then (dir - OwnedNames(files, ids)) - {StorageName(id, files[id].extension)}
                 else dir - OwnedNames(files, ids)
  {
    hide StorageName;
    var names := OwnedNames(files, ids);
    if id in FilesWithout(files, ids) {
      assert OwnedNames(files, ids + [id]) == names + {StorageName(id, files[id].extension)};
    } else {
      assert OwnedNames(files, ids + [id]) == names;
    }
  }

  /** The end of the streamed path leaves no temporary file. */
  lemma TailNoTemps(
    env: Env, st: State, sid: string, req: UploadRequest, ext: string, content: Bytes, fid: string, now: int)
    requires sid in st.sessions && NoTemps(st.disk) && HexId(fid) && PlainExtension(ext)
    ensures NoTemps(StreamTail(env, st, sid, req, ext, content, fid, now).0.disk)
  {
    hide NoTemps, HexId, PlainExtension, StorageName, Sanitize, PutFile, DeleteFile, Recheck;
    StorageNameNotTemp(fid, ext);
    NoTempsPut(st.disk, Sanitize(sid), StorageName(fid, ext), content);
  }

  class LocalReceiverService {
    const root: Path
    const env: Env
    var sessions: map<string, Session>
    var order: seq<string>
    var files: map<string, FileRecord>
    var disk: map<string, Directory>
    ghost var used: set<string>
    ghost var clock: int

    ghost function Model(): State
      reads this
    {
      State(sessions, order, files, disk, used, clock)
    }

    ghost predicate Valid()
      reads this
    {
      Normal(root) && root != [] && Inv(env, Model()) && NoTemps(disk)
    }

    constructor (root: Path, env: Env)
      requires Normal(root) && root != []
      ensures Valid() && Model() == INITIAL && this.root == root && this.env == env
    {
      this.root := root;
      this.env := env;
      sessions, order, files, disk := map[], [], map[], map[];
      used, clock := {}, 0;
    }

    // ---- Sessions ------------------------------------------------------------

    method CreateSession(req: CreateRequest, newId: string, now: int) returns (r: Result<string, CreateError>)
      requires Valid() && now >= clock && HexId(newId) && newId !in used
      modifies this
      ensures Valid() && (Model(), r) == ReceiverState.CreateSession(old(Model()), req, newId, now)
    {
      hide Inv, CheckRequest, Sanitize, HexId, Normal, NoTemps, Clean;
      CreateInv(env, Model(), req, newId, now);
      NoTempsMake(disk, Sanitize(newId));
      clock := now;
      var problem := CheckRequest(req, now);
      if problem.Some? {
        return Err(problem.value);
      }
      sessions := sessions[newId := Session(req.quoteId, Active, now, req.expiresAt, req.allowedTypes, req.allowedExts,
                                            req.maxFileSize, req.maxFiles, req.maxTotal, [], 0)];
      order := order + [newId];
      var dir := SanitizePathComponent(newId);
      disk := MakeDirectory(disk, dir);
      used := used + {newId};
      return Ok(newId);
    }

    method GetSession(sid: string, now: int) returns (r: Option<Session>)
      requires Valid() && now >= clock
      modifies this`sessions, this`clock
      ensures Valid() && (Model(), r.Some?) == ReceiverState.GetSession(old(Model()), sid, now)
      ensures r.Some? ==> sid in sessions && r.value == sessions[sid]
    {
      hide Inv, NoTemps;
      GetSessionInv(env, Model(), sid, now);
      clock := now;
      if sid !in sessions {
        return None;
      }
      var s := sessions[sid];
      if s.expiresAt < now {
        sessions := sessions[sid := s.(status := Expired)];
        return None;
      }
      return Some(s);
    }

    // ---- Validation ----------------------------------------------------------

    method ValidateFileUpload(sid: string, req: UploadRequest, size: int, now: int) returns (v: Verdict)
      requires Valid() && now >= clock
      modifies this`sessions, this`clock
      ensures Valid() && (Model(), v) == ValidateUpload(old(Model()), sid, req, size, now)
    {
      hide Inv, NoTemps;
      var found := GetSession(sid, now);
      if found.None? {
        return Reject(InvalidSession);
      }
      return Judge(found.value, req, size);
    }

    // ---- Storage -------------------------------------------------------------

    /** The guard in front of every write; for generated paths it never fails. */
    method CheckedName(sid: string, fid: string, ext: string) returns (dir: string, name: string, allowed: bool)
      requires Normal(root) && root != [] && HexId(fid) && PlainExtension(ext)
      ensures dir == Sanitize(sid) && name == StorageName(fid, ext) && allowed
    {
      dir := SanitizePathComponent(sid);
      name := StorageName(fid, ext);
      GeneratedPathContained(root, sid, fid, ext);
      assert StoragePath(root, sid, fid, ext) == root + [dir] + [name];
      allowed := ValidatePathUnderRoot(root, root + [dir] + [name]);
    }

    method StoreFile(sid: string, fid: string, ext: string, content: Bytes) returns (sha256: Option<string>)
      requires Normal(root) && root != [] && HexId(fid) && PlainExtension(ext) && NoTemps(disk)
      modifies this`disk
      ensures sha256 == Some(env.sha256(content))
      ensures disk == PutFile(old(disk), Sanitize(sid), StorageName(fid, ext), content) && NoTemps(disk)
    {
      hide NoTemps, HexId, PlainExtension, StorageName, Sanitize, Normal, PutFile, DeleteFile, MakeDirectory;
      var dir, name, allowed := CheckedName(sid, fid, ext);
      if !allowed {
        return None;
      }
      var temp := TempName(fid);
      StorageNameNotTemp(fid, ext);
      NoTempsPut(disk, dir, name, content);
      RenameTemp(disk, dir, fid, name, content);
      PutTwice(disk, dir, temp, content, []);
      PutMade(disk, dir, temp, content);
      disk := PutFile(MakeDirectory(disk, dir), dir, temp, content);
      disk := PutFile(DeleteFile(disk, dir, temp), dir, name, disk[dir][temp]);
      return Some(env.sha256(content));
    }

    /** The chunk loop: for every content and every chunk size, the temporary file ends up holding the
        whole content, and the hasher (as the bytes it has absorbed) and the size agree with it. */
    method CopyChunks(
      dir: string, temp: string, source: ByteSource, chunkSize: nat) returns (hashed: Bytes, totalSize: nat)
      requires chunkSize > 0
      modifies this`disk, source
      ensures hashed == old(source.rest) && totalSize == |hashed| && source.rest == []
      ensures disk == PutFile(old(disk), dir, temp, hashed)
    {
      hide PutFile;
      ghost var before, content := disk, source.rest;
      PutTwice(before, dir, temp, [], []);
      disk := PutFile(disk, dir, temp, []);
      hashed, totalSize := [], 0;
      var chunk := source.Read(chunkSize);
      assert [] + chunk + source.rest == content;
      while chunk != []
        invariant hashed + chunk + source.rest == content
        invariant chunk == [] ==> source.rest == []
        invariant disk == PutFile(before, dir, temp, hashed)
        invariant totalSize == |hashed|
        decreases |chunk| + |source.rest|
      {
        PutTwice(before, dir, temp, hashed, hashed + chunk);
        ghost var done := hashed;
        disk := PutFile(disk, dir, temp, disk[dir][temp] + chunk);
        hashed := hashed + chunk;
        totalSize := totalSize + |chunk|;
        ghost var tail := source.rest;
        chunk := source.Read(chunkSize);
        assert hashed + chunk + source.rest == hashed + tail;
      }
      assert hashed == content;
    }

    /** Digest and size of a streamed file are those of its whole content, for every chunk size. */
    method StreamStoreFile(sid: string, fid: string, ext: string, source: ByteSource, chunkSize: nat)
      returns (r: Option<(string, nat)>)
      requires Normal(root) && root != [] && HexId(fid) && PlainExtension(ext) && NoTemps(disk) && chunkSize > 0
      modifies this`disk, source
      ensures r == Some((env.sha256(old(source.rest)), |old(source.rest)|)) && source.rest == []
      ensures disk == PutFile(old(disk), Sanitize(sid), StorageName(fid, ext), old(source.rest)) && NoTemps(disk)
    {
      hide NoTemps, HexId, PlainExtension, StorageName, Sanitize, Normal, PutFile, DeleteFile, MakeDirectory;
      var dir, name, allowed := CheckedName(sid, fid, ext);
      if !allowed {
        return None;
      }
      var temp := TempName(fid);
      StorageNameNotTemp(fid, ext);
      NoTempsPut(disk, dir, name, source.rest);
      RenameTemp(disk, dir, fid, name, source.rest);
      PutTwice(disk, dir, temp, source.rest, []);
      ghost var content := source.rest;
      PutMade(disk, dir, temp, content);
      disk := MakeDirectory(disk, dir);
      var hashed, totalSize := CopyChunks(dir, temp, source, chunkSize);
      disk := PutFile(DeleteFile(disk, dir, temp), dir, name, disk[dir][temp]);
      return Some((env.sha256(hashed), totalSize));
    }

    // ---- Uploads -------------------------------------------------------------

    method AddRecord(sid: string, record: FileRecord)
      requires sid in sessions
      modifies this`sessions, this`files
      ensures var s := old(sessions)[sid];
              sessions ==
              old(sessions)[sid := s.(uploaded := s.uploaded + [record.fileId], total := s.total + record.size)]
      ensures files == old(files)[record.fileId := record]
    {
      var s := sessions[sid];
      sessions := sessions[sid := s.(uploaded := s.uploaded + [record.fileId], total := s.total + record.size)];
      files := files[record.fileId := record];
    }

    /** The end of both paths: the bytes are on disk, and the record and the counters follow. */
    method RecordUpload(
      sid: string, req: UploadRequest, ext: string, fid: string, stored: (string, nat), now: int,
      ghost before: State, ghost content: Bytes)
      returns (record: FileRecord)
      requires sid in sessions && stored == (env.sha256(content), |content|)
      requires Model() == before.(disk := PutFile(before.disk, Sanitize(sid), StorageName(fid, ext), content),
                                  used := before.used + {fid})
      modifies this`sessions, this`files
      ensures Model() == Commit(env, before, sid, req, ext, content, fid, now)
      ensures record == MakeRecord(env, before.sessions[sid], sid, req, ext, content, fid, now)
    {
      hide StorageName, Sanitize, PutFile;
      record := FileRecord(fid, sid, sessions[sid].quoteId, req.contentType, ext, stored.1, stored.0, now);
      AddRecord(sid, record);
    }

    method ProcessFileUpload(sid: string, req: UploadRequest, content: Bytes, newId: string, now: int)
      returns (r: UploadOutcome)
      requires Valid() && now >= clock && HexId(newId) && newId !in used
      modifies this
      ensures Valid() && (Model(), r) == Upload(env, old(Model()), sid, req, content, newId, now)
    {
      hide Inv, NoTemps, HexId, PlainExtension, ValidateUpload, Normal, StorageName, Sanitize, PutFile, Intact, Fits;
      hide TableEntry, Commit, MakeRecord;
      UploadInv(env, Model(), sid, req, content, newId, now);
      ValidateInv(env, Model(), sid, req, |content|, now);
      var v := ValidateFileUpload(sid, req, |content|, now);
      if v.Reject? {
        return Rejected(v.reason);
      }
      ghost var before := Model();
      CommitDisk(env, before, sid, req, v.extension, content, newId, now);
      var sha256 := StoreFile(sid, newId, v.extension, content);
      if sha256.None? {
        return Rejected(InvalidSession);
      }
      used := used + {newId};
      var record := RecordUpload(sid, req, v.extension, newId, (sha256.value, |content|), now, before, content);
      return Stored(record);
    }

    /** The end of the streamed path: the file is on disk and its size known, and the limits are checked again. */
    method SettleStream(
      sid: string, req: UploadRequest, ext: string, fid: string, stored: (string, nat), now: int,
      ghost before: State, ghost content: Bytes)
      returns (r: UploadOutcome)
      requires Normal(root) && root != [] && HexId(fid) && PlainExtension(ext) && sid in sessions
      requires stored == (env.sha256(content), |content|)
      requires Model() == before.(disk := PutFile(before.disk, Sanitize(sid), StorageName(fid, ext), content))
      modifies this`sessions, this`files, this`disk, this`used
      ensures (Model(), r) == StreamTail(env, before, sid, req, ext, content, fid, now)
    {
      hide HexId, PlainExtension, Normal, StorageName, Sanitize, PutFile, DeleteFile, Commit, MakeRecord;
      used := used + {fid};
      var actual := stored.1;
      var s := sessions[sid];
      if actual == 0 {
        return Rejected(EmptyFile);
      }
      var dir, name, _ := CheckedName(sid, fid, ext);
      if actual > s.maxFileSize {
        disk := DeleteFile(disk, dir, name);
        return Rejected(OverSizeLimit);
      }
      if s.total + actual > s.maxTotal {
        disk := DeleteFile(disk, dir, name);
        return Rejected(MaxTotalBytesExceeded);
      }
      if |s.uploaded| >= s.maxFiles {
        disk := DeleteFile(disk, dir, name);
        return Rejected(MaxFilesExceeded);
      }
      var record := RecordUpload(sid, req, ext, fid, stored, now, before, content);
      return Stored(record);
    }

    method ProcessStreamedFileUpload(
      sid: string, req: UploadRequest, declared: Option<int>, source: ByteSource, chunkSize: nat, newId: string,
      now: int)
      returns (r: UploadOutcome)
      requires Valid() && now >= clock && HexId(newId) && newId !in used && chunkSize > 0
      modifies this, source
      ensures Valid() && (Model(), r) ==
              StreamUpload(env, old(Model()), sid, req, declared, old(source.rest), newId, now)
    {
      hide Inv, NoTemps, HexId, PlainExtension, ValidateUpload, Normal, StorageName, Sanitize, PutFile, DeleteFile;
      hide Intact;
      hide Fits, TableEntry, StreamTail;
      ghost var content := source.rest;
      StreamInv(env, Model(), sid, req, declared, content, newId, now);
      var fileSize := if declared.None? || declared.value == 0 then 1 else declared.value;
      ValidateInv(env, Model(), sid, req, fileSize, now);
      var v := ValidateFileUpload(sid, req, fileSize, now);
      if v.Reject? && v.reason != EmptyFile {
        return Rejected(v.reason);
      }
      var ext := if v.Accept? then v.extension else "";
      NoExtensionPlain();
      ghost var before := Model();
      TailNoTemps(env, before, sid, req, ext, content, newId, now);
      var stored := StreamStoreFile(sid, newId, ext, source, chunkSize);
      if stored.None? {
        return Rejected(InvalidSession);
      }
      r := SettleStream(sid, req, ext, newId, stored.value, now, before, content);
    }

    // ---- Completion ----------------------------------------------------------

    method GatherReceipts(ids: seq<string>, sid: string) returns (receipts: seq<FileRecord>, total: int)
      ensures receipts == Receipts(files, ids, sid) && total == SumOf(receipts)
    {
      receipts, total := [], 0;
      for i := 0 to |ids|
        invariant receipts == Receipts(files, ids[..i], sid) && total == SumOf(receipts)
      {
        var id := ids[i];
        assert ids[..i + 1][..i] == ids[..i];
        if id in files && files[id].sessionId == sid {
          assert (receipts + [files[id]])[..|receipts|] == receipts;
          receipts := receipts + [files[id]];
          total := total + files[id].size;
        }
      }
      assert ids[..|ids|] == ids;
    }

    method CompleteSession(sid: string, quoteId: string, now: int) returns (r: Result<CompleteReceipt, CompleteError>)
      requires Valid() && now >= clock
      modifies this
      ensures Valid() && (Model(), r) == Complete(old(Model()), sid, quoteId, now)
    {
      hide Inv, NoTemps, Normal, Receipts, SumOf;
      CompleteInv(env, Model(), sid, quoteId, now);
      var found := GetSession(sid, now);
      if found.None? {
        return Err(SessionUnavailable);
      }
      var s := found.value;
      if s.status == Completed {
        return Err(AlreadyCompleted);
      }
      if s.quoteId != quoteId {
        return Err(QuoteMismatch);
      }
      sessions := sessions[sid := s.(status := Completed)];
      var receipts, total := GatherReceipts(s.uploaded, sid);
      return Ok(CompleteReceipt(sid, s.quoteId, |receipts|, total, receipts, now));
    }

    // ---- Cleanup -------------------------------------------------------------

    /** Deletes a session's recorded files and their records, one by one. */
    method DeleteSessionRecords(sid: string, ids: seq<string>)
      requires Sanitize(sid) == sid && sid in disk
      requires forall a, b :: a in ids && b in ids && a in files && b in files && a != b
                 ==> StorageName(a, files[a].extension) != StorageName(b, files[b].extension)
      modifies this`files, this`disk
      ensures files == FilesWithout(old(files), ids)
      ensures disk == old(disk)[sid := old(disk)[sid] - OwnedNames(old(files), ids)]
    {
      hide StorageName, Sanitize, OwnedNames, FilesWithout;
      ghost var files0, dir0 := files, disk[sid];
      DeletedNone(files0, dir0);
      assert ids[..0] == [];
      for i := 0 to |ids|
        invariant files == FilesWithout(files0, ids[..i])
        invariant sid in disk && disk == old(disk)[sid := disk[sid]]
        invariant disk[sid] == dir0 - OwnedNames(files0, ids[..i])
      {
        var id := ids[i];
        assert ids[..i + 1] == ids[..i] + [id];
        DeletedOneMore(files0, dir0, ids[..i], id);
        if id in files {
          var name := StorageName(id, files[id].extension);
          disk := DeleteFile(disk, sid, name);
          files := map k | k in files && k != id :: files[k];
        }
      }
      assert ids[..|ids|] == ids;
    }

    /** `cleanup_session`: false when the misspelled counter key raises `KeyError`. */
    method CleanupDirectory(sid: string) returns (ok: bool)
      requires Sanitize(sid) == sid && sid in disk
      modifies this`disk
      ensures ok <==> old(disk)[sid] == map[]
      ensures disk == if ok then old(disk) - {sid}
                      else old(disk)[sid := old(disk)[sid] - {env.firstListed(old(disk)[sid].Keys)}]
    {
      if disk[sid] != map[] {
        disk := disk[sid := disk[sid] - {env.firstListed(disk[sid].Keys)}];
        return false;
      }
      disk := map d | d in disk && d != sid :: disk[d];
      return true;
    }

    /** One round of the cleanup loop. */
    method CollectSession(sid: string) returns (ok: bool)
      requires Valid() && sid in sessions
      modifies this
      ensures (Model(), ok) == CollectOne(env, old(Model()), sid)
    {
      hide Sanitize, Inv, OwnedNames, NoTemps, Normal, Without, HexId, StorageName;
      ghost var st := Model();
      SessionName(env, st, sid);
      NamesDistinct(env, st, sid);
      CollectOneParts(env, st, sid);
      var s := sessions[sid];
      if s.status != Completed {
        sessions := sessions[sid := s.(status := Expired)];
      }
      DeleteSessionRecords(sid, s.uploaded);
      ok := CleanupDirectory(sid);
      if ok {
        sessions := map x | x in sessions && x != sid :: sessions[x];
        order := Without(order, {sid});
        assert sessions == map x | x in st.sessions && x != sid :: st.sessions[x];
      } else {
        assert sessions == st.sessions[sid := if s.status != Completed then s.(status := Expired) else s];
      }
      assert Model() == CollectOne(env, st, sid).0;
    }

    method CleanupExpiredSessions(now: int) returns (r: Result<nat, CleanupError>)
      requires Valid() && now >= clock
      modifies this
      ensures Valid() && (Model(), r) == Cleanup(env, old(Model()), now)
    {
      hide Inv, CollectOne, CollectAll, IsExpired, Normal, Collectable, RemoveSessions, NoTemps;
      ghost var st := Model();
      CleanupCollectable(env, st, now);
      clock := now;
      var expired: seq<string> := [];
      for i := 0 to |order|
        invariant expired == ExpiredIds(st, order[..i], now)
      {
        assert order[..i + 1][..i] == order[..i];
        if order[i] in sessions && IsExpired(sessions[order[i]], now) {
          expired := expired + [order[i]];
        }
      }
      assert order[..|order|] == order;
      assert expired == ExpiredIds(st, st.order, now);
      ghost var st0 := Model();
      var cleaned := 0;
      while cleaned < |expired|
        invariant 0 <= cleaned <= |expired|
        invariant Valid() && Collectable(Model(), expired[cleaned..])
        invariant CollectAll(env, st0, expired) == Progress(CollectAll(env, Model(), expired[cleaned..]), cleaned)
      {
        ghost var todo := expired[cleaned..];
        ghost var here := Model();
        CollectableTail(here, todo);
        SessionName(env, here, todo[0]);
        CollectOneExact(env, here, todo[0]);
        CollectAllStep(env, here, todo);
        var ok := CollectSession(expired[cleaned]);
        NoTempsCollect(env, here, todo[0]);
        if !ok {
          CrashInv(env, here, todo[0]);
          return Err(KeyErrorRaised);
        }
        RemoveInv(env, here, todo[0]);
        assert todo[1..] == expired[cleaned + 1..];
        cleaned := cleaned + 1;
      }
      assert expired[cleaned..] == [];
      CollectNothing(env, Model());
      return Ok(cleaned);
    }
  }

  lemma NamesDistinct(env: Env, st: State, sid: string)
    requires Inv(env, st) && sid in st.sessions
    ensures var ids := st.sessions[sid].uploaded;
            forall a, b :: a in ids && b in ids && a in st.files && b in st.files && a != b
              ==> StorageName(a, st.files[a].extension) != StorageName(b, st.files[b].extension)
  {
    hide Inv, HexId, PlainExtension, StorageName;
    InvParts(env, st);
    forall a, b | a in st.files && b in st.files && a != b
      ensures StorageName(a, st.files[a].extension) != StorageName(b, st.files[b].extension)
    {
      RecordOnDisk(env, st, a);
      RecordOnDisk(env, st, b);
      StorageNameInjective(a, st.files[a].extension, b, st.files[b].extension);
    }
  }

  /** The loop body, read off step by step for a session whose directory bears its own name. */
  lemma CollectOneParts(env: Env, st: State, sid: string)
    requires sid in st.sessions && Sanitize(sid) == sid && sid in st.disk
    ensures var s := st.sessions[sid];
            var left := st.disk[sid] - OwnedNames(st.files, s.uploaded);
            var cleared := st.disk[sid := left];
            var (st', ok) := CollectOne(env, st, sid);
            && (ok <==> cleared[sid] == map[])
            && st'.files == (map id | id in st.files && id !in s.uploaded :: st.files[id])
            && st'.used == st.used && st'.clock == st.clock
            && (ok ==> st'.disk == cleared - {sid} && st'.order == Without(st.order, {sid})
                       && st'.sessions == map x | x in st.sessions && x != sid :: st.sessions[x])
            && (!ok ==> st'.disk == cleared[sid := left - {env.firstListed(left.Keys)}] && st'.order == st.order
                        && st'.sessions ==
                           st.sessions[sid := if s.status != Completed then s.(status := Expired) else s])
  {
    hide OwnedNames, Without, Sanitize;
  }

  /** The rest of a cleanup, seen after `done` sessions have been collected. */
  function Progress(rest: (State, Result<nat, CleanupError>), done: nat): (State, Result<nat, CleanupError>) {
    match rest.1
    case Ok(n) => (rest.0, Ok(n + done))
    case Err(e) => rest
  }

  lemma CollectAllStep(env: Env, st: State, ids: seq<string>)
    requires ids != [] && ids[0] in st.sessions
    ensures CollectAll(env, st, ids) ==
              (if CollectOne(env, st, ids[0]).1
               then Progress(CollectAll(env, CollectOne(env, st, ids[0]).0, ids[1..]), 1)
               else (CollectOne(env, st, ids[0]).0, Err(KeyErrorRaised)))
  {
    hide CollectOne;
  }

  lemma CollectNothing(env: Env, st: State)
    ensures CollectAll(env, st, []) == (st, Ok(0))
  {
  }

  lemma NoTempsCollect(env: Env, st: State, sid: string)
    requires sid in st.sessions && NoTemps(st.disk)
    ensures NoTemps(CollectOne(env, st, sid).0.disk)
  {
    hide Sanitize, OwnedNames, Without;
  }
}
