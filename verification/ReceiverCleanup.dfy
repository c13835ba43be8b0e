// Garbage collection of expired sessions: exactly what it removes, and exactly when it crashes.
module ReceiverCleanup {
  import opened Prelude
  import opened PathSanitizer
  import opened StoragePaths
  import opened ReceiverModels
  import opened ReceiverState
  import opened ReceiverInvariant

  /** The state with the given sessions, their records and their directories gone. */
  function RemoveSessions(st: State, gone: set<string>): State {
    st.(sessions := st.sessions - gone,
        order := Without(st.order, gone),
        files := map id | id in st.files && st.files[id].sessionId !in gone :: st.files[id],
        disk := st.disk - gone)
  }

  function ExpiredSet(st: State, now: int): set<string> {
    set sid | sid in st.sessions && IsExpired(st.sessions[sid], now)
  }

  // ---- Lists -----------------------------------------------------------------

  lemma {:induction false} WithoutMembers(order: seq<string>, gone: set<string>)
    ensures forall x :: x in Without(order, gone) <==> x in order && x !in gone
  {
    if order != [] {
      WithoutMembers(order[..|order| - 1], gone);
      assert order == order[..|order| - 1] + [order[|order| - 1]];
    }
  }

  lemma {:induction false} WithoutDistinct(order: seq<string>, gone: set<string>)
    requires Distinct(order)
    ensures Distinct(Without(order, gone))
  {
    if order != [] {
      var init, last := order[..|order| - 1], order[|order| - 1];
      WithoutDistinct(init, gone);
      WithoutMembers(init, gone);
      assert last !in init;
    }
  }

  lemma {:induction false} WithoutTwice(order: seq<string>, a: set<string>, b: set<string>)
    ensures Without(Without(order, a), b) == Without(order, a + b)
  {
    if order != [] {
      var init, last := order[..|order| - 1], order[|order| - 1];
      WithoutTwice(init, a, b);
      if last !in a {
        var r := Without(init, a) + [last];
        assert r[..|r| - 1] == Without(init, a);
      }
    }
  }

  lemma {:induction false} WithoutNone(order: seq<string>)
    ensures Without(order, {}) == order
  {
    if order != [] {
      WithoutNone(order[..|order| - 1]);
    }
  }

  lemma {:induction false} ExpiredIdsFacts(st: State, ids: seq<string>, now: int)
    ensures forall x :: x in ExpiredIds(st, ids, now) <==>
            x in ids && x in st.sessions && IsExpired(st.sessions[x], now)
    ensures Distinct(ids) ==> Distinct(ExpiredIds(st, ids, now))
  {
    if ids != [] {
      var init, last := ids[..|ids| - 1], ids[|ids| - 1];
      ExpiredIdsFacts(st, init, now);
      assert ids == init + [last];
      assert Distinct(ids) ==> last !in init;
    }
  }

  // ---- One session -------------------------------------------------------------

  /** A session's records are exactly the stored ids that name it. */
  lemma OwnedRecords(env: Env, st: State, sid: string, id: string)
    requires Inv(env, st) && sid in st.sessions && id in st.files
    ensures id in st.sessions[sid].uploaded <==> st.files[id].sessionId == sid
  {
    hide OnDisk, HexId, PlainExtension, SessionOk, OrderOk;
    RecordOnDisk(env, st, id);
  }

  lemma SessionName(env: Env, st: State, sid: string)
    requires Inv(env, st) && sid in st.sessions
    ensures HexId(sid) && Sanitize(sid) == sid && sid in st.disk
  {
    hide OnDisk, HexId, Sanitize, OrderOk, OwnersUnique, RecordOk;
    assert SessionOk(st, sid);
    SanitizeHexIdentity(sid);
  }

  /** Without strays the loop body removes the session, its records and its directory. */
  lemma CollectOneExact(env: Env, st: State, sid: string)
    requires Inv(env, st) && sid in st.sessions
    ensures CollectOne(env, st, sid).1 <==> StrayFree(st, sid)
    ensures CollectOne(env, st, sid).1 ==> CollectOne(env, st, sid).0 == RemoveSessions(st, {sid})
  {
    hide Inv, Sanitize, HexId, OwnedNames, Without;
    SessionName(env, st, sid);
    var left := st.disk[sid] - OwnedNames(st.files, st.sessions[sid].uploaded);
    assert left.Keys == st.disk[sid].Keys - OwnedNames(st.files, st.sessions[sid].uploaded);
    var names := OwnedNames(st.files, st.sessions[sid].uploaded);
    assert left == map[] <==> left.Keys == {};
    assert left.Keys == {} <==> st.disk[sid].Keys <= names by {
      assert forall n :: n in st.disk[sid] && n !in names ==> n in left.Keys;
    }
    if left == map[] {
      forall id | id in st.files ensures id in st.sessions[sid].uploaded <==> st.files[id].sessionId == sid {
        OwnedRecords(env, st, sid, id);
      }
      var files := map id | id in st.files && id !in st.sessions[sid].uploaded :: st.files[id];
      assert files == RemoveSessions(st, {sid}).files;
    }
  }

  /** Strays of one session do not depend on the others. */
  lemma StraysLocal(env: Env, st: State, gone: set<string>, x: string)
    requires Inv(env, st) && x in st.sessions && x !in gone
    ensures var st' := RemoveSessions(st, gone);
            x in st.disk && x in st'.disk && (StrayFree(st', x) <==> StrayFree(st, x))
  {
    hide Inv, Sanitize, HexId, StorageName, Without;
    SessionName(env, st, x);
    var st' := RemoveSessions(st, gone);
    var ids := st.sessions[x].uploaded;
    forall id | id in ids && id in st.files ensures id in st'.files && st'.files[id] == st.files[id] {
      OwnedRecords(env, st, x, id);
    }
    assert OwnedNames(st.files, ids) == OwnedNames(st'.files, ids);
  }

  // ---- The invariant across cleanup ------------------------------------------

  lemma RemoveInv(env: Env, st: State, sid: string)
    requires Inv(env, st) && sid in st.sessions
    ensures Inv(env, RemoveSessions(st, {sid}))
    ensures AllTyped(st) ==> AllTyped(RemoveSessions(st, {sid}))
  {
    hide HexId, OnDisk, SessionOk, RecordOk, Distinct, Without, TableEntry;
    var st' := RemoveSessions(st, {sid});
    WithoutMembers(st.order, {sid});
    WithoutDistinct(st.order, {sid});
    OwnersKept(st.sessions, st'.sessions);
    assert SessionsOk(st') by { RemoveSessionsOk(env, st, sid); }
    assert RecordsOk(env, st') by { RemoveRecordsOk(env, st, sid); }
  }

  lemma RemoveSessionsOk(env: Env, st: State, sid: string)
    requires Inv(env, st) && sid in st.sessions
    ensures SessionsOk(RemoveSessions(st, {sid}))
  {
    hide Without, SessionOk, RecordsOk, OwnersUnique, OrderOk;
    var st' := RemoveSessions(st, {sid});
    forall x | x in st'.sessions ensures SessionOk(st', x) {
      forall id | id in st.sessions[x].uploaded && id in st.files ensures id in st'.files {
        OwnedRecords(env, st, x, id);
      }
      SessionKept(st, st', x);
    }
  }

  lemma RemoveRecordsOk(env: Env, st: State, sid: string)
    requires Inv(env, st) && sid in st.sessions
    ensures RecordsOk(env, RemoveSessions(st, {sid}))
  {
    hide Without, SessionsOk, OwnersUnique, OrderOk, RecordOk, OnDisk, HexId, PlainExtension;
    var st' := RemoveSessions(st, {sid});
    forall id | id in st'.files ensures RecordOk(env, st', id) {
      RecordOnDisk(env, st, id);
      OnDiskIn(env, st.disk, st.files[id]);
      DiskKeeps(env, st.disk, st'.disk, st.files[id]);
      RecordKept(env, st, st', id);
    }
  }

  /** The state left behind by a crash: the session stays, marked, without its records. */
  lemma CrashInv(env: Env, st: State, sid: string)
    requires Inv(env, st) && sid in st.sessions && IsExpired(st.sessions[sid], st.clock)
    requires !CollectOne(env, st, sid).1
    ensures Inv(env, CollectOne(env, st, sid).0)
    ensures AllTyped(st) ==> AllTyped(CollectOne(env, st, sid).0)
  {
    hide HexId, OnDisk, SessionOk, RecordOk, Sanitize, OwnedNames, OrderOk, TableEntry;
    var st' := CollectOne(env, st, sid).0;
    SessionName(env, st, sid);
    assert st'.sessions.Keys == st.sessions.Keys && st'.disk.Keys == st.disk.Keys;
    assert OrderOk(st') by { OrderSame(st, st'); }
    OwnersKept(st.sessions, st'.sessions);
    assert SessionsOk(st') by { CrashSessions(env, st, sid); }
    assert RecordsOk(env, st') by { CrashRecords(env, st, sid); }
  }

  lemma OrderSame(st: State, st': State)
    requires OrderOk(st) && st'.order == st.order && st'.sessions.Keys == st.sessions.Keys
    ensures OrderOk(st')
  {
  }

  lemma CrashSessions(env: Env, st: State, sid: string)
    requires Inv(env, st) && sid in st.sessions && IsExpired(st.sessions[sid], st.clock)
    requires !CollectOne(env, st, sid).1
    ensures SessionsOk(CollectOne(env, st, sid).0)
  {
    hide HexId, OnDisk, RecordsOk, Sanitize, OwnedNames, OrderOk, SessionShape, Intact;
    var st' := CollectOne(env, st, sid).0;
    assert SessionOk(st, sid);
    forall x | x in st'.sessions ensures SessionOk(st', x) {
      if x == sid {
        CrashedSession(st, st', sid);
      } else {
        assert SameFiles(st, st', st.sessions[x].uploaded);
        SessionKept(st, st', x);
      }
    }
  }

  lemma CrashedSession(st: State, st': State, sid: string)
    requires sid in st.sessions && sid in st'.sessions && SessionOk(st, sid) && IsExpired(st.sessions[sid], st.clock)
    requires SameButStatus(st.sessions[sid], st'.sessions[sid], st'.clock)
    requires st.clock == st'.clock && st.used == st'.used
    requires forall id :: id in st.sessions[sid].uploaded ==> id !in st'.files
    ensures SessionOk(st', sid)
  {
    hide HexId, TypeAllowed, AddRows, Lower, Distinct;
  }

  lemma CrashRecords(env: Env, st: State, sid: string)
    requires Inv(env, st) && sid in st.sessions
    requires !CollectOne(env, st, sid).1
    ensures RecordsOk(env, CollectOne(env, st, sid).0)
  {
    hide HexId, OnDisk, SessionsOk, RecordOk, Sanitize, OwnedNames, OrderOk, PlainExtension, OwnersUnique;
    var st' := CollectOne(env, st, sid).0;
    SessionName(env, st, sid);
    forall id | id in st'.files ensures RecordOk(env, st', id) {
      RecordOnDisk(env, st, id);
      OnDiskIn(env, st.disk, st.files[id]);
      OwnedRecords(env, st, sid, id);
      DiskKeeps(env, st.disk, st'.disk, st.files[id]);
      RecordKept(env, st, st', id);
    }
  }

  predicate Collectable(st: State, ids: seq<string>) {
    Distinct(ids) && forall x :: x in ids ==> x in st.sessions && IsExpired(st.sessions[x], st.clock)
  }

  lemma CollectableTail(st: State, ids: seq<string>)
    requires Collectable(st, ids) && ids != []
    ensures ids[0] in st.sessions && IsExpired(st.sessions[ids[0]], st.clock) && ids[0] !in ids[1..]
    ensures Collectable(RemoveSessions(st, {ids[0]}), ids[1..])
  {
    hide Without, IsExpired;
    var t := ids[1..];
    assert ids[0] in ids;
    forall i | 0 <= i < |t| ensures t[i] != ids[0] && t[i] in ids { assert t[i] == ids[i + 1]; }
  }

  lemma {:induction false} CollectAllInv(env: Env, st: State, ids: seq<string>)
    requires Inv(env, st) && Collectable(st, ids)
    ensures Inv(env, CollectAll(env, st, ids).0)
    ensures AllTyped(st) ==> AllTyped(CollectAll(env, st, ids).0)
    decreases |ids|
  {
    hide Inv, CollectOne, RemoveSessions, AllTyped, StrayFree, Collectable;
    if ids != [] {
      CollectableTail(st, ids);
      InvParts(env, st);
      CollectOneExact(env, st, ids[0]);
      if CollectOne(env, st, ids[0]).1 {
        RemoveInv(env, st, ids[0]);
        CollectAllInv(env, RemoveSessions(st, {ids[0]}), ids[1..]);
      } else {
        CrashInv(env, st, ids[0]);
      }
    }
  }

  lemma CleanupCollectable(env: Env, st: State, now: int)
    requires Inv(env, st) && now >= st.clock
    ensures Inv(env, st.(clock := now)) && Collectable(st.(clock := now), ExpiredIds(st, st.order, now))
    ensures forall x :: x in ExpiredIds(st, st.order, now) <==> x in ExpiredSet(st, now)
  {
    hide SessionsOk, RecordsOk, OwnersUnique, IsExpired;
    ClockAdvance(env, st, now);
    ExpiredIdsFacts(st, st.order, now);
  }

  lemma CleanupInv(env: Env, st: State, now: int)
    requires Inv(env, st) && now >= st.clock
    ensures Inv(env, Cleanup(env, st, now).0)
    ensures AllTyped(st) ==> AllTyped(Cleanup(env, st, now).0)
  {
    hide Inv, CollectAll, Collectable, TableEntry;
    CleanupCollectable(env, st, now);
    CollectAllInv(env, st.(clock := now), ExpiredIds(st, st.order, now));
  }

  // ---- Exactness -------------------------------------------------------------

  lemma RemoveNothing(st: State)
    ensures RemoveSessions(st, {}) == st
  {
    WithoutNone(st.order);
    assert RemoveSessions(st, {}).files == st.files;
    assert RemoveSessions(st, {}).sessions == st.sessions;
    assert RemoveSessions(st, {}).disk == st.disk;
  }

  lemma RemoveTwice(st: State, a: set<string>, b: set<string>)
    ensures RemoveSessions(RemoveSessions(st, a), b) == RemoveSessions(st, a + b)
  {
    hide Without;
    WithoutTwice(st.order, a, b);
    var x, y := RemoveSessions(RemoveSessions(st, a), b), RemoveSessions(st, a + b);
    assert x.sessions == y.sessions;
    assert x.files == y.files;
    assert x.disk == y.disk;
  }

  function Members(ids: seq<string>): set<string> {
    set x | x in ids
  }

  predicate NoStraysIn(st: State, ids: seq<string>)
    requires forall x :: x in ids ==> x in st.sessions && x in st.disk
  {
    forall x :: x in ids ==> StrayFree(st, x)
  }

  lemma CollectableOnDisk(env: Env, st: State, ids: seq<string>)
    requires Inv(env, st) && Collectable(st, ids)
    ensures forall x :: x in ids ==> x in st.sessions && x in st.disk
  {
    hide IsExpired, SessionsOk, RecordsOk, OrderOk, OwnersUnique, Distinct;
  }

  /** Whether the tail has strays does not change when the head is removed. */
  lemma TailStrays(env: Env, st: State, ids: seq<string>)
    requires Inv(env, st) && Collectable(st, ids) && ids != []
    ensures var st' := RemoveSessions(st, {ids[0]});
            && (forall x :: x in ids ==> x in st.sessions && x in st.disk)
            && (forall x :: x in ids[1..] ==> x in st'.sessions && x in st'.disk)
            && (NoStraysIn(st, ids) <==> StrayFree(st, ids[0]) && NoStraysIn(st', ids[1..]))
  {
    hide Inv, StrayFree, IsExpired, Without, Distinct;
    CollectableOnDisk(env, st, ids);
    CollectableTail(st, ids);
    forall x | x in ids[1..] ensures x in ids && x in RemoveSessions(st, {ids[0]}).disk
                                  && (StrayFree(RemoveSessions(st, {ids[0]}), x) <==> StrayFree(st, x))
    {
      StraysLocal(env, st, {ids[0]}, x);
    }
    assert forall x :: x in ids ==> x == ids[0] || x in ids[1..];
  }

  lemma MembersHead(ids: seq<string>)
    requires ids != []
    ensures Members(ids) == {ids[0]} + Members(ids[1..])
  {
    assert forall x :: x in ids ==> x == ids[0] || x in ids[1..];
  }

  lemma {:induction false} CollectAllExact(env: Env, st: State, ids: seq<string>)
    requires Inv(env, st) && Collectable(st, ids)
    ensures forall x :: x in ids ==> x in st.sessions && x in st.disk
    ensures CollectAll(env, st, ids).1.Ok? <==> NoStraysIn(st, ids)
    ensures NoStraysIn(st, ids) ==> CollectAll(env, st, ids) == (RemoveSessions(st, Members(ids)), Ok(|ids|))
    decreases |ids|
  {
    hide Inv, CollectOne, RemoveSessions, StrayFree, Collectable;
    CollectableOnDisk(env, st, ids);
    if ids == [] {
      RemoveNothing(st);
      assert Members(ids) == {};
    } else {
      CollectableTail(st, ids);
      TailStrays(env, st, ids);
      CollectOneExact(env, st, ids[0]);
      RemoveInv(env, st, ids[0]);
      var st' := RemoveSessions(st, {ids[0]});
      CollectAllExact(env, st', ids[1..]);
      RemoveTwice(st, {ids[0]}, Members(ids[1..]));
      MembersHead(ids);
    }
  }

  /** Cleanup succeeds exactly when no expired session's directory holds a stray file; it then removes
      the expired sessions with their records and directories, returns how many, and changes nothing else. */
  lemma CleanupExact(env: Env, st: State, now: int)
    requires Inv(env, st) && now >= st.clock
    ensures forall x :: x in ExpiredSet(st, now) ==> x in st.sessions && x in st.disk
    ensures Cleanup(env, st, now).1.Ok? <==> forall x :: x in ExpiredSet(st, now) ==> StrayFree(st, x)
    ensures Cleanup(env, st, now).1.Ok? ==>
              Cleanup(env, st, now) ==
              (RemoveSessions(st.(clock := now), ExpiredSet(st, now)), Ok(|ExpiredSet(st, now)|))
  {
    hide Inv, CollectAll, RemoveSessions, StrayFree, Collectable, ExpiredIds, ExpiredSet;
    CleanupCollectable(env, st, now);
    var ids := ExpiredIds(st, st.order, now);
    var st0 := st.(clock := now);
    CollectAllExact(env, st0, ids);
    assert Members(ids) == ExpiredSet(st, now);
    MembersCount(st0, ids);
    forall x | x in ids ensures x in st.disk && (StrayFree(st0, x) <==> StrayFree(st, x)) {
      StrayClock(st, now, x);
    }
  }

  lemma StrayClock(st: State, now: int, x: string)
    requires x in st.sessions && x in st.disk
    ensures StrayFree(st.(clock := now), x) <==> StrayFree(st, x)
  {
  }

  lemma MembersCount(st: State, ids: seq<string>)
    requires Collectable(st, ids)
    ensures |Members(ids)| == |ids|
  {
    DistinctCount(ids);
  }

  lemma {:induction false} DistinctCount(ids: seq<string>)
    requires Distinct(ids)
    ensures |Members(ids)| == |ids|
  {
    if ids != [] {
      var t := ids[1..];
      assert Distinct(t) by {
        forall i, j | 0 <= i < j < |t| ensures t[i] != t[j] { assert t[i] == ids[i + 1] && t[j] == ids[j + 1]; }
      }
      DistinctCount(t);
      MembersHead(ids);
      assert ids[0] !in t by { assert forall i :: 0 <= i < |t| ==> t[i] == ids[i + 1]; }
    }
  }

  // ---- Frame: what cleanup never touches, crash or not --------------------------

  predicate Untouched(st: State, st': State, sid: string)
    requires sid in st.sessions && sid in st.disk
  {
    sid in st'.sessions && st'.sessions[sid] == st.sessions[sid]
    && sid in st'.disk && st'.disk[sid] == st.disk[sid]
    && forall id :: id in st.files && st.files[id].sessionId == sid ==> id in st'.files && st'.files[id] == st.files[id]
  }

  lemma CollectOneUntouched(env: Env, st: State, sid: string, x: string)
    requires Inv(env, st) && sid in st.sessions && x in st.sessions && x != sid
    ensures x in st.disk && Untouched(st, CollectOne(env, st, sid).0, x)
  {
    hide Inv, Sanitize, HexId, OwnedNames, Without;
    SessionName(env, st, sid);
    SessionName(env, st, x);
    forall id | id in st.files && st.files[id].sessionId == x ensures id !in st.sessions[sid].uploaded {
      OwnedRecords(env, st, sid, id);
    }
  }

  lemma {:induction false} CollectAllUntouched(env: Env, st: State, ids: seq<string>, x: string)
    requires Inv(env, st) && Collectable(st, ids) && x in st.sessions && x !in ids
    ensures x in st.disk && Untouched(st, CollectAll(env, st, ids).0, x)
    decreases |ids|
  {
    hide Inv, CollectOne, RemoveSessions, StrayFree, Collectable;
    SessionName(env, st, x);
    if ids != [] {
      CollectableTail(st, ids);
      CollectOneUntouched(env, st, ids[0], x);
      SessionName(env, st, ids[0]);
      CollectOneExact(env, st, ids[0]);
      if CollectOne(env, st, ids[0]).1 {
        RemoveInv(env, st, ids[0]);
        CollectAllUntouched(env, RemoveSessions(st, {ids[0]}), ids[1..], x);
      }
    }
  }

  /** Live sessions, their records and their files survive every cleanup unchanged, even one that crashes. */
  lemma CleanupKeepsLive(env: Env, st: State, now: int, sid: string)
    requires Inv(env, st) && now >= st.clock && sid in st.sessions && !IsExpired(st.sessions[sid], now)
    ensures sid in st.disk && Untouched(st, Cleanup(env, st, now).0, sid)
  {
    hide Inv, CollectAll, Collectable, ExpiredIds;
    CleanupCollectable(env, st, now);
    CollectAllUntouched(env, st.(clock := now), ExpiredIds(st, st.order, now), sid);
  }
}
