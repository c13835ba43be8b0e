// What a raising cleanup does: which session it raises at, what that session loses, and how the strays run out.
module ReceiverRaises {
  import opened Prelude
  import opened PathSanitizer
  import opened StoragePaths
  import opened ReceiverModels
  import opened ReceiverState
  import opened ReceiverInvariant
  import opened ReceiverCleanup

  /** The session at which the cleanup loop raises, if it does. */
  function RaiseSite(env: Env, st: State, ids: seq<string>): Option<string>
    decreases |ids|
  {
    if ids == [] || ids[0] !in st.sessions then None
    else
      var (st1, ok) := CollectOne(env, st, ids[0]);
      if ok then RaiseSite(env, st1, ids[1..]) else Some(ids[0])
  }

  /** The session at which an operation raises `KeyError`; only a cleanup can. */
  function RaisedAt(env: Env, st: State, op: Op): Option<string> {
    if op.OpCleanup? then RaiseSite(env, st.(clock := op.now), ExpiredIds(st, st.order, op.now)) else None
  }

  /** A session's uploads and total are the same, and so is each of its records: none lost, none new, none changed. */
  predicate Kept(st: State, st': State, sid: string)
    requires sid in st.sessions && sid in st'.sessions
  {
    && st'.sessions[sid].uploaded == st.sessions[sid].uploaded
    && st'.sessions[sid].total == st.sessions[sid].total
    && SameFiles(st, st', st.sessions[sid].uploaded)
  }

  /** The bytes in the session's directory are the same. */
  predicate DirectoryKept(st: State, st': State, sid: string) {
    sid in st.disk && sid in st'.disk && st'.disk[sid] == st.disk[sid]
  }

  /** Uploads and total are still there, but not one record. */
  predicate Emptied(st: State, st': State, sid: string)
    requires sid in st.sessions && sid in st'.sessions
  {
    && st'.sessions[sid].uploaded == st.sessions[sid].uploaded
    && st'.sessions[sid].total == st.sessions[sid].total
    && forall id :: id in st.sessions[sid].uploaded ==> id !in st'.files
  }

  lemma KeptTrans(a: State, b: State, c: State, sid: string)
    requires sid in a.sessions && sid in b.sessions && sid in c.sessions && Kept(a, b, sid)
    ensures Kept(b, c, sid) ==> Kept(a, c, sid)
    ensures Emptied(b, c, sid) ==> Emptied(a, c, sid)
  {
  }

  // ---- One cleanup -----------------------------------------------------------------------------

  /** The loop body leaves every other session alone. */
  lemma CollectOneKeeps(env: Env, st: State, sid: string, x: string)
    requires Inv(env, st) && sid in st.sessions && x in st.sessions && x != sid
    ensures var st' := CollectOne(env, st, sid).0;
            x in st'.sessions && st'.sessions[x] == st.sessions[x] && Kept(st, st', x) && DirectoryKept(st, st', x)
  {
    hide Inv, Sanitize, HexId, OwnedNames, Without;
    CollectOneUntouched(env, st, sid, x);
    forall id | id in st.sessions[x].uploaded && id in st.files ensures id in CollectOne(env, st, sid).0.files {
      OwnedRecords(env, st, x, id);
    }
  }

  /** The loop body that raises leaves its session without records. */
  lemma CollectOneEmpties(env: Env, st: State, sid: string)
    requires sid in st.sessions && !CollectOne(env, st, sid).1
    ensures var st' := CollectOne(env, st, sid).0; sid in st'.sessions && Emptied(st, st', sid)
  {
    hide Sanitize, OwnedNames;
  }

  lemma {:induction false} CollectAllKeeps(env: Env, st: State, ids: seq<string>, x: string)
    requires Inv(env, st) && Collectable(st, ids) && x in st.sessions
    ensures var st' := CollectAll(env, st, ids).0;
            x in st'.sessions ==>
              if RaiseSite(env, st, ids) == Some(x) then x in ids && Emptied(st, st', x)
              else Kept(st, st', x) && DirectoryKept(st, st', x)
    ensures RaiseSite(env, st, ids) == Some(x) ==> x in ids && x in CollectAll(env, st, ids).0.sessions
    decreases |ids|
  {
    hide Inv, CollectOne, RemoveSessions, StrayFree, Collectable, Kept, Emptied, DirectoryKept;
    if ids == [] {
      KeptSelf(env, st, x);
    } else {
      CollectableTail(st, ids);
      SessionName(env, st, ids[0]);
      CollectOneExact(env, st, ids[0]);
      var (st1, ok) := CollectOne(env, st, ids[0]);
      if x != ids[0] { CollectOneKeeps(env, st, ids[0], x); }
      if ok {
        RemoveInv(env, st, ids[0]);
        RemovedKey(st, ids[0]);
        TailKeeps(env, st, ids, x);
      } else if x == ids[0] {
        CollectOneEmpties(env, st, x);
      }
    }
  }

  /** The rest of the loop, after a session was collected. */
  lemma {:induction false} TailKeeps(env: Env, st: State, ids: seq<string>, x: string)
    requires ids != [] && Inv(env, st) && x in st.sessions && ids[0] in st.sessions && CollectOne(env, st, ids[0]).1
    requires Inv(env, RemoveSessions(st, {ids[0]})) && Collectable(RemoveSessions(st, {ids[0]}), ids[1..])
    requires CollectOne(env, st, ids[0]).0 == RemoveSessions(st, {ids[0]})
    requires ids[0] !in RemoveSessions(st, {ids[0]}).sessions
    requires x != ids[0] ==>
               var st1 := CollectOne(env, st, ids[0]).0;
               x in st1.sessions && Kept(st, st1, x) && DirectoryKept(st, st1, x)
    ensures var st' := CollectAll(env, st, ids).0;
            x in st'.sessions ==>
              if RaiseSite(env, st, ids) == Some(x) then x in ids && Emptied(st, st', x)
              else Kept(st, st', x) && DirectoryKept(st, st', x)
    ensures RaiseSite(env, st, ids) == Some(x) ==> x in ids && x in CollectAll(env, st, ids).0.sessions
    decreases |ids|, 0
  {
    hide Inv, CollectOne, RemoveSessions, Collectable, Kept, Emptied;
    var st1, rest := CollectOne(env, st, ids[0]).0, ids[1..];
    var st' := CollectAll(env, st1, rest).0;
    NoneAppear(env, st1, rest);
    if x != ids[0] {
      CollectAllKeeps(env, st1, rest, x);
      if x in st'.sessions { KeptTrans(st, st1, st', x); }
    } else {
      SiteInside(env, st1, rest);
    }
  }

  lemma KeptSelf(env: Env, st: State, x: string)
    requires Inv(env, st) && x in st.sessions
    ensures Kept(st, st, x) && DirectoryKept(st, st, x)
  {
    hide Inv, HexId;
    SessionName(env, st, x);
  }

  lemma RemovedKey(st: State, sid: string)
    ensures RemoveSessions(st, {sid}).sessions.Keys == st.sessions.Keys - {sid}
  {
    hide Without;
  }

  lemma NoneAppear(env: Env, st: State, ids: seq<string>)
    ensures CollectAll(env, st, ids).0.sessions.Keys <= st.sessions.Keys
  {
    hide CollectAll;
    CollectAllShape(env, st, ids);
  }

  /** The loop raises at a session it was given and that is there. */
  lemma {:induction false} SiteInside(env: Env, st: State, ids: seq<string>)
    ensures var site := RaiseSite(env, st, ids); site.Some? ==> site.value in ids && site.value in st.sessions
    decreases |ids|
  {
    hide Sanitize, OwnedNames, Without;
    if ids != [] && ids[0] in st.sessions { SiteInside(env, CollectOne(env, st, ids[0]).0, ids[1..]); }
  }

  lemma {:induction false} RaiseIffErr(env: Env, st: State, ids: seq<string>)
    requires Inv(env, st) && Collectable(st, ids)
    ensures CollectAll(env, st, ids).1.Err? <==> RaiseSite(env, st, ids).Some?
    decreases |ids|
  {
    hide Inv, CollectOne, RemoveSessions, StrayFree, Collectable;
    if ids != [] {
      CollectableTail(st, ids);
      SessionName(env, st, ids[0]);
      CollectOneExact(env, st, ids[0]);
      if CollectOne(env, st, ids[0]).1 {
        RemoveInv(env, st, ids[0]);
        RaiseIffErr(env, RemoveSessions(st, {ids[0]}), ids[1..]);
      }
    }
  }

  /** A cleanup raises exactly when it has a session to raise at. That session stays with its uploads and its total and
      loses every record; every other session that stays keeps its records, its total and its bytes. */
  lemma CleanupKeepsOthers(env: Env, st: State, now: int, sid: string)
    requires Inv(env, st) && now >= st.clock && sid in st.sessions
    ensures var (st', r) := Cleanup(env, st, now);
            var site := RaisedAt(env, st, OpCleanup(now));
            && (r.Err? <==> site.Some?)
            && (site == Some(sid) ==> sid in st'.sessions && st.sessions[sid].expiresAt < now)
            && (sid in st'.sessions ==>
                  if site == Some(sid) then Emptied(st, st', sid)
                  else Kept(st, st', sid) && DirectoryKept(st, st', sid))
  {
    hide Inv, CollectAll, RaiseSite, ExpiredIds;
    CleanupCollectable(env, st, now);
    CollectAllKeeps(env, st.(clock := now), ExpiredIds(st, st.order, now), sid);
    RaiseIffErr(env, st.(clock := now), ExpiredIds(st, st.order, now));
    ExpiredByClock(env, st, now, sid);
  }

  lemma ExpiredByClock(env: Env, st: State, now: int, sid: string)
    requires Inv(env, st) && now >= st.clock && sid in st.sessions
    ensures IsExpired(st.sessions[sid], now) ==> st.sessions[sid].expiresAt < now
  {
    hide OrderOk, RecordsOk, OwnersUnique, HexId, SessionShape, Intact, HalfCollected;
    assert SessionOk(st, sid);
  }

  /** Nothing is new after a cleanup; sessions that stay differ in their status at most, which can only become
      expired. */
  predicate Shrunk(st: State, st': State) {
    && st'.used == st.used
    && (forall x :: x in st'.sessions ==>
          && x in st.sessions
          && st'.sessions[x] == st.sessions[x].(status := st'.sessions[x].status)
          && (st'.sessions[x].status == st.sessions[x].status || st'.sessions[x].status == Expired))
    && (forall id :: id in st'.files ==> id in st.files && st'.files[id] == st.files[id])
  }

  lemma CollectOneShape(env: Env, st: State, sid: string)
    requires sid in st.sessions
    ensures Shrunk(st, CollectOne(env, st, sid).0)
  {
    hide Sanitize, OwnedNames, Without;
  }

  lemma ShrunkTrans(a: State, b: State, c: State)
    requires Shrunk(a, b) && Shrunk(b, c)
    ensures Shrunk(a, c)
  {
  }

  lemma {:induction false} CollectAllShape(env: Env, st: State, ids: seq<string>)
    ensures Shrunk(st, CollectAll(env, st, ids).0)
    decreases |ids|
  {
    if ids != [] && ids[0] in st.sessions {
      var st1 := CollectOne(env, st, ids[0]).0;
      CollectOneShape(env, st, ids[0]);
      CollectAllShape(env, st1, ids[1..]);
      hide CollectOne, Shrunk;
      ShrunkTrans(st, st1, CollectAll(env, st1, ids[1..]).0);
    } else {
      hide Shrunk;
      ShrunkSelf(st);
    }
  }

  lemma ShrunkSelf(st: State)
    ensures Shrunk(st, st)
  {
  }

  // ---- Strays run out --------------------------------------------------------------------------

  /** The stray files of the expired sessions, each with its session. */
  function StraySet(st: State, now: int): set<(string, string)> {
    set sid, name | sid in ExpiredSet(st, now) && sid in st.disk && name in st.disk[sid]
                    && name !in OwnedNames(st.files, st.sessions[sid].uploaded) :: (sid, name)
  }

  /** `name` is a stray of the expired session `sid`. */
  predicate StrayOf(st: State, now: int, sid: string, name: string) {
    && sid in st.sessions && IsExpired(st.sessions[sid], now) && sid in st.disk && name in st.disk[sid]
    && name !in OwnedNames(st.files, st.sessions[sid].uploaded)
  }

  lemma StraySetMembers(st: State, now: int)
    ensures forall sid, name :: (sid, name) in StraySet(st, now) <==> StrayOf(st, now, sid, name)
  {
    hide OwnedNames, IsExpired;
  }

  /** The strays of a session whose directory, uploads and records are kept are the same. */
  lemma SameStrays(st: State, st': State, now: int, sid: string, name: string)
    requires sid in st.sessions && sid in st'.sessions && Kept(st, st', sid) && DirectoryKept(st, st', sid)
    requires IsExpired(st.sessions[sid], now) <==> IsExpired(st'.sessions[sid], now)
    ensures StrayOf(st, now, sid, name) <==> StrayOf(st', now, sid, name)
  {
    hide IsExpired, StorageName;
    var ids := st.sessions[sid].uploaded;
    assert OwnedNames(st.files, ids) == OwnedNames(st'.files, ids);
  }

  /** A collected session had no stray. */
  lemma CollectedStrays(env: Env, st: State, now: int, sid: string, x: string, name: string)
    requires Inv(env, st) && sid in st.sessions && CollectOne(env, st, sid).1
    ensures StrayOf(st, now, x, name) <==> StrayOf(CollectOne(env, st, sid).0, now, x, name)
  {
    hide Inv, CollectOne, OwnedNames, IsExpired, RemoveSessions;
    SessionName(env, st, sid);
    CollectOneExact(env, st, sid);
    RemovedKey(st, sid);
    if x != sid && x in st.sessions {
      CollectOneKeeps(env, st, sid, x);
      SameStrays(st, CollectOne(env, st, sid).0, now, x, name);
    }
  }

  /** The loop body that raises has deleted one stray of its session and no other. */
  lemma RaisedStrays(env: Env, st: State, now: int, sid: string) returns (gone: string)
    requires Inv(env, st) && sid in st.sessions && IsExpired(st.sessions[sid], now) && !CollectOne(env, st, sid).1
    ensures StrayOf(st, now, sid, gone)
    ensures forall x, name :: StrayOf(CollectOne(env, st, sid).0, now, x, name) <==>
                                StrayOf(st, now, x, name) && (x, name) != (sid, gone)
  {
    hide Inv, Sanitize, Without, StorageName, HexId;
    var st' := CollectOne(env, st, sid).0;
    SessionName(env, st, sid);
    var names := OwnedNames(st.files, st.sessions[sid].uploaded);
    var left := st.disk[sid] - names;
    gone := env.firstListed(left.Keys);
    assert gone in left.Keys;
    assert OwnedNames(st'.files, st.sessions[sid].uploaded) == {};
    hide OwnedNames, CollectOne;
    forall x, name
      ensures StrayOf(st', now, x, name) <==> StrayOf(st, now, x, name) && (x, name) != (sid, gone)
    {
      if x != sid && x in st.sessions {
        CollectOneKeeps(env, st, sid, x);
        SameStrays(st, st', now, x, name);
      }
    }
  }

  lemma {:induction false} CollectAllStrays(
    env: Env, st: State, now: int, ids: seq<string>) returns (x: string, gone: string)
    requires Inv(env, st) && Collectable(st, ids) && now == st.clock && CollectAll(env, st, ids).1.Err?
    ensures RaiseSite(env, st, ids) == Some(x) && StrayOf(st, now, x, gone)
    ensures forall y, name :: StrayOf(CollectAll(env, st, ids).0, now, y, name) <==>
                                StrayOf(st, now, y, name) && (y, name) != (x, gone)
    decreases |ids|
  {
    hide Inv, CollectOne, RemoveSessions, StrayFree, Collectable, StrayOf;
    RaiseIffErr(env, st, ids);
    CollectableTail(st, ids);
    SessionName(env, st, ids[0]);
    CollectOneExact(env, st, ids[0]);
    var (st1, ok) := CollectOne(env, st, ids[0]);
    if ok {
      RemoveInv(env, st, ids[0]);
      RemovedClock(st, ids[0]);
      x, gone := CollectAllStrays(env, st1, now, ids[1..]);
      forall y, name ensures StrayOf(st, now, y, name) <==> StrayOf(st1, now, y, name) {
        CollectedStrays(env, st, now, ids[0], y, name);
      }
    } else {
      x := ids[0];
      gone := RaisedStrays(env, st, now, ids[0]);
    }
  }

  lemma RemovedClock(st: State, sid: string)
    ensures RemoveSessions(st, {sid}).clock == st.clock
  {
  }

  /** A raising cleanup deletes exactly one stray, in the session it raises at. */
  lemma RaiseRemovesOneStray(env: Env, st: State, now: int)
    requires Inv(env, st) && now >= st.clock && Cleanup(env, st, now).1.Err?
    ensures exists gone ::
              gone in StraySet(st, now) && RaisedAt(env, st, OpCleanup(now)) == Some(gone.0)
              && StraySet(Cleanup(env, st, now).0, now) == StraySet(st, now) - {gone}
  {
    hide Inv, CollectAll, RaiseSite, ExpiredIds, Collectable, StrayOf, StraySet;
    CleanupCollectable(env, st, now);
    var st0, ids, st' := st.(clock := now), ExpiredIds(st, st.order, now), Cleanup(env, st, now).0;
    var x, name := CollectAllStrays(env, st0, now, ids);
    StraySetMembers(st0, now);
    StraySetMembers(st', now);
    SameStraySet(st, now);
    assert (x, name) in StraySet(st, now);
    PairsEqual(StraySet(st', now), StraySet(st, now) - {(x, name)});
  }

  lemma PairsEqual(a: set<(string, string)>, b: set<(string, string)>)
    requires forall x, name :: (x, name) in a <==> (x, name) in b
    ensures a == b
  {
    forall p: (string, string) ensures p in a <==> p in b { assert p == (p.0, p.1); }
  }

  lemma SameStraySet(st: State, now: int)
    ensures StraySet(st.(clock := now), now) == StraySet(st, now)
  {
    hide OwnedNames, IsExpired;
    assert ExpiredSet(st.(clock := now), now) == ExpiredSet(st, now);
  }

  /** A cleanup succeeds exactly when there is no stray, and leaves none. */
  lemma SucceedsWithoutStrays(env: Env, st: State, now: int)
    requires Inv(env, st) && now >= st.clock
    ensures Cleanup(env, st, now).1.Ok? <==> StraySet(st, now) == {}
    ensures Cleanup(env, st, now).1.Ok? ==> StraySet(Cleanup(env, st, now).0, now) == {}
  {
    hide Inv, Cleanup, OwnedNames, IsExpired, RemoveSessions, StraySet;
    CleanupExact(env, st, now);
    StraySetMembers(st, now);
    forall x | x in ExpiredSet(st, now) ensures x in st.sessions && x in st.disk
                                              && (StrayFree(st, x) <==> forall name :: !StrayOf(st, now, x, name))
    {
      StrayFreeExact(st, now, x);
    }
    if Cleanup(env, st, now).1.Ok? {
      RemovedKeys(st.(clock := now), ExpiredSet(st, now));
      var st' := Cleanup(env, st, now).0;
      StraySetMembers(st', now);
      forall x, name ensures !StrayOf(st', now, x, name) {}
      assert StraySet(st', now) == {} by {
        PairsEqual(StraySet(st', now), {});
      }
    }
    if StraySet(st, now) != {} {
      var p :| p in StraySet(st, now);
      assert (p.0, p.1) in StraySet(st, now);
    }
  }

  lemma StrayFreeExact(st: State, now: int, x: string)
    requires x in st.sessions && x in st.disk && IsExpired(st.sessions[x], now)
    ensures StrayFree(st, x) <==> forall name :: !StrayOf(st, now, x, name)
  {
    hide OwnedNames, IsExpired;
    if !StrayFree(st, x) {
      var name :| name in st.disk[x].Keys && name !in OwnedNames(st.files, st.sessions[x].uploaded);
      assert StrayOf(st, now, x, name);
    }
    if StrayFree(st, x) {
      forall name ensures !StrayOf(st, now, x, name) {
        assert name in st.disk[x] ==> name in st.disk[x].Keys;
      }
    }
  }

  lemma RemovedKeys(st: State, gone: set<string>)
    ensures var st' := RemoveSessions(st, gone);
            && st'.sessions.Keys == st.sessions.Keys - gone && st'.disk.Keys == st.disk.Keys - gone
            && forall x :: x in st'.sessions ==> st'.sessions[x] == st.sessions[x]
  {
    hide Without;
  }

  /** The state after `k` cleanups at one moment. */
  function Again(env: Env, st: State, now: int, k: nat): State
    decreases k
  {
    if k == 0 then st else Again(env, Cleanup(env, st, now).0, now, k - 1)
  }

  /** With n strays in the expired sessions, the first n cleanups raise and every further one succeeds. */
  lemma {:induction false} StraysRunOut(env: Env, st: State, now: int, k: nat)
    requires Inv(env, st) && now >= st.clock
    ensures Cleanup(env, Again(env, st, now, k), now).1.Ok? <==> k >= |StraySet(st, now)|
    decreases k
  {
    hide Inv, Cleanup, StraySet;
    if k == 0 {
      SucceedsWithoutStrays(env, st, now);
    } else {
      CleanupInv(env, st, now);
      CleanupClock(env, st, now);
      StraysRunOut(env, Cleanup(env, st, now).0, now, k - 1);
      OneFewer(env, st, now);
    }
  }

  /** A cleanup takes one stray away, if there is one. */
  lemma OneFewer(env: Env, st: State, now: int)
    requires Inv(env, st) && now >= st.clock
    ensures var n := |StraySet(st, now)|; |StraySet(Cleanup(env, st, now).0, now)| == if n == 0 then 0 else n - 1
  {
    hide Inv, Cleanup, StraySet;
    SucceedsWithoutStrays(env, st, now);
    if Cleanup(env, st, now).1.Err? {
      RaiseRemovesOneStray(env, st, now);
      var gone :| gone in StraySet(st, now) && StraySet(Cleanup(env, st, now).0, now) == StraySet(st, now) - {gone};
    }
  }

  lemma CleanupClock(env: Env, st: State, now: int)
    ensures Cleanup(env, st, now).0.clock == now
  {
    hide ExpiredIds;
    CollectAllClock(env, st.(clock := now), ExpiredIds(st, st.order, now));
  }

  lemma {:induction false} CollectAllClock(env: Env, st: State, ids: seq<string>)
    ensures CollectAll(env, st, ids).0.clock == st.clock
    decreases |ids|
  {
    hide Sanitize, OwnedNames, Without;
    if ids != [] && ids[0] in st.sessions { CollectAllClock(env, CollectOne(env, st, ids[0]).0, ids[1..]); }
  }
}
