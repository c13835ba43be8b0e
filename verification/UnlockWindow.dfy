// The in-memory authorization window (src/intake/local_console/security/unlock.py). Times are seconds.
module UnlockWindow {
  import opened Prelude

  /** What `is_unlocked` answers, and what it leaves in `_unlocked_until`. */
  function Query(until: Option<int>, now: int): (bool, Option<int>) {
    match until
    case None => (false, None)
    case Some(u) => if now > u then (false, None) else (true, until)
  }

  /** `remaining_seconds`: the query reads the clock at `now`, the difference at `later`. */
  function Remaining(until: Option<int>, now: int, later: int): (int, Option<int>) {
    var (open, until') := Query(until, now);
    (if !open then 0 else if until'.value > later then until'.value - later else 0, until')
  }

  class LocalAuthorizationWindow {
    const ttl: int
    var unlockedUntil: Option<int>

    constructor (ttl: int)
      ensures unlockedUntil == None && this.ttl == ttl
    {
      this.ttl := ttl;
      unlockedUntil := None;
    }

    method Unlock(now: int) returns (expiry: int)
      modifies this
      ensures expiry == now + ttl && unlockedUntil == Some(expiry)
    {
      expiry := now + ttl;
      unlockedUntil := Some(expiry);
    }

    method Lock()
      modifies this
      ensures unlockedUntil == None
    {
      unlockedUntil := None;
    }

    method IsUnlocked(now: int) returns (open: bool)
      modifies this
      ensures (open, unlockedUntil) == Query(old(unlockedUntil), now)
    {
      if unlockedUntil == None { return false; }
      if now > unlockedUntil.value {
        Lock();
        return false;
      }
      return true;
    }

    method RemainingSeconds(now: int, later: int) returns (seconds: int)
      modifies this
      ensures (seconds, unlockedUntil) == Remaining(old(unlockedUntil), now, later)
    {
      var open := IsUnlocked(now);
      if !open { return 0; }
      var delta := unlockedUntil.value - later;
      return if delta > 0 then delta else 0;
    }
  }

  // ---- Histories ---------------------------------------------------------------------------

  /** One call on the window. */
  datatype Event = Unlock(at: int) | Lock(at: int) | Ask(at: int) | AskRemaining(at: int, later: int)

  function LastTime(e: Event): int {
    if e.AskRemaining? then e.later else e.at
  }

  /** The clock does not go back. */
  predicate Ordered(history: seq<Event>) {
    && (forall i :: 0 <= i < |history| && history[i].AskRemaining? ==> history[i].at <= history[i].later)
    && (forall i, j :: 0 <= i < j < |history| ==> LastTime(history[i]) <= history[j].at)
  }

  function After(ttl: int, until: Option<int>, e: Event): Option<int> {
    match e
    case Unlock(at) => Some(at + ttl)
    case Lock(_) => None
    case Ask(at) => Query(until, at).1
    case AskRemaining(at, later) => Remaining(until, at, later).1
  }

  /** `_unlocked_until` after a history. */
  function Stored(ttl: int, history: seq<Event>): Option<int> {
    if history == [] then None else After(ttl, Stored(ttl, history[..|history| - 1]), history[|history| - 1])
  }

  /** The last unlock or lock in the history is an unlock at time `u`. */
  predicate OpenedAt(history: seq<Event>, u: int) {
    exists i :: 0 <= i < |history| && history[i] == Unlock(u) &&
                forall j :: i < j < |history| ==> !history[j].Unlock? && !history[j].Lock?
  }

  predicate NotBefore(history: seq<Event>, t: int) {
    forall i :: 0 <= i < |history| ==> LastTime(history[i]) <= t
  }

  lemma OpenedAtStep(history: seq<Event>, e: Event, u: int)
    ensures OpenedAt(history + [e], u) <==> e == Unlock(u) || (!e.Unlock? && !e.Lock? && OpenedAt(history, u))
  {
    var h := history + [e];
    if e == Unlock(u) { assert h[|history|] == Unlock(u); }
    if !e.Unlock? && !e.Lock? && OpenedAt(history, u) {
      var i :| 0 <= i < |history| && history[i] == Unlock(u) && forall j :: i < j < |history| ==>
          !history[j].Unlock? && !history[j].Lock?;
      assert h[i] == Unlock(u);
    }
    if OpenedAt(h, u) {
      var i :| 0 <= i < |h| && h[i] == Unlock(u) && forall j :: i < j < |h| ==> !h[j].Unlock? && !h[j].Lock?;
      if i < |history| {
        assert h[|history|] == e;
        assert history[i] == Unlock(u) && forall j :: i < j < |history| ==> history[j] == h[j];
      }
    }
  }

  /** What the stored field and the history have to do with each other: a query may have dropped an expired time
      early. */
  lemma {:induction false} StoredIsHistory(ttl: int, history: seq<Event>)
    requires Ordered(history)
    ensures forall e :: Stored(ttl, history) == Some(e) ==> OpenedAt(history, e - ttl)
    ensures forall u :: OpenedAt(history, u) ==>
              Stored(ttl, history) == Some(u + ttl) ||
              (Stored(ttl, history) == None && exists i :: 0 <= i < |history| && LastTime(history[i]) > u + ttl)
  {
    hide OpenedAt;
    if history != [] {
      var n := |history| - 1;
      var init, e := history[..n], history[n];
      assert Ordered(init);
      StoredIsHistory(ttl, init);
      assert history == init + [e];
      forall u ensures OpenedAt(history, u) <==> e == Unlock(u) || (!e.Unlock? && !e.Lock? && OpenedAt(init, u)) {
        OpenedAtStep(init, e, u);
      }
      forall u | OpenedAt(history, u)
        ensures Stored(ttl, history) == Some(u + ttl) ||
                (Stored(ttl, history) == None && exists i :: 0 <= i < |history| && LastTime(history[i]) > u + ttl)
      {
        if e != Unlock(u) && Stored(ttl, init) == None {
          var i :| 0 <= i < n && LastTime(init[i]) > u + ttl;
          assert history[i] == init[i];
        } else {
          assert LastTime(history[n]) >= e.at;
        }
      }
    } else {
      forall u ensures !OpenedAt(history, u) { NeverOpened(u); }
    }
  }

  lemma NeverOpened(u: int)
    ensures !OpenedAt([], u)
  {
  }

  /** After any calls, the query at `t` says yes exactly when the last lock or unlock was an unlock at some `u` with
      `t <= u + ttl`, whatever queries came in between. */
  lemma QueryIsHistory(ttl: int, history: seq<Event>, t: int)
    requires Ordered(history) && NotBefore(history, t)
    ensures Query(Stored(ttl, history), t).0 <==> exists u :: OpenedAt(history, u) && t <= u + ttl
  {
    hide OpenedAt;
    StoredIsHistory(ttl, history);
    var stored := Stored(ttl, history);
    if stored.Some? { assert OpenedAt(history, stored.value - ttl); }
  }

  /** The remaining time is never negative, never above the time to live, and positive only while the window is open. */
  lemma RemainingInRange(ttl: int, history: seq<Event>, now: int, later: int)
    requires Ordered(history) && NotBefore(history, now) && now <= later
    ensures 0 <= Remaining(Stored(ttl, history), now, later).0
    ensures Remaining(Stored(ttl, history), now, later).0 <= if ttl > 0 then ttl else 0
    ensures Remaining(Stored(ttl, history), now, later).0 > 0 <==> exists u :: OpenedAt(history, u) && later < u + ttl
  {
    hide OpenedAt;
    StoredIsHistory(ttl, history);
    var stored := Stored(ttl, history);
    if stored.Some? {
      var u := stored.value - ttl;
      assert OpenedAt(history, u);
      OpenedEarlier(history, u, now);
    }
  }

  lemma OpenedEarlier(history: seq<Event>, u: int, t: int)
    requires OpenedAt(history, u) && NotBefore(history, t)
    ensures u <= t
  {
    var i :| 0 <= i < |history| && history[i] == Unlock(u);
    assert LastTime(history[i]) <= t;
  }

  /** While the window is open by an unlock at `u`, the remaining time runs to the end of its time to live. */
  lemma RemainingExact(ttl: int, history: seq<Event>, now: int, later: int, u: int)
    requires Ordered(history) && NotBefore(history, now) && now <= later && OpenedAt(history, u)
    ensures Remaining(Stored(ttl, history), now, later).0 == if later < u + ttl then u + ttl - later else 0
  {
    hide OpenedAt;
    StoredIsHistory(ttl, history);
  }
}
