// The hosted upload session broker (src/intake/services/upload_session_broker.py). A dict whose values carry their own
// key is a sequence of its values in insertion order; new ids, clock readings and repository rows are arguments.
module UploadBroker {
  import opened Prelude
  import opened QuoteStates

  datatype SessionStatus = Pending | Active | Expired | Completed | Revoked

  datatype Session = Session(
    id: string, quoteId: string, accountId: string, provider: string,
    maxFileSize: int, maxFiles: int, expiresAt: int, status: SessionStatus)

  datatype Receipt = Receipt(
    id: string, sessionId: string, quoteId: string, accountId: string, provider: string,
    objectId: string, size: int, sha256: string, extension: string, receivedAt: int)

  datatype State = State(sessions: seq<Session>, receipts: seq<Receipt>, quoteSessions: map<string, seq<string>>)

  const EMPTY := State([], [], map[])

  datatype Error =
    | QuoteNotFound | NotOwner | EmailUnverified | StatusForbids
    | SessionNotFound | SessionExpired | ProviderMismatch | QuoteMismatch
    | ObjectIdMissing | SizeNotPositive | BadSha256 | ExtensionMissing

  const TTL_SECONDS := 1800
  const MAX_FILE_SIZE := 157286400
  const MAX_FILES := 20

  datatype ReceiptRequest = ReceiptRequest(
    sessionId: string, provider: string, objectId: string, size: int, sha256: string, extension: string,
    quoteId: Option<string>, accountId: Option<string>)

  function Find(sessions: seq<Session>, id: string): Option<Session> {
    if sessions == [] then None else if sessions[0].id == id then Some(sessions[0]) else Find(sessions[1..], id)
  }

  predicate IsExpired(s: Session, now: int) {
    s.status == Expired || s.expiresAt < now
  }

  function IndexOf(st: State, quoteId: string): seq<string> {
    if quoteId in st.quoteSessions then st.quoteSessions[quoteId] else []
  }

  function CheckRoute(db: Lookup, quoteId: string, accountId: string): Option<Error> {
    if quoteId !in db.quotes then Some(QuoteNotFound)
    else if db.quotes[quoteId].accountId != Some(accountId) then Some(NotOwner)
    else if accountId in db.accounts && !db.accounts[accountId] && db.requireVerified then Some(EmailUnverified)
    else if !UploadsAllowed(db.quotes[quoteId].status) then Some(StatusForbids)
    else None
  }

  function SizeLimit(requested: Option<int>): int {
    var wanted := if requested.None? || requested.value == 0 then MAX_FILE_SIZE else requested.value;
    if wanted < MAX_FILE_SIZE then wanted else MAX_FILE_SIZE
  }

  function CreateRoute(
    st: State, db: Lookup, quoteId: string, accountId: string, provider: string, requested: Option<int>,
    id: string, now: int): (State, Result<Session, Error>) {
    match CheckRoute(db, quoteId, accountId)
    case Some(e) => (st, Err(e))
    case None =>
      var s := Session(id, quoteId, accountId, provider, SizeLimit(requested), MAX_FILES, now + TTL_SECONDS, Active);
      (st.(sessions := st.sessions + [s],
           quoteSessions := st.quoteSessions[quoteId := IndexOf(st, quoteId) + [id]]), Ok(s))
  }

  function OrDefault(given: Option<string>, fallback: string): string {
    if given.None? || given.value == "" then fallback else given.value
  }

  function CheckReceipt(st: State, db: Lookup, q: ReceiptRequest, now: int): Result<Session, Error> {
    match Find(st.sessions, q.sessionId)
    case None => Err(SessionNotFound)
    case Some(s) =>
      var quoteId := OrDefault(q.quoteId, s.quoteId);
      if IsExpired(s, now) then Err(SessionExpired)
      else if q.provider != s.provider then Err(ProviderMismatch)
      else if quoteId !in db.quotes then Err(QuoteNotFound)
      else if quoteId != s.quoteId then Err(QuoteMismatch)
      else if q.objectId == "" then Err(ObjectIdMissing)
      else if q.size <= 0 then Err(SizeNotPositive)
      else if |q.sha256| != 64 then Err(BadSha256)
      else if q.extension == "" then Err(ExtensionMissing)
      else Ok(s)
  }

  function ProcessReceipt(
    st: State, db: Lookup, q: ReceiptRequest, id: string, now: int): (State, Result<Receipt, Error>) {
    match CheckReceipt(st, db, q, now)
    case Err(e) => (st, Err(e))
    case Ok(s) =>
      var r := Receipt(id, q.sessionId, OrDefault(q.quoteId, s.quoteId), OrDefault(q.accountId, s.accountId),
                       q.provider, q.objectId, q.size, q.sha256, q.extension, now);
      (st.(receipts := st.receipts + [r]), Ok(r))
  }

  // ---- Listing ---------------------------------------------------------------------------------

  function CheckOwner(db: Lookup, quoteId: string, accountId: string): Option<Error> {
    if quoteId !in db.quotes then Some(QuoteNotFound)
    else if db.quotes[quoteId].accountId != Some(accountId) then Some(NotOwner)
    else None
  }

  /** `[self._sessions[sid] for sid in ids if sid in self._sessions]`. */
  function Resolve(sessions: seq<Session>, ids: seq<string>): seq<Session> {
    if ids == [] then []
    else
      (match Find(sessions, ids[0]) case Some(s) => [s] case None => []) + Resolve(sessions, ids[1..])
  }

  function ListSessions(st: State, quoteId: string, now: int): seq<Session> {
    Select(Resolve(st.sessions, IndexOf(st, quoteId)), s => !IsExpired(s, now))
  }

  function Gather(receipts: seq<Receipt>, ids: seq<string>): seq<Receipt> {
    if ids == [] then [] else Select(receipts, (r: Receipt) => r.sessionId == ids[0]) + Gather(receipts, ids[1..])
  }

  /** Puts a receipt behind every receipt at least as recent. */
  function InsertRecent(r: Receipt, sorted: seq<Receipt>): seq<Receipt> {
    if sorted == [] then [r]
    else if sorted[0].receivedAt < r.receivedAt then [r] + sorted
    else [sorted[0]] + InsertRecent(r, sorted[1..])
  }

  /** `sort(key=received_at, reverse=True)`: a stable descending sort. */
  function SortRecent(rs: seq<Receipt>): seq<Receipt> {
    if rs == [] then [] else InsertRecent(rs[|rs| - 1], SortRecent(rs[..|rs| - 1]))
  }

  function ListReceipts(st: State, quoteId: string): seq<Receipt> {
    SortRecent(Gather(st.receipts, IndexOf(st, quoteId)))
  }

  // ---- The service as it runs --------------------------------------------------------------------

  class UploadSessionBroker {
    var sessions: seq<Session>
    var receipts: seq<Receipt>
    var quoteSessions: map<string, seq<string>>

    constructor ()
      ensures Model() == EMPTY
    {
      sessions, receipts, quoteSessions := [], [], map[];
    }

    ghost function Model(): State
      reads this
    {
      State(sessions, receipts, quoteSessions)
    }

    method CreateUploadRoute(
      db: Lookup, quoteId: string, accountId: string, provider: string, requested: Option<int>, id: string,
      now: int)
      returns (res: Result<Session, Error>)
      modifies this
      ensures (Model(), res) == CreateRoute(old(Model()), db, quoteId, accountId, provider, requested, id, now)
    {
      if quoteId !in db.quotes { return Err(QuoteNotFound); }
      var quote := db.quotes[quoteId];
      if quote.accountId != Some(accountId) { return Err(NotOwner); }
      if accountId in db.accounts && !db.accounts[accountId] {
        if db.requireVerified { return Err(EmailUnverified); }
      }
      if !UploadsAllowed(quote.status) { return Err(StatusForbids); }
      var session := Session(id, quoteId, accountId, provider, SizeLimit(requested), MAX_FILES, now + TTL_SECONDS,
          Active);
      sessions := sessions + [session];
      if quoteId !in quoteSessions { quoteSessions := quoteSessions[quoteId := []]; }
      quoteSessions := quoteSessions[quoteId := quoteSessions[quoteId] + [id]];
      assert quoteSessions == old(quoteSessions)[quoteId := IndexOf(old(Model()), quoteId) + [id]];
      return Ok(session);
    }

    method ProcessUploadReceipt(
      db: Lookup, q: ReceiptRequest, id: string, now: int) returns (res: Result<Receipt, Error>)
      modifies this
      ensures (Model(), res) == ProcessReceipt(old(Model()), db, q, id, now)
    {
      var found := Find(sessions, q.sessionId);
      if found.None? { return Err(SessionNotFound); }
      var session := found.value;
      if IsExpired(session, now) { return Err(SessionExpired); }
      if q.provider != session.provider { return Err(ProviderMismatch); }
      var quoteId := OrDefault(q.quoteId, session.quoteId);
      var accountId := OrDefault(q.accountId, session.accountId);
      if quoteId !in db.quotes { return Err(QuoteNotFound); }
      if quoteId != session.quoteId { return Err(QuoteMismatch); }
      if q.objectId == "" { return Err(ObjectIdMissing); }
      if q.size <= 0 { return Err(SizeNotPositive); }
      if q.sha256 == "" || |q.sha256| != 64 { return Err(BadSha256); }
      if q.extension == "" { return Err(ExtensionMissing); }
      var receipt := Receipt(id, q.sessionId, quoteId, accountId, q.provider, q.objectId, q.size, q.sha256,
          q.extension, now);
      receipts := receipts + [receipt];
      return Ok(receipt);
    }

    method ListUploadSessions(
      db: Lookup, quoteId: string, accountId: string, now: int) returns (res: Result<seq<Session>, Error>)
      ensures res == match CheckOwner(db, quoteId, accountId)
                     case Some(e) => Err(e)
                     case None => Ok(ListSessions(Model(), quoteId, now))
    {
      if quoteId !in db.quotes { return Err(QuoteNotFound); }
      if db.quotes[quoteId].accountId != Some(accountId) { return Err(NotOwner); }
      var ids := if quoteId in quoteSessions then quoteSessions[quoteId] else [];
      return Ok(Select(Resolve(sessions, ids), s => !IsExpired(s, now)));
    }

    method ListUploadReceipts(db: Lookup, quoteId: string, accountId: string) returns (res: Result<seq<Receipt>, Error>)
      ensures res == match CheckOwner(db, quoteId, accountId)
                     case Some(e) => Err(e)
                     case None => Ok(ListReceipts(Model(), quoteId))
    {
      if quoteId !in db.quotes { return Err(QuoteNotFound); }
      if db.quotes[quoteId].accountId != Some(accountId) { return Err(NotOwner); }
      var found := [];
      var ids := if quoteId in quoteSessions then quoteSessions[quoteId] else [];
      found := GatherReceipts(receipts, ids);
      return Ok(SortRecent(found));
    }
  }

  method GatherReceipts(receipts: seq<Receipt>, ids: seq<string>) returns (found: seq<Receipt>)
    ensures found == Gather(receipts, ids)
  {
    hide Gather, Select;
    found := [];
    assert ids[0..] == ids;
    var i := 0;
    while i < |ids|
      invariant 0 <= i <= |ids|
      invariant found + Gather(receipts, ids[i..]) == Gather(receipts, ids)
    {
      found := AppendMatching(receipts, ids[i], found);
      GatherStep(receipts, ids, i);
      i := i + 1;
    }
    GatherEnd(receipts, ids);
  }

  lemma GatherStep(receipts: seq<Receipt>, ids: seq<string>, i: nat)
    requires i < |ids|
    ensures Gather(receipts, ids[i..]) ==
            Select(receipts, (r: Receipt) => r.sessionId == ids[i]) + Gather(receipts, ids[i + 1..])
  {
    assert ids[i..][0] == ids[i] && ids[i..][1..] == ids[i + 1..];
    SelectSame(receipts, (r: Receipt) => r.sessionId == ids[i..][0], (r: Receipt) => r.sessionId == ids[i]);
  }

  lemma GatherEnd(receipts: seq<Receipt>, ids: seq<string>)
    ensures Gather(receipts, ids[|ids|..]) == []
  {
  }

  method AppendMatching(receipts: seq<Receipt>, sid: string, found: seq<Receipt>) returns (out: seq<Receipt>)
    ensures out == found + Select(receipts, (r: Receipt) => r.sessionId == sid)
  {
    var mine := (r: Receipt) => r.sessionId == sid;
    out := found;
    assert receipts[0..] == receipts;
    var k := 0;
    while k < |receipts|
      invariant 0 <= k <= |receipts|
      invariant out + Select(receipts[k..], mine) == found + Select(receipts, mine)
    {
      assert receipts[k..][1..] == receipts[k + 1..];
      if receipts[k].sessionId == sid { out := out + [receipts[k]]; }
      k := k + 1;
    }
  }

  // ---- The index and the scan --------------------------------------------------------------------

  function Ids(sessions: seq<Session>): (out: seq<string>)
    ensures |out| == |sessions|
    ensures forall i :: 0 <= i < |sessions| ==> out[i] == sessions[i].id
  {
    seq(|sessions|, i requires 0 <= i < |sessions| => sessions[i].id)
  }

  function ReceiptIds(rs: seq<Receipt>): (out: seq<string>)
    ensures |out| == |rs|
    ensures forall i :: 0 <= i < |rs| ==> out[i] == rs[i].id
  {
    seq(|rs|, i requires 0 <= i < |rs| => rs[i].id)
  }

  /** The quote's sessions, found without the index. */
  function Scan(sessions: seq<Session>, quoteId: string): seq<Session> {
    Select(sessions, (s: Session) => s.quoteId == quoteId)
  }

  /** A receipt belongs to the session it names. */
  predicate Backed(sessions: seq<Session>, r: Receipt) {
    match Find(sessions, r.sessionId)
    case Some(s) => s.quoteId == r.quoteId && s.provider == r.provider
    case None => false
  }

  predicate WellFormed(r: Receipt) {
    r.objectId != "" && r.size > 0 && |r.sha256| == 64 && r.extension != ""
  }

  ghost predicate Inv(st: State) {
    && Distinct(Ids(st.sessions))
    && Distinct(ReceiptIds(st.receipts))
    && (forall q :: IndexOf(st, q) == Ids(Scan(st.sessions, q)))
    && (forall r :: r in st.receipts ==> Backed(st.sessions, r) && WellFormed(r))
  }

  lemma {:induction false} FindIn(sessions: seq<Session>, id: string)
    ensures Find(sessions, id).Some? <==> id in Ids(sessions)
    ensures Find(sessions, id).Some? ==> Find(sessions, id).value in sessions && Find(sessions, id).value.id == id
  {
    if sessions != [] {
      FindIn(sessions[1..], id);
      assert Ids(sessions) == [sessions[0].id] + Ids(sessions[1..]);
    }
  }

  lemma {:induction false} FindHere(sessions: seq<Session>, s: Session)
    requires Distinct(Ids(sessions)) && s in sessions
    ensures Find(sessions, s.id) == Some(s)
  {
    if sessions[0] != s {
      assert Ids(sessions)[1..] == Ids(sessions[1..]);
      assert sessions[0].id != s.id by {
        var i :| 0 <= i < |sessions| && sessions[i] == s;
        assert Ids(sessions)[0] != Ids(sessions)[i];
      }
      FindHere(sessions[1..], s);
    }
  }

  lemma {:induction false} FindOlder(sessions: seq<Session>, s: Session, id: string)
    requires Find(sessions, id).Some?
    ensures Find(sessions + [s], id) == Find(sessions, id)
  {
    assert (sessions + [s])[1..] == sessions[1..] + [s];
    if sessions[0].id != id { FindOlder(sessions[1..], s, id); }
  }

  lemma ScanStep(sessions: seq<Session>, s: Session, q: string)
    ensures Ids(Scan(sessions + [s], q)) == Ids(Scan(sessions, q)) + if s.quoteId == q then [s.id] else []
  {
    SelectConcat(sessions, [s], (x: Session) => x.quoteId == q);
  }

  lemma DistinctAppend(ids: seq<string>, id: string)
    requires Distinct(ids) && id !in ids
    ensures Distinct(ids + [id])
  {
  }

  lemma CreateInv(
    st: State, db: Lookup, quoteId: string, accountId: string, provider: string, requested: Option<int>,
    id: string, now: int)
    requires Inv(st) && id !in Ids(st.sessions)
    ensures Inv(CreateRoute(st, db, quoteId, accountId, provider, requested, id, now).0)
  {
    hide Find, Select, Scan, CheckRoute, Backed, WellFormed, Distinct;
    var out := CreateRoute(st, db, quoteId, accountId, provider, requested, id, now);
    if out.1.Ok? {
      var s := out.1.value;
      DistinctAppend(Ids(st.sessions), id);
      assert Ids(st.sessions + [s]) == Ids(st.sessions) + [id];
      forall q ensures IndexOf(out.0, q) == Ids(Scan(out.0.sessions, q)) { ScanStep(st.sessions, s, q); }
      forall r | r in st.receipts ensures Backed(st.sessions + [s], r) { BackedStays(st.sessions, s, r); }
    }
  }

  lemma BackedStays(sessions: seq<Session>, s: Session, r: Receipt)
    requires Backed(sessions, r)
    ensures Backed(sessions + [s], r)
  {
    FindOlder(sessions, s, r.sessionId);
  }

  lemma ReceiptInv(st: State, db: Lookup, q: ReceiptRequest, id: string, now: int)
    requires Inv(st) && id !in ReceiptIds(st.receipts)
    ensures Inv(ProcessReceipt(st, db, q, id, now).0)
  {
    hide Find, Select, Scan, Distinct, Ids;
    var out := ProcessReceipt(st, db, q, id, now);
    if out.1.Ok? {
      var r := out.1.value;
      DistinctAppend(ReceiptIds(st.receipts), id);
      assert ReceiptIds(st.receipts + [r]) == ReceiptIds(st.receipts) + [id];
      assert forall x :: x in out.0.receipts ==> x in st.receipts || x == r;
      assert forall k :: IndexOf(out.0, k) == IndexOf(st, k);
    }
  }

  // ---- Runs -----------------------------------------------------------------------------------------

  datatype Op =
    | Create(quoteId: string, accountId: string, provider: string, requested: Option<int>)
    | Receive(request: ReceiptRequest)

  /** A call, with the repositories, the new id and the clock it meets. */
  datatype Call = Call(op: Op, db: Lookup, id: string, now: int)

  function Step(st: State, c: Call): State {
    match c.op
    case Create(q, a, p, n) => CreateRoute(st, c.db, q, a, p, n, c.id, c.now).0
    case Receive(request) => ProcessReceipt(st, c.db, request, c.id, c.now).0
  }

  function Run(calls: seq<Call>): State {
    if calls == [] then EMPTY else Step(Run(calls[..|calls| - 1]), calls[|calls| - 1])
  }

  /** Generated ids are new. */
  predicate FreshIds(calls: seq<Call>) {
    forall i, j :: 0 <= i < j < |calls| ==> calls[i].id != calls[j].id
  }

  predicate IdsFrom(st: State, calls: seq<Call>) {
    && (forall s :: s in st.sessions ==> exists i :: 0 <= i < |calls| && calls[i].id == s.id)
    && (forall r :: r in st.receipts ==> exists i :: 0 <= i < |calls| && calls[i].id == r.id)
  }

  lemma {:induction false} RunInv(calls: seq<Call>)
    requires FreshIds(calls)
    ensures Inv(Run(calls)) && IdsFrom(Run(calls), calls)
  {
    hide Inv, CheckRoute, CheckReceipt;
    if calls == [] {
      EmptyInv();
    } else {
      var init, c := calls[..|calls| - 1], calls[|calls| - 1];
      RunInv(init);
      var st := Run(init);
      assert forall s :: s in st.sessions ==> s.id != c.id;
      assert forall r :: r in st.receipts ==> r.id != c.id;
      match c.op
      case Create(q, a, p, n) => CreateInv(st, c.db, q, a, p, n, c.id, c.now);
      case Receive(request) => ReceiptInv(st, c.db, request, c.id, c.now);
      IdsStep(init, c);
    }
  }

  lemma IdsStep(init: seq<Call>, c: Call)
    requires IdsFrom(Run(init), init)
    ensures IdsFrom(Step(Run(init), c), init + [c])
  {
    hide CheckRoute, CheckReceipt, Run;
    var st, st', all := Run(init), Step(Run(init), c), init + [c];
    assert all[|init|] == c;
    assert forall i :: 0 <= i < |init| ==> all[i] == init[i];
    forall s | s in st'.sessions ensures exists i :: 0 <= i < |all| && all[i].id == s.id {
      if s in st.sessions {
        var i :| 0 <= i < |init| && init[i].id == s.id;
        assert all[i].id == s.id;
      }
    }
    forall r | r in st'.receipts ensures exists i :: 0 <= i < |all| && all[i].id == r.id {
      if r in st.receipts {
        var i :| 0 <= i < |init| && init[i].id == r.id;
        assert all[i].id == r.id;
      }
    }
  }

  lemma EmptyInv()
    ensures Inv(EMPTY)
  {
  }

  lemma {:induction false} ResolveIds(sessions: seq<Session>, part: seq<Session>)
    requires Distinct(Ids(sessions)) && forall s :: s in part ==> s in sessions
    ensures Resolve(sessions, Ids(part)) == part
  {
    if part != [] {
      FindHere(sessions, part[0]);
      ResolveIds(sessions, part[1..]);
      assert Ids(part)[1..] == Ids(part[1..]);
    }
  }

  lemma {:induction false} SelectMembers<T>(s: seq<T>, keep: T -> bool)
    ensures forall x :: x in Select(s, keep) <==> x in s && keep(x)
  {
    if s != [] { SelectMembers(s[1..], keep); }
  }

  /** Listing through the index gives what a scan over all sessions gives, in the same order. */
  lemma SessionsListedExactly(st: State, quoteId: string, now: int)
    requires Inv(st)
    ensures ListSessions(st, quoteId, now) == Select(Scan(st.sessions, quoteId), s => !IsExpired(s, now))
    ensures forall s :: s in ListSessions(st, quoteId, now) <==>
            s in st.sessions && s.quoteId == quoteId && !IsExpired(s, now)
  {
    var part := Scan(st.sessions, quoteId);
    SelectMembers(st.sessions, (s: Session) => s.quoteId == quoteId);
    ResolveIds(st.sessions, part);
    SelectMembers(part, (s: Session) => !IsExpired(s, now));
  }

  lemma {:induction false} GatherCount(receipts: seq<Receipt>, ids: seq<string>, r: Receipt)
    requires Distinct(ids)
    ensures multiset(Gather(receipts, ids))[r] == if r.sessionId in ids then multiset(receipts)[r] else 0
  {
    hide Select;
    if ids != [] {
      GatherCount(receipts, ids[1..], r);
      SelectCount(receipts, (x: Receipt) => x.sessionId == ids[0], r);
    }
  }

  lemma {:induction false} InsertKeeps(r: Receipt, sorted: seq<Receipt>)
    requires Descending(sorted)
    ensures Descending(InsertRecent(r, sorted))
    ensures multiset(InsertRecent(r, sorted)) == multiset(sorted) + multiset{r}
  {
    if sorted != [] {
      var rest := sorted[1..];
      InsertKeeps(r, rest);
      assert sorted == [sorted[0]] + rest;
      HeadOfInsert(r, rest);
    }
  }

  lemma {:induction false} InsertKeepsOrder(r: Receipt, sorted: seq<Receipt>, t: int)
    requires Descending(sorted)
    ensures SameTime(InsertRecent(r, sorted), t) == SameTime(sorted, t) + if r.receivedAt == t then [r] else []
  {
    hide SameTime;
    if sorted != [] {
      var rest := sorted[1..];
      var last := if r.receivedAt == t then [r] else [];
      assert sorted == [sorted[0]] + rest;
      SameTimeCons(sorted[0], rest, t);
      if sorted[0].receivedAt < r.receivedAt {
        SameTimeCons(r, sorted, t);
        if r.receivedAt == t { NothingAt(sorted, t); }
      } else {
        var head := if sorted[0].receivedAt == t then [sorted[0]] else [];
        InsertKeepsOrder(r, rest, t);
        SameTimeCons(sorted[0], InsertRecent(r, rest), t);
        assert head + (SameTime(rest, t) + last) == head + SameTime(rest, t) + last;
      }
    } else {
      NothingAt([], t);
      SameTimeCons(r, [], t);
      assert [r] + [] == [r];
    }
  }

  lemma SameTimeCons(r: Receipt, rs: seq<Receipt>, t: int)
    ensures SameTime([r] + rs, t) == (if r.receivedAt == t then [r] else []) + SameTime(rs, t)
  {
    assert ([r] + rs)[1..] == rs;
  }

  lemma HeadOfInsert(r: Receipt, sorted: seq<Receipt>)
    ensures var out := InsertRecent(r, sorted); out[0] == r || (sorted != [] && out[0] == sorted[0])
  {
  }

  lemma {:induction false} NothingAt(sorted: seq<Receipt>, t: int)
    requires Descending(sorted) && (sorted != [] ==> sorted[0].receivedAt < t)
    ensures SameTime(sorted, t) == []
  {
    if sorted != [] { NothingAt(sorted[1..], t); }
  }

  /** Most recent first. */
  predicate Descending(rs: seq<Receipt>) {
    forall i :: 0 <= i < |rs| - 1 ==> rs[i].receivedAt >= rs[i + 1].receivedAt
  }

  /** The receipts of one moment, in order. */
  function SameTime(rs: seq<Receipt>, t: int): seq<Receipt> {
    Select(rs, (r: Receipt) => r.receivedAt == t)
  }

  /** The sort returns the same receipts, most recent first, and keeps the order among receipts of one moment. */
  lemma {:induction false} SortIsStable(rs: seq<Receipt>)
    ensures Descending(SortRecent(rs))
    ensures multiset(SortRecent(rs)) == multiset(rs)
    ensures forall t :: SameTime(SortRecent(rs), t) == SameTime(rs, t)
  {
    hide InsertRecent, Descending, Select;
    if rs == [] {
      EmptyDescending();
    } else {
      var init, r := rs[..|rs| - 1], rs[|rs| - 1];
      SortIsStable(init);
      InsertKeeps(r, SortRecent(init));
      assert rs == init + [r];
      forall t ensures SameTime(rs, t) == SameTime(init, t) + if r.receivedAt == t then [r] else []
      {
        SameTimeStep(init, r, t);
      }
      forall t ensures SameTime(SortRecent(rs), t) == SameTime(rs, t) { InsertKeepsOrder(r, SortRecent(init), t); }
    }
  }

  lemma EmptyDescending()
    ensures Descending([])
  {
  }

  lemma SameTimeStep(init: seq<Receipt>, r: Receipt, t: int)
    ensures SameTime(init + [r], t) == SameTime(init, t) + if r.receivedAt == t then [r] else []
  {
    SelectConcat(init, [r], (x: Receipt) => x.receivedAt == t);
  }

  /** The receipts listed for a quote are exactly the receipts stored for it, each once, most recent first. */
  lemma ReceiptsListedExactly(st: State, quoteId: string)
    requires Inv(st)
    ensures multiset(ListReceipts(st, quoteId)) == multiset(Select(st.receipts, (r: Receipt) => r.quoteId == quoteId))
    ensures Descending(ListReceipts(st, quoteId))
    ensures forall r :: multiset(ListReceipts(st, quoteId))[r] <= 1
    ensures forall r :: r in ListReceipts(st, quoteId) <==> r in st.receipts && SessionQuote(st, r) == Some(quoteId)
  {
    hide SortRecent, Gather, Select, Descending, Scan, Find, Ids, Distinct;
    var ids := IndexOf(st, quoteId);
    var mine := (r: Receipt) => r.quoteId == quoteId;
    var listed := ListReceipts(st, quoteId);
    SortIsStable(Gather(st.receipts, ids));
    IndexDistinct(st, quoteId);
    forall r ensures multiset(listed)[r] == multiset(Select(st.receipts, mine))[r] && multiset(listed)[r] <= 1 {
      GatherCount(st.receipts, ids, r);
      SelectCount(st.receipts, mine, r);
      CountOnce(st.receipts, r);
      if r in st.receipts { OwnSession(st, r, quoteId); }
    }
    assert multiset(listed) == multiset(Select(st.receipts, mine));
    forall r ensures r in listed <==> r in st.receipts && SessionQuote(st, r) == Some(quoteId) {
      SelectCount(st.receipts, mine, r);
      assert r in listed <==> r in multiset(listed);
      assert r in st.receipts <==> r in multiset(st.receipts);
    }
  }

  /** The quote of the session a receipt names. */
  function SessionQuote(st: State, r: Receipt): Option<string> {
    match Find(st.sessions, r.sessionId)
    case Some(s) => Some(s.quoteId)
    case None => None
  }

  lemma IndexDistinct(st: State, q: string)
    requires Inv(st)
    ensures Distinct(IndexOf(st, q))
  {
    ScanDistinct(st.sessions, q);
  }

  lemma {:induction false} ScanDistinct(sessions: seq<Session>, q: string)
    requires Distinct(Ids(sessions))
    ensures Distinct(Ids(Scan(sessions, q)))
  {
    if sessions != [] {
      var rest := sessions[1..];
      assert Ids(sessions)[1..] == Ids(rest);
      ScanDistinct(rest, q);
      SelectMembers(rest, (s: Session) => s.quoteId == q);
      var part := Scan(rest, q);
      forall i | 0 <= i < |part| ensures part[i].id != sessions[0].id {
        assert part[i] in rest;
        var k :| 0 <= k < |rest| && rest[k] == part[i];
        assert Ids(sessions)[0] != Ids(sessions)[k + 1];
      }
      assert Scan(sessions, q) == (if sessions[0].quoteId == q then [sessions[0]] else []) + part;
    }
  }

  /** A stored receipt's session is in the quote's index exactly when the receipt is the quote's. */
  lemma OwnSession(st: State, r: Receipt, q: string)
    requires Inv(st) && r in st.receipts
    ensures r.sessionId in IndexOf(st, q) <==> r.quoteId == q
  {
    hide Find, Select, Distinct, WellFormed;
    var s := Find(st.sessions, r.sessionId).value;
    FindIn(st.sessions, r.sessionId);
    var part := Scan(st.sessions, q);
    SelectMembers(st.sessions, (x: Session) => x.quoteId == q);
    if r.quoteId == q {
      assert s in part;
      var i :| 0 <= i < |part| && part[i] == s;
      assert Ids(part)[i] == r.sessionId;
    }
    if r.sessionId in Ids(part) {
      var i :| 0 <= i < |part| && Ids(part)[i] == r.sessionId;
      assert part[i] in part;
      FindHere(st.sessions, part[i]);
    }
  }

  lemma {:induction false} CountOnce(rs: seq<Receipt>, r: Receipt)
    requires Distinct(ReceiptIds(rs))
    ensures multiset(rs)[r] <= 1
  {
    if rs != [] {
      assert ReceiptIds(rs)[1..] == ReceiptIds(rs[1..]);
      CountOnce(rs[1..], r);
      assert rs == [rs[0]] + rs[1..];
      forall i | 0 <= i < |rs[1..]| ensures rs[1..][i] != rs[0] {
        assert ReceiptIds(rs)[0] != ReceiptIds(rs)[i + 1];
      }
    }
  }

  /** The request `q` sent again with these ids and sizes. */
  function Resend(st: State, db: Lookup, q: ReceiptRequest, again: seq<(string, int)>, now: int): State {
    if again == [] then st
    else
      var (id, size) := again[|again| - 1];
      ProcessReceipt(Resend(st, db, q, again[..|again| - 1], now), db, q.(size := size), id, now).0
  }

  /** The receipts of a session are bounded neither by its file size limit nor by its file count: where one is accepted,
      any number of any positive sizes is. */
  lemma {:induction false} LimitsAreNotChecked(
    st: State, db: Lookup, q: ReceiptRequest, id: string, again: seq<(string, int)>, now: int)
    requires ProcessReceipt(st, db, q, id, now).1.Ok? && forall i :: 0 <= i < |again| ==> again[i].1 > 0
    ensures var out := Resend(st, db, q, again, now);
            && out.sessions == st.sessions && |out.receipts| == |st.receipts| + |again|
            && forall i :: 0 <= i < |again| ==>
                 var r := out.receipts[|st.receipts| + i];
                 r.id == again[i].0 && r.size == again[i].1 && r.sessionId == q.sessionId
  {
    hide ProcessReceipt;
    if again != [] {
      var init := again[..|again| - 1];
      var (k, size) := again[|again| - 1];
      LimitsAreNotChecked(st, db, q, id, init, now);
      var mid := Resend(st, db, q, init, now);
      SizeDoesNotMatter(st, mid, db, q, id, size, k, now);
      forall i | 0 <= i < |again| ensures again[i].1 > 0 && (i < |init| ==> again[i] == init[i]) {
      }
    }
  }

  lemma SizeDoesNotMatter(
    st: State, mid: State, db: Lookup, q: ReceiptRequest, id: string, size: int, k: string, now: int)
    requires mid.sessions == st.sessions && size > 0 && ProcessReceipt(st, db, q, id, now).1.Ok?
    ensures var out := ProcessReceipt(mid, db, q.(size := size), k, now).0;
            && out.sessions == mid.sessions && |out.receipts| == |mid.receipts| + 1
            && out.receipts[..|mid.receipts|] == mid.receipts
            && var r := out.receipts[|mid.receipts|]; r.id == k && r.size == size && r.sessionId == q.sessionId
  {
    hide Find;
  }

  /** After every run with fresh ids: the listings are the scans, and every stored receipt is well-formed and belongs to
      a session of its own quote and provider. */
  lemma ListingsAfterRun(calls: seq<Call>, quoteId: string, now: int)
    requires FreshIds(calls)
    ensures var st := Run(calls);
            && ListSessions(st, quoteId, now) == Select(Scan(st.sessions, quoteId), s => !IsExpired(s, now))
            && multiset(ListReceipts(st, quoteId)) ==
               multiset(Select(st.receipts, (r: Receipt) => r.quoteId == quoteId))
            && Descending(ListReceipts(st, quoteId))
            && (forall r :: r in st.receipts ==> Backed(st.sessions, r) && WellFormed(r))
  {
    hide Run, Select, ListSessions, ListReceipts, Backed, WellFormed, Descending;
    RunInv(calls);
    SessionsListedExactly(Run(calls), quoteId, now);
    ReceiptsListedExactly(Run(calls), quoteId);
  }
}
