// What each answer of the upload session broker means, and where its sessions and receipts come from
// (src/intake/services/upload_session_broker.py, lines 92-400).
module BrokerAnswers {
  import opened Prelude
  import opened QuoteStates
  import opened UploadBroker

  /** Missing or empty. */
  predicate Absent(o: Option<string>) {
    o == None || o == Some("")
  }

  // ---- Receipts ------------------------------------------------------------------------------

  predicate Stored(st: State, id: string, s: Session) {
    s in st.sessions && s.id == id
  }

  /** The quote a receipt names, by default its session's. */
  function NamedQuote(q: ReceiptRequest, s: Session): string {
    if Absent(q.quoteId) then s.quoteId else q.quoteId.value
  }

  /** When a receipt for session `s` is refused, check by check, and when it is accepted. */
  predicate Warranted(s: Session, db: Lookup, q: ReceiptRequest, now: int, refusal: Option<Error>) {
    var timely := s.status != Expired && now <= s.expiresAt;
    var provided := timely && q.provider == s.provider;
    var matched := provided && NamedQuote(q, s) in db.quotes && NamedQuote(q, s) == s.quoteId;
    match refusal
    case Some(SessionExpired) => !timely
    case Some(ProviderMismatch) => timely && q.provider != s.provider
    case Some(QuoteNotFound) => provided && NamedQuote(q, s) !in db.quotes
    case Some(QuoteMismatch) => provided && NamedQuote(q, s) in db.quotes && NamedQuote(q, s) != s.quoteId
    case Some(ObjectIdMissing) => matched && q.objectId == ""
    case Some(SizeNotPositive) => matched && q.objectId != "" && q.size <= 0
    case Some(BadSha256) => matched && q.objectId != "" && q.size > 0 && |q.sha256| != 64
    case Some(ExtensionMissing) =>
      matched && q.objectId != "" && q.size > 0 && |q.sha256| == 64 && q.extension == ""
    case Some(_) => false
    case None => matched && q.objectId != "" && q.size > 0 && |q.sha256| == 64 && q.extension != ""
  }

  function Refusal<T>(r: Result<T, Error>): Option<Error> {
    if r.Err? then Some(r.error) else None
  }

  lemma FindExact(sessions: seq<Session>, id: string, s: Session)
    requires Distinct(Ids(sessions))
    ensures Find(sessions, id) == Some(s) <==> s in sessions && s.id == id
  {
    FindIn(sessions, id);
    if s in sessions && s.id == id { FindHere(sessions, s); }
  }

  /** A receipt is accepted exactly when its session exists and has not expired, its provider is the session's,
      its quote is stored and is the session's, and its object id, size, digest and extension are well-formed.
      Every refusal is given exactly when it is warranted. What is stored is the request's own data, appended. */
  lemma ReceiptExactly(st: State, db: Lookup, q: ReceiptRequest, id: string, now: int, s: Session)
    requires Inv(st)
    ensures var (st', r) := ProcessReceipt(st, db, q, id, now);
            && (r == Err(SessionNotFound) <==> forall x :: !Stored(st, q.sessionId, x))
            && (Stored(st, q.sessionId, s) ==>
                  forall refusal :: Refusal(r) == refusal <==> Warranted(s, db, q, now, refusal))
            && (r.Err? ==> st' == st)
            && (r.Ok? ==> st' == st.(receipts := st.receipts + [r.value]))
            && (r.Ok? && Stored(st, q.sessionId, s) ==>
                  var account := if Absent(q.accountId) then s.accountId else q.accountId.value;
                  r.value == Receipt(id, s.id, s.quoteId, account, s.provider, q.objectId, q.size, q.sha256,
                                     q.extension, now))
  {
    hide Inv, Find, Ids, Distinct;
    DistinctOf(st);
    forall x ensures Find(st.sessions, q.sessionId) == Some(x) <==> Stored(st, q.sessionId, x) {
      FindExact(st.sessions, q.sessionId, x);
    }
  }

  lemma DistinctOf(st: State)
    requires Inv(st)
    ensures Distinct(Ids(st.sessions))
  {
  }

  // ---- Routes ----------------------------------------------------------------------------------

  /** When a route is refused, check by check, and when it is created. */
  predicate RouteWarranted(db: Lookup, quoteId: string, accountId: string, refusal: Option<Error>) {
    var owned := quoteId in db.quotes && db.quotes[quoteId].accountId == Some(accountId);
    var unverified := db.requireVerified && accountId in db.accounts && !db.accounts[accountId];
    var allowed := owned && db.quotes[quoteId].status in {Draft, Submitted, NeedsReview, Reviewing};
    match refusal
    case Some(QuoteNotFound) => quoteId !in db.quotes
    case Some(NotOwner) => quoteId in db.quotes && !owned
    case Some(EmailUnverified) => owned && unverified
    case Some(StatusForbids) => owned && !unverified && !allowed
    case Some(_) => false
    case None => owned && !unverified && allowed
  }

  /** The session's file limit: what was asked for, if anything, and never more than 150 MB. */
  function Limit(requested: Option<int>): int {
    match requested
    case Some(n) => if n != 0 && n < 157286400 then n else 157286400
    case None => 157286400
  }

  /** A route is created exactly for the quote's owner, verified or with no need to be, while the quote takes
      uploads; the new session is the owner's, for that quote, active for half an hour. */
  lemma RouteExactly(
    st: State, db: Lookup, quoteId: string, accountId: string, provider: string, requested: Option<int>, id: string,
    now: int, refusal: Option<Error>)
    ensures var (st', r) := CreateRoute(st, db, quoteId, accountId, provider, requested, id, now);
            && (Refusal(r) == refusal <==> RouteWarranted(db, quoteId, accountId, refusal))
            && (r.Err? ==> st' == st)
            && (r.Ok? ==>
                  && r.value == Session(id, quoteId, accountId, provider, Limit(requested), 20, now + 1800, Active)
                  && st'.sessions == st.sessions + [r.value] && st'.receipts == st.receipts)
  {
  }

  /** The listings are the owner's alone. */
  lemma ListingIsOwners(db: Lookup, quoteId: string, accountId: string)
    ensures CheckOwner(db, quoteId, accountId) ==
            if quoteId !in db.quotes then Some(QuoteNotFound)
            else if db.quotes[quoteId].accountId == Some(accountId) then None
            else Some(NotOwner)
  {
  }

  // ---- Where sessions and receipts come from -------------------------------------------------------

  /** Call `k` created this session, for the owner of a quote that took uploads. */
  predicate CreatedBy(calls: seq<Call>, k: nat, s: Session) {
    && k < |calls| && calls[k].op.Create?
    && var c, op := calls[k], calls[k].op;
    && RouteWarranted(c.db, op.quoteId, op.accountId, None)
    && s == Session(c.id, op.quoteId, op.accountId, op.provider, Limit(op.requested), 20, c.now + 1800, Active)
  }

  /** Call `k` brought this receipt, for this session, in time. */
  predicate ReceivedBy(calls: seq<Call>, k: nat, r: Receipt, s: Session) {
    && k < |calls| && calls[k].op.Receive?
    && var c, q := calls[k], calls[k].op.request;
    && r.id == c.id && r.receivedAt == c.now && c.now <= s.expiresAt
    && r.sessionId == q.sessionId == s.id && r.provider == q.provider == s.provider
    && r.quoteId == s.quoteId && s.quoteId in c.db.quotes && (Absent(q.quoteId) || q.quoteId == Some(s.quoteId))
    && r.accountId == (if Absent(q.accountId) then s.accountId else q.accountId.value)
    && r.objectId == q.objectId && r.size == q.size && r.sha256 == q.sha256 && r.extension == q.extension
  }

  ghost predicate Sourced(calls: seq<Call>, st: State) {
    && (forall s :: s in st.sessions ==> exists k: nat :: CreatedBy(calls, k, s))
    && (forall r :: r in st.receipts ==> exists k: nat, s :: s in st.sessions && ReceivedBy(calls, k, r, s))
  }

  lemma SourcedStays(calls: seq<Call>, c: Call, st: State)
    requires Sourced(calls, st)
    ensures Sourced(calls + [c], st)
  {
    hide RouteWarranted, Limit;
    var all := calls + [c];
    forall s | s in st.sessions ensures exists k: nat :: CreatedBy(all, k, s) {
      var k: nat :| CreatedBy(calls, k, s);
      assert all[k] == calls[k];
      assert CreatedBy(all, k, s);
    }
    forall r | r in st.receipts ensures exists k: nat, s :: s in st.sessions && ReceivedBy(all, k, r, s) {
      var k: nat, s :| s in st.sessions && ReceivedBy(calls, k, r, s);
      assert all[k] == calls[k];
      assert ReceivedBy(all, k, r, s);
    }
  }

  lemma StepSourced(calls: seq<Call>, c: Call, st: State)
    requires Inv(st) && Sourced(calls + [c], st)
    ensures Sourced(calls + [c], Step(st, c))
  {
    hide Inv, CheckRoute, CheckReceipt, RouteWarranted, Limit, CreatedBy, ReceivedBy;
    var all, st' := calls + [c], Step(st, c);
    assert all[|calls|] == c;
    match c.op
    case Create(q, a, p, n) =>
      RouteExactly(st, c.db, q, a, p, n, c.id, c.now, None);
      var r := CreateRoute(st, c.db, q, a, p, n, c.id, c.now).1;
      if r.Ok? { NewSessionSourced(all, |calls|, r.value); }
      forall s | s in st'.sessions ensures exists k: nat :: CreatedBy(all, k, s) {
        assert s in st.sessions || (r.Ok? && s == r.value);
      }
    case Receive(q) =>
      var r := ProcessReceipt(st, c.db, q, c.id, c.now).1;
      if r.Ok? {
        var s := NewReceiptSourced(all, |calls|, st);
      }
      forall x | x in st'.receipts ensures exists k: nat, s :: s in st'.sessions && ReceivedBy(all, k, x, s) {
        assert x in st.receipts || (r.Ok? && x == r.value);
      }
  }

  lemma NewSessionSourced(calls: seq<Call>, k: nat, s: Session)
    requires k < |calls| && calls[k].op.Create?
    requires var c, op := calls[k], calls[k].op;
             && RouteWarranted(c.db, op.quoteId, op.accountId, None)
             && s == Session(c.id, op.quoteId, op.accountId, op.provider, Limit(op.requested), 20, c.now + 1800, Active)
    ensures CreatedBy(calls, k, s)
  {
  }

  lemma NewReceiptSourced(calls: seq<Call>, k: nat, st: State) returns (s: Session)
    requires Inv(st) && k < |calls| && calls[k].op.Receive?
    requires ProcessReceipt(st, calls[k].db, calls[k].op.request, calls[k].id, calls[k].now).1.Ok?
    ensures s in st.sessions
    ensures var c := calls[k];
            ReceivedBy(calls, k, ProcessReceipt(st, c.db, c.op.request, c.id, c.now).1.value, s)
  {
    hide Inv, Find, Ids, Distinct;
    var c, q := calls[k], calls[k].op.request;
    FindIn(st.sessions, q.sessionId);
    s := Find(st.sessions, q.sessionId).value;
    ReceiptExactly(st, c.db, q, c.id, c.now, s);
    assert Warranted(s, c.db, q, c.now, None);
  }

  /** After every run with new ids, each session was created for the owner of a quote that took uploads and is
      good for half an hour; each receipt carries its request's own fields and came no later than its session's
      expiry. */
  lemma {:induction false} RunSourced(calls: seq<Call>)
    requires FreshIds(calls)
    ensures Sourced(calls, Run(calls))
  {
    hide Inv, Step, CreatedBy, ReceivedBy;
    if calls != [] {
      var init, c := calls[..|calls| - 1], calls[|calls| - 1];
      assert calls == init + [c];
      RunSourced(init);
      UploadBroker.RunInv(init);
      SourcedStays(init, c, Run(init));
      StepSourced(init, c, Run(init));
    }
  }

  /** The session listing by time: after every run, exactly the quote's sessions created at most half an hour ago. */
  lemma ListedByTime(calls: seq<Call>, quoteId: string, now: int, s: Session)
    requires FreshIds(calls)
    ensures s in ListSessions(Run(calls), quoteId, now) <==>
            s in Run(calls).sessions && s.quoteId == quoteId && now <= s.expiresAt
  {
    hide Run, Inv, ListSessions, Limit, RouteWarranted;
    UploadBroker.RunInv(calls);
    RunSourced(calls);
    SessionsListedExactly(Run(calls), quoteId, now);
  }
}
