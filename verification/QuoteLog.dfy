// Quotes and their event log (src/intake/services/quote_service.py, src/intake/services/event_log.py,
// src/intake/storage/repositories.py, src/intake/hosted/api/sync.py).
module QuoteLog {
  import opened Prelude
  import opened PyJson
  import opened QuoteStates
  import ActionEnvelope

  datatype Lane = SoftwareSystems | Photography | PracticalHelp | Unsure

  datatype BasicInfo = BasicInfo(summary: PyStr, description: PyStr, timeline: Option<PyStr>)

  /** A quote, as a table row and as the object loaded from it; encrypted fields hold their ciphertexts. */
  datatype Quote = Quote(
    status: QuoteStatus, lane: Option<Lane>, accountId: Option<PyStr>, info: BasicInfo, area: PyStr,
    location: Option<PyStr>, notes: Option<PyStr>, questionnaire: Option<PyStr>)

  datatype Kind =
    | QuoteCreated | QuoteSubmitted | QuoteNeedsReview | QuoteReviewStarted | QuoteQuoted | QuoteAccepted
    | QuoteDeclined | QuoteClosed | LocationAdded | AnswersAdded

  datatype Event = Event(quoteId: PyStr, kind: Kind)

  datatype State = State(quotes: map<PyStr, Quote>, log: seq<Event>)

  const EMPTY := State(map[], [])

  /** `EventLogService._status_to_event_type`. */
  function StatusToKind(s: QuoteStatus): Kind {
    match s
    case NeedsReview => QuoteNeedsReview
    case Reviewing => QuoteReviewStarted
    case Quoted => QuoteQuoted
    case Accepted => QuoteAccepted
    case Declined => QuoteDeclined
    case Closed => QuoteClosed
    case _ => QuoteSubmitted
  }

  // ---- Repository calls ------------------------------------------------------------------------

  /** The row `QuoteRepository.update` leaves: the owner stays, and an encrypted field is written only when there is
      one. */
  function Written(row: Quote, q: Quote): Quote {
    q.(accountId := row.accountId,
       location := if q.location.Some? then q.location else row.location,
       notes := if q.notes.Some? then q.notes else row.notes,
       questionnaire := if q.questionnaire.Some? then q.questionnaire else row.questionnaire)
  }

  function SaveQuote(s: State, id: PyStr, q: Quote): State {
    if id in s.quotes then s.(quotes := s.quotes[id := Written(s.quotes[id], q)]) else s
  }

  function SaveStatus(s: State, id: PyStr, status: QuoteStatus): State {
    if id in s.quotes then s.(quotes := s.quotes[id := s.quotes[id].(status := status)]) else s
  }

  function Logged(s: State, id: PyStr, kind: Kind): State {
    s.(log := s.log + [Event(id, kind)])
  }

  // ---- Handlers ------------------------------------------------------------------------------------

  function Blank(lane: Option<Lane>): Quote {
    Quote(Draft, lane, None, BasicInfo([], [], None), [], None, None, None)
  }

  /** `create_quote`; an id that is taken violates the primary key and changes nothing. */
  function Created(s: State, id: PyStr, lane: Option<Lane>): State {
    if id in s.quotes then s else Logged(s.(quotes := s.quotes[id := Blank(lane)]), id, QuoteCreated)
  }

  /** The edits of `QuoteService`: what they assign, and the event they append. */
  datatype Edit =
    | SetLane(lane: Lane)
    | SetInfo(info: BasicInfo)
    | SetLocation(area: PyStr, location: PyStr)
    | SetNotes(notes: PyStr)
    | SetQuestionnaire(answers: PyStr)

  function Edited(q: Quote, e: Edit): Quote {
    match e
    case SetLane(lane) => q.(lane := Some(lane))
    case SetInfo(info) => q.(info := info)
    case SetLocation(area, location) => q.(area := area, location := Some(location))
    case SetNotes(notes) => q.(notes := Some(notes))
    case SetQuestionnaire(answers) => q.(questionnaire := Some(answers))
  }

  function EditKind(e: Edit): Option<Kind> {
    match e
    case SetLocation(_, _) => Some(LocationAdded)
    case SetNotes(_) => Some(AnswersAdded)
    case SetQuestionnaire(_) => Some(AnswersAdded)
    case _ => None
  }

  function LoggedIf(s: State, id: PyStr, kind: Option<Kind>): State {
    if kind.Some? then Logged(s, id, kind.value) else s
  }

  function ApplyEdit(s: State, id: PyStr, e: Edit): State {
    if id !in s.quotes then s else LoggedIf(SaveQuote(s, id, Edited(s.quotes[id], e)), id, EditKind(e))
  }

  predicate CanSubmit(q: Quote) {
    q.status == Draft && q.lane.Some?
  }

  /** `verified` is the account's verified flag, if there is an account; `required` the setting. */
  predicate EmailAllows(required: bool, verified: Option<bool>) {
    required ==> verified == Some(true)
  }

  function Submitting(s: State, id: PyStr, account: PyStr, required: bool, verified: Option<bool>): State {
    if id !in s.quotes || !CanSubmit(s.quotes[id]) || !EmailAllows(required, verified) then s
    else
      var submitted := Logged(SaveQuote(s, id, s.quotes[id].(status := Submitted, accountId := Some(account))),
          id, QuoteSubmitted);
      Logged(SaveQuote(submitted, id, submitted.quotes[id].(status := NeedsReview)), id, StatusToKind(NeedsReview))
  }

  datatype ReviewError = WrongAggregate | QuoteNotFound | WrongStatus(status: QuoteStatus)

  /** `handle_quote_review_start` for an aggregate type that is already lower-cased; `Ok` carries the previous
      status. */
  function StartReview(s: State, aggregateType: PyStr, id: PyStr): (State, Result<QuoteStatus, ReviewError>) {
    if aggregateType != ActionEnvelope.Py("quote") then (s, Err(WrongAggregate))
    else if id !in s.quotes then (s, Err(QuoteNotFound))
    else
      var previous := s.quotes[id].status;
      if previous != Submitted && previous != NeedsReview then (s, Err(WrongStatus(previous)))
      else (Logged(SaveStatus(s, id, Reviewing), id, QuoteReviewStarted), Ok(previous))
  }

  // ---- The services as they run ------------------------------------------------------------------

  class QuoteRepository {
    var rows: map<PyStr, Quote>

    constructor ()
      ensures rows == map[]
    {
      rows := map[];
    }

    method GetById(id: PyStr) returns (q: Option<Quote>)
      ensures q == if id in rows then Some(rows[id]) else None
    {
      q := if id in rows then Some(rows[id]) else None;
    }

    method Create(id: PyStr, q: Quote) returns (ok: bool)
      modifies this
      ensures ok <==> id !in old(rows)
      ensures rows == if ok then old(rows)[id := q] else old(rows)
    {
      ok := id !in rows;
      if ok { rows := rows[id := q]; }
    }

    method Update(id: PyStr, q: Quote) returns (updated: Option<Quote>)
      modifies this
      ensures rows == SaveQuote(State(old(rows), []), id, q).quotes
      ensures updated == if id in rows then Some(rows[id]) else None
    {
      if id !in rows { return None; }
      var row := rows[id];
      row := row.(lane := q.lane, info := q.info, area := q.area, status := q.status);
      if q.location.Some? { row := row.(location := q.location); }
      if q.notes.Some? { row := row.(notes := q.notes); }
      if q.questionnaire.Some? { row := row.(questionnaire := q.questionnaire); }
      rows := rows[id := row];
      return Some(row);
    }

    method UpdateStatus(id: PyStr, status: QuoteStatus) returns (ok: bool)
      modifies this
      ensures rows == SaveStatus(State(old(rows), []), id, status).quotes
      ensures ok <==> id in old(rows)
    {
      ok := id in rows;
      if ok { rows := rows[id := rows[id].(status := status)]; }
    }
  }

  class EventRepository {
    var events: seq<Event>

    constructor ()
      ensures events == []
    {
      events := [];
    }

    method Append(id: PyStr, kind: Kind)
      modifies this
      ensures events == old(events) + [Event(id, kind)]
    {
      events := events + [Event(id, kind)];
    }
  }

  class QuoteService {
    const repo: QuoteRepository
    const eventLog: EventRepository
    const requireVerifiedEmail: bool

    constructor (repo: QuoteRepository, eventLog: EventRepository, requireVerifiedEmail: bool)
      ensures this.repo == repo && this.eventLog == eventLog && this.requireVerifiedEmail == requireVerifiedEmail
      ensures Model() == State(repo.rows, eventLog.events)
    {
      this.repo := repo;
      this.eventLog := eventLog;
      this.requireVerifiedEmail := requireVerifiedEmail;
    }

    ghost function Model(): State
      reads repo, eventLog
    {
      State(repo.rows, eventLog.events)
    }

    method CreateQuote(id: PyStr, lane: Option<Lane>) returns (ok: bool)
      modifies repo, eventLog
      ensures Model() == Created(old(Model()), id, lane)
      ensures ok <==> id !in old(Model()).quotes
    {
      ok := repo.Create(id, Blank(lane));
      if ok { eventLog.Append(id, QuoteCreated); }
    }

    /** The edits all load the quote, assign some fields, write it back, and append at most one event. */
    method EditQuote(id: PyStr, e: Edit) returns (updated: Option<Quote>)
      modifies repo, eventLog
      ensures Model() == ApplyEdit(old(Model()), id, e)
      ensures updated == if id in Model().quotes then Some(Model().quotes[id]) else None
    {
      var found := repo.GetById(id);
      if found.None? { return None; }
      var quote := found.value;
      match e {
        case SetLane(lane) => quote := quote.(lane := Some(lane));
        case SetInfo(info) => quote := quote.(info := info);
        case SetLocation(area, location) =>
          quote := quote.(area := area);
          quote := quote.(location := Some(location));
        case SetNotes(notes) => quote := quote.(notes := Some(notes));
        case SetQuestionnaire(answers) => quote := quote.(questionnaire := Some(answers));
      }
      updated := repo.Update(id, quote);
      if updated.Some? {
        var kind := EditKind(e);
        if kind.Some? { eventLog.Append(id, kind.value); }
      }
    }

    method SubmitQuote(id: PyStr, account: PyStr, verified: Option<bool>) returns (submitted: Option<Quote>)
      modifies repo, eventLog
      ensures Model() == Submitting(old(Model()), id, account, requireVerifiedEmail, verified)
      ensures submitted.Some? ==> id in Model().quotes && submitted.value == Model().quotes[id]
      ensures submitted.Some? <==>
              id in old(Model()).quotes && CanSubmit(old(Model()).quotes[id])
              && EmailAllows(requireVerifiedEmail, verified)
    {
      var found := repo.GetById(id);
      if found.None? { return None; }
      var quote := found.value;
      if !CanSubmit(quote) { return None; }
      if requireVerifiedEmail {
        if verified.None? || !verified.value { return None; }
      }
      quote := quote.(status := Submitted);
      quote := quote.(accountId := Some(account));
      submitted := repo.Update(id, quote);
      if submitted.Some? {
        eventLog.Append(id, QuoteSubmitted);
        submitted := Some(submitted.value.(status := NeedsReview));
        var _ := repo.Update(id, submitted.value);
        eventLog.Append(id, StatusToKind(NeedsReview));
      }
    }

    /** `handle_quote_review_start`, which uses the same two repositories. */
    method HandleQuoteReviewStart(aggregateType: PyStr, id: PyStr) returns (res: Result<QuoteStatus, ReviewError>)
      modifies repo, eventLog
      ensures (Model(), res) == StartReview(old(Model()), aggregateType, id)
    {
      if aggregateType != ActionEnvelope.Py("quote") { return Err(WrongAggregate); }
      var found := repo.GetById(id);
      if found.None? { return Err(QuoteNotFound); }
      var previous := found.value.status;
      if previous != Submitted && previous != NeedsReview { return Err(WrongStatus(previous)); }
      var _ := repo.UpdateStatus(id, Reviewing);
      eventLog.Append(id, QuoteReviewStarted);
      return Ok(previous);
    }
  }

  // ---- The log and the stored status ----------------------------------------------------------------

  /** The status an event announces. */
  function KindStatus(k: Kind): Option<QuoteStatus> {
    match k
    case QuoteCreated => Some(Draft)
    case QuoteSubmitted => Some(Submitted)
    case QuoteNeedsReview => Some(NeedsReview)
    case QuoteReviewStarted => Some(Reviewing)
    case QuoteQuoted => Some(Quoted)
    case QuoteAccepted => Some(Accepted)
    case QuoteDeclined => Some(Declined)
    case QuoteClosed => Some(Closed)
    case _ => None
  }

  /** The status mapping loses only DRAFT, which it takes for a submission. */
  lemma StatusMappingExact(s: QuoteStatus)
    ensures KindStatus(StatusToKind(s)) == Some(s) <==> s != Draft
  {
  }

  /** A quote's status according to its events. */
  function Replay(log: seq<Event>, id: PyStr): Option<QuoteStatus> {
    if log == [] then None
    else
      var last := log[|log| - 1];
      if last.quoteId == id && KindStatus(last.kind).Some? then KindStatus(last.kind) else Replay(log[..|log| - 1], id)
  }

  /** A quote's status events, in order. */
  function Trail(log: seq<Event>, id: PyStr): seq<Kind> {
    if log == [] then []
    else
      var last := log[|log| - 1];
      Trail(log[..|log| - 1], id) + if last.quoteId == id && KindStatus(last.kind).Some? then [last.kind] else []
  }

  /** The only event sequences a stored status stands for. */
  function History(s: QuoteStatus): seq<Kind> {
    match s
    case Draft => [QuoteCreated]
    case NeedsReview => [QuoteCreated, QuoteSubmitted, QuoteNeedsReview]
    case Reviewing => [QuoteCreated, QuoteSubmitted, QuoteNeedsReview, QuoteReviewStarted]
    case _ => []
  }

  predicate Tells(s: State, id: PyStr) {
    if id in s.quotes then
      s.quotes[id].status in {Draft, NeedsReview, Reviewing} && Trail(s.log, id) == History(s.quotes[id].status)
    else Trail(s.log, id) == []
  }

  ghost predicate Inv(s: State) {
    && (forall id :: Tells(s, id))
    && (forall id :: id in s.quotes ==> s.quotes[id].accountId == None)
  }

  lemma TrailStep(log: seq<Event>, e: Event, id: PyStr)
    ensures Trail(log + [e], id) ==
            Trail(log, id) + if e.quoteId == id && KindStatus(e.kind).Some? then [e.kind] else []
  {
    assert (log + [e])[..|log|] == log;
  }

  lemma {:induction false} ReplayIsLast(log: seq<Event>, id: PyStr)
    ensures var t := Trail(log, id); Replay(log, id) == if t == [] then None else KindStatus(t[|t| - 1])
  {
    if log != [] { ReplayIsLast(log[..|log| - 1], id); }
  }

  lemma {:induction false} TrailCount(log: seq<Event>, id: PyStr, k: Kind)
    requires KindStatus(k).Some?
    ensures multiset(log)[Event(id, k)] == multiset(Trail(log, id))[k]
  {
    if log != [] {
      var init, last := log[..|log| - 1], log[|log| - 1];
      TrailCount(init, id, k);
      assert log == init + [last];
    }
  }

  datatype Op =
    | Create(id: PyStr, lane: Option<Lane>)
    | Change(id: PyStr, edit: Edit)
    | Submit(id: PyStr, account: PyStr, required: bool, verified: Option<bool>)
    | Start(id: PyStr, aggregateType: PyStr)

  function Step(s: State, op: Op): State {
    match op
    case Create(id, lane) => Created(s, id, lane)
    case Change(id, edit) => ApplyEdit(s, id, edit)
    case Submit(id, account, required, verified) => Submitting(s, id, account, required, verified)
    case Start(id, aggregateType) => StartReview(s, aggregateType, id).0
  }

  function Run(ops: seq<Op>): State {
    if ops == [] then EMPTY else Step(Run(ops[..|ops| - 1]), ops[|ops| - 1])
  }

  function Rank(s: QuoteStatus): nat {
    match s
    case Draft => 0
    case Submitted => 1
    case NeedsReview => 2
    case Reviewing => 3
    case Quoted => 4
    case Accepted => 5
    case Declined => 5
    case Closed => 6
  }

  /** From `s` to `u` no quote disappears or steps back. */
  ghost predicate Forward(s: State, u: State) {
    forall id :: id in s.quotes ==> id in u.quotes && Rank(s.quotes[id].status) <= Rank(u.quotes[id].status)
  }

  lemma EditStep(s: State, id: PyStr, e: Edit)
    requires Inv(s)
    ensures Inv(ApplyEdit(s, id, e)) && Forward(s, ApplyEdit(s, id, e))
  {
    hide Trail, History;
    var u := ApplyEdit(s, id, e);
    if id in s.quotes && EditKind(e).Some? {
      forall k ensures Trail(u.log, k) == Trail(s.log, k) { TrailStep(s.log, Event(id, EditKind(e).value), k); }
    }
    assert forall k :: Tells(s, k) ==> Tells(u, k);
  }

  lemma CreateStep(s: State, id: PyStr, lane: Option<Lane>)
    requires Inv(s)
    ensures Inv(Created(s, id, lane)) && Forward(s, Created(s, id, lane))
  {
    hide Trail;
    if id !in s.quotes {
      var u := Created(s, id, lane);
      assert Tells(s, id);
      forall k ensures Tells(u, k) {
        assert Tells(s, k);
        TrailStep(s.log, Event(id, QuoteCreated), k);
      }
    }
  }

  lemma SubmitStep(s: State, id: PyStr, account: PyStr, required: bool, verified: Option<bool>)
    requires Inv(s)
    ensures var u := Submitting(s, id, account, required, verified); Inv(u) && Forward(s, u)
  {
    hide Trail, EmailAllows;
    var u := Submitting(s, id, account, required, verified);
    if u != s {
      var first, second := Event(id, QuoteSubmitted), Event(id, QuoteNeedsReview);
      assert u.log == s.log + [first] + [second];
      assert Tells(s, id);
      forall k ensures Tells(u, k) {
        assert Tells(s, k);
        TrailStep(s.log, first, k);
        TrailStep(s.log + [first], second, k);
      }
    }
  }

  lemma ReviewStep(s: State, aggregateType: PyStr, id: PyStr)
    requires Inv(s)
    ensures var u := StartReview(s, aggregateType, id).0; Inv(u) && Forward(s, u)
  {
    hide Trail;
    var out := StartReview(s, aggregateType, id);
    if out.1.Ok? {
      assert Tells(s, id);
      forall k ensures Tells(out.0, k) {
        assert Tells(s, k);
        TrailStep(s.log, Event(id, QuoteReviewStarted), k);
      }
    }
  }

  lemma StepInv(s: State, op: Op)
    requires Inv(s)
    ensures Inv(Step(s, op)) && Forward(s, Step(s, op))
  {
    hide Inv, Forward, ApplyEdit, Created, Submitting, StartReview;
    match op
    case Create(id, lane) => CreateStep(s, id, lane);
    case Change(id, edit) => EditStep(s, id, edit);
    case Submit(id, account, required, verified) => SubmitStep(s, id, account, required, verified);
    case Start(id, aggregateType) => ReviewStep(s, aggregateType, id);
  }

  lemma {:induction false} RunInv(ops: seq<Op>)
    ensures Inv(Run(ops))
  {
    hide Inv, Step;
    if ops == [] {
      EmptyInv();
    } else {
      RunInv(ops[..|ops| - 1]);
      StepInv(Run(ops[..|ops| - 1]), ops[|ops| - 1]);
    }
  }

  lemma EmptyInv()
    ensures Inv(EMPTY)
  {
  }

  /** After every run, each quote's stored status is the replay of the log, its status events are exactly the history of
      that status, and it has at most one review start: one if it is under review, none otherwise. */
  lemma StatusIsReplay(ops: seq<Op>, id: PyStr)
    ensures var s := Run(ops);
            && Replay(s.log, id) == (if id in s.quotes then Some(s.quotes[id].status) else None)
            && Trail(s.log, id) == (if id in s.quotes then History(s.quotes[id].status) else [])
            && multiset(s.log)[Event(id, QuoteReviewStarted)] ==
               (if id in s.quotes && s.quotes[id].status == Reviewing then 1 else 0)
  {
    hide Trail, Replay, Run;
    RunInv(ops);
    var s := Run(ops);
    assert Tells(s, id);
    ReplayIsLast(s.log, id);
    TrailCount(s.log, id, QuoteReviewStarted);
  }

  /** Status only moves forward along a run. */
  lemma {:induction false} StatusOnlyForward(ops: seq<Op>, i: nat)
    requires i <= |ops|
    ensures Forward(Run(ops[..i]), Run(ops))
  {
    hide Step, Inv;
    if i == |ops| {
      assert ops[..i] == ops;
    } else {
      var init := ops[..|ops| - 1];
      assert init[..i] == ops[..i];
      StatusOnlyForward(init, i);
      RunInv(init);
      StepInv(Run(init), ops[|ops| - 1]);
    }
  }

  /** An edit stores all it assigned and nothing else: what `update` does not write, no edit needs. */
  lemma EditIsStoredWhole(s: State, id: PyStr, e: Edit)
    requires id in s.quotes
    ensures ApplyEdit(s, id, e).quotes == s.quotes[id := Edited(s.quotes[id], e)]
    ensures |ApplyEdit(s, id, e).log| == |s.log| + if EditKind(e).Some? then 1 else 0
  {
  }

  /** A submission stores the final status and loses the owner, or changes nothing at all. */
  lemma SubmitStoresStatusOnly(s: State, id: PyStr, account: PyStr, required: bool, verified: Option<bool>)
    ensures var u := Submitting(s, id, account, required, verified);
            if id in s.quotes && CanSubmit(s.quotes[id]) && EmailAllows(required, verified)
            then u.quotes == s.quotes[id := s.quotes[id].(status := NeedsReview)]
                 && u.log == s.log + [Event(id, QuoteSubmitted), Event(id, QuoteNeedsReview)]
            else u == s
  {
  }

  /** The account a quote is submitted for is returned to the caller and never stored. */
  lemma {:induction false} OwnerIsNeverStored(ops: seq<Op>, id: PyStr)
    ensures id in Run(ops).quotes ==> Run(ops).quotes[id].accountId == None
  {
    RunInv(ops);
  }

  // ---- Writes from a stale copy ------------------------------------------------------------------------

  /** Writing back a copy keeps the log and the status together exactly when the copy's status is still the stored
      one. */
  lemma StaleWriteExact(ops: seq<Op>, id: PyStr, copy: Quote)
    requires id in Run(ops).quotes
    ensures var s := SaveQuote(Run(ops), id, copy);
            Replay(s.log, id) == Some(s.quotes[id].status) <==> copy.status == Run(ops).quotes[id].status
  {
    hide Run, Replay;
    StatusIsReplay(ops, id);
  }

  /** Two handlers that are not atomic: an edit loads a quote under `NeedsReview`, a review starts, the edit writes its
      copy back. The status has gone back and a second review start is accepted and logged. */
  lemma LostUpdate(ops: seq<Op>, id: PyStr, e: Edit)
    requires id in Run(ops).quotes && Run(ops).quotes[id].status == NeedsReview
    ensures var s := Run(ops);
            var quote := ActionEnvelope.Py("quote");
            var reviewed := StartReview(s, quote, id).0;
            var overwritten := SaveQuote(reviewed, id, Edited(s.quotes[id], e));
            var again := StartReview(overwritten, quote, id);
            && overwritten.quotes[id].status == NeedsReview && Replay(overwritten.log, id) == Some(Reviewing)
            && again.1 == Ok(NeedsReview) && multiset(again.0.log)[Event(id, QuoteReviewStarted)] == 2
  {
    hide Run, Trail;
    var s := Run(ops);
    StatusIsReplay(ops, id);
    var event := Event(id, QuoteReviewStarted);
    assert (s.log + [event])[..|s.log|] == s.log;
  }
}
