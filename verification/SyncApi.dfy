// The action endpoint of the hosted half: device lookup, verification, dispatch (src/intake/hosted/api/sync.py).
module SyncApi {
  import opened Prelude
  import opened PyJson
  import opened ActionEnvelope
  import opened ActionVerification
  import QuoteStates
  import Quotes = QuoteLog

  datatype ApiError =
    | DeviceNotRegistered
    | VerificationFailed(why: Refusal)
    | UnsupportedKind
    | ReviewFailed(error: Quotes.ReviewError)

  /** Verification tables and the quote store together. */
  datatype Host = Host(tables: Tables, quotes: Quotes.State)

  const EMPTY_HOST := Host(EMPTY_TABLES, Quotes.EMPTY)

  const REVIEW_START: PyStr := Py("QUOTE_REVIEW_START")

  type Registry = map<PyStr, Device>

  /** `process_local_action`; `Ok` carries the status the quote had before. */
  function Process(
    cfg: Config, devices: Registry, h: Host, e: Envelope, now: int): (Host, Result<QuoteStates.QuoteStatus, ApiError>) {
    if e.deviceId !in devices then (h, Err(DeviceNotRegistered))
    else
      var (tables, verdict) := VerifyAlone(cfg, h.tables, e, devices[e.deviceId], now);
      var verified := h.(tables := tables);
      match verdict
      case Refused(why) => (verified, Err(VerificationFailed(why)))
      case Accepted =>
        if e.actionKind != REVIEW_START then (verified, Err(UnsupportedKind))
        else
          var (quotes, outcome) := Quotes.StartReview(h.quotes, cfg.lower(e.aggregateType), e.aggregateId);
          (verified.(quotes := quotes),
              match outcome case Ok(previous) => Ok(previous) case Err(error) => Err(ReviewFailed(error)))
  }

  /** The endpoint over its repositories. */
  class ActionEndpoint {
    const verifier: HostedActionVerificationService
    const quotes: Quotes.QuoteService
    const devices: Registry

    constructor (verifier: HostedActionVerificationService, quotes: Quotes.QuoteService, devices: Registry)
      ensures this.verifier == verifier && this.quotes == quotes && this.devices == devices
    {
      this.verifier := verifier;
      this.quotes := quotes;
      this.devices := devices;
    }

    ghost function Model(): Host
      reads verifier.repo, quotes.repo, quotes.eventLog
    {
      Host(verifier.repo.tables, quotes.Model())
    }

    method ProcessLocalAction(e: Envelope, now: int) returns (res: Result<QuoteStates.QuoteStatus, ApiError>)
      modifies verifier.repo, quotes.repo, quotes.eventLog
      ensures (Model(), res) == Process(verifier.cfg, devices, old(Model()), e, now)
    {
      hide VerifyAlone, Quotes.StartReview;
      if e.deviceId !in devices { return Err(DeviceNotRegistered); }
      var verdict := verifier.VerifyAction(e, devices[e.deviceId], now);
      if verdict.Refused? { return Err(VerificationFailed(verdict.why)); }
      if e.actionKind != REVIEW_START { return Err(UnsupportedKind); }
      var outcome := quotes.HandleQuoteReviewStart(verifier.cfg.lower(e.aggregateType), e.aggregateId);
      match outcome {
        case Ok(previous) => return Ok(previous);
        case Err(error) => return Err(ReviewFailed(error));
      }
    }
  }

  // ---- Runs of actions and of the quote service -------------------------------------------------------

  datatype Call = Local(op: Quotes.Op) | Device(e: Envelope, now: int)

  function Step(cfg: Config, devices: Registry, h: Host, c: Call): Host {
    match c
    case Local(op) => h.(quotes := Quotes.Step(h.quotes, op))
    case Device(e, now) => Process(cfg, devices, h, e, now).0
  }

  function Run(cfg: Config, devices: Registry, calls: seq<Call>): Host {
    if calls == [] then EMPTY_HOST
    else Step(cfg, devices, Run(cfg, devices, calls[..|calls| - 1]), calls[|calls| - 1])
  }

  /** Call `k` is an action that started a review. */
  predicate StartsAt(cfg: Config, devices: Registry, calls: seq<Call>, k: nat) {
    k < |calls| && calls[k].Device?
        && Process(cfg, devices, Run(cfg, devices, calls[..k]), calls[k].e, calls[k].now).1.Ok?
  }

  /** What a later host still knows of an earlier one. */
  ghost predicate Remembers(h: Host, later: Host) {
    && (forall a :: a in h.tables.actions ==> a in later.tables.actions)
    && (forall n :: n in h.tables.nonces ==> n in later.tables.nonces)
    && Quotes.Forward(h.quotes, later.quotes)
  }

  /** The action endpoint does to the quotes nothing but a review start, and nothing at all unless it verified the
      action. */
  lemma ProcessEffect(cfg: Config, devices: Registry, h: Host, e: Envelope, now: int)
    ensures var out := Process(cfg, devices, h, e, now);
            && (out.0.quotes == h.quotes
                || out.0.quotes == Quotes.StartReview(h.quotes, cfg.lower(e.aggregateType), e.aggregateId).0)
            && (out.1.Ok? ==>
                  e.actionId !in h.tables.actions && NonceKey(e) !in h.tables.nonces
                  && Started(h.quotes, out.0.quotes, e.aggregateId))
            && (out.1.Ok? || (out.1.error.UnsupportedKind? || out.1.error.ReviewFailed?) <==>
                out.0.tables == Track(h.tables, e) && e.actionId !in h.tables.actions
                && NonceKey(e) !in h.tables.nonces)
            && (out.0.tables != h.tables ==> e.actionId in out.0.tables.actions && NonceKey(e) in out.0.tables.nonces)
            && (out.1.Err? ==> out.0.quotes == h.quotes)
            && (out.0.tables == h.tables || out.0.tables == Track(h.tables, e))
  {
    hide PreCheck, SignatureStep, Quotes.StartReview;
    ReviewExact(h.quotes, cfg.lower(e.aggregateType), e.aggregateId);
  }

  /** The quote was waiting and is now under review. */
  predicate Started(s: Quotes.State, u: Quotes.State, id: PyStr) {
    && id in s.quotes && Quotes.Rank(s.quotes[id].status) < Quotes.Rank(QuoteStates.Reviewing)
    && id in u.quotes && u.quotes[id].status == QuoteStates.Reviewing
  }

  lemma ReviewExact(s: Quotes.State, aggregateType: PyStr, id: PyStr)
    ensures var out := Quotes.StartReview(s, aggregateType, id);
            if out.1.Ok? then Started(s, out.0, id) else out.0 == s
  {
  }

  lemma ForwardTrans(a: Quotes.State, b: Quotes.State, c: Quotes.State)
    requires Quotes.Forward(a, b) && Quotes.Forward(b, c)
    ensures Quotes.Forward(a, c)
  {
  }

  lemma StepKeeps(cfg: Config, devices: Registry, h: Host, c: Call)
    requires Quotes.Inv(h.quotes)
    ensures Quotes.Inv(Step(cfg, devices, h, c).quotes) && Remembers(h, Step(cfg, devices, h, c))
  {
    hide Process, Quotes.Inv, Quotes.StartReview, Quotes.Step;
    match c
    case Local(op) => Quotes.StepInv(h.quotes, op);
    case Device(e, now) =>
      ProcessEffect(cfg, devices, h, e, now);
      Quotes.ReviewStep(h.quotes, cfg.lower(e.aggregateType), e.aggregateId);
  }

  lemma {:induction false} RunKeeps(cfg: Config, devices: Registry, calls: seq<Call>, i: nat)
    requires i <= |calls|
    ensures Quotes.Inv(Run(cfg, devices, calls).quotes)
    ensures Remembers(Run(cfg, devices, calls[..i]), Run(cfg, devices, calls))
  {
    hide Step, Quotes.Inv, Quotes.Forward;
    if calls == [] {
      Quotes.EmptyInv();
      assert calls[..i] == calls;
      ForwardSame(Quotes.EMPTY);
    } else {
      var init := calls[..|calls| - 1];
      var before := Run(cfg, devices, init);
      if i == |calls| {
        RunKeeps(cfg, devices, init, 0);
        StepKeeps(cfg, devices, before, calls[|calls| - 1]);
        assert calls[..i] == calls;
        ForwardSame(Run(cfg, devices, calls).quotes);
      } else {
        RunKeeps(cfg, devices, init, i);
        StepKeeps(cfg, devices, before, calls[|calls| - 1]);
        assert init[..i] == calls[..i];
        ForwardTrans(Run(cfg, devices, calls[..i]).quotes, before.quotes, Run(cfg, devices, calls).quotes);
      }
    }
  }

  lemma ForwardSame(s: Quotes.State)
    ensures Quotes.Forward(s, s)
  {
  }

  /** In every run of signed actions among quote service calls, two actions that start reviews differ in action id, in
      device and nonce, and in quote. */
  lemma ReviewsStartOnce(cfg: Config, devices: Registry, calls: seq<Call>, i: nat, k: nat)
    requires i < k
    ensures StartsAt(cfg, devices, calls, i) && StartsAt(cfg, devices, calls, k) ==>
              calls[i].e.actionId != calls[k].e.actionId &&
              NonceKey(calls[i].e) != NonceKey(calls[k].e) &&
              calls[i].e.aggregateId != calls[k].e.aggregateId
  {
    hide Process, Quotes.Inv;
    if StartsAt(cfg, devices, calls, i) && StartsAt(cfg, devices, calls, k) {
      var before, later := Run(cfg, devices, calls[..i]), Run(cfg, devices, calls[..k]);
      assert calls[..i + 1][..i] == calls[..i];
      ProcessEffect(cfg, devices, before, calls[i].e, calls[i].now);
      RunKeeps(cfg, devices, calls[..k], i + 1);
      assert calls[..k][..i + 1] == calls[..i + 1];
      ProcessEffect(cfg, devices, later, calls[k].e, calls[k].now);
    }
  }

  /** Call `k` is an action that was verified, whatever its dispatch made of it. */
  predicate VerifiedAt(cfg: Config, devices: Registry, calls: seq<Call>, k: nat) {
    k < |calls| && calls[k].Device? &&
    var out := Process(cfg, devices, Run(cfg, devices, calls[..k]), calls[k].e, calls[k].now).1;
    out.Ok? || out.error.UnsupportedKind? || out.error.ReviewFailed?
  }

  /** A verified action is spent, even if its dispatch failed: no later action in the run is verified under its id, or
      under its device and nonce. */
  lemma VerifiedIsSpent(cfg: Config, devices: Registry, calls: seq<Call>, i: nat, k: nat)
    requires i < k
    ensures VerifiedAt(cfg, devices, calls, i) && VerifiedAt(cfg, devices, calls, k) ==>
              calls[i].e.actionId != calls[k].e.actionId &&
              NonceKey(calls[i].e) != NonceKey(calls[k].e)
  {
    hide Process, Quotes.Inv;
    if VerifiedAt(cfg, devices, calls, i) && VerifiedAt(cfg, devices, calls, k) {
      var before, later := Run(cfg, devices, calls[..i]), Run(cfg, devices, calls[..k]);
      assert calls[..i + 1][..i] == calls[..i];
      ProcessEffect(cfg, devices, before, calls[i].e, calls[i].now);
      RunKeeps(cfg, devices, calls[..k], i + 1);
      assert calls[..k][..i + 1] == calls[..i + 1];
      ProcessEffect(cfg, devices, later, calls[k].e, calls[k].now);
    }
  }
}
