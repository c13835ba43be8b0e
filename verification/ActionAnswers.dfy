// What each answer of `verify_action` means: the exact condition of acceptance and of every refusal, for a call
// run alone and for a call in any interleaving (src/intake/services/signing_service.py, lines 80-131).
module ActionAnswers {
  import opened Prelude
  import opened PyJson
  import opened ActionEnvelope
  import opened ActionVerification

  /** Within the window before or after the time of issue. */
  predicate Fresh(cfg: Config, e: Envelope, now: int) {
    -cfg.window <= now - cfg.instant(e.issuedAt) <= cfg.window
  }

  predicate Unused(t: Tables, e: Envelope) {
    e.actionId !in t.actions && (e.deviceId, e.nonce) !in t.nonces
  }

  /** What the device's key says of the signature over the canonical bytes. */
  function Verdict(cfg: Config, e: Envelope, d: Device): SignatureCheck {
    cfg.check(d.publicKey, e.signature, CanonicalPayload(e, cfg.lower))
  }

  /** From a trusted device that it names. */
  predicate FromTrusted(e: Envelope, d: Device) {
    e.deviceId == d.deviceId && d.trustState == "trusted"
  }

  /** When an answer is given, check by check. */
  predicate Warranted(cfg: Config, t: Tables, e: Envelope, d: Device, now: int, answer: Outcome) {
    var admitted := FromTrusted(e, d) && Fresh(cfg, e, now);
    match answer
    case Accepted => admitted && Unused(t, e) && d.publicKey != "" && Verdict(cfg, e, d) == SigValid
    case Refused(DeviceMismatch) => e.deviceId != d.deviceId
    case Refused(NotTrusted) => e.deviceId == d.deviceId && d.trustState != "trusted"
    case Refused(NotFresh) => FromTrusted(e, d) && !Fresh(cfg, e, now)
    case Refused(DuplicateAction) => admitted && e.actionId in t.actions
    case Refused(DuplicateNonce) => admitted && e.actionId !in t.actions && (e.deviceId, e.nonce) in t.nonces
    case Refused(MissingKey) => admitted && Unused(t, e) && d.publicKey == ""
    case Refused(InvalidSignature) =>
      admitted && Unused(t, e) && d.publicKey != "" && Verdict(cfg, e, d) == SigInvalid
    case Refused(Malformed) => admitted && Unused(t, e) && d.publicKey != "" && Verdict(cfg, e, d) == SigMalformed
    case Refused(_) => false
  }

  /** An action is accepted exactly when it is fresh, from a trusted device that it names, validly signed under that
      device's key, and neither its id nor its nonce is used. */
  lemma AcceptedExactly(cfg: Config, t: Tables, e: Envelope, d: Device, now: int)
    ensures VerifyAlone(cfg, t, e, d, now).1 == Accepted <==>
            && e.deviceId == d.deviceId && d.trustState == "trusted"
            && -cfg.window <= now - cfg.instant(e.issuedAt) <= cfg.window
            && d.publicKey != ""
            && cfg.check(d.publicKey, e.signature, CanonicalPayload(e, cfg.lower)) == SigValid
            && e.actionId !in t.actions && (e.deviceId, e.nonce) !in t.nonces
  {
    AnswerExactly(cfg, t, e, d, now, Accepted);
  }

  /** Every answer is given exactly when it is warranted; only acceptance changes the tables, by this id and this
      nonce. */
  lemma AnswerExactly(cfg: Config, t: Tables, e: Envelope, d: Device, now: int, answer: Outcome)
    ensures VerifyAlone(cfg, t, e, d, now).1 == answer <==> Warranted(cfg, t, e, d, now, answer)
    ensures VerifyAlone(cfg, t, e, d, now).0 ==
            if VerifyAlone(cfg, t, e, d, now).1 == Accepted
            then Tables(t.actions[e.actionId := e.deviceId], t.nonces[(e.deviceId, e.nonce) := e.issuedAt])
            else t
  {
    hide CanonicalPayload;
  }

  // ---- Answers in any interleaving -----------------------------------------------------------

  /** Event `j` is the first step of call `k`, at time `now`. */
  predicate FirstStep(cfg: Config, events: seq<Event>, k: nat, j: nat, now: int) {
    && j < |events| && events[j] == Advance(k, now)
    && var w := Play(cfg, true, events[..j]); k < |w.calls| && w.calls[k].phase == Entered
  }

  /** The call was fresh, or was not, when it made its first step. */
  ghost predicate WasFresh(cfg: Config, events: seq<Event>, k: nat, e: Envelope, inTime: bool) {
    exists j: nat, now: int :: FirstStep(cfg, events, k, j, now) && Fresh(cfg, e, now) == inTime
  }

  /** What the phase of a call says of it. */
  ghost predicate Told(cfg: Config, events: seq<Event>, t: Tables, k: nat, c: Call) {
    var e, d := c.e, c.d;
    var admitted := FromTrusted(e, d) && WasFresh(cfg, events, k, e, true);
    var signed := d.publicKey != "" && Verdict(cfg, e, d) == SigValid;
    match c.phase
    case Entered => true
    case SeekAction => admitted
    case SeekNonce => admitted
    case CheckSignature => admitted
    case InsertAction => admitted && signed
    case InsertNonce => admitted && signed
    case Done(Accepted) => admitted && signed
    case Done(Refused(DeviceMismatch)) => e.deviceId != d.deviceId
    case Done(Refused(NotTrusted)) => e.deviceId == d.deviceId && d.trustState != "trusted"
    case Done(Refused(NotFresh)) => FromTrusted(e, d) && WasFresh(cfg, events, k, e, false)
    case Done(Refused(DuplicateAction)) => admitted && e.actionId in t.actions
    case Done(Refused(DuplicateNonce)) => admitted && (e.deviceId, e.nonce) in t.nonces
    case Done(Refused(MissingKey)) => admitted && d.publicKey == ""
    case Done(Refused(InvalidSignature)) => admitted && d.publicKey != "" && Verdict(cfg, e, d) == SigInvalid
    case Done(Refused(Malformed)) => admitted && d.publicKey != "" && Verdict(cfg, e, d) == SigMalformed
    case Done(Refused(ActionKeyTaken)) => admitted && signed && e.actionId in t.actions
    case Done(Refused(NonceKeyTaken)) => admitted && signed && (e.deviceId, e.nonce) in t.nonces
  }

  lemma FirstStepStays(cfg: Config, init: seq<Event>, ev: Event, k: nat, e: Envelope, inTime: bool)
    requires WasFresh(cfg, init, k, e, inTime)
    ensures WasFresh(cfg, init + [ev], k, e, inTime)
  {
    hide Play, Fresh;
    var j: nat, now: int :| FirstStep(cfg, init, k, j, now) && Fresh(cfg, e, now) == inTime;
    assert (init + [ev])[..j] == init[..j];
    assert FirstStep(cfg, init + [ev], k, j, now);
  }

  /** What was told stays told while the tables grow. */
  lemma ToldStays(cfg: Config, init: seq<Event>, ev: Event, t: Tables, t': Tables, k: nat, c: Call)
    requires Told(cfg, init, t, k, c) && t.actions.Keys <= t'.actions.Keys && t.nonces.Keys <= t'.nonces.Keys
    ensures Told(cfg, init + [ev], t', k, c)
  {
    hide WasFresh, Verdict;
    if WasFresh(cfg, init, k, c.e, true) { FirstStepStays(cfg, init, ev, k, c.e, true); }
    if WasFresh(cfg, init, k, c.e, false) { FirstStepStays(cfg, init, ev, k, c.e, false); }
  }

  /** One step of a call, and what it tells. */
  lemma MoveTells(cfg: Config, init: seq<Event>, k: nat, now: int)
    requires var w := Play(cfg, true, init); k < |w.calls| && Told(cfg, init, w.tables, k, w.calls[k])
    ensures var w := Play(cfg, true, init);
            var (t, phase) := Move(cfg, true, w.tables, w.calls[k], now);
            Told(cfg, init + [Advance(k, now)], t, k, w.calls[k].(phase := phase))
  {
    hide Play, CanonicalPayload, WasFresh;
    var w := Play(cfg, true, init);
    var c := w.calls[k];
    if c.phase == Entered {
      StepIsFirst(cfg, init, k, c.e, now);
    } else {
      if WasFresh(cfg, init, k, c.e, true) { FirstStepStays(cfg, init, Advance(k, now), k, c.e, true); }
      if WasFresh(cfg, init, k, c.e, false) { FirstStepStays(cfg, init, Advance(k, now), k, c.e, false); }
    }
  }

  lemma StepIsFirst(cfg: Config, init: seq<Event>, k: nat, e: Envelope, now: int)
    requires var w := Play(cfg, true, init); k < |w.calls| && w.calls[k].phase == Entered
    ensures WasFresh(cfg, init + [Advance(k, now)], k, e, Fresh(cfg, e, now))
  {
    hide Play, Fresh;
    var events := init + [Advance(k, now)];
    assert events[..|init|] == init;
    assert FirstStep(cfg, events, k, |init|, now);
  }

  lemma TablesGrow(cfg: Config, t: Tables, c: Call, now: int)
    ensures var t' := Move(cfg, true, t, c, now).0;
            t.actions.Keys <= t'.actions.Keys && t.nonces.Keys <= t'.nonces.Keys
  {
    hide PreCheck, SignatureStep;
  }

  /** In every interleaving, every call is where it is for the reason its phase tells. In particular a dispatched
      call came from a trusted device that it names, was fresh at its first step, and is validly signed. */
  lemma {:induction false} EveryCallTold(cfg: Config, events: seq<Event>, k: nat)
    requires k < |Play(cfg, true, events).calls|
    ensures var w := Play(cfg, true, events); Told(cfg, events, w.tables, k, w.calls[k])
  {
    hide Told, Move;
    var init, ev := events[..|events| - 1], events[|events| - 1];
    var w, w' := Play(cfg, true, init), Play(cfg, true, events);
    assert events == init + [ev];
    match ev
    case Arrive(e, d) =>
      if k < |w.calls| {
        EveryCallTold(cfg, init, k);
        ToldStays(cfg, init, ev, w.tables, w'.tables, k, w.calls[k]);
      } else {
        ArrivedTold(cfg, events, w'.tables, k, e, d);
      }
    case Advance(i, now) =>
      EveryCallTold(cfg, init, k);
      if i < |w.calls| {
        TablesGrow(cfg, w.tables, w.calls[i], now);
        if i == k { MoveTells(cfg, init, k, now); }
      }
      if i != k || i >= |w.calls| { ToldStays(cfg, init, ev, w.tables, w'.tables, k, w.calls[k]); }
  }

  lemma ArrivedTold(cfg: Config, events: seq<Event>, t: Tables, k: nat, e: Envelope, d: Device)
    ensures Told(cfg, events, t, k, Call(e, d, Entered))
  {
  }

  /** A dispatched call, in any interleaving. */
  lemma DispatchedIsGenuine(cfg: Config, events: seq<Event>, k: nat)
    requires k < |Play(cfg, true, events).calls| && Dispatched(Play(cfg, true, events).calls[k])
    ensures var c := Play(cfg, true, events).calls[k];
            && c.e.deviceId == c.d.deviceId && c.d.trustState == "trusted" && c.d.publicKey != ""
            && cfg.check(c.d.publicKey, c.e.signature, CanonicalPayload(c.e, cfg.lower)) == SigValid
            && exists j: nat, now: int ::
                 FirstStep(cfg, events, k, j, now) && -cfg.window <= now - cfg.instant(c.e.issuedAt) <= cfg.window
  {
    hide Play, CanonicalPayload, FirstStep;
    EveryCallTold(cfg, events, k);
    var e := Play(cfg, true, events).calls[k].e;
    var j: nat, now: int :| FirstStep(cfg, events, k, j, now) && Fresh(cfg, e, now);
    assert -cfg.window <= now - cfg.instant(e.issuedAt) <= cfg.window;
  }
}
