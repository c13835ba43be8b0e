// Signing and replay-safe verification of device actions: one call, whole sequential runs, and every
// interleaving of concurrent calls.
module ActionVerification {
  import opened Prelude
  import opened JsonText
  import opened PyJson
  import opened ActionEnvelope

  datatype SignatureCheck = SigValid | SigInvalid | SigMalformed

  /** What the model does not see into: ed25519 with its base64 armour, `str.lower`, and instants in
      microseconds. `window` is the freshness window in the same unit. */
  datatype Config = Config(
    check: (string, string, Bytes) -> SignatureCheck,
    lower: PyStr -> PyStr,
    instant: UtcTime -> int,
    window: int)

  datatype Device = Device(deviceId: PyStr, trustState: string, publicKey: string)

  datatype Refusal =
    | DeviceMismatch | NotTrusted | NotFresh | DuplicateAction | DuplicateNonce | MissingKey | Malformed
    | InvalidSignature | ActionKeyTaken | NonceKeyTaken

  datatype Outcome = Accepted | Refused(why: Refusal)

  /** The two tracking tables, by primary key. */
  datatype Tables = Tables(actions: map<PyStr, PyStr>, nonces: map<(PyStr, PyStr), UtcTime>)

  const EMPTY_TABLES := Tables(map[], map[])

  function NonceKey(e: Envelope): (PyStr, PyStr) {
    (e.deviceId, e.nonce)
  }

  // ---- The checks -----------------------------------------------------------------

  /** Steps 1 to 3: device, trust, freshness. */
  function PreCheck(cfg: Config, e: Envelope, d: Device, now: int): Option<Refusal> {
    var delta := now - cfg.instant(e.issuedAt);
    if e.deviceId != d.deviceId then Some(DeviceMismatch)
    else if d.trustState != "trusted" then Some(NotTrusted)
    else if (if delta < 0 then -delta else delta) > cfg.window then Some(NotFresh)
    else None
  }

  /** Step 6: the signature over the canonical bytes. */
  function SignatureStep(cfg: Config, e: Envelope, d: Device): Option<Refusal> {
    if d.publicKey == "" then Some(MissingKey)
    else
      match cfg.check(d.publicKey, e.signature, CanonicalPayload(e, cfg.lower))
      case SigValid => None
      case SigInvalid => Some(InvalidSignature)
      case SigMalformed => Some(Malformed)
  }

  function Track(t: Tables, e: Envelope): Tables {
    Tables(t.actions[e.actionId := e.deviceId], t.nonces[NonceKey(e) := e.issuedAt])
  }

  /** `verify_action` run without interference. */
  function VerifyAlone(cfg: Config, t: Tables, e: Envelope, d: Device, now: int): (Tables, Outcome) {
    var pre := PreCheck(cfg, e, d, now);
    if pre.Some? then (t, Refused(pre.value))
    else if e.actionId in t.actions then (t, Refused(DuplicateAction))
    else if NonceKey(e) in t.nonces then (t, Refused(DuplicateNonce))
    else
      var sig := SignatureStep(cfg, e, d);
      if sig.Some? then (t, Refused(sig.value)) else (Track(t, e), Accepted)
  }

  // ---- The repository and the service -----------------------------------------------

  class SyncRepository {
    var tables: Tables

    constructor ()
      ensures tables == EMPTY_TABLES
    {
      tables := EMPTY_TABLES;
    }

    method IsActionSeen(actionId: PyStr) returns (seen: bool)
      ensures seen <==> actionId in tables.actions
    {
      seen := actionId in tables.actions;
    }

    method IsNonceSeen(deviceId: PyStr, nonce: PyStr) returns (seen: bool)
      ensures seen <==> (deviceId, nonce) in tables.nonces
    {
      seen := (deviceId, nonce) in tables.nonces;
    }

    /** Insert; false is the primary-key violation, which leaves the table as it was. */
    method TrackAction(actionId: PyStr, deviceId: PyStr) returns (ok: bool)
      modifies this
      ensures ok <==> actionId !in old(tables).actions
      ensures tables == if ok then old(tables).(actions := old(tables).actions[actionId := deviceId]) else old(tables)
    {
      ok := actionId !in tables.actions;
      if ok {
        tables := tables.(actions := tables.actions[actionId := deviceId]);
      }
    }

    method TrackNonce(deviceId: PyStr, nonce: PyStr, issuedAt: UtcTime) returns (ok: bool)
      modifies this
      ensures ok <==> (deviceId, nonce) !in old(tables).nonces
      ensures tables == if ok then old(tables).(nonces := old(tables).nonces[(deviceId, nonce) := issuedAt])
                        else old(tables)
    {
      ok := (deviceId, nonce) !in tables.nonces;
      if ok {
        tables := tables.(nonces := tables.nonces[(deviceId, nonce) := issuedAt]);
      }
    }
  }

  class HostedActionVerificationService {
    const repo: SyncRepository
    const cfg: Config

    constructor (repo: SyncRepository, cfg: Config)
      ensures this.repo == repo && this.cfg == cfg
    {
      this.repo := repo;
      this.cfg := cfg;
    }

    method VerifyAction(e: Envelope, d: Device, now: int) returns (r: Outcome)
      modifies repo
      ensures (repo.tables, r) == VerifyAlone(cfg, old(repo.tables), e, d, now)
    {
      var pre := PreCheck(cfg, e, d, now);
      if pre.Some? {
        return Refused(pre.value);
      }
      var seen := repo.IsActionSeen(e.actionId);
      if seen {
        return Refused(DuplicateAction);
      }
      seen := repo.IsNonceSeen(e.deviceId, e.nonce);
      if seen {
        return Refused(DuplicateNonce);
      }
      var sig := SignatureStep(cfg, e, d);
      if sig.Some? {
        return Refused(sig.value);
      }
      var ok := repo.TrackAction(e.actionId, e.deviceId);
      if !ok {
        return Refused(ActionKeyTaken);
      }
      ok := repo.TrackNonce(e.deviceId, e.nonce, e.issuedAt);
      if !ok {
        return Refused(NonceKeyTaken);
      }
      return Accepted;
    }
  }

  class LocalDeviceSigningService {
    const privateKey: string
    const sign: (string, Bytes) -> string
    const lower: PyStr -> PyStr

    constructor (privateKey: string, sign: (string, Bytes) -> string, lower: PyStr -> PyStr)
      ensures this.privateKey == privateKey && this.sign == sign && this.lower == lower
    {
      this.privateKey := privateKey;
      this.sign := sign;
      this.lower := lower;
    }

    /** `sign_action`; the two fresh uuids and the clock reading are arguments. */
    method SignAction(
      actionId: PyStr, nonce: PyStr, now: Instant, deviceId: PyStr, kind: PyStr, aggregateType: PyStr,
      aggregateId: PyStr, payload: seq<Entry>)
      returns (e: Envelope)
      ensures e.(signature := "") ==
              Envelope(actionId, deviceId, kind, aggregateType, aggregateId, now, nonce, payload, "")
      ensures e.signature == sign(privateKey, CanonicalPayload(e, lower))
    {
      e := Envelope(actionId, deviceId, kind, aggregateType, aggregateId, now, nonce, payload, "");
      PayloadIgnoresSignature(e, sign(privateKey, CanonicalPayload(e, lower)), lower);
      e := e.(signature := sign(privateKey, CanonicalPayload(e, lower)));
    }
  }

  lemma PayloadIgnoresSignature(e: Envelope, signature: string, lower: PyStr -> PyStr)
    ensures CanonicalPayload(e.(signature := signature), lower) == CanonicalPayload(e, lower)
  {
    hide CanonicalPayload, Normalize, Utf16, TruncateMillis;
    CanonicalPayloadExact(e, e.(signature := signature), lower);
  }

  // ---- What acceptance means ----------------------------------------------------------

  /** A signature that checks out for at most one message under the given key. */
  ghost predicate Binding(cfg: Config, key: string, signature: string) {
    forall m, m' :: cfg.check(key, signature, m) == SigValid && cfg.check(key, signature, m') == SigValid ==> m == m'
  }

  /** An accepted envelope that carries the signature of `signed` agrees with it in every signed field. */
  lemma TamperEvident(cfg: Config, t: Tables, signed: Envelope, received: Envelope, d: Device, now: int)
    requires cfg.check(d.publicKey, signed.signature, CanonicalPayload(signed, cfg.lower)) == SigValid
    requires Binding(cfg, d.publicKey, signed.signature) && received.signature == signed.signature
    requires VerifyAlone(cfg, t, received, d, now).1 == Accepted
    ensures SignedAlike(signed, received, cfg.lower)
  {
    hide CanonicalPayload, SignedAlike;
    CanonicalPayloadExact(signed, received, cfg.lower);
  }

  /** A trusted device's freshly signed action with unused id and nonce is accepted. */
  lemma SignedIsAccepted(cfg: Config, t: Tables, e: Envelope, d: Device, now: int)
    requires cfg.check(d.publicKey, e.signature, CanonicalPayload(e, cfg.lower)) == SigValid && d.publicKey != ""
    requires e.deviceId == d.deviceId && d.trustState == "trusted"
    requires -cfg.window <= now - cfg.instant(e.issuedAt) <= cfg.window
    ensures VerifyAlone(cfg, t, e, d, now).1 == Accepted <==> e.actionId !in t.actions && NonceKey(e) !in t.nonces
  {
  }

  // ---- Sequential runs ------------------------------------------------------------------

  datatype Request = Request(e: Envelope, d: Device, now: int)

  function RunAlone(cfg: Config, reqs: seq<Request>): Tables {
    if reqs == [] then EMPTY_TABLES
    else
      var r := reqs[|reqs| - 1];
      VerifyAlone(cfg, RunAlone(cfg, reqs[..|reqs| - 1]), r.e, r.d, r.now).0
  }

  function OutcomeAt(cfg: Config, reqs: seq<Request>, k: nat): Outcome
    requires k < |reqs|
  {
    VerifyAlone(cfg, RunAlone(cfg, reqs[..k]), reqs[k].e, reqs[k].d, reqs[k].now).1
  }

  lemma RefusedChangesNothing(cfg: Config, t: Tables, e: Envelope, d: Device, now: int)
    ensures VerifyAlone(cfg, t, e, d, now).1.Refused? ==> VerifyAlone(cfg, t, e, d, now).0 == t
    ensures VerifyAlone(cfg, t, e, d, now).1 !in {Refused(ActionKeyTaken), Refused(NonceKeyTaken)}
    ensures VerifyAlone(cfg, t, e, d, now).1 == Accepted ==> e.actionId !in t.actions && NonceKey(e) !in t.nonces
  {
  }

  predicate AcceptedAt(cfg: Config, reqs: seq<Request>, k: nat) {
    k < |reqs| && OutcomeAt(cfg, reqs, k) == Accepted
  }

  lemma EarlierSame(cfg: Config, reqs: seq<Request>, k: nat)
    requires k + 1 < |reqs|
    ensures AcceptedAt(cfg, reqs, k) <==> AcceptedAt(cfg, reqs[..|reqs| - 1], k)
  {
    assert reqs[..|reqs| - 1][..k] == reqs[..k];
  }

  lemma {:induction false} AcceptedIsTracked(cfg: Config, reqs: seq<Request>, k: nat)
    requires AcceptedAt(cfg, reqs, k)
    ensures reqs[k].e.actionId in RunAlone(cfg, reqs).actions && NonceKey(reqs[k].e) in RunAlone(cfg, reqs).nonces
  {
    hide PreCheck, SignatureStep;
    if k + 1 < |reqs| {
      EarlierSame(cfg, reqs, k);
      AcceptedIsTracked(cfg, reqs[..|reqs| - 1], k);
    }
  }

  lemma {:induction false} TrackedActionAccepted(cfg: Config, reqs: seq<Request>, a: PyStr) returns (k: nat)
    requires a in RunAlone(cfg, reqs).actions
    ensures AcceptedAt(cfg, reqs, k) && reqs[k].e.actionId == a
  {
    hide PreCheck, SignatureStep;
    var init := reqs[..|reqs| - 1];
    if a in RunAlone(cfg, init).actions {
      k := TrackedActionAccepted(cfg, init, a);
      EarlierSame(cfg, reqs, k);
    } else {
      k := |reqs| - 1;
    }
  }

  lemma {:induction false} TrackedNonceAccepted(cfg: Config, reqs: seq<Request>, n: (PyStr, PyStr)) returns (k: nat)
    requires n in RunAlone(cfg, reqs).nonces
    ensures AcceptedAt(cfg, reqs, k) && NonceKey(reqs[k].e) == n
  {
    hide PreCheck, SignatureStep;
    var init := reqs[..|reqs| - 1];
    if n in RunAlone(cfg, init).nonces {
      k := TrackedNonceAccepted(cfg, init, n);
      EarlierSame(cfg, reqs, k);
    } else {
      k := |reqs| - 1;
    }
  }

  /** The tables hold exactly the accepted requests' ids and nonces... */
  lemma TablesAreAcceptedSet(cfg: Config, reqs: seq<Request>, a: PyStr, n: (PyStr, PyStr))
    ensures a in RunAlone(cfg, reqs).actions <==> exists k: nat :: AcceptedAt(cfg, reqs, k) && reqs[k].e.actionId == a
    ensures n in RunAlone(cfg, reqs).nonces <==> exists k: nat :: AcceptedAt(cfg, reqs, k) && NonceKey(reqs[k].e) == n
  {
    hide RunAlone, OutcomeAt;
    if a in RunAlone(cfg, reqs).actions { var k := TrackedActionAccepted(cfg, reqs, a); }
    if n in RunAlone(cfg, reqs).nonces { var k := TrackedNonceAccepted(cfg, reqs, n); }
    forall k: nat | AcceptedAt(cfg, reqs, k) ensures k < |reqs| && reqs[k].e.actionId in RunAlone(cfg, reqs).actions
                                             && NonceKey(reqs[k].e) in RunAlone(cfg, reqs).nonces
    {
      AcceptedIsTracked(cfg, reqs, k);
    }
  }

  /** ... and no id and no nonce is accepted twice in a sequential run. */
  lemma AcceptedOnce(cfg: Config, reqs: seq<Request>, i: nat, k: nat)
    requires i < k
    ensures AcceptedAt(cfg, reqs, i) && AcceptedAt(cfg, reqs, k) ==>
              reqs[i].e.actionId != reqs[k].e.actionId && NonceKey(reqs[i].e) != NonceKey(reqs[k].e)
  {
    hide PreCheck, SignatureStep;
    if AcceptedAt(cfg, reqs, i) && AcceptedAt(cfg, reqs, k) {
      var before := reqs[..k];
      assert before[..i] == reqs[..i];
      AcceptedIsTracked(cfg, before, i);
    }
  }

  // ---- Concurrent calls ------------------------------------------------------------------

  /** Where a call stands: the next repository call, or its result. */
  datatype Phase = Entered | SeekAction | SeekNonce | CheckSignature | InsertAction | InsertNonce
    | Done(outcome: Outcome)

  datatype Call = Call(e: Envelope, d: Device, phase: Phase)

  datatype World = World(tables: Tables, calls: seq<Call>)

  const START := World(EMPTY_TABLES, [])

  /** A new request comes in, or call `i` makes its next step at time `now`. */
  datatype Event = Arrive(e: Envelope, d: Device) | Advance(i: nat, now: int)

  /** One step of one call. With `unique` false the inserts do not enforce their primary keys. */
  function Move(cfg: Config, unique: bool, t: Tables, c: Call, now: int): (Tables, Phase) {
    match c.phase
    case Entered =>
      var pre := PreCheck(cfg, c.e, c.d, now);
      (t, if pre.Some? then Done(Refused(pre.value)) else SeekAction)
    case SeekAction => (t, if c.e.actionId in t.actions then Done(Refused(DuplicateAction)) else SeekNonce)
    case SeekNonce => (t, if NonceKey(c.e) in t.nonces then Done(Refused(DuplicateNonce)) else CheckSignature)
    case CheckSignature =>
      var sig := SignatureStep(cfg, c.e, c.d);
      (t, if sig.Some? then Done(Refused(sig.value)) else InsertAction)
    case InsertAction =>
      if unique && c.e.actionId in t.actions then (t, Done(Refused(ActionKeyTaken)))
      else (t.(actions := t.actions[c.e.actionId := c.e.deviceId]), InsertNonce)
    case InsertNonce =>
      if unique && NonceKey(c.e) in t.nonces then (t, Done(Refused(NonceKeyTaken)))
      else (t.(nonces := t.nonces[NonceKey(c.e) := c.e.issuedAt]), Done(Accepted))
    case Done(_) => (t, c.phase)
  }

  function Next(cfg: Config, unique: bool, w: World, ev: Event): World {
    match ev
    case Arrive(e, d) => w.(calls := w.calls + [Call(e, d, Entered)])
    case Advance(i, now) =>
      if i >= |w.calls| then w
      else
        var (t, phase) := Move(cfg, unique, w.tables, w.calls[i], now);
        World(t, w.calls[i := w.calls[i].(phase := phase)])
  }

  function Play(cfg: Config, unique: bool, events: seq<Event>): World {
    if events == [] then START
    else Next(cfg, unique, Play(cfg, unique, events[..|events| - 1]), events[|events| - 1])
  }

  /** `verify_action` returned True, so the action is dispatched. */
  predicate Dispatched(c: Call) {
    c.phase == Done(Accepted)
  }

  /** The call has inserted its action id; a call that the nonce key then refused has, too. */
  predicate HoldsAction(c: Call) {
    c.phase == InsertNonce || Dispatched(c) || c.phase == Done(Refused(NonceKeyTaken))
  }

  predicate AtMostOnce(w: World) {
    forall i, j :: 0 <= i < j < |w.calls| && Dispatched(w.calls[i]) && Dispatched(w.calls[j]) ==>
      w.calls[i].e.actionId != w.calls[j].e.actionId && NonceKey(w.calls[i].e) != NonceKey(w.calls[j].e)
  }

  /** Some call holds this action id. */
  predicate ActionHeld(calls: seq<Call>, a: PyStr) {
    exists i :: 0 <= i < |calls| && HoldsAction(calls[i]) && calls[i].e.actionId == a
  }

  /** Some dispatched call has this device and nonce. */
  predicate NonceHeld(calls: seq<Call>, n: (PyStr, PyStr)) {
    exists i :: 0 <= i < |calls| && Dispatched(calls[i]) && NonceKey(calls[i].e) == n
  }

  ghost predicate TableInv(w: World) {
    && (forall a :: a in w.tables.actions <==> ActionHeld(w.calls, a))
    && (forall n :: n in w.tables.nonces <==> NonceHeld(w.calls, n))
    && (forall i, j :: 0 <= i < j < |w.calls| && HoldsAction(w.calls[i]) && HoldsAction(w.calls[j]) ==>
          w.calls[i].e.actionId != w.calls[j].e.actionId)
    && (forall i, j :: 0 <= i < j < |w.calls| && Dispatched(w.calls[i]) && Dispatched(w.calls[j]) ==>
          NonceKey(w.calls[i].e) != NonceKey(w.calls[j].e))
  }

  /** Replacing one call changes what is held by that call's own part. */
  lemma HeldStep(calls: seq<Call>, i: nat, c: Call, a: PyStr, n: (PyStr, PyStr))
    requires i < |calls| && c.e == calls[i].e
    requires HoldsAction(calls[i]) ==> HoldsAction(c)
    requires Dispatched(calls[i]) ==> Dispatched(c)
    ensures ActionHeld(calls[i := c], a) <==> ActionHeld(calls, a) || (HoldsAction(c) && c.e.actionId == a)
    ensures NonceHeld(calls[i := c], n) <==> NonceHeld(calls, n) || (Dispatched(c) && NonceKey(c.e) == n)
  {
    hide HoldsAction, Dispatched, NonceKey;
    var calls' := calls[i := c];
    assert calls'[i] == c;
    forall k | 0 <= k < |calls| && k != i ensures calls'[k] == calls[k] {}
  }

  /** One step as the tables see it: what the call newly holds was free, and is what the tables gain. */
  lemma MoveEffect(cfg: Config, t: Tables, c: Call, now: int)
    ensures var (t', phase) := Move(cfg, true, t, c, now);
            var c' := c.(phase := phase);
            var gains, dispatches := HoldsAction(c') && !HoldsAction(c), Dispatched(c') && !Dispatched(c);
            && (HoldsAction(c) ==> HoldsAction(c')) && (Dispatched(c) ==> Dispatched(c'))
            && t'.actions.Keys == t.actions.Keys + (if gains then {c.e.actionId} else {})
            && t'.nonces.Keys == t.nonces.Keys + (if dispatches then {NonceKey(c.e)} else {})
            && (gains ==> c.e.actionId !in t.actions) && (dispatches ==> NonceKey(c.e) !in t.nonces)
  {
    hide CanonicalPayload, NonceKey;
  }

  lemma MoveInv(cfg: Config, w: World, i: nat, now: int)
    requires TableInv(w) && i < |w.calls|
    ensures TableInv(Next(cfg, true, w, Advance(i, now)))
  {
    hide Move, ActionHeld, NonceHeld, NonceKey, HoldsAction, Dispatched;
    var w' := Next(cfg, true, w, Advance(i, now));
    var c, c' := w.calls[i], w'.calls[i];
    MoveEffect(cfg, w.tables, c, now);
    HeldStays(w.calls, i, c.e.actionId, NonceKey(c.e));
    forall a ensures a in w'.tables.actions <==> ActionHeld(w'.calls, a) { HeldStep(w.calls, i, c', a, NonceKey(c.e)); }
    forall n ensures n in w'.tables.nonces <==> NonceHeld(w'.calls, n) { HeldStep(w.calls, i, c', c.e.actionId, n); }
    forall k | 0 <= k < |w.calls| && k != i ensures w'.calls[k] == w.calls[k] {}
  }

  /** What other calls hold. */
  lemma HeldStays(calls: seq<Call>, i: nat, a: PyStr, n: (PyStr, PyStr))
    requires i < |calls|
    ensures HoldsAction(calls[i]) ==> ActionHeld(calls, calls[i].e.actionId)
    ensures Dispatched(calls[i]) ==> NonceHeld(calls, NonceKey(calls[i].e))
    ensures !ActionHeld(calls, a) ==> forall k :: 0 <= k < |calls| && HoldsAction(calls[k]) ==> calls[k].e.actionId != a
    ensures !NonceHeld(calls, n) ==> forall k :: 0 <= k < |calls| && Dispatched(calls[k]) ==> NonceKey(calls[k].e) != n
  {
  }

  lemma ArriveInv(w: World, e: Envelope, d: Device)
    requires TableInv(w)
    ensures TableInv(World(w.tables, w.calls + [Call(e, d, Entered)]))
  {
    hide NonceKey;
    var calls := w.calls + [Call(e, d, Entered)];
    forall k | 0 <= k < |w.calls| ensures calls[k] == w.calls[k] {}
    forall a ensures ActionHeld(calls, a) <==> ActionHeld(w.calls, a) {}
    forall n ensures NonceHeld(calls, n) <==> NonceHeld(w.calls, n) {}
  }

  lemma NothingHeld()
    ensures TableInv(START)
  {
  }

  lemma {:induction false} PlayInv(cfg: Config, events: seq<Event>)
    ensures TableInv(Play(cfg, true, events))
  {
    hide Move, TableInv;
    if events == [] {
      NothingHeld();
    } else {
      var init, ev := events[..|events| - 1], events[|events| - 1];
      PlayInv(cfg, init);
      var w := Play(cfg, true, init);
      match ev
      case Arrive(e, d) => ArriveInv(w, e, d);
      case Advance(i, now) => if i < |w.calls| { MoveInv(cfg, w, i, now); }
    }
  }

  /** However any number of calls interleave, each action id and each (device, nonce) is dispatched at most once. */
  lemma DispatchedAtMostOnce(cfg: Config, events: seq<Event>)
    ensures AtMostOnce(Play(cfg, true, events))
  {
    PlayInv(cfg, events);
  }

  /** In every interleaving the action table holds exactly the ids of the calls that passed their first insert, among
      them those the nonce key then refused; the nonce table holds exactly the nonces of the dispatched calls. */
  lemma TablesInEveryInterleaving(cfg: Config, events: seq<Event>, a: PyStr, n: (PyStr, PyStr))
    ensures var w := Play(cfg, true, events);
            && (a in w.tables.actions <==> ActionHeld(w.calls, a))
            && (n in w.tables.nonces <==> NonceHeld(w.calls, n))
  {
    hide ActionHeld, NonceHeld;
    PlayInv(cfg, events);
  }

  lemma PlayTwo(cfg: Config, e: Envelope, d: Device)
    ensures Play(cfg, false, [Arrive(e, d), Arrive(e, d)]) ==
            World(EMPTY_TABLES, [Call(e, d, Entered), Call(e, d, Entered)])
  {
    var x := Arrive(e, d);
    PlaySnoc(cfg, false, [], x);
    assert [] + [x] == [x];
    PlaySnoc(cfg, false, [x], x);
    assert [x] + [x] == [x, x];
  }

  lemma PlaySnoc(cfg: Config, unique: bool, events: seq<Event>, ev: Event)
    ensures Play(cfg, unique, events + [ev]) == Next(cfg, unique, Play(cfg, unique, events), ev)
  {
    assert (events + [ev])[..|events|] == events;
  }

  /** Two calls for the same request, both in the same phase. */
  function Twins(t: Tables, e: Envelope, d: Device, phase: Phase): World {
    World(t, [Call(e, d, phase), Call(e, d, phase)])
  }

  /** Both twins make the same step, one after the other, without primary keys. */
  lemma TwinsMove(cfg: Config, t: Tables, e: Envelope, d: Device, phase: Phase, now: int, t': Tables, phase': Phase)
    requires Move(cfg, false, t, Call(e, d, phase), now) == (t', phase')
    requires Move(cfg, false, t', Call(e, d, phase), now) == (t', phase')
    ensures Next(cfg, false, Next(cfg, false, Twins(t, e, d, phase), Advance(0, now)), Advance(1, now)) ==
            Twins(t', e, d, phase')
  {
    hide Move;
    var w := Next(cfg, false, Twins(t, e, d, phase), Advance(0, now));
    assert w == World(t', [Call(e, d, phase'), Call(e, d, phase)]);
  }

  /** Such a run exists up to any phase both twins can reach together. */
  lemma TwinsRun(cfg: Config, t: Tables, e: Envelope, d: Device, phase: Phase, now: int, t': Tables, phase': Phase)
    requires Move(cfg, false, t, Call(e, d, phase), now) == (t', phase')
    requires Move(cfg, false, t', Call(e, d, phase), now) == (t', phase')
    requires exists events :: Play(cfg, false, events) == Twins(t, e, d, phase)
    ensures exists events :: Play(cfg, false, events) == Twins(t', e, d, phase')
  {
    hide Move, Next, Play, Twins;
    var events :| Play(cfg, false, events) == Twins(t, e, d, phase);
    PlaySnoc(cfg, false, events, Advance(0, now));
    PlaySnoc(cfg, false, events + [Advance(0, now)], Advance(1, now));
    TwinsMove(cfg, t, e, d, phase, now, t', phase');
    assert Play(cfg, false, events + [Advance(0, now)] + [Advance(1, now)]) == Twins(t', e, d, phase');
  }

  /** The primary keys are what makes it so: without them, two copies of one acceptable request that both
      pass the seen-checks before either inserts are both dispatched. */
  lemma SeenChecksAloneDoNotSuffice(cfg: Config, e: Envelope, d: Device, now: int)
    requires PreCheck(cfg, e, d, now).None? && SignatureStep(cfg, e, d).None?
    ensures exists events :: !AtMostOnce(Play(cfg, false, events))
  {
    hide PreCheck, SignatureStep, Play, AtMostOnce;
    var t := EMPTY_TABLES;
    var t1 := t.(actions := t.actions[e.actionId := e.deviceId]);
    var t2 := t1.(nonces := t1.nonces[NonceKey(e) := e.issuedAt]);
    PlayTwo(cfg, e, d);
    assert Play(cfg, false, [Arrive(e, d), Arrive(e, d)]) == Twins(t, e, d, Entered);
    hide Twins;
    TwinsRun(cfg, t, e, d, Entered, now, t, SeekAction);
    TwinsRun(cfg, t, e, d, SeekAction, now, t, SeekNonce);
    TwinsRun(cfg, t, e, d, SeekNonce, now, t, CheckSignature);
    TwinsRun(cfg, t, e, d, CheckSignature, now, t, InsertAction);
    assert t1.actions[e.actionId := e.deviceId] == t1.actions;
    TwinsRun(cfg, t, e, d, InsertAction, now, t1, InsertNonce);
    assert t2.nonces[NonceKey(e) := e.issuedAt] == t2.nonces;
    TwinsRun(cfg, t1, e, d, InsertNonce, now, t2, Done(Accepted));
    var events :| Play(cfg, false, events) == Twins(t2, e, d, Done(Accepted));
    TwinsDispatched(t2, e, d);
    assert !AtMostOnce(Play(cfg, false, events));
  }

  lemma TwinsDispatched(t: Tables, e: Envelope, d: Device)
    ensures !AtMostOnce(Twins(t, e, d, Done(Accepted)))
  {
    var w := Twins(t, e, d, Done(Accepted));
    assert Dispatched(w.calls[0]) && Dispatched(w.calls[1]);
  }

  // ---- The interleaved machine run one call at a time is the sequential function ---------------

  function Repeat(cfg: Config, w: World, i: nat, now: int, times: nat): World {
    if times == 0 then w else Next(cfg, true, Repeat(cfg, w, i, now, times - 1), Advance(i, now))
  }

  lemma MoveAt(cfg: Config, w: World, i: nat, now: int, t: Tables, phase: Phase)
    requires i < |w.calls| && Move(cfg, true, w.tables, w.calls[i], now) == (t, phase)
    ensures Next(cfg, true, w, Advance(i, now)) == World(t, w.calls[i := w.calls[i].(phase := phase)])
  {
  }

  /** The state after k undisturbed steps of call i, as far as the outcome is concerned. */
  function AfterMoves(cfg: Config, t: Tables, c: Call, now: int, k: nat): (Tables, Phase) {
    if k == 0 then (t, c.phase)
    else
      var (t', phase) := AfterMoves(cfg, t, c, now, k - 1);
      Move(cfg, true, t', c.(phase := phase), now)
  }

  lemma {:induction false} RepeatIsAfterMoves(cfg: Config, w: World, i: nat, now: int, k: nat)
    requires i < |w.calls|
    ensures var (t, phase) := AfterMoves(cfg, w.tables, w.calls[i], now, k);
            Repeat(cfg, w, i, now, k) == World(t, w.calls[i := w.calls[i].(phase := phase)])
  {
    hide Move;
    if k == 0 {
      assert w.calls[i := w.calls[i]] == w.calls;
    } else {
      RepeatIsAfterMoves(cfg, w, i, now, k - 1);
      var (t, phase) := AfterMoves(cfg, w.tables, w.calls[i], now, k - 1);
      var c := w.calls[i];
      var w' := World(t, w.calls[i := c.(phase := phase)]);
      var (t', phase') := AfterMoves(cfg, w.tables, c, now, k);
      MoveAt(cfg, w', i, now, t', phase');
      assert w'.calls[i := c.(phase := phase')] == w.calls[i := c.(phase := phase')];
    }
  }

  lemma SixMoves(cfg: Config, t: Tables, c: Call, now: int)
    requires c.phase == Entered
    ensures var (t', outcome) := VerifyAlone(cfg, t, c.e, c.d, now);
            AfterMoves(cfg, t, c, now, 6) == (t', Done(outcome))
  {
    hide PreCheck, SignatureStep;
    var r1 := AfterMoves(cfg, t, c, now, 1);
    assert r1 == Move(cfg, true, t, c, now) by {
      assert AfterMoves(cfg, t, c, now, 0) == (t, Entered) && c.(phase := Entered) == c;
    }
    var r2 := AfterMoves(cfg, t, c, now, 2);
    assert r2 == Move(cfg, true, r1.0, c.(phase := r1.1), now);
    var r3 := AfterMoves(cfg, t, c, now, 3);
    assert r3 == Move(cfg, true, r2.0, c.(phase := r2.1), now);
    var r4 := AfterMoves(cfg, t, c, now, 4);
    assert r4 == Move(cfg, true, r3.0, c.(phase := r3.1), now);
    var r5 := AfterMoves(cfg, t, c, now, 5);
    assert r5 == Move(cfg, true, r4.0, c.(phase := r4.1), now);
    assert AfterMoves(cfg, t, c, now, 6) == Move(cfg, true, r5.0, c.(phase := r5.1), now);
  }

  /** A call that runs its six steps undisturbed computes `VerifyAlone` and leaves the other calls alone. */
  lemma UndisturbedCall(cfg: Config, w: World, i: nat, now: int)
    requires i < |w.calls| && w.calls[i].phase == Entered
    ensures var c := w.calls[i];
            var (t, outcome) := VerifyAlone(cfg, w.tables, c.e, c.d, now);
            Repeat(cfg, w, i, now, 6) == World(t, w.calls[i := c.(phase := Done(outcome))])
  {
    hide VerifyAlone, AfterMoves, Repeat;
    SixMoves(cfg, w.tables, w.calls[i], now);
    RepeatIsAfterMoves(cfg, w, i, now, 6);
  }
}
