// Challenge and proof unlock of the local console (src/intake/local_console/api/security.py). Times are seconds;
// the random token of a challenge is an argument.
module SecureUnlock {
  import opened Prelude
  import Window = UnlockWindow

  datatype Challenge = Challenge(createdAt: int, expiresAt: int, consumed: bool)

  /** Settings of one process; `capability` is the configured or generated native capability. */
  datatype Config = Config(capability: string, devInsecure: bool, unlockTtl: int, challengeExpiry: int)

  datatype State = State(store: map<string, Challenge>, until: Option<int>)

  const INITIAL := State(map[], None)

  datatype Reason = NotLoopback | ProofMissing | TokenMissing | UnknownToken | TokenExpired | TokenUsed
    | WrongProof | NativeRequired

  datatype Mode = NativeOsAuth | DevInsecure | NoMode

  datatype Outcome =
    | Refused(reason: Reason)
    | Status(isUnlocked: bool, remaining: int, mode: Mode)
    | Issued(token: string, expiresAt: int)
    | Cleaned(count: nat)

  predicate Loopback(host: Option<string>) {
    host.Some? && (host.value == "127.0.0.1" || host.value == "::1" || host.value == "localhost"
        || host.value == "testclient")
  }

  /** A present, non-empty text. */
  predicate Truthy(o: Option<string>) {
    o.Some? && o.value != ""
  }

  // ---- What each request does -----------------------------------------------------------------

  function Cleanup(s: State, now: int): State {
    s.(store := map t | t in s.store && s.store[t].expiresAt >= now :: s.store[t])
  }

  function Expired(s: State, now: int): set<string> {
    set t | t in s.store && s.store[t].expiresAt < now
  }

  function Generate(s: State, token: string, expiry: int, now: int): State {
    s.(store := s.store[token := Challenge(now, now + expiry, false)])
  }

  /** The status a successful unlock reports: the window is asked again after it was opened. */
  function Open(cfg: Config, s: State, mode: Mode, now: int): (State, Outcome) {
    var (open, until) := Window.Query(Some(now + cfg.unlockTtl), now);
    var (remaining, until') := Window.Remaining(until, now, now);
    (s.(until := until'), Status(open, remaining, mode))
  }

  function UnlockEffect(
    cfg: Config, s: State, host: Option<string>, token: Option<string>, proof: Option<string>, now: int)
    : (State, Outcome)
  {
    if !Loopback(host) then (s, Refused(NotLoopback))
    else if Truthy(token) && !Truthy(proof) then (s, Refused(ProofMissing))
    else if Truthy(proof) && !Truthy(token) then (s, Refused(TokenMissing))
    else if Truthy(token) && Truthy(proof) then
      var t := token.value;
      if t !in s.store then (s, Refused(UnknownToken))
      else
        var challenge := s.store[t];
        var used := s.(store := s.store[t := challenge.(consumed := true)]);
        if now > challenge.expiresAt then (used, Refused(TokenExpired))
        else if challenge.consumed then (s, Refused(TokenUsed))
        else if proof.value != cfg.capability then (s, Refused(WrongProof))
        else Open(cfg, used, NativeOsAuth, now)
    else if cfg.devInsecure then Open(cfg, s, DevInsecure, now)
    else (s, Refused(NativeRequired))
  }

  function GetStatus(s: State, host: Option<string>, now: int): (State, Outcome) {
    if !Loopback(host) then (s, Refused(NotLoopback))
    else
      var cleaned := Cleanup(s, now);
      var (open, until) := Window.Query(cleaned.until, now);
      var (remaining, until') := Window.Remaining(until, now, now);
      (cleaned.(until := until'), Status(open, remaining, if open then NativeOsAuth else NoMode))
  }

  datatype Op =
    | Issue(token: string, now: int)
    | Unlock(host: Option<string>, submitted: Option<string>, proof: Option<string>, now: int)
    | AskStatus(host: Option<string>, now: int)
    | Lock(now: int)
    | Collect(now: int)

  function Step(cfg: Config, s: State, op: Op): (State, Outcome) {
    match op
    case Issue(token, now) =>
      (Cleanup(Generate(s, token, cfg.challengeExpiry, now), now), Issued(token, now + cfg.challengeExpiry))
    case Unlock(host, token, proof, now) => UnlockEffect(cfg, s, host, token, proof, now)
    case AskStatus(host, now) => GetStatus(s, host, now)
    case Lock(_) => (s.(until := None), Status(false, 0, NoMode))
    case Collect(now) => (Cleanup(s, now), Cleaned(|Expired(s, now)|))
  }

  // ---- The service as it runs -------------------------------------------------------------------

  class SecurityApi {
    const cfg: Config
    const window: Window.LocalAuthorizationWindow
    var store: map<string, Challenge>

    constructor (cfg: Config)
      ensures this.cfg == cfg && fresh(window) && Valid() && Model() == INITIAL
    {
      this.cfg := cfg;
      window := new Window.LocalAuthorizationWindow(cfg.unlockTtl);
      store := map[];
    }

    ghost predicate Valid() {
      window.ttl == cfg.unlockTtl
    }

    ghost function Model(): State
      reads this, window
    {
      State(store, window.unlockedUntil)
    }

    method GenerateChallenge(token: string, expiry: int, now: int) returns (expiresAt: int)
      modifies this
      ensures Model() == Generate(old(Model()), token, expiry, now) && expiresAt == now + expiry
    {
      expiresAt := now + expiry;
      store := store[token := Challenge(now, expiresAt, false)];
    }

    method CleanupExpiredChallenges(now: int) returns (count: nat)
      modifies this
      ensures Model() == Cleanup(old(Model()), now)
      ensures count == |Expired(old(Model()), now)|
    {
      ghost var was := store;
      var expired: set<string> := {};
      var rest := store.Keys;
      while rest != {}
        invariant rest <= store.Keys && store == was
        invariant expired == set t | t in store && t !in rest && store[t].expiresAt < now
        decreases |rest|
      {
        var t :| t in rest;
        rest := rest - {t};
        if now > store[t].expiresAt { expired := expired + {t}; }
      }
      assert expired == Expired(old(Model()), now);
      count := |expired|;
      var left := expired;
      while left != {}
        invariant left <= expired
        invariant forall k :: k in store <==> k in was && (k in expired ==> k in left)
        invariant forall k :: k in store ==> store[k] == was[k]
        decreases |left|
      {
        var t :| t in left;
        left := left - {t};
        store := map k | k in store && k != t :: store[k];
      }
      assert store == Cleanup(State(was, None), now).store;
    }

    method PerformUnlock(
      host: Option<string>, token: Option<string>, proof: Option<string>, now: int) returns (outcome: Outcome)
      requires Valid()
      modifies this, window
      ensures Valid()
      ensures (Model(), outcome) == UnlockEffect(cfg, old(Model()), host, token, proof, now)
    {
      if !Loopback(host) { return Refused(NotLoopback); }
      if Truthy(token) && !Truthy(proof) { return Refused(ProofMissing); }
      if Truthy(proof) && !Truthy(token) { return Refused(TokenMissing); }
      if Truthy(token) && Truthy(proof) {
        if token.value !in store { return Refused(UnknownToken); }
        var challenge := store[token.value];
        if now > challenge.expiresAt {
          store := store[token.value := challenge.(consumed := true)];
          return Refused(TokenExpired);
        }
        if challenge.consumed { return Refused(TokenUsed); }
        if proof.value != cfg.capability { return Refused(WrongProof); }
        store := store[token.value := challenge.(consumed := true)];
        outcome := OpenWindow(NativeOsAuth, now);
        return;
      }
      if cfg.devInsecure {
        outcome := OpenWindow(DevInsecure, now);
        return;
      }
      return Refused(NativeRequired);
    }

    method OpenWindow(mode: Mode, now: int) returns (outcome: Outcome)
      requires Valid()
      modifies window
      ensures Valid()
      ensures (Model(), outcome) == Open(cfg, old(Model()), mode, now)
    {
      var _ := window.Unlock(now);
      var open := window.IsUnlocked(now);
      var remaining := window.RemainingSeconds(now, now);
      outcome := Status(open, remaining, mode);
    }

    method GetUnlockStatus(host: Option<string>, now: int) returns (outcome: Outcome)
      requires Valid()
      modifies this, window
      ensures Valid()
      ensures (Model(), outcome) == GetStatus(old(Model()), host, now)
    {
      if !Loopback(host) { return Refused(NotLoopback); }
      var _ := CleanupExpiredChallenges(now);
      var openForMode := window.IsUnlocked(now);
      var mode := if openForMode then NativeOsAuth else NoMode;
      var open := window.IsUnlocked(now);
      var remaining := window.RemainingSeconds(now, now);
      outcome := Status(open, remaining, mode);
    }

    method GetUnlockChallenge(token: string, now: int) returns (outcome: Outcome)
      modifies this
      ensures (Model(), outcome) == Step(cfg, old(Model()), Issue(token, now))
    {
      var expiresAt := GenerateChallenge(token, cfg.challengeExpiry, now);
      var _ := CleanupExpiredChallenges(now);
      outcome := Issued(token, expiresAt);
    }

    method PerformLock(now: int) returns (outcome: Outcome)
      modifies window
      ensures (Model(), outcome) == Step(cfg, old(Model()), Lock(now))
    {
      window.Lock();
      outcome := Status(false, 0, NoMode);
    }
  }

  // ---- Runs ---------------------------------------------------------------------------------------

  function Run(cfg: Config, ops: seq<Op>): State {
    if ops == [] then INITIAL else Step(cfg, Run(cfg, ops[..|ops| - 1]), ops[|ops| - 1]).0
  }

  function OutcomeAt(cfg: Config, ops: seq<Op>, k: nat): Outcome
    requires k < |ops|
  {
    Step(cfg, Run(cfg, ops[..k]), ops[k]).1
  }

  /** The clock does not go back, and a generated token is a new one. */
  ghost predicate Plausible(ops: seq<Op>) {
    && (forall i, j :: 0 <= i < j < |ops| ==> ops[i].now <= ops[j].now)
    && (forall i, j :: 0 <= i < j < |ops| && ops[i].Issue? && ops[j].Issue? ==> ops[i].token != ops[j].token)
  }

  ghost predicate NotBefore(ops: seq<Op>, t: int) {
    forall i :: 0 <= i < |ops| ==> ops[i].now <= t
  }

  /** Request `k` opened the window with `token`. */
  predicate OpensWith(cfg: Config, ops: seq<Op>, k: nat, token: string) {
    && k < |ops|
    && ops[k].Unlock? && ops[k].submitted == Some(token)
    && var out := OutcomeAt(cfg, ops, k); out.Status? && out.mode == NativeOsAuth
  }

  /** `token` was handed out by request `i`. */
  predicate IssuedAt(ops: seq<Op>, i: nat, token: string) {
    i < |ops| && ops[i].Issue? && ops[i].token == token
  }

  /** Some request opened the window with `token`. */
  ghost predicate UsedUp(cfg: Config, ops: seq<Op>, token: string) {
    exists k: nat :: OpensWith(cfg, ops, k, token)
  }

  /** The token is good at time `t`: handed out, not yet expired and not used up. */
  ghost predicate Good(cfg: Config, ops: seq<Op>, token: string, t: int) {
    !UsedUp(cfg, ops, token) && exists i: nat :: IssuedAt(ops, i, token) && t <= ops[i].now + cfg.challengeExpiry
  }

  /** What the store says of a token at the time of a request. */
  predicate Accepts(s: State, token: string, t: int) {
    token in s.store && t <= s.store[token].expiresAt && !s.store[token].consumed
  }

  lemma UnlockDecides(
    cfg: Config, s: State, host: Option<string>, token: Option<string>, proof: Option<string>, now: int)
    ensures var out := UnlockEffect(cfg, s, host, token, proof, now).1;
            out.Status? && out.mode == NativeOsAuth <==>
            Loopback(host) && Truthy(token) && Truthy(proof) && proof.value == cfg.capability
                && Accepts(s, token.value, now)
  {
  }

  /** How one request changes what the store says of one token at a later time. */
  lemma AcceptsStep(cfg: Config, s: State, op: Op, token: string, t: int)
    requires op.now <= t
    ensures Accepts(Step(cfg, s, op).0, token, t) <==>
            (if op.Issue? && op.token == token then t <= op.now + cfg.challengeExpiry
             else Accepts(s, token, t) &&
                  !(op.Unlock? && op.submitted == Some(token) && Step(cfg, s, op).1.Status?
                      && Step(cfg, s, op).1.mode == NativeOsAuth))
  {
  }

  lemma PrefixSame(cfg: Config, ops: seq<Op>, op: Op, k: nat, token: string)
    ensures k < |ops| ==> (OpensWith(cfg, ops + [op], k, token) <==> OpensWith(cfg, ops, k, token))
    ensures k < |ops| ==> (IssuedAt(ops + [op], k, token) <==> IssuedAt(ops, k, token))
    ensures k == |ops| ==> (IssuedAt(ops + [op], k, token) <==> op.Issue? && op.token == token)
    ensures k == |ops| ==> (OpensWith(cfg, ops + [op], k, token) <==>
              (op.Unlock? && op.submitted == Some(token) &&
               Step(cfg, Run(cfg, ops), op).1.Status? && Step(cfg, Run(cfg, ops), op).1.mode == NativeOsAuth))
    ensures k > |ops| ==> !OpensWith(cfg, ops + [op], k, token) && !IssuedAt(ops + [op], k, token)
  {
    hide Step, Run;
    var all := ops + [op];
    if k < |ops| {
      assert all[..k] == ops[..k];
    } else {
      assert all[..|ops|] == ops;
    }
  }

  /** How one more request changes what the history says of a token. */
  lemma GoodStep(cfg: Config, ops: seq<Op>, op: Op, token: string, t: int)
    requires Plausible(ops + [op]) && op.now <= t
    ensures Good(cfg, ops + [op], token, t) <==>
            (if op.Issue? && op.token == token then !UsedUp(cfg, ops, token) && t <= op.now + cfg.challengeExpiry
             else Good(cfg, ops, token, t) && !OpensWith(cfg, ops + [op], |ops|, token))
  {
    hide OpensWith, IssuedAt;
    var all := ops + [op];
    forall k: nat
      ensures OpensWith(cfg, all, k, token) <==>
              (k < |ops| && OpensWith(cfg, ops, k, token)) || (k == |ops| && OpensWith(cfg, all, k, token))
    {
      PrefixSame(cfg, ops, op, k, token);
    }
    PrefixSame(cfg, ops, op, |ops|, token);
    forall k: nat
      ensures IssuedAt(all, k, token) <==>
              (k < |ops| && IssuedAt(ops, k, token)) || (k == |ops| && op.Issue? && op.token == token)
    {
      PrefixSame(cfg, ops, op, k, token);
    }
    forall k: nat | OpensWith(cfg, ops, k, token) ensures k < |ops| { OpensInside(cfg, ops, k, token); }
    forall k: nat | IssuedAt(ops, k, token)
      ensures k < |ops| && all[k] == ops[k] && ops[k].Issue? && ops[k].token == token
    {
      IssuedInside(ops, k, token);
    }
    if op.Issue? && op.token == token {
      assert all[|ops|] == op;
      IssueDoesNotOpen(cfg, all, |ops|, token);
    }
  }

  lemma IssueDoesNotOpen(cfg: Config, ops: seq<Op>, k: nat, token: string)
    requires k < |ops| && ops[k].Issue?
    ensures !OpensWith(cfg, ops, k, token)
  {
  }

  lemma OpensInside(cfg: Config, ops: seq<Op>, k: nat, token: string)
    requires OpensWith(cfg, ops, k, token)
    ensures k < |ops|
  {
  }

  lemma IssuedInside(ops: seq<Op>, k: nat, token: string)
    requires IssuedAt(ops, k, token)
    ensures k < |ops| && ops[k].Issue? && ops[k].token == token
  {
  }

  /** A token nobody handed out has opened nothing. */
  lemma {:induction false} UsedWasIssued(cfg: Config, ops: seq<Op>, token: string)
    requires Plausible(ops) && UsedUp(cfg, ops, token)
    ensures exists i: nat :: IssuedAt(ops, i, token)
    decreases |ops|, 0
  {
    var k: nat :| OpensWith(cfg, ops, k, token);
    var before := ops[..k];
    StoreIsHistory(cfg, before, token, ops[k].now);
    UnlockDecides(cfg, Run(cfg, before), ops[k].host, ops[k].submitted, ops[k].proof, ops[k].now);
    assert Good(cfg, before, token, ops[k].now);
    var i: nat :| IssuedAt(before, i, token);
    assert IssuedAt(ops, i, token);
  }

  /** In every reachable state the store accepts a token exactly when the history says it is good. The history knows
      nothing of what was collected when. */
  lemma {:induction false} StoreIsHistory(cfg: Config, ops: seq<Op>, token: string, t: int)
    requires Plausible(ops) && NotBefore(ops, t)
    ensures Accepts(Run(cfg, ops), token, t) <==> Good(cfg, ops, token, t)
    decreases |ops|, 0
  {
    hide Step, Accepts, Good, UsedUp, OpensWith, IssuedAt;
    if ops == [] {
      EmptyHistory(cfg, token, t);
    } else {
      var init, op := ops[..|ops| - 1], ops[|ops| - 1];
      assert ops == init + [op];
      StoreIsHistory(cfg, init, token, t);
      AcceptsStep(cfg, Run(cfg, init), op, token, t);
      GoodStep(cfg, init, op, token, t);
      PrefixSame(cfg, init, op, |init|, token);
      FreshIsUnused(cfg, init, op, token);
    }
  }

  lemma {:induction false} FreshIsUnused(cfg: Config, init: seq<Op>, op: Op, token: string)
    requires Plausible(init + [op])
    ensures op.Issue? && op.token == token ==> !UsedUp(cfg, init, token)
    decreases |init|, 1
  {
    hide UsedUp, IssuedAt;
    var all := init + [op];
    assert all[|init|] == op && all[..|init|] == init;
    if UsedUp(cfg, init, token) {
      UsedWasIssued(cfg, init, token);
      var i: nat :| IssuedAt(init, i, token);
      IssuedInside(init, i, token);
      assert all[i] == init[i];
    }
  }

  lemma EmptyHistory(cfg: Config, token: string, t: int)
    ensures !Accepts(Run(cfg, []), token, t) && !Good(cfg, [], token, t)
  {
  }

  /** A request opens the window with a token exactly when it comes from loopback with the right proof and the token is
      good: handed out at most `challengeExpiry` ago, and not used by an earlier request. */
  lemma OpensExactly(cfg: Config, ops: seq<Op>, k: nat, token: string)
    requires Plausible(ops) && k < |ops|
    ensures OpensWith(cfg, ops, k, token) <==>
            ops[k].Unlock? && Loopback(ops[k].host) && ops[k].submitted == Some(token) && token != "" &&
            Truthy(ops[k].proof) && ops[k].proof.value == cfg.capability && Good(cfg, ops[..k], token, ops[k].now)
  {
    hide Good, UnlockEffect;
    StoreIsHistory(cfg, ops[..k], token, ops[k].now);
    if ops[k].Unlock? {
      UnlockDecides(cfg, Run(cfg, ops[..k]), ops[k].host, ops[k].submitted, ops[k].proof, ops[k].now);
    }
  }

  /** Each token opens the window at most once, and only from its issue to its expiry. */
  lemma OpensOnceInTime(cfg: Config, ops: seq<Op>, k: nat, token: string)
    requires Plausible(ops) && OpensWith(cfg, ops, k, token)
    ensures forall j: nat :: OpensWith(cfg, ops, j, token) ==> j == k
    ensures exists i: nat ::
              i < k && IssuedAt(ops, i, token) && ops[i].now <= ops[k].now <= ops[i].now + cfg.challengeExpiry
  {
    hide Run, Step, OutcomeAt;
    forall j: nat | OpensWith(cfg, ops, j, token) ensures j == k {
      NotTwice(cfg, ops, j, k, token);
      NotTwice(cfg, ops, k, j, token);
    }
    OpensExactly(cfg, ops, k, token);
    var i: nat :| IssuedAt(ops[..k], i, token) && ops[k].now <= ops[..k][i].now + cfg.challengeExpiry;
    assert IssuedAt(ops, i, token);
  }

  lemma NotTwice(cfg: Config, ops: seq<Op>, j: nat, k: nat, token: string)
    requires Plausible(ops) && OpensWith(cfg, ops, j, token) && OpensWith(cfg, ops, k, token)
    ensures !(j < k)
  {
    hide Run, Step, Good;
    OpensExactly(cfg, ops, k, token);
    if j < k {
      UsedNotGood(cfg, ops, j, k, token);
    }
  }

  lemma UsedNotGood(cfg: Config, ops: seq<Op>, j: nat, k: nat, token: string)
    requires j < k < |ops| && OpensWith(cfg, ops, j, token)
    ensures !Good(cfg, ops[..k], token, ops[k].now)
  {
    hide Run, Step;
    assert ops[..k][..j] == ops[..j];
    assert OpensWith(cfg, ops[..k], j, token);
  }

  /** A request with a wrong proof is refused and uses up no token: afterwards exactly the same tokens are good. */
  lemma WrongProofKeepsToken(cfg: Config, ops: seq<Op>, op: Op, token: string, t: int)
    requires Plausible(ops + [op]) && op.now <= t
    requires op.Unlock? && Truthy(op.proof) && op.proof.value != cfg.capability
    ensures Step(cfg, Run(cfg, ops), op).1.Refused?
    ensures Good(cfg, ops + [op], token, t) <==> Good(cfg, ops, token, t)
  {
    hide Good, Run;
    var all := ops + [op];
    assert all[|ops|] == op && all[..|ops|] == ops;
    OpensExactly(cfg, all, |ops|, token);
    GoodStep(cfg, ops, op, token, t);
  }

  // ---- Collection is invisible ---------------------------------------------------------------------

  /** The run without its collections. */
  function Erase(ops: seq<Op>): seq<Op> {
    if ops == [] then []
    else Erase(ops[..|ops| - 1]) + (if ops[|ops| - 1].Collect? then [] else [ops[|ops| - 1]])
  }

  /** An outcome as the caller sees it, with the texts of refusals left out. */
  function Visible(out: Outcome): Outcome {
    if out.Refused? then Refused(NativeRequired) else out
  }

  /** The visible outcomes of all requests that are not collections. */
  function Answers(cfg: Config, ops: seq<Op>): seq<Outcome> {
    if ops == [] then []
    else
      var init, op := ops[..|ops| - 1], ops[|ops| - 1];
      Answers(cfg, init) + if op.Collect? then [] else [Visible(Step(cfg, Run(cfg, init), op).1)]
  }

  /** Two states nobody can tell apart from time `t` on. */
  ghost predicate Alike(s: State, u: State, t: int) {
    s.until == u.until && forall token, later :: t <= later ==> (Accepts(s, token, later) <==> Accepts(u, token, later))
  }

  lemma AlikeStep(cfg: Config, s: State, u: State, op: Op, t: int)
    requires Alike(s, u, t) && t <= op.now
    ensures Alike(Step(cfg, s, op).0, Step(cfg, u, op).0, op.now)
    ensures !op.Collect? ==> Visible(Step(cfg, s, op).1) == Visible(Step(cfg, u, op).1)
  {
    SameAnswer(cfg, s, u, op, t);
    hide Step, Accepts;
    forall token, later | op.now <= later
      ensures Accepts(Step(cfg, s, op).0, token, later) <==> Accepts(Step(cfg, u, op).0, token, later)
    {
      AcceptsStep(cfg, s, op, token, later);
      AcceptsStep(cfg, u, op, token, later);
    }
  }

  lemma SameAnswer(cfg: Config, s: State, u: State, op: Op, t: int)
    requires Alike(s, u, t) && t <= op.now
    ensures Step(cfg, s, op).0.until == Step(cfg, u, op).0.until
    ensures !op.Collect? ==> Visible(Step(cfg, s, op).1) == Visible(Step(cfg, u, op).1)
  {
    hide Loopback, Window.Query, Window.Remaining;
    if op.Unlock? && Truthy(op.submitted) {
      assert Accepts(s, op.submitted.value, op.now) <==> Accepts(u, op.submitted.value, op.now);
    }
  }

  lemma CollectAlike(cfg: Config, s: State, u: State, now: int, t: int)
    requires Alike(s, u, t) && t <= now
    ensures Alike(Cleanup(s, now), u, now)
  {
  }

  lemma AlikeLater(s: State, u: State, t: int, later: int)
    requires Alike(s, u, t) && t <= later
    ensures Alike(s, u, later)
  {
    hide Accepts;
  }

  lemma {:induction false} ErasedAlike(cfg: Config, ops: seq<Op>, t: int)
    requires Plausible(ops) && NotBefore(ops, t)
    ensures Alike(Run(cfg, ops), Run(cfg, Erase(ops)), t)
    ensures Answers(cfg, ops) == Answers(cfg, Erase(ops))
  {
    hide Step, Alike, Visible;
    if ops == [] {
      AlikeSelf(Run(cfg, ops), t);
    } else {
      var init, op := ops[..|ops| - 1], ops[|ops| - 1];
      ErasedAlike(cfg, init, op.now);
      var s, u := Run(cfg, init), Run(cfg, Erase(init));
      if op.Collect? {
        CollectAlike(cfg, s, u, op.now, op.now);
        StepCollect(cfg, s, op.now);
        assert Erase(ops) == Erase(init);
        AlikeLater(Run(cfg, ops), u, op.now, t);
      } else {
        AlikeStep(cfg, s, u, op, op.now);
        var e := Erase(ops);
        assert e[..|e| - 1] == Erase(init) && e[|e| - 1] == op;
        AlikeLater(Run(cfg, ops), Run(cfg, e), op.now, t);
      }
    }
  }

  lemma StepCollect(cfg: Config, s: State, now: int)
    ensures Step(cfg, s, Collect(now)).0 == Cleanup(s, now)
  {
  }

  lemma AlikeSelf(s: State, t: int)
    ensures Alike(s, s, t)
  {
  }

  /** Inserting collections anywhere, or leaving them out, changes no answer: runs that differ only in their
      collections accept and refuse the same requests and report the same statuses. */
  lemma CollectionIsInvisible(cfg: Config, ops: seq<Op>, ops': seq<Op>)
    requires Plausible(ops) && Plausible(ops') && Erase(ops) == Erase(ops')
    ensures Answers(cfg, ops) == Answers(cfg, ops')
  {
    hide Run, Answers, Erase, Alike;
    ErasedAlike(cfg, ops, if ops == [] then 0 else ops[|ops| - 1].now);
    ErasedAlike(cfg, ops', if ops' == [] then 0 else ops'[|ops'| - 1].now);
  }
}
