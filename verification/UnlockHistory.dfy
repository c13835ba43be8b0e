// When the console's window is open, and what each answer of the security endpoints means
// (src/intake/local_console/api/security.py, lines 125-446).
module UnlockHistory {
  import opened Prelude
  import opened SecureUnlock
  import Window = UnlockWindow

  /** The four names a request from this machine comes under. */
  predicate Local(host: Option<string>) {
    host in {Some("127.0.0.1"), Some("::1"), Some("localhost"), Some("testclient")}
  }

  /** Missing or empty. */
  predicate Absent(o: Option<string>) {
    o in {None, Some("")}
  }

  // ---- Refusals ------------------------------------------------------------------------------

  /** When an unlock request is refused, check by check, and when it opens. */
  predicate Warranted(
    cfg: Config, s: State, host: Option<string>, token: Option<string>, proof: Option<string>, now: int,
    answer: Option<Reason>)
  {
    var both := Local(host) && !Absent(token) && !Absent(proof);
    var known := both && token.value in s.store;
    var timely := known && now <= s.store[token.value].expiresAt;
    var unused := timely && !s.store[token.value].consumed;
    match answer
    case Some(NotLoopback) => !Local(host)
    case Some(ProofMissing) => Local(host) && !Absent(token) && Absent(proof)
    case Some(TokenMissing) => Local(host) && Absent(token) && !Absent(proof)
    case Some(UnknownToken) => both && !known
    case Some(TokenExpired) => known && !timely
    case Some(TokenUsed) => timely && !unused
    case Some(WrongProof) => unused && proof.value != cfg.capability
    case Some(NativeRequired) => Local(host) && Absent(token) && Absent(proof) && !cfg.devInsecure
    case None =>
      || (unused && proof.value == cfg.capability)
      || (Local(host) && Absent(token) && Absent(proof) && cfg.devInsecure)
  }

  /** The reason of a refusal. */
  function Refusal(out: Outcome): Option<Reason> {
    if out.Refused? then Some(out.reason) else None
  }

  /** Every refusal is given exactly when it is warranted, and so is every opening; an opening reports its mode and the
      whole time to live. */
  lemma UnlockAnswers(
    cfg: Config, s: State, host: Option<string>, token: Option<string>, proof: Option<string>, now: int,
    answer: Option<Reason>)
    ensures var (s', out) := UnlockEffect(cfg, s, host, token, proof, now);
            && (Refusal(out) == answer <==> Warranted(cfg, s, host, token, proof, now, answer))
            && (out.Refused? ==> s'.until == s.until)
            && (!out.Refused? ==>
                  out == Status(cfg.unlockTtl >= 0, if cfg.unlockTtl > 0 then cfg.unlockTtl else 0,
                                if Absent(token) then DevInsecure else NativeOsAuth)
                  && s'.until == if cfg.unlockTtl >= 0 then Some(now + cfg.unlockTtl) else None)
  {
  }

  // ---- The window over every run ----------------------------------------------------------------

  /** Request `k` is entitled to open the window: from this machine, and either with the right proof and a good
      token, or with neither where insecure development unlocks are on. */
  ghost predicate Opens(cfg: Config, ops: seq<Op>, k: nat) {
    && k < |ops| && ops[k].Unlock? && Local(ops[k].host)
    && (|| (&& !Absent(ops[k].submitted) && !Absent(ops[k].proof) && ops[k].proof.value == cfg.capability
            && Good(cfg, ops[..k], ops[k].submitted.value, ops[k].now))
        || (Absent(ops[k].submitted) && Absent(ops[k].proof) && cfg.devInsecure))
  }

  /** No lock and no opening after request `k`. */
  ghost predicate LastWord(cfg: Config, ops: seq<Op>, k: nat) {
    forall j: nat :: k < j < |ops| ==> !ops[j].Lock? && !Opens(cfg, ops, j)
  }

  /** The window is open at `t` by what the history says. */
  ghost predicate OpenBy(cfg: Config, ops: seq<Op>, k: nat, t: int) {
    Opens(cfg, ops, k) && LastWord(cfg, ops, k) && t <= ops[k].now + cfg.unlockTtl
  }

  /** A request opens the window exactly when it is entitled to. */
  lemma OpensIsAnswer(cfg: Config, ops: seq<Op>, k: nat)
    requires Plausible(ops) && k < |ops|
    ensures Opens(cfg, ops, k) <==> ops[k].Unlock? && !OutcomeAt(cfg, ops, k).Refused?
  {
    hide Good, Run, UnlockEffect, Accepts;
    if ops[k].Unlock? {
      var s, op := Run(cfg, ops[..k]), ops[k];
      UnlockAnswers(cfg, s, op.host, op.submitted, op.proof, op.now, None);
      if !Absent(op.submitted) {
        StoreIsHistory(cfg, ops[..k], op.submitted.value, op.now);
        AcceptsMeans(s, op.submitted.value, op.now);
      }
    }
  }

  lemma AcceptsMeans(s: State, token: string, t: int)
    ensures Accepts(s, token, t) <==> token in s.store && t <= s.store[token].expiresAt && !s.store[token].consumed
  {
  }

  /** How one request moves the stored time. */
  lemma UntilStep(cfg: Config, s: State, op: Op)
    ensures var (s', out) := Step(cfg, s, op);
            && (op.Lock? ==> s'.until == None)
            && (op.Unlock? && !out.Refused? ==>
                  s'.until == if cfg.unlockTtl >= 0 then Some(op.now + cfg.unlockTtl) else None)
            && (!op.Lock? && !(op.Unlock? && !out.Refused?) ==>
                  s'.until == s.until || (s'.until == None && s.until.Some? && s.until.value < op.now))
  {
    if op.Unlock? { UnlockAnswers(cfg, s, op.host, op.submitted, op.proof, op.now, None); }
  }

  lemma OpensPrefix(cfg: Config, init: seq<Op>, op: Op, k: nat)
    requires k < |init|
    ensures Opens(cfg, init + [op], k) <==> Opens(cfg, init, k)
  {
    hide Good;
    assert (init + [op])[..k] == init[..k];
  }

  lemma LastWordStep(cfg: Config, init: seq<Op>, op: Op, k: nat)
    requires k < |init|
    ensures LastWord(cfg, init + [op], k) <==>
            LastWord(cfg, init, k) && !op.Lock? && !Opens(cfg, init + [op], |init|)
  {
    hide Opens;
    var ops := init + [op];
    forall j: nat | k < j < |init| ensures (Opens(cfg, ops, j) <==> Opens(cfg, init, j)) && ops[j] == init[j] {
      OpensPrefix(cfg, init, op, j);
    }
    assert ops[|init|] == op;
    if LastWord(cfg, ops, k) {
      forall j: nat | k < j < |init| ensures !init[j].Lock? && !Opens(cfg, init, j) {
        assert !ops[j].Lock? && !Opens(cfg, ops, j);
      }
    }
  }

  /** What the stored time and the history have to do with each other: a query may have dropped an expired time
      early. */
  ghost predicate Agrees(cfg: Config, ops: seq<Op>) {
    var until := Run(cfg, ops).until;
    && (until.Some? ==>
          exists k: nat :: Opens(cfg, ops, k) && LastWord(cfg, ops, k) && until.value == ops[k].now + cfg.unlockTtl)
    && (forall k: nat :: Opens(cfg, ops, k) && LastWord(cfg, ops, k) ==>
          until == Some(ops[k].now + cfg.unlockTtl) || (until == None && Passed(cfg, ops, k)))
  }

  /** Some request came after the time opened by request `k` had passed, or that time never began. */
  ghost predicate Passed(cfg: Config, ops: seq<Op>, k: nat)
    requires k < |ops|
  {
    exists j :: 0 <= j < |ops| && ops[j].now > ops[k].now + cfg.unlockTtl
  }

  lemma PassedStays(cfg: Config, init: seq<Op>, op: Op, k: nat)
    requires k < |init|
    ensures Passed(cfg, init, k) || op.now > init[k].now + cfg.unlockTtl ==> Passed(cfg, init + [op], k)
  {
    var ops := init + [op];
    assert ops[|init|] == op && ops[k] == init[k];
    if Passed(cfg, init, k) {
      var j :| 0 <= j < |init| && init[j].now > init[k].now + cfg.unlockTtl;
      assert ops[j] == init[j];
    }
  }

  lemma OpensInside(cfg: Config, ops: seq<Op>, k: nat)
    requires Opens(cfg, ops, k)
    ensures k < |ops| && ops[k].Unlock?
  {
  }

  lemma {:induction false} StoredIsHistory(cfg: Config, ops: seq<Op>)
    requires Plausible(ops)
    ensures Agrees(cfg, ops)
  {
    hide Step, Opens, LastWord, Passed;
    if ops == [] {
      forall k: nat ensures !Opens(cfg, ops, k) { if Opens(cfg, ops, k) { OpensInside(cfg, ops, k); } }
    } else {
      var init, op := ops[..|ops| - 1], ops[|ops| - 1];
      assert ops == init + [op];
      StoredIsHistory(cfg, init);
      OpensIsAnswer(cfg, ops, |init|);
      UntilStep(cfg, Run(cfg, init), op);
      forall k: nat | Opens(cfg, ops, k) ensures k < |ops| && ops[k].Unlock? { OpensInside(cfg, ops, k); }
      forall k: nat | Opens(cfg, init, k) ensures k < |init| { OpensInside(cfg, init, k); }
      forall k: nat | k < |init|
        ensures Opens(cfg, ops, k) <==> Opens(cfg, init, k)
        ensures LastWord(cfg, ops, k) <==> LastWord(cfg, init, k) && !op.Lock? && !Opens(cfg, ops, |init|)
        ensures ops[k] == init[k]
        ensures Passed(cfg, init, k) || op.now > init[k].now + cfg.unlockTtl ==> Passed(cfg, ops, k)
      {
        OpensPrefix(cfg, init, op, k);
        LastWordStep(cfg, init, op, k);
        PassedStays(cfg, init, op, k);
      }
      LastIsLast(cfg, ops);
      NewStep(cfg, init, op);
    }
  }

  lemma LastIsLast(cfg: Config, ops: seq<Op>)
    requires ops != []
    ensures LastWord(cfg, ops, |ops| - 1)
    ensures cfg.unlockTtl < 0 ==> Passed(cfg, ops, |ops| - 1)
  {
    assert cfg.unlockTtl < 0 ==> ops[|ops| - 1].now > ops[|ops| - 1].now + cfg.unlockTtl;
  }

  /** One more request keeps the agreement. */
  lemma NewStep(cfg: Config, init: seq<Op>, op: Op)
    requires Agrees(cfg, init)
    requires var ops, n := init + [op], |init|;
             && Run(cfg, ops) == Step(cfg, Run(cfg, init), op).0
             && (Opens(cfg, ops, n) <==> op.Unlock? && !Step(cfg, Run(cfg, init), op).1.Refused?)
             && (forall k: nat :: Opens(cfg, ops, k) ==> k < |ops| && ops[k].Unlock?)
             && (forall k: nat :: Opens(cfg, init, k) ==> k < n)
             && (forall k: nat :: k < n ==>
                   && (Opens(cfg, ops, k) <==> Opens(cfg, init, k))
                   && (LastWord(cfg, ops, k) <==> LastWord(cfg, init, k) && !op.Lock? && !Opens(cfg, ops, n))
                   && (Passed(cfg, init, k) || op.now > init[k].now + cfg.unlockTtl ==> Passed(cfg, ops, k)))
             && LastWord(cfg, ops, n) && (cfg.unlockTtl < 0 ==> Passed(cfg, ops, n))
    ensures Agrees(cfg, init + [op])
  {
    hide Step, Run, Opens, LastWord, Passed;
    var ops, n := init + [op], |init|;
    UntilStep(cfg, Run(cfg, init), op);
    assert forall k: nat :: k < n ==> ops[k] == init[k];
    var until := Run(cfg, ops).until;
    if Opens(cfg, ops, n) {
      assert ops[n] == op;
    } else if until.Some? {
      var k: nat :| Opens(cfg, init, k) && LastWord(cfg, init, k) && until.value == init[k].now + cfg.unlockTtl;
      assert Opens(cfg, ops, k) && LastWord(cfg, ops, k);
    }
  }

  /** After every run the window is open at `t` exactly when some request was entitled to open it, its time to
      live has not passed at `t`, and no lock and no later opening came after it. */
  lemma WindowIsHistory(cfg: Config, ops: seq<Op>, t: int)
    requires Plausible(ops) && NotBefore(ops, t)
    ensures Window.Query(Run(cfg, ops).until, t).0 <==> exists k: nat :: OpenBy(cfg, ops, k, t)
  {
    hide Run, Opens, LastWord, Good;
    StoredIsHistory(cfg, ops);
    forall k: nat | Opens(cfg, ops, k) ensures k < |ops| { OpensInside(cfg, ops, k); }
    var until := Run(cfg, ops).until;
    if until.Some? {
      var k: nat :| Opens(cfg, ops, k) && LastWord(cfg, ops, k) && until.value == ops[k].now + cfg.unlockTtl;
      if t <= until.value { assert OpenBy(cfg, ops, k, t); }
      forall j: nat | OpenBy(cfg, ops, j, t) ensures t <= until.value {}
    }
  }

  /** Where insecure unlocks are off, the window is open only by a good token. */
  lemma OpenOnlyByToken(cfg: Config, ops: seq<Op>, t: int)
    requires Plausible(ops) && NotBefore(ops, t) && !cfg.devInsecure
    ensures Window.Query(Run(cfg, ops).until, t).0 ==>
              exists k: nat, token: string ::
                OpensWith(cfg, ops, k, token) && Good(cfg, ops[..k], token, ops[k].now)
                && t <= ops[k].now + cfg.unlockTtl
  {
    hide Run, LastWord, Good;
    WindowIsHistory(cfg, ops, t);
    if k: nat :| OpenBy(cfg, ops, k, t) {
      var token := ops[k].submitted.value;
      OpensExactly(cfg, ops, k, token);
      assert OpensWith(cfg, ops, k, token);
    }
  }

  /** The status endpoint tells this machine, and no other, whether the window is open by the history, and how long. */
  lemma StatusTells(cfg: Config, ops: seq<Op>, k: nat)
    requires Plausible(ops) && k < |ops| && ops[k].AskStatus?
    ensures var out, now := OutcomeAt(cfg, ops, k), ops[k].now;
            && (out == Refused(NotLoopback) <==> !Local(ops[k].host))
            && (Local(ops[k].host) ==>
                  && out.Status?
                  && (out.isUnlocked <==> exists i: nat :: OpenBy(cfg, ops[..k], i, now))
                  && out.mode == (if out.isUnlocked then NativeOsAuth else NoMode)
                  && (!out.isUnlocked ==> out.remaining == 0)
                  && forall i: nat ::
                       OpenBy(cfg, ops[..k], i, now) ==> out.remaining == ops[i].now + cfg.unlockTtl - now)
  {
    hide Run, Opens, LastWord, Good;
    var before, now := ops[..k], ops[k].now;
    WindowIsHistory(cfg, before, now);
    StoredIsHistory(cfg, before);
    StatusOutcome(Run(cfg, before), ops[k].host, now);
    forall i: nat | OpenBy(cfg, before, i, now)
      ensures i < k && Run(cfg, before).until == Some(ops[i].now + cfg.unlockTtl)
    {
      OpensInside(cfg, before, i);
    }
  }

  lemma StatusOutcome(s: State, host: Option<string>, now: int)
    ensures var out := GetStatus(s, host, now).1;
            if !Local(host) then out == Refused(NotLoopback)
            else
              var open := s.until.Some? && now <= s.until.value;
              out == Status(open, if open then s.until.value - now else 0, if open then NativeOsAuth else NoMode)
  {
  }

  /** The other endpoints: a challenge is good from now to the expiry it names, a lock reports a locked window. */
  lemma OtherAnswers(cfg: Config, s: State, token: string, now: int)
    ensures var (s', out) := Step(cfg, s, Issue(token, now));
            && out == Issued(token, now + cfg.challengeExpiry)
            && (forall t :: now <= t ==> (Accepts(s', token, t) <==> t <= now + cfg.challengeExpiry))
    ensures Step(cfg, s, Op.Lock(now)) == (s.(until := None), Status(false, 0, NoMode))
    ensures Step(cfg, s, Collect(now)).1 == Cleaned(|set t | t in s.store && now > s.store[t].expiresAt|)
  {
    assert Expired(s, now) == set t | t in s.store && now > s.store[t].expiresAt;
  }
}
