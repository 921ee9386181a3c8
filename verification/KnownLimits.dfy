/** Concrete policies and runs behind the conditions that the theorems carry. */
module KnownLimits {
  import opened Base
  import opened PolicyFile
  import opened CertIssuer
  import opened Match
  import opened Server
  import opened SigningRuns
  import opened StopWindow
  import KeyId
  import TokenTime

  /** One rule for issuer "i" and audience "a": principal "p", key ID "k", the longest TTL allowed. */
  function SamplePolicy(max: int, offset: int, disabled: bool): Policy {
    Policy(1, disabled, Defaults(Some(offset), Some(max), [], None, Some(max), "k", []), [SampleRule()])
  }

  function SampleRule(): Rule {
    Rule("r", None, Some(JwtMatch("i", "a", "", "", map[])), CertificateRule(["p"], None, "", None, "", []))
  }

  function SampleRequest(): Request {
    Request(true, 100, Key(PublicKey(ED25519, "")), Some(Token(Some("i"))))
  }

  function SampleVerified(): Verified {
    Verified(["a"], map["exp" := KeyId.Number(1000.0)])
  }

  lemma SampleTemplate(claims: KeyId.Claims)
    ensures KeyId.AcceptedTemplate("k") && KeyId.KeyIdOf("k", claims) == Ok("k")
  {
    assert KeyId.Scan("k") == [KeyId.Ch('k')];
    assert KeyId.Refs([KeyId.Ch('k')]) == [];
    assert KeyId.Substitute([KeyId.Ch('k')], claims) == "k";
  }

  lemma SampleRuleOk(max: int, offset: int, disabled: bool, cidr: string -> bool)
    requires 0 < max
    ensures RuleOk(SamplePolicy(max, offset, disabled), SampleRule(), cidr)
  {
    SampleTemplate(map[]);
  }

  lemma SampleDefaultsOk(max: int, offset: int, disabled: bool, cidr: string -> bool)
    requires 0 < max
    ensures DefaultsOk(SamplePolicy(max, offset, disabled), cidr)
  {
    SampleTemplate(map[]);
  }

  lemma SampleWellFormed(max: int, offset: int, disabled: bool, cidr: string -> bool)
    requires 0 < max
    ensures WellFormed(SamplePolicy(max, offset, disabled), cidr)
  {
    SampleRuleOk(max, offset, disabled, cidr);
    SampleDefaultsOk(max, offset, disabled, cidr);
  }

  lemma SampleAuthorized(max: int, offset: int)
    ensures var p := SamplePolicy(max, offset, false);
      && Screen(p, SampleRequest()).None?
      && PassesGate(IssuersOf(p.rules), SampleRequest().token.value)
      && Authenticate("i", Some(SampleVerified()), 0) == Some(Identity("i", ["a"], SampleVerified().claims))
      && Authorize(p, Identity("i", ["a"], SampleVerified().claims)) == Ok(Grant(SampleRule(), "k"))
  {
    var p := SamplePolicy(max, offset, false);
    var id := Identity("i", ["a"], SampleVerified().claims);
    SampleTemplate(id.claims);
    assert IssuersOf(p.rules[..0]) == [];
    assert IssuersOf(p.rules) == ["i"];
    assert MatchingRules(p.rules[..0], id) == [];
    assert Applies(SampleRule(), id);
    assert MatchingRules(p.rules, id) == [SampleRule()];
    assert TokenTime.NumericClaim(id.claims, "exp") == Some(1000 * SECOND);
  }

  lemma SampleDecides(max: int, offset: int, env: Env)
    requires env.verified == Some(SampleVerified()) && env.verifiedAt == 0
    ensures var p := SamplePolicy(max, offset, false);
      Decide(p, SampleRequest(), env) == Conclude(p, Grant(SampleRule(), "k"), SampleRequest().body.key, env)
  {
    SampleAuthorized(max, offset);
  }

  lemma SampleTimes(max: int, offset: int, env: Env)
    requires env.signerWorks
    ensures var p := SamplePolicy(max, offset, false);
      var o := Conclude(p, Grant(SampleRule(), "k"), SampleRequest().body.key, env);
      && o.Issued? && o.certificate.validAfter == ToUint64(Unix(env.signedAt + SecondsDuration(offset)))
      && o.certificate.validBefore == ToUint64(Unix(env.signedAt + SecondsDuration(max)))
  {
  }

  /** Validation accepts an offset that leaves a certificate no time at all, whatever the TTL. */
  lemma EmptyWindowAccepted(ttl: int, cidr: string -> bool)
    requires 0 < ttl <= MAX_DURATION_SECONDS
    ensures WellFormed(SamplePolicy(ttl, ttl, false), cidr)
    ensures var o := Decide(SamplePolicy(ttl, ttl, false), SampleRequest(), SampleEnv(0));
      o.Issued? && o.certificate.validAfter == o.certificate.validBefore == ttl
  {
    SampleWellFormed(ttl, ttl, false, cidr);
    SampleDecides(ttl, ttl, SampleEnv(0));
    SampleTimes(ttl, ttl, SampleEnv(0));
    WindowExact(0, ttl, ttl);
  }

  /** The sample request under the first of these policies. */
  function SampleAt(installed: seq<Policy>, clock: nat, providers: set<string>, pc: Pc): State {
    State(clock, installed, map[0 := Flight(SampleRequest(), 0, pc)], [], providers)
  }

  function SampleEnv(pause: nat): Env {
    Env(Some(SampleVerified()), 0, pause, true)
  }

  function SampleOutcome(p: Policy, pause: nat): Outcome {
    Conclude(p, Grant(SampleRule(), "k"), SampleRequest().body.key, SampleEnv(pause))
  }

  /** From loading the policy to the certificate, with a pause before the clock is read. */
  function SampleRun(pause: nat): seq<Action> {
    [Step(0, SIGN), Step(0, SIGN), Step(0, Choice(Some(SampleVerified()), true)), Tick(pause),
     Step(0, SIGN), Step(0, SIGN)]
  }

  lemma SamplePresents(installed: seq<Policy>, max: int, cidr: string -> bool)
    requires installed != [] && installed[0] == SamplePolicy(max, 0, false)
    ensures Perform(SampleAt(installed, 0, {}, Loaded(0)), Step(0, SIGN), cidr)
         == SampleAt(installed, 0, {}, Presented(0))
  {
    SampleAuthorized(max, 0);
  }

  lemma SamplePassesGate(installed: seq<Policy>, max: int, cidr: string -> bool)
    requires installed != [] && installed[0] == SamplePolicy(max, 0, false)
    ensures Perform(SampleAt(installed, 0, {}, Presented(0)), Step(0, SIGN), cidr)
         == SampleAt(installed, 0, {"i"}, Verifying(0))
  {
    SampleAuthorized(max, 0);
  }

  lemma SampleVerifies(installed: seq<Policy>, max: int, cidr: string -> bool)
    requires installed != [] && installed[0] == SamplePolicy(max, 0, false)
    ensures Perform(SampleAt(installed, 0, {"i"}, Verifying(0)), Step(0, Choice(Some(SampleVerified()), true)), cidr)
         == SampleAt(installed, 0, {"i"}, Approved(0, SampleVerified(), 0, Grant(SampleRule(), "k")))
  {
    SampleAuthorized(max, 0);
  }

  /** Approved at 0, the request pauses and is signed. */
  lemma SampleSigned(installed: seq<Policy>, pause: nat, cidr: string -> bool)
    requires installed != []
    ensures var approved := Approved(0, SampleVerified(), 0, Grant(SampleRule(), "k"));
      var s := Perform(SampleAt(installed, 0, {"i"}, approved), Tick(pause), cidr);
      Perform(Perform(s, Step(0, SIGN), cidr), Step(0, SIGN), cidr)
      == SampleAt(installed, pause, {"i"}, Concluded(0, SampleEnv(pause), SampleOutcome(installed[0], pause)))
  {
    var v, g := SampleVerified(), Grant(SampleRule(), "k");
    var s := SampleAt(installed, pause, {"i"}, Approved(0, v, 0, g));
    assert Perform(SampleAt(installed, 0, {"i"}, Approved(0, v, 0, g)), Tick(pause), cidr) == s;
    assert Perform(s, Step(0, SIGN), cidr) == SampleAt(installed, pause, {"i"}, Stamped(0, v, 0, g, pause));
  }

  lemma SampleConcludes(installed: seq<Policy>, max: int, pause: nat, cidr: string -> bool)
    requires installed != [] && installed[0] == SamplePolicy(max, 0, false)
    ensures Exec(SampleAt(installed, 0, {}, Loaded(0)), SampleRun(pause), cidr)
         == SampleAt(installed, pause, {"i"}, Concluded(0, SampleEnv(pause), SampleOutcome(installed[0], pause)))
  {
    var step, verify, wait := Step(0, SIGN), Step(0, Choice(Some(SampleVerified()), true)), Tick(pause);
    var s := SampleAt(installed, 0, {}, Loaded(0));
    var s1 := Perform(s, step, cidr);
    var s2 := Perform(s1, step, cidr);
    var s3 := Perform(s2, verify, cidr);
    var s4 := Perform(s3, wait, cidr);
    var s5 := Perform(s4, step, cidr);
    SamplePresents(installed, max, cidr);
    SamplePassesGate(installed, max, cidr);
    SampleVerifies(installed, max, cidr);
    SampleSigned(installed, pause, cidr);
    ExecCons(s5, step, [], cidr);
    ExecCons(s4, step, [step], cidr);
    ExecCons(s3, wait, [step, step], cidr);
    ExecCons(s2, verify, [wait, step, step], cidr);
    ExecCons(s1, step, [verify, wait, step, step], cidr);
    ExecCons(s, step, [step, verify, wait, step, step], cidr);
    assert SampleRun(pause) == [step] + [step, verify, wait, step, step];
  }

  lemma SampleEnds(max: int, seconds: nat)
    requires 0 < max <= MAX_DURATION_SECONDS && seconds <= MAX_DURATION_SECONDS
    ensures var o := SampleOutcome(SamplePolicy(max, 0, false), seconds * SECOND);
      o.Issued? && o.certificate.validBefore == seconds + max
  {
    ConcludedEnd(SamplePolicy(max, 0, false), Grant(SampleRule(), "k"), SampleRequest().body.key,
                 SampleEnv(seconds * SECOND));
    WindowExact(seconds * SECOND, max, 0);
  }

  /** A request that has loaded the sample policy. */
  lemma SampleLoaded(max: int, cidr: string -> bool)
    requires 0 < max
    ensures Reachable(SampleAt([SamplePolicy(max, 0, false)], 0, {}, Loaded(0)), cidr)
  {
    var p := SamplePolicy(max, 0, false);
    SampleWellFormed(max, 0, false, cidr);
    assert Exec(Init(p, 0), [], cidr) == Init(p, 0);
    ReachableNext(Init(p, 0), Receive(0, SampleRequest()), cidr);
    var s := Perform(Init(p, 0), Receive(0, SampleRequest()), cidr);
    ReachableNext(s, Step(0, SIGN), cidr);
    assert Perform(s, Step(0, SIGN), cidr).flights == map[0 := Flight(SampleRequest(), 0, Loaded(0))];
  }

  /**
   A request loads the policy, then the policy is disabled: pausing for a second
   before it reads the clock is enough to get a certificate that is still valid
   when the documented window is over.
   */
  lemma DocumentedWindowFails(cidr: string -> bool) returns (s: State, acts: seq<Action>, id: RequestId)
    ensures Reachable(s, cidr) && Stopped(s) && Ceiling(s, s.installed[|s.installed| - 1].MaxValidFor())
    ensures StaysStopped(acts, cidr) && Exec(s, acts, cidr).clock == s.clock + SECOND
    ensures IsIssued(Exec(s, acts, cidr), id)
    ensures CertificateFor(Exec(s, acts, cidr), id).validBefore * SECOND == WindowEnd(s) + SECOND
    ensures !WindowHolds(s, cidr)
  {
    var p, q := SamplePolicy(900, 0, false), SamplePolicy(900, 0, true);
    s, acts, id := SampleAt([p, q], 0, {}, Loaded(0)), SampleRun(SECOND), 0;
    LoadedThenStopped(p, q, cidr);
    SampleConcludes([p, q], 900, SECOND, cidr);
    SampleEnds(900, 1);
    LateRefutesWindow(s, acts, id, cidr);
  }

  lemma LoadedThenStopped(p: Policy, q: Policy, cidr: string -> bool)
    requires p == SamplePolicy(900, 0, false) && q == SamplePolicy(900, 0, true)
    ensures Reachable(SampleAt([p, q], 0, {}, Loaded(0)), cidr)
  {
    var loaded := SampleAt([p], 0, {}, Loaded(0));
    SampleLoaded(900, cidr);
    SampleWellFormed(900, 0, true, cidr);
    ReachableNext(loaded, Reload(Some(q)), cidr);
    assert Perform(loaded, Reload(Some(q)), cidr) == SampleAt([p, q], 0, {}, Loaded(0));
  }

  /** One certificate that is valid too long refutes the window. */
  lemma LateRefutesWindow(s: State, acts: seq<Action>, id: RequestId, cidr: string -> bool)
    requires StaysStopped(acts, cidr) && Exec(s, acts, cidr).clock <= END_OF_TIME
    requires IsIssued(Exec(s, acts, cidr), id) && s.installed != []
    requires WindowEnd(s) < CertificateFor(Exec(s, acts, cidr), id).validBefore * SECOND
    ensures !WindowHolds(s, cidr)
  {
  }

  /**
   A finished request holds a certificate for an hour; the policy that then stops
   issuance lowers the ceiling to a quarter of one. Nothing is in flight, and the
   documented window does not hold.
   */
  lemma LoweredCeilingFails(cidr: string -> bool) returns (s: State, id: RequestId)
    ensures Reachable(s, cidr) && Stopped(s)
    ensures forall t :: t in s.flights ==> s.flights[t].pc.Done? && !MaySignLater(s, s.flights[t])
    ensures WindowEnd(s) == s.clock + 900 * SECOND
    ensures IsIssued(s, id) && CertificateFor(s, id).validBefore * SECOND == s.clock + 3600 * SECOND
    ensures !WindowHolds(s, cidr)
  {
    s, id := LoweredState(), 0;
    LoweredReached(cidr);
    SampleEnds(3600, 0);
    LateRefutesWindow(s, [], id, cidr);
  }

  function LoweredState(): State {
    var p, q := SamplePolicy(3600, 0, false), SamplePolicy(900, 0, true);
    var o := SampleOutcome(p, 0);
    State(0, [p, q], map[0 := Flight(SampleRequest(), 0, Done(0, SampleEnv(0), o, 0, 0))], [EventOf(0, o)], {"i"})
  }

  lemma LoweredReached(cidr: string -> bool)
    ensures Reachable(LoweredState(), cidr)
  {
    var p, q := SamplePolicy(3600, 0, false), SamplePolicy(900, 0, true);
    var signed := SampleAt([p], 0, {"i"}, Concluded(0, SampleEnv(0), SampleOutcome(p, 0)));
    SampleLoaded(3600, cidr);
    SampleConcludes([p], 3600, 0, cidr);
    ReachableMore(SampleAt([p], 0, {}, Loaded(0)), SampleRun(0), cidr);
    ReachableNext(signed, Step(0, SIGN), cidr);
    LoweredFinish(signed, p, q, cidr);
    ReachableNext(Perform(signed, Step(0, SIGN), cidr), Reload(Some(q)), cidr);
  }

  /** The certificate is logged, then the stopped policy arrives. */
  lemma LoweredFinish(signed: State, p: Policy, q: Policy, cidr: string -> bool)
    requires p == SamplePolicy(3600, 0, false) && q == SamplePolicy(900, 0, true)
    requires signed == SampleAt([p], 0, {"i"}, Concluded(0, SampleEnv(0), SampleOutcome(p, 0)))
    ensures Perform(Perform(signed, Step(0, SIGN), cidr), Reload(Some(q)), cidr) == LoweredState()
  {
    SampleWellFormed(900, 0, true, cidr);
    var flights := Perform(signed, Step(0, SIGN), cidr).flights;
    assert flights == map[0 := Flight(SampleRequest(), 0, Done(0, SampleEnv(0), SampleOutcome(p, 0), 0, 0))];
  }
}
