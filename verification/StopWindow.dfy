/**
 How long certificates can outlast an emergency stop. The documentation
 (docs/policy.md, docs/operations.md) promises the TTL ceiling of the policy file
 after the policy is disabled; that overlooks requests in flight and certificates
 made under an earlier, higher ceiling. This module shows exactly when it holds.
 */
module StopWindow {
  import opened Base
  import opened PolicyFile
  import opened CertIssuer
  import opened Server
  import opened SigningRuns

  /** No clock gets past 2^62 seconds. */
  const END_OF_TIME := TWO_64 / 4 * SECOND

  /** Presented at this time with this verification result, the request would be granted. */
  predicate GrantedBy(p: Policy, req: Request, verified: Verified, at: nat) {
    && req.token.Some? && PassesGate(IssuersOf(p.rules), req.token.value)
    && var id := Authenticate(req.token.value.issuer.value, Some(verified), at);
    && id.Some? && Authorize(p, id.value).Ok?
  }

  /** Its token might still turn out to be one that the policy lets in. */
  ghost predicate CouldBeGranted(p: Policy, req: Request, from: nat) {
    exists verified, at :: from <= at <= END_OF_TIME && GrantedBy(p, req, verified, at)
  }

  /** The request holds a policy under which it can still read the clock for a certificate. */
  ghost predicate MaySignLater(s: State, f: Flight) {
    match f.pc
    case Loaded(pol) =>
      && pol < |s.installed| && Screen(s.installed[pol], f.request).None?
      && CouldBeGranted(s.installed[pol], f.request, s.clock)
    case Presented(pol) => pol < |s.installed| && CouldBeGranted(s.installed[pol], f.request, s.clock)
    case Verifying(pol) => pol < |s.installed| && CouldBeGranted(s.installed[pol], f.request, s.clock)
    case Approved(_, _, _, _) => true
    case _ => false
  }

  /** Every certificate of every continuation without an enabled policy ends by the limit. */
  ghost predicate AllEndBy(s: State, limit: int, cidr: string -> bool) {
    forall acts, id ::
      && StaysStopped(acts, cidr)
      && Exec(s, acts, cidr).clock <= END_OF_TIME
      && IsIssued(Exec(s, acts, cidr), id)
      ==> CertificateFor(Exec(s, acts, cidr), id).validBefore * SECOND <= limit
  }

  /** When, by the documentation, no valid certificate exists any more: the stopped policy's own ceiling from now. */
  function WindowEnd(s: State): int
    requires s.installed != []
  {
    s.clock + s.installed[|s.installed| - 1].MaxValidFor() * SECOND
  }

  /** The documented emergency-stop window. */
  ghost predicate WindowHolds(s: State, cidr: string -> bool)
    requires s.installed != []
  {
    AllEndBy(s, WindowEnd(s), cidr)
  }

  /** The moment at which a certificate ends that is signed for the rule at this time. */
  function EndIfSigned(p: Policy, r: Rule, signedAt: int): int {
    ToUint64(Unix(signedAt + SecondsDuration(p.ValidFor(r)))) * SECOND
  }

  // --------------------------------------------------------------- the limit holds if nothing is late

  /** The request has no certificate that ends after the limit and will not get one. */
  ghost predicate Harmless(s: State, f: Flight, limit: int) {
    && !MaySignLater(s, f)
    && (f.pc.Stamped? && f.pc.pol < |s.installed| ==>
          EndIfSigned(s.installed[f.pc.pol], f.pc.grant.rule, f.pc.signedAt) <= limit)
    && (f.pc.HasOutcome() && f.pc.outcome.Issued? ==> f.pc.outcome.certificate.validBefore * SECOND <= limit)
  }

  ghost predicate AllHarmless(s: State, limit: int) {
    forall id :: id in s.flights ==> Harmless(s, s.flights[id], limit)
  }

  lemma ConcludedEnd(p: Policy, g: Grant, key: PublicKey, env: Env)
    ensures Conclude(p, g, key, env).Issued? <==> env.signerWorks
    ensures env.signerWorks ==>
              Conclude(p, g, key, env).certificate.validBefore * SECOND == EndIfSigned(p, g.rule, env.signedAt)
  {
  }

  /** A request that has read the clock is signed with what it read, or not at all. */
  lemma StampedStep(s: State, id: RequestId, choice: Choice)
    requires CanStep(s, id) && s.flights[id].pc.Stamped?
    ensures var f, f' := s.flights[id], Advance(s, id, choice).flights[id];
      && f'.pc.Concluded? && (f'.pc.outcome.Issued? <==> choice.signerWorks)
      && (choice.signerWorks ==>
            f'.pc.outcome.certificate.validBefore * SECOND
            == EndIfSigned(s.installed[f.pc.pol], f.pc.grant.rule, f.pc.signedAt))
  {
    var f := s.flights[id];
    ConcludedEnd(s.installed[f.pc.pol], f.pc.grant, f.request.body.key,
                 Env(Some(f.pc.verified), f.pc.verifiedAt, f.pc.signedAt, choice.signerWorks));
  }

  lemma VerifyingStep(s: State, id: RequestId, choice: Choice, limit: int)
    requires CanStep(s, id) && Harmless(s, s.flights[id], limit) && s.clock <= END_OF_TIME
    requires s.flights[id].pc.Verifying? && FlightOk(s, id)
    ensures Harmless(Advance(s, id, choice), Advance(s, id, choice).flights[id], limit)
  {
    var f := s.flights[id];
    if choice.verified.Some? {
      assert !GrantedBy(s.installed[f.pc.pol], f.request, choice.verified.value, s.clock);
    }
  }

  lemma EarlyStep(s: State, id: RequestId, choice: Choice, limit: int)
    requires CanStep(s, id) && Harmless(s, s.flights[id], limit) && FlightOk(s, id)
    requires s.flights[id].pc.Loaded? || s.flights[id].pc.Presented? || s.flights[id].pc.Concluded?
    ensures Harmless(Advance(s, id, choice), Advance(s, id, choice).flights[id], limit)
  {
  }

  lemma HarmlessStep(s: State, id: RequestId, choice: Choice, limit: int, cidr: string -> bool)
    requires Inv(s, cidr) && Stopped(s) && CanStep(s, id) && s.clock <= END_OF_TIME
    requires Harmless(s, s.flights[id], limit)
    ensures Harmless(Advance(s, id, choice), Advance(s, id, choice).flights[id], limit)
  {
    assert FlightOk(s, id);
    var f := s.flights[id];
    if f.pc.Stamped? {
      StampedStep(s, id, choice);
    } else if f.pc.Verifying? {
      VerifyingStep(s, id, choice, limit);
    } else if !f.pc.Received? {
      EarlyStep(s, id, choice, limit);
    }
  }

  /** What cannot be granted from some time on cannot be granted later; new policies do not reach old requests. */
  lemma HarmlessFrame(s: State, s': State, f: Flight, limit: int)
    requires Harmless(s, f, limit) && s.clock <= s'.clock && s.installed <= s'.installed
    requires !f.pc.Received? ==> f.pc.pol < |s.installed|
    ensures Harmless(s', f, limit)
  {
  }

  lemma HarmlessOutside(s: State, a: Action, limit: int, cidr: string -> bool)
    requires Inv(s, cidr) && Stopped(s) && AllHarmless(s, limit) && !a.Step?
    ensures AllHarmless(Perform(s, a, cidr), limit)
  {
    var s' := Perform(s, a, cidr);
    forall id | id in s'.flights ensures Harmless(s', s'.flights[id], limit) {
      if id in s.flights {
        assert FlightOk(s, id);
        HarmlessFrame(s, s', s.flights[id], limit);
      }
    }
  }

  lemma HarmlessAdvance(s: State, id: RequestId, choice: Choice, limit: int, cidr: string -> bool)
    requires Inv(s, cidr) && Stopped(s) && AllHarmless(s, limit) && CanStep(s, id) && s.clock <= END_OF_TIME
    ensures AllHarmless(Advance(s, id, choice), limit)
  {
    var s' := Advance(s, id, choice);
    AdvanceFrame(s, id, choice);
    HarmlessStep(s, id, choice, limit, cidr);
    forall t | t in s'.flights ensures Harmless(s', s'.flights[t], limit) {
      if t != id {
        assert FlightOk(s, t);
        HarmlessFrame(s, s', s.flights[t], limit);
      }
    }
  }

  lemma HarmlessPerform(s: State, a: Action, limit: int, cidr: string -> bool)
    requires Inv(s, cidr) && Stopped(s) && AllHarmless(s, limit) && StaysStopped([a], cidr)
    requires Perform(s, a, cidr).clock <= END_OF_TIME
    ensures Stopped(Perform(s, a, cidr)) && AllHarmless(Perform(s, a, cidr), limit)
  {
    assert [a][0] == a;
    if !a.Step? {
      HarmlessOutside(s, a, limit, cidr);
    } else if CanStep(s, a.id) {
      AdvanceFrame(s, a.id, a.choice);
      HarmlessAdvance(s, a.id, a.choice, limit, cidr);
    }
  }

  lemma {:induction false} ClockAdvances(s: State, acts: seq<Action>, cidr: string -> bool)
    ensures s.clock <= Exec(s, acts, cidr).clock
    decreases |acts|
  {
    if acts != [] {
      ClockAdvances(Perform(s, acts[0], cidr), acts[1..], cidr);
    }
  }

  lemma {:induction false} HarmlessRun(s: State, acts: seq<Action>, limit: int, cidr: string -> bool)
    requires Inv(s, cidr) && Stopped(s) && AllHarmless(s, limit) && StaysStopped(acts, cidr)
    requires Exec(s, acts, cidr).clock <= END_OF_TIME
    ensures AllHarmless(Exec(s, acts, cidr), limit)
    decreases |acts|
  {
    if acts != [] {
      var next := Perform(s, acts[0], cidr);
      assert StaysStopped([acts[0]], cidr) && StaysStopped(acts[1..], cidr);
      ClockAdvances(next, acts[1..], cidr);
      HarmlessPerform(s, acts[0], limit, cidr);
      PerformKeepsInv(s, acts[0], cidr);
      HarmlessRun(next, acts[1..], limit, cidr);
    }
  }

  // --------------------------------------------------------------- and fails if it is not

  lemma ExecCons(s: State, a: Action, rest: seq<Action>, cidr: string -> bool)
    ensures Exec(s, [a] + rest, cidr) == Exec(Perform(s, a, cidr), rest, cidr)
  {
    assert ([a] + rest)[1..] == rest;
  }

  ghost predicate NoReload(acts: seq<Action>) {
    forall k :: 0 <= k < |acts| ==> !acts[k].Reload?
  }

  /** A continuation that signs the request after limit, without touching the policy. */
  ghost predicate SignsAfter(s: State, acts: seq<Action>, id: RequestId, limit: int, cidr: string -> bool) {
    var s' := Exec(s, acts, cidr);
    && NoReload(acts) && s'.clock <= END_OF_TIME && s'.installed == s.installed
    && IsIssued(s', id) && limit < CertificateFor(s', id).validBefore * SECOND
  }

  lemma Prepend(s: State, a: Action, rest: seq<Action>, id: RequestId, limit: int, cidr: string -> bool)
    requires !a.Reload? && SignsAfter(Perform(s, a, cidr), rest, id, limit, cidr)
    requires Perform(s, a, cidr).installed == s.installed
    ensures SignsAfter(s, [a] + rest, id, limit, cidr)
  {
    ExecCons(s, a, rest, cidr);
  }

  /** An issued certificate whose signing time is past the limit ends past it. */
  lemma IssuedLate(s: State, id: RequestId, limit: int, cidr: string -> bool)
    requires Inv(s, cidr) && IsIssued(s, id) && s.clock <= END_OF_TIME && limit <= s.flights[id].pc.env.signedAt
    requires s.installed != [] && s.flights[id].pc.pol < |s.installed|
    requires s.installed[s.flights[id].pc.pol].MaxValidFor() <= MAX_DURATION_SECONDS
    ensures SignsAfter(s, [], id, limit, cidr)
  {
    assert FlightOk(s, id);
    var f := s.flights[id];
    var p := s.installed[f.pc.pol];
    assert WellFormed(p, cidr);
    EndsAfterSigning(p, f.request, f.pc.env, cidr);
  }

  const SIGN := Choice(None, true)

  lemma LateFromStamped(s: State, id: RequestId, limit: int, cidr: string -> bool) returns (acts: seq<Action>)
    requires Inv(s, cidr) && id in s.flights && s.flights[id].pc.Stamped? && s.clock <= END_OF_TIME
    requires limit <= s.flights[id].pc.signedAt
    requires forall k :: 0 <= k < |s.installed| ==> s.installed[k].MaxValidFor() <= MAX_DURATION_SECONDS
    ensures SignsAfter(s, acts, id, limit, cidr)
  {
    assert FlightOk(s, id);
    StepDefined(s, id, cidr);
    StampedStep(s, id, SIGN);
    AdvanceFrame(s, id, SIGN);
    var a := Step(id, SIGN);
    PerformKeepsInv(s, a, cidr);
    IssuedLate(Perform(s, a, cidr), id, limit, cidr);
    Prepend(s, a, [], id, limit, cidr);
    acts := [a] + [];
  }

  /** An approved request reads the clock. */
  lemma ApprovedStamps(s: State, id: RequestId, choice: Choice)
    requires CanStep(s, id) && s.flights[id].pc.Approved?
    ensures var s' := Advance(s, id, choice);
      s'.flights[id].pc.Stamped? && s'.flights[id].pc.signedAt == s.clock
  {
  }

  lemma LateFromApproved(s: State, id: RequestId, limit: int, cidr: string -> bool) returns (acts: seq<Action>)
    requires Inv(s, cidr) && id in s.flights && s.flights[id].pc.Approved? && s.clock <= END_OF_TIME
    requires 0 <= limit <= END_OF_TIME
    requires forall k :: 0 <= k < |s.installed| ==> s.installed[k].MaxValidFor() <= MAX_DURATION_SECONDS
    ensures SignsAfter(s, acts, id, limit, cidr)
  {
    assert FlightOk(s, id);
    var wait := Tick(if s.clock < limit then limit - s.clock else 0);
    var s1 := Perform(s, wait, cidr);
    PerformKeepsInv(s, wait, cidr);
    var a := Step(id, SIGN);
    PerformKeepsInv(s1, a, cidr);
    StepDefined(s1, id, cidr);
    ApprovedStamps(s1, id, SIGN);
    AdvanceFrame(s1, id, SIGN);
    var rest := LateFromStamped(Perform(s1, a, cidr), id, limit, cidr);
    Prepend(s1, a, rest, id, limit, cidr);
    Prepend(s, wait, [a] + rest, id, limit, cidr);
    acts := [wait] + ([a] + rest);
  }

  /** A token that the policy lets in gets the request approved. */
  lemma GrantedApproves(s: State, id: RequestId, verified: Verified)
    requires CanStep(s, id) && s.flights[id].pc.Verifying?
    requires GrantedBy(s.installed[s.flights[id].pc.pol], s.flights[id].request, verified, s.clock)
    ensures var s' := Advance(s, id, Choice(Some(verified), true));
      s'.flights[id].pc.Approved? && s'.clock == s.clock && s'.installed == s.installed
  {
  }

  lemma LateFromVerifying(s: State, id: RequestId, verified: Verified, at: nat, limit: int, cidr: string -> bool)
    returns (acts: seq<Action>)
    requires Inv(s, cidr) && id in s.flights && s.flights[id].pc.Verifying? && s.flights[id].pc.pol < |s.installed|
    requires s.clock <= at <= END_OF_TIME
    requires GrantedBy(s.installed[s.flights[id].pc.pol], s.flights[id].request, verified, at)
    requires 0 <= limit <= END_OF_TIME
    requires forall k :: 0 <= k < |s.installed| ==> s.installed[k].MaxValidFor() <= MAX_DURATION_SECONDS
    ensures SignsAfter(s, acts, id, limit, cidr)
  {
    var wait := Tick(at - s.clock);
    var s1 := Perform(s, wait, cidr);
    PerformKeepsInv(s, wait, cidr);
    var a := Step(id, Choice(Some(verified), true));
    PerformKeepsInv(s1, a, cidr);
    StepDefined(s1, id, cidr);
    GrantedApproves(s1, id, verified);
    var rest := LateFromApproved(Perform(s1, a, cidr), id, limit, cidr);
    Prepend(s1, a, rest, id, limit, cidr);
    Prepend(s, wait, [a] + rest, id, limit, cidr);
    acts := [wait] + ([a] + rest);
  }

  /** From any earlier stage the request walks up to verification first. */
  lemma {:induction false} LateFromEarlier(s: State, id: RequestId, verified: Verified, at: nat, limit: int,
                                           cidr: string -> bool)
    returns (acts: seq<Action>)
    requires Inv(s, cidr) && id in s.flights
    requires s.flights[id].pc.Loaded? || s.flights[id].pc.Presented? || s.flights[id].pc.Verifying?
    requires s.flights[id].pc.pol < |s.installed|
    requires s.flights[id].pc.Loaded? ==> Screen(s.installed[s.flights[id].pc.pol], s.flights[id].request).None?
    requires s.clock <= at <= END_OF_TIME
    requires GrantedBy(s.installed[s.flights[id].pc.pol], s.flights[id].request, verified, at)
    requires 0 <= limit <= END_OF_TIME
    requires forall k :: 0 <= k < |s.installed| ==> s.installed[k].MaxValidFor() <= MAX_DURATION_SECONDS
    ensures SignsAfter(s, acts, id, limit, cidr)
    decreases if s.flights[id].pc.Loaded? then 2 else if s.flights[id].pc.Presented? then 1 else 0
  {
    if s.flights[id].pc.Verifying? {
      acts := LateFromVerifying(s, id, verified, at, limit, cidr);
    } else {
      var a := Step(id, SIGN);
      PerformKeepsInv(s, a, cidr);
      var rest := LateFromEarlier(Perform(s, a, cidr), id, verified, at, limit, cidr);
      Prepend(s, a, rest, id, limit, cidr);
      acts := [a] + rest;
    }
  }

  lemma LateRun(s: State, id: RequestId, limit: int, cidr: string -> bool) returns (acts: seq<Action>)
    requires Inv(s, cidr) && id in s.flights && MaySignLater(s, s.flights[id]) && s.clock <= END_OF_TIME
    requires 0 <= limit <= END_OF_TIME
    requires forall k :: 0 <= k < |s.installed| ==> s.installed[k].MaxValidFor() <= MAX_DURATION_SECONDS
    ensures SignsAfter(s, acts, id, limit, cidr)
  {
    var f := s.flights[id];
    if f.pc.Approved? {
      acts := LateFromApproved(s, id, limit, cidr);
    } else {
      var verified, at :| s.clock <= at <= END_OF_TIME && GrantedBy(s.installed[f.pc.pol], f.request, verified, at);
      acts := LateFromEarlier(s, id, verified, at, limit, cidr);
    }
  }

  /** A request that has read the clock can be signed with what it read. */
  lemma StampedSigns(s: State, id: RequestId, cidr: string -> bool) returns (acts: seq<Action>)
    requires Inv(s, cidr) && id in s.flights && s.flights[id].pc.Stamped?
    ensures StaysStopped(acts, cidr) && Exec(s, acts, cidr).clock == s.clock && IsIssued(Exec(s, acts, cidr), id)
    ensures Exec(s, acts, cidr).installed == s.installed
    ensures s.flights[id].pc.pol < |s.installed|
    ensures CertificateFor(Exec(s, acts, cidr), id).validBefore * SECOND
         == EndIfSigned(s.installed[s.flights[id].pc.pol], s.flights[id].pc.grant.rule, s.flights[id].pc.signedAt)
  {
    StepDefined(s, id, cidr);
    var a := Step(id, SIGN);
    StampedStep(s, id, SIGN);
    AdvanceFrame(s, id, SIGN);
    ExecCons(s, a, [], cidr);
    acts := [a] + [];
  }

  /** Whatever harms can happen: a certificate that ends after the limit. */
  lemma HarmfulRun(s: State, id: RequestId, limit: int, cidr: string -> bool) returns (acts: seq<Action>)
    requires Inv(s, cidr) && s.clock <= END_OF_TIME && 0 <= limit <= END_OF_TIME
    requires forall k :: 0 <= k < |s.installed| ==> s.installed[k].MaxValidFor() <= MAX_DURATION_SECONDS
    requires id in s.flights && !Harmless(s, s.flights[id], limit)
    ensures StaysStopped(acts, cidr) && Exec(s, acts, cidr).clock <= END_OF_TIME && IsIssued(Exec(s, acts, cidr), id)
    ensures limit < CertificateFor(Exec(s, acts, cidr), id).validBefore * SECOND
  {
    if MaySignLater(s, s.flights[id]) {
      acts := LateRun(s, id, limit, cidr);
    } else if s.flights[id].pc.Stamped? {
      acts := StampedSigns(s, id, cidr);
    } else {
      acts := [];
    }
  }

  /**
   After a stop, every certificate ends by the limit exactly when no request has
   a certificate that ends later, holds a signing time that makes it end later,
   or can still get as far as reading the clock.
   */
  lemma AllEndByIffHarmless(s: State, limit: int, cidr: string -> bool)
    requires Reachable(s, cidr) && Stopped(s) && s.clock <= END_OF_TIME && 0 <= limit <= END_OF_TIME
    requires forall k :: 0 <= k < |s.installed| ==> s.installed[k].MaxValidFor() <= MAX_DURATION_SECONDS
    ensures AllEndBy(s, limit, cidr) <==> AllHarmless(s, limit)
  {
    ReachableInv(s, cidr);
    if AllHarmless(s, limit) {
      forall acts, id | StaysStopped(acts, cidr) && Exec(s, acts, cidr).clock <= END_OF_TIME
                        && IsIssued(Exec(s, acts, cidr), id)
        ensures CertificateFor(Exec(s, acts, cidr), id).validBefore * SECOND <= limit
      {
        HarmlessRun(s, acts, limit, cidr);
        assert Harmless(Exec(s, acts, cidr), Exec(s, acts, cidr).flights[id], limit);
      }
    } else {
      var id :| id in s.flights && !Harmless(s, s.flights[id], limit);
      var acts := HarmfulRun(s, id, limit, cidr);
    }
  }

  /** The documented window holds exactly when every request in sight is harmless to it. */
  lemma WindowHoldsIff(s: State, cidr: string -> bool)
    requires Reachable(s, cidr) && Stopped(s) && WindowEnd(s) <= END_OF_TIME
    requires forall k :: 0 <= k < |s.installed| ==> s.installed[k].MaxValidFor() <= MAX_DURATION_SECONDS
    ensures WindowHolds(s, cidr) <==> forall id :: id in s.flights ==> Harmless(s, s.flights[id], WindowEnd(s))
  {
    ReachableInv(s, cidr);
    assert WellFormed(s.installed[|s.installed| - 1], cidr);
    AllEndByIffHarmless(s, WindowEnd(s), cidr);
  }

  /** Whatever has been signed or stamped is harmless to a window as long as the largest ceiling so far. */
  lemma DrainedThenHarmless(s: State, ceiling: int, cidr: string -> bool)
    requires Inv(s, cidr) && Ceiling(s, ceiling)
    requires forall id :: id in s.flights ==> !MaySignLater(s, s.flights[id])
    ensures AllHarmless(s, s.clock + ceiling * SECOND)
  {
    forall id | id in s.flights ensures Harmless(s, s.flights[id], s.clock + ceiling * SECOND) {
      assert FlightOk(s, id);
      var f := s.flights[id];
      if f.pc.Stamped? {
        StampedUnderCeiling(s, id, ceiling, cidr);
      } else if IsIssued(s, id) {
        IssuedUnderCeiling(s, id, ceiling, cidr);
      }
    }
  }

  lemma StampedUnderCeiling(s: State, id: RequestId, ceiling: int, cidr: string -> bool)
    requires Inv(s, cidr) && Ceiling(s, ceiling) && id in s.flights && s.flights[id].pc.Stamped?
    requires s.flights[id].pc.pol < |s.installed|
    ensures EndIfSigned(s.installed[s.flights[id].pc.pol], s.flights[id].pc.grant.rule, s.flights[id].pc.signedAt)
         <= s.clock + ceiling * SECOND
  {
    var acts := StampedSigns(s, id, cidr);
    ExecKeepsInv(s, acts, cidr);
    IssuedUnderCeiling(Exec(s, acts, cidr), id, ceiling, cidr);
    IssuedByEnabled(Exec(s, acts, cidr), id, cidr);
  }

  /** Against a ceiling that no policy so far exceeds, only requests still to be stamped can offend. */
  lemma CeilingHoldsIffDrained(s: State, ceiling: int, cidr: string -> bool)
    requires Reachable(s, cidr) && Stopped(s) && Ceiling(s, ceiling) && s.clock + ceiling * SECOND <= END_OF_TIME
    ensures AllEndBy(s, s.clock + ceiling * SECOND, cidr)
       <==> forall id :: id in s.flights ==> !MaySignLater(s, s.flights[id])
  {
    ReachableInv(s, cidr);
    assert WellFormed(s.installed[|s.installed| - 1], cidr);
    AllEndByIffHarmless(s, s.clock + ceiling * SECOND, cidr);
    if forall id :: id in s.flights ==> !MaySignLater(s, s.flights[id]) {
      DrainedThenHarmless(s, ceiling, cidr);
    }
  }

  /** If the ceiling was never lowered, only requests in flight can break the documented window. */
  lemma WindowHoldsIffDrained(s: State, cidr: string -> bool)
    requires Reachable(s, cidr) && Stopped(s) && WindowEnd(s) <= END_OF_TIME
    requires Ceiling(s, s.installed[|s.installed| - 1].MaxValidFor())
    ensures WindowHolds(s, cidr) <==> forall id :: id in s.flights ==> !MaySignLater(s, s.flights[id])
  {
    CeilingHoldsIffDrained(s, s.installed[|s.installed| - 1].MaxValidFor(), cidr);
  }
}
