/**
 Any number of signing requests interleaved with policy reloads. A request
 loads the policy pointer once, may then stay in token verification for as long
 as it likes, and reads the clock for its certificate only afterwards; a reload
 swaps the pointer between any two steps.
 */
module SigningRuns {
  import opened Base
  import opened PolicyFile
  import opened CertIssuer
  import opened Server
  import TokenTime

  type RequestId = nat

  /** Where a request is. pol is the policy it loaded, as an index among all policies ever installed. */
  datatype Pc =
    | Received                                                          // check the method, load the policy
    | Loaded(pol: nat)                                                  // check the body, the key and the header
    | Presented(pol: nat)                                               // the issuer gate
    | Verifying(pol: nat)                                               // verify the token, match, expand
    | Approved(pol: nat, verified: Verified, verifiedAt: nat, grant: Grant)               // read the clock
    | Stamped(pol: nat, verified: Verified, verifiedAt: nat, grant: Grant, signedAt: nat) // sign
    | Concluded(pol: nat, env: Env, outcome: Outcome)                   // write the audit event
    | Done(pol: nat, env: Env, outcome: Outcome, at: nat, until: nat)   // until: the policy then active
  {
    predicate HasOutcome() {
      Concluded? || Done?
    }
  }

  /** One request; since is the policy active when it arrived. */
  datatype Flight = Flight(request: Request, since: nat, pc: Pc)

  /** providers holds the keys of the verifier's provider map. */
  datatype State = State(clock: nat, installed: seq<Policy>, flights: map<RequestId, Flight>,
                         audit: seq<AuditEvent>, providers: set<string>)
  {
    function Current(): int {
      |installed| - 1
    }

    function Move(id: RequestId, pc: Pc): State
      requires id in flights
    {
      this.(flights := flights[id := flights[id].(pc := pc)])
    }
  }

  datatype Choice = Choice(verified: Option<Verified>, signerWorks: bool)

  datatype Action =
    | Tick(elapsed: nat)
    | Receive(id: RequestId, request: Request)
    | Reload(file: Option<Policy>)
    | Step(id: RequestId, choice: Choice)

  /** What the indices in a request's state refer to. */
  predicate Located(s: State, f: Flight) {
    && s.installed != []
    && (!f.pc.Received? ==> f.pc.pol < |s.installed|)
    && (f.pc.Presented? ==> f.request.token.Some?)
    && (f.pc.Verifying? ==> f.request.token.Some? && f.request.token.value.issuer.Some?)
    && (f.pc.Stamped? ==> f.request.body.Key?)
  }

  predicate CanStep(s: State, id: RequestId) {
    id in s.flights && !s.flights[id].pc.Done? && Located(s, s.flights[id])
  }

  /** The environment of a request that is turned away before it reaches the outside world. */
  function Unasked(now: int): Env {
    Env(None, now, now, false)
  }

  function Verify(s: State, id: RequestId, verified: Option<Verified>): Pc
    requires CanStep(s, id) && s.flights[id].pc.Verifying?
  {
    var f := s.flights[id];
    var env := Env(verified, s.clock, s.clock, false);
    match Authenticate(f.request.token.value.issuer.value, verified, s.clock)
    case None => Concluded(f.pc.pol, env, Denied(Denial(401, TokenInvalid)))
    case Some(identity) =>
      match Authorize(s.installed[f.pc.pol], identity)
      case Err(denial) => Concluded(f.pc.pol, env, Denied(denial))
      case Ok(g) => Approved(f.pc.pol, verified.value, s.clock, g)
  }

  function Advance(s: State, id: RequestId, choice: Choice): State
    requires CanStep(s, id)
  {
    var f := s.flights[id];
    match f.pc
    case Received =>
      if !f.request.post then s.Move(id, Concluded(s.Current(), Unasked(s.clock), Denied(Denial(405, BadRequest))))
      else s.Move(id, Loaded(s.Current()))
    case Loaded(pol) =>
      (match Screen(s.installed[pol], f.request)
       case Some(denial) => s.Move(id, Concluded(pol, Unasked(s.clock), Denied(denial)))
       case None => s.Move(id, Presented(pol)))
    case Presented(pol) =>
      if !PassesGate(IssuersOf(s.installed[pol].rules), f.request.token.value) then
        s.Move(id, Concluded(pol, Unasked(s.clock), Denied(Denial(401, TokenInvalid))))
      else
        s.(providers := s.providers + {f.request.token.value.issuer.value}).Move(id, Verifying(pol))
    case Verifying(pol) =>
      s.Move(id, Verify(s, id, choice.verified))
    case Approved(pol, verified, verifiedAt, g) =>
      s.Move(id, Stamped(pol, verified, verifiedAt, g, s.clock))
    case Stamped(pol, verified, verifiedAt, g, signedAt) =>
      var env := Env(Some(verified), verifiedAt, signedAt, choice.signerWorks);
      s.Move(id, Concluded(pol, env, Conclude(s.installed[pol], g, f.request.body.key, env)))
    case Concluded(pol, env, outcome) =>
      s.(audit := s.audit + [EventOf(id, outcome)]).Move(id, Done(pol, env, outcome, s.clock, s.Current()))
  }

  function Perform(s: State, a: Action, cidr: string -> bool): State {
    match a
    case Tick(elapsed) => s.(clock := s.clock + elapsed)
    case Receive(id, request) =>
      if id in s.flights || s.installed == [] then s
      else s.(flights := s.flights[id := Flight(request, s.Current(), Received)])
    case Reload(file) =>
      if file.Some? && WellFormed(file.value, cidr) then s.(installed := s.installed + [file.value]) else s
    case Step(id, choice) => if CanStep(s, id) then Advance(s, id, choice) else s
  }

  function Exec(s: State, acts: seq<Action>, cidr: string -> bool): State
    decreases |acts|
  {
    if acts == [] then s else Exec(Perform(s, acts[0], cidr), acts[1..], cidr)
  }

  /** The server as it starts with policy p. */
  function Init(p: Policy, clock: nat): State {
    State(clock, [p], map[], [], {})
  }

  // ---------------------------------------------------------------------- the invariant

  /** How far a request has got with the policy it loaded. */
  ghost predicate StageOk(p: Policy, f: Flight, clock: nat) {
    var req, pc := f.request, f.pc;
    && (pc.Loaded? || pc.Presented? || pc.Verifying? || pc.Approved? || pc.Stamped? ==> req.post)
    && (pc.Presented? || pc.Verifying? || pc.Approved? || pc.Stamped? ==> Screen(p, req).None?)
    && (pc.Verifying? || pc.Approved? || pc.Stamped? ==> PassesGate(IssuersOf(p.rules), req.token.value))
    && (pc.Approved? || pc.Stamped? ==>
          && pc.verifiedAt <= clock
          && var id := Authenticate(req.token.value.issuer.value, Some(pc.verified), pc.verifiedAt);
             id.Some? && Authorize(p, id.value) == Ok(pc.grant))
    && (pc.Stamped? ==> pc.verifiedAt <= pc.signedAt <= clock)
    && (pc.HasOutcome() ==>
          && pc.outcome == Decide(p, req, pc.env)
          && 0 <= pc.env.verifiedAt <= pc.env.signedAt <= clock)
    && (pc.Done? ==> pc.env.signedAt <= pc.at <= clock)
  }

  ghost predicate FlightOk(s: State, id: RequestId)
    requires id in s.flights
  {
    var f := s.flights[id];
    && f.since < |s.installed|
    && (!f.pc.Received? ==> f.since <= f.pc.pol < |s.installed| && StageOk(s.installed[f.pc.pol], f, s.clock))
    && (f.pc.Done? ==> f.pc.pol <= f.pc.until < |s.installed|)
  }

  /** Finished requests and audit events are the same thing, told twice. */
  ghost predicate AuditOk(s: State) {
    && (forall a, b :: 0 <= a < b < |s.audit| ==> s.audit[a].request != s.audit[b].request)
    && (forall a :: 0 <= a < |s.audit| ==>
          && s.audit[a].request in s.flights
          && var pc := s.flights[s.audit[a].request].pc;
             pc.Done? && s.audit[a] == EventOf(s.audit[a].request, pc.outcome))
    && (forall id :: id in s.flights && s.flights[id].pc.Done? ==> EventOf(id, s.flights[id].pc.outcome) in s.audit)
  }

  /** Some installed policy has an enabled rule for the issuer. */
  ghost predicate Referenced(installed: seq<Policy>, issuer: string) {
    exists k :: 0 <= k < |installed| && issuer in IssuersOf(installed[k].rules)
  }

  ghost predicate Inv(s: State, cidr: string -> bool) {
    && s.installed != []
    && (forall k {:trigger WellFormed(s.installed[k], cidr)} :: 0 <= k < |s.installed| ==>
          WellFormed(s.installed[k], cidr))
    && (forall id {:trigger FlightOk(s, id)} :: id in s.flights ==> FlightOk(s, id))
    && AuditOk(s)
    && (forall issuer :: issuer in s.providers ==> Referenced(s.installed, issuer))
  }

  // ------------------------------------------------------------- every step keeps the invariant

  /** The request is where the policy it loaded says, and has not changed policy. */
  ghost predicate StageKept(s: State, id: RequestId, f': Flight)
    requires id in s.flights && !s.flights[id].pc.Received?
  {
    && !f'.pc.Received? && f'.pc.pol == s.flights[id].pc.pol && f'.since == s.flights[id].since
    && f'.pc.pol < |s.installed| && StageOk(s.installed[f'.pc.pol], f', s.clock)
  }

  lemma EarlyStage(s: State, id: RequestId, choice: Choice)
    requires CanStep(s, id) && FlightOk(s, id) && (s.flights[id].pc.Loaded? || s.flights[id].pc.Presented?)
    ensures StageKept(s, id, Advance(s, id, choice).flights[id])
  {
  }

  lemma VerifyingStage(s: State, id: RequestId, choice: Choice)
    requires CanStep(s, id) && FlightOk(s, id) && s.flights[id].pc.Verifying?
    ensures StageKept(s, id, Advance(s, id, choice).flights[id])
  {
  }

  lemma LateStage(s: State, id: RequestId, choice: Choice)
    requires CanStep(s, id) && FlightOk(s, id) && (s.flights[id].pc.Approved? || s.flights[id].pc.Concluded?)
    ensures StageKept(s, id, Advance(s, id, choice).flights[id])
  {
  }

  lemma SigningStage(s: State, id: RequestId, choice: Choice)
    requires CanStep(s, id) && FlightOk(s, id) && s.flights[id].pc.Stamped?
    ensures StageKept(s, id, Advance(s, id, choice).flights[id])
  {
  }

  /** One step of one request, with the policy it loaded. */
  lemma StageStep(s: State, id: RequestId, choice: Choice)
    requires CanStep(s, id) && FlightOk(s, id) && !s.flights[id].pc.Received?
    ensures StageKept(s, id, Advance(s, id, choice).flights[id])
  {
    var pc := s.flights[id].pc;
    if pc.Loaded? || pc.Presented? {
      EarlyStage(s, id, choice);
    } else if pc.Verifying? {
      VerifyingStage(s, id, choice);
    } else if pc.Stamped? {
      SigningStage(s, id, choice);
    } else {
      LateStage(s, id, choice);
    }
  }

  lemma FlightFrame(s: State, s': State, id: RequestId)
    requires id in s.flights && FlightOk(s, id) && id in s'.flights && s'.flights[id] == s.flights[id]
    requires s.clock <= s'.clock && s.installed <= s'.installed
    ensures FlightOk(s', id)
  {
  }

  /** The step of a request that does not finish it leaves the audit log alone. */
  lemma AuditFrame(s: State, s': State)
    requires AuditOk(s) && s'.audit == s.audit
    requires forall id :: id in s.flights && s.flights[id].pc.Done? ==>
               id in s'.flights && s'.flights[id] == s.flights[id]
    requires forall id :: id in s'.flights && s'.flights[id].pc.Done? ==>
               id in s.flights && s.flights[id] == s'.flights[id]
    ensures AuditOk(s')
  {
  }

  /** The step that finishes a request writes its one event. */
  lemma AuditGrows(s: State, s': State, id: RequestId)
    requires AuditOk(s) && id in s.flights && !s.flights[id].pc.Done?
    requires id in s'.flights && s'.flights[id].pc.Done? && s'.flights.Keys == s.flights.Keys
    requires s'.audit == s.audit + [EventOf(id, s'.flights[id].pc.outcome)]
    requires forall t :: t in s.flights && t != id ==> s'.flights[t] == s.flights[t]
    ensures AuditOk(s')
  {
    var last := EventOf(id, s'.flights[id].pc.outcome);
    assert s'.audit[|s.audit|] == last;
    forall a | 0 <= a < |s.audit| ensures s'.audit[a].request != id {
      assert s'.audit[a] == s.audit[a];
    }
    forall t | t in s'.flights && s'.flights[t].pc.Done? ensures EventOf(t, s'.flights[t].pc.outcome) in s'.audit {
      if t != id {
        assert EventOf(t, s.flights[t].pc.outcome) in s.audit;
      }
    }
  }

  lemma ReferencedFrame(installed: seq<Policy>, more: seq<Policy>, issuer: string)
    requires Referenced(installed, issuer) && installed <= more
    ensures Referenced(more, issuer)
  {
    var k :| 0 <= k < |installed| && issuer in IssuersOf(installed[k].rules);
    assert more[k] == installed[k];
  }

  lemma StepKeepsFlights(s: State, id: RequestId, choice: Choice, cidr: string -> bool)
    requires Inv(s, cidr) && CanStep(s, id)
    ensures forall t :: t in Advance(s, id, choice).flights ==> FlightOk(Advance(s, id, choice), t)
  {
    var s' := Advance(s, id, choice);
    assert FlightOk(s, id);
    if !s.flights[id].pc.Received? {
      StageStep(s, id, choice);
    }
    forall t | t in s'.flights ensures FlightOk(s', t) {
      if t != id {
        FlightFrame(s, s', t);
      }
    }
  }

  /** A step moves one request and leaves the policies, the clock and the other requests alone. */
  lemma AdvanceFrame(s: State, id: RequestId, choice: Choice)
    requires CanStep(s, id)
    ensures var s' := Advance(s, id, choice);
      && s'.clock == s.clock && s'.installed == s.installed && s'.flights.Keys == s.flights.Keys
      && (forall t :: t in s.flights && t != id ==> s'.flights[t] == s.flights[t])
      && s'.flights[id].since == s.flights[id].since
      && (s'.flights[id].pc.Done? <==> s.flights[id].pc.Concluded?)
      && (!s.flights[id].pc.Concluded? ==> s'.audit == s.audit)
  {
  }

  lemma StepKeepsAudit(s: State, id: RequestId, choice: Choice, cidr: string -> bool)
    requires Inv(s, cidr) && CanStep(s, id)
    ensures AuditOk(Advance(s, id, choice))
  {
    var s' := Advance(s, id, choice);
    AdvanceFrame(s, id, choice);
    if s.flights[id].pc.Concluded? {
      AuditGrows(s, s', id);
    } else {
      AuditFrame(s, s');
    }
  }

  lemma StepKeepsProviders(s: State, id: RequestId, choice: Choice, cidr: string -> bool)
    requires Inv(s, cidr) && CanStep(s, id)
    ensures forall issuer :: issuer in Advance(s, id, choice).providers ==> Referenced(s.installed, issuer)
  {
    var s', f := Advance(s, id, choice), s.flights[id];
    if f.pc.Presented? && s'.providers != s.providers {
      assert f.request.token.value.issuer.value in IssuersOf(s.installed[f.pc.pol].rules);
    }
  }

  lemma OutsideKeepsInv(s: State, a: Action, cidr: string -> bool)
    requires Inv(s, cidr) && !a.Step?
    ensures Inv(Perform(s, a, cidr), cidr)
  {
    var s' := Perform(s, a, cidr);
    forall t | t in s'.flights ensures FlightOk(s', t) {
      if t in s.flights {
        FlightFrame(s, s', t);
      }
    }
    AuditFrame(s, s');
    forall issuer | issuer in s'.providers ensures Referenced(s'.installed, issuer) {
      ReferencedFrame(s.installed, s'.installed, issuer);
    }
    forall k | 0 <= k < |s'.installed| ensures WellFormed(s'.installed[k], cidr) {
      if k < |s.installed| {
        assert WellFormed(s.installed[k], cidr);
      }
    }
  }

  lemma StepKeepsInv(s: State, id: RequestId, choice: Choice, cidr: string -> bool)
    requires Inv(s, cidr) && CanStep(s, id)
    ensures Inv(Advance(s, id, choice), cidr)
  {
    StepKeepsFlights(s, id, choice, cidr);
    StepKeepsAudit(s, id, choice, cidr);
    StepKeepsProviders(s, id, choice, cidr);
    assert Advance(s, id, choice).installed == s.installed;
  }

  lemma PerformKeepsInv(s: State, a: Action, cidr: string -> bool)
    requires Inv(s, cidr)
    ensures Inv(Perform(s, a, cidr), cidr)
  {
    if !a.Step? {
      OutsideKeepsInv(s, a, cidr);
    } else if CanStep(s, a.id) {
      StepKeepsInv(s, a.id, a.choice, cidr);
    }
  }

  lemma {:induction false} ExecKeepsInv(s: State, acts: seq<Action>, cidr: string -> bool)
    requires Inv(s, cidr)
    ensures Inv(Exec(s, acts, cidr), cidr)
    decreases |acts|
  {
    if acts != [] {
      PerformKeepsInv(s, acts[0], cidr);
      ExecKeepsInv(Perform(s, acts[0], cidr), acts[1..], cidr);
    }
  }

  /** Every state of every run: started with a valid policy, then any interleaving of actions. */
  ghost predicate Reachable(s: State, cidr: string -> bool) {
    exists p, clock, acts :: WellFormed(p, cidr) && s == Exec(Init(p, clock), acts, cidr)
  }

  lemma {:induction false} ExecAppend(s: State, acts: seq<Action>, more: seq<Action>, cidr: string -> bool)
    ensures Exec(s, acts + more, cidr) == Exec(Exec(s, acts, cidr), more, cidr)
    decreases |acts|
  {
    if acts == [] {
      assert acts + more == more;
    } else {
      assert (acts + more)[1..] == acts[1..] + more;
      ExecAppend(Perform(s, acts[0], cidr), acts[1..], more, cidr);
    }
  }

  /** What follows a reachable state is reachable. */
  lemma ReachableMore(s: State, more: seq<Action>, cidr: string -> bool)
    requires Reachable(s, cidr)
    ensures Reachable(Exec(s, more, cidr), cidr)
  {
    var p, clock, acts :| WellFormed(p, cidr) && s == Exec(Init(p, clock), acts, cidr);
    ExecAppend(Init(p, clock), acts, more, cidr);
  }

  lemma ReachableNext(s: State, a: Action, cidr: string -> bool)
    requires Reachable(s, cidr)
    ensures Reachable(Perform(s, a, cidr), cidr)
  {
    ReachableMore(s, [a], cidr);
    assert Exec(s, [a], cidr) == Exec(Perform(s, a, cidr), [], cidr);
  }

  lemma ReachableInv(s: State, cidr: string -> bool)
    requires Reachable(s, cidr)
    ensures Inv(s, cidr)
  {
    var p, clock, acts :| WellFormed(p, cidr) && s == Exec(Init(p, clock), acts, cidr);
    ExecKeepsInv(Init(p, clock), acts, cidr);
  }

  /**
   The model is well formed: whatever an unfinished request refers to exists, so
   the guard CanStep never takes a step away that the program has.
   */
  lemma EveryStepDefined(s: State, id: RequestId, cidr: string -> bool)
    requires Reachable(s, cidr) && id in s.flights && !s.flights[id].pc.Done?
    ensures CanStep(s, id)
  {
    ReachableInv(s, cidr);
    StepDefined(s, id, cidr);
  }

  lemma StepDefined(s: State, id: RequestId, cidr: string -> bool)
    requires Inv(s, cidr) && id in s.flights && !s.flights[id].pc.Done?
    ensures CanStep(s, id)
  {
    assert FlightOk(s, id);
    var f := s.flights[id];
    if f.pc.Stamped? {
      assert Screen(s.installed[f.pc.pol], f.request).None?;
    }
  }

  // ------------------------------------------------------------------------ what a step does

  /** Time passes by as much as is said, and nothing else happens. */
  lemma TickPasses(s: State, elapsed: nat, cidr: string -> bool)
    ensures Perform(s, Tick(elapsed), cidr).clock == s.clock + elapsed
    ensures Perform(s, Tick(elapsed), cidr).(clock := s.clock) == s
  {
  }

  /** A reload installs what the reload loop would, and touches nothing else. */
  lemma ReloadInstalls(s: State, file: Option<Policy>, cidr: string -> bool)
    requires s.installed != []
    ensures var s' := Perform(s, Reload(file), cidr);
      && s'.installed != [] && s.installed <= s'.installed
      && s'.installed[|s'.installed| - 1] == Reloaded(s.installed[|s.installed| - 1], file, cidr)
      && s'.(installed := s.installed) == s
  {
  }

  /** The files that a run tries to load, in order. */
  function FilesOf(acts: seq<Action>): seq<Option<Policy>>
    decreases |acts|
  {
    if acts == [] then []
    else (if acts[0].Reload? then [acts[0].file] else []) + FilesOf(acts[1..])
  }

  lemma {:induction false} ReloadedCons(current: Policy, file: Option<Policy>, rest: seq<Option<Policy>>,
                                        cidr: string -> bool)
    ensures ReloadedAll(current, [file] + rest, cidr) == ReloadedAll(Reloaded(current, file, cidr), rest, cidr)
    decreases |rest|
  {
    var all := [file] + rest;
    if rest == [] {
      assert all[..0] == [] && all[0] == file;
      assert ReloadedAll(current, [], cidr) == current;
    } else {
      assert all[..|all| - 1] == [file] + rest[..|rest| - 1] && all[|all| - 1] == rest[|rest| - 1];
      ReloadedCons(current, file, rest[..|rest| - 1], cidr);
    }
  }

  lemma StepInstallsNothing(s: State, a: Action, cidr: string -> bool)
    requires !a.Reload?
    ensures Perform(s, a, cidr).installed == s.installed
  {
    if a.Step? && CanStep(s, a.id) {
      AdvanceFrame(s, a.id, a.choice);
    }
  }

  function Active(s: State): Policy
    requires s.installed != []
  {
    s.installed[|s.installed| - 1]
  }

  lemma PerformInstalls(s: State, a: Action, cidr: string -> bool)
    requires s.installed != []
    ensures Perform(s, a, cidr).installed != []
    ensures Active(Perform(s, a, cidr)) == if a.Reload? then Reloaded(Active(s), a.file, cidr) else Active(s)
  {
    if a.Reload? {
      ReloadInstalls(s, a.file, cidr);
    } else {
      StepInstallsNothing(s, a, cidr);
    }
  }

  lemma {:induction false} ExecInstalls(s: State, acts: seq<Action>, cidr: string -> bool)
    requires s.installed != []
    ensures Exec(s, acts, cidr).installed != []
    ensures Active(Exec(s, acts, cidr)) == ReloadedAll(Active(s), FilesOf(acts), cidr)
    decreases |acts|
  {
    if acts != [] {
      var a, rest := acts[0], acts[1..];
      var next := Perform(s, a, cidr);
      PerformInstalls(s, a, cidr);
      ExecInstalls(next, rest, cidr);
      if a.Reload? {
        ReloadedCons(Active(s), a.file, FilesOf(rest), cidr);
      } else {
        assert FilesOf(acts) == FilesOf(rest);
      }
    }
  }

  /** In every run the active policy is what the reload loop makes of the files tried so far. */
  lemma RunsFollowReloads(p: Policy, clock: nat, acts: seq<Action>, cidr: string -> bool)
    ensures Exec(Init(p, clock), acts, cidr).installed != []
    ensures Active(Exec(Init(p, clock), acts, cidr)) == ReloadedAll(p, FilesOf(acts), cidr)
  {
    ExecInstalls(Init(p, clock), acts, cidr);
  }

  /** The first step loads the policy active at that moment, whatever was active when the request arrived. */
  lemma FirstStepLoadsActive(s: State, id: RequestId, choice: Choice, cidr: string -> bool)
    requires CanStep(s, id) && s.flights[id].pc.Received?
    ensures var f, s' := s.flights[id], Perform(s, Step(id, choice), cidr);
      && id in s'.flights && !s'.flights[id].pc.Received? && s'.flights[id].pc.pol == |s.installed| - 1
      && (if f.request.post then s'.flights[id].pc.Loaded?
          else s'.flights[id].pc.Concluded? && s'.flights[id].pc.outcome == Denied(Denial(405, BadRequest)))
  {
  }

  /** A request that arrives is put beside the others, and its first step loads the active policy. */
  lemma ArrivalLoadsActive(s: State, id: RequestId, request: Request, choice: Choice, cidr: string -> bool)
    requires s.installed != [] && id !in s.flights
    ensures var s1 := Perform(s, Receive(id, request), cidr);
      && s1.(flights := s.flights) == s && s1.flights.Keys == s.flights.Keys + {id}
      && (forall t :: t in s.flights ==> s1.flights[t] == s.flights[t])
      && s1.flights[id] == Flight(request, |s.installed| - 1, Received)
      && var s2 := Perform(s1, Step(id, choice), cidr);
      && id in s2.flights && !s2.flights[id].pc.Received? && s2.flights[id].pc.pol == |s.installed| - 1
      && (request.post ==> s2.flights[id].pc == Loaded(|s.installed| - 1))
  {
  }

  /** At the gate, exactly a listed issuer is put on the provider map and taken on to verification. */
  lemma GateTakesListed(s: State, id: RequestId, choice: Choice, cidr: string -> bool)
    requires CanStep(s, id) && s.flights[id].pc.Presented?
    ensures var f, s' := s.flights[id], Perform(s, Step(id, choice), cidr);
      var token, listed := f.request.token.value, IssuersOf(s.installed[f.pc.pol].rules);
      && id in s'.flights
      && (if token.issuer.Some? && token.issuer.value in listed then
            s'.providers == s.providers + {token.issuer.value} && s'.flights[id].pc == Verifying(f.pc.pol)
          else
            s'.providers == s.providers && s'.flights[id].pc.Concluded?
            && s'.flights[id].pc.outcome == Denied(Denial(401, TokenInvalid)))
  {
  }

  /** A request whose answer is settled logs it and is done, at this time and under the policy now active. */
  lemma FinishIsRecorded(s: State, id: RequestId, choice: Choice, cidr: string -> bool)
    requires CanStep(s, id) && s.flights[id].pc.Concluded?
    ensures var pc, s' := s.flights[id].pc, Perform(s, Step(id, choice), cidr);
      && id in s'.flights
      && s'.flights[id].pc == Done(pc.pol, pc.env, pc.outcome, s.clock, |s.installed| - 1)
      && s'.audit == s.audit + [EventOf(id, pc.outcome)]
  {
  }

  // ------------------------------------------------------- snapshot consistency across reloads

  /**
   However reloads interleave, a finished request was decided from beginning to
   end by one validated policy that was active while it was being served, and a
   certificate is sound for that policy, which was not disabled.
   */
  lemma SnapshotConsistency(s: State, id: RequestId, cidr: string -> bool)
    requires Reachable(s, cidr) && CidrOracle(cidr) && id in s.flights && s.flights[id].pc.Done?
    ensures var f := s.flights[id];
      && f.since <= f.pc.pol <= f.pc.until < |s.installed|
      && WellFormed(s.installed[f.pc.pol], cidr)
      && f.pc.outcome == Decide(s.installed[f.pc.pol], f.request, f.pc.env)
      && (f.pc.outcome.Issued? ==>
            && !s.installed[f.pc.pol].disabled
            && Sound(s.installed[f.pc.pol], f.pc.outcome.grant.rule, f.pc.outcome.validFor, f.pc.outcome.certificate))
  {
    ReachableInv(s, cidr);
    assert FlightOk(s, id);
    var f := s.flights[id];
    assert WellFormed(s.installed[f.pc.pol], cidr);
    if f.pc.outcome.Issued? {
      IssuedCertificateSound(s.installed[f.pc.pol], f.request, f.pc.env, cidr);
      IssuedParts(s.installed[f.pc.pol], f.request, f.pc.env);
    }
  }

  /**
   In every run, a certificate ends at most its TTL after it was signed, and at
   most the leeway, the signing delay and the TTL after its token's expiry; nor
   was its token verified more than the leeway before nbf or iat.
   */
  lemma CertificatesBounded(s: State, id: RequestId, cidr: string -> bool)
    requires Reachable(s, cidr) && IsIssued(s, id)
    requires s.flights[id].pc.pol < |s.installed|
    requires s.installed[s.flights[id].pc.pol].MaxValidFor() <= MAX_DURATION_SECONDS
    ensures var env, o := s.flights[id].pc.env, s.flights[id].pc.outcome;
      && 0 <= env.verifiedAt <= env.signedAt <= s.clock
      && env.verified.Some? && TokenTime.NumericClaim(env.verified.value.claims, "exp").Some?
      && o.certificate.validBefore * SECOND <= env.signedAt + o.validFor * SECOND
      && o.certificate.validBefore * SECOND
         <= TokenTime.NumericClaim(env.verified.value.claims, "exp").value + 60_000_000_000
            + (env.signedAt - env.verifiedAt) + o.validFor * SECOND
      && (TokenTime.NumericClaim(env.verified.value.claims, "nbf").Some? ==>
            TokenTime.NumericClaim(env.verified.value.claims, "nbf").value <= env.verifiedAt + 60_000_000_000)
      && (TokenTime.NumericClaim(env.verified.value.claims, "iat").Some? ==>
            TokenTime.NumericClaim(env.verified.value.claims, "iat").value <= env.verifiedAt + 60_000_000_000)
  {
    ReachableInv(s, cidr);
    assert FlightOk(s, id);
    var f := s.flights[id];
    var p := s.installed[f.pc.pol];
    assert WellFormed(p, cidr);
    EndsWithinTtl(p, f.request, f.pc.env, cidr);
    OutlivesTokenByLittle(p, f.request, f.pc.env, cidr);
    IssuedWithinTokenTimes(p, f.request, f.pc.env);
  }

  lemma DenialStatus(p: Policy, req: Request, env: Env)
    ensures Decide(p, req, env).Status() == 200 <==> Decide(p, req, env).Issued?
  {
  }

  /** The events that the log holds for one request. */
  function EventsFor(audit: seq<AuditEvent>, id: RequestId): seq<AuditEvent> {
    if audit == [] then []
    else EventsFor(audit[..|audit| - 1], id)
         + if audit[|audit| - 1].request == id then [audit[|audit| - 1]] else []
  }

  lemma {:induction false} NoEvents(audit: seq<AuditEvent>, id: RequestId)
    requires forall a :: 0 <= a < |audit| ==> audit[a].request != id
    ensures EventsFor(audit, id) == []
  {
    if audit != [] {
      NoEvents(audit[..|audit| - 1], id);
    }
  }

  lemma {:induction false} OneEvent(audit: seq<AuditEvent>, id: RequestId, e: AuditEvent)
    requires forall a, b :: 0 <= a < b < |audit| ==> audit[a].request != audit[b].request
    requires e in audit && e.request == id
    ensures EventsFor(audit, id) == [e]
  {
    var past, last := audit[..|audit| - 1], audit[|audit| - 1];
    if last == e {
      NoEvents(past, id);
    } else {
      var a :| 0 <= a < |audit| && audit[a] == e;
      assert past[a] == e;
      OneEvent(past, id, e);
    }
  }

  /** A finished request has exactly one audit event, which is an issued one iff the status is 200; others have none. */
  lemma AuditedExactlyOnce(s: State, id: RequestId, cidr: string -> bool)
    requires Reachable(s, cidr) && id in s.flights
    ensures !s.flights[id].pc.Done? ==> EventsFor(s.audit, id) == []
    ensures s.flights[id].pc.Done? ==>
              && EventsFor(s.audit, id) == [EventOf(id, s.flights[id].pc.outcome)]
              && (EventsFor(s.audit, id)[0].CertificateIssued? <==> s.flights[id].pc.outcome.Status() == 200)
  {
    ReachableInv(s, cidr);
    var f := s.flights[id];
    if f.pc.Done? {
      assert FlightOk(s, id);
      OneEvent(s.audit, id, EventOf(id, f.pc.outcome));
      DenialStatus(s.installed[f.pc.pol], f.request, f.pc.env);
    } else {
      NoEvents(s.audit, id);
    }
  }

  /** The provider map only ever holds issuers of policies that were active at some time. */
  lemma ProvidersReferenced(s: State, issuer: string, cidr: string -> bool)
    requires Reachable(s, cidr) && issuer in s.providers
    ensures exists k, i :: 0 <= k < |s.installed| && 0 <= i < |s.installed[k].rules|
              && IssuerOf(s.installed[k].rules[i]) == Some(issuer)
  {
    ReachableInv(s, cidr);
    var k :| 0 <= k < |s.installed| && issuer in IssuersOf(s.installed[k].rules);
    IssuersExact(s.installed[k].rules);
  }

  // ---------------------------------------------------------------------- emergency stop

  /** No reload in acts turns issuance back on. */
  ghost predicate StaysStopped(acts: seq<Action>, cidr: string -> bool) {
    forall k :: 0 <= k < |acts| && acts[k].Reload? && acts[k].file.Some? && WellFormed(acts[k].file.value, cidr) ==>
      acts[k].file.value.disabled
  }

  /** What a later state owes to an earlier one when only disabled policies were installed in between. */
  ghost predicate Follows(s: State, s': State) {
    && s.clock <= s'.clock
    && s.installed != [] && s.installed <= s'.installed
    && (forall k :: |s.installed| <= k < |s'.installed| ==> s'.installed[k].disabled)
    && (forall id :: id in s.flights ==>
          id in s'.flights && (s.flights[id].pc.Done? ==> s'.flights[id] == s.flights[id]))
    && (forall id :: id in s'.flights && id !in s.flights ==> |s.installed| - 1 <= s'.flights[id].since)
  }

  lemma FollowsAdvance(s: State, s': State, id: RequestId, s'': State)
    requires Follows(s, s') && id in s'.flights && !s'.flights[id].pc.Done?
    requires s''.clock == s'.clock && s''.installed == s'.installed && s''.flights.Keys == s'.flights.Keys
    requires forall t :: t in s'.flights && t != id ==> s''.flights[t] == s'.flights[t]
    requires s''.flights[id].since == s'.flights[id].since
    ensures Follows(s, s'')
  {
  }

  lemma FollowsStep(s: State, s': State, a: Action, cidr: string -> bool)
    requires Follows(s, s') && StaysStopped([a], cidr)
    ensures Follows(s, Perform(s', a, cidr))
  {
    assert [a][0] == a;
    if a.Step? && CanStep(s', a.id) {
      AdvanceFrame(s', a.id, a.choice);
      FollowsAdvance(s, s', a.id, Advance(s', a.id, a.choice));
    }
  }

  lemma {:induction false} FollowsRun(s: State, s': State, acts: seq<Action>, cidr: string -> bool)
    requires Follows(s, s') && StaysStopped(acts, cidr)
    ensures Follows(s, Exec(s', acts, cidr))
    decreases |acts|
  {
    if acts != [] {
      assert StaysStopped([acts[0]], cidr);
      FollowsStep(s, s', acts[0], cidr);
      assert StaysStopped(acts[1..], cidr);
      FollowsRun(s, Perform(s', acts[0], cidr), acts[1..], cidr);
    }
  }

  /** Every policy ever installed keeps its certificates within ceiling seconds. */
  ghost predicate Ceiling(s: State, ceiling: int) {
    && ceiling <= MAX_DURATION_SECONDS
    && forall k :: 0 <= k < |s.installed| ==> s.installed[k].MaxValidFor() <= ceiling
  }

  /** A certificate has been made for the request. */
  predicate IsIssued(s: State, id: RequestId) {
    id in s.flights && s.flights[id].pc.HasOutcome() && s.flights[id].pc.outcome.Issued?
  }

  function CertificateFor(s: State, id: RequestId): Certificate
    requires IsIssued(s, id)
  {
    s.flights[id].pc.outcome.certificate
  }

  predicate Stopped(s: State) {
    s.installed != [] && s.installed[|s.installed| - 1].disabled
  }

  /** The requests in flight in s have finished by the deadline, unless s' is not past it itself. */
  ghost predicate Drained(s: State, s': State, deadline: int) {
    s'.clock <= deadline ||
    forall id :: id in s.flights && !s.flights[id].pc.Done? ==>
      id in s'.flights && s'.flights[id].pc.Done? && s'.flights[id].pc.at <= deadline
  }

  lemma IssuedUnderCeiling(s: State, id: RequestId, ceiling: int, cidr: string -> bool)
    requires Inv(s, cidr) && Ceiling(s, ceiling) && IsIssued(s, id)
    ensures CertificateFor(s, id).validBefore * SECOND <= s.flights[id].pc.env.signedAt + ceiling * SECOND
  {
    assert FlightOk(s, id);
    var f := s.flights[id];
    var p := s.installed[f.pc.pol];
    assert WellFormed(p, cidr);
    assert p.MaxValidFor() <= ceiling;
    EndsWithinTtl(p, f.request, f.pc.env, cidr);
  }

  lemma IssuedByEnabled(s: State, id: RequestId, cidr: string -> bool)
    requires Inv(s, cidr) && IsIssued(s, id)
    ensures s.flights[id].since <= s.flights[id].pc.pol < |s.installed| && !s.installed[s.flights[id].pc.pol].disabled
    ensures s.flights[id].pc.env.signedAt <= s.clock
    ensures s.flights[id].pc.Done? ==> s.flights[id].pc.env.signedAt <= s.flights[id].pc.at <= s.clock
  {
    assert FlightOk(s, id);
    var f := s.flights[id];
    IssuedParts(s.installed[f.pc.pol], f.request, f.pc.env);
  }

  /** After the stop, only requests that were in flight get signed, and they by the deadline. */
  lemma SignedByDeadline(s: State, s': State, deadline: int, id: RequestId, cidr: string -> bool)
    requires Inv(s, cidr) && Inv(s', cidr) && Stopped(s) && Follows(s, s')
    requires s.clock <= deadline && Drained(s, s', deadline) && IsIssued(s', id)
    ensures s'.flights[id].pc.env.signedAt <= deadline
  {
    IssuedByEnabled(s', id, cidr);
    if id in s.flights && s.flights[id].pc.Done? {
      IssuedByEnabled(s, id, cidr);
    }
  }

  /**
   Emergency stop: once a disabled policy is active and none that is enabled
   follows, and the requests then in flight have finished by the deadline, every
   certificate ever issued ends within the largest ceiling after the deadline.
   */
  lemma EmergencyStop(s: State, acts: seq<Action>, deadline: int, ceiling: int, id: RequestId, cidr: string -> bool)
    requires Reachable(s, cidr) && Stopped(s) && StaysStopped(acts, cidr)
    requires s.clock <= deadline && Drained(s, Exec(s, acts, cidr), deadline) && Ceiling(Exec(s, acts, cidr), ceiling)
    requires IsIssued(Exec(s, acts, cidr), id)
    ensures CertificateFor(Exec(s, acts, cidr), id).validBefore * SECOND <= deadline + ceiling * SECOND
  {
    var s' := Exec(s, acts, cidr);
    ReachableInv(s, cidr);
    ExecKeepsInv(s, acts, cidr);
    FollowsRun(s, s, acts, cidr);
    SignedByDeadline(s, s', deadline, id, cidr);
    IssuedUnderCeiling(s', id, ceiling, cidr);
  }

  // --------------------------------------------------------- every decision of Sign happens

  /** The request is done in the end, with this outcome. */
  ghost predicate Ends(s: State, acts: seq<Action>, id: RequestId, outcome: Outcome, cidr: string -> bool) {
    var s' := Exec(s, acts, cidr);
    id in s'.flights && s'.flights[id].pc.Done? && s'.flights[id].pc.outcome == outcome
  }

  lemma EndsCons(s: State, a: Action, rest: seq<Action>, id: RequestId, outcome: Outcome, cidr: string -> bool)
    requires Ends(Perform(s, a, cidr), rest, id, outcome, cidr)
    ensures Ends(s, [a] + rest, id, outcome, cidr)
  {
    assert ([a] + rest)[1..] == rest;
  }

  const ANY := Choice(None, false)

  lemma ConcludedEnds(s: State, id: RequestId, cidr: string -> bool) returns (acts: seq<Action>)
    requires CanStep(s, id) && s.flights[id].pc.Concluded?
    ensures Ends(s, acts, id, s.flights[id].pc.outcome, cidr)
  {
    var a := Step(id, ANY);
    FinishIsRecorded(s, id, ANY, cidr);
    assert Exec(Perform(s, a, cidr), [], cidr) == Perform(s, a, cidr);
    EndsCons(s, a, [], id, s.flights[id].pc.outcome, cidr);
    acts := [a] + [];
  }

  lemma StampedEnds(s: State, id: RequestId, works: bool, cidr: string -> bool) returns (acts: seq<Action>)
    requires CanStep(s, id) && s.flights[id].pc.Stamped?
    ensures var f := s.flights[id];
      Ends(s, acts, id, Conclude(s.installed[f.pc.pol], f.pc.grant, f.request.body.key,
                                 Env(Some(f.pc.verified), f.pc.verifiedAt, f.pc.signedAt, works)), cidr)
  {
    var sign := Step(id, Choice(None, works));
    var s1 := Perform(s, sign, cidr);
    var rest := ConcludedEnds(s1, id, cidr);
    EndsCons(s, sign, rest, id, s1.flights[id].pc.outcome, cidr);
    acts := [sign] + rest;
  }

  lemma ApprovedEnds(s: State, id: RequestId, env: Env, cidr: string -> bool) returns (acts: seq<Action>)
    requires CanStep(s, id) && s.flights[id].pc.Approved? && s.flights[id].request.body.Key?
    requires env.verified == Some(s.flights[id].pc.verified) && env.verifiedAt == s.flights[id].pc.verifiedAt
    requires s.clock <= env.signedAt
    ensures Ends(s, acts, id, Conclude(s.installed[s.flights[id].pc.pol], s.flights[id].pc.grant,
                                       s.flights[id].request.body.key, env), cidr)
  {
    var f := s.flights[id];
    var wait, stamp := Tick(env.signedAt - s.clock), Step(id, ANY);
    var s1 := Perform(s, wait, cidr);
    var s2 := Perform(s1, stamp, cidr);
    assert s2.flights[id] == f.(pc := Stamped(f.pc.pol, f.pc.verified, f.pc.verifiedAt, f.pc.grant, env.signedAt));
    var outcome := Conclude(s.installed[f.pc.pol], f.pc.grant, f.request.body.key, env);
    var rest := StampedEnds(s2, id, env.signerWorks, cidr);
    EndsCons(s1, stamp, rest, id, outcome, cidr);
    EndsCons(s, wait, [stamp] + rest, id, outcome, cidr);
    acts := [wait] + ([stamp] + rest);
  }

  /** What verification comes to: a denial, or the way to the signer. */
  function BehindGate(p: Policy, request: Request, env: Env): Outcome
    requires request.body.Key? && request.token.Some? && request.token.value.issuer.Some?
  {
    match Authenticate(request.token.value.issuer.value, env.verified, env.verifiedAt)
    case None => Denied(Denial(401, TokenInvalid))
    case Some(who) =>
      match Authorize(p, who)
      case Err(denial) => Denied(denial)
      case Ok(g) => Conclude(p, g, request.body.key, env)
  }

  lemma VerifyingEnds(s: State, id: RequestId, env: Env, cidr: string -> bool) returns (acts: seq<Action>)
    requires CanStep(s, id) && s.flights[id].pc.Verifying? && s.flights[id].request.body.Key?
    requires s.clock <= env.verifiedAt <= env.signedAt
    ensures Ends(s, acts, id, BehindGate(s.installed[s.flights[id].pc.pol], s.flights[id].request, env), cidr)
  {
    var wait, verify := Tick(env.verifiedAt - s.clock), Step(id, Choice(env.verified, false));
    var s1 := Perform(s, wait, cidr);
    var s2 := Perform(s1, verify, cidr);
    var outcome := BehindGate(s.installed[s.flights[id].pc.pol], s.flights[id].request, env);
    var rest;
    if s2.flights[id].pc.Approved? {
      rest := ApprovedEnds(s2, id, env, cidr);
    } else {
      rest := ConcludedEnds(s2, id, cidr);
    }
    EndsCons(s1, verify, rest, id, outcome, cidr);
    EndsCons(s, wait, [verify] + rest, id, outcome, cidr);
    acts := [wait] + ([verify] + rest);
  }

  lemma PresentedEnds(s: State, id: RequestId, env: Env, cidr: string -> bool) returns (acts: seq<Action>)
    requires CanStep(s, id) && s.flights[id].pc.Presented? && s.flights[id].request.post
    requires Screen(s.installed[s.flights[id].pc.pol], s.flights[id].request).None?
    requires s.clock <= env.verifiedAt <= env.signedAt
    ensures Ends(s, acts, id, Decide(s.installed[s.flights[id].pc.pol], s.flights[id].request, env), cidr)
  {
    var gate := Step(id, ANY);
    var s1 := Perform(s, gate, cidr);
    var rest;
    if s1.flights[id].pc.Verifying? {
      rest := VerifyingEnds(s1, id, env, cidr);
    } else {
      rest := ConcludedEnds(s1, id, cidr);
    }
    EndsCons(s, gate, rest, id, Decide(s.installed[s.flights[id].pc.pol], s.flights[id].request, env), cidr);
    acts := [gate] + rest;
  }

  lemma LoadedEnds(s: State, id: RequestId, env: Env, cidr: string -> bool) returns (acts: seq<Action>)
    requires CanStep(s, id) && s.flights[id].pc.Loaded? && s.flights[id].request.post
    requires s.clock <= env.verifiedAt <= env.signedAt
    ensures Ends(s, acts, id, Decide(s.installed[s.flights[id].pc.pol], s.flights[id].request, env), cidr)
  {
    var screen := Step(id, ANY);
    var s1 := Perform(s, screen, cidr);
    var rest;
    if s1.flights[id].pc.Presented? {
      rest := PresentedEnds(s1, id, env, cidr);
    } else {
      rest := ConcludedEnds(s1, id, cidr);
    }
    EndsCons(s, screen, rest, id, Decide(s.installed[s.flights[id].pc.pol], s.flights[id].request, env), cidr);
    acts := [screen] + rest;
  }

  /**
   Whatever Sign can decide about a request under the active policy, some run
   decides, whatever the other requests are doing: with the clock readings, the
   verification result and the signer asked for.
   */
  lemma EveryDecisionHappens(s: State, id: RequestId, request: Request, env: Env, cidr: string -> bool)
    returns (acts: seq<Action>)
    requires Reachable(s, cidr) && id !in s.flights && s.clock <= env.verifiedAt <= env.signedAt
    ensures s.installed != []
    ensures Ends(s, acts, id, Decide(s.installed[|s.installed| - 1], request, env), cidr)
  {
    ReachableInv(s, cidr);
    ArrivalLoadsActive(s, id, request, ANY, cidr);
    var receive, load := Receive(id, request), Step(id, ANY);
    var s1 := Perform(s, receive, cidr);
    var s2 := Perform(s1, load, cidr);
    var rest;
    if request.post {
      rest := LoadedEnds(s2, id, env, cidr);
    } else {
      rest := ConcludedEnds(s2, id, cidr);
    }
    var outcome := Decide(s.installed[|s.installed| - 1], request, env);
    EndsCons(s1, load, rest, id, outcome, cidr);
    EndsCons(s, receive, [load] + rest, id, outcome, cidr);
    acts := [receive] + ([load] + rest);
  }
}
