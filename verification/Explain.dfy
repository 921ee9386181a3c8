/**
 The explain subcommand (cmd/oidc-ssh-ca/explain.go): what it reports about an
 identity, and that the report predicts what the signing pipeline does.
 */
module Explain {
  import opened Base
  import opened PolicyFile
  import opened Match
  import opened Server
  import opened CertIssuer
  import KeyId
  import TokenTime
  import Reference

  /** One line under "no rule matched": a rule and the condition it failed. */
  datatype Line = Line(rule: string, why: Why)

  datatype Report =
    | AllDenied
    | Matched(rule: string, principals: seq<string>, ttl: int, forceCommand: string, sourceAddress: seq<string>,
              keyId: Result<string, KeyId.KeyIdError>)
    | Ambiguous(rules: seq<string>)
    | NoMatch(lines: seq<Line>)

  /** Some order in which to range over a map. */
  method PickOrder(m: map<string, string>) returns (order: seq<string>)
    ensures IsOrder(order, m)
  {
    var rest := m.Keys;
    order := [];
    while rest != {}
      invariant rest <= m.Keys
      invariant forall i :: 0 <= i < |order| ==> order[i] in m && order[i] !in rest
      invariant forall c :: c in m ==> c in rest || c in order
      invariant forall i, j :: 0 <= i < j < |order| ==> order[i] != order[j]
      decreases |rest|
    {
      var c :| c in rest;
      order := order + [c];
      rest := rest - {c};
    }
  }

  method ExplainRule(r: Rule, id: Identity) returns (why: Option<Why>)
    ensures why.None? <==> Applies(r, id)
    ensures why.Some? ==> ReallyFails(r, id, why.value)
  {
    if r.jwt.None? {
      return Some(NoMatchBlock);
    }
    var order := PickOrder(r.jwt.value.claimsExact);
    ExplainAgreesWithMatching(r, id, order, order);
    MatchingIgnoresOrder(r, id, order);
    return ExplainIn(r, id, order);
  }

  /** What a report must say about a policy and an identity. */
  predicate Tells(p: Policy, id: Identity, report: Report) {
    var d := Verdict(p, id);
    if p.disabled then report == AllDenied
    else if d.Allowed() then
      var r := d.rule.value;
      report == Matched(r.name, r.certificate.principals, p.ValidFor(r), r.certificate.forceCommand,
                        p.SourceAddressFor(r), KeyId.KeyIdOf(p.KeyIdTemplateFor(r), id.claims))
    else if d.reason == Some(MultipleRulesMatched) then report == Ambiguous(d.matchedRules)
    else
      && report.NoMatch? && |report.lines| == |p.rules|
      && forall i :: 0 <= i < |p.rules| ==>
           report.lines[i].rule == p.rules[i].name && ReallyFails(p.rules[i], id, report.lines[i].why)
  }

  /** cmdExplain, once the policy and the claims file are loaded. */
  method ExplainIdentity(p: Policy, id: Identity) returns (report: Report)
    ensures Tells(p, id, report)
  {
    if p.disabled {
      return AllDenied;
    }
    var d := Evaluate(p, id);
    if d.Allowed() {
      var r := d.rule.value;
      var keyId := KeyId.ExpandKeyID(p.KeyIdTemplateFor(r), id.claims);
      return Matched(r.name, r.certificate.principals, p.ValidFor(r), r.certificate.forceCommand,
                     p.SourceAddressFor(r), keyId);
    } else if d.reason == Some(MultipleRulesMatched) {
      return Ambiguous(d.matchedRules);
    }
    NoneMatching(p.rules, id);
    var lines := ExplainRules(p, id);
    return NoMatch(lines);
  }

  /** The loop under "no rule matched". */
  method ExplainRules(p: Policy, id: Identity) returns (lines: seq<Line>)
    requires forall i :: 0 <= i < |p.rules| ==> !Applies(p.rules[i], id)
    ensures |lines| == |p.rules|
    ensures forall i :: 0 <= i < |p.rules| ==>
              lines[i].rule == p.rules[i].name && ReallyFails(p.rules[i], id, lines[i].why)
  {
    lines := [];
    for i := 0 to |p.rules|
      invariant |lines| == i
      invariant forall j :: 0 <= j < i ==> lines[j].rule == p.rules[j].name && ReallyFails(p.rules[j], id, lines[j].why)
    {
      var why := ExplainRule(p.rules[i], id);
      if why.Some? {
        lines := lines + [Line(p.rules[i].name, why.value)];
      }
    }
  }

  /** The request arrives intact and its token verifies as the explained identity, now. */
  predicate Presents(p: Policy, req: Request, env: Env, id: Identity) {
    && req.post && req.bodyLength <= MAX_REQUEST_BODY
    && req.body.Key? && req.body.key.keyType in p.PublicKeyTypes()
    && req.token == Some(Token(Some(id.issuer)))
    && env.verified == Some(Verified(id.audiences, id.claims))
    && TokenTime.CheckTimeClaims(id.claims, env.verifiedAt).None?
  }

  /**
   Explain predicts Sign: with a valid key, a verified token and a working
   signer, a certificate is issued exactly when explain reports a rule and a key
   ID, and then for that rule, principals, lifetime and key ID.
   */
  lemma ExplainPredictsSign(p: Policy, id: Identity, report: Report, req: Request, env: Env, cidr: string -> bool)
    requires WellFormed(p, cidr) && Tells(p, id, report) && Presents(p, req, env, id) && env.signerWorks
    ensures Decide(p, req, env).Issued? <==> report.Matched? && report.keyId.Ok?
    ensures Decide(p, req, env).Issued? ==>
              var o := Decide(p, req, env);
              && o.grant.rule.name == report.rule
              && o.certificate.principals == report.principals
              && o.validFor == report.ttl
              && o.certificate.keyId == report.keyId.value
              && o.certificate.criticalOptions == CriticalOptions(report.forceCommand, report.sourceAddress)
  {
    assert IdentityOf(req, env) == Some(id);
    if Verdict(p, id).Allowed() {
      GateAdmitsAllowed(p, id, cidr);
    }
    if Decide(p, req, env).Issued? {
      IssuedContents(p, req, env);
      IssuedTimes(p, req, env);
    }
  }

  /** Behind the gate, a request whose token verifies is decided by the policy and the signer alone. */
  lemma PresentedDecision(p: Policy, req: Request, env: Env, id: Identity)
    requires Presents(p, req, env, id) && id.issuer in IssuersOf(p.rules)
    ensures p.disabled ==> Decide(p, req, env) == Denied(Denial(503, Unmatched(PolicyDisabled)))
    ensures !p.disabled && Authorize(p, id).Err? ==> Decide(p, req, env) == Denied(Authorize(p, id).error)
    ensures !p.disabled && Authorize(p, id).Ok? ==>
              Decide(p, req, env) == Conclude(p, Authorize(p, id).value, req.body.key, env)
  {
  }

  /** Nothing matches an identity whose issuer no enabled rule of a valid policy names. */
  lemma UnreferencedIssuer(p: Policy, id: Identity, cidr: string -> bool)
    requires WellFormed(p, cidr) && id.issuer !in IssuersOf(p.rules)
    ensures MatchingRules(p.rules, id) == []
  {
    forall i | 0 <= i < |p.rules| ensures !Applies(p.rules[i], id) {
      assert RuleOk(p, p.rules[i], cidr);
      IssuersExact(p.rules);
    }
    NoneMatching(p.rules, id);
  }

  /**
   Every negative report corresponds to one denial. Where no rule applies, Sign
   turns away an issuer that no enabled rule names before it looks at the rules.
   */
  lemma ExplainPredictsDenial(p: Policy, id: Identity, report: Report, req: Request, env: Env, cidr: string -> bool)
    requires Tells(p, id, report) && Presents(p, req, env, id)
    requires WellFormed(p, cidr) || id.issuer in IssuersOf(p.rules)
    ensures report.AllDenied? <==> Decide(p, req, env) == Denied(Denial(503, Unmatched(PolicyDisabled)))
    ensures report.Ambiguous? <==> Decide(p, req, env) == Denied(Denial(403, Unmatched(MultipleRulesMatched)))
    ensures report.NoMatch? && id.issuer in IssuersOf(p.rules) <==>
              Decide(p, req, env) == Denied(Denial(403, Unmatched(NoRuleMatched)))
    ensures report.NoMatch? && id.issuer !in IssuersOf(p.rules) <==>
              Decide(p, req, env) == Denied(Denial(401, TokenInvalid))
    ensures (report.Matched? && report.keyId.Err?) <==> Decide(p, req, env) == Denied(Denial(403, KeyIdInvalid))
  {
    if id.issuer in IssuersOf(p.rules) {
      PresentedDecision(p, req, env, id);
    } else {
      UnreferencedIssuer(p, id, cidr);
    }
  }

  /** What a report says of the rules that apply, over the raw fields of the policy. */
  lemma ReportExactly(p: Policy, id: Identity, report: Report) returns (at: seq<nat>)
    requires Tells(p, id, report)
    ensures forall k :: 0 <= k < |at| ==> at[k] < |p.rules| && Reference.RuleSays(p.rules[at[k]], id)
    ensures forall k, l :: 0 <= k < l < |at| ==> at[k] < at[l]
    ensures forall i :: 0 <= i < |p.rules| && Reference.RuleSays(p.rules[i], id) ==> i in at
    ensures report.AllDenied? <==> p.disabled
    ensures report.Matched? <==> !p.disabled && |at| == 1
    ensures report.Ambiguous? <==> !p.disabled && |at| >= 2
    ensures report.NoMatch? <==> !p.disabled && |at| == 0
    ensures report.Ambiguous? ==>
              |report.rules| == |at| && forall k :: 0 <= k < |at| ==> report.rules[k] == p.rules[at[k]].name
    ensures report.Matched? ==>
              var r := p.rules[at[0]];
              && report.rule == r.name && report.principals == r.certificate.principals
              && report.forceCommand == r.certificate.forceCommand && Reference.SourcesAre(p, r, report.sourceAddress)
              && (0 < report.ttl ==> Reference.LifetimeIs(p, r, report.ttl))
              && (forall keyId :: report.keyId == Ok(keyId) <==> Reference.KeyIdFor(p, r, id, keyId))
    ensures report.NoMatch? ==>
              |report.lines| == |p.rules| && forall i :: 0 <= i < |p.rules| ==> report.lines[i].rule == p.rules[i].name
  {
    at := Reference.MatchedNamesExactly(p, id);
    if report.Matched? {
      var r := p.rules[at[0]];
      Reference.GettersExact(p, r);
      forall keyId ensures report.keyId == Ok(keyId) <==> Reference.KeyIdFor(p, r, id, keyId) {
        Reference.KeyIdForExactly(p, r, id, keyId);
      }
    }
  }
}
