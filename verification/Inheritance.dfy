/**
 What inheriting from `defaults` means: a policy can be rewritten so that every
 rule states all of its values itself, and nothing that the server does changes.
 */
module Inheritance {
  import opened Base
  import opened PolicyFile
  import opened Match
  import opened CertIssuer
  import opened Server

  // ----------------------------------------------------------------------- the rewriting

  function Own<T>(own: Option<T>, inherited: Option<T>): Option<T> {
    match (own, inherited)
    case (Some(_), _) => own
    case (None, _) => inherited
  }

  /** A rule with the values it inherits written into it: each replaced as a whole, none merged. */
  function InlinedRule(d: Defaults, r: Rule): Rule {
    var c := r.certificate;
    var extensions := Own(Own(c.extensions, d.extensions), Some(Extensions(false, false, false, false, false)));
    r.(certificate := c.(
      validFor := Own(c.validFor, d.validFor),
      keyIdTemplate := if c.keyIdTemplate == "" then d.keyIdTemplate else c.keyIdTemplate,
      extensions := extensions,
      sourceAddress := if |c.sourceAddress| == 0 then d.sourceAddress else c.sourceAddress))
  }

  function InlinedRules(d: Defaults, rules: seq<Rule>): (r: seq<Rule>)
    ensures |r| == |rules|
    ensures forall i :: 0 <= i < |rules| ==> r[i] == InlinedRule(d, rules[i])
  {
    seq(|rules|, i requires 0 <= i < |rules| => InlinedRule(d, rules[i]))
  }

  /** Nothing left to inherit, and the limits of the whole policy spelled out. */
  function Inlined(p: Policy): Policy {
    var d := p.defaults;
    p.(defaults := Defaults(Own(d.validAfterOffset, Some(-30)), Own(d.maxValidFor, Some(900)),
                            if d.publicKeyTypes == [] then ["ssh-ed25519"] else d.publicKeyTypes,
                            None, None, "", []),
       rules := InlinedRules(d, p.rules))
  }

  // ------------------------------------------------------------------- what does not change

  lemma EffectiveLimits(p: Policy)
    ensures Inlined(p).ValidAfterOffset() == p.ValidAfterOffset()
    ensures Inlined(p).MaxValidFor() == p.MaxValidFor()
    ensures Inlined(p).PublicKeyTypes() == p.PublicKeyTypes()
  {
  }

  lemma EffectiveValues(p: Policy, r: Rule)
    ensures var q, s := Inlined(p), InlinedRule(p.defaults, r);
      && q.ValidFor(s) == p.ValidFor(r)
      && q.KeyIdTemplateFor(s) == p.KeyIdTemplateFor(r)
      && q.ExtensionsFor(s) == p.ExtensionsFor(r)
      && q.SourceAddressFor(s) == p.SourceAddressFor(r)
  {
  }

  lemma RuleOkInlined(p: Policy, r: Rule, cidr: string -> bool)
    ensures RuleOk(Inlined(p), InlinedRule(p.defaults, r), cidr) <==> RuleOk(p, r, cidr)
  {
    EffectiveLimits(p);
    EffectiveValues(p, r);
  }

  lemma NamesInlined(d: Defaults, rules: seq<Rule>)
    ensures NamesDistinct(InlinedRules(d, rules)) <==> NamesDistinct(rules)
  {
    assert forall i :: 0 <= i < |rules| ==> InlinedRules(d, rules)[i].name == rules[i].name;
  }

  /** Validation accepts a policy iff it accepts the defaults alone and the rewritten policy. */
  lemma InliningKeepsValidity(p: Policy, cidr: string -> bool)
    ensures WellFormed(p, cidr) <==> DefaultsOk(p, cidr) && WellFormed(Inlined(p), cidr)
  {
    EffectiveLimits(p);
    NamesInlined(p.defaults, p.rules);
    forall i | 0 <= i < |p.rules|
      ensures RuleOk(Inlined(p), Inlined(p).rules[i], cidr) <==> RuleOk(p, p.rules[i], cidr)
    {
      RuleOkInlined(p, p.rules[i], cidr);
    }
  }

  /** The same rules match. */
  lemma {:induction false} MatchingInlined(d: Defaults, rules: seq<Rule>, id: Identity)
    ensures MatchingRules(InlinedRules(d, rules), id) == InlinedRules(d, MatchingRules(rules, id))
  {
    if rules != [] {
      var past, last := rules[..|rules| - 1], rules[|rules| - 1];
      MatchingInlined(d, past, id);
      assert InlinedRules(d, rules)[..|rules| - 1] == InlinedRules(d, past);
      assert Applies(InlinedRule(d, last), id) == Applies(last, id);
    }
  }

  lemma {:induction false} IssuersInlined(d: Defaults, rules: seq<Rule>)
    ensures IssuersOf(InlinedRules(d, rules)) == IssuersOf(rules)
  {
    if rules != [] {
      IssuersInlined(d, rules[..|rules| - 1]);
      assert InlinedRules(d, rules)[..|rules| - 1] == InlinedRules(d, rules[..|rules| - 1]);
    }
  }

  /** The verdict is the same, with the rewritten rule in place of the rule. */
  lemma VerdictInlined(p: Policy, id: Identity)
    ensures var d, e := Verdict(p, id), Verdict(Inlined(p), id);
      && e.reason == d.reason && e.matchedRules == d.matchedRules
      && e.rule == match d.rule case None => None case Some(r) => Some(InlinedRule(p.defaults, r))
  {
    MatchingInlined(p.defaults, p.rules, id);
    assert Names(InlinedRules(p.defaults, MatchingRules(p.rules, id))) == Names(MatchingRules(p.rules, id));
  }

  /** An outcome as the rewritten policy reports it: another text of the same rule. */
  function WithInlinedRule(d: Defaults, o: Outcome): Outcome {
    match o
    case Denied(_) => o
    case Issued(g, validFor, cert) => Issued(g.(rule := InlinedRule(d, g.rule)), validFor, cert)
  }

  lemma AuthorizeInlined(p: Policy, id: Identity)
    ensures Authorize(Inlined(p), id) == match Authorize(p, id)
      case Err(denial) => Err(denial)
      case Ok(g) => Ok(g.(rule := InlinedRule(p.defaults, g.rule)))
  {
    VerdictInlined(p, id);
    var rule := Verdict(p, id).rule;
    if rule.Some? {
      EffectiveValues(p, rule.value);
    }
  }

  lemma ConcludeInlined(p: Policy, g: Grant, key: PublicKey, env: Env)
    ensures Conclude(Inlined(p), g.(rule := InlinedRule(p.defaults, g.rule)), key, env)
         == WithInlinedRule(p.defaults, Conclude(p, g, key, env))
  {
    EffectiveLimits(p);
    EffectiveValues(p, g.rule);
  }

  /** Every request is denied for the same reason or gets the very same certificate. */
  lemma InliningKeepsDecisions(p: Policy, req: Request, env: Env)
    ensures Decide(Inlined(p), req, env) == WithInlinedRule(p.defaults, Decide(p, req, env))
  {
    IssuersInlined(p.defaults, p.rules);
    EffectiveLimits(p);
    assert Screen(Inlined(p), req) == Screen(p, req);
    if req.post && Screen(p, req).None? && PassesGate(IssuersOf(p.rules), req.token.value) {
      var id := Authenticate(req.token.value.issuer.value, env.verified, env.verifiedAt);
      if id.Some? {
        AuthorizeInlined(p, id.value);
        var grant := Authorize(p, id.value);
        if grant.Ok? {
          ConcludeInlined(p, grant.value, req.body.key, env);
        }
      }
    }
  }

  /** The rewritten policy has what AuditedSourceAddress asks for: events that show the certificate's list. */
  lemma InlinedEventsShowAddresses(p: Policy, req: Request, env: Env, cidr: string -> bool, request: nat)
    requires WellFormed(p, cidr) && CidrOracle(cidr) && Decide(Inlined(p), req, env).Issued?
    ensures var o := Decide(Inlined(p), req, env);
      var options := o.certificate.criticalOptions;
      EventOf(request, o).sourceAddress
      == if SOURCE_ADDRESS in options then Split(options[SOURCE_ADDRESS], ',') else []
  {
    InliningKeepsValidity(p, cidr);
    AuditedSourceAddress(Inlined(p), req, env, cidr, request);
  }
}
