/**
 What a rule's `enabled` flag means: a rule that is switched off might as well
 not be in the file, and leaving the flag out is the same as switching it on.
 */
module Switches {
  import opened Base
  import opened PolicyFile
  import opened Match
  import opened Server
  import CertIssuer

  // ------------------------------------------------------------------ switched-off rules

  /** The rules that do not say `enabled: false`. */
  function WithoutOff(rules: seq<Rule>): seq<Rule> {
    if rules == [] then []
    else
      var past, last := rules[..|rules| - 1], rules[|rules| - 1];
      WithoutOff(past) + match last.enabled case Some(false) => [] case _ => [last]
  }

  lemma LastKept(rules: seq<Rule>)
    requires rules != []
    ensures var kept, past, last := WithoutOff(rules), WithoutOff(rules[..|rules| - 1]), rules[|rules| - 1];
      if last.enabled == Some(false) then kept == past
      else kept != [] && kept[|kept| - 1] == last && kept[..|kept| - 1] == past
  {
  }

  lemma {:induction false} MatchingWithoutOff(rules: seq<Rule>, id: Identity)
    ensures MatchingRules(WithoutOff(rules), id) == MatchingRules(rules, id)
  {
    if rules != [] {
      var past, last := rules[..|rules| - 1], rules[|rules| - 1];
      MatchingWithoutOff(past, id);
      LastKept(rules);
    }
  }

  lemma {:induction false} IssuersWithoutOff(rules: seq<Rule>)
    ensures IssuersOf(WithoutOff(rules)) == IssuersOf(rules)
  {
    if rules != [] {
      var past, last := rules[..|rules| - 1], rules[|rules| - 1];
      IssuersWithoutOff(past);
      LastKept(rules);
    }
  }

  /** Two policies that agree on these decide alike. */
  lemma SameDecision(p: Policy, q: Policy, req: Request, env: Env)
    requires p.disabled == q.disabled && p.defaults == q.defaults && IssuersOf(p.rules) == IssuersOf(q.rules)
    requires IdentityOf(req, env).Some? ==>
               Authorize(p, IdentityOf(req, env).value) == Authorize(q, IdentityOf(req, env).value)
    ensures Decide(p, req, env) == Decide(q, req, env)
  {
    assert Screen(q, req) == Screen(p, req);
    var who := IdentityOf(req, env);
    if req.body.Key? && who.Some? && Authorize(p, who.value).Ok? {
      SameConclusion(p, q, Authorize(p, who.value).value, req.body.key, env);
    }
  }

  lemma SameConclusion(p: Policy, q: Policy, g: Grant, key: CertIssuer.PublicKey, env: Env)
    requires p.defaults == q.defaults
    ensures Conclude(p, g, key, env) == Conclude(q, g, key, env)
  {
  }

  /** Deleting every switched-off rule changes no verdict, no list of issuers and no decision. */
  lemma OffRulesIrrelevant(p: Policy, id: Identity, req: Request, env: Env)
    ensures var q := p.(rules := WithoutOff(p.rules));
      && Verdict(q, id) == Verdict(p, id)
      && IssuersOf(q.rules) == IssuersOf(p.rules)
      && Decide(q, req, env) == Decide(p, req, env)
  {
    var q := p.(rules := WithoutOff(p.rules));
    MatchingWithoutOff(p.rules, id);
    IssuersWithoutOff(p.rules);
    var who := IdentityOf(req, env);
    if who.Some? {
      MatchingWithoutOff(p.rules, who.value);
    }
    SameDecision(p, q, req, env);
  }

  /** The rule that a policy allows an identity by does not say `enabled: false`. */
  lemma AllowedIsNotOff(p: Policy, id: Identity, r: Rule)
    requires Verdict(p, id).rule == Some(r)
    ensures r.enabled != Some(false)
  {
    OffNeverMatches(p.rules, id);
  }

  lemma {:induction false} OffNeverMatches(rules: seq<Rule>, id: Identity)
    ensures forall k :: 0 <= k < |MatchingRules(rules, id)| ==> MatchingRules(rules, id)[k].enabled != Some(false)
  {
    if rules != [] {
      OffNeverMatches(rules[..|rules| - 1], id);
    }
  }

  predicate AsksFor(r: Rule, issuer: string) {
    r.enabled != Some(false) && r.jwt.Some? && r.jwt.value.issuer == issuer
  }

  /** An issuer is listed exactly when some rule that is not switched off asks for it. */
  lemma IssuersOfRulesNotOff(rules: seq<Rule>, issuer: string)
    ensures issuer in IssuersOf(rules) <==>
              issuer != "" && exists i :: 0 <= i < |rules| && AsksFor(rules[i], issuer)
  {
    IssuersExact(rules);
    if issuer in IssuersOf(rules) {
      var i :| 0 <= i < |rules| && IssuerOf(rules[i]) == Some(issuer);
      assert AsksFor(rules[i], issuer);
    }
    if i :| issuer != "" && 0 <= i < |rules| && AsksFor(rules[i], issuer) {
      assert IssuerOf(rules[i]) == Some(issuer);
    }
  }

  // --------------------------------------------------------------------- the flag left out

  function SwitchedOn(r: Rule): Rule {
    match r.enabled
    case None => r.(enabled := Some(true))
    case Some(_) => r
  }

  function AllSwitchedOn(rules: seq<Rule>): (r: seq<Rule>)
    ensures |r| == |rules| && forall i :: 0 <= i < |rules| ==> r[i] == SwitchedOn(rules[i])
  {
    seq(|rules|, i requires 0 <= i < |rules| => SwitchedOn(rules[i]))
  }

  lemma {:induction false} MatchingSwitchedOn(rules: seq<Rule>, id: Identity)
    ensures MatchingRules(AllSwitchedOn(rules), id) == AllSwitchedOn(MatchingRules(rules, id))
  {
    if rules != [] {
      var past, last := rules[..|rules| - 1], rules[|rules| - 1];
      MatchingSwitchedOn(past, id);
      assert AllSwitchedOn(rules)[..|rules| - 1] == AllSwitchedOn(past);
      assert Applies(SwitchedOn(last), id) == Applies(last, id);
    }
  }

  lemma {:induction false} IssuersSwitchedOn(rules: seq<Rule>)
    ensures IssuersOf(AllSwitchedOn(rules)) == IssuersOf(rules)
  {
    if rules != [] {
      IssuersSwitchedOn(rules[..|rules| - 1]);
      assert AllSwitchedOn(rules)[..|rules| - 1] == AllSwitchedOn(rules[..|rules| - 1]);
    }
  }

  function WithSwitchedOn(o: Outcome): Outcome {
    match o
    case Denied(_) => o
    case Issued(g, validFor, cert) => Issued(g.(rule := SwitchedOn(g.rule)), validFor, cert)
  }

  lemma AuthorizeSwitchedOn(p: Policy, id: Identity)
    ensures Authorize(p.(rules := AllSwitchedOn(p.rules)), id) == match Authorize(p, id)
      case Err(denial) => Err(denial)
      case Ok(g) => Ok(g.(rule := SwitchedOn(g.rule)))
  {
    MatchingSwitchedOn(p.rules, id);
  }

  lemma ConcludeSwitchedOn(p: Policy, g: Grant, key: CertIssuer.PublicKey, env: Env)
    ensures Conclude(p.(rules := AllSwitchedOn(p.rules)), g.(rule := SwitchedOn(g.rule)), key, env)
         == WithSwitchedOn(Conclude(p, g, key, env))
  {
  }

  /** Leaving the flag out means switched on: writing it in changes no decision and no certificate. */
  lemma AbsentMeansOn(p: Policy, req: Request, env: Env)
    ensures Decide(p.(rules := AllSwitchedOn(p.rules)), req, env) == WithSwitchedOn(Decide(p, req, env))
  {
    var q := p.(rules := AllSwitchedOn(p.rules));
    IssuersSwitchedOn(p.rules);
    assert Screen(q, req) == Screen(p, req);
    var who := IdentityOf(req, env);
    if who.Some? {
      AuthorizeSwitchedOn(p, who.value);
      if Authorize(p, who.value).Ok? && req.body.Key? {
        ConcludeSwitchedOn(p, Authorize(p, who.value).value, req.body.key, env);
      }
    }
  }
}
