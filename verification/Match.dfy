/**
 Matching an identity against a policy (internal/policy/match.go): the
 exactly-one-match verdict, and the explanation that must agree with it.
 */
module Match {
  import opened Base
  import opened PolicyFile
  import KeyId

  datatype Identity = Identity(issuer: string, audiences: seq<string>, claims: KeyId.Claims)

  /** The verified claim, if it is a string. */
  function TextClaim(id: Identity, name: string): Option<string> {
    if name in id.claims && id.claims[name].Text? then Some(id.claims[name].text) else None
  }

  /** strings.Cut at the first '/'. */
  function CutSlash(s: string): Option<(string, string)> {
    if s == "" then None
    else if s[0] == '/' then Some(("", s[1..]))
    else
      match CutSlash(s[1..])
      case None => None
      case Some((before, after)) => Some(([s[0]] + before, after))
  }

  /** The owner and reponame conditions. */
  predicate RepositoryMatches(m: JwtMatch, id: Identity) {
    m.owner != "" || m.repoName != "" ==>
      var repo := TextClaim(id, "repository");
      && repo.Some? && CutSlash(repo.value).Some?
      && var (owner, name) := CutSlash(repo.value).value;
      && (m.owner != "" ==> m.owner == owner)
      && (m.repoName != "" ==> m.repoName == name)
  }

  /** All conditions of a rule hold, whether or not it is enabled. */
  predicate RuleMatches(r: Rule, id: Identity) {
    && r.jwt.Some?
    && var m := r.jwt.value;
    && m.issuer == id.issuer
    && m.audience in id.audiences
    && RepositoryMatches(m, id)
    && forall claim :: claim in m.claimsExact ==> TextClaim(id, claim) == Some(m.claimsExact[claim])
  }

  /** One order in which Go may range over a map. */
  predicate IsOrder(order: seq<string>, m: map<string, string>) {
    && (forall i :: 0 <= i < |order| ==> order[i] in m)
    && (forall c :: c in m ==> c in order)
    && forall i, j :: 0 <= i < j < |order| ==> order[i] != order[j]
  }

  /** The claims_exact loop of ruleMatches, leaving at the first claim that fails. */
  predicate ClaimsMatchIn(m: map<string, string>, id: Identity, order: seq<string>)
    requires forall i :: 0 <= i < |order| ==> order[i] in m
  {
    if order == [] then true
    else if TextClaim(id, order[0]) != Some(m[order[0]]) then false
    else ClaimsMatchIn(m, id, order[1..])
  }

  /** ruleMatches with the map ranged over in the given order. */
  predicate RuleMatchesIn(r: Rule, id: Identity, order: seq<string>)
    requires r.jwt.Some? ==> IsOrder(order, r.jwt.value.claimsExact)
  {
    if r.jwt.None? then false
    else
      var m := r.jwt.value;
      if m.issuer != id.issuer then false
      else if m.audience !in id.audiences then false
      else if (m.owner != "" || m.repoName != "") && !RepositoryMatches(m, id) then false
      else ClaimsMatchIn(m.claimsExact, id, order)
  }

  lemma {:induction false} ClaimsMatchAll(m: map<string, string>, id: Identity, order: seq<string>)
    requires forall i :: 0 <= i < |order| ==> order[i] in m
    ensures ClaimsMatchIn(m, id, order) <==> forall c :: c in order ==> TextClaim(id, c) == Some(m[c])
  {
    if order != [] {
      ClaimsMatchAll(m, id, order[1..]);
      assert forall c :: c in order <==> c == order[0] || c in order[1..];
    }
  }

  /** Whatever order Go picks, the verdict on a rule is the same. */
  lemma MatchingIgnoresOrder(r: Rule, id: Identity, order: seq<string>)
    requires r.jwt.Some? ==> IsOrder(order, r.jwt.value.claimsExact)
    ensures RuleMatchesIn(r, id, order) <==> RuleMatches(r, id)
  {
    if r.jwt.Some? {
      ClaimsMatchAll(r.jwt.value.claimsExact, id, order);
    }
  }

  /** The cut is at the first '/', if there is one, and loses nothing. */
  lemma {:induction false} CutSlashParts(s: string)
    ensures CutSlash(s).None? <==> '/' !in s
    ensures CutSlash(s).Some? ==>
              var (before, after) := CutSlash(s).value; '/' !in before && s == before + "/" + after
  {
    if s != "" {
      CutSlashParts(s[1..]);
      var c, rest := s[0], s[1..];
      assert s == [c] + rest;
      if c == '/' {
        assert s == "" + "/" + rest;
      } else if CutSlash(rest).Some? {
        CutSlashLonger(c, rest, CutSlash(rest).value.0, CutSlash(rest).value.1);
      }
    }
  }

  lemma CutSlashLonger(c: char, rest: string, before: string, after: string)
    requires rest == before + "/" + after
    ensures [c] + rest == ([c] + before) + "/" + after
  {
  }

  lemma {:induction false} CutSlashExact(s: string, owner: string, name: string)
    requires '/' !in owner
    ensures CutSlash(s) == Some((owner, name)) <==> s == owner + "/" + name
    decreases |owner|
  {
    if owner == "" {
      assert owner + "/" + name == "/" + name;
      if s != "" && s[0] == '/' {
        assert s == "/" + s[1..];
      }
    } else if s != "" {
      CutSlashExact(s[1..], owner[1..], name);
      assert owner == [owner[0]] + owner[1..];
      assert owner + "/" + name == [owner[0]] + (owner[1..] + "/" + name);
      assert s == [s[0]] + s[1..];
      assert owner[0] != '/';
    }
  }

  /** Setting both halves pins the repository claim to exactly owner/reponame. */
  lemma RepositoryPinned(m: JwtMatch, id: Identity)
    requires JwtOk(m) && m.owner != "" && m.repoName != ""
    ensures RepositoryMatches(m, id) <==> TextClaim(id, "repository") == Some(m.owner + "/" + m.repoName)
  {
    var repo := TextClaim(id, "repository");
    if repo.Some? {
      CutSlashExact(repo.value, m.owner, m.repoName);
      var cut := CutSlash(repo.value);
    }
  }

  // ------------------------------------------------------------------------- the verdict

  datatype Reason = PolicyDisabled | NoRuleMatched | MultipleRulesMatched

  datatype Decision = Decision(rule: Option<Rule>, reason: Option<Reason>, matchedRules: seq<string>)
  {
    predicate Allowed() {
      rule.Some?
    }
  }

  /** The rule takes part in matching and all its conditions hold. */
  predicate Applies(r: Rule, id: Identity) {
    r.IsEnabled() && RuleMatches(r, id)
  }

  function MatchingRules(rules: seq<Rule>, id: Identity): seq<Rule> {
    if rules == [] then []
    else
      var past, last := rules[..|rules| - 1], rules[|rules| - 1];
      MatchingRules(past, id) + if Applies(last, id) then [last] else []
  }

  function Names(rules: seq<Rule>): seq<string> {
    seq(|rules|, i requires 0 <= i < |rules| => rules[i].name)
  }

  function Verdict(p: Policy, id: Identity): Decision {
    if p.disabled then Decision(None, Some(PolicyDisabled), [])
    else
      var matched := MatchingRules(p.rules, id);
      if |matched| == 1 then Decision(Some(matched[0]), None, Names(matched))
      else if matched == [] then Decision(None, Some(NoRuleMatched), [])
      else Decision(None, Some(MultipleRulesMatched), Names(matched))
  }

  /** Policy.Evaluate. */
  method Evaluate(p: Policy, id: Identity) returns (d: Decision)
    ensures d == Verdict(p, id)
  {
    if p.disabled {
      return Decision(None, Some(PolicyDisabled), []);
    }
    var matched: seq<Rule> := [];
    for i := 0 to |p.rules|
      invariant matched == MatchingRules(p.rules[..i], id)
    {
      assert p.rules[..i + 1][..i] == p.rules[..i];
      var r := p.rules[i];
      if !r.IsEnabled() {
        continue;
      }
      if RuleMatches(r, id) {
        matched := matched + [r];
      }
    }
    assert p.rules[..|p.rules|] == p.rules;
    var names: seq<string> := [];
    for i := 0 to |matched|
      invariant names == Names(matched[..i])
    {
      names := names + [matched[i].name];
    }
    assert matched[..|matched|] == matched;
    if |matched| == 0 {
      return Decision(None, Some(NoRuleMatched), []);
    } else if |matched| == 1 {
      return Decision(Some(matched[0]), None, names);
    } else {
      return Decision(None, Some(MultipleRulesMatched), names);
    }
  }

  lemma {:induction false} MatchingCount(rules: seq<Rule>, id: Identity, r: Rule)
    ensures multiset(MatchingRules(rules, id))[r] == if Applies(r, id) then multiset(rules)[r] else 0
  {
    if rules != [] {
      var past, last := rules[..|rules| - 1], rules[|rules| - 1];
      MatchingCount(past, id, r);
      assert rules == past + [last];
    }
  }

  /** A policy allows an identity just when exactly one enabled rule matches, and then by that rule. */
  lemma AllowedByExactlyOne(p: Policy, id: Identity, r: Rule)
    ensures Verdict(p, id).rule == Some(r) <==>
              !p.disabled && exists i: nat :: OnlyMatch(p.rules, id, i) && p.rules[i] == r
  {
    if |MatchingRules(p.rules, id)| == 1 {
      var i := TheMatch(p.rules, id);
    }
    forall i: nat | OnlyMatch(p.rules, id, i) ensures MatchingRules(p.rules, id) == [p.rules[i]] {
      OnlyMatchAlone(p.rules, id, i);
    }
  }

  lemma {:induction false} NoneMatching(rules: seq<Rule>, id: Identity)
    ensures MatchingRules(rules, id) == [] <==> forall j :: 0 <= j < |rules| ==> !Applies(rules[j], id)
  {
    if rules != [] {
      var past, last := rules[..|rules| - 1], rules[|rules| - 1];
      NoneMatching(past, id);
      assert rules == past + [last];
    }
  }

  /** One rule matches and no other. */
  ghost predicate OnlyMatch(rules: seq<Rule>, id: Identity, i: nat) {
    && i < |rules| && Applies(rules[i], id)
    && forall j :: 0 <= j < |rules| && Applies(rules[j], id) ==> j == i
  }

  lemma {:induction false} OnlyMatchAlone(rules: seq<Rule>, id: Identity, i: nat)
    requires OnlyMatch(rules, id, i)
    ensures MatchingRules(rules, id) == [rules[i]]
  {
    var past, last := rules[..|rules| - 1], |rules| - 1;
    assert forall j :: 0 <= j < |past| ==> past[j] == rules[j];
    if i < last {
      OnlyMatchAlone(past, id, i);
    } else {
      NoneMatching(past, id);
    }
  }

  lemma {:induction false} TheMatch(rules: seq<Rule>, id: Identity) returns (i: nat)
    requires |MatchingRules(rules, id)| == 1
    ensures OnlyMatch(rules, id, i) && MatchingRules(rules, id) == [rules[i]]
  {
    var past, last := rules[..|rules| - 1], |rules| - 1;
    assert forall j :: 0 <= j < |past| ==> past[j] == rules[j];
    NoneMatching(past, id);
    if Applies(rules[last], id) {
      i := last;
      assert forall j :: 0 <= j < |past| ==> !Applies(past[j], id);
    } else {
      i := TheMatch(past, id);
    }
  }

  // ------------------------------------------------------------------ order independence

  lemma NamesConcat(a: seq<Rule>, b: seq<Rule>)
    ensures Names(a + b) == Names(a) + Names(b)
  {
  }

  function Without(a: seq<Rule>, k: nat): (r: seq<Rule>)
    requires k < |a|
    ensures |r| == |a| - 1
  {
    a[..k] + a[k + 1..]
  }

  /** Taking one rule out takes its name out. */
  lemma TakeOut(a: seq<Rule>, k: nat)
    requires k < |a|
    ensures multiset(a) == multiset{a[k]} + multiset(Without(a, k))
    ensures multiset(Names(a)) == multiset{a[k].name} + multiset(Names(Without(a, k)))
  {
    var before, after := a[..k], a[k + 1..];
    assert a == before + ([a[k]] + after);
    NamesConcat(before, [a[k]] + after);
    NamesConcat([a[k]], after);
    NamesConcat(before, after);
    assert Names([a[k]]) == [a[k].name];
  }

  lemma CancelOne(r: Rule, p: multiset<Rule>, q: multiset<Rule>)
    requires multiset{r} + p == multiset{r} + q
    ensures p == q
  {
    assert p == (multiset{r} + p) - multiset{r};
    assert q == (multiset{r} + q) - multiset{r};
  }

  lemma FindRule(a: seq<Rule>, r: Rule) returns (k: nat)
    requires r in multiset(a)
    ensures k < |a| && a[k] == r
  {
    assert r in a;
    k :| 0 <= k < |a| && a[k] == r;
  }

  lemma {:induction false} NamesOfBag(a: seq<Rule>, b: seq<Rule>)
    requires multiset(a) == multiset(b)
    ensures multiset(Names(a)) == multiset(Names(b))
    decreases |a|
  {
    if a == [] {
      assert |b| == |multiset(b)| == 0;
      assert Names(a) == Names(b) == [];
    } else {
      var k := FindRule(b, a[0]);
      var a', b' := Without(a, 0), Without(b, k);
      TakeOut(a, 0);
      TakeOut(b, k);
      CancelOne(a[0], multiset(a'), multiset(b'));
      NamesOfBag(a', b');
    }
  }

  lemma MatchingBag(a: seq<Rule>, b: seq<Rule>, id: Identity)
    requires multiset(a) == multiset(b)
    ensures multiset(MatchingRules(a, id)) == multiset(MatchingRules(b, id))
    ensures |MatchingRules(a, id)| == |MatchingRules(b, id)|
  {
    forall r: Rule ensures multiset(MatchingRules(a, id))[r] == multiset(MatchingRules(b, id))[r] {
      MatchingCount(a, id, r);
      MatchingCount(b, id, r);
    }
    assert multiset(MatchingRules(a, id)) == multiset(MatchingRules(b, id));
    assert |MatchingRules(a, id)| == |multiset(MatchingRules(a, id))|;
    assert |MatchingRules(b, id)| == |multiset(MatchingRules(b, id))|;
  }

  /** Permuting the rules changes neither the verdict, the reason nor the chosen rule. */
  lemma RuleOrderIrrelevant(p: Policy, q: Policy, id: Identity)
    requires p.disabled == q.disabled && multiset(p.rules) == multiset(q.rules)
    ensures Verdict(p, id).rule == Verdict(q, id).rule
    ensures Verdict(p, id).reason == Verdict(q, id).reason
    ensures multiset(Verdict(p, id).matchedRules) == multiset(Verdict(q, id).matchedRules)
  {
    var a, b := MatchingRules(p.rules, id), MatchingRules(q.rules, id);
    MatchingBag(p.rules, q.rules, id);
    NamesOfBag(a, b);
    assert multiset(a) == multiset(b);
    if |a| == 1 {
      SameSingleton(a, b);
    }
  }

  lemma SameSingleton(a: seq<Rule>, b: seq<Rule>)
    requires multiset(a) == multiset(b) && |a| == 1
    ensures b == a
  {
    assert |multiset(b)| == 1;
    assert a[0] in multiset(b);
  }

  /** More rules, wherever they are put, keep the allowing rule or make the match ambiguous. */
  lemma AddingRules(p: Policy, q: Policy, id: Identity)
    requires p.disabled == q.disabled && multiset(p.rules) <= multiset(q.rules)
    requires Verdict(p, id).Allowed()
    ensures Verdict(q, id).rule == Verdict(p, id).rule || Verdict(q, id).reason == Some(MultipleRulesMatched)
  {
    var a, b := MatchingRules(p.rules, id), MatchingRules(q.rules, id);
    assert a == [a[0]];
    assert multiset(a)[a[0]] == 1;
    MatchingCount(p.rules, id, a[0]);
    MatchingCount(q.rules, id, a[0]);
    assert multiset(b)[a[0]] >= 1;
    assert a[0] in b;
    if |b| == 1 {
      assert b == [b[0]];
    }
  }

  // ------------------------------------------------------------------- the issuer pre-filter

  /** Every issuer by which a policy could allow anybody passes the gate in front of verification. */
  lemma GateAdmitsAllowed(p: Policy, id: Identity, cidr: string -> bool)
    requires WellFormed(p, cidr) && Verdict(p, id).Allowed()
    ensures id.issuer in IssuersOf(p.rules)
  {
    var i := TheMatch(p.rules, id);
    IssuersExact(p.rules);
    assert RuleOk(p, p.rules[i], cidr);
    assert IssuerOf(p.rules[i]) == Some(id.issuer);
  }

  // ------------------------------------------------------------------------- explanation

  /** The first condition that fails, as explain words it. */
  datatype Why =
    | NoMatchBlock
    | RuleDisabled
    | IssuerMismatch
    | AudienceMismatch
    | RepositoryMissing
    | RepositoryNotText
    | RepositoryNoSlash
    | OwnerMismatch
    | RepoNameMismatch
    | ClaimMissing(claim: string)
    | ClaimNotText(claim: string)
    | ClaimMismatch(claim: string)

  /** The rule constrains the repository claim. */
  predicate WantsRepository(r: Rule) {
    r.jwt.Some? && (r.jwt.value.owner != "" || r.jwt.value.repoName != "")
  }

  /** The condition that a reason names is false of this rule and identity. */
  predicate ReallyFails(r: Rule, id: Identity, why: Why) {
    var repo := TextClaim(id, "repository");
    match why
    case NoMatchBlock => r.jwt.None?
    case RuleDisabled => !r.IsEnabled()
    case IssuerMismatch => r.jwt.Some? && r.jwt.value.issuer != id.issuer
    case AudienceMismatch => r.jwt.Some? && r.jwt.value.audience !in id.audiences
    case RepositoryMissing => WantsRepository(r) && "repository" !in id.claims
    case RepositoryNotText => WantsRepository(r) && "repository" in id.claims && repo.None?
    case RepositoryNoSlash => WantsRepository(r) && repo.Some? && '/' !in repo.value
    case OwnerMismatch =>
      && WantsRepository(r) && r.jwt.value.owner != "" && repo.Some?
      && CutSlash(repo.value).Some? && CutSlash(repo.value).value.0 != r.jwt.value.owner
    case RepoNameMismatch =>
      && WantsRepository(r) && r.jwt.value.repoName != "" && repo.Some?
      && CutSlash(repo.value).Some? && CutSlash(repo.value).value.1 != r.jwt.value.repoName
    case ClaimMissing(c) => r.jwt.Some? && c in r.jwt.value.claimsExact && c !in id.claims
    case ClaimNotText(c) =>
      r.jwt.Some? && c in r.jwt.value.claimsExact && c in id.claims && TextClaim(id, c).None?
    case ClaimMismatch(c) =>
      && r.jwt.Some? && c in r.jwt.value.claimsExact
      && TextClaim(id, c).Some? && TextClaim(id, c).value != r.jwt.value.claimsExact[c]
  }

  function ExplainRepository(m: JwtMatch, id: Identity): Option<Why> {
    if m.owner == "" && m.repoName == "" then None
    else if "repository" !in id.claims then Some(RepositoryMissing)
    else if !id.claims["repository"].Text? then Some(RepositoryNotText)
    else
      match CutSlash(id.claims["repository"].text)
      case None => Some(RepositoryNoSlash)
      case Some((owner, name)) =>
        if m.owner != "" && m.owner != owner then Some(OwnerMismatch)
        else if m.repoName != "" && m.repoName != name then Some(RepoNameMismatch)
        else None
  }

  function ExplainClaims(m: map<string, string>, id: Identity, order: seq<string>): Option<Why>
    requires forall i :: 0 <= i < |order| ==> order[i] in m
  {
    if order == [] then None
    else
      var c := order[0];
      if c !in id.claims then Some(ClaimMissing(c))
      else if !id.claims[c].Text? then Some(ClaimNotText(c))
      else if id.claims[c].text != m[c] then Some(ClaimMismatch(c))
      else ExplainClaims(m, id, order[1..])
  }

  /** ExplainRule with the map ranged over in the given order; None means the rule matches. */
  function ExplainIn(r: Rule, id: Identity, order: seq<string>): Option<Why>
    requires r.jwt.Some? ==> IsOrder(order, r.jwt.value.claimsExact)
  {
    if r.jwt.None? then Some(NoMatchBlock)
    else if !r.IsEnabled() then Some(RuleDisabled)
    else
      var m := r.jwt.value;
      if m.issuer != id.issuer then Some(IssuerMismatch)
      else if m.audience !in id.audiences then Some(AudienceMismatch)
      else if ExplainRepository(m, id).Some? then ExplainRepository(m, id)
      else ExplainClaims(m.claimsExact, id, order)
  }

  lemma ExplainRepositoryAgrees(r: Rule, id: Identity)
    requires r.jwt.Some?
    ensures ExplainRepository(r.jwt.value, id).None? <==> RepositoryMatches(r.jwt.value, id)
    ensures ExplainRepository(r.jwt.value, id).Some? ==> ReallyFails(r, id, ExplainRepository(r.jwt.value, id).value)
  {
    if TextClaim(id, "repository").Some? {
      CutSlashParts(TextClaim(id, "repository").value);
    }
  }

  lemma {:induction false} ExplainClaimsAgrees(r: Rule, id: Identity, order: seq<string>)
    requires r.jwt.Some? && forall i :: 0 <= i < |order| ==> order[i] in r.jwt.value.claimsExact
    ensures var why := ExplainClaims(r.jwt.value.claimsExact, id, order);
      && (why.None? <==> ClaimsMatchIn(r.jwt.value.claimsExact, id, order))
      && (why.Some? ==> ReallyFails(r, id, why.value))
  {
    if order != [] {
      ExplainClaimsAgrees(r, id, order[1..]);
    }
  }

  /**
   The explanation is a second implementation of matching: whatever orders the
   two range over their maps in, they agree, and any reason given is true.
   */
  lemma ExplainAgreesWithMatching(r: Rule, id: Identity, order: seq<string>, other: seq<string>)
    requires r.jwt.Some? ==> IsOrder(order, r.jwt.value.claimsExact) && IsOrder(other, r.jwt.value.claimsExact)
    ensures ExplainIn(r, id, order).None? <==> r.IsEnabled() && RuleMatchesIn(r, id, other)
    ensures ExplainIn(r, id, order).Some? ==> ReallyFails(r, id, ExplainIn(r, id, order).value)
  {
    if r.jwt.Some? {
      ExplainRepositoryAgrees(r, id);
      ExplainClaimsAgrees(r, id, order);
      MatchingIgnoresOrder(r, id, order);
      MatchingIgnoresOrder(r, id, other);
    }
  }
}
