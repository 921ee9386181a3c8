/**
 What a policy file and a request mean, said a second time: over the fields as
 they stand in the file, with the numbers and alphabets of the documentation
 written out, and in no particular order of checks. The theorems say that
 validation, matching and the signing pipeline mean exactly this.
 */
module Reference {
  import opened Base
  import opened PolicyFile
  import opened Match
  import opened CertIssuer
  import opened Server
  import KeyId
  import TokenTime
  import Switches

  // -------------------------------------------------------------------------- alphabets

  const LOWER := "abcdefghijklmnopqrstuvwxyz"
  const UPPER := "ABCDEFGHIJKLMNOPQRSTUVWXYZ"
  const DIGITS := "0123456789"

  predicate Over(s: string, alphabet: string) {
    forall i :: 0 <= i < |s| ==> s[i] in alphabet
  }

  lemma LowerExact(c: char)
    ensures KeyId.IsLower(c) <==> c in LOWER
  {
    if KeyId.IsLower(c) {
      assert LOWER[c as int - 97] == c;
    }
  }

  lemma UpperExact(c: char)
    ensures KeyId.IsUpper(c) <==> c in UPPER
  {
    if KeyId.IsUpper(c) {
      assert UPPER[c as int - 65] == c;
    }
  }

  lemma DigitsExact(c: char)
    ensures KeyId.IsDigit(c) <==> c in DIGITS
  {
    if KeyId.IsDigit(c) {
      assert DIGITS[c as int - 48] == c;
    }
  }

  lemma LettersExact(c: char)
    ensures KeyId.IsLower(c) <==> c in LOWER
    ensures KeyId.IsUpper(c) <==> c in UPPER
    ensures KeyId.IsDigit(c) <==> c in DIGITS
  {
    LowerExact(c);
    UpperExact(c);
    DigitsExact(c);
  }

  /** The alphabets of names, principals, key IDs and claim names. */
  lemma AlphabetsExact(s: string)
    ensures RuleName(s) <==> s != "" && Over(s, LOWER + UPPER + DIGITS + "._-")
    ensures Principal(s) <==> 1 <= |s| <= 128 && Over(s, LOWER + UPPER + DIGITS + "._@:-")
    ensures KeyId.KeyIdText(s) <==> Over(s, LOWER + UPPER + DIGITS + "._/:@-")
    ensures KeyId.ClaimName(s) <==> s != "" && Over(s, LOWER + DIGITS + "_")
  {
    forall i | 0 <= i < |s|
      ensures AlphaNumeric(s[i]) <==> s[i] in LOWER + UPPER + DIGITS
      ensures KeyId.NameChar(s[i]) <==> s[i] in LOWER + DIGITS + "_"
    {
      LettersExact(s[i]);
    }
  }

  /** A forced command is refused exactly for "${" anywhere in it or a byte below 32 or equal to 127. */
  lemma ForceCommandExact(cmd: string)
    ensures HasTemplating(cmd) <==> exists before, after :: cmd == before + "${" + after
    ensures NoControl(cmd) <==> forall i :: 0 <= i < |cmd| ==> 32 <= cmd[i] as int != 127
  {
    if i :| 0 <= i < |cmd| - 1 && cmd[i] == '$' && cmd[i + 1] == '{' {
      assert cmd == cmd[..i] + "${" + cmd[i + 2..];
    }
    if before, after :| cmd == before + "${" + after {
      assert cmd[|before|] == '$' && cmd[|before| + 1] == '{';
    }
  }

  // ------------------------------------------------------------------ the fields of the file

  /** max_valid_for_seconds, 900 if it is left out. */
  predicate CeilingIs(p: Policy, max: int) {
    p.defaults.maxValidFor == Some(max) || (p.defaults.maxValidFor == None && max == 900)
  }

  /** valid_after_offset_seconds, 30 seconds back if it is left out. */
  predicate OffsetIs(p: Policy, offset: int) {
    p.defaults.validAfterOffset == Some(offset) || (p.defaults.validAfterOffset == None && offset == -30)
  }

  /** The lifetime written on the rule, or else the one written in the defaults; there is no third. */
  predicate LifetimeIs(p: Policy, r: Rule, ttl: int) {
    || r.certificate.validFor == Some(ttl)
    || (r.certificate.validFor == None && p.defaults.validFor == Some(ttl))
  }

  /** The same for the template. */
  predicate TemplateIs(p: Policy, r: Rule, tmpl: string) {
    || (r.certificate.keyIdTemplate != "" && tmpl == r.certificate.keyIdTemplate)
    || (r.certificate.keyIdTemplate == "" && tmpl == p.defaults.keyIdTemplate)
  }

  /** And for the address list. */
  predicate SourcesAre(p: Policy, r: Rule, sources: seq<string>) {
    || (|r.certificate.sourceAddress| > 0 && sources == r.certificate.sourceAddress)
    || (|r.certificate.sourceAddress| == 0 && sources == p.defaults.sourceAddress)
  }

  predicate KeyTypeAllowed(p: Policy, keyType: string) {
    keyType in p.defaults.publicKeyTypes || (|p.defaults.publicKeyTypes| == 0 && keyType == "ssh-ed25519")
  }

  /** The block of flags that counts for a rule, if there is one. */
  function FlagsOf(p: Policy, r: Rule): Option<Extensions> {
    match r.certificate.extensions
    case Some(_) => r.certificate.extensions
    case None => p.defaults.extensions
  }

  lemma GettersExact(p: Policy, r: Rule)
    ensures CeilingIs(p, p.MaxValidFor()) && OffsetIs(p, p.ValidAfterOffset())
    ensures 0 < p.ValidFor(r) ==> LifetimeIs(p, r, p.ValidFor(r))
    ensures forall ttl :: LifetimeIs(p, r, ttl) ==> p.ValidFor(r) == ttl
    ensures TemplateIs(p, r, p.KeyIdTemplateFor(r)) && SourcesAre(p, r, p.SourceAddressFor(r))
    ensures p.ExtensionsFor(r)
         == match FlagsOf(p, r) case None => Extensions(false, false, false, false, false) case Some(e) => e
  {
  }

  lemma KeyTypesExact(p: Policy, keyType: string)
    ensures keyType in p.PublicKeyTypes() <==> KeyTypeAllowed(p, keyType)
  {
  }

  // ------------------------------------------------------------------------- validation

  /** Non-empty text made of allowed bytes and references to names of allowed bytes. */
  ghost predicate GoodTemplate(tmpl: string) {
    exists ts :: GoodTokens(ts) && KeyId.Print(ts) == tmpl
  }

  predicate GoodTokens(ts: seq<KeyId.Token>) {
    forall i :: 0 <= i < |ts| ==>
      match ts[i]
      case Ch(c) => c in LOWER + UPPER + DIGITS + "._/:@-"
      case Ref(name) => name != "" && Over(name, LOWER + DIGITS + "_")
  }

  predicate GoodSources(sources: seq<string>, cidr: string -> bool) {
    forall s :: s in sources ==> s != "" && cidr(s)
  }

  predicate GoodPrincipal(s: string) {
    1 <= |s| <= 128 && Over(s, LOWER + UPPER + DIGITS + "._@:-")
  }

  /** A rule as the documentation wants it, under this ceiling. */
  ghost predicate GoodRule(p: Policy, r: Rule, max: int, cidr: string -> bool) {
    && r.name != "" && Over(r.name, LOWER + UPPER + DIGITS + "._-")
    && r.jwt.Some?
    && r.jwt.value.issuer != "" && r.jwt.value.audience != ""
    && '/' !in r.jwt.value.owner && '/' !in r.jwt.value.repoName
    && "" !in r.jwt.value.claimsExact.Keys && "" !in r.jwt.value.claimsExact.Values
    && r.certificate.principals != []
    && (forall s :: s in r.certificate.principals ==> GoodPrincipal(s))
    && (exists ttl :: LifetimeIs(p, r, ttl) && 0 < ttl <= max)
    && (exists tmpl :: TemplateIs(p, r, tmpl) && tmpl != "" && GoodTemplate(tmpl))
    && (!exists before, after :: r.certificate.forceCommand == before + "${" + after)
    && (forall i :: 0 <= i < |r.certificate.forceCommand| ==> 32 <= r.certificate.forceCommand[i] as int != 127)
    && (exists sources :: SourcesAre(p, r, sources) && GoodSources(sources, cidr))
  }

  ghost predicate GoodDefaults(p: Policy, max: int, cidr: string -> bool) {
    && 0 < max
    && (forall t :: t in p.defaults.publicKeyTypes ==> t == "ssh-ed25519")
    && (forall ttl :: p.defaults.validFor == Some(ttl) ==> 0 < ttl <= max)
    && (p.defaults.keyIdTemplate == "" || GoodTemplate(p.defaults.keyIdTemplate))
    && GoodSources(p.defaults.sourceAddress, cidr)
  }

  lemma TokensExact(ts: seq<KeyId.Token>)
    ensures GoodTokens(ts) <==> KeyId.AcceptedTokens(ts)
  {
    forall i | 0 <= i < |ts|
      ensures ts[i].Ch? ==> (KeyId.KeyIdChar(ts[i].c) <==> ts[i].c in LOWER + UPPER + DIGITS + "._/:@-")
      ensures ts[i].Ref? ==>
                (KeyId.ClaimName(ts[i].name) <==> ts[i].name != "" && Over(ts[i].name, LOWER + DIGITS + "_"))
    {
      match ts[i]
      case Ch(c) => LettersExact(c);
      case Ref(name) => AlphabetsExact(name);
    }
  }

  lemma TemplateExact(tmpl: string)
    ensures GoodTemplate(tmpl) <==> KeyId.AcceptedTemplate(tmpl)
  {
    KeyId.AcceptedTemplates(tmpl);
    forall ts: seq<KeyId.Token> ensures GoodTokens(ts) <==> KeyId.AcceptedTokens(ts) {
      TokensExact(ts);
    }
  }

  lemma SourcesExact(sources: seq<string>, cidr: string -> bool)
    ensures GoodSources(sources, cidr) <==> SourcesOk(sources, cidr)
  {
    if SourcesOk(sources, cidr) {
      forall s | s in sources ensures s != "" && cidr(s) {
        var i :| 0 <= i < |sources| && sources[i] == s;
      }
    }
    if GoodSources(sources, cidr) {
      forall i | 0 <= i < |sources| ensures sources[i] != "" && cidr(sources[i]) {
        assert sources[i] in sources;
      }
    }
  }

  lemma PrincipalsExact(principals: seq<string>)
    ensures (forall i :: 0 <= i < |principals| ==> Principal(principals[i]))
       <==> forall s :: s in principals ==> GoodPrincipal(s)
  {
    forall s: string ensures Principal(s) <==> GoodPrincipal(s) {
      AlphabetsExact(s);
    }
    if forall i :: 0 <= i < |principals| ==> Principal(principals[i]) {
      forall s | s in principals ensures Principal(s) {
        var i :| 0 <= i < |principals| && principals[i] == s;
      }
    }
  }

  lemma JwtExact(m: JwtMatch)
    ensures JwtOk(m) <==>
              && m.issuer != "" && m.audience != "" && '/' !in m.owner && '/' !in m.repoName
              && "" !in m.claimsExact.Keys && "" !in m.claimsExact.Values
  {
  }

  lemma LifetimeExact(p: Policy, r: Rule, max: int)
    ensures 0 < p.ValidFor(r) <= max <==> exists ttl :: LifetimeIs(p, r, ttl) && 0 < ttl <= max
  {
    GettersExact(p, r);
    if 0 < p.ValidFor(r) <= max {
      assert LifetimeIs(p, r, p.ValidFor(r));
    }
  }

  lemma InheritedExact(p: Policy, r: Rule, cidr: string -> bool)
    ensures p.KeyIdTemplateFor(r) != "" && KeyId.AcceptedTemplate(p.KeyIdTemplateFor(r))
       <==> exists tmpl :: TemplateIs(p, r, tmpl) && tmpl != "" && GoodTemplate(tmpl)
    ensures SourcesOk(p.SourceAddressFor(r), cidr)
       <==> exists sources :: SourcesAre(p, r, sources) && GoodSources(sources, cidr)
  {
    GettersExact(p, r);
    TemplateExact(p.KeyIdTemplateFor(r));
    SourcesExact(p.SourceAddressFor(r), cidr);
    assert forall tmpl :: TemplateIs(p, r, tmpl) ==> tmpl == p.KeyIdTemplateFor(r);
    assert forall sources :: SourcesAre(p, r, sources) ==> sources == p.SourceAddressFor(r);
  }

  lemma RuleExact(p: Policy, r: Rule, cidr: string -> bool)
    ensures RuleOk(p, r, cidr) <==> GoodRule(p, r, p.MaxValidFor(), cidr)
  {
    AlphabetsExact(r.name);
    PrincipalsExact(r.certificate.principals);
    ForceCommandExact(r.certificate.forceCommand);
    LifetimeExact(p, r, p.MaxValidFor());
    InheritedExact(p, r, cidr);
    if r.jwt.Some? {
      JwtExact(r.jwt.value);
    }
  }

  lemma DefaultsExact(p: Policy, cidr: string -> bool)
    ensures DefaultsOk(p, cidr) <==> GoodDefaults(p, p.MaxValidFor(), cidr)
  {
    TemplateExact(p.defaults.keyIdTemplate);
    SourcesExact(p.defaults.sourceAddress, cidr);
    var types := p.PublicKeyTypes();
    if forall i :: 0 <= i < |types| ==> types[i] == ED25519 {
      forall t | t in p.defaults.publicKeyTypes ensures t == "ssh-ed25519" {
        var i :| 0 <= i < |p.defaults.publicKeyTypes| && p.defaults.publicKeyTypes[i] == t;
        assert types[i] == t;
      }
    }
    if forall t :: t in p.defaults.publicKeyTypes ==> t == "ssh-ed25519" {
      forall i | 0 <= i < |types| ensures types[i] == ED25519 {
        KeyTypesExact(p, types[i]);
      }
    }
  }

  /** What Validate accepts, by the documentation. */
  ghost predicate GoodPolicy(p: Policy, max: int, cidr: string -> bool) {
    && p.version == 1 && p.rules != []
    && GoodDefaults(p, max, cidr)
    && (forall i :: 0 <= i < |p.rules| ==> GoodRule(p, p.rules[i], max, cidr))
    && (forall i, j :: 0 <= i < j < |p.rules| ==> p.rules[i].name != p.rules[j].name)
  }

  /** Validation accepts exactly the policies that are good under the ceiling they state. */
  lemma ValidPoliciesExactly(p: Policy, cidr: string -> bool)
    ensures WellFormed(p, cidr) <==> exists max :: CeilingIs(p, max) && GoodPolicy(p, max, cidr)
  {
    var max := p.MaxValidFor();
    assert CeilingIs(p, max) && forall other :: CeilingIs(p, other) ==> other == max;
    DefaultsExact(p, cidr);
    forall i | 0 <= i < |p.rules| ensures RuleOk(p, p.rules[i], cidr) <==> GoodRule(p, p.rules[i], max, cidr) {
      RuleExact(p, p.rules[i], cidr);
    }
    assert WellFormed(p, cidr) <==> GoodPolicy(p, max, cidr);
  }

  /** Every rule of a valid policy has a lifetime written on it or in the defaults. */
  lemma LifetimeAlwaysWritten(p: Policy, i: nat, cidr: string -> bool)
    requires WellFormed(p, cidr) && i < |p.rules|
    ensures p.rules[i].certificate.validFor.Some? || p.defaults.validFor.Some?
  {
    assert RuleOk(p, p.rules[i], cidr);
  }

  // --------------------------------------------------------------------------- matching

  /** The claim is a string with this text. */
  predicate HasText(id: Identity, claim: string, text: string) {
    claim in id.claims && id.claims[claim] == KeyId.Text(text)
  }

  /** The repository claim is "o/n" with the owner and the name asked for. */
  ghost predicate RepositorySays(m: JwtMatch, id: Identity) {
    exists o, n ::
      && '/' !in o && HasText(id, "repository", o + "/" + n)
      && (m.owner == "" || m.owner == o) && (m.repoName == "" || m.repoName == n)
  }

  /** The rule is not switched off and all it asks for is so. */
  ghost predicate RuleSays(r: Rule, id: Identity) {
    && r.enabled != Some(false)
    && r.jwt.Some?
    && r.jwt.value.issuer == id.issuer
    && (exists i :: 0 <= i < |id.audiences| && id.audiences[i] == r.jwt.value.audience)
    && ((r.jwt.value.owner == "" && r.jwt.value.repoName == "") || RepositorySays(r.jwt.value, id))
    && forall c :: c in r.jwt.value.claimsExact ==> HasText(id, c, r.jwt.value.claimsExact[c])
  }

  lemma RepositoryExact(m: JwtMatch, id: Identity)
    requires m.owner != "" || m.repoName != ""
    ensures RepositoryMatches(m, id) <==> RepositorySays(m, id)
  {
    var repo := TextClaim(id, "repository");
    if RepositoryMatches(m, id) {
      CutSlashParts(repo.value);
      var (o, n) := CutSlash(repo.value).value;
      assert HasText(id, "repository", o + "/" + n);
    }
    if o, n :| '/' !in o && HasText(id, "repository", o + "/" + n)
               && (m.owner == "" || m.owner == o) && (m.repoName == "" || m.repoName == n) {
      CutSlashExact(o + "/" + n, o, n);
    }
  }

  lemma AppliesExactly(r: Rule, id: Identity)
    ensures Applies(r, id) <==> RuleSays(r, id)
  {
    if r.jwt.Some? && (r.jwt.value.owner != "" || r.jwt.value.repoName != "") {
      RepositoryExact(r.jwt.value, id);
    }
  }

  /** The indices at which rules apply, in order. */
  lemma {:induction false} ApplyingIndices(rules: seq<Rule>, id: Identity) returns (at: seq<nat>)
    ensures forall k :: 0 <= k < |at| ==> at[k] < |rules| && RuleSays(rules[at[k]], id)
    ensures forall k, l :: 0 <= k < l < |at| ==> at[k] < at[l]
    ensures forall i :: 0 <= i < |rules| && RuleSays(rules[i], id) ==> i in at
    ensures |MatchingRules(rules, id)| == |at|
    ensures forall k :: 0 <= k < |at| ==> MatchingRules(rules, id)[k] == rules[at[k]]
  {
    if rules == [] {
      at := [];
    } else {
      var past, last := rules[..|rules| - 1], |rules| - 1;
      var before := ApplyingIndices(past, id);
      AppliesExactly(rules[last], id);
      assert forall i :: 0 <= i < |past| ==> past[i] == rules[i];
      at := before + if Applies(rules[last], id) then [last] else [];
      forall i | 0 <= i < |rules| && RuleSays(rules[i], id) ensures i in at {
        assert i < last ==> i in before;
      }
    }
  }

  lemma VerdictByCount(p: Policy, id: Identity)
    requires !p.disabled
    ensures var d, matched := Verdict(p, id), MatchingRules(p.rules, id);
      && |d.matchedRules| == |matched| && (forall k :: 0 <= k < |matched| ==> d.matchedRules[k] == matched[k].name)
      && (|matched| == 0 ==> d.rule == None && d.reason == Some(NoRuleMatched))
      && (|matched| == 1 ==> d.rule == Some(matched[0]) && d.reason == None)
      && (|matched| >= 2 ==> d.rule == None && d.reason == Some(MultipleRulesMatched))
  {
  }

  /** The names reported are those of the applying rules, in the order of the file. */
  lemma MatchedNamesExactly(p: Policy, id: Identity) returns (at: seq<nat>)
    ensures forall k :: 0 <= k < |at| ==> at[k] < |p.rules| && RuleSays(p.rules[at[k]], id)
    ensures forall k, l :: 0 <= k < l < |at| ==> at[k] < at[l]
    ensures forall i :: 0 <= i < |p.rules| && RuleSays(p.rules[i], id) ==> i in at
    ensures p.disabled ==> Verdict(p, id) == Decision(None, Some(PolicyDisabled), [])
    ensures !p.disabled ==>
              var d := Verdict(p, id);
              && |d.matchedRules| == |at|
              && (forall k :: 0 <= k < |at| ==> d.matchedRules[k] == p.rules[at[k]].name)
              && (|at| == 0 ==> d.rule == None && d.reason == Some(NoRuleMatched))
              && (|at| == 1 ==> d.rule == Some(p.rules[at[0]]) && d.reason == None)
              && (|at| >= 2 ==> d.rule == None && d.reason == Some(MultipleRulesMatched))
  {
    at := ApplyingIndices(p.rules, id);
    if !p.disabled {
      VerdictByCount(p, id);
    }
  }

  // ---------------------------------------------------------------------------- deciding

  /** A numeric claim in whole seconds, as moments in nanoseconds; none for anything else. */
  predicate Timely(claims: KeyId.Claims, at: int) {
    && "exp" in claims && claims["exp"].Number?
    && at <= TokenTime.Truncate(claims["exp"].number) * 1_000_000_000 + 60_000_000_000
    && ("nbf" in claims && claims["nbf"].Number? ==>
          TokenTime.Truncate(claims["nbf"].number) * 1_000_000_000 - 60_000_000_000 <= at)
    && ("iat" in claims && claims["iat"].Number? ==>
          TokenTime.Truncate(claims["iat"].number) * 1_000_000_000 - 60_000_000_000 <= at)
  }

  lemma TimelyExactly(claims: KeyId.Claims, at: int)
    ensures Timely(claims, at) <==> TokenTime.CheckTimeClaims(claims, at).None?
  {
  }

  /** The request itself is in order. */
  predicate Presentable(p: Policy, req: Request) {
    && req.post && req.bodyLength <= 16384
    && req.body.Key? && KeyTypeAllowed(p, req.body.key.keyType)
    && req.token.Some?
  }

  /** Its token names an issuer, is genuine and is within its times. */
  predicate Genuine(req: Request, env: Env)
    requires req.token.Some?
  {
    && req.token.value.issuer.Some? && env.verified.Some?
    && Timely(env.verified.value.claims, env.verifiedAt)
  }

  function WhoIs(req: Request, env: Env): Identity
    requires req.token.Some? && Genuine(req, env)
  {
    Identity(req.token.value.issuer.value, env.verified.value.audiences, env.verified.value.claims)
  }

  ghost predicate OnlyRule(p: Policy, id: Identity, i: nat) {
    && i < |p.rules| && RuleSays(p.rules[i], id)
    && forall j :: 0 <= j < |p.rules| && RuleSays(p.rules[j], id) ==> j == i
  }

  lemma OnlyRuleExactly(p: Policy, id: Identity, i: nat)
    ensures OnlyRule(p, id, i) <==> OnlyMatch(p.rules, id, i)
  {
    forall j | 0 <= j < |p.rules| ensures Applies(p.rules[j], id) <==> RuleSays(p.rules[j], id) {
      AppliesExactly(p.rules[j], id);
    }
  }

  /** The template of the rule can be filled in for the identity. */
  ghost predicate KeyIdFor(p: Policy, r: Rule, id: Identity, keyId: string) {
    exists tmpl :: TemplateIs(p, r, tmpl) && KeyId.KeyIdOf(tmpl, id.claims) == Ok(keyId)
  }

  /** Everything that it takes to get a certificate by rule i. */
  ghost predicate Entitled(p: Policy, req: Request, env: Env, i: nat, keyId: string) {
    && !p.disabled && Presentable(p, req) && Genuine(req, env)
    && WhoIs(req, env).issuer != ""
    && OnlyRule(p, WhoIs(req, env), i) && KeyIdFor(p, p.rules[i], WhoIs(req, env), keyId)
    && env.signerWorks
  }

  lemma ScreenExactly(p: Policy, req: Request)
    ensures req.post && Screen(p, req).None? <==> !p.disabled && Presentable(p, req)
  {
    if req.body.Key? {
      KeyTypesExact(p, req.body.key.keyType);
    }
  }

  lemma IdentityExactly(req: Request, env: Env)
    requires req.token.Some?
    ensures IdentityOf(req, env).Some? <==> Genuine(req, env)
    ensures Genuine(req, env) ==> IdentityOf(req, env) == Some(WhoIs(req, env))
  {
    if env.verified.Some? {
      TimelyExactly(env.verified.value.claims, env.verifiedAt);
    }
  }

  lemma KeyIdForExactly(p: Policy, r: Rule, id: Identity, keyId: string)
    ensures KeyIdFor(p, r, id, keyId) <==> KeyId.KeyIdOf(p.KeyIdTemplateFor(r), id.claims) == Ok(keyId)
  {
    GettersExact(p, r);
    assert forall tmpl :: TemplateIs(p, r, tmpl) ==> tmpl == p.KeyIdTemplateFor(r);
  }

  lemma AuthorizeExactly(p: Policy, id: Identity, i: nat, keyId: string)
    requires !p.disabled
    ensures OnlyRule(p, id, i) && KeyIdFor(p, p.rules[i], id, keyId) ==>
              Authorize(p, id) == Ok(Grant(p.rules[i], keyId))
  {
    OnlyRuleExactly(p, id, i);
    if OnlyRule(p, id, i) {
      OnlyMatchAlone(p.rules, id, i);
      KeyIdForExactly(p, p.rules[i], id, keyId);
    }
  }

  lemma AuthorizedBy(p: Policy, id: Identity) returns (i: nat)
    requires Authorize(p, id).Ok?
    ensures OnlyRule(p, id, i) && Authorize(p, id).value.rule == p.rules[i]
    ensures KeyIdFor(p, p.rules[i], id, Authorize(p, id).value.keyId)
  {
    i := TheMatch(p.rules, id);
    OnlyRuleExactly(p, id, i);
    KeyIdForExactly(p, p.rules[i], id, Authorize(p, id).value.keyId);
  }

  /** Whoever is entitled by a rule gets a certificate by that rule. */
  lemma EntitledIsIssued(p: Policy, req: Request, env: Env, i: nat, keyId: string)
    requires Entitled(p, req, env, i, keyId)
    ensures Decide(p, req, env).Issued? && Decide(p, req, env).grant == Grant(p.rules[i], keyId)
  {
    var id := WhoIs(req, env);
    ScreenExactly(p, req);
    IdentityExactly(req, env);
    AuthorizeExactly(p, id, i, keyId);
    assert Switches.AsksFor(p.rules[i], id.issuer);
    Switches.IssuersOfRulesNotOff(p.rules, id.issuer);
    assert PassesGate(IssuersOf(p.rules), req.token.value);
  }

  /** And nobody else gets one. */
  lemma IssuedIsEntitled(p: Policy, req: Request, env: Env) returns (i: nat)
    requires Decide(p, req, env).Issued?
    ensures i < |p.rules| && Decide(p, req, env).grant.rule == p.rules[i]
    ensures Entitled(p, req, env, i, Decide(p, req, env).grant.keyId)
  {
    IssuedParts(p, req, env);
    ScreenExactly(p, req);
    IdentityExactly(req, env);
    var id := IdentityOf(req, env).value;
    Switches.IssuersOfRulesNotOff(p.rules, id.issuer);
    i := AuthorizedBy(p, id);
  }

  /** The signing pipeline issues exactly for the entitled. */
  lemma IssuedExactly(p: Policy, req: Request, env: Env)
    ensures Decide(p, req, env).Issued? <==> exists i, keyId :: Entitled(p, req, env, i, keyId)
  {
    if Decide(p, req, env).Issued? {
      var i := IssuedIsEntitled(p, req, env);
    }
    if i, keyId :| Entitled(p, req, env, i, keyId) {
      EntitledIsIssued(p, req, env, i, keyId);
    }
  }

  // --------------------------------------------------------------- what the certificate says

  /** Each extension by the flags that count for the rule; without a block there is none. */
  ghost predicate ExtensionsAsWritten(flags: Option<Extensions>, out: map<string, string>) {
    && ("permit-pty" in out <==> flags.Some? && flags.value.pty)
    && ("permit-port-forwarding" in out <==> flags.Some? && flags.value.portForwarding)
    && ("permit-agent-forwarding" in out <==> flags.Some? && flags.value.agentForwarding)
    && ("permit-X11-forwarding" in out <==> flags.Some? && flags.value.x11Forwarding)
    && ("permit-user-rc" in out <==> flags.Some? && flags.value.userRc)
    && (forall name :: name in out ==> out[name] == "")
    && out.Keys <= {"permit-pty", "permit-port-forwarding", "permit-agent-forwarding", "permit-X11-forwarding",
                    "permit-user-rc"}
  }

  /** The forced command as written on the rule, and the effective address list, split at its commas. */
  ghost predicate OptionsAsWritten(p: Policy, r: Rule, out: map<string, string>) {
    && ("force-command" in out <==> r.certificate.forceCommand != "")
    && ("force-command" in out ==> out["force-command"] == r.certificate.forceCommand)
    && SourcesAre(p, r, if "source-address" in out then Split(out["source-address"], ',') else [])
    && out.Keys <= {"force-command", "source-address"}
  }

  lemma OptionsExactly(p: Policy, r: Rule, cidr: string -> bool)
    requires RuleOk(p, r, cidr) && CidrOracle(cidr)
    ensures OptionsAsWritten(p, r, CriticalOptions(r.certificate.forceCommand, p.SourceAddressFor(r)))
  {
    OptionsSound(r.certificate.forceCommand, p.SourceAddressFor(r), cidr);
  }

  /** A certificate carries the key asked for, and otherwise what the fields of its rule and the defaults say. */
  lemma CertificateExactly(p: Policy, req: Request, env: Env, cidr: string -> bool)
    requires WellFormed(p, cidr) && CidrOracle(cidr) && Decide(p, req, env).Issued?
    ensures var o := Decide(p, req, env);
      var r, c := o.grant.rule, o.certificate;
      && c.key == req.body.key && c.principals == r.certificate.principals && c.keyId == o.grant.keyId
      && LifetimeIs(p, r, o.validFor)
      && ExtensionsAsWritten(FlagsOf(p, r), c.extensions)
      && OptionsAsWritten(p, r, c.criticalOptions)
  {
    var r := Decide(p, req, env).grant.rule;
    IssuedContents(p, req, env);
    CertificateTimes(p, req, env, cidr);
    IssuedTimes(p, req, env);
    IssuedRuleOk(p, req, env, cidr);
    GettersExact(p, r);
    OptionsExactly(p, r, cidr);
  }

  /** Its times, in whole seconds: the offset and the lifetime of the file after the signing time. */
  lemma CertificateTimesExactly(p: Policy, req: Request, env: Env, offset: int, cidr: string -> bool)
    requires WellFormed(p, cidr) && DurationsFit(p) && Decide(p, req, env).Issued? && OffsetIs(p, offset)
    requires 0 <= env.signedAt && 0 <= env.signedAt / 1_000_000_000 + offset
    requires env.signedAt / 1_000_000_000 + MAX_DURATION_SECONDS < TWO_64
    ensures var o := Decide(p, req, env);
      && o.certificate.validAfter == env.signedAt / 1_000_000_000 + offset
      && o.certificate.validBefore == env.signedAt / 1_000_000_000 + o.validFor
      && LifetimeIs(p, o.grant.rule, o.validFor)
  {
    GettersExact(p, Decide(p, req, env).grant.rule);
    CertificateTimes(p, req, env, cidr);
    IssuedTimes(p, req, env);
    IssuedWindow(p, req, env, cidr);
  }

  /**
   The event of a certificate names its rule and repeats its contents; only an
   inherited address list is missing. The answer is the certificate.
   */
  lemma IssuedEventExactly(p: Policy, req: Request, env: Env, request: nat, cidr: string -> bool)
    requires WellFormed(p, cidr) && CidrOracle(cidr) && Decide(p, req, env).Issued?
    ensures var o := Decide(p, req, env);
      var r, c, e := o.grant.rule, o.certificate, EventOf(request, o);
      && e.CertificateIssued? && e.request == request && e.rule == r.name
      && e.principals == c.principals && e.keyId == c.keyId
      && e.validFor == o.validFor && LifetimeIs(p, r, e.validFor)
      && e.forceCommand == (if "force-command" in c.criticalOptions then c.criticalOptions["force-command"] else "")
      && e.sourceAddress == r.certificate.sourceAddress
      && ResponseOf(o) == Response(200, Some(c))
  {
    CertificateExactly(p, req, env, cidr);
  }

  // ----------------------------------------------------------------------------- denials

  predicate Answers(o: Outcome, status: nat, reason: DenyReason) {
    o == Denied(Denial(status, reason))
  }

  /** The event of a denial has the reason that the answer has. */
  lemma DeniedEventExactly(p: Policy, req: Request, env: Env, request: nat)
    requires Decide(p, req, env).Denied?
    ensures EventOf(request, Decide(p, req, env)) == CertificateDenied(request, Decide(p, req, env).denial.reason)
    ensures ResponseOf(Decide(p, req, env)) == Response(Decide(p, req, env).denial.status, None)
    ensures 400 <= Decide(p, req, env).denial.status
  {
  }

  /** What is wrong with a request before anybody looks at its token, and how that is answered, in this order. */
  lemma EarlyDenials(p: Policy, req: Request, env: Env)
    ensures !req.post <==> Answers(Decide(p, req, env), 405, BadRequest)
    ensures req.post && p.disabled <==> Answers(Decide(p, req, env), 503, Unmatched(PolicyDisabled))
    ensures req.post && !p.disabled && (req.bodyLength > 16384 || req.body.NotJson?)
       <==> Answers(Decide(p, req, env), 400, BadRequest)
    ensures req.post && !p.disabled && req.bodyLength <= 16384
            && (req.body.Unusable? || (req.body.Key? && !KeyTypeAllowed(p, req.body.key.keyType)))
       <==> Answers(Decide(p, req, env), 400, InvalidPublicKey)
    ensures req.post && !p.disabled && req.bodyLength <= 16384
            && req.body.Key? && KeyTypeAllowed(p, req.body.key.keyType) && req.token.None?
       <==> Answers(Decide(p, req, env), 401, MissingToken)
  {
    if req.body.Key? {
      KeyTypesExact(p, req.body.key.keyType);
    }
  }

  /** The policy refers to the issuer by a rule that is not switched off. */
  ghost predicate KnownIssuer(p: Policy, issuer: string) {
    issuer != "" && exists i :: 0 <= i < |p.rules| && Switches.AsksFor(p.rules[i], issuer)
  }

  /** A token that is unreadable, of an unknown issuer, not genuine or outside its times is answered alike. */
  lemma TokenDenials(p: Policy, req: Request, env: Env)
    requires !p.disabled && Presentable(p, req)
    ensures !Genuine(req, env) || !KnownIssuer(p, req.token.value.issuer.value)
       <==> Answers(Decide(p, req, env), 401, TokenInvalid)
  {
    ScreenExactly(p, req);
    IdentityExactly(req, env);
    if req.token.value.issuer.Some? {
      Switches.IssuersOfRulesNotOff(p.rules, req.token.value.issuer.value);
    }
  }

  ghost predicate NobodySays(p: Policy, id: Identity) {
    forall i :: 0 <= i < |p.rules| ==> !RuleSays(p.rules[i], id)
  }

  ghost predicate SeveralSay(p: Policy, id: Identity) {
    exists i, j :: 0 <= i < j < |p.rules| && RuleSays(p.rules[i], id) && RuleSays(p.rules[j], id)
  }

  /** One rule alone applies, and this says whether its template can be filled in. */
  ghost predicate OneSays(p: Policy, id: Identity, fills: bool) {
    exists i: nat :: OnlyRule(p, id, i) && (fills <==> exists keyId :: KeyIdFor(p, p.rules[i], id, keyId))
  }

  lemma OneSaysAt(p: Policy, id: Identity, i: nat)
    requires OnlyRule(p, id, i)
    ensures !NobodySays(p, id) && !SeveralSay(p, id)
    ensures OneSays(p, id, true) <==> KeyId.KeyIdOf(p.KeyIdTemplateFor(p.rules[i]), id.claims).Ok?
    ensures OneSays(p, id, false) <==> KeyId.KeyIdOf(p.KeyIdTemplateFor(p.rules[i]), id.claims).Err?
  {
    forall keyId
      ensures KeyIdFor(p, p.rules[i], id, keyId)
         <==> KeyId.KeyIdOf(p.KeyIdTemplateFor(p.rules[i]), id.claims) == Ok(keyId)
    {
      KeyIdForExactly(p, p.rules[i], id, keyId);
    }
    var r := KeyId.KeyIdOf(p.KeyIdTemplateFor(p.rules[i]), id.claims);
    if r.Ok? {
      assert KeyIdFor(p, p.rules[i], id, r.value);
    }
    assert forall j: nat :: OnlyRule(p, id, j) ==> j == i;
  }

  lemma NotOnlyOne(p: Policy, id: Identity, fills: bool)
    ensures NobodySays(p, id) || SeveralSay(p, id) ==> !OneSays(p, id, fills)
  {
  }

  /** A disabled policy authorizes nobody, should a request ever get that far. */
  lemma DisabledAuthorizesNobody(p: Policy, id: Identity)
    requires p.disabled
    ensures Authorize(p, id) == Err(Denial(503, Unmatched(PolicyDisabled)))
  {
  }

  lemma AuthorizedByVerdict(p: Policy, id: Identity)
    requires !p.disabled
    ensures var d, a := Verdict(p, id), Authorize(p, id);
      if d.rule.Some? then
        match KeyId.KeyIdOf(p.KeyIdTemplateFor(d.rule.value), id.claims)
        case Err(_) => a == Err(Denial(403, KeyIdInvalid))
        case Ok(keyId) => a.Ok?
      else d.reason.Some? && a == Err(Denial(403, Unmatched(d.reason.value)))
  {
  }

  lemma AuthorizedAs(p: Policy, id: Identity)
    requires !p.disabled
    ensures NobodySays(p, id) <==> Authorize(p, id) == Err(Denial(403, Unmatched(NoRuleMatched)))
    ensures SeveralSay(p, id) <==> Authorize(p, id) == Err(Denial(403, Unmatched(MultipleRulesMatched)))
    ensures OneSays(p, id, false) <==> Authorize(p, id) == Err(Denial(403, KeyIdInvalid))
    ensures OneSays(p, id, true) <==> Authorize(p, id).Ok?
  {
    var at := MatchedNamesExactly(p, id);
    AuthorizedByVerdict(p, id);
    if |at| == 1 {
      assert OnlyRule(p, id, at[0]);
      OneSaysAt(p, id, at[0]);
    } else {
      NotOnlyOne(p, id, true);
      NotOnlyOne(p, id, false);
      if |at| >= 2 {
        assert at[0] < at[1] && RuleSays(p.rules[at[0]], id) && RuleSays(p.rules[at[1]], id);
        assert SeveralSay(p, id);
      } else {
        assert NobodySays(p, id);
      }
    }
  }

  lemma DecidedByPolicy(p: Policy, req: Request, env: Env)
    requires !p.disabled && Presentable(p, req) && Genuine(req, env) && KnownIssuer(p, WhoIs(req, env).issuer)
    ensures Decide(p, req, env) == match Authorize(p, WhoIs(req, env))
      case Err(denial) => Denied(denial)
      case Ok(g) => Conclude(p, g, req.body.key, env)
  {
    ScreenExactly(p, req);
    IdentityExactly(req, env);
    Switches.IssuersOfRulesNotOff(p.rules, WhoIs(req, env).issuer);
  }

  /** Behind the token, the rules decide, then the key ID, then the signer. */
  lemma PolicyDenials(p: Policy, req: Request, env: Env)
    requires !p.disabled && Presentable(p, req) && Genuine(req, env) && KnownIssuer(p, WhoIs(req, env).issuer)
    ensures NobodySays(p, WhoIs(req, env)) <==> Answers(Decide(p, req, env), 403, Unmatched(NoRuleMatched))
    ensures SeveralSay(p, WhoIs(req, env)) <==> Answers(Decide(p, req, env), 403, Unmatched(MultipleRulesMatched))
    ensures OneSays(p, WhoIs(req, env), false) <==> Answers(Decide(p, req, env), 403, KeyIdInvalid)
    ensures OneSays(p, WhoIs(req, env), true) && !env.signerWorks <==> Answers(Decide(p, req, env), 500, SigningError)
  {
    DecidedByPolicy(p, req, env);
    AuthorizedAs(p, WhoIs(req, env));
  }
}
