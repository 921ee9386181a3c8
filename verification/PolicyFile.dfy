/**
 The policy (internal/policy/policy.go): its entities, the effective values a
 rule inherits, the validation that every loaded policy has passed and the list
 of issuers it refers to.
 */
module PolicyFile {
  import opened Base
  import KeyId

  const DEFAULT_VALID_AFTER_OFFSET := -30
  const DEFAULT_MAX_VALID_FOR := 900
  const ED25519 := "ssh-ed25519"

  datatype Extensions = Extensions(
    pty: bool,
    portForwarding: bool,
    agentForwarding: bool,
    x11Forwarding: bool,
    userRc: bool)

  datatype Defaults = Defaults(
    validAfterOffset: Option<int>,
    maxValidFor: Option<int>,
    publicKeyTypes: seq<string>,
    extensions: Option<Extensions>,
    validFor: Option<int>,
    keyIdTemplate: string,
    sourceAddress: seq<string>)

  /** match.jwt: an empty owner or repoName is no constraint. */
  datatype JwtMatch = JwtMatch(issuer: string, audience: string, owner: string, repoName: string,
                               claimsExact: map<string, string>)

  datatype CertificateRule = CertificateRule(
    principals: seq<string>,
    validFor: Option<int>,
    keyIdTemplate: string,
    extensions: Option<Extensions>,
    forceCommand: string,
    sourceAddress: seq<string>)

  datatype Rule = Rule(name: string, enabled: Option<bool>, jwt: Option<JwtMatch>, certificate: CertificateRule)
  {
    predicate IsEnabled() {
      enabled != Some(false)
    }
  }

  datatype Policy = Policy(version: int, disabled: bool, defaults: Defaults, rules: seq<Rule>)
  {
    function ValidAfterOffset(): int {
      if defaults.validAfterOffset.Some? then defaults.validAfterOffset.value else DEFAULT_VALID_AFTER_OFFSET
    }

    function MaxValidFor(): int {
      if defaults.maxValidFor.Some? then defaults.maxValidFor.value else DEFAULT_MAX_VALID_FOR
    }

    function PublicKeyTypes(): seq<string> {
      if defaults.publicKeyTypes != [] then defaults.publicKeyTypes else [ED25519]
    }

    function ExtensionsFor(r: Rule): Extensions {
      if r.certificate.extensions.Some? then r.certificate.extensions.value
      else if defaults.extensions.Some? then defaults.extensions.value
      else Extensions(false, false, false, false, false)
    }

    function ValidFor(r: Rule): int {
      if r.certificate.validFor.Some? then r.certificate.validFor.value
      else if defaults.validFor.Some? then defaults.validFor.value
      else 0
    }

    function KeyIdTemplateFor(r: Rule): string {
      if r.certificate.keyIdTemplate != "" then r.certificate.keyIdTemplate else defaults.keyIdTemplate
    }

    function SourceAddressFor(r: Rule): seq<string> {
      if r.certificate.sourceAddress != [] then r.certificate.sourceAddress else defaults.sourceAddress
    }
  }

  // ------------------------------------------------------------------------- validation

  predicate AlphaNumeric(c: char) {
    KeyId.IsLower(c) || KeyId.IsUpper(c) || KeyId.IsDigit(c)
  }

  /** [A-Za-z0-9._-]+ */
  predicate RuleName(s: string) {
    s != "" && forall i :: 0 <= i < |s| ==> AlphaNumeric(s[i]) || s[i] in "._-"
  }

  /** [A-Za-z0-9._@:-]{1,128} */
  predicate Principal(s: string) {
    && 1 <= |s| <= 128
    && forall i :: 0 <= i < |s| ==> AlphaNumeric(s[i]) || s[i] in "._@:-"
  }

  predicate HasTemplating(cmd: string) {
    exists i :: 0 <= i < |cmd| - 1 && cmd[i] == '$' && cmd[i + 1] == '{'
  }

  /** Below 0x20, or 0x7f. */
  predicate IsControl(c: char) {
    c < ' ' || c == '\U{7f}'
  }

  predicate NoControl(s: string) {
    forall i :: 0 <= i < |s| ==> !IsControl(s[i])
  }

  /** All that is known of text that net.ParseCIDR accepts: section 3.1 of RFC 4632, section 2.3 of RFC 4291. */
  predicate CidrText(s: string) {
    && s != ""
    && forall i :: 0 <= i < |s| ==> KeyId.IsDigit(s[i]) || 'a' <= s[i] <= 'f' || 'A' <= s[i] <= 'F' || s[i] in ".:/"
  }

  /** Any decision procedure that accepts no more than CIDR text can stand for net.ParseCIDR. */
  ghost predicate CidrOracle(cidr: string -> bool) {
    forall s :: cidr(s) ==> CidrText(s)
  }

  predicate SourcesOk(cidrs: seq<string>, cidr: string -> bool) {
    forall i :: 0 <= i < |cidrs| ==> cidrs[i] != "" && cidr(cidrs[i])
  }

  predicate JwtOk(m: JwtMatch) {
    && m.issuer != "" && m.audience != ""
    && '/' !in m.owner && '/' !in m.repoName
    && forall claim :: claim in m.claimsExact ==> claim != "" && m.claimsExact[claim] != ""
  }

  /** One rule in the light of the defaults it inherits, apart from the uniqueness of its name. */
  predicate RuleOk(p: Policy, r: Rule, cidr: string -> bool) {
    && RuleName(r.name)
    && r.jwt.Some? && JwtOk(r.jwt.value)
    && r.certificate.principals != []
    && (forall i :: 0 <= i < |r.certificate.principals| ==> Principal(r.certificate.principals[i]))
    && 0 < p.ValidFor(r) <= p.MaxValidFor()
    && p.KeyIdTemplateFor(r) != "" && KeyId.AcceptedTemplate(p.KeyIdTemplateFor(r))
    && !HasTemplating(r.certificate.forceCommand) && NoControl(r.certificate.forceCommand)
    && SourcesOk(p.SourceAddressFor(r), cidr)
  }

  predicate DefaultsOk(p: Policy, cidr: string -> bool) {
    && 0 < p.MaxValidFor()
    && (forall i :: 0 <= i < |p.PublicKeyTypes()| ==> p.PublicKeyTypes()[i] == ED25519)
    && (p.defaults.validFor.Some? ==> 0 < p.defaults.validFor.value <= p.MaxValidFor())
    && (p.defaults.keyIdTemplate != "" ==> KeyId.AcceptedTemplate(p.defaults.keyIdTemplate))
    && SourcesOk(p.defaults.sourceAddress, cidr)
  }

  predicate NamesDistinct(rules: seq<Rule>) {
    forall i, j {:trigger rules[i].name, rules[j].name} :: 0 <= i < j < |rules| ==> rules[i].name != rules[j].name
  }

  /** What a policy must be for the server to run it. */
  predicate WellFormed(p: Policy, cidr: string -> bool) {
    && p.version == 1
    && DefaultsOk(p, cidr)
    && p.rules != []
    && (forall i {:trigger RuleOk(p, p.rules[i], cidr)} :: 0 <= i < |p.rules| ==> RuleOk(p, p.rules[i], cidr))
    && NamesDistinct(p.rules)
  }

  /** Which condition an error of Validate names. */
  datatype Fault =
    | UnsupportedVersion
    | MaxNotPositive
    | UnsupportedKeyType(keyType: string)
    | DefaultTtlNotPositive
    | DefaultTtlTooLong
    | DefaultTemplate
    | DefaultSourceAddress
    | NoRules
    | InRule(index: nat, fault: RuleFault)

  datatype RuleFault =
    | NameMissing
    | NameInvalid
    | NameDuplicate
    | MatchMissing
    | IssuerMissing
    | AudienceMissing
    | OwnerHasSlash
    | RepoNameHasSlash
    | ClaimNameEmpty
    | ClaimValueEmpty(claim: string)
    | PrincipalsMissing
    | PrincipalInvalid(principal: string)
    | TtlMissing
    | TtlTooLong
    | TemplateMissing
    | TemplateInvalid
    | CommandHasTemplating
    | CommandHasControl
    | SourceAddressInvalid

  /** The condition that a rule's error names is one the rule breaks. */
  predicate BreaksInRule(p: Policy, i: nat, f: RuleFault, cidr: string -> bool)
    requires i < |p.rules|
  {
    var r := p.rules[i];
    match f
    case NameMissing => r.name == ""
    case NameInvalid => r.name != "" && !RuleName(r.name)
    case NameDuplicate => exists j :: 0 <= j < i && p.rules[j].name == r.name
    case MatchMissing => r.jwt.None?
    case IssuerMissing => r.jwt.Some? && r.jwt.value.issuer == ""
    case AudienceMissing => r.jwt.Some? && r.jwt.value.audience == ""
    case OwnerHasSlash => r.jwt.Some? && '/' in r.jwt.value.owner
    case RepoNameHasSlash => r.jwt.Some? && '/' in r.jwt.value.repoName
    case ClaimNameEmpty => r.jwt.Some? && "" in r.jwt.value.claimsExact
    case ClaimValueEmpty(claim) =>
      r.jwt.Some? && claim in r.jwt.value.claimsExact && r.jwt.value.claimsExact[claim] == ""
    case PrincipalsMissing => r.certificate.principals == []
    case PrincipalInvalid(s) => s in r.certificate.principals && !Principal(s)
    case TtlMissing => p.ValidFor(r) <= 0
    case TtlTooLong => p.ValidFor(r) > p.MaxValidFor()
    case TemplateMissing => p.KeyIdTemplateFor(r) == ""
    case TemplateInvalid => !KeyId.AcceptedTemplate(p.KeyIdTemplateFor(r))
    case CommandHasTemplating => HasTemplating(r.certificate.forceCommand)
    case CommandHasControl => !NoControl(r.certificate.forceCommand)
    case SourceAddressInvalid => !SourcesOk(p.SourceAddressFor(r), cidr)
  }

  /** The condition that an error names is one the policy breaks, and no earlier rule breaks any. */
  predicate Breaks(p: Policy, f: Fault, cidr: string -> bool) {
    match f
    case UnsupportedVersion => p.version != 1
    case MaxNotPositive => p.MaxValidFor() <= 0
    case UnsupportedKeyType(kt) => kt in p.PublicKeyTypes() && kt != ED25519
    case DefaultTtlNotPositive => p.defaults.validFor.Some? && p.defaults.validFor.value <= 0
    case DefaultTtlTooLong => p.defaults.validFor.Some? && p.defaults.validFor.value > p.MaxValidFor()
    case DefaultTemplate => p.defaults.keyIdTemplate != "" && !KeyId.AcceptedTemplate(p.defaults.keyIdTemplate)
    case DefaultSourceAddress => !SourcesOk(p.defaults.sourceAddress, cidr)
    case NoRules => p.rules == []
    case InRule(i, rf) =>
      && i < |p.rules| && BreaksInRule(p, i, rf, cidr)
      && RulesOk(p, i, cidr)
  }

  /** The range loop over claims_exact: Go picks any order, and so does this one. */
  method CheckClaims(claims: map<string, string>) returns (r: Option<RuleFault>)
    ensures r.None? <==> forall c :: c in claims ==> c != "" && claims[c] != ""
    ensures r.Some? ==> (r == Some(ClaimNameEmpty) && "" in claims)
                        || (r.value.ClaimValueEmpty? && r.value.claim in claims && claims[r.value.claim] == "")
  {
    var rest := claims.Keys;
    while rest != {}
      invariant rest <= claims.Keys
      invariant forall c :: c in claims && c !in rest ==> c != "" && claims[c] != ""
      decreases |rest|
    {
      var c :| c in rest;
      if c == "" {
        return Some(ClaimNameEmpty);
      }
      if claims[c] == "" {
        return Some(ClaimValueEmpty(c));
      }
      rest := rest - {c};
    }
    return None;
  }

  method CheckPrincipals(principals: seq<string>) returns (r: Option<RuleFault>)
    ensures r.None? <==> principals != [] && forall i :: 0 <= i < |principals| ==> Principal(principals[i])
    ensures r.Some? ==> (r == Some(PrincipalsMissing) && principals == [])
                        || (r.value.PrincipalInvalid? && r.value.principal in principals
                            && !Principal(r.value.principal))
  {
    if |principals| == 0 {
      return Some(PrincipalsMissing);
    }
    for i := 0 to |principals|
      invariant forall j :: 0 <= j < i ==> Principal(principals[j])
    {
      if principals[i] == "" {
        return Some(PrincipalInvalid(principals[i]));
      }
      if !Principal(principals[i]) {
        return Some(PrincipalInvalid(principals[i]));
      }
    }
    return None;
  }

  /** The checks of one rule after its name has been registered. */
  method CheckRule(p: Policy, i: nat, cidr: string -> bool) returns (r: Option<RuleFault>)
    requires i < |p.rules| && RuleName(p.rules[i].name)
    ensures r.None? <==> RuleOk(p, p.rules[i], cidr)
    ensures r.Some? ==> BreaksInRule(p, i, r.value, cidr)
  {
    var rule := p.rules[i];
    if rule.jwt.None? {
      return Some(MatchMissing);
    }
    var m := rule.jwt.value;
    if m.issuer == "" {
      return Some(IssuerMissing);
    }
    if m.audience == "" {
      return Some(AudienceMissing);
    }
    if '/' in m.owner {
      return Some(OwnerHasSlash);
    }
    if '/' in m.repoName {
      return Some(RepoNameHasSlash);
    }
    r := CheckClaims(m.claimsExact);
    if r.Some? {
      return;
    }
    r := CheckPrincipals(rule.certificate.principals);
    if r.Some? {
      return;
    }
    var ttl := p.ValidFor(rule);
    if ttl <= 0 {
      return Some(TtlMissing);
    }
    if ttl > p.MaxValidFor() {
      return Some(TtlTooLong);
    }
    var tmpl := p.KeyIdTemplateFor(rule);
    if tmpl == "" {
      return Some(TemplateMissing);
    }
    var vars := KeyId.TemplateVars(tmpl);
    if vars.Err? {
      return Some(TemplateInvalid);
    }
    if HasTemplating(rule.certificate.forceCommand) {
      return Some(CommandHasTemplating);
    }
    if !NoControl(rule.certificate.forceCommand) {
      return Some(CommandHasControl);
    }
    if !SourcesOk(p.SourceAddressFor(rule), cidr) {
      return Some(SourceAddressInvalid);
    }
    return None;
  }

  /** The part of Validate that looks at the version and the defaults block. */
  method CheckDefaults(p: Policy, cidr: string -> bool) returns (r: Option<Fault>)
    ensures r.None? <==> p.version == 1 && DefaultsOk(p, cidr)
    ensures r.Some? ==> !r.value.InRule? && Breaks(p, r.value, cidr)
  {
    if p.version != 1 {
      return Some(UnsupportedVersion);
    }
    if p.MaxValidFor() <= 0 {
      return Some(MaxNotPositive);
    }
    var keyTypes := p.PublicKeyTypes();
    for k := 0 to |keyTypes|
      invariant forall j :: 0 <= j < k ==> keyTypes[j] == ED25519
    {
      if keyTypes[k] != ED25519 {
        return Some(UnsupportedKeyType(keyTypes[k]));
      }
    }
    if p.defaults.validFor.Some? {
      if p.defaults.validFor.value <= 0 {
        return Some(DefaultTtlNotPositive);
      }
      if p.defaults.validFor.value > p.MaxValidFor() {
        return Some(DefaultTtlTooLong);
      }
    }
    if p.defaults.keyIdTemplate != "" {
      var vars := KeyId.TemplateVars(p.defaults.keyIdTemplate);
      if vars.Err? {
        return Some(DefaultTemplate);
      }
    }
    if !SourcesOk(p.defaults.sourceAddress, cidr) {
      return Some(DefaultSourceAddress);
    }
    return None;
  }

  /** Some rule before the i-th has this name. */
  predicate NameTaken(rules: seq<Rule>, i: nat, name: string)
    requires i <= |rules|
  {
    exists j :: 0 <= j < i && rules[j].name == name
  }

  /** All the checks of one rule, given the names of the rules before it. */
  method CheckNamedRule(p: Policy, i: nat, names: map<string, bool>, cidr: string -> bool)
    returns (r: Option<RuleFault>)
    requires i < |p.rules|
    requires forall n :: n in names <==> NameTaken(p.rules, i, n)
    ensures r.None? <==> RuleOk(p, p.rules[i], cidr) && !NameTaken(p.rules, i, p.rules[i].name)
    ensures r.Some? ==> BreaksInRule(p, i, r.value, cidr)
  {
    var name := p.rules[i].name;
    if name == "" {
      return Some(NameMissing);
    }
    if !RuleName(name) {
      return Some(NameInvalid);
    }
    if name in names {
      return Some(NameDuplicate);
    }
    r := CheckRule(p, i, cidr);
  }

  /** The first n rules pass, on their own and against each other. */
  predicate RulesOk(p: Policy, n: nat, cidr: string -> bool)
    requires n <= |p.rules|
  {
    && (forall i :: 0 <= i < n ==> RuleOk(p, p.rules[i], cidr))
    && forall i :: 0 <= i < n ==> !NameTaken(p.rules, i, p.rules[i].name)
  }

  lemma RulesOkNext(p: Policy, n: nat, cidr: string -> bool)
    requires n < |p.rules|
    ensures RulesOk(p, n + 1, cidr) <==>
              RulesOk(p, n, cidr) && RuleOk(p, p.rules[n], cidr) && !NameTaken(p.rules, n, p.rules[n].name)
  {
  }

  lemma TakenNext(rules: seq<Rule>, n: nat)
    requires n < |rules|
    ensures forall name :: NameTaken(rules, n + 1, name) <==> NameTaken(rules, n, name) || name == rules[n].name
  {
    forall name ensures NameTaken(rules, n + 1, name) <==> NameTaken(rules, n, name) || name == rules[n].name {
      if NameTaken(rules, n, name) {
        var j :| 0 <= j < n && rules[j].name == name;
        assert 0 <= j < n + 1 && rules[j].name == name;
      }
      if name == rules[n].name {
        assert 0 <= n < n + 1 && rules[n].name == name;
      }
    }
  }

  lemma NoneTakenIsDistinct(rules: seq<Rule>)
    ensures NamesDistinct(rules) <==> forall i :: 0 <= i < |rules| ==> !NameTaken(rules, i, rules[i].name)
  {
    if forall i :: 0 <= i < |rules| ==> !NameTaken(rules, i, rules[i].name) {
      forall i, j | 0 <= i < j < |rules| ensures rules[i].name != rules[j].name {
        assert !NameTaken(rules, j, rules[j].name);
      }
    }
  }

  /**
   Validate accepts exactly the well-formed policies, whatever order maps are
   iterated in, and an error names a condition that is really broken.
   */
  method Validate(p: Policy, cidr: string -> bool) returns (r: Option<Fault>)
    ensures r.None? <==> WellFormed(p, cidr)
    ensures r.Some? ==> Breaks(p, r.value, cidr)
  {
    r := CheckDefaults(p, cidr);
    if r.Some? {
      return;
    }
    if |p.rules| == 0 {
      return Some(NoRules);
    }
    NoneTakenIsDistinct(p.rules);
    r := CheckRules(p, cidr);
  }

  /** The loop over the rules, with the names seen so far. */
  method CheckRules(p: Policy, cidr: string -> bool) returns (r: Option<Fault>)
    ensures r.None? <==> RulesOk(p, |p.rules|, cidr)
    ensures r.Some? ==>
              && r.value.InRule? && r.value.index < |p.rules|
              && RulesOk(p, r.value.index, cidr)
              && BreaksInRule(p, r.value.index, r.value.fault, cidr)
  {
    var names: map<string, bool> := map[];
    var i := 0;
    while i < |p.rules|
      invariant 0 <= i <= |p.rules| && RulesOk(p, i, cidr)
      invariant forall n :: n in names <==> NameTaken(p.rules, i, n)
    {
      RulesOkNext(p, i, cidr);
      TakenNext(p.rules, i);
      var f := CheckNamedRule(p, i, names, cidr);
      if f.Some? {
        RulesOkMonotone(p, i + 1, cidr);
        return Some(InRule(i, f.value));
      }
      names := names[p.rules[i].name := true];
      i := i + 1;
    }
    return None;
  }

  lemma RulesOkMonotone(p: Policy, n: nat, cidr: string -> bool)
    requires n <= |p.rules|
    ensures RulesOk(p, |p.rules|, cidr) ==> RulesOk(p, n, cidr)
  {
  }

  // ---------------------------------------------------------------------------- issuers

  /** The issuer an enabled rule asks for, if the rule takes part in the list. */
  function IssuerOf(r: Rule): Option<string> {
    if r.IsEnabled() && r.jwt.Some? && r.jwt.value.issuer != "" then Some(r.jwt.value.issuer) else None
  }

  /** The issuers of the rules, each at its first occurrence. */
  function IssuersOf(rules: seq<Rule>): seq<string> {
    if rules == [] then []
    else
      var past, iss := IssuersOf(rules[..|rules| - 1]), IssuerOf(rules[|rules| - 1]);
      if iss.Some? && iss.value !in past then past + [iss.value] else past
  }

  method Issuers(p: Policy) returns (out: seq<string>)
    ensures out == IssuersOf(p.rules)
  {
    var seen: map<string, bool> := map[];
    out := [];
    for i := 0 to |p.rules|
      invariant out == IssuersOf(p.rules[..i])
      invariant forall s :: s in seen <==> s in out
    {
      assert p.rules[..i + 1][..i] == p.rules[..i];
      var r := p.rules[i];
      if r.IsEnabled() && r.jwt.Some? {
        var iss := r.jwt.value.issuer;
        if iss != "" && iss !in seen {
          seen := seen[iss := true];
          out := out + [iss];
        }
      }
    }
    assert p.rules[..|p.rules|] == p.rules;
  }

  /** The list has no duplicates and names exactly the issuers of the enabled rules. */
  lemma {:induction false} IssuersExact(rules: seq<Rule>)
    ensures var out := IssuersOf(rules);
      && (forall a, b :: 0 <= a < b < |out| ==> out[a] != out[b])
      && (forall s :: s in out <==> exists i :: 0 <= i < |rules| && IssuerOf(rules[i]) == Some(s))
  {
    if rules != [] {
      var past := rules[..|rules| - 1];
      IssuersExact(past);
      var out, last := IssuersOf(rules), IssuerOf(rules[|rules| - 1]);
      assert forall i :: 0 <= i < |past| ==> past[i] == rules[i];
      forall s ensures s in out <==> exists i :: 0 <= i < |rules| && IssuerOf(rules[i]) == Some(s) {
        if s in out && s in IssuersOf(past) {
          var i :| 0 <= i < |past| && IssuerOf(past[i]) == Some(s);
          assert IssuerOf(rules[i]) == Some(s);
        }
        if i :| 0 <= i < |rules| && IssuerOf(rules[i]) == Some(s) {
          assert i < |past| ==> IssuerOf(past[i]) == Some(s);
        }
      }
    }
  }

  /** The list is in the order in which the issuers first occur among the rules. */
  lemma {:induction false} IssuersInOrder(rules: seq<Rule>, a: nat, b: nat) returns (i: nat, j: nat)
    requires a < b < |IssuersOf(rules)|
    ensures i < j < |rules|
    ensures IssuerOf(rules[i]) == Some(IssuersOf(rules)[a]) && IssuerOf(rules[j]) == Some(IssuersOf(rules)[b])
    ensures forall k :: 0 <= k < j ==> IssuerOf(rules[k]) != Some(IssuersOf(rules)[b])
    decreases |rules|
  {
    var past := rules[..|rules| - 1];
    assert forall k :: 0 <= k < |past| ==> past[k] == rules[k];
    if b < |IssuersOf(past)| {
      i, j := IssuersInOrder(past, a, b);
    } else {
      IssuersExact(past);
      j := |rules| - 1;
      i :| 0 <= i < |past| && IssuerOf(past[i]) == Some(IssuersOf(past)[a]);
      forall k | 0 <= k < j ensures IssuerOf(rules[k]) != Some(IssuersOf(rules)[b]) {
        assert IssuerOf(past[k]) == IssuerOf(rules[k]);
      }
    }
  }
}
