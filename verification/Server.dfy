/**
 The signing pipeline (internal/server/server.go) and the reload loop
 (cmd/oidc-ssh-ca/serve.go), one request and one reload at a time.
 */
module Server {
  import opened Base
  import opened PolicyFile
  import opened Match
  import opened CertIssuer
  import KeyId
  import TokenTime

  const MAX_REQUEST_BODY := 16 * 1024

  /** The request body: not JSON, JSON whose public_key is rejected outright, or a parsed key. */
  datatype Body = NotJson | Unusable | Key(key: PublicKey)

  /** A bearer token, by the issuer it names before verification, if it can be read at all. */
  datatype Token = Token(issuer: Option<string>)

  datatype Request = Request(post: bool, bodyLength: nat, body: Body, token: Option<Token>)

  /** What signature verification establishes about a token besides its issuer. */
  datatype Verified = Verified(audiences: seq<string>, claims: KeyId.Claims)

  /** The environment of one request: discovery and signature check, two clock readings, the signer. */
  datatype Env = Env(verified: Option<Verified>, verifiedAt: int, signedAt: int, signerWorks: bool)

  datatype DenyReason =
    | BadRequest
    | InvalidPublicKey
    | MissingToken
    | TokenInvalid
    | Unmatched(reason: Reason)
    | KeyIdInvalid
    | SigningError

  datatype Denial = Denial(status: nat, reason: DenyReason)

  /** The single matching rule and the expanded key ID. */
  datatype Grant = Grant(rule: Rule, keyId: string)

  datatype Outcome = Denied(denial: Denial) | Issued(grant: Grant, validFor: int, certificate: Certificate)
  {
    function Status(): nat {
      if Issued? then 200 else denial.status
    }
  }

  /** An audit line; of the optional attributes an issued one has only those the rule sets itself. */
  datatype AuditEvent =
    | CertificateDenied(request: nat, reason: DenyReason)
    | CertificateIssued(request: nat, rule: string, principals: seq<string>, keyId: string, validFor: int,
                        forceCommand: string, sourceAddress: seq<string>)

  datatype Response = Response(status: nat, certificate: Option<Certificate>)

  // -------------------------------------------------------------- the stages of a request

  /** Everything that is settled before the token is looked into. */
  function Screen(p: Policy, req: Request): Option<Denial> {
    if p.disabled then Some(Denial(503, Unmatched(PolicyDisabled)))
    else if req.bodyLength > MAX_REQUEST_BODY then Some(Denial(400, BadRequest))
    else if req.body.NotJson? then Some(Denial(400, BadRequest))
    else if req.body.Unusable? || req.body.key.keyType !in p.PublicKeyTypes() then Some(Denial(400, InvalidPublicKey))
    else if req.token.None? then Some(Denial(401, MissingToken))
    else None
  }

  /** The issuer gate of RemoteVerifier.Verify. */
  predicate PassesGate(issuers: seq<string>, token: Token) {
    token.issuer.Some? && token.issuer.value in issuers
  }

  /** Verification behind the gate: signature and time claims. */
  function Authenticate(issuer: string, verified: Option<Verified>, now: int): Option<Identity> {
    if verified.None? || TokenTime.CheckTimeClaims(verified.value.claims, now).Some? then None
    else Some(Identity(issuer, verified.value.audiences, verified.value.claims))
  }

  /** Exactly-one-match and the key ID. */
  function Authorize(p: Policy, id: Identity): Result<Grant, Denial> {
    var d := Verdict(p, id);
    if d.rule.None? then
      Err(Denial(if d.reason == Some(PolicyDisabled) then 503 else 403, Unmatched(d.reason.value)))
    else
      match KeyId.KeyIdOf(p.KeyIdTemplateFor(d.rule.value), id.claims)
      case Err(_) => Err(Denial(403, KeyIdInvalid))
      case Ok(keyId) => Ok(Grant(d.rule.value, keyId))
  }

  function IssueRequestFor(p: Policy, g: Grant, key: PublicKey, now: int): IssueRequest {
    IssueRequest(key, g.keyId, g.rule.certificate.principals,
                 now + SecondsDuration(p.ValidAfterOffset()),
                 now + SecondsDuration(p.ValidFor(g.rule)),
                 p.ExtensionsFor(g.rule), g.rule.certificate.forceCommand, p.SourceAddressFor(g.rule))
  }

  function Conclude(p: Policy, g: Grant, key: PublicKey, env: Env): Outcome {
    if env.signerWorks then
      Issued(g, p.ValidFor(g.rule), CertificateOf(IssueRequestFor(p, g, key, env.signedAt)))
    else Denied(Denial(500, SigningError))
  }

  /** What Sign decides when it has loaded policy p. */
  function Decide(p: Policy, req: Request, env: Env): Outcome {
    if !req.post then Denied(Denial(405, BadRequest))
    else if Screen(p, req).Some? then Denied(Screen(p, req).value)
    else if !PassesGate(IssuersOf(p.rules), req.token.value) then Denied(Denial(401, TokenInvalid))
    else
      match Authenticate(req.token.value.issuer.value, env.verified, env.verifiedAt)
      case None => Denied(Denial(401, TokenInvalid))
      case Some(id) =>
        match Authorize(p, id)
        case Err(denial) => Denied(denial)
        case Ok(g) => Conclude(p, g, req.body.key, env)
  }

  function EventOf(request: nat, o: Outcome): AuditEvent {
    match o
    case Denied(d) => CertificateDenied(request, d.reason)
    case Issued(g, validFor, cert) =>
      CertificateIssued(request, g.rule.name, g.rule.certificate.principals, g.keyId, validFor,
                        g.rule.certificate.forceCommand, g.rule.certificate.sourceAddress)
  }

  function ResponseOf(o: Outcome): Response {
    Response(o.Status(), if o.Issued? then Some(o.certificate) else None)
  }

  /** The policy a reload leaves active: a file that does not load or validate changes nothing. */
  function Reloaded(current: Policy, file: Option<Policy>, cidr: string -> bool): Policy {
    if file.Some? && WellFormed(file.value, cidr) then file.value else current
  }

  function ReloadedAll(current: Policy, files: seq<Option<Policy>>, cidr: string -> bool): Policy {
    if files == [] then current
    else Reloaded(ReloadedAll(current, files[..|files| - 1], cidr), files[|files| - 1], cidr)
  }

  class SigningServer {
    var policy: Policy
    var audit: seq<AuditEvent>

    constructor (p: Policy)
      ensures policy == p && audit == []
    {
      policy, audit := p, [];
    }

    method SetPolicy(p: Policy)
      modifies this`policy
      ensures policy == p
    {
      policy := p;
    }

    method Deny(request: nat, status: nat, reason: DenyReason) returns (r: Response)
      modifies this`audit
      ensures audit == old(audit) + [CertificateDenied(request, reason)]
      ensures r == Response(status, None)
    {
      audit := audit + [CertificateDenied(request, reason)];
      return Response(status, None);
    }

    /** Sign with no reload in between: one audit event, and the response that Decide says. */
    method Sign(request: nat, req: Request, env: Env) returns (r: Response)
      modifies this`audit
      ensures r == ResponseOf(Decide(policy, req, env))
      ensures audit == old(audit) + [EventOf(request, Decide(policy, req, env))]
    {
      if !req.post {
        r := Deny(request, 405, BadRequest);
        return;
      }
      var pol := policy;
      if pol.disabled {
        r := Deny(request, 503, Unmatched(PolicyDisabled));
        return;
      }
      if req.bodyLength > MAX_REQUEST_BODY {
        r := Deny(request, 400, BadRequest);
        return;
      }
      if req.body.NotJson? {
        r := Deny(request, 400, BadRequest);
        return;
      }
      if req.body.Unusable? || req.body.key.keyType !in pol.PublicKeyTypes() {
        r := Deny(request, 400, InvalidPublicKey);
        return;
      }
      if req.token.None? {
        r := Deny(request, 401, MissingToken);
        return;
      }
      var issuers := Issuers(pol);
      if !PassesGate(issuers, req.token.value) {
        r := Deny(request, 401, TokenInvalid);
        return;
      }
      var id := Authenticate(req.token.value.issuer.value, env.verified, env.verifiedAt);
      if id.None? {
        r := Deny(request, 401, TokenInvalid);
        return;
      }
      var decision := Evaluate(pol, id.value);
      if !decision.Allowed() {
        var status := if decision.reason == Some(PolicyDisabled) then 503 else 403;
        r := Deny(request, status, Unmatched(decision.reason.value));
        return;
      }
      var rule := decision.rule.value;
      var keyId := KeyId.ExpandKeyID(pol.KeyIdTemplateFor(rule), id.value.claims);
      if keyId.Err? {
        r := Deny(request, 403, KeyIdInvalid);
        return;
      }
      var validFor := pol.ValidFor(rule);
      var cert := Issue(IssueRequest(req.body.key, keyId.value, rule.certificate.principals,
                                     env.signedAt + SecondsDuration(pol.ValidAfterOffset()),
                                     env.signedAt + SecondsDuration(validFor),
                                     pol.ExtensionsFor(rule), rule.certificate.forceCommand,
                                     pol.SourceAddressFor(rule)),
                        env.signerWorks);
      if cert.None? {
        r := Deny(request, 500, SigningError);
        return;
      }
      audit := audit + [CertificateIssued(request, rule.name, rule.certificate.principals, keyId.value, validFor,
                                          rule.certificate.forceCommand, rule.certificate.sourceAddress)];
      return Response(200, cert);
    }

    /** The SIGHUP loop, over what the file holds at each signal. */
    method ReloadLoop(files: seq<Option<Policy>>, cidr: string -> bool)
      modifies this`policy
      ensures policy == ReloadedAll(old(policy), files, cidr)
    {
      for i := 0 to |files|
        invariant policy == ReloadedAll(old(policy), files[..i], cidr)
      {
        assert files[..i + 1][..i] == files[..i];
        if files[i].None? {
          continue;
        }
        var fault := Validate(files[i].value, cidr);
        if fault.Some? {
          continue;
        }
        SetPolicy(files[i].value);
      }
      assert files[..|files|] == files;
    }
  }

  /** After any reloads the active policy is the last valid file, or still the first policy. */
  lemma {:induction false} LastValidFileWins(current: Policy, files: seq<Option<Policy>>, cidr: string -> bool)
    ensures var p := ReloadedAll(current, files, cidr);
      || (p == current && forall i :: 0 <= i < |files| && files[i].Some? ==> !WellFormed(files[i].value, cidr))
      || (WellFormed(p, cidr)
          && exists i :: 0 <= i < |files| && files[i] == Some(p)
               && forall j :: i < j < |files| && files[j].Some? ==> !WellFormed(files[j].value, cidr))
  {
    if files != [] {
      var past, last := files[..|files| - 1], |files| - 1;
      LastValidFileWins(current, past, cidr);
      assert forall i :: 0 <= i < |past| ==> past[i] == files[i];
      var p := ReloadedAll(current, past, cidr);
      if files[last].Some? && WellFormed(files[last].value, cidr) {
        assert files[last] == Some(ReloadedAll(current, files, cidr));
      } else if i :| 0 <= i < |past| && past[i] == Some(p)
                     && forall j :: i < j < |past| && past[j].Some? ==> !WellFormed(past[j].value, cidr) {
        assert files[i] == Some(p);
      }
    }
  }

  // ------------------------------------------------------------- what an issued certificate is

  /** The policy's durations fit in a time.Duration. */
  predicate DurationsFit(p: Policy) {
    && p.MaxValidFor() <= MAX_DURATION_SECONDS
    && -MAX_DURATION_SECONDS <= p.ValidAfterOffset() <= MAX_DURATION_SECONDS
  }

  /** The identity behind a certificate. */
  function IdentityOf(req: Request, env: Env): Option<Identity> {
    if req.token.Some? && req.token.value.issuer.Some? then
      Authenticate(req.token.value.issuer.value, env.verified, env.verifiedAt)
    else None
  }

  /** What an issued outcome consists of, whatever the policy. */
  lemma IssuedParts(p: Policy, req: Request, env: Env)
    requires Decide(p, req, env).Issued?
    ensures !p.disabled && req.post && req.body.Key? && req.body.key.keyType in p.PublicKeyTypes()
    ensures IdentityOf(req, env).Some?
    ensures Authorize(p, IdentityOf(req, env).value) == Ok(Decide(p, req, env).grant)
    ensures Decide(p, req, env) == Conclude(p, Decide(p, req, env).grant, req.body.key, env)
  {
  }

  /** A certificate comes from an enabled rule that alone matches a verified identity. */
  lemma IssuedOnlyByMatch(p: Policy, req: Request, env: Env, cidr: string -> bool) returns (i: nat)
    requires WellFormed(p, cidr) && Decide(p, req, env).Issued?
    ensures i < |p.rules| && Decide(p, req, env).grant.rule == p.rules[i] && RuleOk(p, p.rules[i], cidr)
    ensures !p.disabled && IdentityOf(req, env).Some? && Applies(p.rules[i], IdentityOf(req, env).value)
    ensures forall j :: 0 <= j < |p.rules| && Applies(p.rules[j], IdentityOf(req, env).value) ==> j == i
    ensures KeyId.KeyIdOf(p.KeyIdTemplateFor(p.rules[i]), IdentityOf(req, env).value.claims)
            == Ok(Decide(p, req, env).grant.keyId)
  {
    IssuedParts(p, req, env);
    i := TheMatch(p.rules, IdentityOf(req, env).value);
    assert RuleOk(p, p.rules[i], cidr);
  }

  /** An issued certificate's two times come from the signing time. */
  lemma IssuedTimes(p: Policy, req: Request, env: Env)
    requires Decide(p, req, env).Issued?
    ensures TimesFrom(p, env.signedAt, Decide(p, req, env))
    ensures Decide(p, req, env).validFor == p.ValidFor(Decide(p, req, env).grant.rule)
  {
    IssuedParts(p, req, env);
    var g := Decide(p, req, env).grant;
    assert Conclude(p, g, req.body.key, env).certificate
        == CertificateOf(IssueRequestFor(p, g, req.body.key, env.signedAt));
  }

  /** Its rule is one that validation accepted. */
  lemma IssuedRuleOk(p: Policy, req: Request, env: Env, cidr: string -> bool)
    requires WellFormed(p, cidr) && Decide(p, req, env).Issued?
    ensures RuleOk(p, Decide(p, req, env).grant.rule, cidr)
  {
    var i := IssuedOnlyByMatch(p, req, env, cidr);
  }

  lemma CertificateTimes(p: Policy, req: Request, env: Env, cidr: string -> bool)
    requires WellFormed(p, cidr) && Decide(p, req, env).Issued?
    ensures 1 <= Decide(p, req, env).validFor <= p.MaxValidFor()
    ensures TimesFrom(p, env.signedAt, Decide(p, req, env))
  {
    IssuedTimes(p, req, env);
    IssuedRuleOk(p, req, env, cidr);
    TtlInRange(p, Decide(p, req, env).grant.rule, cidr);
  }

  lemma TtlInRange(p: Policy, r: Rule, cidr: string -> bool)
    requires RuleOk(p, r, cidr)
    ensures 1 <= p.ValidFor(r) <= p.MaxValidFor()
  {
  }

  predicate TimesFrom(p: Policy, signedAt: int, o: Outcome)
    requires o.Issued?
  {
    && o.certificate.validAfter == ToUint64(Unix(signedAt + SecondsDuration(p.ValidAfterOffset())))
    && o.certificate.validBefore == ToUint64(Unix(signedAt + SecondsDuration(o.validFor)))
  }

  /** A certificate for rule r of policy p is within what validation promised. */
  ghost predicate Sound(p: Policy, r: Rule, validFor: int, c: Certificate) {
    && 1 <= validFor <= p.MaxValidFor()
    && c.principals != [] && (forall k :: 0 <= k < |c.principals| ==> Principal(c.principals[k]))
    && KeyId.KeyIdValue(c.keyId) && |c.keyId| <= 256
    && c.key.keyType == "ssh-ed25519"
    && SoundOptions(p.SourceAddressFor(r), c.criticalOptions)
  }

  /** No control characters in the forced command, and an address list that reads back as configured. */
  ghost predicate SoundOptions(sources: seq<string>, options: map<string, string>) {
    && (FORCE_COMMAND in options ==> options[FORCE_COMMAND] != "" && NoControl(options[FORCE_COMMAND]))
    && (SOURCE_ADDRESS in options <==> sources != [])
    && (SOURCE_ADDRESS in options ==> Split(options[SOURCE_ADDRESS], ',') == sources)
  }

  lemma OptionsSound(forceCommand: string, sources: seq<string>, cidr: string -> bool)
    requires CidrOracle(cidr) && SourcesOk(sources, cidr) && NoControl(forceCommand)
    ensures SoundOptions(sources, CriticalOptions(forceCommand, sources))
  {
    if sources != [] {
      forall k | 0 <= k < |sources| ensures ',' !in sources[k] {
        assert CidrText(sources[k]);
      }
      SplitJoin(sources, ',');
    }
  }

  lemma RuleOkCertificate(p: Policy, r: Rule, cidr: string -> bool)
    requires RuleOk(p, r, cidr) && CidrOracle(cidr)
    ensures r.certificate.principals != []
    ensures forall k :: 0 <= k < |r.certificate.principals| ==> Principal(r.certificate.principals[k])
    ensures SoundOptions(p.SourceAddressFor(r), CriticalOptions(r.certificate.forceCommand, p.SourceAddressFor(r)))
  {
    OptionsSound(r.certificate.forceCommand, p.SourceAddressFor(r), cidr);
  }

  lemma KeyTypesEd25519(p: Policy, cidr: string -> bool, keyType: string)
    requires WellFormed(p, cidr) && keyType in p.PublicKeyTypes()
    ensures keyType == ED25519
  {
  }

  lemma IssuedContents(p: Policy, req: Request, env: Env)
    requires Decide(p, req, env).Issued?
    ensures var o := Decide(p, req, env);
      && o.certificate.key == req.body.key
      && o.certificate.principals == o.grant.rule.certificate.principals
      && o.certificate.keyId == o.grant.keyId
      && KeyId.KeyIdValue(o.grant.keyId) && |o.grant.keyId| <= KeyId.MAX_KEY_ID_LENGTH
      && o.certificate.extensions == ExtensionsOf(p.ExtensionsFor(o.grant.rule))
      && ExtensionsSay(p.ExtensionsFor(o.grant.rule), o.certificate.extensions)
      && o.certificate.criticalOptions
         == CriticalOptions(o.grant.rule.certificate.forceCommand, p.SourceAddressFor(o.grant.rule))
  {
    IssuedParts(p, req, env);
    var g := Decide(p, req, env).grant;
    assert Conclude(p, g, req.body.key, env).certificate
        == CertificateOf(IssueRequestFor(p, g, req.body.key, env.signedAt));
  }

  /** Whatever policy passes validation, a certificate it leads to is sound. */
  lemma IssuedCertificateSound(p: Policy, req: Request, env: Env, cidr: string -> bool)
    requires WellFormed(p, cidr) && CidrOracle(cidr) && Decide(p, req, env).Issued?
    ensures Sound(p, Decide(p, req, env).grant.rule, Decide(p, req, env).validFor, Decide(p, req, env).certificate)
  {
    var g := Decide(p, req, env).grant;
    IssuedContents(p, req, env);
    IssuedParts(p, req, env);
    CertificateTimes(p, req, env, cidr);
    IssuedRuleOk(p, req, env, cidr);
    RuleOkCertificate(p, g.rule, cidr);
    KeyTypesEd25519(p, cidr, req.body.key.keyType);
  }

  /** With durations that fit, the certificate's window is what the policy says, to the second. */
  lemma IssuedWindow(p: Policy, req: Request, env: Env, cidr: string -> bool)
    requires WellFormed(p, cidr) && DurationsFit(p) && Decide(p, req, env).Issued?
    requires 0 <= Unix(env.signedAt) + p.ValidAfterOffset() && 0 <= env.signedAt
    requires Unix(env.signedAt) + MAX_DURATION_SECONDS < TWO_64
    ensures InWindow(p.ValidAfterOffset(), env.signedAt, Decide(p, req, env))
  {
    CertificateTimes(p, req, env, cidr);
    WindowFollows(p.ValidAfterOffset(), env.signedAt, p, Decide(p, req, env));
  }

  lemma WindowFollows(offset: int, signedAt: int, p: Policy, o: Outcome)
    requires o.Issued? && TimesFrom(p, signedAt, o) && offset == p.ValidAfterOffset()
    requires -MAX_DURATION_SECONDS <= offset <= MAX_DURATION_SECONDS && 1 <= o.validFor <= MAX_DURATION_SECONDS
    requires 0 <= signedAt && 0 <= Unix(signedAt) + offset && Unix(signedAt) + MAX_DURATION_SECONDS < TWO_64
    ensures InWindow(offset, signedAt, o)
  {
    WindowExact(signedAt, o.validFor, offset);
  }

  /**
   The certificate ends its TTL after signing and starts the offset after it;
   the signing time is inside when the offset is not positive, and the window
   is not empty exactly when the offset is smaller than the TTL.
   */
  predicate InWindow(offset: int, signedAt: int, o: Outcome)
    requires o.Issued?
  {
    && o.certificate.validBefore == Unix(signedAt) + o.validFor
    && o.certificate.validBefore - o.certificate.validAfter == o.validFor - offset
    && (offset <= 0 ==> o.certificate.validAfter <= Unix(signedAt) < o.certificate.validBefore)
    && (o.certificate.validAfter < o.certificate.validBefore <==> offset < o.validFor)
  }

  lemma TimesBound(p: Policy, signedAt: int, o: Outcome)
    requires o.Issued? && TimesFrom(p, signedAt, o) && 1 <= o.validFor <= MAX_DURATION_SECONDS && 0 <= signedAt
    ensures o.certificate.validBefore * SECOND <= signedAt + o.validFor * SECOND
    ensures Unix(signedAt) <= TWO_64 / 4 ==> signedAt < o.certificate.validBefore * SECOND
  {
    EndsInTime(signedAt, o.validFor);
    if Unix(signedAt) <= TWO_64 / 4 {
      EndsNoSooner(signedAt, o.validFor);
    }
  }

  /** No certificate ends later than its TTL after the moment it was signed. */
  lemma EndsWithinTtl(p: Policy, req: Request, env: Env, cidr: string -> bool)
    requires WellFormed(p, cidr) && p.MaxValidFor() <= MAX_DURATION_SECONDS && Decide(p, req, env).Issued?
    requires 0 <= env.signedAt
    ensures Decide(p, req, env).certificate.validBefore * SECOND <= env.signedAt + Decide(p, req, env).validFor * SECOND
    ensures Decide(p, req, env).validFor <= p.MaxValidFor()
  {
    CertificateTimes(p, req, env, cidr);
    TimesBound(p, env.signedAt, Decide(p, req, env));
  }

  /** Nor has one ended by the moment it was signed. */
  lemma EndsAfterSigning(p: Policy, req: Request, env: Env, cidr: string -> bool)
    requires WellFormed(p, cidr) && p.MaxValidFor() <= MAX_DURATION_SECONDS && Decide(p, req, env).Issued?
    requires 0 <= env.signedAt && Unix(env.signedAt) <= TWO_64 / 4
    ensures env.signedAt < Decide(p, req, env).certificate.validBefore * SECOND
  {
    CertificateTimes(p, req, env, cidr);
    TimesBound(p, env.signedAt, Decide(p, req, env));
  }

  /**
   No certificate outlives its token's truncated expiry by more than the leeway,
   the time that signing took after verification, and its own TTL.
   */
  lemma OutlivesTokenByLittle(p: Policy, req: Request, env: Env, cidr: string -> bool)
    requires WellFormed(p, cidr) && p.MaxValidFor() <= MAX_DURATION_SECONDS && Decide(p, req, env).Issued?
    requires 0 <= env.signedAt
    ensures env.verified.Some? && TokenTime.NumericClaim(env.verified.value.claims, "exp").Some?
    ensures Decide(p, req, env).certificate.validBefore * SECOND
            <= TokenTime.NumericClaim(env.verified.value.claims, "exp").value + 60_000_000_000
               + (env.signedAt - env.verifiedAt) + Decide(p, req, env).validFor * SECOND
  {
    EndsWithinTtl(p, req, env, cidr);
    TokenTime.AcceptedTimes(env.verified.value.claims, env.verifiedAt);
  }

  /** Nobody gets a certificate before the token is valid: nbf and iat lie at most a minute after its verification. */
  lemma IssuedWithinTokenTimes(p: Policy, req: Request, env: Env)
    requires Decide(p, req, env).Issued?
    ensures env.verified.Some?
    ensures var claims := env.verified.value.claims;
      && TokenTime.NumericClaim(claims, "exp").Some?
      && env.verifiedAt <= TokenTime.NumericClaim(claims, "exp").value + 60_000_000_000
      && (TokenTime.Opens(claims).Some? ==> TokenTime.Opens(claims).value <= env.verifiedAt)
      && (TokenTime.NumericClaim(claims, "nbf").Some? ==>
            TokenTime.NumericClaim(claims, "nbf").value <= env.verifiedAt + 60_000_000_000)
      && (TokenTime.NumericClaim(claims, "iat").Some? ==>
            TokenTime.NumericClaim(claims, "iat").value <= env.verifiedAt + 60_000_000_000)
  {
    IssuedParts(p, req, env);
    TokenTime.AcceptedTimes(env.verified.value.claims, env.verifiedAt);
    TokenTime.OpensWhen(env.verified.value.claims, env.verifiedAt);
  }

  /** The issued event shows the certificate's address list unless the list was inherited. */
  lemma AuditedSourceAddress(p: Policy, req: Request, env: Env, cidr: string -> bool, request: nat)
    requires WellFormed(p, cidr) && CidrOracle(cidr) && Decide(p, req, env).Issued?
    ensures var o := Decide(p, req, env);
      var options := o.certificate.criticalOptions;
      var certified := if SOURCE_ADDRESS in options then Split(options[SOURCE_ADDRESS], ',') else [];
      (EventOf(request, o).sourceAddress == certified)
      <==> (o.grant.rule.certificate.sourceAddress != [] || p.defaults.sourceAddress == [])
  {
    IssuedCertificateSound(p, req, env, cidr);
    IssuedContents(p, req, env);
  }

  // ------------------------------------------------------------------- the issuer pre-filter

  /** The pipeline as it would be if every issuer were taken to verification. */
  function DecideUngated(p: Policy, req: Request, env: Env): Outcome {
    if !req.post then Denied(Denial(405, BadRequest))
    else if Screen(p, req).Some? then Denied(Screen(p, req).value)
    else
      match IdentityOf(req, env)
      case None => Denied(Denial(401, TokenInvalid))
      case Some(id) =>
        match Authorize(p, id)
        case Err(denial) => Denied(denial)
        case Ok(g) => Conclude(p, g, req.body.key, env)
  }

  /** The gate keeps nobody out whom the policy would let in, and changes no certificate. */
  lemma GatePreservesDecisions(p: Policy, req: Request, env: Env, cidr: string -> bool)
    requires WellFormed(p, cidr)
    ensures Decide(p, req, env).Issued? <==> DecideUngated(p, req, env).Issued?
    ensures Decide(p, req, env).Issued? ==> Decide(p, req, env) == DecideUngated(p, req, env)
    ensures Decide(p, req, env) != DecideUngated(p, req, env) ==>
              Decide(p, req, env) == Denied(Denial(401, TokenInvalid))
  {
    if req.post && Screen(p, req).None? && IdentityOf(req, env).Some? {
      var id := IdentityOf(req, env).value;
      if Verdict(p, id).Allowed() {
        GateAdmitsAllowed(p, id, cidr);
      }
    }
  }
}
