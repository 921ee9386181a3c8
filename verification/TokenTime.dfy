/** The time-based claims of a verified token (internal/oidc/verifier.go): sections 4.1.4 to 4.1.6 of RFC 7519. */
module TokenTime {
  import opened Base
  import KeyId

  const CLOCK_SKEW_LEEWAY := 60 * SECOND

  /** Go's conversion of a float64 to int64: towards zero. */
  function Truncate(r: real): int {
    if r >= 0.0 then r.Floor else -(-r).Floor
  }

  /** A numeric claim as a moment in nanoseconds; a claim of any other type counts as absent. */
  function NumericClaim(claims: KeyId.Claims, name: string): Option<int> {
    if name in claims && claims[name].Number? then Some(Truncate(claims[name].number) * SECOND) else None
  }

  datatype TimeError = NoExpiry | Expired | NotYetValid | IssuedInFuture

  function CheckTimeClaims(claims: KeyId.Claims, now: int): Option<TimeError> {
    var exp, nbf, iat := NumericClaim(claims, "exp"), NumericClaim(claims, "nbf"), NumericClaim(claims, "iat");
    if exp.None? then Some(NoExpiry)
    else if now > exp.value + CLOCK_SKEW_LEEWAY then Some(Expired)
    else if nbf.Some? && now < nbf.value - CLOCK_SKEW_LEEWAY then Some(NotYetValid)
    else if iat.Some? && now < iat.value - CLOCK_SKEW_LEEWAY then Some(IssuedInFuture)
    else None
  }

  /** The first moment at which neither nbf nor iat stands in the way, if they name one. */
  function Opens(claims: KeyId.Claims): Option<int> {
    match (NumericClaim(claims, "nbf"), NumericClaim(claims, "iat"))
    case (None, None) => None
    case (Some(n), None) => Some(n - CLOCK_SKEW_LEEWAY)
    case (None, Some(i)) => Some(i - CLOCK_SKEW_LEEWAY)
    case (Some(n), Some(i)) => Some((if n < i then i else n) - CLOCK_SKEW_LEEWAY)
  }

  /** The times at which a token is accepted are one closed interval, empty without a numeric exp. */
  lemma AcceptedTimes(claims: KeyId.Claims, now: int)
    ensures CheckTimeClaims(claims, now).None? <==>
              && NumericClaim(claims, "exp").Some?
              && (Opens(claims).Some? ==> Opens(claims).value <= now)
              && now <= NumericClaim(claims, "exp").value + 60_000_000_000
  {
  }

  /** It opens when both nbf and iat, as far as given, lie no more than a minute ahead. */
  lemma OpensWhen(claims: KeyId.Claims, now: int)
    ensures (Opens(claims).Some? ==> Opens(claims).value <= now) <==>
              && (NumericClaim(claims, "nbf").Some? ==> NumericClaim(claims, "nbf").value <= now + 60_000_000_000)
              && (NumericClaim(claims, "iat").Some? ==> NumericClaim(claims, "iat").value <= now + 60_000_000_000)
  {
  }

  /** A refusal names a claim that is missing or out of range. */
  lemma RefusalNamesClaim(claims: KeyId.Claims, now: int)
    ensures match CheckTimeClaims(claims, now)
      case None => true
      case Some(NoExpiry) => NumericClaim(claims, "exp").None?
      case Some(Expired) =>
        NumericClaim(claims, "exp").Some? && NumericClaim(claims, "exp").value + 60_000_000_000 < now
      case Some(NotYetValid) =>
        NumericClaim(claims, "nbf").Some? && now + 60_000_000_000 < NumericClaim(claims, "nbf").value
      case Some(IssuedInFuture) =>
        NumericClaim(claims, "iat").Some? && now + 60_000_000_000 < NumericClaim(claims, "iat").value
  {
  }

  /** A claim given as a whole number n is the moment n seconds after the epoch; text or nothing is no moment. */
  lemma NumericClaimMeans(claims: KeyId.Claims, name: string, n: int)
    ensures name in claims && claims[name] == KeyId.Number(n as real) ==>
              NumericClaim(claims, name) == Some(n * 1_000_000_000)
    ensures name !in claims || !claims[name].Number? ==> NumericClaim(claims, name).None?
  {
  }

  /** Truncation goes towards zero by less than one. */
  lemma TruncateNearby(r: real)
    ensures r >= 0.0 ==> Truncate(r) as real <= r < (Truncate(r) + 1) as real
    ensures r <= 0.0 ==> (Truncate(r) - 1) as real < r <= Truncate(r) as real
  {
  }
}
