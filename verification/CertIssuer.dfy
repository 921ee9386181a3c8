/**
 Building a user certificate from a matched rule (internal/issuer/issuer.go):
 the validity window, the critical options and the extensions of OpenSSH
 PROTOCOL.certkeys. Signing is an oracle that may fail.
 */
module CertIssuer {
  import opened Base
  import opened PolicyFile

  const TWO_63 := 0x8000_0000_0000_0000
  const TWO_64 := 0x1_0000_0000_0000_0000

  /** The largest number of seconds that time.Duration holds. */
  const MAX_DURATION_SECONDS := 9_223_372_036

  datatype PublicKey = PublicKey(keyType: string, blob: string)

  /** issuer.Request; moments are in nanoseconds. */
  datatype IssueRequest = IssueRequest(
    key: PublicKey,
    keyId: string,
    principals: seq<string>,
    validAfter: int,
    validBefore: int,
    extensions: Extensions,
    forceCommand: string,
    sourceAddress: seq<string>)

  datatype Certificate = Certificate(
    key: PublicKey,
    keyId: string,
    principals: seq<string>,
    validAfter: nat,
    validBefore: nat,
    criticalOptions: map<string, string>,
    extensions: map<string, string>)

  // ------------------------------------------------------------------- Go's arithmetic

  /** Two's complement wrap-around of a 64-bit integer. */
  function Wrap64(x: int): int {
    (x + TWO_63) % TWO_64 - TWO_63
  }

  /** time.Duration(x) * time.Second. */
  function SecondsDuration(x: int): int {
    Wrap64(x * SECOND)
  }

  /** Time.Unix: whole seconds, rounded down. */
  function Unix(t: int): int {
    t / SECOND
  }

  /** Conversion of an int64 to uint64. */
  function ToUint64(x: int): nat {
    x % TWO_64
  }

  /** Both conversions keep the residue modulo 2^64 within their range; Unix rounds down. */
  lemma ArithmeticExact(x: int)
    ensures -0x8000_0000_0000_0000 <= Wrap64(x) <= 0x7fff_ffff_ffff_ffff
    ensures (x - Wrap64(x)) % 0x1_0000_0000_0000_0000 == 0
    ensures 0 <= ToUint64(x) <= 0xffff_ffff_ffff_ffff
    ensures (x - ToUint64(x)) % 0x1_0000_0000_0000_0000 == 0
    ensures Unix(x) * 1_000_000_000 <= x < (Unix(x) + 1) * 1_000_000_000
  {
  }

  /** The product is the number of seconds meant exactly when a Duration holds it. */
  lemma DurationExact(x: int)
    ensures SecondsDuration(x) == x * SECOND <==> -9_223_372_036 <= x <= 9_223_372_036
  {
    var y := x * SECOND;
    assert Wrap64(y) == y <==> 0 <= y + TWO_63 < TWO_64;
  }

  lemma UnixShift(t: int, x: int)
    ensures Unix(t + x * SECOND) == Unix(t) + x
  {
  }

  // ------------------------------------------------------- the comma-separated address list

  function Join(parts: seq<string>, sep: char): string {
    if parts == [] then ""
    else if |parts| == 1 then parts[0]
    else parts[0] + [sep] + Join(parts[1..], sep)
  }

  /** What sshd does with the option: cut at every separator. */
  function Split(s: string, sep: char): seq<string> {
    if s == "" then [""]
    else
      var rest := Split(s[1..], sep);
      if s[0] == sep then [""] + rest else [[s[0]] + rest[0]] + rest[1..]
  }

  lemma {:induction false} SplitHead(head: string, tail: string, sep: char)
    requires sep !in head
    ensures Split(head, sep) == [head]
    ensures Split(head + [sep] + tail, sep) == [head] + Split(tail, sep)
  {
    if head == "" {
      assert head + [sep] + tail == [sep] + tail;
      assert ([sep] + tail)[1..] == tail;
    } else {
      SplitHead(head[1..], tail, sep);
      var all := head + [sep] + tail;
      assert all[0] == head[0] != sep;
      assert all[1..] == head[1..] + [sep] + tail;
      assert head == [head[0]] + head[1..];
    }
  }

  /** Splitting undoes joining for any list whose parts are free of the separator. */
  lemma {:induction false} SplitJoin(parts: seq<string>, sep: char)
    requires parts != [] && forall i :: 0 <= i < |parts| ==> sep !in parts[i]
    ensures Split(Join(parts, sep), sep) == parts
  {
    if |parts| == 1 {
      SplitHead(parts[0], "", sep);
    } else {
      assert forall i :: 0 <= i < |parts[1..]| ==> parts[1..][i] == parts[i + 1];
      SplitJoin(parts[1..], sep);
      SplitHead(parts[0], Join(parts[1..], sep), sep);
    }
  }

  // ------------------------------------------------------------------ options and extensions

  const FORCE_COMMAND := "force-command"
  const SOURCE_ADDRESS := "source-address"

  function CriticalOptions(forceCommand: string, sourceAddress: seq<string>): map<string, string> {
    (if forceCommand != "" then map[FORCE_COMMAND := forceCommand] else map[])
    + if sourceAddress != [] then map[SOURCE_ADDRESS := Join(sourceAddress, ',')] else map[]
  }

  method CriticalOptionMap(req: IssueRequest) returns (out: map<string, string>)
    ensures "force-command" in out <==> req.forceCommand != ""
    ensures "force-command" in out ==> out["force-command"] == req.forceCommand
    ensures "source-address" in out <==> req.sourceAddress != []
    ensures "source-address" in out ==> out["source-address"] == Join(req.sourceAddress, ',')
    ensures out.Keys <= {"force-command", "source-address"}
    ensures out == CriticalOptions(req.forceCommand, req.sourceAddress)
  {
    out := map[];
    if req.forceCommand != "" {
      out := out["force-command" := req.forceCommand];
    }
    if |req.sourceAddress| > 0 {
      out := out["source-address" := Join(req.sourceAddress, ',')];
    }
  }

  /** The extensions that a certificate can carry and the flag each depends on. */
  predicate Grants(e: Extensions, name: string) {
    || (name == "permit-pty" && e.pty)
    || (name == "permit-port-forwarding" && e.portForwarding)
    || (name == "permit-agent-forwarding" && e.agentForwarding)
    || (name == "permit-X11-forwarding" && e.x11Forwarding)
    || (name == "permit-user-rc" && e.userRc)
  }

  const EXTENSION_NAMES := {"permit-pty", "permit-port-forwarding", "permit-agent-forwarding",
                            "permit-X11-forwarding", "permit-user-rc"}

  function ExtensionsOf(e: Extensions): map<string, string> {
    map name | name in EXTENSION_NAMES && Grants(e, name) :: ""
  }

  /** Every extension under its own flag, and none besides. */
  ghost predicate ExtensionsSay(e: Extensions, out: map<string, string>) {
    && ("permit-pty" in out <==> e.pty)
    && ("permit-port-forwarding" in out <==> e.portForwarding)
    && ("permit-agent-forwarding" in out <==> e.agentForwarding)
    && ("permit-X11-forwarding" in out <==> e.x11Forwarding)
    && ("permit-user-rc" in out <==> e.userRc)
    && out.Keys <= {"permit-pty", "permit-port-forwarding", "permit-agent-forwarding", "permit-X11-forwarding",
                    "permit-user-rc"}
    && forall name :: name in out ==> out[name] == ""
  }

  method ExtensionMap(e: Extensions) returns (out: map<string, string>)
    ensures ExtensionsSay(e, out)
    ensures out == ExtensionsOf(e)
  {
    out := map[];
    if e.pty {
      out := out["permit-pty" := ""];
    }
    if e.portForwarding {
      out := out["permit-port-forwarding" := ""];
    }
    if e.agentForwarding {
      out := out["permit-agent-forwarding" := ""];
    }
    if e.x11Forwarding {
      out := out["permit-X11-forwarding" := ""];
    }
    if e.userRc {
      out := out["permit-user-rc" := ""];
    }
  }

  function CertificateOf(req: IssueRequest): Certificate {
    Certificate(req.key, req.keyId, req.principals,
                ToUint64(Unix(req.validAfter)), ToUint64(Unix(req.validBefore)),
                CriticalOptions(req.forceCommand, req.sourceAddress), ExtensionsOf(req.extensions))
  }

  /** Issue with a signer that works or does not. */
  method Issue(req: IssueRequest, signerWorks: bool) returns (cert: Option<Certificate>)
    ensures cert == if signerWorks then Some(CertificateOf(req)) else None
  {
    var options := CriticalOptionMap(req);
    var extensions := ExtensionMap(req.extensions);
    if !signerWorks {
      return None;
    }
    return Some(Certificate(req.key, req.keyId, req.principals,
                            ToUint64(Unix(req.validAfter)), ToUint64(Unix(req.validBefore)), options, extensions));
  }

  // --------------------------------------------------------------------- validity window

  /**
   For a TTL and an offset that a Duration holds and moments that are not before
   1970, truncation to whole seconds costs nothing: the window is exactly
   ttl - offset seconds long, ends ttl whole seconds after now, and now lies
   inside it when the offset is not positive.
   */
  lemma WindowExact(now: int, ttl: int, offset: int)
    requires -MAX_DURATION_SECONDS <= ttl <= MAX_DURATION_SECONDS
    requires -MAX_DURATION_SECONDS <= offset <= MAX_DURATION_SECONDS
    requires 0 <= Unix(now) + offset < TWO_64 && 0 <= Unix(now) + ttl < TWO_64
    ensures var after := ToUint64(Unix(now + SecondsDuration(offset)));
      var before := ToUint64(Unix(now + SecondsDuration(ttl)));
      && after == Unix(now) + offset
      && before == Unix(now) + ttl
      && before - after == ttl - offset
      && (offset <= 0 && 0 < ttl ==> after <= Unix(now) < before && after * SECOND <= now < before * SECOND)
      && (after < before <==> offset < ttl)
  {
    DurationExact(ttl);
    DurationExact(offset);
    UnixShift(now, ttl);
    UnixShift(now, offset);
  }

  /** A certificate for ttl seconds signed at now is over when ttl seconds have passed. */
  lemma EndsInTime(now: int, ttl: int)
    requires 0 <= now && 0 <= ttl <= MAX_DURATION_SECONDS
    ensures ToUint64(Unix(now + SecondsDuration(ttl))) * SECOND <= now + ttl * SECOND
  {
    DurationExact(ttl);
    UnixShift(now, ttl);
    var u := Unix(now) + ttl;
    assert ToUint64(u) <= u;
  }

  /** Before 2^62 seconds it lasts longer than one second less than that. */
  lemma EndsNoSooner(now: int, ttl: int)
    requires 0 <= now && Unix(now) <= TWO_64 / 4 && 1 <= ttl <= MAX_DURATION_SECONDS
    ensures now + (ttl - 1) * SECOND < ToUint64(Unix(now + SecondsDuration(ttl))) * SECOND
  {
    DurationExact(ttl);
    UnixShift(now, ttl);
  }
}
