# A verified model of oidc-ssh-ca

`oidc-ssh-ca` decides whether a verified OIDC identity gets a short-lived SSH
certificate, and what goes into it. This project models that decision in Dafny
and proves what the repository relies on: what the shared provider cache does
under every interleaving of requests, what a key-ID template can produce, what
an accepted policy guarantees, and how long certificates live when policies are
reloaded while requests are under way. `dafny verify dfyconfig.toml` checks
everything.

## The files

| file | contents |
|---|---|
| `Base.dfy` | Option, Result, nanoseconds per second |
| `ProviderCache.dfy` | the per-issuer cache as a class updated in place, the function one critical section computes, and theorems about every history of critical sections |
| `CacheProtocol.dfy` | the same cache as a small-step protocol: any number of calls, two kinds of mutex, a clock, discoveries that return whenever they like; it refines the sequential cache |
| `KeyId.dfy` | key-ID templates: scan, print, load-time check, expansion |
| `PolicyFile.dfy` | the policy, its inherited values, `Validate`, `Issuers` |
| `Match.dfy` | `Evaluate`, `ruleMatches`, `ExplainRule` |
| `TokenTime.dfy` | `exp`, `nbf` and `iat` with leeway |
| `CertIssuer.dfy` | the certificate: validity in Go's integer arithmetic, critical options, extensions |
| `Server.dfy` | `Sign`, `deny` and the reload loop as a class; what an issued certificate is |
| `SigningRuns.dfy` | requests and reloads interleaved step by step; snapshot consistency and emergency stop |
| `StopWindow.dfy` | exactly when the documented emergency-stop window holds |
| `Inheritance.dfy` | inherited values: writing the defaults into the rules changes nothing that is decided or signed |
| `Switches.dfy` | the `enabled` flag: deleting switched-off rules, or writing out a flag left out, changes nothing |
| `Reference.dfy` | the meaning of a policy and a request a second time, over the raw fields with all numbers and alphabets written out; validation, matching, issuing and denying mean exactly this |
| `Explain.dfy` | the `explain` subcommand as a predictor of `Sign` |
| `KnownLimits.dfy` | concrete policies and runs that show why conditions are needed |

## How it is modelled

- Strings are byte strings, one `char` per byte. Times are nanoseconds as
  unbounded integers; the places where Go's 64-bit arithmetic can wrap
  (`time.Duration(x) * time.Second`, the conversion to `uint64`) are written
  out in `CertIssuer`.
- The environment is a parameter everywhere: clock readings, the outcome of a
  discovery, whether a request's context is dead, the result of signature
  verification, whether the signer works. In `CacheProtocol` and `SigningRuns`
  a run is any sequence of actions, so a statement about `Run(clock, acts)` or
  about a `Reachable` state is one about every interleaving. An action that
  waits for a taken mutex has no effect.
- `Cell.acquired` and `Cell.served` in `CacheProtocol`, and `installed`,
  `since` and `until` in `SigningRuns`, are histories: no step reads them.
  (`pol` is the pointer a request loaded.)
- Each entity the program updates in place is a class (`ProviderEntry`,
  `RemoteVerifier`, `SigningServer`), each loop a loop; their methods are
  specified by functions, and the theorems are about those functions.
- Go ranges over maps in any order. `CheckClaims` and `PickOrder` choose the
  next key arbitrarily; `RuleMatchesIn` and `ExplainIn` take the order as an
  argument and are proved independent of it.
- `net.ParseCIDR` is any predicate that accepts nothing but CIDR text
  (`CidrOracle`).

## Where the code and its documentation differ

- Emergency stop. `docs/policy.md:91-93` and `docs/operations.md:60-62` promise
  that no certificate is valid once the `max_valid_for_seconds` of the policy file
  have passed since the policy was disabled. That fails in two ways. A request
  that loaded the policy earlier reads the clock for its certificate later:
  `DocumentedWindowFails` gives a run in which a pause of one second is enough.
  And the file that stops issuance may carry a lower ceiling than one before it:
  `LoweredCeilingFails` gives a run in which nothing is in flight. `WindowHoldsIff`
  has the exact condition: no request in flight can still reach the clock reading,
  and no certificate made, or signing time read, ends later than the window. The
  latter can be seen from the audit log, which has the lifetime of each
  certificate. If the ceiling was never lowered, the first half is enough
  (`WindowHoldsIffDrained`). `EmergencyStop` is the bound that always holds: the
  largest ceiling of all policies ever active, counted from when the requests in
  flight have finished.
- Throttle. `internal/oidc/verifier.go:57-60` says that concurrent first requests
  share a single fetch and that failures are cached so that an unreachable issuer
  does not turn every request into an outbound attempt. An attempt whose own
  request is cancelled when it fails is not cached (line 160) and escapes
  (`AbortedEscapeThrottle`). That is the exact limit of the promise: a discovery
  covers for the requests behind it, the next one and all later ones within the
  retry delay, if and only if it did not fail under a dead context
  (`CoversNextIffNotAborted`, `CoversFutureIffNotAborted`, and for every
  interleaving `ConcurrentCoversIffNotAborted`). In runs: a schedule that sends
  the next call out within the delay exists if and only if the last discovery was
  aborted (`NextGoesOutIffAborted`). `DiscoveryThrottle`
  bounds all attempts by the throttle plus the aborted ones.
- `Validate` never looks at `valid_after_offset_seconds`; the window is
  non-empty exactly when the offset is smaller than the TTL (`IssuedWindow`,
  with a policy that passes and issues an empty window in `EmptyWindowAccepted`).
- The issued audit event carries the rule's own `source_address`, so it shows
  the certificate's list exactly when that list was not inherited
  (`AuditedSourceAddress`).

## Model

| member | source | states |
|---|---|---|
| ProviderCache.RemoteVerifier.Provider | internal/oidc/verifier.go:133-177 | one call updates only its issuer's entry, as the sequential cache says, never replaces an entry object, and returns the sequential answer |
| ProviderCache.NeverLost | internal/oidc/verifier.go:50-53 | after one successful discovery no later call for the issuer returns an error |
| ProviderCache.NeverRolledBack | internal/oidc/verifier.go:164-176 | with a clock that does not run backwards, fetchedAt and the cached generation never decrease |
| ProviderCache.AnswersNeverRollBack | internal/oidc/verifier.go:144-176 | later callers get the same or a newer provider, never an error once one had a provider |
| ProviderCache.CancelledLeaveNoTrace | internal/oidc/verifier.go:158-163 | erasing all discoveries that failed under a dead context changes neither the final entry nor any other answer |
| ProviderCache.ThrottleStep | internal/oidc/verifier.go:144-147 | a discovery starts at least the TTL after the previous recorded success, or the retry delay after the previous recorded failure |
| ProviderCache.DiscoveryThrottle | internal/oidc/verifier.go:35-39 | in any window of length w at most 1 + w / 5 s discoveries start, plus one for each that was aborted; none is added when nothing is cancelled |
| ProviderCache.AbortedEscapeThrottle | internal/oidc/verifier.go:158-163 | cancelled requests can go out any number of times at one instant |
| ProviderCache.CoversNextIffNotAborted | internal/oidc/verifier.go:56-60 | a request entering after a discovery and looking within the retry delay stays off the network, whatever it brings, iff that discovery did not fail under a dead context |
| ProviderCache.CoversFutureIffNotAborted | internal/oidc/verifier.go:158-163 | the same of all later requests within the retry delay, in every future of the history |
| ProviderCache.StaleOnlyAfterFailure | internal/oidc/verifier.go:144-171 | a provider at or past its TTL is handed out only after a failure in this call or one recorded less than 5 s before |
| ProviderCache.FreshAfterRecovery | internal/oidc/verifier.go:147-155 | 5 s after the last recorded failure a call whose own discovery, if any, succeeds returns a provider younger than the TTL or just built; aborted failures delay nothing |
| CacheProtocol.RunKeepsInv | internal/oidc/verifier.go:133-177 | in every state of every run, mutexes, entries and histories are consistent |
| CacheProtocol.ConcurrentRefinesSequential | internal/oidc/verifier.go:133-177 | under every interleaving an issuer's entry and every returned answer are those of the sequential cache run over its calls in mutex order |
| CacheProtocol.EverySectionHappens | internal/oidc/verifier.go:133-177 | from every idle state, each section that the sequential cache allows can happen next, with any clock readings, discovery and context |
| CacheProtocol.EveryHistoryHappens | internal/oidc/verifier.go:133-177 | the converse of refinement: every history of the sequential cache, entry and answers, is that of some run |
| CacheProtocol.ConcurrentThrottle | internal/oidc/verifier.go:56-60 | in every concurrent run, counting the discovery under way, the throttle's bound plus one for each aborted discovery |
| CacheProtocol.ConcurrentCoversIffNotAborted | internal/oidc/verifier.go:56-60 | in every interleaving a discovery covers for the requests behind it iff it did not fail under a dead context |
| CacheProtocol.NextGoesOutIffAborted | internal/oidc/verifier.go:158-163 | less than the retry delay after an issuer's last discovery settled, some schedule sends a waiting or arriving call out before the delay is over iff that discovery failed under a dead context |
| CacheProtocol.ConcurrentNeverRollsBack | internal/oidc/verifier.go:164-168 | in every run, later critical sections answer with the same or a newer provider |
| CacheProtocol.ConcurrentStaleOnlyAfterFailure | internal/oidc/verifier.go:144-171 | in every run a provider past its TTL is handed out only after a failure in that call or one recorded less than 5 s before |
| CacheProtocol.ConcurrentFreshAfterRecovery | internal/oidc/verifier.go:144-155 | in every run, one retry delay after discovery stops failing nothing stale is handed out |
| CacheProtocol.MutexesNeverNest | internal/oidc/verifier.go:65 | no call ever holds both mutexes, nor the map's during a discovery |
| CacheProtocol.EntryExclusive | internal/oidc/verifier.go:141-143 | two calls are never inside the same entry |
| CacheProtocol.EntriesNeverReplaced | internal/oidc/verifier.go:134-140 | an issuer keeps its entry object for ever and shares it with no other issuer |
| CacheProtocol.DeadlockFree | internal/oidc/verifier.go:56-57 | an unfinished call can step or waits for one that can, and that one holds the map mutex or is for the same issuer: nobody waits for another issuer's discovery |
| CacheProtocol.FreshCallNeverHeldUp | internal/oidc/verifier.go:56-58 | under every schedule in which the provider stays fresh, such a call is done after six steps of its own, and until then it can step or a call in front of it can that awaits no discovery |
| CacheProtocol.FreshCallCompletes | internal/oidc/verifier.go:56-58 | a call for an issuer with a fresh cached provider can complete with it although no discovery of anybody ever returns |
| KeyId.ScanPrintInverse | internal/policy/keyid.go:13 | printing undoes scanning for every string, and the scan is the only normal token list (leftmost, non-overlapping) that prints to it |
| KeyId.TemplateVars | internal/policy/keyid.go:31-56 | accepts exactly the templates whose every token is acceptable, returns the names in order, and each error names the check that failed first |
| KeyId.AcceptedByParts | internal/policy/keyid.go:51-54 | checking the concatenated literals and the list of names equals checking every token |
| KeyId.AcceptedTemplates | internal/policy/keyid.go:29-56 | accepted templates are exactly the prints of literals and names over their alphabets |
| KeyId.ExpandKeyID | internal/policy/keyid.go:65-102 | the callback loop computes the substitution, or the error of the first bad reference |
| KeyId.ExpansionPredictable | internal/policy/keyid.go:61-101 | for an accepted non-empty template expansion succeeds iff every listed name is a usable claim and the lengths add up to at most 256; the final re-check never fails |
| KeyId.ExpansionInPlace | internal/policy/keyid.go:67-87 | expansion replaces each reference in its place by the text of its claim and leaves the rest alone |
| KeyId.NothingToExpand | internal/policy/keyid.go:67 | a template without references expands to itself |
| KeyId.ErrorNamesFault | internal/policy/keyid.go:72-101 | an error names the first reference that cannot be used and what is wrong with its claim, or says that the lengths do not fit in 256 bytes |
| KeyId.KeyIdDeterminesClaims | internal/policy/keyid.go:65-101 | with separated references and values free of the separator, equal key IDs mean equal referenced claims |
| KeyId.SeparatorInValueIsAmbiguous | internal/policy/keyid.go:19 | a separator inside a value makes two different tokens share a key ID |
| PolicyFile.CheckDefaults | internal/policy/policy.go:258-287 | the version and defaults checks accept exactly the good ones and name a broken condition otherwise |
| PolicyFile.CheckClaims | internal/policy/policy.go:324-331 | in every iteration order, passes iff no claim name or value is empty |
| PolicyFile.CheckPrincipals | internal/policy/policy.go:334-344 | passes iff there are principals and all are allowlisted |
| PolicyFile.CheckNamedRule | internal/policy/policy.go:293-366 | one rule passes iff it is well formed and its name is new; otherwise the error names a condition it breaks |
| PolicyFile.Validate | internal/policy/policy.go:257-368 | returns nil iff the declarative well-formedness predicate holds; an error names a condition really broken in the first bad rule, before which every rule is good and every name new |
| PolicyFile.Issuers | internal/policy/policy.go:202-216 | the loop with its seen map computes the first occurrences |
| PolicyFile.IssuersExact | internal/policy/policy.go:200-216 | no duplicates, and exactly the issuers of enabled rules |
| PolicyFile.IssuersInOrder | internal/policy/policy.go:200-216 | in the order of first occurrence |
| Inheritance.InliningKeepsValidity | internal/policy/policy.go:130-198 | a policy is valid iff its defaults are and the policy with all inherited values written into its rules is |
| Inheritance.InliningKeepsDecisions | internal/policy/policy.go:158-198 | rules win over defaults, whole values at a time: after that rewriting every request is denied for the same reason or gets the very same certificate |
| Inheritance.InlinedEventsShowAddresses | internal/server/server.go:177-180 | after that rewriting the issued event always shows the certificate's address list |
| Switches.OffRulesIrrelevant | internal/policy/match.go:45-47 | deleting every rule with enabled: false changes no verdict, no list of issuers and no decision |
| Switches.AbsentMeansOn | internal/policy/policy.go:77-81 | writing enabled: true where the flag is left out changes no decision and no certificate |
| Switches.AllowedIsNotOff | internal/policy/match.go:42-51 | the rule that allows an identity does not say enabled: false |
| Switches.IssuersOfRulesNotOff | internal/policy/policy.go:202-216 | an issuer is listed iff it is not empty and a rule not switched off asks for it |
| Reference.AlphabetsExact | internal/policy/policy.go:246-254 | rule names, principals, key-ID text and claim names are exactly the strings over their alphabets, written out letter by letter |
| Reference.ForceCommandExact | internal/policy/policy.go:374-387 | a forced command is refused exactly for an occurrence of "${" or a byte below 32 or equal to 127 |
| Reference.ValidPoliciesExactly | internal/policy/policy.go:257-404 | Validate accepts exactly the policies that meet the documentation, said over the raw fields |
| Reference.LifetimeAlwaysWritten | internal/policy/policy.go:345-348 | in a valid policy every rule has a lifetime on it or in the defaults |
| Reference.AppliesExactly | internal/policy/match.go:68-104 | a rule applies iff it is not switched off and each condition written on it holds of the raw claims |
| Reference.MatchedNamesExactly | internal/policy/match.go:42-65 | the reported names are those of the applying rules in file order, and their number alone decides verdict and reason |
| Reference.IssuedExactly | internal/server/server.go:91-188 | a certificate is issued iff the request, the token, the only applying rule, its key ID and the signer are all in order, over raw fields and literal limits |
| Reference.IssuedIsEntitled | internal/server/server.go:126-150 | the grant names that only rule and its key ID |
| Reference.CertificateExactly | internal/server/server.go:152-163 | the certificate carries the key asked for and otherwise what the fields of its rule and the defaults say, each extension and option by name |
| Reference.CertificateTimesExactly | internal/server/server.go:158-159 | its times are the signing second plus the offset and the lifetime written in the file |
| Reference.IssuedEventExactly | internal/server/server.go:167-188 | the issued event names the rule and repeats principals, key ID, lifetime and forced command of the certificate, which is the answer |
| Reference.EarlyDenials | internal/server/server.go:94-125 | what each fault of the request itself is answered, with the body limit of 16384 bytes and the order of the checks |
| Reference.TokenDenials | internal/server/server.go:126-129 | token_invalid iff the token is unreadable, of an unknown issuer, not genuine or outside its times |
| Reference.PolicyDenials | internal/server/server.go:132-166 | no_rule_matched, multiple_rules_matched, key_id_invalid and signing_error, each iff its cause |
| Reference.DeniedEventExactly | internal/server/server.go:192-205 | a denial logs the reason that was decided and never returns a certificate |
| Match.MatchingIgnoresOrder | internal/policy/match.go:68-104 | every map iteration order gives the same verdict on a rule |
| Match.CutSlashParts | internal/policy/match.go:84-87 | the repository claim is cut at its first slash and nothing is lost |
| Match.RepositoryPinned | internal/policy/policy.go:94-107 | owner and reponame together pin the claim to exactly owner/reponame |
| Match.Evaluate | internal/policy/match.go:37-66 | the loops compute the exactly-one-match verdict with reason and matched names |
| Match.AllowedByExactlyOne | internal/policy/match.go:35-66 | allowed by r iff the policy is enabled and r is at the only index whose rule applies |
| Match.RuleOrderIrrelevant | internal/policy/match.go:37-66 | permuting rules changes neither verdict, reason nor chosen rule, and permutes the matched names |
| Match.AddingRules | internal/policy/match.go:58-65 | adding rules keeps the allowing rule or makes the match ambiguous, never chooses another |
| Match.GateAdmitsAllowed | internal/oidc/verifier.go:96-98 | under a valid policy every identity that is allowed passes the issuer gate |
| Match.ExplainAgreesWithMatching | internal/policy/match.go:117-165 | ExplainRule says yes iff the rule is enabled and matches, for all pairs of iteration orders; any reason given really fails |
| TokenTime.TruncateNearby | internal/oidc/verifier.go:260-266 | a fractional claim is cut towards zero, by less than a second |
| TokenTime.AcceptedTimes | internal/oidc/verifier.go:243-258 | a token is accepted exactly in one closed interval of times |
| TokenTime.OpensWhen | internal/oidc/verifier.go:251-256 | nbf and iat may each lie at most 60 s ahead |
| TokenTime.RefusalNamesClaim | internal/oidc/verifier.go:244-256 | a refusal names the claim that is missing or out of range |
| TokenTime.NumericClaimMeans | internal/oidc/verifier.go:260-266 | a whole number n means n seconds after the epoch, and anything that is not a number is absent |
| CertIssuer.SplitJoin | internal/issuer/issuer.go:98-100 | splitting the joined list at commas gives back the list when no entry holds one |
| CertIssuer.CriticalOptionMap | internal/issuer/issuer.go:93-102 | each option is present iff its setting is not empty, with the command or the joined list as its value, and nothing else is |
| CertIssuer.ExtensionMap | internal/issuer/issuer.go:104-122 | each of the five extensions, by its name, is present iff its own flag is on, with an empty value, and nothing else is |
| CertIssuer.Issue | internal/issuer/issuer.go:64-87 | the certificate has the request's fields, or none when signing fails |
| CertIssuer.ArithmeticExact | internal/issuer/issuer.go:76-77 | the conversions to int64 and uint64 keep the residue modulo 2^64, and Unix rounds down |
| CertIssuer.DurationExact | internal/server/server.go:158-159 | converting seconds to a Duration is exact iff the number is at most 9223372036 either way; otherwise it wraps |
| CertIssuer.WindowExact | internal/issuer/issuer.go:76-77 | despite truncation the window is exactly ttl - offset seconds, contains now when offset is not positive, and is non-empty iff offset is below ttl |
| Server.SigningServer.Sign | internal/server/server.go:91-188 | without reloads in between: the decided response and exactly one audit event |
| Server.SigningServer.Deny | internal/server/server.go:192-205 | logs the reason once and returns the status without a certificate |
| Server.SigningServer.ReloadLoop | cmd/oidc-ssh-ca/serve.go:65-75 | the active policy is what the successive reloads leave |
| Server.LastValidFileWins | cmd/oidc-ssh-ca/serve.go:60-75 | the active policy is the last valid file, or the first policy when no file was valid |
| Server.IssuedOnlyByMatch | internal/server/server.go:126-150 | a certificate comes from the one enabled rule that matches the verified identity, with its expanded key ID |
| Server.IssuedCertificateSound | internal/server/server.go:145-163 | TTL in 1..max, allowlisted principals, key ID of at most 256 allowlisted bytes, no control characters in force-command, address option that reads back as configured |
| Server.IssuedContents | internal/server/server.go:154-163 | key, principals, key ID, extensions and options are those of the request and the matched rule |
| Server.IssuedWindow | internal/server/server.go:152-159 | the certificate ends ttl after signing, starts offset after it, and is non-empty iff offset is below ttl |
| Server.EndsWithinTtl | internal/server/server.go:152-159 | it ends at most ttl, itself at most the ceiling, after the signing time |
| Server.OutlivesTokenByLittle | internal/oidc/verifier.go:243-250 | it outlives trunc(exp) by at most 60 s, the signing delay and ttl |
| Server.IssuedWithinTokenTimes | internal/oidc/verifier.go:243-258 | no certificate before the token is valid: nbf and iat lie at most 60 s after its verification, exp at most 60 s before |
| Server.AuditedSourceAddress | internal/server/server.go:177-180 | the event's address list equals the certificate's iff it is not inherited |
| Server.GatePreservesDecisions | internal/server/server.go:126-133 | the issuer gate changes no certificate and only turns denials into token_invalid |
| SigningRuns.EveryStepDefined | internal/server/server.go:91-188 | well-formedness of the model: whatever an unfinished request refers to exists, so no step of the program is lost to a guard |
| SigningRuns.ReloadInstalls | cmd/oidc-ssh-ca/serve.go:65-75 | a reload in a run installs what the reload loop would and touches nothing else |
| SigningRuns.RunsFollowReloads | cmd/oidc-ssh-ca/serve.go:65-75 | in every run the active policy is what the reload loop makes of the files tried so far |
| SigningRuns.FirstStepLoadsActive | internal/server/server.go:94-98 | the first step loads the policy active at that moment, whatever was active when the request arrived |
| SigningRuns.ArrivalLoadsActive | internal/server/server.go:91-98 | an arriving request disturbs no other one |
| SigningRuns.GateTakesListed | internal/oidc/verifier.go:91-102 | exactly a listed issuer is put on the provider map and taken to verification |
| SigningRuns.FinishIsRecorded | internal/server/server.go:180-205 | finishing appends the event of the settled outcome |
| SigningRuns.EveryDecisionHappens | internal/server/server.go:91-188 | from every reachable state, whatever Sign can decide about a new request under the active policy is decided in some continuation |
| SigningRuns.SnapshotConsistency | internal/server/server.go:98-163 | every finished request was decided by one valid policy that was active while it ran; a certificate is sound for it and it was not disabled |
| SigningRuns.CertificatesBounded | internal/server/server.go:152-159 | in every run a certificate is bounded by its signing time and by its token, which was within nbf and iat when verified |
| SigningRuns.AuditedExactlyOnce | internal/audit/audit.go:1-3 | a finished request has exactly one audit event, issued iff status 200; an unfinished one has none |
| SigningRuns.ProvidersReferenced | internal/oidc/verifier.go:96-100 | over any run the provider map holds only issuers of enabled rules of policies once active |
| SigningRuns.EmergencyStop | internal/server/server.go:98-101 | once stopped and drained by D, every certificate ever issued ends by D plus the largest ceiling of all policies ever active |
| StopWindow.WindowHoldsIff | docs/policy.md:91-93 | the documented window, by the stopped policy's own max_valid_for_seconds, holds in every continuation iff no request can still reach its signing clock and no certificate or signing time at hand ends later |
| StopWindow.AllEndByIffHarmless | internal/server/server.go:152-159 | the same for any limit in place of the documented one |
| StopWindow.CeilingHoldsIffDrained | docs/policy.md:86-89 | against a ceiling that no policy so far exceeds, all certificates end in time iff no request can still reach its signing clock |
| StopWindow.WindowHoldsIffDrained | docs/operations.md:60-62 | if the ceiling was never lowered, the documented window holds iff no request can still reach its signing clock |
| KnownLimits.DocumentedWindowFails | docs/operations.md:60-62 | a reachable stopped state and a continuation with a one-second pause that issues a certificate still valid when the documented window is over |
| KnownLimits.LoweredCeilingFails | docs/operations.md:60-62 | a reachable stopped state with nothing in flight and a certificate that ends 2700 s after the documented window, made under a higher ceiling |
| KnownLimits.EmptyWindowAccepted | internal/policy/policy.go:257-368 | for every TTL a policy passes validation and issues a certificate that begins when it ends |
| Explain.ExplainRule | internal/policy/match.go:117-165 | for whichever order it ranges in: none iff the rule applies, else a condition that really fails |
| Explain.ExplainIdentity | cmd/oidc-ssh-ca/explain.go:34-71 | the report tells the verdict, the effective values and key ID, or one true reason per rule |
| Explain.ReportExactly | cmd/oidc-ssh-ca/explain.go:34-71 | the number of applying rules decides the kind of report; it names exactly those rules and gives the values written for the only one |
| Explain.ExplainPredictsSign | cmd/oidc-ssh-ca/explain.go:39-57 | with a valid key, verified token and working signer, Sign issues iff explain reports a rule and a key ID, with the same rule, principals, TTL, options and key ID |
| Explain.ExplainPredictsDenial | cmd/oidc-ssh-ca/explain.go:58-70 | each negative report corresponds to one denial of Sign; where no rule matches that is no_rule_matched, or token_invalid if no enabled rule names the issuer |

## Left out

- OIDC discovery and JWKS fetches, JWT signatures, base64 and JSON decoding, go-oidc's own key cache: libraries and the network. A discovery succeeds or fails as it likes; a verified token is an oracle. The library refuses a token whose issuer differs from the provider's, so the identity's issuer is the gated one.
- `ssh.ParseAuthorizedKey`, certificate marshalling, serial numbers and ed25519 signing: a key parses or does not, the signer works or does not.
- `net.ParseCIDR`: only the alphabet of what it accepts is used.
- YAML decoding: a reload yields an arbitrary policy value or nothing.
- CA key loading, HTTP handlers, `bearerToken`, request IDs, slog formatting, command-line parsing, `check-config`: plumbing around the decision.
- The identity attributes and key fingerprints copied into audit events: they take no part in any decision.
- Error texts: only the condition that an error names is kept.
- Ordering between reads of different clocks in different goroutines: the clock of a run is one shared value that never decreases.
- TokenTime.NumericClaim: Go's conversion of a float64 outside the int64 range, and time arithmetic near the ends of time.Time, depend on the platform or saturate; the model truncates exactly for every number.
- CacheProtocol.FreshCallCompletes: that a scheduler lets the call take its steps is fairness of goroutines and mutexes, which is the runtime's.
- CertIssuer.Issue: the serial number and the constant certificate type are not fields of the model's certificate; a serial that cannot be drawn counts as a signer that does not work.
- Server.SigningServer.Sign: events leave out the identity attributes, the key fingerprint and the request details, which no decision reads.
- Server.SigningServer.Deny: leaves out the detail text and the JSON body of the response.
- TokenTime.TruncateNearby: Go's result for a float64 outside the int64 range depends on the platform and is not modelled.
- StopWindow.WindowHoldsIff: runs whose clock or window passes 2^62 seconds are not considered, as a certificate's uint64 seconds would wrap; nor are policies with a ceiling above 9223372036 seconds, which a Duration cannot hold (`DurationExact`).
- Restarts: a run is one process, from its first policy on; certificates of an earlier process are outside it.
