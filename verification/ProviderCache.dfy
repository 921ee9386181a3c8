/**
 The per-issuer cache of discovered OIDC providers (internal/oidc/verifier.go),
 seen one critical section at a time: a class whose method updates the entry
 fields in place, the function each critical section computes, and what holds
 of every history of such sections.
 */
module ProviderCache {
  import opened Base

  /** A clock reading in nanoseconds. */
  type Time = int

  /** A discovered provider is known only by the generation in which it was built. */
  type Provider = nat

  type Failure = string

  const JWKS_TTL: Time := 600 * SECOND
  const RETRY_DELAY: Time := 5 * SECOND

  /** What discoverProvider came back with. */
  datatype Discovery = Found(provider: Provider) | Failed(failure: Failure)

  /** The fields of a providerEntry at one moment. */
  datatype Entry = Entry(provider: Option<Provider>, fetchedAt: Time, err: Option<Failure>, failedAt: Time)

  const EMPTY := Entry(None, 0, None, 0)

  /**
   Everything the environment decides in one critical section: the three clock
   readings, when discovery starts, what it returns and whether the request's
   context is dead when it does. A section that reads fewer clocks, or runs no
   discovery, ignores the rest.
   */
  datatype Call = Call(ttlRead: Time, retryRead: Time, startedAt: Time, recordRead: Time,
                       discovery: Discovery, cancelled: bool)
  {
    predicate Ordered() {
      ttlRead <= retryRead <= startedAt <= recordRead
    }
  }

  predicate Fresh(e: Entry, at: Time) {
    e.provider.Some? && at - e.fetchedAt < JWKS_TTL
  }

  predicate BackingOff(e: Entry, at: Time) {
    e.err.Some? && at - e.failedAt < RETRY_DELAY
  }

  /** The critical section goes out to the network. */
  predicate Discovers(e: Entry, c: Call) {
    !Fresh(e, c.ttlRead) && !BackingOff(e, c.retryRead)
  }

  /** The section runs a discovery that fails while its own request is already dead. */
  predicate Aborted(e: Entry, c: Call) {
    Discovers(e, c) && c.discovery.Failed? && c.cancelled
  }

  /** The section runs a discovery whose outcome is written to the entry. */
  predicate Records(e: Entry, c: Call) {
    Discovers(e, c) && !(c.discovery.Failed? && c.cancelled)
  }

  /** The entry a critical section leaves behind. */
  function Next(e: Entry, c: Call): Entry {
    if !Records(e, c) then e
    else match c.discovery
      case Found(p) => e.(provider := Some(p), fetchedAt := c.recordRead, err := None)
      case Failed(f) => e.(err := Some(f), failedAt := c.recordRead)
  }

  /** What a critical section returns to its caller. */
  function Answer(e: Entry, c: Call): Result<Provider, Failure> {
    if Discovers(e, c) && c.discovery.Found? then Ok(c.discovery.provider)
    else if e.provider.Some? then Ok(e.provider.value)
    else if Discovers(e, c) then Err(c.discovery.failure)
    else Err(e.err.value)
  }

  class ProviderEntry {
    var provider: Option<Provider>
    var fetchedAt: Time
    var err: Option<Failure>
    var failedAt: Time

    constructor ()
      ensures Contents() == EMPTY
    {
      provider, fetchedAt, err, failedAt := None, 0, None, 0;
    }

    function Contents(): Entry
      reads this
    {
      Entry(provider, fetchedAt, err, failedAt)
    }
  }

  class RemoteVerifier {
    var providers: map<string, ProviderEntry>

    /** No two issuers share an entry. */
    ghost predicate Valid()
      reads this
    {
      forall i, j :: i in providers && j in providers && providers[i] == providers[j] ==> i == j
    }

    constructor ()
      ensures Valid() && providers == map[]
    {
      providers := map[];
    }

    ghost function ContentsOf(issuer: string): Entry
      reads this, providers.Values
    {
      if issuer in providers then providers[issuer].Contents() else EMPTY
    }

    /** RemoteVerifier.provider run to completion with nobody else inside. */
    method Provider(issuer: string, c: Call) returns (r: Result<Provider, Failure>)
      requires Valid()
      modifies this`providers, providers.Values
      ensures Valid()
      ensures providers.Keys == old(providers.Keys) + {issuer}
      ensures forall i :: i in old(providers) ==> providers[i] == old(providers[i])
      ensures issuer !in old(providers) ==> fresh(providers[issuer])
      ensures r == Answer(old(ContentsOf(issuer)), c)
      ensures ContentsOf(issuer) == Next(old(ContentsOf(issuer)), c)
      ensures forall i :: i != issuer ==> ContentsOf(i) == old(ContentsOf(i))
    {
      if issuer !in providers {
        var entry := new ProviderEntry();
        providers := providers[issuer := entry];
      }
      var e := providers[issuer];
      if e.provider.Some? && c.ttlRead - e.fetchedAt < JWKS_TTL {
        return Ok(e.provider.value);
      }
      if e.err.Some? && c.retryRead - e.failedAt < RETRY_DELAY {
        if e.provider.Some? {
          return Ok(e.provider.value);
        }
        return Err(e.err.value);
      }
      if c.discovery.Failed? {
        if !c.cancelled {
          e.err := Some(c.discovery.failure);
          e.failedAt := c.recordRead;
        }
        if e.provider.Some? {
          return Ok(e.provider.value);
        }
        return Err(c.discovery.failure);
      }
      e.provider := Some(c.discovery.provider);
      e.fetchedAt := c.recordRead;
      e.err := None;
      return Ok(c.discovery.provider);
    }
  }

  /** The entry after a whole history of critical sections, starting from a new one. */
  function After(cs: seq<Call>): Entry {
    if cs == [] then EMPTY else Next(After(cs[..|cs| - 1]), cs[|cs| - 1])
  }

  /** The entry that the k-th section of a history finds. */
  function Before(cs: seq<Call>, k: nat): Entry
    requires k <= |cs|
  {
    After(cs[..k])
  }

  function AnswerAt(cs: seq<Call>, k: nat): Result<Provider, Failure>
    requires k < |cs|
  {
    Answer(Before(cs, k), cs[k])
  }

  predicate RecordsAt(cs: seq<Call>, k: nat)
    requires k < |cs|
  {
    Records(Before(cs, k), cs[k])
  }

  predicate DiscoversAt(cs: seq<Call>, k: nat)
    requires k < |cs|
  {
    Discovers(Before(cs, k), cs[k])
  }

  predicate AbortedAt(cs: seq<Call>, k: nat)
    requires k < |cs|
  {
    Aborted(Before(cs, k), cs[k])
  }

  /** The k-th section built a new provider. */
  predicate BuildsAt(cs: seq<Call>, k: nat)
    requires k < |cs|
  {
    DiscoversAt(cs, k) && cs[k].discovery.Found?
  }

  /** The clock never runs backwards, within a section or from one to the next. */
  ghost predicate WellTimed(cs: seq<Call>) {
    && (forall k :: 0 <= k < |cs| ==> cs[k].Ordered())
    && (forall j, k :: 0 <= j < k < |cs| ==> cs[j].recordRead <= cs[k].ttlRead)
  }

  /** Providers built later carry a larger generation. */
  ghost predicate GenerationsGrow(cs: seq<Call>) {
    forall j, k :: 0 <= j < k < |cs| && BuildsAt(cs, j) && BuildsAt(cs, k) ==>
      cs[j].discovery.provider < cs[k].discovery.provider
  }

  lemma BeforeNext(cs: seq<Call>, k: nat)
    requires k < |cs|
    ensures Before(cs, k + 1) == Next(Before(cs, k), cs[k])
  {
    assert cs[..k + 1][..k] == cs[..k];
  }

  lemma WellTimedNext(past: seq<Call>, c: Call)
    requires WellTimed(past) && c.Ordered()
    requires forall k :: 0 <= k < |past| ==> past[k].recordRead <= c.ttlRead
    ensures WellTimed(past + [c])
  {
  }

  lemma GenerationsNext(past: seq<Call>, c: Call)
    requires GenerationsGrow(past)
    requires Discovers(After(past), c) && c.discovery.Found? ==>
               forall k :: 0 <= k < |past| && BuildsAt(past, k) ==> past[k].discovery.provider < c.discovery.provider
    ensures GenerationsGrow(past + [c])
  {
    var cs := past + [c];
    assert cs[..|past|] == past;
    forall j, k | 0 <= j < k < |cs| && BuildsAt(cs, j) && BuildsAt(cs, k)
      ensures cs[j].discovery.provider < cs[k].discovery.provider
    {
      assert cs[..j] == past[..j];
      assert BuildsAt(past, j);
      if k < |past| {
        assert cs[..k] == past[..k];
        assert BuildsAt(past, k);
      }
    }
  }

  /** Sections that record nothing leave the entry as they found it. */
  lemma {:induction false} QuietSpan(cs: seq<Call>, i: nat, j: nat)
    requires i <= j <= |cs|
    requires forall k :: i <= k < j ==> !RecordsAt(cs, k)
    ensures Before(cs, j) == Before(cs, i)
    decreases j
  {
    if i < j {
      QuietSpan(cs, i, j - 1);
      BeforeNext(cs, j - 1);
      assert !RecordsAt(cs, j - 1);
    }
  }

  // ---------------------------------------------------------------- provenance

  /** A cached provider was built by an earlier section, at the time the entry says. */
  lemma {:induction false} ProviderProvenance(cs: seq<Call>, n: nat) returns (i: nat)
    requires n <= |cs| && Before(cs, n).provider.Some?
    ensures i < n && BuildsAt(cs, i)
    ensures Before(cs, n).provider == Some(cs[i].discovery.provider)
    ensures Before(cs, n).fetchedAt == cs[i].recordRead
    ensures forall k :: i < k < n ==> !BuildsAt(cs, k)
    decreases n
  {
    assert n > 0;
    BeforeNext(cs, n - 1);
    if BuildsAt(cs, n - 1) {
      i := n - 1;
    } else {
      i := ProviderProvenance(cs, n - 1);
    }
  }

  /** A cached failure was recorded by an earlier section, at the time the entry says. */
  lemma {:induction false} FailureProvenance(cs: seq<Call>, n: nat) returns (i: nat)
    requires n <= |cs| && Before(cs, n).err.Some?
    ensures i < n && RecordsAt(cs, i) && cs[i].discovery.Failed?
    ensures Before(cs, n).err == Some(cs[i].discovery.failure)
    ensures Before(cs, n).failedAt == cs[i].recordRead
    ensures forall k :: i < k < n ==> !RecordsAt(cs, k)
    decreases n
  {
    assert n > 0;
    BeforeNext(cs, n - 1);
    if RecordsAt(cs, n - 1) {
      i := n - 1;
    } else {
      i := FailureProvenance(cs, n - 1);
    }
  }

  // ------------------------------------------- key material is never lost or rolled back

  lemma {:induction false} ProviderPersists(cs: seq<Call>, i: nat, j: nat)
    requires i <= j <= |cs| && Before(cs, i).provider.Some?
    ensures Before(cs, j).provider.Some?
    decreases j
  {
    if i < j {
      ProviderPersists(cs, i, j - 1);
      BeforeNext(cs, j - 1);
    }
  }

  /** After one successful discovery no later call for the issuer returns an error. */
  lemma NeverLost(cs: seq<Call>, i: nat, j: nat)
    requires i <= j < |cs| && BuildsAt(cs, i)
    ensures AnswerAt(cs, j).Ok?
  {
    if i < j {
      BeforeNext(cs, i);
      ProviderPersists(cs, i + 1, j);
    }
  }

  /** The cached provider and the time it was fetched only move forward. */
  lemma {:induction false} NeverRolledBack(cs: seq<Call>, i: nat, j: nat)
    requires WellTimed(cs) && GenerationsGrow(cs)
    requires i <= j <= |cs| && Before(cs, i).provider.Some?
    ensures Before(cs, j).provider.Some?
    ensures Before(cs, i).fetchedAt <= Before(cs, j).fetchedAt
    ensures Before(cs, i).provider.value <= Before(cs, j).provider.value
  {
    ProviderPersists(cs, i, j);
    var a := ProviderProvenance(cs, i);
    var b := ProviderProvenance(cs, j);
    assert a <= b;
    assert a < b ==> cs[a].recordRead <= cs[b].ttlRead <= cs[b].recordRead;
  }

  /** What a section returns is the provider the entry holds when it leaves, if any. */
  lemma AnswerIsWhatRemains(cs: seq<Call>, k: nat)
    requires k < |cs|
    ensures AnswerAt(cs, k).Ok? <==> Before(cs, k + 1).provider.Some?
    ensures AnswerAt(cs, k).Ok? ==> Before(cs, k + 1).provider == Some(AnswerAt(cs, k).value)
  {
    BeforeNext(cs, k);
  }

  /** Callers, in critical-section order, are handed ever newer providers. */
  lemma AnswersNeverRollBack(cs: seq<Call>, i: nat, j: nat)
    requires WellTimed(cs) && GenerationsGrow(cs)
    requires i <= j < |cs| && AnswerAt(cs, i).Ok?
    ensures AnswerAt(cs, j).Ok? && AnswerAt(cs, i).value <= AnswerAt(cs, j).value
  {
    AnswerIsWhatRemains(cs, i);
    AnswerIsWhatRemains(cs, j);
    NeverRolledBack(cs, i + 1, j + 1);
  }

  // -------------------------------------------------- cancelled requests leave no trace

  /** The history without the sections whose discovery failed under a dead context. */
  function Kept(cs: seq<Call>): seq<Call> {
    if cs == [] then []
    else
      var past, c := cs[..|cs| - 1], cs[|cs| - 1];
      Kept(past) + if Aborted(After(past), c) then [] else [c]
  }

  /** Everything the sections of a history return, in order. */
  function Answers(cs: seq<Call>): seq<Result<Provider, Failure>> {
    if cs == [] then []
    else
      var past, c := cs[..|cs| - 1], cs[|cs| - 1];
      Answers(past) + [Answer(After(past), c)]
  }

  /** What the sections that Kept keeps return inside the full history. */
  function KeptAnswers(cs: seq<Call>): seq<Result<Provider, Failure>> {
    if cs == [] then []
    else
      var past, c := cs[..|cs| - 1], cs[|cs| - 1];
      KeptAnswers(past) + if Aborted(After(past), c) then [] else [Answer(After(past), c)]
  }

  /** Erasing every aborted discovery changes neither the entry nor any other answer. */
  lemma {:induction false} CancelledLeaveNoTrace(cs: seq<Call>)
    ensures After(Kept(cs)) == After(cs)
    ensures Answers(Kept(cs)) == KeptAnswers(cs)
  {
    if cs != [] {
      var past, c := cs[..|cs| - 1], cs[|cs| - 1];
      CancelledLeaveNoTrace(past);
      if Aborted(After(past), c) {
        assert Kept(cs) == Kept(past);
        assert KeptAnswers(cs) == KeptAnswers(past);
      } else {
        assert Kept(cs) == Kept(past) + [c];
        assert Kept(cs)[..|Kept(cs)| - 1] == Kept(past);
      }
    }
  }

  // ----------------------------------------------------------------- discovery throttle

  /** After a discovery is recorded, the entry keeps the next one away for a while. */
  lemma {:induction false} SinceRecorded(cs: seq<Call>, i: nat, j: nat)
    requires WellTimed(cs) && i < j <= |cs| && RecordsAt(cs, i)
    ensures var e := Before(cs, j);
      || (e.err.Some? && cs[i].recordRead <= e.failedAt)
      || (e.provider.Some? && cs[i].recordRead <= e.fetchedAt)
    decreases j
  {
    BeforeNext(cs, j - 1);
    if i < j - 1 {
      SinceRecorded(cs, i, j - 1);
      assert cs[i].recordRead <= cs[j - 1].ttlRead <= cs[j - 1].recordRead;
    }
  }

  /** Between two recorded discoveries with none in between lies the TTL or the retry delay. */
  lemma ThrottleStep(cs: seq<Call>, i: nat, j: nat)
    requires WellTimed(cs) && i < j < |cs| && RecordsAt(cs, i) && DiscoversAt(cs, j)
    requires forall k :: i < k < j ==> !RecordsAt(cs, k)
    ensures cs[i].discovery.Found? ==> cs[i].recordRead + 600_000_000_000 <= cs[j].startedAt
    ensures cs[i].discovery.Failed? ==> cs[i].recordRead + 5_000_000_000 <= cs[j].startedAt
  {
    QuietSpan(cs, i + 1, j);
    BeforeNext(cs, i);
  }

  /** When the recorded discoveries of a history started, in order. */
  function Starts(cs: seq<Call>): seq<Time> {
    if cs == [] then []
    else
      var past, c := cs[..|cs| - 1], cs[|cs| - 1];
      Starts(past) + if Records(After(past), c) then [c.startedAt] else []
  }

  /** When its discoveries started, whatever became of them. */
  function Attempts(cs: seq<Call>): seq<Time> {
    if cs == [] then []
    else
      var past, c := cs[..|cs| - 1], cs[|cs| - 1];
      Attempts(past) + if Discovers(After(past), c) then [c.startedAt] else []
  }

  /** When the discoveries started that then failed under a dead context. */
  function AbortedAttempts(cs: seq<Call>): seq<Time> {
    if cs == [] then []
    else
      var past, c := cs[..|cs| - 1], cs[|cs| - 1];
      AbortedAttempts(past) + if Aborted(After(past), c) then [c.startedAt] else []
  }

  ghost predicate Spaced(ts: seq<Time>) {
    forall a, b :: 0 <= a < b < |ts| ==> ts[a] + RETRY_DELAY <= ts[b]
  }

  function CountWithin(ts: seq<Time>, from: Time, to: Time): nat {
    if ts == [] then 0
    else CountWithin(ts[..|ts| - 1], from, to) + if from <= ts[|ts| - 1] <= to then 1 else 0
  }

  lemma {:induction false} StartOf(cs: seq<Call>, n: nat, a: nat) returns (i: nat)
    requires n <= |cs| && a < |Starts(cs[..n])|
    ensures i < n && RecordsAt(cs, i) && Starts(cs[..n])[a] == cs[i].startedAt
    decreases n
  {
    assert n > 0;
    assert cs[..n][..n - 1] == cs[..n - 1];
    if a < |Starts(cs[..n - 1])| {
      i := StartOf(cs, n - 1, a);
    } else {
      i := n - 1;
    }
  }

  lemma {:induction false} StartsSpaced(cs: seq<Call>, n: nat)
    requires WellTimed(cs) && n <= |cs|
    ensures Spaced(Starts(cs[..n]))
  {
    if n > 0 {
      StartsSpaced(cs, n - 1);
      assert cs[..n][..n - 1] == cs[..n - 1];
      var past := Starts(cs[..n - 1]);
      if RecordsAt(cs, n - 1) {
        forall a | 0 <= a < |past| ensures past[a] + RETRY_DELAY <= cs[n - 1].startedAt {
          var i := StartOf(cs, n - 1, a);
          SinceRecorded(cs, i, n - 1);
        }
      }
    }
  }

  lemma OneDelayLess(shorter: nat, longer: nat)
    requires shorter <= longer
    ensures 1 + (shorter - RETRY_DELAY) / RETRY_DELAY <= longer / RETRY_DELAY
  {
  }

  lemma {:induction false} SpacedCount(ts: seq<Time>, from: Time, to: Time)
    requires Spaced(ts)
    ensures from <= to ==> CountWithin(ts, from, to) <= 1 + (to - from) / RETRY_DELAY
    ensures to < from ==> CountWithin(ts, from, to) == 0
  {
    if ts != [] {
      var past, last := ts[..|ts| - 1], ts[|ts| - 1];
      SpacedCount(past, from, to);
      if from <= last <= to {
        CountCapped(past, from, to, last - RETRY_DELAY);
        OneDelayLess(last - from, to - from);
        SpacedCount(past, from, last - RETRY_DELAY);
      }
    }
  }

  lemma {:induction false} CountCapped(ts: seq<Time>, from: Time, to: Time, cap: Time)
    requires forall a :: 0 <= a < |ts| ==> ts[a] <= cap
    requires cap <= to
    ensures CountWithin(ts, from, to) == CountWithin(ts, from, cap)
  {
    if ts != [] {
      CountCapped(ts[..|ts| - 1], from, to, cap);
    }
  }

  lemma CountNext(ts: seq<Time>, t: Time, from: Time, to: Time)
    ensures CountWithin(ts + [], from, to) == CountWithin(ts, from, to)
    ensures CountWithin(ts + [t], from, to) == CountWithin(ts, from, to) + if from <= t <= to then 1 else 0
  {
    assert ts + [] == ts;
    assert (ts + [t])[..|ts|] == ts;
  }

  lemma {:induction false} AttemptsCounted(cs: seq<Call>, from: Time, to: Time)
    ensures CountWithin(Attempts(cs), from, to)
         == CountWithin(Starts(cs), from, to) + CountWithin(AbortedAttempts(cs), from, to)
  {
    if cs != [] {
      var past, c := cs[..|cs| - 1], cs[|cs| - 1];
      AttemptsCounted(past, from, to);
      CountNext(Attempts(past), c.startedAt, from, to);
      CountNext(Starts(past), c.startedAt, from, to);
      CountNext(AbortedAttempts(past), c.startedAt, from, to);
    }
  }

  lemma {:induction false} NoneAborted(cs: seq<Call>, n: nat)
    requires n <= |cs| && forall k :: 0 <= k < n ==> !AbortedAt(cs, k)
    ensures AbortedAttempts(cs[..n]) == []
  {
    if n > 0 {
      assert cs[..n][..n - 1] == cs[..n - 1];
      assert !AbortedAt(cs, n - 1);
      NoneAborted(cs, n - 1);
    }
  }

  lemma RecordedThrottle(cs: seq<Call>, from: Time, w: nat)
    requires WellTimed(cs)
    ensures CountWithin(Starts(cs), from, from + w) <= 1 + w / RETRY_DELAY
  {
    assert cs[..|cs|] == cs;
    StartsSpaced(cs, |cs|);
    SpacedCount(Starts(cs), from, from + w);
  }

  /**
   However many requests arrive, the discoveries that start in a window of
   length w number at most one more than the retry delays that fit in it, and
   one more for each that was aborted: none if no request is cancelled.
   */
  lemma DiscoveryThrottle(cs: seq<Call>, from: Time, w: nat)
    requires WellTimed(cs)
    ensures CountWithin(Starts(cs), from, from + w) <= 1 + w / RETRY_DELAY
    ensures CountWithin(Attempts(cs), from, from + w)
         <= 1 + w / RETRY_DELAY + CountWithin(AbortedAttempts(cs), from, from + w)
    ensures (forall k :: 0 <= k < |cs| ==> !AbortedAt(cs, k)) ==>
              CountWithin(Attempts(cs), from, from + w) <= 1 + w / RETRY_DELAY
  {
    RecordedThrottle(cs, from, w);
    AttemptsCounted(cs, from, from + w);
    assert cs[..|cs|] == cs;
    if forall k :: 0 <= k < |cs| ==> !AbortedAt(cs, k) {
      NoneAborted(cs, |cs|);
    }
  }

  /** A discovery still under way counts as one that will be recorded. */
  lemma OneMoreAttempt(cs: seq<Call>, c: Call, from: Time, w: nat)
    requires WellTimed(cs + [c]) && Discovers(After(cs), c) && c.discovery.Found?
    ensures CountWithin(Attempts(cs) + [c.startedAt], from, from + w)
         <= 1 + w / RETRY_DELAY + CountWithin(AbortedAttempts(cs), from, from + w)
  {
    assert (cs + [c])[..|cs|] == cs;
    assert AbortedAttempts(cs + [c]) == AbortedAttempts(cs) + [] == AbortedAttempts(cs);
    DiscoveryThrottle(cs + [c], from, w);
  }

  // ------------------------------------------------------- when a discovery covers for others

  /**
   A request that enters after the i-th section, and looks within the retry
   delay of its end, never goes out: it shares what that section found.
   */
  ghost predicate CoversNext(cs: seq<Call>, i: nat)
    requires i < |cs|
  {
    forall d: Call ::
      d.Ordered() && cs[i].recordRead <= d.ttlRead && d.retryRead < cs[i].recordRead + RETRY_DELAY ==>
        !Discovers(Before(cs, i + 1), d)
  }

  /** The same of every later request, in every way the history may go on after the i-th section. */
  ghost predicate CoversFuture(cs: seq<Call>, i: nat)
    requires i < |cs|
  {
    forall more: seq<Call>, j: nat {:trigger DiscoversAt(cs[..i + 1] + more, j)} ::
      && WellTimed(cs[..i + 1] + more) && i < j < |cs[..i + 1] + more|
      && (cs[..i + 1] + more)[j].retryRead < cs[i].recordRead + RETRY_DELAY
      ==> !DiscoversAt(cs[..i + 1] + more, j)
  }

  /** A discovery covers for the requests behind it exactly when it did not fail under a dead context. */
  lemma CoversNextIffNotAborted(cs: seq<Call>, i: nat)
    requires WellTimed(cs) && i < |cs| && DiscoversAt(cs, i)
    ensures CoversNext(cs, i) <==> !(cs[i].discovery.Failed? && cs[i].cancelled)
  {
    BeforeNext(cs, i);
    if cs[i].discovery.Failed? && cs[i].cancelled {
      assert Discovers(Before(cs, i + 1), AtOnce(cs[i]));
    }
  }

  /** A request that comes in the moment another section ends. */
  function AtOnce(c: Call): Call {
    Call(c.recordRead, c.recordRead, c.recordRead, c.recordRead, Failed("unreachable"), false)
  }

  lemma RecordedCoversFuture(past: seq<Call>, more: seq<Call>, j: nat)
    requires WellTimed(past + more) && past != [] && |past| <= j < |past + more|
    requires RecordsAt(past, |past| - 1)
    requires (past + more)[j].retryRead < past[|past| - 1].recordRead + RETRY_DELAY
    ensures !DiscoversAt(past + more, j)
  {
    var i := |past| - 1;
    assert (past + more)[..i] == past[..i];
    SinceRecorded(past + more, i, j);
  }

  lemma CoversFutureIffNotAborted(cs: seq<Call>, i: nat)
    requires WellTimed(cs) && i < |cs| && DiscoversAt(cs, i)
    ensures CoversFuture(cs, i) <==> !(cs[i].discovery.Failed? && cs[i].cancelled)
  {
    var past := cs[..i + 1];
    assert past[..i] == cs[..i];
    if cs[i].discovery.Failed? && cs[i].cancelled {
      var all := past + [AtOnce(cs[i])];
      assert all[..i + 1] == past;
      BeforeNext(cs, i);
      assert DiscoversAt(all, i + 1);
    } else {
      assert RecordsAt(past, i);
      forall more: seq<Call>, j: nat |
        WellTimed(past + more) && i < j < |past + more| && (past + more)[j].retryRead < cs[i].recordRead + RETRY_DELAY
        ensures !DiscoversAt(past + more, j)
      {
        RecordedCoversFuture(past, more, j);
      }
    }
  }

  /**
   Aborted discoveries escape the throttle: requests that die one after another
   while the issuer is unreachable each go out, however many there are and
   however little time passes.
   */
  lemma {:induction false} AbortedEscapeThrottle(n: nat) returns (cs: seq<Call>)
    ensures |cs| == n && WellTimed(cs) && After(cs) == EMPTY
    ensures forall k :: 0 <= k < n ==> DiscoversAt(cs, k) && cs[k].startedAt == 0 && cs[k].recordRead == 0
  {
    if n == 0 {
      cs := [];
    } else {
      var past := AbortedEscapeThrottle(n - 1);
      var c := Call(0, 0, 0, 0, Failed("context canceled"), true);
      cs := past + [c];
      assert cs[..n - 1] == past;
      forall k | 0 <= k < n ensures DiscoversAt(cs, k) && cs[k].startedAt == 0 && cs[k].recordRead == 0 {
        if k < n - 1 {
          assert DiscoversAt(past, k);
          assert cs[..k] == past[..k];
        }
      }
      WellTimedNext(past, c);
    }
  }

  // ------------------------------------------------------------------ bounded staleness

  /**
   A provider that was past its TTL at the check is only handed out because a
   discovery failed in this very call, or because one failed less than the retry
   delay before the retry check.
   */
  lemma StaleOnlyAfterFailure(cs: seq<Call>, k: nat) returns (i: nat)
    requires WellTimed(cs) && k < |cs|
    requires Before(cs, k).provider.Some? && Before(cs, k).fetchedAt + 600_000_000_000 <= cs[k].ttlRead
    requires AnswerAt(cs, k) == Ok(Before(cs, k).provider.value) && !BuildsAt(cs, k)
    ensures i <= k && DiscoversAt(cs, i) && cs[i].discovery.Failed?
    ensures i < k ==> RecordsAt(cs, i) && cs[k].retryRead < cs[i].recordRead + 5_000_000_000
  {
    if DiscoversAt(cs, k) {
      i := k;
    } else {
      i := FailureProvenance(cs, k);
    }
  }

  /** Once discovery stops failing, the cache is current again one retry delay later. */
  lemma FreshAfterRecovery(cs: seq<Call>, k: nat, healthy: Time)
    requires WellTimed(cs) && k < |cs|
    requires forall i :: 0 <= i < k && RecordsAt(cs, i) && cs[i].discovery.Failed? ==> cs[i].recordRead < healthy
    requires DiscoversAt(cs, k) ==> cs[k].discovery.Found?
    requires healthy + RETRY_DELAY <= cs[k].retryRead
    ensures AnswerAt(cs, k).Ok?
    ensures !BuildsAt(cs, k) ==>
              && Before(cs, k).provider == Some(AnswerAt(cs, k).value)
              && cs[k].ttlRead < Before(cs, k).fetchedAt + JWKS_TTL
  {
    if !Fresh(Before(cs, k), cs[k].ttlRead) {
      if BackingOff(Before(cs, k), cs[k].retryRead) {
        var i := FailureProvenance(cs, k);
        assert false;
      }
      assert DiscoversAt(cs, k);
    }
  }
}
