/**
 RemoteVerifier.provider as a concurrent protocol: any number of calls, one mutex
 for the map and one per entry, a clock that only moves forward and discoveries
 that return whenever and whatever they like. A run is any sequence of actions;
 an action whose mutex is taken has no effect, as the call stays blocked.
 */
module CacheProtocol {
  import opened Base
  import opened ProviderCache

  type CallId = nat
  type Issuer = string

  /** The identity of an entry object: its index among all entries ever allocated. */
  type Obj = nat

  /** Where a call is. The comments name what it does next. */
  datatype Pc =
    | Start                                           // lock the map
    | MapLocked                                       // look the issuer up, or insert a new entry
    | MapRead(obj: Obj)                               // unlock the map
    | EntryWait(obj: Obj)                             // lock the entry
    | TtlCheck(obj: Obj)                              // read the clock, compare with fetchedAt
    | RetryCheck(obj: Obj, ttlRead: Time)             // read the clock, compare with failedAt
    | Dialing(obj: Obj, ttlRead: Time, retryRead: Time)                     // start discovery
    | InFlight(obj: Obj, ttlRead: Time, retryRead: Time, startedAt: Time)   // discovery returns
    | Returned(obj: Obj, ttlRead: Time, retryRead: Time, startedAt: Time, discovery: Discovery) // record
    | Releasing(obj: Obj, answer: Result<Provider, Failure>)                // unlock the entry
    | Done(answer: Result<Provider, Failure>)
  {
    predicate HoldsMap() {
      MapLocked? || MapRead?
    }

    /** Inside the entry's critical section with the answer still open. */
    predicate Pending() {
      TtlCheck? || RetryCheck? || Dialing? || InFlight? || Returned?
    }

    predicate HoldsEntry() {
      Pending() || Releasing?
    }

    predicate KnowsEntry() {
      MapRead? || EntryWait? || HoldsEntry()
    }

    predicate Answered() {
      Releasing? || Done?
    }
  }

  datatype Thread = Thread(issuer: Issuer, pc: Pc)

  /** One finished critical section, as a history records it. */
  datatype Served = Served(id: CallId, call: Call, answer: Result<Provider, Failure>)

  /**
   An entry object and its mutex. acquired and served are histories: who locked
   the mutex, in order, and which critical sections have settled their answer.
   */
  datatype Cell = Cell(entry: Entry, owner: Option<CallId>, acquired: seq<CallId>, served: seq<Served>)

  const NEW_CELL := Cell(EMPTY, None, [], [])

  datatype State = State(clock: Time, mapOwner: Option<CallId>, providers: map<Issuer, Obj>, cells: seq<Cell>,
                         threads: map<CallId, Thread>, nextProvider: Provider)
  {
    function Move(id: CallId, pc: Pc): State
      requires id in threads
    {
      this.(threads := threads[id := threads[id].(pc := pc)])
    }

    function Put(obj: Obj, cell: Cell): State
      requires obj < |cells|
    {
      this.(cells := cells[obj := cell])
    }

    /** Write the entry, settle the answer and go on to unlock. */
    function Settle(id: CallId, obj: Obj, entry: Entry, answer: Result<Provider, Failure>, call: Call): State
      requires id in threads && obj < |cells|
    {
      Put(obj, cells[obj].(entry := entry, served := cells[obj].served + [Served(id, call, answer)]))
      .Move(id, Releasing(obj, answer))
    }
  }

  /** What the environment may do to a step: how a discovery ends, and whether the context is dead by then. */
  datatype Choice = Choice(failure: Option<Failure>, cancelled: bool)

  datatype Action =
    | Tick(elapsed: nat)
    | Arrive(id: CallId, issuer: Issuer)
    | Step(id: CallId, choice: Choice)

  /** Call id has a step to take and is not waiting for a mutex somebody holds. */
  predicate Enabled(s: State, id: CallId) {
    && id in s.threads
    && var pc := s.threads[id].pc;
    && (pc.KnowsEntry() ==> pc.obj < |s.cells|)
    && (pc.Start? ==> s.mapOwner.None?)
    && (pc.EntryWait? ==> s.cells[pc.obj].owner.None?)
    && !pc.Done?
  }

  /** A section that never looked at the network has nothing in this field. */
  const NO_DISCOVERY := Failed("")

  function Advance(s: State, id: CallId, choice: Choice): State
    requires Enabled(s, id)
  {
    var issuer, pc := s.threads[id].issuer, s.threads[id].pc;
    match pc
    case Start =>
      s.(mapOwner := Some(id)).Move(id, MapLocked)
    case MapLocked =>
      if issuer in s.providers then s.Move(id, MapRead(s.providers[issuer]))
      else s.(cells := s.cells + [NEW_CELL], providers := s.providers[issuer := |s.cells|]).Move(id, MapRead(|s.cells|))
    case MapRead(o) =>
      s.(mapOwner := None).Move(id, EntryWait(o))
    case EntryWait(o) =>
      var cell := s.cells[o];
      s.Put(o, cell.(owner := Some(id), acquired := cell.acquired + [id])).Move(id, TtlCheck(o))
    case TtlCheck(o) =>
      var e := s.cells[o].entry;
      if e.provider.Some? && s.clock - e.fetchedAt < JWKS_TTL then
        s.Settle(id, o, e, Ok(e.provider.value), Call(s.clock, s.clock, s.clock, s.clock, NO_DISCOVERY, false))
      else s.Move(id, RetryCheck(o, s.clock))
    case RetryCheck(o, ttlRead) =>
      var e := s.cells[o].entry;
      if e.err.Some? && s.clock - e.failedAt < RETRY_DELAY then
        var answer := if e.provider.Some? then Ok(e.provider.value) else Err(e.err.value);
        s.Settle(id, o, e, answer, Call(ttlRead, s.clock, s.clock, s.clock, NO_DISCOVERY, false))
      else s.Move(id, Dialing(o, ttlRead, s.clock))
    case Dialing(o, ttlRead, retryRead) =>
      s.Move(id, InFlight(o, ttlRead, retryRead, s.clock))
    case InFlight(o, ttlRead, retryRead, startedAt) =>
      if choice.failure.Some? then
        s.Move(id, Returned(o, ttlRead, retryRead, startedAt, Failed(choice.failure.value)))
      else
        s.(nextProvider := s.nextProvider + 1)
        .Move(id, Returned(o, ttlRead, retryRead, startedAt, Found(s.nextProvider)))
    case Returned(o, ttlRead, retryRead, startedAt, discovery) =>
      var e := s.cells[o].entry;
      var call := Call(ttlRead, retryRead, startedAt, s.clock, discovery, choice.cancelled);
      (match discovery
       case Failed(f) =>
         var e' := if choice.cancelled then e else e.(err := Some(f), failedAt := s.clock);
         s.Settle(id, o, e', if e.provider.Some? then Ok(e.provider.value) else Err(f), call)
       case Found(p) =>
         s.Settle(id, o, e.(provider := Some(p), fetchedAt := s.clock, err := None), Ok(p), call))
    case Releasing(o, answer) =>
      s.Put(o, s.cells[o].(owner := None)).Move(id, Done(answer))
  }

  function Perform(s: State, a: Action): State {
    match a
    case Tick(elapsed) => s.(clock := s.clock + elapsed)
    case Arrive(id, issuer) =>
      if id in s.threads then s else s.(threads := s.threads[id := Thread(issuer, Start)])
    case Step(id, choice) => if Enabled(s, id) then Advance(s, id, choice) else s
  }

  function Exec(s: State, acts: seq<Action>): State
    decreases |acts|
  {
    if acts == [] then s else Exec(Perform(s, acts[0]), acts[1..])
  }

  function Init(clock: Time): State {
    State(clock, None, map[], [], map[], 0)
  }

  /** Every reachable state of every system is Run(clock, acts) for some acts. */
  function Run(clock: Time, acts: seq<Action>): State {
    Exec(Init(clock), acts)
  }

  // ---------------------------------------------------------------------- the invariant

  function Calls(served: seq<Served>): (cs: seq<Call>)
    ensures |cs| == |served| && forall k :: 0 <= k < |cs| ==> cs[k] == served[k].call
  {
    seq(|served|, k requires 0 <= k < |served| => served[k].call)
  }

  function Ids(served: seq<Served>): (ids: seq<CallId>)
    ensures |ids| == |served| && forall k :: 0 <= k < |ids| ==> ids[k] == served[k].id
  {
    seq(|served|, k requires 0 <= k < |served| => served[k].id)
  }

  /** The settled sections of an entry are a history of the sequential cache. */
  ghost predicate HistoryOk(served: seq<Served>, entry: Entry, clock: Time, next: Provider) {
    var cs := Calls(served);
    && WellTimed(cs)
    && GenerationsGrow(cs)
    && entry == After(cs)
    && forall k :: 0 <= k < |cs| ==>
      && cs[k].recordRead <= clock
      && served[k].answer == AnswerAt(cs, k)
      && (BuildsAt(cs, k) ==> cs[k].discovery.provider < next)
  }

  /** No settled section of the cell reads the clock after t. */
  ghost predicate SettledBy(cell: Cell, t: Time) {
    forall k :: 0 <= k < |cell.served| ==> cell.served[k].call.recordRead <= t
  }

  ghost predicate NewerThanAll(cell: Cell, p: Provider) {
    var cs := Calls(cell.served);
    forall k :: 0 <= k < |cs| && BuildsAt(cs, k) ==> cs[k].discovery.provider < p
  }

  /** What a call inside the critical section has established so far. */
  ghost predicate Progress(pc: Pc, cell: Cell, clock: Time, next: Provider) {
    && (pc.RetryCheck? || pc.Dialing? || pc.InFlight? || pc.Returned? ==>
          SettledBy(cell, pc.ttlRead) && pc.ttlRead <= clock && !Fresh(cell.entry, pc.ttlRead))
    && (pc.Dialing? || pc.InFlight? || pc.Returned? ==>
          pc.ttlRead <= pc.retryRead <= clock && !BackingOff(cell.entry, pc.retryRead))
    && (pc.InFlight? || pc.Returned? ==> pc.retryRead <= pc.startedAt <= clock)
    && (pc.Returned? && pc.discovery.Found? ==>
          NewerThanAll(cell, pc.discovery.provider) && pc.discovery.provider < next)
  }

  ghost predicate MapOk(s: State) {
    && (forall i :: i in s.providers ==> s.providers[i] < |s.cells|)
    && (forall i, j :: i in s.providers && j in s.providers && s.providers[i] == s.providers[j] ==> i == j)
  }

  /** The critical sections settled on an entry include one by id with this answer. */
  ghost predicate Settled(served: seq<Served>, id: CallId, answer: Result<Provider, Failure>) {
    exists k :: 0 <= k < |served| && served[k].id == id && served[k].answer == answer
  }

  ghost predicate ThreadOk(s: State, id: CallId)
    requires id in s.threads && MapOk(s)
  {
    var issuer, pc := s.threads[id].issuer, s.threads[id].pc;
    && (pc.HoldsMap() ==> s.mapOwner == Some(id))
    && (pc.KnowsEntry() ==> issuer in s.providers && s.providers[issuer] == pc.obj)
    && (pc.HoldsEntry() ==> s.cells[pc.obj].owner == Some(id))
    && (issuer in s.providers && id in s.cells[s.providers[issuer]].acquired ==> pc.HoldsEntry() || pc.Done?)
    && (pc.Answered() ==> issuer in s.providers && Settled(s.cells[s.providers[issuer]].served, id, pc.answer))
  }

  ghost predicate Distinct(ids: seq<CallId>) {
    forall a, b :: 0 <= a < b < |ids| ==> ids[a] != ids[b]
  }

  /** Who has locked an entry's mutex: every settled section, then whoever is inside now. */
  ghost predicate CellOk(s: State, o: Obj)
    requires o < |s.cells|
  {
    var cell := s.cells[o];
    && (cell.owner.Some? ==>
          && cell.owner.value in s.threads
          && var pc := s.threads[cell.owner.value].pc; pc.HoldsEntry() && pc.obj == o)
    && cell.acquired == Ids(cell.served)
          + (if cell.owner.Some? && s.threads[cell.owner.value].pc.Pending() then [cell.owner.value] else [])
    && Distinct(cell.acquired)
    && forall a :: 0 <= a < |cell.acquired| ==> cell.acquired[a] in s.threads
  }

  /** Who holds what. */
  ghost predicate LocksOk(s: State) {
    && MapOk(s)
    && (s.mapOwner.Some? ==> s.mapOwner.value in s.threads && s.threads[s.mapOwner.value].pc.HoldsMap())
    && (forall id {:trigger ThreadOk(s, id)} :: id in s.threads ==> ThreadOk(s, id))
    && (forall o :: 0 <= o < |s.cells| ==> CellOk(s, o))
  }

  ghost predicate CellDataOk(s: State, o: Obj)
    requires o < |s.cells|
  {
    HistoryOk(s.cells[o].served, s.cells[o].entry, s.clock, s.nextProvider)
  }

  ghost predicate ThreadDataOk(s: State, id: CallId)
    requires id in s.threads
  {
    var pc := s.threads[id].pc;
    pc.Pending() ==> pc.obj < |s.cells| && Progress(pc, s.cells[pc.obj], s.clock, s.nextProvider)
  }

  /** What the entries contain. */
  ghost predicate DataOk(s: State) {
    && (forall o :: 0 <= o < |s.cells| ==> CellDataOk(s, o))
    && (forall id {:trigger ThreadDataOk(s, id)} :: id in s.threads ==> ThreadDataOk(s, id))
  }

  ghost predicate Inv(s: State) {
    LocksOk(s) && DataOk(s)
  }

  // --------------------------------------------------------- mutexes: every step keeps them

  lemma CellFrame(s: State, s': State, o: Obj)
    requires o < |s.cells| && o < |s'.cells| && s'.cells[o] == s.cells[o] && CellOk(s, o)
    requires s.threads.Keys <= s'.threads.Keys
    requires s.cells[o].owner.Some? ==>
               var pc, pc' := s.threads[s.cells[o].owner.value].pc, s'.threads[s.cells[o].owner.value].pc;
               pc'.HoldsEntry() && pc'.obj == o && (pc.Pending() <==> pc'.Pending())
    ensures CellOk(s', o)
  {
  }

  lemma ThreadFrame(s: State, s': State, t: CallId)
    requires MapOk(s) && MapOk(s') && t in s.threads && ThreadOk(s, t)
    requires t in s'.threads && s'.threads[t] == s.threads[t]
    requires s.threads[t].pc.HoldsMap() ==> s'.mapOwner == s.mapOwner
    requires forall i :: i in s.providers ==> i in s'.providers && s'.providers[i] == s.providers[i]
    requires var i := s.threads[t].issuer;
      if i in s.providers then
        var c, c' := s.cells[s.providers[i]], s'.cells[s.providers[i]];
        && c.served <= c'.served
        && (t in c'.acquired ==> t in c.acquired)
        && (s.threads[t].pc.HoldsEntry() ==> c'.owner == c.owner)
      else i in s'.providers ==> t !in s'.cells[s'.providers[i]].acquired
    ensures ThreadOk(s', t)
  {
    var i, pc := s.threads[t].issuer, s.threads[t].pc;
    if pc.Answered() {
      var served, served' := s.cells[s.providers[i]].served, s'.cells[s.providers[i]].served;
      var k :| 0 <= k < |served| && served[k].id == t && served[k].answer == pc.answer;
      assert served'[k] == served[k];
    }
  }

  /** Only call id moved, and only an entry that it holds or that nobody held changed. */
  lemma OthersFrame(s: State, s': State, id: CallId, o: Obj)
    requires LocksOk(s) && id in s.threads && o < |s.cells|
    requires s'.threads.Keys == s.threads.Keys
    requires forall t :: t in s.threads && t != id ==> s'.threads[t] == s.threads[t]
    requires s.mapOwner != s'.mapOwner ==> s.mapOwner.None? || s.mapOwner == Some(id)
    requires s'.providers == s.providers && |s'.cells| == |s.cells|
    requires forall p :: 0 <= p < |s.cells| && p != o ==> s'.cells[p] == s.cells[p]
    requires s.cells[o].served <= s'.cells[o].served
    requires forall t :: t != id && t in s'.cells[o].acquired ==> t in s.cells[o].acquired
    requires s.cells[o].owner.None? || s.cells[o].owner == Some(id)
    ensures forall t :: t in s.threads && t != id ==> ThreadOk(s', t)
    ensures forall p :: 0 <= p < |s.cells| && p != o && s.cells[p].owner != Some(id) ==> CellOk(s', p)
  {
    forall t | t in s.threads && t != id ensures ThreadOk(s', t) {
      assert ThreadOk(s, t);
      ThreadFrame(s, s', t);
    }
    forall p | 0 <= p < |s.cells| && p != o && s.cells[p].owner != Some(id) ensures CellOk(s', p) {
      assert CellOk(s, p);
      CellFrame(s, s', p);
    }
  }

  /** A call owns no entry but the one it is at. */
  lemma OwnsOnly(s: State, id: CallId, p: Obj)
    requires LocksOk(s) && id in s.threads && p < |s.cells| && s.cells[p].owner == Some(id)
    ensures s.threads[id].pc.HoldsEntry() && s.threads[id].pc.obj == p
  {
    assert CellOk(s, p);
  }

  lemma MapStepKeepsLocks(s: State, id: CallId, choice: Choice)
    requires LocksOk(s) && Enabled(s, id) && (s.threads[id].pc.Start? || s.threads[id].pc.MapRead?)
    ensures LocksOk(Advance(s, id, choice))
  {
    var s' := Advance(s, id, choice);
    assert ThreadOk(s, id);
    forall t | t in s'.threads ensures ThreadOk(s', t) {
      assert ThreadOk(s, t);
      if t != id {
        ThreadFrame(s, s', t);
      }
    }
    forall p | 0 <= p < |s'.cells| ensures CellOk(s', p) {
      assert CellOk(s, p);
      CellFrame(s, s', p);
    }
  }

  lemma LookUpKeepsLocks(s: State, id: CallId, choice: Choice)
    requires LocksOk(s) && Enabled(s, id) && s.threads[id].pc.MapLocked?
    ensures LocksOk(Advance(s, id, choice))
  {
    var s' := Advance(s, id, choice);
    assert ThreadOk(s, id);
    forall t | t in s'.threads ensures ThreadOk(s', t) {
      assert ThreadOk(s, t);
      if t != id {
        ThreadFrame(s, s', t);
      }
    }
    forall p | 0 <= p < |s'.cells| ensures CellOk(s', p) {
      if p < |s.cells| {
        assert CellOk(s, p);
        CellFrame(s, s', p);
      } else {
        assert s'.cells[p] == NEW_CELL;
      }
    }
  }

  lemma LockEntryKeepsLocks(s: State, id: CallId, choice: Choice)
    requires LocksOk(s) && Enabled(s, id) && s.threads[id].pc.EntryWait?
    ensures LocksOk(Advance(s, id, choice))
  {
    var s' := Advance(s, id, choice);
    var o := s.threads[id].pc.obj;
    assert ThreadOk(s, id);
    assert CellOk(s, o);
    OthersFrame(s, s', id, o);
    assert ThreadOk(s', id);
    assert CellOk(s', o);
    forall p | 0 <= p < |s'.cells| && p != o ensures CellOk(s', p) {
      if s.cells[p].owner == Some(id) {
        OwnsOnly(s, id, p);
      }
    }
  }

  /** A step inside the critical section, or out of it, touches one call and one entry. */
  lemma HeldMoveKeepsLocks(s: State, id: CallId, s': State)
    requires LocksOk(s) && id in s.threads && s.threads[id].pc.HoldsEntry() && s.threads[id].pc.obj < |s.cells|
    requires s'.threads.Keys == s.threads.Keys && s'.mapOwner == s.mapOwner && s'.providers == s.providers
    requires forall t :: t in s.threads && t != id ==> s'.threads[t] == s.threads[t]
    requires s'.threads[id].issuer == s.threads[id].issuer && |s'.cells| == |s.cells|
    requires var o, pc' := s.threads[id].pc.obj, s'.threads[id].pc;
      && (forall p :: 0 <= p < |s.cells| && p != o ==> s'.cells[p] == s.cells[p])
      && s.cells[o].served <= s'.cells[o].served
      && s'.cells[o].acquired == s.cells[o].acquired
      && ((pc'.HoldsEntry() && pc'.obj == o && s'.cells[o].owner == s.cells[o].owner)
          || (pc'.Done? && s'.cells[o].owner.None?))
      && (pc'.Answered() ==> Settled(s'.cells[o].served, id, pc'.answer))
      && s'.cells[o].acquired == Ids(s'.cells[o].served) + (if pc'.Pending() then [id] else [])
    ensures LocksOk(s')
  {
    var o := s.threads[id].pc.obj;
    assert ThreadOk(s, id) && CellOk(s, o);
    OthersFrame(s, s', id, o);
    forall p | 0 <= p < |s'.cells| && p != o ensures CellOk(s', p) {
      if s.cells[p].owner == Some(id) {
        OwnsOnly(s, id, p);
      }
    }
  }

  lemma IdsGrow(served: seq<Served>, more: Served)
    ensures Ids(served + [more]) == Ids(served) + [more.id]
    ensures Settled(served + [more], more.id, more.answer)
  {
    assert (served + [more])[|served|] == more;
  }

  lemma SettleKeepsLocks(s: State, id: CallId, entry: Entry, answer: Result<Provider, Failure>, call: Call)
    requires LocksOk(s) && id in s.threads && s.threads[id].pc.Pending() && s.threads[id].pc.obj < |s.cells|
    ensures LocksOk(s.Settle(id, s.threads[id].pc.obj, entry, answer, call))
  {
    var o := s.threads[id].pc.obj;
    assert ThreadOk(s, id) && CellOk(s, o);
    IdsGrow(s.cells[o].served, Served(id, call, answer));
    HeldMoveKeepsLocks(s, id, s.Settle(id, o, entry, answer, call));
  }

  /** What a step settles, if it settles anything. */
  lemma SettlesEntry(s: State, id: CallId, choice: Choice) returns (entry: Entry, last: Served)
    requires Enabled(s, id) && s.threads[id].pc.Pending() && Advance(s, id, choice).threads[id].pc.Releasing?
    ensures last.id == id
    ensures Advance(s, id, choice) == s.Settle(id, s.threads[id].pc.obj, entry, last.answer, last.call)
  {
    var cell := Advance(s, id, choice).cells[s.threads[id].pc.obj];
    entry, last := cell.entry, cell.served[|cell.served| - 1];
  }

  lemma SettlingStepKeepsLocks(s: State, id: CallId, choice: Choice)
    requires LocksOk(s) && Enabled(s, id) && s.threads[id].pc.Pending()
    requires Advance(s, id, choice).threads[id].pc.Releasing?
    ensures LocksOk(Advance(s, id, choice))
  {
    var entry, last := SettlesEntry(s, id, choice);
    SettleKeepsLocks(s, id, entry, last.answer, last.call);
  }

  lemma HeldStepKeepsLocks(s: State, id: CallId, choice: Choice)
    requires LocksOk(s) && Enabled(s, id) && s.threads[id].pc.HoldsEntry()
    ensures LocksOk(Advance(s, id, choice))
  {
    var s' := Advance(s, id, choice);
    var pc := s.threads[id].pc;
    if s'.threads[id].pc.Releasing? {
      SettlingStepKeepsLocks(s, id, choice);
    } else {
      assert s'.cells == s.cells || s' == s.Put(pc.obj, s.cells[pc.obj].(owner := None)).Move(id, Done(pc.answer));
      assert ThreadOk(s, id) && CellOk(s, pc.obj);
      HeldMoveKeepsLocks(s, id, s');
    }
  }

  lemma ArrivalKeepsThreads(s: State, id: CallId, issuer: Issuer)
    requires LocksOk(s) && id !in s.threads
    ensures var s' := Perform(s, Arrive(id, issuer)); MapOk(s') && forall t :: t in s'.threads ==> ThreadOk(s', t)
  {
    var s' := Perform(s, Arrive(id, issuer));
    forall t | t in s'.threads ensures ThreadOk(s', t) {
      if t != id {
        assert ThreadOk(s, t);
        ThreadFrame(s, s', t);
      } else if issuer in s.providers {
        assert CellOk(s, s.providers[issuer]);
      }
    }
  }

  lemma OutsideKeepsLocks(s: State, a: Action)
    requires LocksOk(s) && !a.Step?
    ensures LocksOk(Perform(s, a))
  {
    var s' := Perform(s, a);
    if a.Arrive? && a.id !in s.threads {
      ArrivalKeepsThreads(s, a.id, a.issuer);
    } else {
      forall t | t in s'.threads ensures ThreadOk(s', t) {
        assert ThreadOk(s, t);
      }
    }
    forall p | 0 <= p < |s'.cells| ensures CellOk(s', p) {
      assert CellOk(s, p);
      CellFrame(s, s', p);
    }
  }

  lemma PerformKeepsLocks(s: State, a: Action)
    requires LocksOk(s)
    ensures LocksOk(Perform(s, a))
  {
    if !a.Step? {
      OutsideKeepsLocks(s, a);
    } else if Enabled(s, a.id) {
      var pc := s.threads[a.id].pc;
      if pc.Start? || pc.MapRead? {
        MapStepKeepsLocks(s, a.id, a.choice);
      } else if pc.MapLocked? {
        LookUpKeepsLocks(s, a.id, a.choice);
      } else if pc.EntryWait? {
        LockEntryKeepsLocks(s, a.id, a.choice);
      } else {
        HeldStepKeepsLocks(s, a.id, a.choice);
      }
    }
  }

  // -------------------------------------------------------- contents: every step keeps them

  /** Appending a section to a history appends nothing to its past. */
  lemma HistoryGrows(served: seq<Served>, more: Served)
    ensures var cs, cs' := Calls(served), Calls(served + [more]);
      && cs' == cs + [more.call]
      && After(cs') == Next(After(cs), more.call)
      && AnswerAt(cs', |cs|) == Answer(After(cs), more.call)
      && (BuildsAt(cs', |cs|) <==> Discovers(After(cs), more.call) && more.call.discovery.Found?)
      && forall k :: 0 <= k < |cs| ==> AnswerAt(cs', k) == AnswerAt(cs, k) && BuildsAt(cs', k) == BuildsAt(cs, k)
  {
    var cs, cs' := Calls(served), Calls(served + [more]);
    assert cs' == cs + [more.call];
    assert cs'[..|cs|] == cs;
    forall k | 0 <= k < |cs| ensures AnswerAt(cs', k) == AnswerAt(cs, k) && BuildsAt(cs', k) == BuildsAt(cs, k) {
      assert cs'[..k] == cs[..k];
    }
  }

  /** A settled section is one more section of the sequential cache. */
  lemma HistoryExtends(cell: Cell, clock: Time, next: Provider, more: Served)
    requires HistoryOk(cell.served, cell.entry, clock, next)
    requires more.call.Ordered() && more.call.recordRead <= clock && more.answer == Answer(cell.entry, more.call)
    requires SettledBy(cell, more.call.ttlRead)
    requires Discovers(cell.entry, more.call) && more.call.discovery.Found? ==>
               more.call.discovery.provider < next && NewerThanAll(cell, more.call.discovery.provider)
    ensures HistoryOk(cell.served + [more], Next(cell.entry, more.call), clock, next)
  {
    var cs := Calls(cell.served);
    HistoryGrows(cell.served, more);
    assert forall k :: 0 <= k < |cs| ==> cs[k] == cell.served[k].call;
    WellTimedNext(cs, more.call);
    GenerationsNext(cs, more.call);
  }

  lemma HistoryLasts(served: seq<Served>, entry: Entry, clock: Time, next: Provider, clock': Time, next': Provider)
    requires HistoryOk(served, entry, clock, next) && clock <= clock' && next <= next'
    ensures HistoryOk(served, entry, clock', next')
  {
  }

  lemma SettledByNow(cell: Cell, clock: Time, next: Provider)
    requires HistoryOk(cell.served, cell.entry, clock, next)
    ensures SettledBy(cell, clock) && NewerThanAll(cell, next)
  {
  }

  /** A call that stands still loses nothing, whatever the others do. */
  lemma ThreadDataFrame(s: State, s': State, t: CallId)
    requires LocksOk(s) && t in s.threads && t in s'.threads && ThreadDataOk(s, t)
    requires s'.threads[t].pc == s.threads[t].pc && s.clock <= s'.clock && s.nextProvider <= s'.nextProvider
    requires |s.cells| <= |s'.cells|
    requires s.threads[t].pc.Pending() ==>
               s.threads[t].pc.obj < |s.cells| && s'.cells[s.threads[t].pc.obj] == s.cells[s.threads[t].pc.obj]
    ensures ThreadDataOk(s', t)
  {
  }

  /** Steps that write no entry: only the mover's own progress is new. */
  lemma UnwrittenKeepsData(s: State, s': State)
    requires Inv(s) && s.clock <= s'.clock && s.nextProvider <= s'.nextProvider && |s.cells| <= |s'.cells|
    requires forall o :: 0 <= o < |s.cells| ==>
               s'.cells[o].entry == s.cells[o].entry && s'.cells[o].served == s.cells[o].served
    requires forall o :: |s.cells| <= o < |s'.cells| ==> s'.cells[o] == NEW_CELL
    ensures forall o :: 0 <= o < |s'.cells| ==> CellDataOk(s', o)
  {
    forall o | 0 <= o < |s'.cells| ensures CellDataOk(s', o) {
      if o < |s.cells| {
        assert CellDataOk(s, o);
        HistoryLasts(s.cells[o].served, s.cells[o].entry, s.clock, s.nextProvider, s'.clock, s'.nextProvider);
      }
    }
  }

  /** An entry only ever changes under its owner. */
  lemma OthersDataFrame(s: State, s': State, id: CallId)
    requires Inv(s) && id in s.threads && s'.threads.Keys == s.threads.Keys
    requires forall t :: t in s.threads && t != id ==> s'.threads[t] == s.threads[t]
    requires s.clock <= s'.clock && s.nextProvider <= s'.nextProvider && |s.cells| <= |s'.cells|
    requires forall o :: 0 <= o < |s.cells| && s.cells[o].owner.Some? && s.cells[o].owner != Some(id) ==>
               s'.cells[o] == s.cells[o]
    ensures forall t :: t in s.threads && t != id ==> ThreadDataOk(s', t)
  {
    forall t | t in s.threads && t != id ensures ThreadDataOk(s', t) {
      assert ThreadDataOk(s, t) && ThreadOk(s, t);
      ThreadDataFrame(s, s', t);
    }
  }

  lemma EntrySettledByNow(s: State, o: Obj)
    requires Inv(s) && o < |s.cells|
    ensures SettledBy(s.cells[o], s.clock) && NewerThanAll(s.cells[o], s.nextProvider)
  {
    assert CellDataOk(s, o);
    SettledByNow(s.cells[o], s.clock, s.nextProvider);
  }

  lemma CheckProgress(s: State, id: CallId, choice: Choice)
    requires Enabled(s, id) && (s.threads[id].pc.TtlCheck? || s.threads[id].pc.RetryCheck?) && ThreadDataOk(s, id)
    requires SettledBy(s.cells[s.threads[id].pc.obj], s.clock)
    requires Advance(s, id, choice).threads[id].pc.Pending()
    ensures ThreadDataOk(Advance(s, id, choice), id)
  {
  }

  lemma DiscoveryProgress(s: State, id: CallId, choice: Choice)
    requires Enabled(s, id) && (s.threads[id].pc.Dialing? || s.threads[id].pc.InFlight?) && ThreadDataOk(s, id)
    requires NewerThanAll(s.cells[s.threads[id].pc.obj], s.nextProvider)
    ensures ThreadDataOk(Advance(s, id, choice), id)
  {
    assert Advance(s, id, choice).cells == s.cells;
  }

  lemma ProgressStep(s: State, id: CallId, choice: Choice)
    requires Enabled(s, id) && s.threads[id].pc.Pending() && ThreadDataOk(s, id)
    requires SettledBy(s.cells[s.threads[id].pc.obj], s.clock)
    requires NewerThanAll(s.cells[s.threads[id].pc.obj], s.nextProvider)
    requires Advance(s, id, choice).threads[id].pc.Pending()
    ensures ThreadDataOk(Advance(s, id, choice), id)
  {
    if s.threads[id].pc.TtlCheck? || s.threads[id].pc.RetryCheck? {
      CheckProgress(s, id, choice);
    } else {
      DiscoveryProgress(s, id, choice);
    }
  }

  /** Only call id moved, no entry was written, and a mutex that somebody else holds is as it was. */
  ghost predicate QuietMove(s: State, s': State, id: CallId) {
    && s'.clock == s.clock && s.nextProvider <= s'.nextProvider && |s.cells| <= |s'.cells|
    && s'.threads.Keys == s.threads.Keys
    && (forall t :: t in s.threads && t != id ==> s'.threads[t] == s.threads[t])
    && (forall o :: 0 <= o < |s.cells| ==>
          s'.cells[o].entry == s.cells[o].entry && s'.cells[o].served == s.cells[o].served)
    && (forall o :: |s.cells| <= o < |s'.cells| ==> s'.cells[o] == NEW_CELL)
    && (forall o :: 0 <= o < |s.cells| && s.cells[o].owner.Some? && s.cells[o].owner != Some(id) ==>
          s'.cells[o] == s.cells[o])
  }

  lemma QuietMapStep(s: State, id: CallId, choice: Choice)
    requires Enabled(s, id) && (s.threads[id].pc.Start? || s.threads[id].pc.HoldsMap())
    ensures QuietMove(s, Advance(s, id, choice), id)
  {
  }

  lemma QuietLockStep(s: State, id: CallId, choice: Choice)
    requires Enabled(s, id) && s.threads[id].pc.EntryWait?
    ensures QuietMove(s, Advance(s, id, choice), id)
  {
  }

  lemma QuietHeldStep(s: State, id: CallId, choice: Choice)
    requires Enabled(s, id) && s.threads[id].pc.Pending() && Advance(s, id, choice).threads[id].pc.Pending()
    ensures QuietMove(s, Advance(s, id, choice), id)
  {
    assert Advance(s, id, choice).cells == s.cells;
  }

  lemma QuietUnlockStep(s: State, id: CallId, choice: Choice)
    requires Enabled(s, id) && s.threads[id].pc.Releasing? && s.cells[s.threads[id].pc.obj].owner == Some(id)
    ensures QuietMove(s, Advance(s, id, choice), id)
  {
  }

  lemma QuietStepFrame(s: State, id: CallId, choice: Choice)
    requires Enabled(s, id)
    requires s.threads[id].pc.HoldsEntry() ==> s.cells[s.threads[id].pc.obj].owner == Some(id)
    requires !s.threads[id].pc.Pending() || Advance(s, id, choice).threads[id].pc.Pending()
    ensures QuietMove(s, Advance(s, id, choice), id)
  {
    var pc := s.threads[id].pc;
    if pc.Pending() {
      QuietHeldStep(s, id, choice);
    } else if pc.Releasing? {
      QuietUnlockStep(s, id, choice);
    } else if pc.EntryWait? {
      QuietLockStep(s, id, choice);
    } else {
      QuietMapStep(s, id, choice);
    }
  }

  lemma QuietStepKeepsData(s: State, id: CallId, choice: Choice)
    requires Inv(s) && Enabled(s, id)
    requires !s.threads[id].pc.Pending() || Advance(s, id, choice).threads[id].pc.Pending()
    ensures DataOk(Advance(s, id, choice))
  {
    assert ThreadOk(s, id);
    QuietStepFrame(s, id, choice);
    if s.threads[id].pc.Pending() {
      assert ThreadDataOk(s, id);
      EntrySettledByNow(s, s.threads[id].pc.obj);
      ProgressStep(s, id, choice);
    } else {
      assert ThreadDataOk(Advance(s, id, choice), id);
    }
    QuietMoveKeepsData(s, Advance(s, id, choice), id);
  }

  lemma QuietMoveKeepsData(s: State, s': State, id: CallId)
    requires Inv(s) && id in s.threads && QuietMove(s, s', id) && ThreadDataOk(s', id)
    ensures DataOk(s')
  {
    UnwrittenKeepsData(s, s');
    OthersDataFrame(s, s', id);
  }

  /** The step that settles a section computes what the sequential cache computes. */
  lemma SettlingStep(s: State, id: CallId, choice: Choice) returns (call: Call)
    requires Enabled(s, id) && s.threads[id].pc.Pending() && ThreadDataOk(s, id)
    requires SettledBy(s.cells[s.threads[id].pc.obj], s.clock)
    requires !Advance(s, id, choice).threads[id].pc.Pending()
    ensures call.Ordered() && call.recordRead <= s.clock
    ensures var cell := s.cells[s.threads[id].pc.obj];
      && SettledBy(cell, call.ttlRead)
      && (Discovers(cell.entry, call) && call.discovery.Found? ==>
            call.discovery.provider < s.nextProvider && NewerThanAll(cell, call.discovery.provider))
      && Advance(s, id, choice)
         == s.Settle(id, s.threads[id].pc.obj, Next(cell.entry, call), Answer(cell.entry, call), call)
  {
    match s.threads[id].pc
    case TtlCheck(o) =>
      call := Call(s.clock, s.clock, s.clock, s.clock, NO_DISCOVERY, false);
    case RetryCheck(o, ttlRead) =>
      call := Call(ttlRead, s.clock, s.clock, s.clock, NO_DISCOVERY, false);
    case Returned(o, ttlRead, retryRead, startedAt, discovery) =>
      call := Call(ttlRead, retryRead, startedAt, s.clock, discovery, choice.cancelled);
  }

  lemma SettlingStepKeepsData(s: State, id: CallId, choice: Choice)
    requires Inv(s) && Enabled(s, id) && s.threads[id].pc.Pending()
    requires !Advance(s, id, choice).threads[id].pc.Pending()
    ensures DataOk(Advance(s, id, choice))
  {
    var o := s.threads[id].pc.obj;
    var cell := s.cells[o];
    assert ThreadDataOk(s, id);
    EntrySettledByNow(s, o);
    var call := SettlingStep(s, id, choice);
    var s' := Advance(s, id, choice);
    assert ThreadOk(s, id) && CellDataOk(s, o);
    HistoryExtends(cell, s.clock, s.nextProvider, Served(id, call, Answer(cell.entry, call)));
    OthersDataFrame(s, s', id);
    forall p | 0 <= p < |s'.cells| ensures CellDataOk(s', p) {
      if p != o {
        assert CellDataOk(s, p);
      }
    }
  }

  lemma OutsideKeepsData(s: State, a: Action)
    requires Inv(s) && !a.Step?
    ensures DataOk(Perform(s, a))
  {
    var s' := Perform(s, a);
    UnwrittenKeepsData(s, s');
    forall t | t in s'.threads ensures ThreadDataOk(s', t) {
      if t in s.threads {
        assert ThreadDataOk(s, t);
        ThreadDataFrame(s, s', t);
      }
    }
  }

  lemma StepKeepsData(s: State, id: CallId, choice: Choice)
    requires Inv(s) && Enabled(s, id)
    ensures DataOk(Advance(s, id, choice))
  {
    if !s.threads[id].pc.Pending() || Advance(s, id, choice).threads[id].pc.Pending() {
      QuietStepKeepsData(s, id, choice);
    } else {
      SettlingStepKeepsData(s, id, choice);
    }
  }

  lemma PerformKeepsInv(s: State, a: Action)
    requires Inv(s)
    ensures Inv(Perform(s, a))
  {
    PerformKeepsLocks(s, a);
    if !a.Step? {
      OutsideKeepsData(s, a);
    } else if Enabled(s, a.id) {
      StepKeepsData(s, a.id, a.choice);
    }
  }

  lemma {:induction false} ExecKeepsInv(s: State, acts: seq<Action>)
    requires Inv(s)
    ensures Inv(Exec(s, acts))
    decreases |acts|
  {
    if acts != [] {
      PerformKeepsInv(s, acts[0]);
      ExecKeepsInv(Perform(s, acts[0]), acts[1..]);
    }
  }

  /** The invariant holds in every state of every run. */
  lemma RunKeepsInv(clock: Time, acts: seq<Action>)
    ensures Inv(Run(clock, acts))
  {
    ExecKeepsInv(Init(clock), acts);
  }

  // ------------------------------------------- the concurrent cache refines the sequential one

  /**
   Under every interleaving, an issuer's entry is what the sequential cache
   computes from that issuer's calls in the order they locked its mutex, and
   every call that has returned got the sequential answer at its place.
   */
  lemma ConcurrentRefinesSequential(clock: Time, acts: seq<Action>, issuer: Issuer)
    requires issuer in Run(clock, acts).providers
    ensures Run(clock, acts).providers[issuer] < |Run(clock, acts).cells|
    ensures var s := Run(clock, acts);
      var cell := s.cells[s.providers[issuer]];
      var cs := Calls(cell.served);
      && WellTimed(cs) && GenerationsGrow(cs)
      && cell.entry == After(cs)
      && Ids(cell.served) <= cell.acquired && |cell.acquired| <= |cell.served| + 1 && Distinct(cell.acquired)
      && forall id :: id in s.threads && s.threads[id].issuer == issuer && s.threads[id].pc.Done? ==>
           exists k :: 0 <= k < |cs| && cell.served[k].id == id && s.threads[id].pc.answer == AnswerAt(cs, k)
  {
    RunKeepsInv(clock, acts);
    var s := Run(clock, acts);
    var o := s.providers[issuer];
    var served := s.cells[o].served;
    assert CellOk(s, o) && CellDataOk(s, o);
    forall id | id in s.threads && s.threads[id].issuer == issuer && s.threads[id].pc.Done?
      ensures exists k :: 0 <= k < |served| && served[k].id == id
                && s.threads[id].pc.answer == AnswerAt(Calls(served), k)
    {
      assert ThreadOk(s, id);
      var k :| 0 <= k < |served| && served[k].id == id && served[k].answer == s.threads[id].pc.answer;
    }
  }

  /** The sections settled for an issuer, as a history of the sequential cache. */
  function HistoryOf(s: State, issuer: Issuer): seq<Call> {
    if issuer in s.providers && s.providers[issuer] < |s.cells| then Calls(s.cells[s.providers[issuer]].served) else []
  }

  lemma HistoryOfRun(clock: Time, acts: seq<Action>, issuer: Issuer)
    ensures WellTimed(HistoryOf(Run(clock, acts), issuer)) && GenerationsGrow(HistoryOf(Run(clock, acts), issuer))
  {
    if issuer in Run(clock, acts).providers {
      ConcurrentRefinesSequential(clock, acts, issuer);
    }
  }

  /** When discoveries for an issuer started: those of settled sections and the one under way. */
  function DiscoveryStarts(s: State, issuer: Issuer): seq<Time> {
    Attempts(HistoryOf(s, issuer)) +
    if issuer in s.providers && s.providers[issuer] < |s.cells| then
      match s.cells[s.providers[issuer]].owner
      case Some(id) =>
        if id in s.threads && (s.threads[id].pc.InFlight? || s.threads[id].pc.Returned?) then
          [s.threads[id].pc.startedAt]
        else []
      case None => []
    else []
  }

  /**
   However many calls run at once, no window sees more discoveries start than
   the throttle allows, and one more for each whose request died under it.
   */
  lemma ConcurrentThrottle(clock: Time, acts: seq<Action>, issuer: Issuer, from: Time, w: nat)
    ensures CountWithin(DiscoveryStarts(Run(clock, acts), issuer), from, from + w)
         <= 1 + w / RETRY_DELAY + CountWithin(AbortedAttempts(HistoryOf(Run(clock, acts), issuer)), from, from + w)
  {
    RunKeepsInv(clock, acts);
    var s := Run(clock, acts);
    var cs := HistoryOf(s, issuer);
    HistoryOfRun(clock, acts, issuer);
    if DiscoveryStarts(s, issuer) == Attempts(cs) {
      DiscoveryThrottle(cs, from, w);
    } else {
      var o := s.providers[issuer];
      var id := s.cells[o].owner.value;
      assert CellOk(s, o) && CellDataOk(s, o) && ThreadDataOk(s, id);
      var pc := s.threads[id].pc;
      var soon := Call(pc.ttlRead, pc.retryRead, pc.startedAt, s.clock, Found(s.nextProvider), false);
      OneMoreAttempt(cs, soon, from, w);
    }
  }

  /**
   In every interleaving, a discovery that went out covers for the requests
   behind it, the next one and all later ones within the retry delay, exactly
   when it did not fail under a dead context.
   */
  lemma ConcurrentCoversIffNotAborted(clock: Time, acts: seq<Action>, issuer: Issuer, i: nat)
    requires i < |HistoryOf(Run(clock, acts), issuer)| && DiscoversAt(HistoryOf(Run(clock, acts), issuer), i)
    ensures var cs := HistoryOf(Run(clock, acts), issuer);
      && (CoversNext(cs, i) <==> !(cs[i].discovery.Failed? && cs[i].cancelled))
      && (CoversFuture(cs, i) <==> !(cs[i].discovery.Failed? && cs[i].cancelled))
  {
    HistoryOfRun(clock, acts, issuer);
    CoversNextIffNotAborted(HistoryOf(Run(clock, acts), issuer), i);
    CoversFutureIffNotAborted(HistoryOf(Run(clock, acts), issuer), i);
  }

  /** In every interleaving, later sections never see an older provider, nor an error once one was built. */
  lemma ConcurrentNeverRollsBack(clock: Time, acts: seq<Action>, issuer: Issuer, i: nat, j: nat)
    requires var cs := HistoryOf(Run(clock, acts), issuer); i <= j < |cs| && AnswerAt(cs, i).Ok?
    ensures var served := Run(clock, acts).cells[Run(clock, acts).providers[issuer]].served;
      served[j].answer.Ok? && served[i].answer.Ok? && served[i].answer.value <= served[j].answer.value
  {
    RunKeepsInv(clock, acts);
    var s := Run(clock, acts);
    HistoryOfRun(clock, acts, issuer);
    assert CellDataOk(s, s.providers[issuer]);
    AnswersNeverRollBack(HistoryOf(s, issuer), i, j);
  }

  /**
   In every interleaving, whoever is handed a provider past its TTL owes it to a
   discovery that failed in this very call or was recorded as failed less than
   the retry delay before.
   */
  lemma ConcurrentStaleOnlyAfterFailure(clock: Time, acts: seq<Action>, issuer: Issuer, k: nat) returns (i: nat)
    requires k < |HistoryOf(Run(clock, acts), issuer)|
    requires var cs := HistoryOf(Run(clock, acts), issuer);
      var served := Run(clock, acts).cells[Run(clock, acts).providers[issuer]].served;
      && Before(cs, k).provider.Some? && Before(cs, k).fetchedAt + JWKS_TTL <= cs[k].ttlRead
      && served[k].answer == Ok(Before(cs, k).provider.value) && !BuildsAt(cs, k)
    ensures var cs := HistoryOf(Run(clock, acts), issuer);
      && i <= k && DiscoversAt(cs, i) && cs[i].discovery.Failed?
      && (i < k ==> RecordsAt(cs, i) && cs[k].retryRead < cs[i].recordRead + RETRY_DELAY)
  {
    RunKeepsInv(clock, acts);
    var s := Run(clock, acts);
    HistoryOfRun(clock, acts, issuer);
    assert CellDataOk(s, s.providers[issuer]);
    i := StaleOnlyAfterFailure(HistoryOf(s, issuer), k);
  }

  /** In every interleaving, one retry delay after discovery stops failing nothing stale is handed out. */
  lemma ConcurrentFreshAfterRecovery(clock: Time, acts: seq<Action>, issuer: Issuer, k: nat, healthy: Time)
    requires var cs := HistoryOf(Run(clock, acts), issuer);
      && k < |cs|
      && (forall i :: 0 <= i < k && RecordsAt(cs, i) && cs[i].discovery.Failed? ==> cs[i].recordRead < healthy)
      && (DiscoversAt(cs, k) ==> cs[k].discovery.Found?)
      && healthy + RETRY_DELAY <= cs[k].retryRead
    ensures var cs := HistoryOf(Run(clock, acts), issuer);
      var served := Run(clock, acts).cells[Run(clock, acts).providers[issuer]].served;
      && served[k].answer.Ok?
      && (!BuildsAt(cs, k) ==>
            && Before(cs, k).provider == Some(served[k].answer.value)
            && cs[k].ttlRead < Before(cs, k).fetchedAt + JWKS_TTL)
  {
    RunKeepsInv(clock, acts);
    var s := Run(clock, acts);
    HistoryOfRun(clock, acts, issuer);
    assert CellDataOk(s, s.providers[issuer]);
    FreshAfterRecovery(HistoryOf(s, issuer), k, healthy);
  }

  // -------------------------------------------------- issuer isolation and deadlock freedom

  /** Nobody holds both mutexes, and nobody holds the map's while a discovery is under way. */
  lemma MutexesNeverNest(clock: Time, acts: seq<Action>, id: CallId)
    requires id in Run(clock, acts).threads
    ensures var s := Run(clock, acts);
      && (s.mapOwner == Some(id) ==> forall o :: 0 <= o < |s.cells| ==> s.cells[o].owner != Some(id))
      && (s.threads[id].pc.InFlight? ==> s.mapOwner != Some(id))
  {
    RunKeepsInv(clock, acts);
    var s := Run(clock, acts);
    assert ThreadOk(s, id);
    forall o | 0 <= o < |s.cells| && s.cells[o].owner == Some(id) ensures s.mapOwner != Some(id) {
      OwnsOnly(s, id, o);
    }
  }

  /** Two calls are never inside the same entry. */
  lemma EntryExclusive(clock: Time, acts: seq<Action>, a: CallId, b: CallId)
    requires a in Run(clock, acts).threads && b in Run(clock, acts).threads
    requires Run(clock, acts).threads[a].pc.HoldsEntry() && Run(clock, acts).threads[b].pc.HoldsEntry()
    requires a != b
    ensures Run(clock, acts).threads[a].pc.obj != Run(clock, acts).threads[b].pc.obj
  {
    RunKeepsInv(clock, acts);
    assert ThreadOk(Run(clock, acts), a) && ThreadOk(Run(clock, acts), b);
  }

  /** An issuer keeps its entry object for ever, and no other issuer ever gets it. */
  lemma EntriesNeverReplaced(clock: Time, acts: seq<Action>, more: seq<Action>)
    ensures MapOk(Exec(Run(clock, acts), more))
    ensures var s, s' := Run(clock, acts), Exec(Run(clock, acts), more);
      forall i :: i in s.providers ==> i in s'.providers && s'.providers[i] == s.providers[i]
  {
    RunKeepsInv(clock, acts);
    EntriesKept(Run(clock, acts), more);
  }

  lemma PerformKeepsEntries(s: State, a: Action)
    ensures forall i :: i in s.providers ==>
              i in Perform(s, a).providers && Perform(s, a).providers[i] == s.providers[i]
  {
  }

  lemma {:induction false} EntriesKept(s: State, acts: seq<Action>)
    requires Inv(s)
    ensures MapOk(Exec(s, acts))
    ensures forall i :: i in s.providers ==>
              i in Exec(s, acts).providers && Exec(s, acts).providers[i] == s.providers[i]
    decreases |acts|
  {
    if acts != [] {
      PerformKeepsInv(s, acts[0]);
      PerformKeepsEntries(s, acts[0]);
      EntriesKept(Perform(s, acts[0]), acts[1..]);
    }
  }

  /** What may stand between a call and its next step: a look at the map, or a call for the same issuer. */
  predicate InFrontOf(s: State, next: CallId, id: CallId) {
    && next in s.threads && id in s.threads
    && ((s.threads[id].pc.Start? && s.threads[next].pc.HoldsMap())
        || (s.threads[id].pc.EntryWait? && s.threads[next].pc.HoldsEntry()
            && s.threads[next].issuer == s.threads[id].issuer))
  }

  /**
   An unfinished call can step, or waits for one that can: one that holds the
   map, and so is not discovering anything, or one for the same issuer.
   */
  lemma DeadlockFree(clock: Time, acts: seq<Action>, id: CallId) returns (next: CallId)
    requires id in Run(clock, acts).threads && !Run(clock, acts).threads[id].pc.Done?
    ensures Enabled(Run(clock, acts), next)
    ensures next == id || (!Enabled(Run(clock, acts), id) && InFrontOf(Run(clock, acts), next, id))
  {
    RunKeepsInv(clock, acts);
    next := InFront(Run(clock, acts), id);
  }

  lemma InFront(s: State, id: CallId) returns (next: CallId)
    requires Inv(s) && id in s.threads && !s.threads[id].pc.Done?
    ensures Enabled(s, next) && (Enabled(s, id) ==> next == id)
    ensures next == id || InFrontOf(s, next, id)
  {
    next := Unblocked(s, id);
    assert ThreadOk(s, id) && ThreadOk(s, next);
    if next != id && s.threads[id].pc.EntryWait? {
      HolderIssuer(s, next, s.threads[id].issuer);
    }
  }

  /** The call that id waits for, or id itself. */
  lemma Unblocked(s: State, id: CallId) returns (next: CallId)
    requires Inv(s) && id in s.threads && !s.threads[id].pc.Done?
    ensures Enabled(s, next)
    ensures Enabled(s, id) ==> next == id
    ensures s.threads[id].pc.Start? && next != id ==> s.mapOwner == Some(next)
    ensures s.threads[id].pc.EntryWait? ==> s.threads[id].pc.obj < |s.cells|
    ensures s.threads[id].pc.EntryWait? && next != id ==> s.cells[s.threads[id].pc.obj].owner == Some(next)
    ensures next != id ==> s.threads[id].pc.Start? || s.threads[id].pc.EntryWait?
  {
    var pc := s.threads[id].pc;
    assert ThreadOk(s, id);
    next := id;
    if pc.Start? && s.mapOwner.Some? {
      next := s.mapOwner.value;
    } else if pc.EntryWait? && s.cells[pc.obj].owner.Some? {
      next := s.cells[pc.obj].owner.value;
      assert CellOk(s, pc.obj);
    }
    assert ThreadOk(s, next);
  }

  /** The clock stands still and no discovery ever returns: other calls may only finish what needs no network. */
  ghost predicate Unaided(s: State, acts: seq<Action>)
    decreases |acts|
  {
    acts == [] ||
    (&& acts[0].Step?
     && (acts[0].id in s.threads ==> !s.threads[acts[0].id].pc.InFlight?)
     && Unaided(Perform(s, acts[0]), acts[1..]))
  }

  function StepsLeft(pc: Pc): nat {
    match pc
    case Start => 6
    case MapLocked => 5
    case MapRead(_) => 4
    case EntryWait(_) => 3
    case TtlCheck(_) => 2
    case Releasing(_, _) => 1
    case _ => 0
  }

  /** Who holds the mutex that id waits for. */
  function Ahead(s: State, id: CallId): Option<CallId>
    requires id in s.threads
  {
    var pc := s.threads[id].pc;
    var ahead :=
      if pc.Start? then s.mapOwner
      else if pc.EntryWait? && pc.obj < |s.cells| then s.cells[pc.obj].owner
      else None;
    if ahead.Some? && ahead.value in s.threads && ahead.value != id then ahead else None
  }

  /** How far the call in front of id is from letting it in. */
  function StepsAhead(s: State, id: CallId): nat {
    if id in s.threads && Ahead(s, id).Some? then 1 + StepsLeft(s.threads[Ahead(s, id).value].pc) else 0
  }

  /** The provider cached for an issuer, still within its TTL. */
  predicate CachedFresh(s: State, issuer: Issuer, p: Provider) {
    && issuer in s.providers && s.providers[issuer] < |s.cells|
    && var e := s.cells[s.providers[issuer]].entry;
       Fresh(e, s.clock) && e.provider == Some(p)
  }

  /** The call is on its way to the fresh provider p. */
  predicate OnCourse(s: State, id: CallId, p: Provider) {
    && id in s.threads && CachedFresh(s, s.threads[id].issuer, p)
    && (s.threads[id].pc.Answered() ==> s.threads[id].pc.answer == Ok(p))
  }

  /** Inside a fresh entry there is nothing to wait for. */
  lemma FreshHolder(s: State, id: CallId, p: Provider)
    requires Inv(s) && id in s.threads && CachedFresh(s, s.threads[id].issuer, p)
    ensures s.threads[id].pc.HoldsEntry() ==> s.threads[id].pc.TtlCheck? || s.threads[id].pc.Releasing?
  {
    assert ThreadOk(s, id) && ThreadDataOk(s, id);
  }

  /** Whoever holds a fresh issuer's entry is a call for that issuer. */
  lemma HolderIssuer(s: State, id: CallId, issuer: Issuer)
    requires Inv(s) && id in s.threads && issuer in s.providers && s.cells[s.providers[issuer]].owner == Some(id)
    ensures s.threads[id].issuer == issuer && s.threads[id].pc.HoldsEntry()
  {
    assert CellOk(s, s.providers[issuer]);
    assert ThreadOk(s, id);
  }

  /** One unaided step by id or by the call in front of it. */
  lemma FreshStep(s: State, id: CallId, p: Provider) returns (a: Action)
    requires Inv(s) && id in s.threads && CachedFresh(s, s.threads[id].issuer, p)
    requires !s.threads[id].pc.Done? && (s.threads[id].pc.Releasing? ==> s.threads[id].pc.answer == Ok(p))
    ensures a.Step? && a.id in s.threads && !s.threads[a.id].pc.InFlight?
    ensures var s' := Perform(s, a);
      && id in s'.threads && s'.threads[id].issuer == s.threads[id].issuer
      && CachedFresh(s', s.threads[id].issuer, p)
      && (s'.threads[id].pc.Answered() ==> s'.threads[id].pc.answer == Ok(p))
      && (|| StepsLeft(s'.threads[id].pc) < StepsLeft(s.threads[id].pc)
          || (s'.threads[id].pc == s.threads[id].pc && StepsAhead(s', id) < StepsAhead(s, id)))
  {
    var next := Unblocked(s, id);
    a := Step(next, Choice(None, false));
    var issuer := s.threads[id].issuer;
    FreshHolder(s, id, p);
    assert ThreadOk(s, id) && ThreadOk(s, next);
    if next != id && s.threads[id].pc.EntryWait? {
      HolderIssuer(s, next, issuer);
      FreshHolder(s, next, p);
    }
  }

  lemma {:induction false} FinishFresh(s: State, id: CallId, p: Provider) returns (acts: seq<Action>)
    requires Inv(s) && OnCourse(s, id, p)
    ensures Unaided(s, acts)
    ensures id in Exec(s, acts).threads && Exec(s, acts).threads[id].pc == Done(Ok(p))
    decreases StepsLeft(s.threads[id].pc), StepsAhead(s, id)
  {
    if s.threads[id].pc.Done? {
      acts := [];
    } else {
      var a := FreshStep(s, id, p);
      PerformKeepsInv(s, a);
      var rest := FinishFresh(Perform(s, a), id, p);
      acts := [a] + rest;
    }
  }

  /**
   A call for an issuer whose cached provider is fresh completes with that
   provider by steps of its own and of the calls directly in front of it, none
   of which is the return of a discovery: other issuers may hang for ever.
   */
  lemma FreshCallCompletes(clock: Time, acts: seq<Action>, id: CallId, p: Provider) returns (more: seq<Action>)
    requires OnCourse(Run(clock, acts), id, p)
    ensures Unaided(Run(clock, acts), more)
    ensures var s' := Exec(Run(clock, acts), more); id in s'.threads && s'.threads[id].pc == Done(Ok(p))
  {
    RunKeepsInv(clock, acts);
    more := FinishFresh(Run(clock, acts), id, p);
  }

  /** How many steps a call really takes in a continuation. */
  function OwnSteps(s: State, acts: seq<Action>, id: CallId): nat
    decreases |acts|
  {
    if acts == [] then 0
    else
      (if acts[0].Step? && acts[0].id == id && Enabled(s, id) then 1 else 0)
      + OwnSteps(Perform(s, acts[0]), acts[1..], id)
  }

  /** The call is still on its way, and to the same entry. */
  predicate KeepsCourse(s: State, s': State, id: CallId, p: Provider)
    requires OnCourse(s, id, p)
  {
    && OnCourse(s', id, p) && s'.threads[id].issuer == s.threads[id].issuer
    && EntryOf(s', id) == EntryOf(s, id)
  }

  /** The entry of the call's issuer. */
  function EntryOf(s: State, id: CallId): Entry
    requires id in s.threads && s.threads[id].issuer in s.providers
    requires s.providers[s.threads[id].issuer] < |s.cells|
  {
    s.cells[s.providers[s.threads[id].issuer]].entry
  }

  lemma OwnStepOnCourse(s: State, id: CallId, choice: Choice, p: Provider)
    requires Inv(s) && OnCourse(s, id, p) && Enabled(s, id)
    ensures KeepsCourse(s, Advance(s, id, choice), id, p)
    ensures StepsLeft(Advance(s, id, choice).threads[id].pc) + 1 == StepsLeft(s.threads[id].pc)
  {
    FreshHolder(s, id, p);
    assert ThreadOk(s, id);
  }

  /** A step leaves an entry alone that the caller does not hold, only unlocks, or finds fresh. */
  lemma StepSparesEntry(s: State, other: CallId, choice: Choice, o: Obj)
    requires Enabled(s, other) && o < |s.cells|
    requires var pc := s.threads[other].pc;
      pc.HoldsEntry() && pc.obj == o ==> pc.Releasing? || (pc.TtlCheck? && Fresh(s.cells[o].entry, s.clock))
    ensures o < |Advance(s, other, choice).cells| && Advance(s, other, choice).cells[o].entry == s.cells[o].entry
  {
  }

  /** A step moves nobody else and keeps every issuer's entry object. */
  lemma StepSparesOthers(s: State, other: CallId, choice: Choice, id: CallId, issuer: Issuer)
    requires Enabled(s, other) && other != id && id in s.threads && issuer in s.providers
    ensures var s' := Advance(s, other, choice);
      && s'.clock == s.clock && id in s'.threads && s'.threads[id] == s.threads[id]
      && issuer in s'.providers && s'.providers[issuer] == s.providers[issuer]
  {
  }

  lemma OthersStepOnCourse(s: State, id: CallId, other: CallId, choice: Choice, p: Provider)
    requires Inv(s) && OnCourse(s, id, p) && Enabled(s, other) && other != id
    ensures KeepsCourse(s, Advance(s, other, choice), id, p)
    ensures Advance(s, other, choice).threads[id].pc == s.threads[id].pc
  {
    assert ThreadOk(s, other);
    if s.threads[other].pc.HoldsEntry() && s.threads[other].pc.obj == s.providers[s.threads[id].issuer] {
      HolderIssuer(s, other, s.threads[id].issuer);
      FreshHolder(s, other, p);
    }
    StepSparesOthers(s, other, choice, id, s.threads[id].issuer);
    StepSparesEntry(s, other, choice, s.providers[s.threads[id].issuer]);
  }

  lemma StaysOnCourse(s: State, a: Action, id: CallId, p: Provider)
    requires Inv(s) && OnCourse(s, id, p) && Perform(s, a).clock - EntryOf(s, id).fetchedAt < JWKS_TTL
    ensures KeepsCourse(s, Perform(s, a), id, p)
    ensures StepsLeft(Perform(s, a).threads[id].pc) + (if a.Step? && a.id == id && Enabled(s, id) then 1 else 0)
         == StepsLeft(s.threads[id].pc)
  {
    if a.Step? && Enabled(s, a.id) {
      if a.id == id {
        OwnStepOnCourse(s, id, a.choice, p);
      } else {
        OthersStepOnCourse(s, id, a.id, a.choice, p);
      }
    }
  }

  lemma {:induction false} FreshCourse(s: State, acts: seq<Action>, id: CallId, p: Provider)
    requires Inv(s) && OnCourse(s, id, p) && Exec(s, acts).clock - EntryOf(s, id).fetchedAt < JWKS_TTL
    ensures OnCourse(Exec(s, acts), id, p)
    ensures StepsLeft(Exec(s, acts).threads[id].pc) + OwnSteps(s, acts, id) == StepsLeft(s.threads[id].pc)
    decreases |acts|
  {
    if acts != [] {
      ClockForward(Perform(s, acts[0]), acts[1..]);
      StaysOnCourse(s, acts[0], id, p);
      PerformKeepsInv(s, acts[0]);
      FreshCourse(Perform(s, acts[0]), acts[1..], id, p);
    }
  }

  lemma {:induction false} ClockForward(s: State, acts: seq<Action>)
    ensures s.clock <= Exec(s, acts).clock
    decreases |acts|
  {
    if acts != [] {
      ClockForward(Perform(s, acts[0]), acts[1..]);
    }
  }

  /**
   Whatever the schedule and the environment do while the provider stays fresh,
   such a call is done after at most six steps of its own; until then it can
   step, or a call in front of it can that is not waiting for a discovery.
   */
  lemma FreshCallNeverHeldUp(clock: Time, acts: seq<Action>, more: seq<Action>, id: CallId, p: Provider)
    returns (next: CallId)
    requires OnCourse(Run(clock, acts), id, p)
    requires Exec(Run(clock, acts), more).clock - EntryOf(Run(clock, acts), id).fetchedAt < JWKS_TTL
    ensures OnCourse(Exec(Run(clock, acts), more), id, p)
    ensures OwnSteps(Run(clock, acts), more, id) <= 6
    ensures OwnSteps(Run(clock, acts), more, id) == StepsLeft(Run(clock, acts).threads[id].pc) ==>
              Exec(Run(clock, acts), more).threads[id].pc == Done(Ok(p))
    ensures var s' := Exec(Run(clock, acts), more);
      !s'.threads[id].pc.Done? ==>
        && Enabled(s', next) && !s'.threads[next].pc.InFlight?
        && (next == id || InFrontOf(s', next, id))
  {
    RunKeepsInv(clock, acts);
    var s := Run(clock, acts);
    var s' := Exec(s, more);
    ExecKeepsInv(s, more);
    FreshCourse(s, more, id, p);
    FreshHolder(s', id, p);
    next := id;
    if !s'.threads[id].pc.Done? {
      next := InFront(s', id);
      if s'.threads[next].pc.HoldsEntry() {
        assert ThreadOk(s', next);
        FreshHolder(s', next, p);
      }
    }
  }

  // ------------------------------------------------------------ when the next call goes out

  /** A discovery of the call has begun in this span. */
  predicate WentOut(pc: Pc, from: Time, before: Time) {
    (pc.InFlight? || pc.Returned?) && from <= pc.startedAt < before
  }

  ghost predicate SomeoneOut(s: State, issuer: Issuer, from: Time, before: Time) {
    exists n :: n in s.threads && s.threads[n].issuer == issuer && WentOut(s.threads[n].pc, from, before)
  }

  /** In some continuation somebody does. */
  ghost predicate MayGoOut(s: State, issuer: Issuer, from: Time, before: Time) {
    exists more :: SomeoneOut(Exec(s, more), issuer, from, before)
  }

  /** A call for the issuer that has no answer yet. */
  predicate Unanswered(s: State, id: CallId, issuer: Issuer) {
    id in s.threads && s.threads[id].issuer == issuer && !s.threads[id].pc.Answered()
  }

  /** The issuer's last section settled at this moment and left an entry that calls for a discovery now. */
  predicate Due(s: State, issuer: Issuer, settled: Time) {
    && issuer in s.providers && s.providers[issuer] < |s.cells|
    && var cell := s.cells[s.providers[issuer]];
    && cell.served != [] && cell.served[|cell.served| - 1].call.recordRead == settled
    && !Fresh(cell.entry, s.clock) && !BackingOff(cell.entry, s.clock)
  }

  function RoadLeft(pc: Pc): nat {
    match pc
    case Start => 7
    case MapLocked => 6
    case MapRead(_) => 5
    case EntryWait(_) => 4
    case TtlCheck(_) => 3
    case RetryCheck(_, _) => 2
    case Dialing(_, _, _) => 1
    case Releasing(_, _) => 1
    case _ => 0
  }

  function RoadAhead(s: State, id: CallId): nat {
    if id in s.threads && Ahead(s, id).Some? then 1 + RoadLeft(s.threads[Ahead(s, id).value].pc) else 0
  }

  /** Whoever is on the network for a due issuer went there after the last section settled. */
  lemma OutIsRecent(s: State, n: CallId, issuer: Issuer, settled: Time)
    requires Inv(s) && Due(s, issuer, settled) && n in s.threads && s.threads[n].issuer == issuer
    requires s.threads[n].pc.InFlight? || s.threads[n].pc.Returned?
    ensures SomeoneOut(s, issuer, settled, s.clock + 1)
  {
    assert ThreadOk(s, n) && ThreadDataOk(s, n);
    assert WentOut(s.threads[n].pc, settled, s.clock + 1);
  }

  /** Nothing about a due issuer changes while a call moves that is not on the network yet. */
  lemma StaysDue(s: State, n: CallId, issuer: Issuer, settled: Time)
    requires Inv(s) && Due(s, issuer, settled) && Enabled(s, n)
    requires s.threads[n].pc.Pending() ==> s.threads[n].issuer == issuer
    requires !s.threads[n].pc.InFlight? && !s.threads[n].pc.Returned?
    ensures var s' := Advance(s, n, Choice(None, false));
      && Due(s', issuer, settled) && s'.clock == s.clock && s'.threads.Keys == s.threads.Keys
      && forall t :: t in s.threads && t != n ==> s'.threads[t] == s.threads[t]
  {
    assert ThreadOk(s, n);
    QuietStepFrame(s, n, Choice(None, false));
    StepKeepsProvider(s, n, issuer);
  }

  lemma StepKeepsProvider(s: State, n: CallId, issuer: Issuer)
    requires Enabled(s, n) && issuer in s.providers
    ensures var s' := Advance(s, n, Choice(None, false));
      issuer in s'.providers && s'.providers[issuer] == s.providers[issuer]
  {
  }

  lemma OwnStepCloser(s: State, id: CallId, issuer: Issuer, settled: Time)
    requires MapOk(s) && Due(s, issuer, settled) && Unanswered(s, id, issuer) && Enabled(s, id) && ThreadOk(s, id)
    requires !s.threads[id].pc.InFlight? && !s.threads[id].pc.Returned?
    ensures var s' := Advance(s, id, Choice(None, false));
      Unanswered(s', id, issuer) && RoadLeft(s'.threads[id].pc) < RoadLeft(s.threads[id].pc)
  {
  }

  /** A call in front lets go of the mutex or comes closer to that. */
  lemma FrontStepCloser(s: State, id: CallId, n: CallId, issuer: Issuer, settled: Time)
    requires MapOk(s) && Due(s, issuer, settled) && Unanswered(s, id, issuer) && Enabled(s, n) && n != id
    requires ThreadOk(s, id) && ThreadOk(s, n) && InFrontOf(s, n, id)
    requires !s.threads[n].pc.InFlight? && !s.threads[n].pc.Returned?
    ensures RoadAhead(Advance(s, n, Choice(None, false)), id) < RoadAhead(s, id)
  {
  }

  /** One step, by id or by whoever is in front of it, brings the next discovery closer. */
  lemma OneCloser(s: State, id: CallId, issuer: Issuer, settled: Time) returns (n: CallId)
    requires Inv(s) && Due(s, issuer, settled) && Unanswered(s, id, issuer)
    requires !SomeoneOut(s, issuer, settled, s.clock + 1)
    ensures Enabled(s, n)
    ensures var s' := Advance(s, n, Choice(None, false));
      && s'.clock == s.clock && Due(s', issuer, settled) && Unanswered(s', id, issuer)
      && (|| RoadLeft(s'.threads[id].pc) < RoadLeft(s.threads[id].pc)
          || (s'.threads[id].pc == s.threads[id].pc && RoadAhead(s', id) < RoadAhead(s, id)))
  {
    n := InFront(s, id);
    assert ThreadOk(s, id) && ThreadOk(s, n);
    if s.threads[n].issuer == issuer && (s.threads[n].pc.InFlight? || s.threads[n].pc.Returned?) {
      OutIsRecent(s, n, issuer, settled);
      assert false;
    }
    StaysDue(s, n, issuer, settled);
    if n == id {
      OwnStepCloser(s, id, issuer, settled);
    } else {
      FrontStepCloser(s, id, n, issuer, settled);
    }
  }

  lemma {:induction false} ReachesNetwork(s: State, id: CallId, issuer: Issuer, settled: Time)
    returns (more: seq<Action>)
    requires Inv(s) && Due(s, issuer, settled) && Unanswered(s, id, issuer)
    ensures SomeoneOut(Exec(s, more), issuer, settled, s.clock + 1)
    decreases RoadLeft(s.threads[id].pc), RoadAhead(s, id)
  {
    if SomeoneOut(s, issuer, settled, s.clock + 1) {
      more := [];
    } else {
      var n := OneCloser(s, id, issuer, settled);
      var a := Step(n, Choice(None, false));
      PerformKeepsInv(s, a);
      var rest := ReachesNetwork(Perform(s, a), id, issuer, settled);
      more := [a] + rest;
    }
  }

  /** Histories only grow. */
  lemma ServedGrows(s: State, a: Action, o: Obj)
    requires o < |s.cells|
    ensures o < |Perform(s, a).cells| && s.cells[o].served <= Perform(s, a).cells[o].served
  {
  }

  lemma {:induction false} HistoryKept(s: State, acts: seq<Action>, issuer: Issuer)
    requires Inv(s) && issuer in s.providers
    ensures HistoryOf(s, issuer) <= HistoryOf(Exec(s, acts), issuer) && issuer in Exec(s, acts).providers
    decreases |acts|
  {
    if acts != [] {
      var s' := Perform(s, acts[0]);
      EntriesKept(s, [acts[0]]);
      assert Exec(s, [acts[0]]) == Exec(s', []) == s';
      ServedGrows(s, acts[0], s.providers[issuer]);
      PerformKeepsInv(s, acts[0]);
      HistoryKept(s', acts[1..], issuer);
    }
  }

  /** While the record of a discovery is young, nobody is on the network who went there since. */
  lemma RecordKeepsAllIn(s: State, issuer: Issuer, i: nat)
    requires Inv(s) && i < |HistoryOf(s, issuer)| && RecordsAt(HistoryOf(s, issuer), i)
    ensures var settled := HistoryOf(s, issuer)[i].recordRead;
      !SomeoneOut(s, issuer, settled, settled + RETRY_DELAY)
  {
    var cs := HistoryOf(s, issuer);
    assert CellDataOk(s, s.providers[issuer]);
    SinceRecorded(cs, i, |cs|);
    assert cs[..|cs|] == cs;
    forall n | n in s.threads && s.threads[n].issuer == issuer
      ensures !WentOut(s.threads[n].pc, cs[i].recordRead, cs[i].recordRead + RETRY_DELAY)
    {
      assert ThreadOk(s, n) && ThreadDataOk(s, n);
    }
  }

  /**
   In every run whose last section for the issuer ran a discovery less than the
   retry delay ago: some schedule sends another call out before the delay is
   over exactly when that discovery failed under a dead context. A waiting call
   suffices, or one that arrives now.
   */
  lemma NextGoesOutIffAborted(clock: Time, acts: seq<Action>, issuer: Issuer, id: CallId)
    requires HistoryOf(Run(clock, acts), issuer) != []
    requires var s, cs := Run(clock, acts), HistoryOf(Run(clock, acts), issuer);
      && DiscoversAt(cs, |cs| - 1) && s.clock < cs[|cs| - 1].recordRead + RETRY_DELAY
      && (id in s.threads ==> Unanswered(s, id, issuer))
    ensures var cs := HistoryOf(Run(clock, acts), issuer);
      var c := cs[|cs| - 1];
      MayGoOut(Run(clock, acts), issuer, c.recordRead, c.recordRead + RETRY_DELAY)
      <==> c.discovery.Failed? && c.cancelled
  {
    RunKeepsInv(clock, acts);
    var s, cs := Run(clock, acts), HistoryOf(Run(clock, acts), issuer);
    var i := |cs| - 1;
    var settled := cs[i].recordRead;
    if cs[i].discovery.Failed? && cs[i].cancelled {
      var more := AbortedLetsOut(s, issuer, id);
      SpanGrows(Exec(s, more), issuer, settled, s.clock + 1, settled + RETRY_DELAY);
    } else {
      forall more ensures !SomeoneOut(Exec(s, more), issuer, settled, settled + RETRY_DELAY) {
        HistoryKept(s, more, issuer);
        ExecKeepsInv(s, more);
        var cs' := HistoryOf(Exec(s, more), issuer);
        assert cs'[..i] == cs[..i] && cs'[i] == cs[i];
        RecordKeepsAllIn(Exec(s, more), issuer, i);
      }
    }
  }

  lemma SpanGrows(s: State, issuer: Issuer, from: Time, before: Time, later: Time)
    requires SomeoneOut(s, issuer, from, before) && before <= later
    ensures SomeoneOut(s, issuer, from, later)
  {
    var n :| n in s.threads && s.threads[n].issuer == issuer && WentOut(s.threads[n].pc, from, before);
    assert WentOut(s.threads[n].pc, from, later);
  }

  /** An aborted section leaves the entry as it found it, due for a discovery. */
  lemma AbortedLeavesDue(s: State, issuer: Issuer)
    requires Inv(s) && HistoryOf(s, issuer) != []
    requires AbortedAt(HistoryOf(s, issuer), |HistoryOf(s, issuer)| - 1)
    ensures Due(s, issuer, HistoryOf(s, issuer)[|HistoryOf(s, issuer)| - 1].recordRead)
  {
    var cs := HistoryOf(s, issuer);
    assert CellDataOk(s, s.providers[issuer]);
    assert cs[..|cs|] == cs;
    BeforeNext(cs, |cs| - 1);
  }

  lemma AbortedLetsOut(s: State, issuer: Issuer, id: CallId) returns (more: seq<Action>)
    requires Inv(s) && HistoryOf(s, issuer) != []
    requires AbortedAt(HistoryOf(s, issuer), |HistoryOf(s, issuer)| - 1)
    requires id in s.threads ==> Unanswered(s, id, issuer)
    ensures SomeoneOut(Exec(s, more), issuer, HistoryOf(s, issuer)[|HistoryOf(s, issuer)| - 1].recordRead, s.clock + 1)
  {
    var settled := HistoryOf(s, issuer)[|HistoryOf(s, issuer)| - 1].recordRead;
    AbortedLeavesDue(s, issuer);
    if id in s.threads {
      more := ReachesNetwork(s, id, issuer, settled);
    } else {
      var a := Arrive(id, issuer);
      PerformKeepsInv(s, a);
      var rest := ReachesNetwork(Perform(s, a), id, issuer, settled);
      more := [a] + rest;
    }
  }

  // ------------------------------------------------- every sequential history happens in a run

  /** What is cached for an issuer, whether or not anybody has asked for it yet. */
  function EntryFor(s: State, issuer: Issuer): Entry {
    if issuer in s.providers && s.providers[issuer] < |s.cells| then s.cells[s.providers[issuer]].entry else EMPTY
  }

  /** Nobody holds the map or the issuer's entry. */
  predicate Idle(s: State, issuer: Issuer) {
    && s.mapOwner.None?
    && (issuer in s.providers ==>
          s.providers[issuer] < |s.cells| && s.cells[s.providers[issuer]].owner.None?)
  }

  /** How the cache is found when a section is over. */
  datatype Aftermath = Aftermath(entry: Entry, answer: Result<Provider, Failure>, next: Provider)

  /** What one section does to an entry, with the number of the next provider to be built. */
  function AftermathOf(e: Entry, c: Call, next: Provider): Aftermath {
    Aftermath(Next(e, c), Answer(e, c), if Discovers(e, c) && c.discovery.Found? then next + 1 else next)
  }

  ghost predicate OthersSame(s: State, s': State, id: CallId) {
    forall t :: t != id ==>
      (t in s'.threads <==> t in s.threads) && (t in s.threads ==> s'.threads[t] == s.threads[t])
  }

  /** These actions end the call with this aftermath, no later than until, and disturb no other call. */
  ghost predicate Leaves(s: State, acts: seq<Action>, id: CallId, issuer: Issuer, a: Aftermath, until: Time) {
    var s' := Exec(s, acts);
    && id in s'.threads && s'.threads[id].pc == Done(a.answer)
    && Idle(s', issuer) && EntryFor(s', issuer) == a.entry && s'.nextProvider == a.next
    && s.clock <= s'.clock <= until
    && OthersSame(s, s', id)
  }

  lemma LeavesCons(s: State, x: Action, rest: seq<Action>, id: CallId, issuer: Issuer, a: Aftermath, until: Time)
    requires Leaves(Perform(s, x), rest, id, issuer, a, until) && s.clock <= Perform(s, x).clock
    requires OthersSame(s, Perform(s, x), id)
    ensures Leaves(s, [x] + rest, id, issuer, a, until)
  {
    assert ([x] + rest)[1..] == rest;
  }

  /** The call is inside the issuer's critical section and the map is free. */
  predicate Inside(s: State, id: CallId, issuer: Issuer) {
    && id in s.threads && s.threads[id].issuer == issuer && s.threads[id].pc.HoldsEntry()
    && issuer in s.providers && s.providers[issuer] == s.threads[id].pc.obj < |s.cells|
    && s.cells[s.providers[issuer]].owner == Some(id) && s.mapOwner.None?
  }

  const DULL := Choice(None, false)

  lemma ReleasingLeaves(s: State, id: CallId, issuer: Issuer, until: Time) returns (acts: seq<Action>)
    requires Inside(s, id, issuer) && s.threads[id].pc.Releasing? && s.clock <= until
    ensures Leaves(s, acts, id, issuer, Aftermath(EntryFor(s, issuer), s.threads[id].pc.answer, s.nextProvider), until)
  {
    var a := Aftermath(EntryFor(s, issuer), s.threads[id].pc.answer, s.nextProvider);
    var x := Step(id, DULL);
    assert Exec(Perform(s, x), []) == Perform(s, x);
    LeavesCons(s, x, [], id, issuer, a, until);
    acts := [x] + [];
  }

  /** Wait until then. */
  function Until(s: State, at: Time): Action
    requires s.clock <= at
  {
    Tick(at - s.clock)
  }

  lemma ReturnedLeaves(s: State, id: CallId, issuer: Issuer, c: Call) returns (acts: seq<Action>)
    requires Inside(s, id, issuer) && s.threads[id].pc.Returned? && s.clock <= c.recordRead
    requires s.threads[id].pc.discovery == c.discovery && Discovers(EntryFor(s, issuer), c)
    ensures Leaves(s, acts, id, issuer, AftermathOf(EntryFor(s, issuer), c, s.nextProvider)
                   .(next := s.nextProvider), c.recordRead)
  {
    var a := AftermathOf(EntryFor(s, issuer), c, s.nextProvider).(next := s.nextProvider);
    var wait, record := Until(s, c.recordRead), Step(id, Choice(None, c.cancelled));
    var s1 := Perform(s, wait);
    var s2 := Perform(s1, record);
    var rest := ReleasingLeaves(s2, id, issuer, c.recordRead);
    LeavesCons(s1, record, rest, id, issuer, a, c.recordRead);
    LeavesCons(s, wait, [record] + rest, id, issuer, a, c.recordRead);
    acts := [wait] + ([record] + rest);
  }

  lemma DialingLeaves(s: State, id: CallId, issuer: Issuer, c: Call) returns (acts: seq<Action>)
    requires Inside(s, id, issuer) && s.threads[id].pc.Dialing? && s.clock <= c.startedAt <= c.recordRead
    requires Discovers(EntryFor(s, issuer), c) && (c.discovery.Found? ==> c.discovery.provider == s.nextProvider)
    ensures Leaves(s, acts, id, issuer, AftermathOf(EntryFor(s, issuer), c, s.nextProvider), c.recordRead)
  {
    var a := AftermathOf(EntryFor(s, issuer), c, s.nextProvider);
    var failure := match c.discovery case Found(_) => None case Failed(f) => Some(f);
    var wait, dial, answer := Until(s, c.startedAt), Step(id, DULL), Step(id, Choice(failure, false));
    var s1 := Perform(s, wait);
    var s2 := Perform(s1, dial);
    var s3 := Perform(s2, answer);
    var rest := ReturnedLeaves(s3, id, issuer, c);
    LeavesCons(s2, answer, rest, id, issuer, a, c.recordRead);
    LeavesCons(s1, dial, [answer] + rest, id, issuer, a, c.recordRead);
    LeavesCons(s, wait, [dial] + ([answer] + rest), id, issuer, a, c.recordRead);
    acts := [wait] + ([dial] + ([answer] + rest));
  }

  lemma RetryCheckLeaves(s: State, id: CallId, issuer: Issuer, c: Call) returns (acts: seq<Action>)
    requires Inside(s, id, issuer) && s.threads[id].pc.RetryCheck? && c.Ordered() && s.clock <= c.retryRead
    requires !Fresh(EntryFor(s, issuer), c.ttlRead)
    requires Discovers(EntryFor(s, issuer), c) && c.discovery.Found? ==> c.discovery.provider == s.nextProvider
    ensures Leaves(s, acts, id, issuer, AftermathOf(EntryFor(s, issuer), c, s.nextProvider), c.recordRead)
  {
    var a := AftermathOf(EntryFor(s, issuer), c, s.nextProvider);
    var wait, check := Until(s, c.retryRead), Step(id, DULL);
    var s1 := Perform(s, wait);
    var s2 := Perform(s1, check);
    var rest;
    if BackingOff(EntryFor(s, issuer), c.retryRead) {
      rest := ReleasingLeaves(s2, id, issuer, c.recordRead);
    } else {
      rest := DialingLeaves(s2, id, issuer, c);
    }
    LeavesCons(s1, check, rest, id, issuer, a, c.recordRead);
    LeavesCons(s, wait, [check] + rest, id, issuer, a, c.recordRead);
    acts := [wait] + ([check] + rest);
  }

  lemma TtlCheckLeaves(s: State, id: CallId, issuer: Issuer, c: Call) returns (acts: seq<Action>)
    requires Inside(s, id, issuer) && s.threads[id].pc.TtlCheck? && c.Ordered() && s.clock <= c.ttlRead
    requires Discovers(EntryFor(s, issuer), c) && c.discovery.Found? ==> c.discovery.provider == s.nextProvider
    ensures Leaves(s, acts, id, issuer, AftermathOf(EntryFor(s, issuer), c, s.nextProvider), c.recordRead)
  {
    var a := AftermathOf(EntryFor(s, issuer), c, s.nextProvider);
    var wait, check := Until(s, c.ttlRead), Step(id, DULL);
    var s1 := Perform(s, wait);
    var s2 := Perform(s1, check);
    var rest;
    if Fresh(EntryFor(s, issuer), c.ttlRead) {
      rest := ReleasingLeaves(s2, id, issuer, c.recordRead);
    } else {
      rest := RetryCheckLeaves(s2, id, issuer, c);
    }
    LeavesCons(s1, check, rest, id, issuer, a, c.recordRead);
    LeavesCons(s, wait, [check] + rest, id, issuer, a, c.recordRead);
    acts := [wait] + ([check] + rest);
  }

  lemma EntryWaitLeaves(s: State, id: CallId, issuer: Issuer, c: Call) returns (acts: seq<Action>)
    requires id in s.threads && s.threads[id].issuer == issuer
    requires issuer in s.providers && s.threads[id].pc == EntryWait(s.providers[issuer]) && Idle(s, issuer)
    requires c.Ordered() && s.clock <= c.ttlRead
    requires Discovers(EntryFor(s, issuer), c) && c.discovery.Found? ==> c.discovery.provider == s.nextProvider
    ensures Leaves(s, acts, id, issuer, AftermathOf(EntryFor(s, issuer), c, s.nextProvider), c.recordRead)
  {
    var a := AftermathOf(EntryFor(s, issuer), c, s.nextProvider);
    var x := Step(id, DULL);
    var rest := TtlCheckLeaves(Perform(s, x), id, issuer, c);
    LeavesCons(s, x, rest, id, issuer, a, c.recordRead);
    acts := [x] + rest;
  }

  lemma MapReadLeaves(s: State, id: CallId, issuer: Issuer, c: Call) returns (acts: seq<Action>)
    requires id in s.threads && s.threads[id].issuer == issuer
    requires issuer in s.providers && s.threads[id].pc == MapRead(s.providers[issuer])
    requires Idle(s.(mapOwner := None), issuer)
    requires c.Ordered() && s.clock <= c.ttlRead
    requires Discovers(EntryFor(s, issuer), c) && c.discovery.Found? ==> c.discovery.provider == s.nextProvider
    ensures Leaves(s, acts, id, issuer, AftermathOf(EntryFor(s, issuer), c, s.nextProvider), c.recordRead)
  {
    var a := AftermathOf(EntryFor(s, issuer), c, s.nextProvider);
    var x := Step(id, DULL);
    var rest := EntryWaitLeaves(Perform(s, x), id, issuer, c);
    LeavesCons(s, x, rest, id, issuer, a, c.recordRead);
    acts := [x] + rest;
  }

  lemma MapLockedLeaves(s: State, id: CallId, issuer: Issuer, c: Call) returns (acts: seq<Action>)
    requires id in s.threads && s.threads[id].issuer == issuer
    requires s.threads[id].pc == MapLocked && Idle(s.(mapOwner := None), issuer)
    requires c.Ordered() && s.clock <= c.ttlRead
    requires Discovers(EntryFor(s, issuer), c) && c.discovery.Found? ==> c.discovery.provider == s.nextProvider
    ensures Leaves(s, acts, id, issuer, AftermathOf(EntryFor(s, issuer), c, s.nextProvider), c.recordRead)
  {
    var a := AftermathOf(EntryFor(s, issuer), c, s.nextProvider);
    var x := Step(id, DULL);
    var rest := MapReadLeaves(Perform(s, x), id, issuer, c);
    LeavesCons(s, x, rest, id, issuer, a, c.recordRead);
    acts := [x] + rest;
  }

  lemma StartLeaves(s: State, id: CallId, issuer: Issuer, c: Call) returns (acts: seq<Action>)
    requires id in s.threads && s.threads[id].issuer == issuer
    requires s.threads[id].pc == Start && Idle(s, issuer)
    requires c.Ordered() && s.clock <= c.ttlRead
    requires Discovers(EntryFor(s, issuer), c) && c.discovery.Found? ==> c.discovery.provider == s.nextProvider
    ensures Leaves(s, acts, id, issuer, AftermathOf(EntryFor(s, issuer), c, s.nextProvider), c.recordRead)
  {
    var a := AftermathOf(EntryFor(s, issuer), c, s.nextProvider);
    var x := Step(id, DULL);
    var rest := MapLockedLeaves(Perform(s, x), id, issuer, c);
    LeavesCons(s, x, rest, id, issuer, a, c.recordRead);
    acts := [x] + rest;
  }

  /**
   From any state of any run in which nobody is inside, each section that the
   sequential cache allows can happen next, with these clock readings, this
   discovery and this context.
   */
  lemma EverySectionHappens(s: State, id: CallId, issuer: Issuer, c: Call) returns (acts: seq<Action>)
    requires id !in s.threads && Idle(s, issuer)
    requires c.Ordered() && s.clock <= c.ttlRead
    requires Discovers(EntryFor(s, issuer), c) && c.discovery.Found? ==> c.discovery.provider == s.nextProvider
    ensures Leaves(s, acts, id, issuer, AftermathOf(EntryFor(s, issuer), c, s.nextProvider), c.recordRead)
  {
    var a := AftermathOf(EntryFor(s, issuer), c, s.nextProvider);
    var x := Arrive(id, issuer);
    var rest := StartLeaves(Perform(s, x), id, issuer, c);
    LeavesCons(s, x, rest, id, issuer, a, c.recordRead);
    acts := [x] + rest;
  }

  /** How many providers a history builds. */
  function Builds(cs: seq<Call>): nat {
    if cs == [] then 0
    else
      var past, c := cs[..|cs| - 1], cs[|cs| - 1];
      Builds(past) + if Discovers(After(past), c) && c.discovery.Found? then 1 else 0
  }

  /** Discovered providers are numbered in the order in which they are built. */
  ghost predicate Numbered(cs: seq<Call>) {
    forall k :: 0 <= k < |cs| && BuildsAt(cs, k) ==> cs[k].discovery.provider == Builds(cs[..k])
  }

  lemma ExecAppend(s: State, acts: seq<Action>, more: seq<Action>)
    ensures Exec(s, acts + more) == Exec(Exec(s, acts), more)
    decreases |acts|
  {
    if acts == [] {
      assert acts + more == more;
    } else {
      assert (acts + more)[1..] == acts[1..] + more;
      ExecAppend(Perform(s, acts[0]), acts[1..], more);
    }
  }

  /** In this state the issuer's history is cs: the entry is what it leaves, and call k got the k-th answer. */
  ghost predicate Happened(s: State, cs: seq<Call>, issuer: Issuer) {
    && Idle(s, issuer) && EntryFor(s, issuer) == After(cs) && s.nextProvider == Builds(cs)
    && (cs != [] ==> s.clock <= cs[|cs| - 1].recordRead)
    && (forall k: CallId :: k in s.threads <==> k < |cs|)
    && forall k: CallId :: k < |cs| ==> s.threads[k].pc == Done(AnswerAt(cs, k))
  }

  /** After the calls of past, one more call makes the history one longer. */
  lemma HappensNext(s: State, s': State, cs: seq<Call>, issuer: Issuer)
    requires cs != [] && Happened(s, cs[..|cs| - 1], issuer) && OthersSame(s, s', |cs| - 1)
    requires var c := cs[|cs| - 1];
      var a := AftermathOf(After(cs[..|cs| - 1]), c, Builds(cs[..|cs| - 1]));
      && |cs| - 1 in s'.threads && s'.threads[|cs| - 1].pc == Done(a.answer)
      && Idle(s', issuer) && EntryFor(s', issuer) == a.entry && s'.nextProvider == a.next && s'.clock <= c.recordRead
    ensures Happened(s', cs, issuer)
  {
    var n := |cs| - 1;
    var past := cs[..n];
    forall k: CallId ensures k in s'.threads <==> k < |cs| {
      assert k != n ==> (k in s'.threads <==> k in s.threads);
    }
    forall k: CallId | k < |cs| ensures s'.threads[k].pc == Done(AnswerAt(cs, k)) {
      if k < n {
        assert past[..k] == cs[..k];
        assert s'.threads[k] == s.threads[k];
      }
    }
  }

  /** Every history of the sequential cache is that of some run, entry, answers and all. */
  lemma {:induction false} EveryHistoryHappens(clock: Time, cs: seq<Call>, issuer: Issuer) returns (acts: seq<Action>)
    requires WellTimed(cs) && Numbered(cs) && (cs != [] ==> clock <= cs[0].ttlRead)
    ensures Happened(Run(clock, acts), cs, issuer) && (cs == [] ==> Run(clock, acts).clock == clock)
    decreases |cs|
  {
    if cs == [] {
      acts := [];
    } else {
      var n := |cs| - 1;
      PastFits(cs);
      var before := EveryHistoryHappens(clock, cs[..n], issuer);
      assert BuildsAt(cs, n) ==> cs[n].discovery.provider == Builds(cs[..n]);
      var more := EverySectionHappens(Run(clock, before), n, issuer, cs[n]);
      ExecAppend(Init(clock), before, more);
      acts := before + more;
      HappensNext(Run(clock, before), Run(clock, acts), cs, issuer);
    }
  }

  lemma PastFits(cs: seq<Call>)
    requires cs != [] && WellTimed(cs) && Numbered(cs)
    ensures WellTimed(cs[..|cs| - 1]) && Numbered(cs[..|cs| - 1])
  {
    var past := cs[..|cs| - 1];
    forall k | 0 <= k < |past| && BuildsAt(past, k) ensures past[k].discovery.provider == Builds(past[..k]) {
      assert past[..k] == cs[..k];
      assert BuildsAt(cs, k);
    }
  }
}
