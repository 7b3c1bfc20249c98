/** The version cache under concurrency, as a machine of small steps. A step is what one caller
    does between two shared accesses, or something the environment does: the clock moves either
    way, the force flag is set, other processes fetch, and files come and go. */
module VersionFlights {
  import opened Wrappers
  import opened VersionCache

  /** Where a call stands. The lookup before the flight and the one inside it differ in flight.
      Found and FromDisk hold an entry that is still to be checked against the clock. */
  datatype Phase =
    | Look(flight: bool)
    | Found(flight: bool, entry: Entry)
    | ReadDisk(flight: bool)
    | FromDisk(flight: bool, entry: Entry)
    | Keep(flight: bool, entry: Entry)
    | Enter
    | Waiting(leader: nat)
    | Fetching
    | Stamping(versions: Versions)
    | Remember(entry: Entry)
    | WriteDisk(entry: Entry)
    | Mark(versions: Versions)
    | Ending(result: Option<Versions>)
    | Done(result: Option<Versions>, via: nat)

  /** refresh is the force flag as the call read it. */
  datatype Call = Call(id: string, ttl: Time, refresh: bool, phase: Phase)

  /** What happened so far: versions came back from a source, to a call here or to another
      process; a call accepted an entry at a clock reading; a call made the entry it is about to
      store, at a clock reading; something else than a call here changed a file. */
  datatype Event =
    | Fetched(caller: Option<nat>, id: string, versions: Versions)
    | Accepted(call: nat, id: string, entry: Entry, time: Time)
    | Made(call: nat, id: string, entry: Entry, time: Time)
    | Placed(id: string, file: File)

  /** flights maps a key to the call that leads its flight. */
  datatype State = State(
    now: Time,
    force: bool,
    unwritable: bool,
    memory: map<string, Entry>,
    disk: map<string, File>,
    flights: map<string, nat>,
    calls: seq<Call>,
    log: seq<Event>)

  /** How the world answers a step: whether the file can be read, what a fetch gives, how a write ends. */
  datatype Answer = Answer(readable: bool, fetch: Option<Versions>, write: Write)

  datatype Step =
    | Start(id: string, ttl: Time)
    | Advance(call: nat, answer: Answer)
    | SetForceRefresh(refresh: bool)
    | Clock(now: Time)
    | OtherFetch(id: string, versions: Versions)
    | OtherFile(id: string, file: File)

  predicate CanAdvance(s: State, c: nat) {
    && c < |s.calls|
    && match s.calls[c].phase
       case Done(_, _) => false
       case Waiting(leader) => leader < |s.calls| && s.calls[leader].phase.Done?
       case _ => true
  }

  /** Another process only writes versions that some process fetched, or a file this one cannot use. */
  ghost predicate Enabled(s: State, step: Step) {
    match step
    case Advance(c, _) => CanAdvance(s, c)
    case OtherFile(id, file) => Harmless(s.log, id, file)
    case _ => true
  }

  /** A lookup that finds nothing: on to the flight, or inside it to the source. */
  function Miss(flight: bool): Phase {
    if flight then Fetching else Enter
  }

  /** A lookup that serves an entry ends the call, or inside the flight the flight. */
  function Hit(flight: bool, c: nat, versions: Versions): Phase {
    if flight then Ending(Some(versions)) else Done(Some(versions), c)
  }

  /** What a step of a call leaves behind: its phase, the shared state and new events. */
  datatype Effect = Effect(
    phase: Phase,
    memory: map<string, Entry>,
    disk: map<string, File>,
    unwritable: bool,
    flights: map<string, nat>,
    events: seq<Event>)

  function EffectOf(s: State, c: nat, a: Answer): Effect
    requires CanAdvance(s, c)
  {
    var call := s.calls[c];
    var same := Effect(call.phase, s.memory, s.disk, s.unwritable, s.flights, []);
    match call.phase
    case Look(flight) =>
      same.(phase := if call.id in s.memory then Found(flight, s.memory[call.id]) else ReadDisk(flight))
    case Found(flight, e) =>
      if Valid(e, s.now) then same.(phase := Hit(flight, c, e.versions), events := [Accepted(c, call.id, e, s.now)])
      else same.(phase := Miss(flight))
    case ReadDisk(flight) =>
      var file := OnDisk(s.disk, call.id);
      if a.readable && file.Stored? then same.(phase := FromDisk(flight, file.entry))
      else same.(phase := Miss(flight))
    case FromDisk(flight, e) =>
      if Valid(e, s.now) then same.(phase := Keep(flight, e), events := [Accepted(c, call.id, e, s.now)])
      else same.(phase := Miss(flight))
    case Keep(flight, e) =>
      same.(phase := Hit(flight, c, e.versions), memory := s.memory[call.id := e])
    case Enter =>
      if call.id in s.flights then same.(phase := Waiting(s.flights[call.id]))
      else same.(phase := if call.refresh then Fetching else Look(true), flights := s.flights[call.id := c])
    case Waiting(leader) =>
      same.(phase := Done(s.calls[leader].phase.result, leader))
    case Fetching =>
      (match a.fetch
       case None => same.(phase := Ending(None))
       case Some(v) => same.(phase := Stamping(v), events := [Fetched(Some(c), call.id, v)]))
    case Stamping(v) =>
      var e := Entry(SCHEMA_VERSION, s.now + call.ttl, v);
      same.(phase := Remember(e), events := [Made(c, call.id, e, s.now)])
    case Remember(e) =>
      same.(phase := if s.unwritable then Ending(Some(e.versions)) else WriteDisk(e), memory := s.memory[call.id := e])
    case WriteDisk(e) =>
      (match a.write
       case Written => same.(phase := Ending(Some(e.versions)), disk := s.disk[call.id := Stored(e)])
       case NotEncoded => same.(phase := Ending(Some(e.versions)))
       case _ => same.(phase := Mark(e.versions)))
    case Mark(v) =>
      same.(phase := Ending(Some(v)), unwritable := true)
    case Ending(result) =>
      same.(phase := Done(result, c), flights := s.flights - {call.id})
  }

  function Advanced(s: State, c: nat, a: Answer): State
    requires CanAdvance(s, c)
  {
    var e := EffectOf(s, c, a);
    s.(calls := s.calls[c := s.calls[c].(phase := e.phase)], memory := e.memory, disk := e.disk,
       unwritable := e.unwritable, flights := e.flights, log := s.log + e.events)
  }

  ghost function Next(s: State, step: Step): State
    requires Enabled(s, step)
  {
    match step
    case Start(id, ttl) => s.(calls := s.calls + [Call(id, ttl, s.force, if s.force then Enter else Look(false))])
    case Advance(c, a) => Advanced(s, c, a)
    case SetForceRefresh(refresh) => s.(force := refresh)
    case Clock(now) => s.(now := now)
    case OtherFetch(id, v) => s.(log := s.log + [Fetched(None, id, v)])
    case OtherFile(id, file) => s.(disk := s.disk[id := file], log := s.log + [Placed(id, file)])
  }

  // ---------- where versions come from ----------

  /** Some process got these versions from a source for this key. */
  ghost predicate Produced(log: seq<Event>, id: string, v: Versions) {
    exists who :: Fetched(who, id, v) in log
  }

  ghost predicate Harmless(log: seq<Event>, id: string, file: File) {
    file.Stored? && file.entry.schema == SCHEMA_VERSION ==> Produced(log, id, file.entry.versions)
  }

  /** Call c accepted an entry with these versions: of the current schema, not expired when it
      looked at the clock, and once produced by a fetch. */
  ghost predicate AcceptedBy(log: seq<Event>, c: nat, id: string, v: Versions) {
    Produced(log, id, v) && exists e, t :: Accepted(c, id, e, t) in log && Valid(e, t) && e.versions == v
  }

  /** What call c may hand out: its own fetch, or unless it is forced an entry it accepted. */
  ghost predicate Justified(log: seq<Event>, calls: seq<Call>, c: nat, id: string, v: Versions) {
    && c < |calls| && calls[c].id == id
    && (Fetched(Some(c), id, v) in log || (!calls[c].refresh && AcceptedBy(log, c, id, v)))
  }

  // ---------- the invariant ----------

  /** The calls that are inside the function of a flight. */
  predicate Leads(phase: Phase) {
    match phase
    case Look(flight) => flight
    case Found(flight, _) => flight
    case ReadDisk(flight) => flight
    case FromDisk(flight, _) => flight
    case Keep(flight, _) => flight
    case Enter => false
    case Waiting(_) => false
    case Done(_, _) => false
    case _ => true
  }

  ghost predicate PhaseOk(log: seq<Event>, calls: seq<Call>, c: nat)
    requires c < |calls|
  {
    var id := calls[c].id;
    match calls[c].phase
    case Look(_) => !calls[c].refresh
    case Found(_, e) => !calls[c].refresh && e.schema == SCHEMA_VERSION && Produced(log, id, e.versions)
    case ReadDisk(_) => !calls[c].refresh
    case FromDisk(_, e) => !calls[c].refresh && Harmless(log, id, Stored(e))
    case Keep(_, e) => !calls[c].refresh && e.schema == SCHEMA_VERSION && AcceptedBy(log, c, id, e.versions)
    case Waiting(leader) => leader < |calls| && calls[leader].id == id
    case Stamping(v) => Fetched(Some(c), id, v) in log
    case Remember(e) => e.schema == SCHEMA_VERSION && Fetched(Some(c), id, e.versions) in log
    case WriteDisk(e) => e.schema == SCHEMA_VERSION && Fetched(Some(c), id, e.versions) in log
    case Mark(v) => Fetched(Some(c), id, v) in log
    case Ending(result) => result.Some? ==> Justified(log, calls, c, id, result.value)
    case Done(result, via) => result.Some? ==> Justified(log, calls, via, id, result.value)
    case _ => true
  }

  ghost predicate CallsOk(s: State) {
    forall c :: 0 <= c < |s.calls| ==> PhaseOk(s.log, s.calls, c)
  }

  ghost predicate MemoryOk(s: State) {
    forall id :: id in s.memory ==> s.memory[id].schema == SCHEMA_VERSION && Produced(s.log, id, s.memory[id].versions)
  }

  ghost predicate DiskOk(s: State) {
    forall id :: id in s.disk ==> Harmless(s.log, id, s.disk[id])
  }

  /** The flights are exactly those of the calls that lead one. */
  ghost predicate FlightsOk(s: State) {
    && (forall id :: id in s.flights ==> s.flights[id] < |s.calls| && s.calls[s.flights[id]].id == id && Leads(s.calls[s.flights[id]].phase))
    && (forall c :: 0 <= c < |s.calls| && Leads(s.calls[c].phase) ==> s.calls[c].id in s.flights && s.flights[s.calls[c].id] == c)
  }

  /** Whoever is waited for is at work or done. */
  ghost predicate WaitersOk(s: State) {
    forall c :: 0 <= c < |s.calls| && s.calls[c].phase.Waiting? ==> LeaderOk(s, s.calls[c].phase.leader)
  }

  ghost predicate LeaderOk(s: State, leader: nat) {
    leader < |s.calls|
    && (Leads(s.calls[leader].phase) || (s.calls[leader].phase.Done? && s.calls[leader].phase.via == leader))
  }

  predicate HasFetched(phase: Phase) {
    match phase
    case Stamping(_) => true
    case Remember(_) => true
    case WriteDisk(_) => true
    case Mark(_) => true
    case Ending(_) => true
    case Done(_, _) => true
    case _ => false
  }

  /** A fetch is on record only for a call that has come that far. */
  ghost predicate FetchesOk(s: State) {
    forall c: nat, id, v :: Fetched(Some(c), id, v) in s.log ==> c < |s.calls| && HasFetched(s.calls[c].phase)
  }

  ghost predicate Inv(s: State) {
    CallsOk(s) && MemoryOk(s) && DiskOk(s) && FlightsOk(s) && WaitersOk(s) && FetchesOk(s)
  }

  // ---------- every step keeps the invariant ----------

  ghost predicate Extends(log: seq<Event>, more: seq<Event>) {
    forall e :: e in log ==> e in more
  }

  /** No call changes its key, its TTL or its flag. */
  ghost predicate SameCalls(calls: seq<Call>, more: seq<Call>) {
    |calls| <= |more| && forall c :: 0 <= c < |calls| ==> more[c] == calls[c].(phase := more[c].phase)
  }

  lemma ProducedStays(log: seq<Event>, more: seq<Event>)
    requires Extends(log, more)
    ensures forall id, v :: Produced(log, id, v) ==> Produced(more, id, v)
    ensures forall id, f :: Harmless(log, id, f) ==> Harmless(more, id, f)
    ensures forall c, id, v :: AcceptedBy(log, c, id, v) ==> AcceptedBy(more, c, id, v)
  {
  }

  lemma JustifiedStays(log: seq<Event>, more: seq<Event>, calls: seq<Call>, moreCalls: seq<Call>)
    requires Extends(log, more) && SameCalls(calls, moreCalls)
    ensures forall c, id, v :: Justified(log, calls, c, id, v) ==> Justified(more, moreCalls, c, id, v)
  {
    ProducedStays(log, more);
    hide AcceptedBy;
  }

  lemma PhaseStays(log: seq<Event>, more: seq<Event>, calls: seq<Call>, moreCalls: seq<Call>, c: nat)
    requires Extends(log, more) && SameCalls(calls, moreCalls) && c < |calls| && moreCalls[c] == calls[c]
    requires PhaseOk(log, calls, c)
    ensures PhaseOk(more, moreCalls, c)
  {
    ProducedStays(log, more);
    JustifiedStays(log, more, calls, moreCalls);
    hide AcceptedBy, Justified, Produced, Harmless;
  }

  /** A step of a call changes its phase, and adds to the log. */
  lemma AdvanceShape(s: State, c: nat, a: Answer)
    requires CanAdvance(s, c)
    ensures var t := Advanced(s, c, a);
      && t.calls == s.calls[c := s.calls[c].(phase := EffectOf(s, c, a).phase)]
      && SameCalls(s.calls, t.calls)
      && Extends(s.log, t.log)
  {
    hide EffectOf;
  }

  /** What a call is about to look at. */
  lemma MoverLooks(s: State, c: nat, a: Answer)
    requires CanAdvance(s, c) && PhaseOk(s.log, s.calls, c) && MemoryOk(s) && DiskOk(s)
    requires s.calls[c].phase.Look? || s.calls[c].phase.ReadDisk?
    ensures PhaseOk(Advanced(s, c, a).log, Advanced(s, c, a).calls, c)
  {
    hide AcceptedBy, Justified;
  }

  /** An entry that is checked against the clock. */
  lemma MoverChecks(s: State, c: nat, a: Answer)
    requires CanAdvance(s, c) && PhaseOk(s.log, s.calls, c)
    requires s.calls[c].phase.Found? || s.calls[c].phase.FromDisk?
    ensures PhaseOk(Advanced(s, c, a).log, Advanced(s, c, a).calls, c)
  {
    var t := Advanced(s, c, a);
    var id, e := s.calls[c].id, s.calls[c].phase.entry;
    if Valid(e, s.now) {
      AdvanceShape(s, c, a);
      ProducedStays(s.log, t.log);
      assert Accepted(c, id, e, s.now) in t.log;
      assert AcceptedBy(t.log, c, id, e.versions);
    }
    hide AcceptedBy, Produced;
  }

  /** A call that enters a flight, or ends with the result of the one it waited for. */
  lemma MoverJoins(s: State, c: nat, a: Answer)
    requires CanAdvance(s, c) && Inv(s)
    requires s.calls[c].phase.Enter? || s.calls[c].phase.Waiting?
    ensures PhaseOk(Advanced(s, c, a).log, Advanced(s, c, a).calls, c)
  {
    assert PhaseOk(s.log, s.calls, c);
    AdvanceShape(s, c, a);
    JustifiedStays(s.log, Advanced(s, c, a).log, s.calls, Advanced(s, c, a).calls);
    if s.calls[c].phase.Waiting? {
      var leader := s.calls[c].phase.leader;
      assert PhaseOk(s.log, s.calls, leader);
      assert LeaderOk(s, leader);
    }
    hide AcceptedBy, Justified, MemoryOk, DiskOk, FetchesOk;
  }

  /** A call that hands out an entry it has accepted. */
  lemma MoverKeeps(s: State, c: nat, a: Answer)
    requires CanAdvance(s, c) && PhaseOk(s.log, s.calls, c) && s.calls[c].phase.Keep?
    ensures PhaseOk(Advanced(s, c, a).log, Advanced(s, c, a).calls, c)
  {
    AdvanceShape(s, c, a);
    hide AcceptedBy, Produced;
  }

  /** A call that fetches, or has fetched. */
  lemma MoverFetches(s: State, c: nat, a: Answer)
    requires CanAdvance(s, c) && PhaseOk(s.log, s.calls, c)
    requires HasFetched(s.calls[c].phase) || s.calls[c].phase.Fetching?
    ensures PhaseOk(Advanced(s, c, a).log, Advanced(s, c, a).calls, c)
  {
    AdvanceShape(s, c, a);
    JustifiedStays(s.log, Advanced(s, c, a).log, s.calls, Advanced(s, c, a).calls);
    hide AcceptedBy, Produced, Harmless;
  }

  lemma MoverOk(s: State, c: nat, a: Answer)
    requires CanAdvance(s, c) && Inv(s)
    ensures PhaseOk(Advanced(s, c, a).log, Advanced(s, c, a).calls, c)
  {
    assert PhaseOk(s.log, s.calls, c);
    hide PhaseOk, Advanced, CallsOk, FlightsOk, WaitersOk, FetchesOk;
    match s.calls[c].phase
    case Look(_) => MoverLooks(s, c, a);
    case ReadDisk(_) => MoverLooks(s, c, a);
    case Found(_, _) => MoverChecks(s, c, a);
    case FromDisk(_, _) => MoverChecks(s, c, a);
    case Enter => MoverJoins(s, c, a);
    case Waiting(_) => MoverJoins(s, c, a);
    case Keep(_, _) => MoverKeeps(s, c, a);
    case _ => MoverFetches(s, c, a);
  }

  lemma AdvanceCalls(s: State, c: nat, a: Answer)
    requires CanAdvance(s, c) && Inv(s)
    ensures CallsOk(Advanced(s, c, a))
  {
    var t := Advanced(s, c, a);
    AdvanceShape(s, c, a);
    MoverOk(s, c, a);
    hide PhaseOk, Advanced, SameCalls, Extends, CanAdvance;
    forall d | 0 <= d < |t.calls| ensures PhaseOk(t.log, t.calls, d) {
      if d != c {
        PhaseStays(s.log, t.log, s.calls, t.calls, d);
      }
    }
  }

  /** What a step may put into memory. */
  lemma EffectMemory(s: State, c: nat, a: Answer)
    requires CanAdvance(s, c) && PhaseOk(s.log, s.calls, c)
    ensures var e := EffectOf(s, c, a);
      var id := s.calls[c].id;
      e.memory == s.memory || exists m: Entry :: e.memory == s.memory[id := m] && m.schema == SCHEMA_VERSION && Produced(s.log, id, m.versions)
  {
    var p := s.calls[c].phase;
    if !p.Keep? && !p.Remember? {
      EffectElsewhere(s, c, a);
    } else {
      assert Advanced(s, c, a).memory == s.memory[s.calls[c].id := p.entry];
      assert p.entry.schema == SCHEMA_VERSION && Produced(s.log, s.calls[c].id, p.entry.versions);
    }
    hide EffectOf, PhaseOk, Produced;
  }

  lemma EffectElsewhere(s: State, c: nat, a: Answer)
    requires CanAdvance(s, c)
    ensures !s.calls[c].phase.Keep? && !s.calls[c].phase.Remember? ==> EffectOf(s, c, a).memory == s.memory
    ensures !s.calls[c].phase.WriteDisk? ==> EffectOf(s, c, a).disk == s.disk
  {
    hide Valid, OnDisk, Hit, Miss;
  }

  /** What a step may put on disk. */
  lemma EffectDisk(s: State, c: nat, a: Answer)
    requires CanAdvance(s, c) && PhaseOk(s.log, s.calls, c)
    ensures var e := EffectOf(s, c, a);
      var id := s.calls[c].id;
      e.disk == s.disk || exists m: Entry :: e.disk == s.disk[id := Stored(m)] && Produced(s.log, id, m.versions)
  {
    var p := s.calls[c].phase;
    EffectElsewhere(s, c, a);
    if p.WriteDisk? {
      assert Advanced(s, c, a).disk == s.disk || Advanced(s, c, a).disk == s.disk[s.calls[c].id := Stored(p.entry)];
      assert Produced(s.log, s.calls[c].id, p.entry.versions);
    }
    hide EffectOf, PhaseOk, Produced;
  }

  lemma AdvanceLayers(s: State, c: nat, a: Answer)
    requires CanAdvance(s, c) && Inv(s)
    ensures MemoryOk(Advanced(s, c, a)) && DiskOk(Advanced(s, c, a))
  {
    AdvanceShape(s, c, a);
    ProducedStays(s.log, Advanced(s, c, a).log);
    assert PhaseOk(s.log, s.calls, c);
    EffectMemory(s, c, a);
    EffectDisk(s, c, a);
    hide EffectOf, PhaseOk, Produced;
  }

  /** Only entering and ending a flight change the flights, and only there a call begins or stops to lead. */
  lemma EffectFlights(s: State, c: nat, a: Answer)
    requires CanAdvance(s, c)
    ensures var e := EffectOf(s, c, a);
      var call := s.calls[c];
      if call.phase.Enter? && call.id !in s.flights then e.flights == s.flights[call.id := c] && Leads(e.phase)
      else if call.phase.Ending? then e.flights == s.flights - {call.id} && e.phase.Done? && e.phase.via == c
      else e.flights == s.flights && (Leads(e.phase) <==> Leads(call.phase))
    ensures EffectOf(s, c, a).phase.Waiting? ==> s.calls[c].id in s.flights && EffectOf(s, c, a).phase.leader == s.flights[s.calls[c].id]
  {
  }

  lemma AdvanceFlights(s: State, c: nat, a: Answer)
    requires CanAdvance(s, c) && Inv(s)
    ensures FlightsOk(Advanced(s, c, a))
  {
    EffectFlights(s, c, a);
    hide EffectOf, CallsOk, MemoryOk, DiskOk, WaitersOk, Leads;
    var leads := Leads(s.calls[c].phase);
    assert s.calls[c].phase.Enter? ==> !leads by { LeadsCases(s.calls[c].phase); }
    assert s.calls[c].phase.Ending? ==> leads by { LeadsCases(s.calls[c].phase); }
    LeadsCases(EffectOf(s, c, a).phase);
  }

  lemma LeadsCases(p: Phase)
    ensures p.Enter? || p.Waiting? || p.Done? ==> !Leads(p)
    ensures p.Ending? ==> Leads(p)
  {
  }

  lemma AdvanceWaiters(s: State, c: nat, a: Answer)
    requires CanAdvance(s, c) && Inv(s)
    ensures WaitersOk(Advanced(s, c, a))
  {
    EffectFlights(s, c, a);
    hide EffectOf, CallsOk, MemoryOk, DiskOk, Leads;
    LeadsCases(s.calls[c].phase);
  }

  /** Only fetching puts a fetch on record, and once past it a call stays past it. */
  lemma EffectFetches(s: State, c: nat, a: Answer)
    requires CanAdvance(s, c)
    ensures var e := EffectOf(s, c, a);
      && (HasFetched(s.calls[c].phase) ==> HasFetched(e.phase))
      && (forall d: nat, id, v :: Fetched(Some(d), id, v) in e.events ==> d == c && HasFetched(e.phase))
  {
    hide Valid, OnDisk;
  }

  lemma AdvanceFetches(s: State, c: nat, a: Answer)
    requires CanAdvance(s, c) && Inv(s)
    ensures FetchesOk(Advanced(s, c, a))
  {
    EffectFetches(s, c, a);
    hide EffectOf, HasFetched, CallsOk, MemoryOk, DiskOk, FlightsOk, WaitersOk;
  }

  lemma NextInv(s: State, step: Step)
    requires Enabled(s, step) && Inv(s)
    ensures Inv(Next(s, step))
  {
    match step
    case Advance(c, a) =>
      AdvanceCalls(s, c, a);
      AdvanceLayers(s, c, a);
      AdvanceFlights(s, c, a);
      AdvanceWaiters(s, c, a);
      AdvanceFetches(s, c, a);
    case _ => EnvironmentInv(s, step);
  }

  lemma EnvironmentInv(s: State, step: Step)
    requires Enabled(s, step) && !step.Advance? && Inv(s)
    ensures Inv(Next(s, step))
  {
    EnvironmentCalls(s, step);
    EnvironmentLayers(s, step);
    EnvironmentFlights(s, step);
    hide Next, Enabled, CallsOk, MemoryOk, DiskOk, FlightsOk, WaitersOk, FetchesOk;
  }

  lemma EnvironmentCalls(s: State, step: Step)
    requires Enabled(s, step) && !step.Advance? && CallsOk(s)
    ensures CallsOk(Next(s, step))
  {
    var t := Next(s, step);
    forall d | 0 <= d < |s.calls| ensures PhaseOk(t.log, t.calls, d) {
      PhaseStays(s.log, t.log, s.calls, t.calls, d);
    }
    assert step.Start? ==> PhaseOk(t.log, t.calls, |s.calls|);
    hide PhaseOk, Produced, Harmless;
  }

  lemma EnvironmentLayers(s: State, step: Step)
    requires Enabled(s, step) && !step.Advance? && MemoryOk(s) && DiskOk(s)
    ensures MemoryOk(Next(s, step)) && DiskOk(Next(s, step))
  {
    ProducedStays(s.log, Next(s, step).log);
    hide Produced, Harmless;
  }

  lemma EnvironmentFlights(s: State, step: Step)
    requires Enabled(s, step) && !step.Advance? && FlightsOk(s) && WaitersOk(s) && FetchesOk(s)
    ensures FlightsOk(Next(s, step)) && WaitersOk(Next(s, step)) && FetchesOk(Next(s, step))
  {
    hide Harmless;
  }

  // ---------- whole runs ----------

  /** A process begins with empty memory and whatever other processes fetched and left on disk. */
  ghost predicate Initial(s: State) {
    && s.memory == map[] && s.flights == map[] && s.calls == [] && DiskOk(s)
    && forall e :: e in s.log ==> e.Fetched? && e.caller.None?
  }

  ghost predicate Follows(s: State, t: State) {
    exists step :: Enabled(s, step) && t == Next(s, step)
  }

  ghost predicate IsRun(run: seq<State>) {
    && |run| > 0 && Initial(run[0])
    && forall i, j :: 0 <= i && j == i + 1 && j < |run| ==> Follows(run[i], run[j])
  }

  lemma FollowsInv(s: State, t: State)
    requires Inv(s) && Follows(s, t)
    ensures Inv(t)
  {
    hide Enabled, Inv, Next;
    var step :| Enabled(s, step) && t == Next(s, step);
    NextInv(s, step);
  }

  lemma {:induction false} RunInv(run: seq<State>, k: nat)
    requires IsRun(run) && k < |run|
    ensures Inv(run[k])
  {
    hide Follows;
    if k == 0 {
      InitialInv(run[0]);
    } else {
      hide Inv;
      RunInv(run, k - 1);
      FollowsInv(run[k-1], run[k]);
    }
  }

  lemma InitialInv(s: State)
    requires Initial(s)
    ensures Inv(s)
  {
  }

  /** Every version list a call returned, in any interleaving, came back from a source for the
      call's key; and either a fetch of the flight the call was on returned it, or that flight or
      the call itself found it in an entry of the current schema that had not expired on the clock
      at that step. A forced flight only hands out its own fetch. */
  lemma ReturnsOnlyLiveVersions(run: seq<State>, k: nat, c: nat)
    requires IsRun(run) && k < |run| && c < |run[k].calls|
    requires run[k].calls[c].phase.Done? && run[k].calls[c].phase.result.Some?
    ensures var s := run[k];
      var id, v, via := s.calls[c].id, s.calls[c].phase.result.value, s.calls[c].phase.via;
      && Produced(s.log, id, v)
      && via < |s.calls| && s.calls[via].id == id
      && (|| Fetched(Some(via), id, v) in s.log
          || (!s.calls[via].refresh && exists e, t :: Accepted(via, id, e, t) in s.log && e.schema == SCHEMA_VERSION && t < e.expiresAt && e.versions == v))
  {
    RunInv(run, k);
    assert PhaseOk(run[k].log, run[k].calls, c);
  }

  /** In no interleaving are two fetches for one key in flight. */
  lemma OneFetchPerKey(run: seq<State>, k: nat, c: nat, d: nat)
    requires IsRun(run) && k < |run| && c < |run[k].calls| && d < |run[k].calls|
    requires run[k].calls[c].phase.Fetching? && run[k].calls[d].phase.Fetching?
    requires run[k].calls[c].id == run[k].calls[d].id
    ensures c == d
  {
    RunInv(run, k);
    hide CallsOk, WaitersOk, MemoryOk, DiskOk;
    assert Leads(run[k].calls[c].phase) && Leads(run[k].calls[d].phase);
  }

  /** Steps left to a call at most. */
  function Rank(p: Phase): nat {
    match p
    case Look(flight) => if flight then 9 else 14
    case ReadDisk(flight) => if flight then 8 else 13
    case FromDisk(flight, _) => if flight then 7 else 12
    case Found(flight, _) => if flight then 7 else 12
    case Keep(flight, _) => if flight then 6 else 11
    case Enter => 10
    case Fetching => 6
    case Stamping(_) => 5
    case Remember(_) => 4
    case WriteDisk(_) => 3
    case Mark(_) => 2
    case Ending(_) => 1
    case Waiting(_) => 1
    case Done(_, _) => 0
  }

  /** A call is done after at most 14 steps of its own. */
  lemma AdvanceShrinks(s: State, c: nat, a: Answer)
    requires CanAdvance(s, c)
    ensures Rank(EffectOf(s, c, a).phase) < Rank(s.calls[c].phase) <= 14
  {
    if HasFetched(s.calls[c].phase) {
      AdvanceShrinksLate(s, c, a);
    } else {
      AdvanceShrinksEarly(s, c, a);
    }
    hide EffectOf, HasFetched;
  }

  lemma AdvanceShrinksEarly(s: State, c: nat, a: Answer)
    requires CanAdvance(s, c) && !HasFetched(s.calls[c].phase)
    ensures Rank(EffectOf(s, c, a).phase) < Rank(s.calls[c].phase)
  {
  }

  lemma AdvanceShrinksLate(s: State, c: nat, a: Answer)
    requires CanAdvance(s, c) && HasFetched(s.calls[c].phase)
    ensures Rank(EffectOf(s, c, a).phase) < Rank(s.calls[c].phase)
  {
  }

  /** No deadlock: a call that is not done can move, or the leader it waits for can. */
  lemma SomeoneCanMove(run: seq<State>, k: nat, c: nat)
    requires IsRun(run) && k < |run| && c < |run[k].calls| && !run[k].calls[c].phase.Done?
    ensures CanAdvance(run[k], c) || (run[k].calls[c].phase.Waiting? && CanAdvance(run[k], run[k].calls[c].phase.leader))
  {
    RunInv(run, k);
    if run[k].calls[c].phase.Waiting? {
      assert LeaderOk(run[k], run[k].calls[c].phase.leader);
    }
  }
}
