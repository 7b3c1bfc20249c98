/** When a forced call of the version cache does refetch: the state it finds on entering its flight
    decides. */
module ForcedRefresh {
  import opened Wrappers
  import opened VersionCache
  import opened VersionFlights

  // ---------- what may still happen ----------

  /** Whether the clock may be set back: the readings of entries on disk are wall-clock times, while
      those of entries a process stored itself never go back. */
  ghost predicate InTime(s: State, step: Step, back: bool) {
    step.Clock? && !back ==> s.now <= step.now
  }

  ghost predicate StepsTo(s: State, t: State, back: bool) {
    exists step :: Enabled(s, step) && InTime(s, step, back) && t == Next(s, step)
  }

  ghost predicate IsWalk(walk: seq<State>, back: bool) {
    |walk| > 0 && forall i, j :: 0 <= i && j == i + 1 && j < |walk| ==> StepsTo(walk[i], walk[j], back)
  }

  ghost predicate WalkFromTo(walk: seq<State>, s: State, t: State, back: bool) {
    IsWalk(walk, back) && walk[0] == s && walk[|walk|-1] == t
  }

  /** t can follow on s in any number of steps of any callers and of the environment. */
  ghost predicate Continues(s: State, t: State, back: bool) {
    exists walk :: WalkFromTo(walk, s, t, back)
  }

  /** If call c has returned versions, a fetch of the flight it was on returned them. */
  ghost predicate Refetched(s: State, c: nat) {
    c < |s.calls| && s.calls[c].phase.Done? && s.calls[c].phase.result.Some? ==>
      Fetched(Some(s.calls[c].phase.via), s.calls[c].id, s.calls[c].phase.result.value) in s.log
  }

  /** Whatever happens from here on, call c returns nothing but what its flight has fetched. */
  ghost predicate WillRefetch(s: State, c: nat, back: bool) {
    forall t :: Continues(s, t, back) ==> Refetched(t, c)
  }

  // ---------- leaders past their lookup ----------

  /** The result is a failure or was fetched by call l. */
  ghost predicate OwnResult(s: State, l: nat, id: string, result: Option<Versions>) {
    result.Some? ==> Fetched(Some(l), id, result.value) in s.log
  }

  /** A call in this phase can still put an entry into memory that has not expired: its lookup has
      found memory empty. */
  predicate MayReplace(phase: Phase, now: Time) {
    match phase
    case ReadDisk(_) => true
    case FromDisk(_, e) => Valid(e, now)
    case Keep(_, e) => Valid(e, now)
    case _ => false
  }

  /** Memory holds an expired entry for the key, and no call can replace it from the disk. */
  ghost predicate StaysExpired(s: State, id: string) {
    && id in s.memory && !Valid(s.memory[id], s.now)
    && forall d :: 0 <= d < |s.calls| && s.calls[d].id == id ==> !MayReplace(s.calls[d].phase, s.now)
  }

  /** Call l can no longer serve an entry to its flight: it is fetching or has fetched, or what it
      has read from disk has another schema; or the clock does not go back, and the entry it is at
      has expired, or the one it will find has and stays. */
  ghost predicate Committed(s: State, l: nat, back: bool)
    requires l < |s.calls|
  {
    match s.calls[l].phase
    case Fetching => true
    case Stamping(_) => true
    case Remember(_) => true
    case WriteDisk(_) => true
    case Mark(_) => true
    case Look(flight) => flight && !back && StaysExpired(s, s.calls[l].id)
    case Found(flight, e) => flight && !back && !Valid(e, s.now)
    case FromDisk(flight, e) => flight && (e.schema != SCHEMA_VERSION || (!back && !Valid(e, s.now)))
    case Ending(result) => OwnResult(s, l, s.calls[l].id, result)
    case Done(result, via) => via == l && OwnResult(s, l, s.calls[l].id, result)
    case _ => false
  }

  /** A forced leader never looks anything up. */
  lemma ForcedLeaderCommitted(s: State, l: nat, back: bool)
    requires Inv(s) && l < |s.calls| && s.calls[l].refresh && Leads(s.calls[l].phase)
    ensures Committed(s, l, back)
  {
    assert PhaseOk(s.log, s.calls, l);
    hide MemoryOk, DiskOk, FlightsOk, WaitersOk, FetchesOk, AcceptedBy;
  }

  /** Call c is on the flight of l, and l is committed. */
  ghost predicate Sure(s: State, c: nat, l: nat, back: bool) {
    && c < |s.calls| && l < |s.calls| && s.calls[l].id == s.calls[c].id && Committed(s, l, back)
    && (c == l || s.calls[c].phase == Waiting(l) || (s.calls[c].phase.Done? && s.calls[c].phase.via == l && OwnResult(s, l, s.calls[l].id, s.calls[c].phase.result)))
  }

  lemma SureRefetches(s: State, c: nat, l: nat, back: bool)
    requires Sure(s, c, l, back)
    ensures Refetched(s, c)
  {
    hide StaysExpired;
  }

  // ---------- an expired entry stays ----------

  /** What another call can do to the memory of a key whose flight someone else leads. */
  lemma OthersKeepExpired(s: State, d: nat, a: Answer, l: nat)
    requires CanAdvance(s, d) && FlightsOk(s) && PhaseOk(s.log, s.calls, d)
    requires l < |s.calls| && l != d && Leads(s.calls[l].phase) && StaysExpired(s, s.calls[l].id)
    ensures var id := s.calls[l].id;
      && id in EffectOf(s, d, a).memory && !Valid(EffectOf(s, d, a).memory[id], s.now)
      && (s.calls[d].id == id ==> !MayReplace(EffectOf(s, d, a).phase, s.now))
  {
    var id := s.calls[l].id;
    if s.calls[d].id == id {
      assert !MayReplace(s.calls[d].phase, s.now);
      assert s.flights[id] == l;
      assert !Leads(s.calls[d].phase);
    }
    hide PhaseOk, FlightsOk, StaysExpired;
  }

  lemma StaysExpiredNext(s: State, d: nat, a: Answer, l: nat)
    requires CanAdvance(s, d) && Inv(s) && l < |s.calls| && l != d
    requires Leads(s.calls[l].phase) && StaysExpired(s, s.calls[l].id)
    ensures StaysExpired(Advanced(s, d, a), s.calls[l].id)
  {
    assert PhaseOk(s.log, s.calls, d);
    OthersKeepExpired(s, d, a, l);
    AdvanceShape(s, d, a);
    hide EffectOf, PhaseOk, Inv, MayReplace, Valid;
  }

  // ---------- every step keeps a leader committed ----------

  lemma CommittedStays(s: State, d: nat, a: Answer, l: nat, back: bool)
    requires CanAdvance(s, d) && Inv(s) && l < |s.calls| && Committed(s, l, back)
    ensures Committed(Advanced(s, d, a), l, back)
  {
    var t := Advanced(s, d, a);
    if d == l {
      assert PhaseOk(s.log, s.calls, l);
      MoverCommitted(s, l, a, back);
    } else {
      AdvanceShape(s, d, a);
      assert t.calls[l] == s.calls[l];
      if s.calls[l].phase.Look? {
        StaysExpiredNext(s, d, a, l);
      }
      hide EffectOf, Inv, StaysExpired;
      assert t.now == s.now;
    }
  }

  lemma MoverCommitted(s: State, l: nat, a: Answer, back: bool)
    requires CanAdvance(s, l) && PhaseOk(s.log, s.calls, l) && Committed(s, l, back)
    ensures Committed(Advanced(s, l, a), l, back)
  {
    hide AcceptedBy, Justified, Harmless, Produced, MayReplace;
  }

  lemma SureStays(s: State, d: nat, a: Answer, c: nat, l: nat, back: bool)
    requires CanAdvance(s, d) && Inv(s) && Sure(s, c, l, back)
    ensures Sure(Advanced(s, d, a), c, l, back)
  {
    CommittedStays(s, d, a, l, back);
    AdvanceShape(s, d, a);
    var t := Advanced(s, d, a);
    if d == c && c != l {
      WaiterEnds(s, c, a, l, back);
      hide Inv, Committed;
    } else {
      hide Inv, Committed;
      assert d != c ==> t.calls[c] == s.calls[c];
      hide EffectOf, Advanced;
    }
  }

  /** A waiter takes over the result of a committed leader. */
  lemma WaiterEnds(s: State, c: nat, a: Answer, l: nat, back: bool)
    requires CanAdvance(s, c) && s.calls[c].phase == Waiting(l) && Committed(s, l, back)
    ensures var phase := Advanced(s, c, a).calls[c].phase;
      phase.Done? && phase.via == l && OwnResult(Advanced(s, c, a), l, s.calls[l].id, phase.result)
  {
    hide StaysExpired;
  }

  lemma NextSure(s: State, t: State, c: nat, l: nat, back: bool)
    requires Inv(s) && StepsTo(s, t, back) && Sure(s, c, l, back)
    ensures Inv(t) && Sure(t, c, l, back)
  {
    hide Inv, Sure, Enabled, InTime, Next;
    var step :| Enabled(s, step) && InTime(s, step, back) && t == Next(s, step);
    NextInv(s, step);
    StepSure(s, step, c, l, back);
  }

  lemma StepSure(s: State, step: Step, c: nat, l: nat, back: bool)
    requires Inv(s) && Enabled(s, step) && InTime(s, step, back) && Sure(s, c, l, back)
    ensures Sure(Next(s, step), c, l, back)
  {
    if step.Advance? {
      SureStays(s, step.call, step.answer, c, l, back);
      hide Inv, Sure;
    } else {
      EnvironmentCommitted(s, step, l, back);
      hide Inv, Committed, InTime, Harmless;
    }
  }

  lemma EnvironmentCommitted(s: State, step: Step, l: nat, back: bool)
    requires Enabled(s, step) && InTime(s, step, back) && !step.Advance? && l < |s.calls| && Committed(s, l, back)
    ensures Committed(Next(s, step), l, back)
  {
    if s.calls[l].phase.Look? {
      EnvironmentExpired(s, step, s.calls[l].id);
    }
    hide StaysExpired, Harmless;
  }

  /** Neither a later clock nor a new call brings an expired entry back. */
  lemma EnvironmentExpired(s: State, step: Step, id: string)
    requires Enabled(s, step) && InTime(s, step, false) && !step.Advance? && StaysExpired(s, id)
    ensures StaysExpired(Next(s, step), id)
  {
    hide Harmless;
  }

  lemma {:induction false} WalkSure(walk: seq<State>, c: nat, l: nat, back: bool)
    requires IsWalk(walk, back) && Inv(walk[0]) && Sure(walk[0], c, l, back)
    ensures Inv(walk[|walk|-1]) && Sure(walk[|walk|-1], c, l, back)
    decreases |walk|
  {
    hide Inv, Sure, StepsTo;
    if |walk| > 1 {
      WalkSure(walk[..|walk|-1], c, l, back);
      NextSure(walk[|walk|-2], walk[|walk|-1], c, l, back);
    }
  }

  lemma SureWillRefetch(s: State, c: nat, l: nat, back: bool)
    requires Inv(s) && Sure(s, c, l, back)
    ensures WillRefetch(s, c, back)
  {
    hide Inv, Sure, Refetched;
    forall t | Continues(s, t, back) ensures Refetched(t, c) {
      var walk :| WalkFromTo(walk, s, t, back);
      WalkSure(walk, c, l, back);
      SureRefetches(t, c, l, back);
    }
  }

  // ---------- leaders that may still serve an entry ----------

  /** Some continuation ends call c with versions that its flight did not fetch. */
  ghost predicate MayBeCached(s: State, c: nat, back: bool) {
    exists t :: Continues(s, t, back) && !Refetched(t, c)
  }

  lemma CachedAfter(s: State, step: Step, c: nat, back: bool)
    requires Enabled(s, step) && InTime(s, step, back) && MayBeCached(Next(s, step), c, back)
    ensures MayBeCached(s, c, back)
  {
    hide Enabled, Next, Refetched, InTime;
    var t :| Continues(Next(s, step), t, back) && !Refetched(t, c);
    var walk :| WalkFromTo(walk, Next(s, step), t, back);
    assert StepsTo(s, walk[0], back);
    hide StepsTo;
    assert WalkFromTo([s] + walk, s, t, back);
  }

  lemma CachedNow(s: State, c: nat, back: bool)
    requires !Refetched(s, c)
    ensures MayBeCached(s, c, back)
  {
    assert WalkFromTo([s], s, s, back);
  }

  /** An answer with a readable disk. */
  const READABLE: Answer := Answer(true, None, Written)

  lemma CachedAfterAdvance(s: State, d: nat, c: nat, back: bool)
    requires CanAdvance(s, d) && MayBeCached(Advanced(s, d, READABLE), c, back)
    ensures MayBeCached(s, c, back)
  {
    hide MayBeCached, CanAdvance, Advanced;
    CachedAfter(s, Advance(d, READABLE), c, back);
  }

  /** Call c waits for the flight of l, on whose record there is no fetch of these versions. */
  ghost predicate Waits(s: State, c: nat, l: nat) {
    && c < |s.calls| && l < |s.calls| && c != l && s.calls[c].phase == Waiting(l) && s.calls[l].id == s.calls[c].id
  }

  lemma EndingCached(s: State, c: nat, l: nat, back: bool)
    requires Waits(s, c, l) && s.calls[l].phase.Ending? && !Committed(s, l, back)
    ensures MayBeCached(s, c, back)
  {
    var t := Advanced(s, l, READABLE);
    var u := Advanced(t, c, READABLE);
    assert !Refetched(u, c);
    hide Refetched, Advanced;
    CachedNow(u, c, back);
    CachedAfterAdvance(t, c, c, back);
    CachedAfterAdvance(s, l, c, back);
  }

  /** No fetch of call l is on record. */
  ghost predicate Unfetched(s: State, l: nat) {
    forall id, v :: Fetched(Some(l), id, v) !in s.log
  }

  lemma KeepCached(s: State, c: nat, l: nat, back: bool)
    requires Waits(s, c, l) && s.calls[l].phase.Keep? && s.calls[l].phase.flight && Unfetched(s, l)
    ensures MayBeCached(s, c, back)
  {
    var t := Advanced(s, l, READABLE);
    assert Waits(t, c, l) && t.calls[l].phase.Ending? && !Committed(t, l, back);
    EndingCached(t, c, l, back);
    CachedAfterAdvance(s, l, c, back);
  }

  lemma ValidFoundCached(s: State, c: nat, l: nat, back: bool)
    requires Waits(s, c, l) && s.calls[l].phase.Found? && s.calls[l].phase.flight && Unfetched(s, l)
    requires Valid(s.calls[l].phase.entry, s.now)
    ensures MayBeCached(s, c, back)
  {
    var e := s.calls[l].phase.entry;
    var t := Advanced(s, l, READABLE);
    assert t.log == s.log + [Accepted(l, s.calls[l].id, e, s.now)];
    assert Waits(t, c, l) && t.calls[l].phase.Ending? && !Committed(t, l, back);
    hide Waits, Committed;
    EndingCached(t, c, l, back);
    CachedAfterAdvance(s, l, c, back);
  }

  lemma ValidFromDiskCached(s: State, c: nat, l: nat, back: bool)
    requires Waits(s, c, l) && s.calls[l].phase.FromDisk? && s.calls[l].phase.flight && Unfetched(s, l)
    requires Valid(s.calls[l].phase.entry, s.now)
    ensures MayBeCached(s, c, back)
  {
    var e := s.calls[l].phase.entry;
    var t := Advanced(s, l, READABLE);
    assert t.log == s.log + [Accepted(l, s.calls[l].id, e, s.now)];
    assert Waits(t, c, l) && t.calls[l].phase == Keep(true, e) && Unfetched(t, l);
    hide Waits, Unfetched;
    KeepCached(t, c, l, back);
    CachedAfterAdvance(s, l, c, back);
  }

  /** The clock at which the entry is valid, if it is to be found by a clock that goes back. */
  lemma SetBack(s: State, e: Entry, c: nat)
    requires MayBeCached(s.(now := e.expiresAt - 1), c, true)
    ensures MayBeCached(s, c, true)
  {
    hide MayBeCached;
    assert s.(now := e.expiresAt - 1) == Next(s, Clock(e.expiresAt - 1));
    CachedAfter(s, Clock(e.expiresAt - 1), c, true);
  }

  lemma FoundCached(s: State, c: nat, l: nat, back: bool)
    requires Waits(s, c, l) && s.calls[l].phase.Found? && s.calls[l].phase.flight && Unfetched(s, l)
    requires s.calls[l].phase.entry.schema == SCHEMA_VERSION && (back || Valid(s.calls[l].phase.entry, s.now))
    ensures MayBeCached(s, c, back)
  {
    var e := s.calls[l].phase.entry;
    if Valid(e, s.now) {
      ValidFoundCached(s, c, l, back);
    } else {
      ValidFoundCached(s.(now := e.expiresAt - 1), c, l, true);
      SetBack(s, e, c);
    }
  }

  lemma FromDiskCached(s: State, c: nat, l: nat, back: bool)
    requires Waits(s, c, l) && s.calls[l].phase.FromDisk? && s.calls[l].phase.flight && Unfetched(s, l)
    requires s.calls[l].phase.entry.schema == SCHEMA_VERSION && (back || Valid(s.calls[l].phase.entry, s.now))
    ensures MayBeCached(s, c, back)
  {
    var e := s.calls[l].phase.entry;
    if Valid(e, s.now) {
      ValidFromDiskCached(s, c, l, back);
    } else {
      ValidFromDiskCached(s.(now := e.expiresAt - 1), c, l, true);
      SetBack(s, e, c);
    }
  }

  /** The state after another process has fetched something for the key and written a file that is
      valid now. */
  ghost function WithFile(s: State, id: string): State {
    s.(log := s.log + [Fetched(None, id, [])] + [Placed(id, Stored(FreshEntry(s)))], disk := s.disk[id := Stored(FreshEntry(s))])
  }

  function FreshEntry(s: State): Entry {
    Entry(SCHEMA_VERSION, s.now + 1, [])
  }

  lemma CachedAfterFile(s: State, id: string, c: nat, back: bool)
    requires MayBeCached(WithFile(s, id), c, back)
    ensures MayBeCached(s, c, back)
  {
    var q := Next(s, OtherFetch(id, []));
    assert Fetched(None, id, []) in q.log;
    assert Enabled(q, OtherFile(id, Stored(FreshEntry(s))));
    assert WithFile(s, id) == Next(q, OtherFile(id, Stored(FreshEntry(s))));
    hide MayBeCached;
    CachedAfter(q, OtherFile(id, Stored(FreshEntry(s))), c, back);
    CachedAfter(s, OtherFetch(id, []), c, back);
  }

  lemma ReadDiskCached(s: State, c: nat, l: nat, back: bool)
    requires Waits(s, c, l) && s.calls[l].phase == ReadDisk(true) && Unfetched(s, l)
    ensures MayBeCached(s, c, back)
  {
    var r := WithFile(s, s.calls[l].id);
    var t := Advanced(r, l, READABLE);
    assert Waits(t, c, l) && t.calls[l].phase == FromDisk(true, FreshEntry(s)) && Unfetched(t, l);
    hide Waits, Unfetched;
    FromDiskCached(t, c, l, back);
    CachedAfterAdvance(r, l, c, back);
    CachedAfterFile(s, s.calls[l].id, c, back);
  }

  /** A leader that finds a valid entry in memory. */
  lemma LookFindsCached(s: State, c: nat, l: nat, back: bool)
    requires Waits(s, c, l) && s.calls[l].phase == Look(true) && Unfetched(s, l)
    requires s.calls[l].id in s.memory && s.memory[s.calls[l].id].schema == SCHEMA_VERSION && (back || Valid(s.memory[s.calls[l].id], s.now))
    ensures MayBeCached(s, c, back)
  {
    var t := Advanced(s, l, READABLE);
    assert Waits(t, c, l) && Unfetched(t, l) && t.calls[l].phase == Found(true, s.memory[s.calls[l].id]) && t.now == s.now;
    hide Waits, Unfetched;
    FoundCached(t, c, l, back);
    CachedAfterAdvance(s, l, c, back);
  }

  // ---------- a call that replaces an expired entry ----------

  /** Call d, which leads no flight, has found memory empty for the key of l. */
  ghost predicate Replaces(s: State, c: nat, l: nat, d: nat) {
    && Waits(s, c, l) && s.calls[l].phase == Look(true) && Unfetched(s, l)
    && d < |s.calls| && d != l && s.calls[d].id == s.calls[l].id
  }

  lemma KeepReplaces(s: State, c: nat, l: nat, d: nat, back: bool)
    requires Replaces(s, c, l, d) && s.calls[d].phase.Keep? && !s.calls[d].phase.flight && Valid(s.calls[d].phase.entry, s.now)
    ensures MayBeCached(s, c, back)
  {
    var t := Advanced(s, d, READABLE);
    assert t.memory[s.calls[l].id] == s.calls[d].phase.entry && t.now == s.now;
    assert Waits(t, c, l) && t.calls[l] == s.calls[l] && Unfetched(t, l);
    hide Waits, Unfetched;
    LookFindsCached(t, c, l, back);
    CachedAfterAdvance(s, d, c, back);
  }

  lemma FromDiskReplaces(s: State, c: nat, l: nat, d: nat, back: bool)
    requires Replaces(s, c, l, d) && s.calls[d].phase.FromDisk? && !s.calls[d].phase.flight && Valid(s.calls[d].phase.entry, s.now)
    ensures MayBeCached(s, c, back)
  {
    var e := s.calls[d].phase.entry;
    var t := Advanced(s, d, READABLE);
    assert t.log == s.log + [Accepted(d, s.calls[d].id, e, s.now)] && t.now == s.now;
    assert Replaces(t, c, l, d) && t.calls[d].phase == Keep(false, e);
    hide Replaces;
    KeepReplaces(t, c, l, d, back);
    CachedAfterAdvance(s, d, c, back);
  }

  lemma ReadDiskReplaces(s: State, c: nat, l: nat, d: nat, back: bool)
    requires Replaces(s, c, l, d) && s.calls[d].phase == ReadDisk(false)
    ensures MayBeCached(s, c, back)
  {
    var r := WithFile(s, s.calls[d].id);
    var t := Advanced(r, d, READABLE);
    assert Replaces(t, c, l, d) && t.calls[d].phase == FromDisk(false, FreshEntry(s)) && t.now == s.now;
    hide Replaces;
    FromDiskReplaces(t, c, l, d, back);
    CachedAfterAdvance(r, d, c, back);
    CachedAfterFile(s, s.calls[d].id, c, back);
  }

  lemma LookCached(s: State, c: nat, l: nat, back: bool)
    requires Inv(s) && Waits(s, c, l) && s.calls[l].phase == Look(true) && Unfetched(s, l) && !Committed(s, l, back)
    ensures MayBeCached(s, c, back)
  {
    var id := s.calls[l].id;
    if id !in s.memory {
      var t := Advanced(s, l, READABLE);
      assert Waits(t, c, l) && Unfetched(t, l) && t.calls[l].phase == ReadDisk(true);
      hide Waits, Unfetched, Inv;
      ReadDiskCached(t, c, l, back);
      CachedAfterAdvance(s, l, c, back);
    } else if back || Valid(s.memory[id], s.now) {
      assert MemoryOk(s);
      hide Waits, Unfetched;
      LookFindsCached(s, c, l, back);
    } else {
      var d :| 0 <= d < |s.calls| && s.calls[d].id == id && MayReplace(s.calls[d].phase, s.now);
      OnlyLeaderLeads(s, l, d);
      assert Replaces(s, c, l, d);
      hide Replaces, Waits, Unfetched, Inv;
      match s.calls[d].phase
      case ReadDisk(_) => ReadDiskReplaces(s, c, l, d, back);
      case FromDisk(_, _) => FromDiskReplaces(s, c, l, d, back);
      case Keep(_, _) => KeepReplaces(s, c, l, d, back);
    }
  }

  /** A call that is not at the leader's phase of its key leads nothing. */
  lemma OnlyLeaderLeads(s: State, l: nat, d: nat)
    requires Inv(s) && l < |s.calls| && d < |s.calls| && s.calls[d].id == s.calls[l].id
    requires Leads(s.calls[l].phase) && d != l
    ensures !Leads(s.calls[d].phase)
  {
    assert s.flights[s.calls[l].id] == l;
    hide CallsOk, MemoryOk, DiskOk, WaitersOk, FetchesOk;
  }

  lemma UncommittedCached(s: State, c: nat, l: nat, back: bool)
    requires Inv(s) && Waits(s, c, l) && Leads(s.calls[l].phase) && !Committed(s, l, back)
    ensures MayBeCached(s, c, back)
  {
    assert PhaseOk(s.log, s.calls, l);
    if s.calls[l].phase.Ending? {
      EndingCached(s, c, l, back);
    } else {
      assert Unfetched(s, l);
      hide Waits, MayBeCached, Inv, Unfetched, StaysExpired;
      match s.calls[l].phase
      case Look(_) => LookCached(s, c, l, back);
      case Found(_, _) => FoundCached(s, c, l, back);
      case ReadDisk(_) => ReadDiskCached(s, c, l, back);
      case FromDisk(_, _) => FromDiskCached(s, c, l, back);
      case Keep(_, _) => KeepCached(s, c, l, back);
    }
  }

  // ---------- exactly when a forced call refetches ----------

  /** A forced call that enters its flight returns only what that flight fetches, whatever happens
      then, if and only if it finds no flight for its key, or one whose leader is forced or past
      its lookup: for a clock that may go back, and for one that may not. */
  lemma ForcedRefetchIff(s: State, c: nat, a: Answer, back: bool)
    requires Inv(s) && c < |s.calls| && s.calls[c].refresh && s.calls[c].phase == Enter
    ensures var id := s.calls[c].id;
      WillRefetch(Advanced(s, c, a), c, back) <==>
        (id in s.flights ==> s.calls[s.flights[id]].refresh || Committed(s, s.flights[id], back))
  {
    var id := s.calls[c].id;
    var t := Advanced(s, c, a);
    NextInv(s, Advance(c, a));
    assert Inv(t);
    if id in s.flights {
      var l := s.flights[id];
      EnterJoins(s, c, a, back);
      if s.calls[l].refresh {
        ForcedLeaderCommitted(s, l, back);
      }
      if Committed(s, l, back) {
        SureWillRefetch(t, c, l, back);
      } else {
        UncommittedCached(t, c, l, back);
      }
    } else {
      assert t.calls[c].phase == Fetching;
      SureWillRefetch(t, c, c, back);
    }
  }

  /** Entering a flight that is under way changes nothing for its leader. */
  lemma EnterJoins(s: State, c: nat, a: Answer, back: bool)
    requires Inv(s) && c < |s.calls| && s.calls[c].phase == Enter && s.calls[c].id in s.flights
    ensures var l := s.flights[s.calls[c].id];
      var t := Advanced(s, c, a);
      && l < |s.calls| && l != c && Waits(t, c, l) && Leads(t.calls[l].phase) && t.calls[l] == s.calls[l]
      && (Committed(t, l, back) <==> Committed(s, l, back))
  {
    hide CallsOk, MemoryOk, DiskOk, WaitersOk, FetchesOk;
    var l, t := s.flights[s.calls[c].id], Advanced(s, c, a);
    assert t.calls == s.calls[c := s.calls[c].(phase := Waiting(l))] && t.memory == s.memory && t.now == s.now;
    assert StaysExpired(t, s.calls[l].id) <==> StaysExpired(s, s.calls[l].id) by {
      assert forall d :: 0 <= d < |s.calls| ==> (MayReplace(t.calls[d].phase, t.now) <==> MayReplace(s.calls[d].phase, s.now));
    }
  }

  // ---------- and it need not ----------

  ghost predicate Reachable(s: State) {
    exists run :: IsRun(run) && run[|run|-1] == s
  }

  lemma ReachableNext(s: State, step: Step)
    requires Reachable(s) && Enabled(s, step)
    ensures Reachable(Next(s, step))
  {
    hide Enabled, Next;
    var run :| IsRun(run) && run[|run|-1] == s;
    var more := run + [Next(s, step)];
    assert Follows(s, Next(s, step));
    hide Follows, Initial;
    assert IsRun(more);
  }

  /** One more step of call c, with a readable disk, leads from s to t. */
  lemma Moves(s: State, c: nat, t: State)
    requires Reachable(s) && CanAdvance(s, c) && t == Advanced(s, c, READABLE)
    ensures Reachable(t)
  {
    hide Reachable, Advanced, CanAdvance;
    ReachableNext(s, Advance(c, READABLE));
  }

  /** One call alone at a phase, with nothing in memory or on disk. */
  function Alone(id: string, phase: Phase): State {
    State(0, false, false, map[], map[], map[], [Call(id, 0, false, phase)], [])
  }

  /** The call has looked everywhere in vain and leads the flight. */
  lemma FirstCallLeads(id: string)
    ensures Reachable(Alone(id, Look(true)).(flights := map[id := 0]))
  {
    var s0 := Alone(id, Enter).(calls := []);
    assert IsRun([s0]);
    assert Reachable(s0);
    hide Reachable;
    ReachableNext(s0, Start(id, 0));
    assert Alone(id, Look(false)) == Next(s0, Start(id, 0));
    Moves(Alone(id, Look(false)), 0, Alone(id, ReadDisk(false)));
    Moves(Alone(id, ReadDisk(false)), 0, Alone(id, Enter));
    Moves(Alone(id, Enter), 0, Alone(id, Look(true)).(flights := map[id := 0]));
  }

  /** A forced call is about to join the flight of an unforced one. */
  function Joining(id: string): State {
    State(0, true, false, map[], map[], map[id := 0], [Call(id, 0, false, Look(true)), Call(id, 0, true, Enter)], [])
  }

  lemma JoiningReachable(id: string)
    ensures Reachable(Joining(id))
  {
    FirstCallLeads(id);
    var s := Alone(id, Look(true)).(flights := map[id := 0]);
    hide Reachable;
    ReachableNext(s, SetForceRefresh(true));
    ReachableNext(s.(force := true), Start(id, 0));
    assert Joining(id) == Next(s.(force := true), Start(id, 0));
  }

  /** A forced call can still be served a cached entry, and no clock need go back for it: for every
      key a state can come about in which it joins a flight that is still looking. */
  lemma ForcedCallMayJoin(id: string)
    ensures exists s, c: nat ::
      Reachable(s) && c < |s.calls| && s.calls[c].refresh && s.calls[c].id == id && s.calls[c].phase == Enter && MayBeCached(Advanced(s, c, READABLE), c, false)
  {
    var s := Joining(id);
    JoiningReachable(id);
    var run :| IsRun(run) && run[|run|-1] == s;
    RunInv(run, |run| - 1);
    ForcedRefetchIff(s, 1, READABLE, false);
    assert !Committed(s, 0, false);
  }
}
