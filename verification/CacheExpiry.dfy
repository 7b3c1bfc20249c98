/** How long fetched versions are served: until the clock at the end of the fetch plus the TTL,
    for one call after another and for calls side by side. */
module CacheExpiry {
  import opened Wrappers
  import opened VersionCache
  import opened VersionFlights

  // ---------- one call after another ----------

  /** An operation that does not replace or lose what was stored for the key: it asks for another
      key, or its source gives nothing, or it may use the cache and looks before the time is up.
      A restart is one if the file was written. */
  predicate Leaves(op: Op, id: string, until: Time, reached: bool) {
    match op
    case Restart => reached
    case Ask(force, q) => q.id != id || q.fetch.None? || (!force && (q.first < until || q.second < until))
  }

  lemma {:induction false} LastStoredStays(s: Layers, before: seq<Op>, force: bool, q: Request, after: seq<Op>)
    requires Misses(Run(s, before), force, q) && q.fetch.Some?
    requires forall k :: 0 <= k < |after| ==> Leaves(after[k], q.id, q.stamp + q.ttl, !Run(s, before).unwritable && q.write == Written)
    ensures LastStored(s, before + [Ask(force, q)] + after, q.id)
      == Some(Last(Entry(1, q.stamp + q.ttl, q.fetch.value), !Run(s, before).unwritable && q.write == Written))
  {
    var ops := before + [Ask(force, q)] + after;
    if after == [] {
      assert ops[..|ops|-1] == before && ops[|ops|-1] == Ask(force, q);
      hide Misses, Run, Leaves;
    } else {
      var last := after[|after|-1];
      assert ops[..|ops|-1] == before + [Ask(force, q)] + after[..|after|-1] && ops[|ops|-1] == last;
      assert Leaves(last, q.id, q.stamp + q.ttl, !Run(s, before).unwritable && q.write == Written);
      LastStoredStays(s, before, force, q, after[..|after|-1]);
      if last.Ask? && last.q.id == q.id {
        RefetchOnlyAfterExpiry(s, ops[..|ops|-1], last.q);
      }
      hide Run;
    }
  }

  /** Once a call has fetched, and as long as nothing replaces or loses what it stored, lookups
      serve what it fetched exactly until its clock reading plus its TTL, and a call that is not
      forced goes to the source exactly when both of its readings are at or past that time. */
  lemma ServedUntilExpiry(s: Layers, before: seq<Op>, force: bool, q: Request, after: seq<Op>, later: Request)
    requires Misses(Run(s, before), force, q) && q.fetch.Some?
    requires forall k :: 0 <= k < |after| ==> Leaves(after[k], q.id, q.stamp + q.ttl, !Run(s, before).unwritable && q.write == Written)
    requires later.id == q.id
    ensures var t := Run(s, before + [Ask(force, q)] + after);
      && (Misses(t, false, later) <==> q.stamp + q.ttl <= later.first && q.stamp + q.ttl <= later.second)
      && (forall now :: Lookup(t, q.id, now).Some? <==> now < q.stamp + q.ttl)
      && (forall now :: now < q.stamp + q.ttl ==> Lookup(t, q.id, now).value.versions == q.fetch.value)
  {
    var ops := before + [Ask(force, q)] + after;
    LastStoredStays(s, before, force, q, after);
    RefetchOnlyAfterExpiry(s, ops, later);
    RunRemembers(s, ops, q.id);
    hide Run, LastStored, Leaves, Misses;
  }

  // ---------- calls side by side ----------

  /** The entry a call holds on to. */
  function Held(p: Phase): Option<Entry> {
    match p
    case Found(_, e) => Some(e)
    case FromDisk(_, e) => Some(e)
    case Keep(_, e) => Some(e)
    case Remember(e) => Some(e)
    case WriteDisk(e) => Some(e)
    case _ => None
  }

  /** Where an entry of this process comes from: a call made it, or it was in the file of the key
      when the process began, or it came into that file from elsewhere later. */
  ghost predicate Origin(disk: map<string, File>, log: seq<Event>, id: string, e: Entry) {
    || (exists c, at :: Made(c, id, e, at) in log)
    || OnDisk(disk, id) == Stored(e)
    || Placed(id, Stored(e)) in log
  }

  ghost predicate HeldOk(disk: map<string, File>, s: State) {
    forall c :: 0 <= c < |s.calls| && Held(s.calls[c].phase).Some? ==> Origin(disk, s.log, s.calls[c].id, Held(s.calls[c].phase).value)
  }

  ghost predicate LayersOk(disk: map<string, File>, s: State) {
    && (forall id :: id in s.memory ==> Origin(disk, s.log, id, s.memory[id]))
    && (forall id :: id in s.disk && s.disk[id].Stored? ==> Origin(disk, s.log, id, s.disk[id].entry))
  }

  /** What a call makes expires when its TTL has passed since it looked at the clock. */
  ghost predicate MadeOk(s: State) {
    forall c: nat, id, e, at :: Made(c, id, e, at) in s.log ==> c < |s.calls| && s.calls[c].id == id && e.schema == 1 && e.expiresAt == at + s.calls[c].ttl
  }

  ghost predicate AcceptedOk(disk: map<string, File>, s: State) {
    forall c, id, e, t :: Accepted(c, id, e, t) in s.log ==> Origin(disk, s.log, id, e) && e.schema == 1 && t < e.expiresAt
  }

  ghost predicate Traced(disk: map<string, File>, s: State) {
    HeldOk(disk, s) && LayersOk(disk, s) && MadeOk(s) && AcceptedOk(disk, s)
  }

  lemma OriginStays(disk: map<string, File>, log: seq<Event>, more: seq<Event>)
    requires Extends(log, more)
    ensures forall id, e :: Origin(disk, log, id, e) ==> Origin(disk, more, id, e)
  {
  }

  /** The entry a call holds after its step. */
  lemma EffectHeld(s: State, c: nat, a: Answer)
    requires CanAdvance(s, c) && Held(EffectOf(s, c, a).phase).Some?
    ensures var id, e := s.calls[c].id, Held(EffectOf(s, c, a).phase).value;
      || Held(s.calls[c].phase) == Some(e)
      || (id in s.memory && s.memory[id] == e)
      || (id in s.disk && s.disk[id] == Stored(e))
      || Made(c, id, e, s.now) in EffectOf(s, c, a).events
  {
  }

  /** A step only stores the entry that its call holds. */
  lemma EffectStored(s: State, c: nat, a: Answer)
    requires CanAdvance(s, c)
    ensures var id, held, e := s.calls[c].id, Held(s.calls[c].phase), EffectOf(s, c, a);
      && (e.memory == s.memory || (held.Some? && e.memory == s.memory[id := held.value]))
      && (e.disk == s.disk || (held.Some? && e.disk == s.disk[id := Stored(held.value)]))
  {
    EffectElsewhere(s, c, a);
    var p := s.calls[c].phase;
    if p.Keep? || p.Remember? {
      assert EffectOf(s, c, a).memory == s.memory[s.calls[c].id := p.entry];
    }
    if p.WriteDisk? {
      assert EffectOf(s, c, a).disk in {s.disk, s.disk[s.calls[c].id := Stored(p.entry)]};
    }
    hide EffectOf;
  }

  /** What a step puts on record. */
  lemma EffectRecord(s: State, c: nat, a: Answer)
    requires CanAdvance(s, c)
    ensures var id, ttl, held := s.calls[c].id, s.calls[c].ttl, Held(s.calls[c].phase);
      && (forall d, i, e, at :: Made(d, i, e, at) in EffectOf(s, c, a).events ==> d == c && i == id && e.schema == 1 && e.expiresAt == at + ttl)
      && (forall d, i, e, t :: Accepted(d, i, e, t) in EffectOf(s, c, a).events ==> i == id && held == Some(e) && e.schema == 1 && t < e.expiresAt)
  {
  }

  lemma AdvanceHeld(disk: map<string, File>, s: State, c: nat, a: Answer)
    requires CanAdvance(s, c) && Traced(disk, s)
    ensures HeldOk(disk, Advanced(s, c, a))
  {
    var t := Advanced(s, c, a);
    AdvanceShape(s, c, a);
    OriginStays(disk, s.log, t.log);
    assert t.log == s.log + EffectOf(s, c, a).events;
    if Held(EffectOf(s, c, a).phase).Some? {
      EffectHeld(s, c, a);
    }
    hide EffectOf, Advanced, Held, CanAdvance, MadeOk, AcceptedOk;
    assert Held(t.calls[c].phase).Some? ==> Origin(disk, t.log, t.calls[c].id, Held(t.calls[c].phase).value);
    hide Origin;
  }

  lemma AdvanceStored(disk: map<string, File>, s: State, c: nat, a: Answer)
    requires CanAdvance(s, c) && Traced(disk, s)
    ensures LayersOk(disk, Advanced(s, c, a))
  {
    AdvanceShape(s, c, a);
    OriginStays(disk, s.log, Advanced(s, c, a).log);
    EffectStored(s, c, a);
    hide EffectOf, Origin, Held, MadeOk, AcceptedOk;
  }

  lemma AdvanceRecord(disk: map<string, File>, s: State, c: nat, a: Answer)
    requires CanAdvance(s, c) && Traced(disk, s)
    ensures MadeOk(Advanced(s, c, a)) && AcceptedOk(disk, Advanced(s, c, a))
  {
    AdvanceShape(s, c, a);
    OriginStays(disk, s.log, Advanced(s, c, a).log);
    EffectRecord(s, c, a);
    hide EffectOf, Origin, Held, LayersOk;
  }

  lemma EnvironmentTraced(disk: map<string, File>, s: State, step: Step)
    requires Enabled(s, step) && !step.Advance? && Traced(disk, s)
    ensures Traced(disk, Next(s, step))
  {
    var t := Next(s, step);
    OriginStays(disk, s.log, t.log);
    if step.OtherFile? {
      PlacedOrigin(disk, s, step);
    }
    hide Origin, Enabled;
    assert HeldOk(disk, t);
    assert LayersOk(disk, t);
    assert MadeOk(t);
  }

  lemma PlacedOrigin(disk: map<string, File>, s: State, step: Step)
    requires step.OtherFile? && Enabled(s, step)
    ensures step.file.Stored? ==> Origin(disk, Next(s, step).log, step.id, step.file.entry)
  {
    assert Placed(step.id, step.file) in Next(s, step).log;
    assert step.file.Stored? ==> step.file == Stored(step.file.entry);
  }

  lemma NextTraced(disk: map<string, File>, s: State, step: Step)
    requires Enabled(s, step) && Traced(disk, s)
    ensures Traced(disk, Next(s, step))
  {
    match step
    case Advance(c, a) =>
      AdvanceHeld(disk, s, c, a);
      AdvanceStored(disk, s, c, a);
      AdvanceRecord(disk, s, c, a);
    case _ => EnvironmentTraced(disk, s, step);
  }

  lemma {:induction false} RunTraced(run: seq<State>, k: nat)
    requires IsRun(run) && k < |run|
    ensures Traced(run[0].disk, run[k])
  {
    if k == 0 {
      hide Follows;
    } else {
      RunTraced(run, k - 1);
      assert Follows(run[k-1], run[k]);
      hide Enabled, Traced, Next, IsRun;
      var step :| Enabled(run[k-1], step) && run[k] == Next(run[k-1], step);
      NextTraced(run[0].disk, run[k-1], step);
    }
  }

  /** In any interleaving, an entry that a call accepts was made by a call of this process whose
      TTL has not yet passed since it looked at the clock; or it was in the file of the key when
      the process began, or came there from elsewhere. Whoever made it, its TTL has not passed. */
  lemma AcceptedInTime(run: seq<State>, k: nat, d: nat, id: string, e: Entry, t: Time)
    requires IsRun(run) && k < |run| && Accepted(d, id, e, t) in run[k].log
    ensures var s := run[k];
      && (|| (exists c, at :: Made(c, id, e, at) in s.log)
          || OnDisk(run[0].disk, id) == Stored(e)
          || Placed(id, Stored(e)) in s.log)
      && (forall c: nat, at :: Made(c, id, e, at) in s.log ==> c < |s.calls| && s.calls[c].id == id && t < at + s.calls[c].ttl)
  {
    RunTraced(run, k);
    hide IsRun;
  }

  /** What a call returns was fetched by the flight it was on, or stored by a call of this process
      and accepted before that call's TTL had passed, or found in a file of other origin. */
  lemma ReturnedInTime(run: seq<State>, k: nat, c: nat)
    requires IsRun(run) && k < |run| && c < |run[k].calls|
    requires run[k].calls[c].phase.Done? && run[k].calls[c].phase.result.Some?
    ensures var s := run[k];
      var id, v, via := s.calls[c].id, s.calls[c].phase.result.value, s.calls[c].phase.via;
      || Fetched(Some(via), id, v) in s.log
      || (exists e, t, m: nat, at :: Accepted(via, id, e, t) in s.log && Made(m, id, e, at) in s.log && e.versions == v && m < |s.calls| && t < at + s.calls[m].ttl)
      || (exists x :: OnDisk(run[0].disk, id) == Stored(Entry(1, x, v)))
      || (exists x :: Placed(id, Stored(Entry(1, x, v))) in s.log)
  {
    ReturnsOnlyLiveVersions(run, k, c);
    var s := run[k];
    var id, v, via := s.calls[c].id, s.calls[c].phase.result.value, s.calls[c].phase.via;
    hide IsRun;
    if Fetched(Some(via), id, v) !in s.log {
      var e, t :| Accepted(via, id, e, t) in s.log && e.schema == SCHEMA_VERSION && t < e.expiresAt && e.versions == v;
      AcceptedInTime(run, k, via, id, e, t);
      assert e == Entry(1, e.expiresAt, v);
    }
  }
}
