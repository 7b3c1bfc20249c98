/** The cache of fetched versions as one process uses it: a memory layer, a disk layer and a TTL. */
module VersionCache {
  import opened Wrappers

  const SCHEMA_VERSION: int := 1

  type Versions = seq<string>
  type Time = int

  datatype Entry = Entry(schema: int, expiresAt: Time, versions: Versions)

  /** What reading the file of a key gives. */
  datatype File = Missing | Corrupt | Stored(entry: Entry)

  predicate Valid(e: Entry, now: Time) {
    e.schema == SCHEMA_VERSION && now < e.expiresAt
  }

  // ---------- keys ----------

  /** What is hashed into a key: every part closed by a NUL, then the token's fingerprint. */
  function KeyInput(parts: seq<string>, fingerprint: string): string {
    if parts == [] then fingerprint else parts[0] + "\0" + KeyInput(parts[1..], fingerprint)
  }

  predicate NulFree(s: string) {
    '\0' !in s
  }

  /** Different NUL-free parts or fingerprints never give the hash the same input. */
  lemma {:induction false} KeyInputInjective(p: seq<string>, f: string, q: seq<string>, g: string)
    requires (forall s :: s in p ==> NulFree(s)) && (forall s :: s in q ==> NulFree(s)) && NulFree(f) && NulFree(g)
    ensures KeyInput(p, f) == KeyInput(q, g) <==> p == q && f == g
    decreases |p|
  {
    if p != [] && q != [] {
      KeyInputInjective(p[1..], f, q[1..], g);
      assert KeyInput(p, f) == p[0] + "\0" + KeyInput(p[1..], f) && KeyInput(q, g) == q[0] + "\0" + KeyInput(q[1..], g);
      hide KeyInput;
      if KeyInput(p, f) == KeyInput(q, g) {
        FirstNul(p[0], KeyInput(p[1..], f), q[0], KeyInput(q[1..], g));
        assert p == [p[0]] + p[1..] && q == [q[0]] + q[1..];
      }
    } else if p != [] {
      PartsHaveNul(p, f);
    } else if q != [] {
      PartsHaveNul(q, g);
    }
  }

  lemma PartsHaveNul(p: seq<string>, f: string)
    requires p != []
    ensures !NulFree(KeyInput(p, f))
  {
    assert KeyInput(p, f)[|p[0]|] == '\0';
  }

  lemma FirstNul(a: string, x: string, b: string, y: string)
    requires NulFree(a) && NulFree(b) && a + "\0" + x == b + "\0" + y
    ensures a == b && x == y
  {
    var s := a + "\0" + x;
    assert s[|a|] == '\0' && s[|b|] == '\0';
    assert forall k :: 0 <= k < |a| ==> s[k] == a[k];
    assert forall k :: 0 <= k < |b| ==> s[k] == b[k];
    assert |a| == |b|;
    assert s[..|a|] == a && s[..|b|] == b;
    assert s[|a|+1..] == x && s[|b|+1..] == y;
  }

  // ---------- the layers ----------

  datatype Layers = Layers(memory: map<string, Entry>, disk: map<string, File>, unwritable: bool)

  function OnDisk(disk: map<string, File>, id: string): File {
    if id in disk then disk[id] else Missing
  }

  /** The entry a lookup serves: memory decides alone when it knows the key. */
  function Lookup(s: Layers, id: string, now: Time): Option<Entry> {
    if id in s.memory then (if Valid(s.memory[id], now) then Some(s.memory[id]) else None)
    else
      match OnDisk(s.disk, id)
      case Stored(e) => if Valid(e, now) then Some(e) else None
      case _ => None
  }

  /** A served entry is in memory afterwards. */
  function AfterLookup(s: Layers, id: string, now: Time): Layers {
    match Lookup(s, id, now)
    case Some(e) => s.(memory := s.memory[id := e])
    case None => s
  }

  /** How writing the file ends; each failure but that of the encoder makes the directory unwritable. */
  datatype Write = NoDirectory | NotEncoded | NoFile | NotRenamed | Written

  function AfterStore(s: Layers, id: string, e: Entry, write: Write): Layers {
    var kept := s.(memory := s.memory[id := e]);
    if s.unwritable then kept
    else
      match write
      case Written => kept.(disk := s.disk[id := Stored(e)])
      case NotEncoded => kept
      case _ => kept.(unwritable := true)
  }

  /** Every failed write but that of the encoder stops writing; nothing else does. */
  lemma UnwritableIff(s: Layers, id: string, e: Entry, write: Write)
    ensures AfterStore(s, id, e, write).unwritable <==> s.unwritable || write in {NoDirectory, NoFile, NotRenamed}
  {
  }

  /** The clock readings of a call, its TTL, what a fetch would return, and how a write would end. */
  datatype Request = Request(id: string, first: Time, second: Time, stamp: Time, ttl: Time, fetch: Option<Versions>, write: Write)

  datatype Reply = Reply(versions: Option<Versions>, fetched: bool)

  function Fresh(q: Request, versions: Versions): Entry {
    Entry(SCHEMA_VERSION, q.stamp + q.ttl, versions)
  }

  /** Whether a call goes to the source: neither lookup serves an entry. */
  predicate Misses(s: Layers, force: bool, q: Request) {
    force || (Lookup(s, q.id, q.first) == None && Lookup(s, q.id, q.second) == None)
  }

  function Serve(s: Layers, q: Request): Layers {
    if Lookup(s, q.id, q.first).Some? then AfterLookup(s, q.id, q.first) else AfterLookup(s, q.id, q.second)
  }

  /** The layers after a call. */
  function AfterCall(s: Layers, force: bool, q: Request): Layers {
    if !Misses(s, force, q) then Serve(s, q)
    else if q.fetch.None? then s
    else AfterStore(s, q.id, Fresh(q, q.fetch.value), q.write)
  }

  /** The versions are those of an entry that a lookup of the call serves. */
  ghost predicate FromEntry(s: Layers, q: Request, versions: Versions) {
    || (Lookup(s, q.id, q.first).Some? && versions == Lookup(s, q.id, q.first).value.versions)
    || (Lookup(s, q.id, q.first).None? && Lookup(s, q.id, q.second).Some? && versions == Lookup(s, q.id, q.second).value.versions)
  }

  class Cache {
    var memory: map<string, Entry>
    var disk: map<string, File>
    var unwritable: bool
    var forceRefresh: bool

    /** A new process finds the disk as it is. */
    constructor (disk: map<string, File>)
      ensures Now() == Layers(map[], disk, false) && !forceRefresh
    {
      memory, this.disk, unwritable, forceRefresh := map[], disk, false, false;
    }

    function Now(): Layers
      reads this
    {
      Layers(memory, disk, unwritable)
    }

    method SetForceRefresh(refresh: bool)
      modifies this`forceRefresh
      ensures forceRefresh == refresh
    {
      forceRefresh := refresh;
    }

    method MarkUnwritable()
      modifies this`unwritable
      ensures unwritable
    {
      unwritable := true;
    }

    method Load(id: string, now: Time) returns (r: Option<Entry>)
      modifies this`memory
      ensures r == Lookup(old(Now()), id, now)
      ensures Now() == AfterLookup(old(Now()), id, now)
    {
      if id in memory {
        if Valid(memory[id], now) {
          assert memory == memory[id := memory[id]];
          return Some(memory[id]);
        }
        return None;
      }
      match OnDisk(disk, id) {
        case Missing => return None;
        case Corrupt => return None;
        case Stored(e) =>
          if !Valid(e, now) {
            return None;
          }
          memory := memory[id := e];
          return Some(e);
      }
    }

    method Store(id: string, e: Entry, write: Write)
      modifies this`memory, this`disk, this`unwritable
      ensures Now() == AfterStore(old(Now()), id, e, write)
    {
      memory := memory[id := e];
      if unwritable {
        return;
      }
      match write {
        case NoDirectory => MarkUnwritable();
        case NotEncoded =>
        case NoFile => MarkUnwritable();
        case NotRenamed => MarkUnwritable();
        case Written => disk := disk[id := Stored(e)];
      }
    }

    /** The answer is a served entry or a fetch; an expired entry is never an answer, not even
        when the fetch fails. */
    method FetchVersions(q: Request) returns (r: Reply)
      modifies this`memory, this`disk, this`unwritable
      ensures Now() == AfterCall(old(Now()), forceRefresh, q)
      ensures r.fetched <==> Misses(old(Now()), forceRefresh, q)
      ensures r.fetched ==> r.versions == q.fetch
      ensures !r.fetched ==> r.versions.Some? && FromEntry(old(Now()), q, r.versions.value)
      ensures r.fetched && r.versions.Some? ==> q.id in memory && memory[q.id] == Entry(1, q.stamp + q.ttl, r.versions.value)
    {
      var refresh := forceRefresh;
      if !refresh {
        var hit := Load(q.id, q.first);
        if hit.Some? {
          return Reply(Some(hit.value.versions), false);
        }
        hit := Load(q.id, q.second);
        if hit.Some? {
          return Reply(Some(hit.value.versions), false);
        }
      }
      if q.fetch.None? {
        return Reply(None, true);
      }
      Store(q.id, Entry(SCHEMA_VERSION, q.stamp + q.ttl, q.fetch.value), q.write);
      return Reply(q.fetch, true);
    }
  }

  // ---------- runs of one process after another ----------

  /** Ask is one FetchVersions; Restart replaces the process and keeps the disk. */
  datatype Op = Ask(force: bool, q: Request) | Restart

  function After(s: Layers, op: Op): Layers {
    match op
    case Restart => Layers(map[], s.disk, false)
    case Ask(force, q) => AfterCall(s, force, q)
  }

  function Run(s: Layers, ops: seq<Op>): Layers {
    if ops == [] then s else After(Run(s, ops[..|ops|-1]), ops[|ops|-1])
  }

  /** From then on nothing reaches the disk until the process ends. */
  lemma {:induction false} UnwritableStays(s: Layers, ops: seq<Op>)
    requires s.unwritable && Restart !in ops
    ensures Run(s, ops).unwritable && Run(s, ops).disk == s.disk
  {
    if ops != [] {
      UnwritableStays(s, ops[..|ops|-1]);
      assert ops[|ops|-1] in ops && ops[|ops|-1].Ask?;
    }
  }

  /** The last entry stored under a key, and whether it reached the disk. */
  datatype Last = Last(entry: Entry, reached: bool)

  /** What the processes stored last, as far as a restart does not lose it. */
  function LastStored(s: Layers, ops: seq<Op>, id: string): Option<Last> {
    if ops == [] then None else
      var before := ops[..|ops|-1];
      var last := LastStored(s, before, id);
      match ops[|ops|-1]
      case Restart => if last.Some? && last.value.reached then last else None
      case Ask(force, q) =>
        var now := Run(s, before);
        if q.id == id && Misses(now, force, q) && q.fetch.Some? then Some(Last(Fresh(q, q.fetch.value), !now.unwritable && q.write == Written))
        else last
  }

  /** The last stored entry is still the one a lookup finds. */
  ghost predicate Remembers(s: Layers, id: string, last: Option<Last>) {
    match last
    case None => true
    case Some(l) =>
      && l.entry.schema == SCHEMA_VERSION
      && (id in s.memory ==> s.memory[id] == l.entry)
      && (id !in s.memory ==> l.reached)
      && (l.reached ==> OnDisk(s.disk, id) == Stored(l.entry))
  }

  lemma StepRemembers(s: Layers, op: Op, id: string, last: Option<Last>)
    requires Remembers(s, id, last)
    ensures match op
      case Restart => Remembers(After(s, op), id, if last.Some? && last.value.reached then last else None)
      case Ask(force, q) =>
        Remembers(After(s, op), id, if q.id == id && Misses(s, force, q) && q.fetch.Some?
          then Some(Last(Fresh(q, q.fetch.value), !s.unwritable && q.write == Written)) else last)
  {
  }

  lemma NothingToRemember(s: Layers, id: string)
    ensures Remembers(s, id, None)
  {
  }

  lemma {:induction false} RunRemembers(s: Layers, ops: seq<Op>, id: string)
    ensures Remembers(Run(s, ops), id, LastStored(s, ops, id))
  {
    hide Remembers, After, Misses;
    if ops == [] {
      NothingToRemember(s, id);
    } else {
      RunRemembers(s, ops[..|ops|-1], id);
      StepRemembers(Run(s, ops[..|ops|-1]), ops[|ops|-1], id, LastStored(s, ops[..|ops|-1], id));
    }
  }

  /** After any run, a call that is not forced goes to the source only when the last stored entry
      has expired at both of its lookups, and answers from that entry otherwise. */
  lemma RefetchOnlyAfterExpiry(s: Layers, ops: seq<Op>, q: Request)
    requires LastStored(s, ops, q.id).Some?
    ensures var e := LastStored(s, ops, q.id).value.entry;
      && (Misses(Run(s, ops), false, q) <==> e.expiresAt <= q.first && e.expiresAt <= q.second)
      && (forall t :: t < e.expiresAt ==> Lookup(Run(s, ops), q.id, t) == Some(e))
  {
    RunRemembers(s, ops, q.id);
  }
}
