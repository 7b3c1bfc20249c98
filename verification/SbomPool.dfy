/** The SBOM worker pool as a protocol: every step is what one worker does under the mutex or
    between two locks, and any worker may go next. */
module SbomPool {
  import opened Wrappers

  type Item = string
  type Error = string

  /** Where a worker stands. Written and Failing have still to report under the mutex. */
  datatype Worker =
    | Idle
    | Working(item: Item)
    | Written(item: Item)
    | Failing(item: Item, error: Error)
    | Stopped

  /** succeeded and failed record which items the counter and the error stand for. */
  datatype Pool = Pool(
    queue: seq<Item>,
    workers: seq<Worker>,
    generated: nat,
    firstErr: Option<Error>,
    succeeded: multiset<Item>,
    failed: multiset<Item>)

  function Start(items: seq<Item>, workers: nat): Pool {
    Pool(items, seq(workers, _ => Idle), 0, None, multiset{}, multiset{})
  }

  /** The outcome of generating and writing one item. */
  datatype Outcome = Wrote | Broke(error: Error)

  /** One step of worker w. outcome matters only while it is working. A worker that fails stops;
      the others go on. */
  function StepOf(s: Pool, w: nat, outcome: Outcome): Pool
    requires w < |s.workers| && s.workers[w] != Stopped
  {
    match s.workers[w]
    case Idle =>
      if |s.queue| == 0 then s.(workers := s.workers[w := Stopped])
      else s.(workers := s.workers[w := Working(s.queue[0])], queue := s.queue[1..])
    case Working(item) =>
      (match outcome
       case Wrote => s.(workers := s.workers[w := Written(item)])
       case Broke(e) => s.(workers := s.workers[w := Failing(item, e)]))
    case Written(item) =>
      s.(workers := s.workers[w := Idle], generated := s.generated + 1, succeeded := s.succeeded + multiset{item})
    case Failing(item, e) =>
      s.(workers := s.workers[w := Stopped], firstErr := if s.firstErr == None then Some(e) else s.firstErr,
         failed := s.failed + multiset{item})
  }

  ghost predicate Next(s: Pool, t: Pool) {
    exists w: nat, outcome :: w < |s.workers| && s.workers[w] != Stopped && t == StepOf(s, w, outcome)
  }

  predicate AllStopped(s: Pool) {
    forall w :: 0 <= w < |s.workers| ==> s.workers[w] == Stopped
  }

  /** A run: it begins at the start and every state follows from the one before. */
  ghost predicate IsRun(items: seq<Item>, workers: nat, run: seq<Pool>) {
    && |run| > 0 && run[0] == Start(items, workers)
    && forall i, j :: 0 <= i && j == i + 1 && j < |run| ==> Next(run[i], run[j])
  }

  // ---------- what every step keeps ----------

  function HeldBy(w: Worker): multiset<Item> {
    match w
    case Working(item) => multiset{item}
    case Written(item) => multiset{item}
    case Failing(item, _) => multiset{item}
    case _ => multiset{}
  }

  function InProgress(workers: seq<Worker>): multiset<Item> {
    if workers == [] then multiset{} else InProgress(workers[..|workers|-1]) + HeldBy(workers[|workers|-1])
  }

  /** Both sides of an exchange gain the same rest. */
  lemma Rest(p': multiset<Item>, h: multiset<Item>, p: multiset<Item>, h': multiset<Item>, rest: multiset<Item>)
    requires p' + h == p + h'
    ensures (p' + rest) + h == (p + rest) + h'
  {
    forall x ensures ((p' + rest) + h)[x] == ((p + rest) + h')[x] {
      assert (p' + h)[x] == (p + h')[x];
    }
  }

  lemma {:induction false} InProgressUpdate(workers: seq<Worker>, w: nat, x: Worker)
    requires w < |workers|
    ensures InProgress(workers[w := x]) + HeldBy(workers[w]) == InProgress(workers) + HeldBy(x)
    decreases |workers|
  {
    hide HeldBy;
    var n := |workers| - 1;
    var more := workers[w := x];
    if w == n {
      assert more[..n] == workers[..n];
      Rest(HeldBy(x), HeldBy(workers[n]), HeldBy(workers[n]), HeldBy(x), InProgress(workers[..n]));
    } else {
      InProgressUpdate(workers[..n], w, x);
      assert more[..n] == workers[..n][w := x];
      Rest(InProgress(more[..n]), HeldBy(workers[w]), InProgress(workers[..n]), HeldBy(x), HeldBy(workers[n]));
    }
  }

  lemma {:induction false} NoneInProgress(workers: seq<Worker>)
    requires forall w :: 0 <= w < |workers| ==> HeldBy(workers[w]) == multiset{}
    ensures InProgress(workers) == multiset{}
  {
    if workers != [] {
      NoneInProgress(workers[..|workers|-1]);
    }
  }

  /** Queued, in progress, succeeded and failed items together are the initial items; the counter
      counts the successes; an error is recorded exactly when an item failed; and a worker can
      only have stopped because the queue is empty or it failed. */
  ghost predicate Inv(items: seq<Item>, s: Pool) {
    && Everything(s) == multiset(items)
    && s.generated == |s.succeeded|
    && (s.firstErr == None <==> s.failed == multiset{})
    && (s.queue != [] && s.failed == multiset{} ==> forall w :: 0 <= w < |s.workers| ==> s.workers[w] != Stopped)
  }

  lemma StartInv(items: seq<Item>, workers: nat)
    ensures Inv(items, Start(items, workers))
  {
    NoneInProgress(Start(items, workers).workers);
  }

  /** Everything that is somewhere in the pool. */
  function Everything(s: Pool): multiset<Item> {
    multiset(s.queue) + InProgress(s.workers) + s.succeeded + s.failed
  }

  /** The worker after its step. */
  lemma StepWorker(s: Pool, w: nat, outcome: Outcome)
    requires w < |s.workers| && s.workers[w] != Stopped
    ensures var t := StepOf(s, w, outcome);
      t.workers == s.workers[w := t.workers[w]]
      && InProgress(t.workers) + HeldBy(s.workers[w]) == InProgress(s.workers) + HeldBy(t.workers[w])
  {
    hide InProgress, HeldBy;
    var t := StepOf(s, w, outcome);
    InProgressUpdate(s.workers, w, t.workers[w]);
  }

  /** Taking the first item splits the queue. */
  lemma TakeFirst(queue: seq<Item>)
    requires queue != []
    ensures multiset(queue) == multiset(queue[1..]) + multiset{queue[0]}
  {
    assert queue == [queue[0]] + queue[1..];
  }

  /** Copies of x in the queue, among the results and in the hands of one worker. */
  function Copies(s: Pool, w: nat, x: Item): nat
    requires w < |s.workers|
  {
    multiset(s.queue)[x] + s.succeeded[x] + s.failed[x] + HeldBy(s.workers[w])[x]
  }

  lemma IdleItemsAt(s: Pool, w: nat, outcome: Outcome, x: Item)
    requires w < |s.workers| && s.workers[w] == Idle
    ensures Copies(StepOf(s, w, outcome), w, x) == Copies(s, w, x)
  {
    if s.queue != [] {
      TakeFirst(s.queue);
      assert StepOf(s, w, outcome).workers[w] == Working(s.queue[0]);
    }
  }

  lemma WorkingItemsAt(s: Pool, w: nat, outcome: Outcome, x: Item)
    requires w < |s.workers| && s.workers[w].Working?
    ensures Copies(StepOf(s, w, outcome), w, x) == Copies(s, w, x)
  {
    var held := StepOf(s, w, outcome).workers[w];
    assert HeldBy(held) == multiset{s.workers[w].item};
  }

  lemma WrittenItemsAt(s: Pool, w: nat, outcome: Outcome, x: Item)
    requires w < |s.workers| && s.workers[w].Written?
    ensures Copies(StepOf(s, w, outcome), w, x) == Copies(s, w, x)
  {
    assert StepOf(s, w, outcome).workers[w] == Idle;
  }

  lemma FailingItemsAt(s: Pool, w: nat, outcome: Outcome, x: Item)
    requires w < |s.workers| && s.workers[w].Failing?
    ensures Copies(StepOf(s, w, outcome), w, x) == Copies(s, w, x)
  {
    assert StepOf(s, w, outcome).workers[w] == Stopped;
  }

  lemma StepItems(s: Pool, w: nat, outcome: Outcome)
    requires w < |s.workers| && s.workers[w] != Stopped
    ensures var t := StepOf(s, w, outcome);
      multiset(t.queue) + t.succeeded + t.failed + HeldBy(t.workers[w]) == multiset(s.queue) + s.succeeded + s.failed + HeldBy(s.workers[w])
  {
    StepWorker(s, w, outcome);
    hide StepOf, HeldBy, InProgress;
    var t := StepOf(s, w, outcome);
    forall x ensures Copies(t, w, x) == Copies(s, w, x) {
      match s.workers[w]
      case Idle => IdleItemsAt(s, w, outcome, x);
      case Working(_) => WorkingItemsAt(s, w, outcome, x);
      case Written(_) => WrittenItemsAt(s, w, outcome, x);
      case Failing(_, _) => FailingItemsAt(s, w, outcome, x);
    }
    SameCopies(t, s, w);
  }

  lemma SameCopies(t: Pool, s: Pool, w: nat)
    requires w < |s.workers| && w < |t.workers| && forall x :: Copies(t, w, x) == Copies(s, w, x)
    ensures multiset(t.queue) + t.succeeded + t.failed + HeldBy(t.workers[w]) == multiset(s.queue) + s.succeeded + s.failed + HeldBy(s.workers[w])
  {
    hide HeldBy;
    var left := multiset(t.queue) + t.succeeded + t.failed + HeldBy(t.workers[w]);
    var right := multiset(s.queue) + s.succeeded + s.failed + HeldBy(s.workers[w]);
    forall x ensures left[x] == right[x] {
      assert Copies(t, w, x) == Copies(s, w, x);
    }
  }

  lemma Balance(q: multiset<Item>, p: multiset<Item>, h: multiset<Item>, q': multiset<Item>, p': multiset<Item>, h': multiset<Item>)
    requires p' + h == p + h' && q' + h' == q + h
    ensures q + p == q' + p'
  {
    forall x ensures (q + p)[x] == (q' + p')[x] {
      assert (p' + h)[x] == (p + h')[x] && (q' + h')[x] == (q + h)[x];
    }
  }

  lemma StepConserves(s: Pool, w: nat, outcome: Outcome)
    requires w < |s.workers| && s.workers[w] != Stopped
    ensures Everything(StepOf(s, w, outcome)) == Everything(s)
  {
    hide StepOf, InProgress, HeldBy;
    var t := StepOf(s, w, outcome);
    StepWorker(s, w, outcome);
    StepItems(s, w, outcome);
    var q, q' := multiset(s.queue) + s.succeeded + s.failed, multiset(t.queue) + t.succeeded + t.failed;
    Balance(q, InProgress(s.workers), HeldBy(s.workers[w]), q', InProgress(t.workers), HeldBy(t.workers[w]));
    assert Everything(s) == q + InProgress(s.workers) && Everything(t) == q' + InProgress(t.workers);
  }

  lemma StepInv(items: seq<Item>, s: Pool, w: nat, outcome: Outcome)
    requires w < |s.workers| && s.workers[w] != Stopped && Inv(items, s)
    ensures Inv(items, StepOf(s, w, outcome))
  {
    hide Everything, HeldBy;
    StepConserves(s, w, outcome);
  }

  /** How many steps are left at most. */
  function Weight(w: Worker): nat {
    match w
    case Idle => 1
    case Working(_) => 3
    case Written(_) => 2
    case Failing(_, _) => 1
    case Stopped => 0
  }

  function Weights(workers: seq<Worker>): nat {
    if workers == [] then 0 else Weights(workers[..|workers|-1]) + Weight(workers[|workers|-1])
  }

  lemma {:induction false} WeightsUpdate(workers: seq<Worker>, w: nat, x: Worker)
    requires w < |workers|
    ensures Weights(workers[w := x]) + Weight(workers[w]) == Weights(workers) + Weight(x)
    decreases |workers|
  {
    var n := |workers| - 1;
    var more := workers[w := x];
    if w == n {
      assert more[..n] == workers[..n];
    } else {
      WeightsUpdate(workers[..n], w, x);
      assert more[..n] == workers[..n][w := x];
    }
  }

  function Remaining(s: Pool): nat {
    3 * |s.queue| + Weights(s.workers)
  }

  lemma StepShrinks(s: Pool, w: nat, outcome: Outcome)
    requires w < |s.workers| && s.workers[w] != Stopped
    ensures Remaining(StepOf(s, w, outcome)) < Remaining(s)
  {
    var t := StepOf(s, w, outcome);
    WeightsUpdate(s.workers, w, t.workers[w]);
    assert t.workers == s.workers[w := t.workers[w]];
  }

  // ---------- whole runs ----------

  /** Every state of every run keeps the invariant, and a run of k steps used up at least k. */
  lemma {:induction false} RunInv(items: seq<Item>, workers: nat, run: seq<Pool>)
    requires IsRun(items, workers, run)
    ensures Inv(items, run[|run|-1])
    ensures |run[|run|-1].workers| == workers
    ensures Remaining(run[|run|-1]) + (|run| - 1) <= Remaining(Start(items, workers))
    decreases |run|
  {
    hide Inv, Remaining, Next;
    if |run| == 1 {
      StartInv(items, workers);
    } else {
      hide IsRun, Start;
      var front := run[..|run|-1];
      RunInv(items, workers, front);
      NextKeeps(items, run[|run|-2], run[|run|-1]);
    }
  }

  lemma NextKeeps(items: seq<Item>, s: Pool, t: Pool)
    requires Next(s, t) && Inv(items, s)
    ensures Inv(items, t) && |t.workers| == |s.workers| && Remaining(t) < Remaining(s)
  {
    hide Inv, Remaining;
    var w: nat, outcome :| w < |s.workers| && s.workers[w] != Stopped && t == StepOf(s, w, outcome);
    StepInv(items, s, w, outcome);
    StepShrinks(s, w, outcome);
  }

  /** The first error recorded is the one reported: no later failure replaces it. */
  lemma {:induction false} FirstErrorStays(items: seq<Item>, workers: nat, run: seq<Pool>, i: nat, j: nat)
    requires IsRun(items, workers, run) && i <= j < |run| && run[i].firstErr.Some?
    ensures run[j].firstErr == run[i].firstErr
    decreases j
  {
    hide Start;
    if i < j {
      FirstErrorStays(items, workers, run, i, j - 1);
      assert Next(run[j-1], run[j]);
    }
  }

  /** Items are taken in order: what is queued is a tail of the items. */
  lemma {:induction false} TakenInOrder(items: seq<Item>, workers: nat, run: seq<Pool>, k: nat)
    requires IsRun(items, workers, run) && k < |run|
    ensures |run[k].queue| <= |items| && run[k].queue == items[|items|-|run[k].queue|..]
  {
    if k > 0 {
      TakenInOrder(items, workers, run, k - 1);
      assert Next(run[k-1], run[k]);
    }
  }

  /** In this step the work of an item fails with error e. */
  ghost predicate Breaks(s: Pool, t: Pool, e: Error) {
    exists w: nat :: w < |s.workers| && s.workers[w].Working? && t == StepOf(s, w, Broke(e))
  }

  ghost predicate Broken(run: seq<Pool>, e: Error) {
    exists i, j :: 0 <= i && j == i + 1 && j < |run| && Breaks(run[i], run[j], e)
  }

  /** The error is recorded, or about to be. */
  ghost predicate Known(s: Pool, e: Error) {
    s.firstErr == Some(e) || exists w, item :: 0 <= w < |s.workers| && s.workers[w] == Failing(item, e)
  }

  ghost predicate SomeKnown(s: Pool) {
    exists e :: Known(s, e)
  }

  lemma KnownBefore(s: Pool, t: Pool, e: Error)
    requires Next(s, t) && Known(t, e)
    ensures Known(s, e) || Breaks(s, t, e)
  {
    var w: nat, outcome :| w < |s.workers| && s.workers[w] != Stopped && t == StepOf(s, w, outcome);
    if t.firstErr == Some(e) {
      assert s.firstErr == Some(e) || s.workers[w] == Failing(s.workers[w].item, e);
    } else {
      var v, item :| 0 <= v < |t.workers| && t.workers[v] == Failing(item, e);
      assert v != w ==> s.workers[v] == Failing(item, e);
      assert v == w ==> s.workers[w].Working? && outcome == Broke(e);
    }
  }

  lemma BreakIsKnown(s: Pool, t: Pool, e: Error)
    requires Breaks(s, t, e)
    ensures SomeKnown(t)
  {
    var v: nat :| v < |s.workers| && s.workers[v].Working? && t == StepOf(s, v, Broke(e));
    assert t.workers[v] == Failing(s.workers[v].item, e);
    assert Known(t, e);
  }

  lemma KnownAfter(s: Pool, t: Pool, e: Error)
    requires Next(s, t) && Known(s, e)
    ensures SomeKnown(t)
  {
    var w: nat, outcome :| w < |s.workers| && s.workers[w] != Stopped && t == StepOf(s, w, outcome);
    if s.firstErr.Some? {
      assert t.firstErr == s.firstErr;
      assert Known(t, s.firstErr.value);
    } else {
      var v, item :| 0 <= v < |s.workers| && s.workers[v] == Failing(item, e);
      assert if v == w then t.firstErr == Some(e) else t.workers[v] == Failing(item, e);
      hide StepOf;
      assert Known(t, e);
    }
  }

  lemma {:induction false} KnownIff(items: seq<Item>, workers: nat, run: seq<Pool>)
    requires IsRun(items, workers, run)
    ensures forall e :: Known(run[|run|-1], e) ==> Broken(run, e)
    ensures (exists e :: Broken(run, e)) ==> SomeKnown(run[|run|-1])
    decreases |run|
  {
    if |run| > 1 {
      var front := run[..|run|-1];
      var s, t := run[|run|-2], run[|run|-1];
      assert IsRun(items, workers, front);
      KnownIff(items, workers, front);
      assert Next(s, t) && front[|front|-1] == s;
      hide Known, Next, Breaks, IsRun;
      forall e | Known(t, e) ensures Broken(run, e) {
        KnownBefore(s, t, e);
        BrokenFront(run, e);
      }
      if e :| Broken(run, e) {
        BrokenFront(run, e);
        if !Breaks(s, t, e) {
          var d :| Known(s, d);
          KnownAfter(s, t, d);
        } else {
          BreakIsKnown(s, t, e);
        }
      }
    }
  }

  lemma BrokenFront(run: seq<Pool>, e: Error)
    requires |run| > 1
    ensures Broken(run, e) <==> Broken(run[..|run|-1], e) || Breaks(run[|run|-2], run[|run|-1], e)
  {
    hide Breaks;
    var front := run[..|run|-1];
    if Broken(front, e) {
      var i, j :| 0 <= i && j == i + 1 && j < |front| && Breaks(front[i], front[j], e);
      assert Breaks(run[i], run[j], e);
    }
    if Broken(run, e) {
      var i, j :| 0 <= i && j == i + 1 && j < |run| && Breaks(run[i], run[j], e);
      assert j < |front| ==> Breaks(front[i], front[j], e);
    }
  }

  /** When all workers have stopped, an error is reported exactly if the work of some item failed,
      and it is the error of such an item. */
  lemma ErrorIff(items: seq<Item>, workers: nat, run: seq<Pool>)
    requires IsRun(items, workers, run) && AllStopped(run[|run|-1])
    ensures run[|run|-1].firstErr.Some? <==> exists e :: Broken(run, e)
    ensures run[|run|-1].firstErr.Some? ==> Broken(run, run[|run|-1].firstErr.value)
  {
    KnownIff(items, workers, run);
    var s := run[|run|-1];
    assert AllStopped(s) ==> forall w :: 0 <= w < |s.workers| ==> !s.workers[w].Failing?;
    hide Broken, IsRun;
    assert forall e :: Known(s, e) <==> s.firstErr == Some(e);
    assert s.firstErr.Some? ==> Known(s, s.firstErr.value) && Broken(run, s.firstErr.value);
    assert SomeKnown(s) ==> s.firstErr.Some?;
  }

  lemma {:induction false} StartWeights(workers: nat)
    ensures Weights(seq(workers, _ => Idle)) == workers
  {
    if workers > 0 {
      StartWeights(workers - 1);
      assert seq(workers, _ => Idle)[..workers-1] == seq(workers - 1, _ => Idle);
    }
  }

  /** Every run ends: three steps per item and one per worker at most. */
  lemma PoolTerminates(items: seq<Item>, workers: nat, run: seq<Pool>)
    requires IsRun(items, workers, run)
    ensures |run| - 1 <= 3 * |items| + workers
  {
    RunInv(items, workers, run);
    StartWeights(workers);
  }

  /** No run gets stuck before all workers have stopped. */
  lemma PoolProgresses(s: Pool)
    ensures AllStopped(s) <==> forall t :: !Next(s, t)
  {
    if !AllStopped(s) {
      var w: nat :| w < |s.workers| && s.workers[w] != Stopped;
      assert Next(s, StepOf(s, w, Wrote));
    }
  }

  /** When all workers have stopped without a recorded error, every item has succeeded, exactly
      once. With an error, the items not accounted for by it or a success are still queued. */
  lemma PoolResult(items: seq<Item>, workers: nat, run: seq<Pool>)
    requires IsRun(items, workers, run) && workers >= 1 && AllStopped(run[|run|-1])
    ensures var s := run[|run|-1];
      && (s.firstErr == None ==> s.queue == [] && s.succeeded == multiset(items) && s.generated == |items|)
      && (s.firstErr != None ==> s.generated < |items|)
      && s.succeeded + s.failed + multiset(s.queue) == multiset(items)
  {
    RunInv(items, workers, run);
    var s := run[|run|-1];
    NoneInProgress(s.workers);
    assert |multiset(items)| == |items|;
    assert |s.succeeded + s.failed + multiset(s.queue)| == |s.succeeded| + |s.failed| + |s.queue|;
    if s.firstErr == None {
      assert s.workers[0] == Stopped;
    } else {
      assert |s.failed| != 0;
    }
  }

  // ---------- what failures leave behind ----------

  function StoppedCount(workers: seq<Worker>): nat {
    if workers == [] then 0
    else StoppedCount(workers[..|workers|-1]) + if workers[|workers|-1] == Stopped then 1 else 0
  }

  lemma {:induction false} StoppedUpdate(workers: seq<Worker>, w: nat, x: Worker)
    requires w < |workers| && workers[w] != Stopped
    ensures StoppedCount(workers[w := x]) == StoppedCount(workers) + if x == Stopped then 1 else 0
    decreases |workers|
  {
    var n := |workers| - 1;
    var more := workers[w := x];
    if w == n {
      assert more[..n] == workers[..n];
    } else {
      StoppedUpdate(workers[..n], w, x);
      assert more[..n] == workers[..n][w := x];
    }
  }

  lemma {:induction false} StoppedBound(workers: seq<Worker>)
    ensures StoppedCount(workers) <= |workers|
    ensures StoppedCount(workers) == |workers| <==> forall w :: 0 <= w < |workers| ==> workers[w] == Stopped
  {
    if workers != [] {
      var n := |workers| - 1;
      StoppedBound(workers[..n]);
      assert (forall w :: 0 <= w < |workers| ==> workers[w] == Stopped)
        <==> workers[n] == Stopped && forall w :: 0 <= w < n ==> workers[..n][w] == Stopped;
    }
  }

  lemma {:induction false} NoneStopped(workers: seq<Worker>)
    requires forall w :: 0 <= w < |workers| ==> workers[w] != Stopped
    ensures StoppedCount(workers) == 0
  {
    if workers != [] {
      NoneStopped(workers[..|workers|-1]);
    }
  }

  /** Every failure has stopped a worker, and while the queue holds items nothing else stops one. */
  ghost predicate FailuresStop(s: Pool) {
    |s.failed| <= StoppedCount(s.workers) && (s.queue != [] ==> |s.failed| == StoppedCount(s.workers))
  }

  lemma StepFailuresStop(s: Pool, w: nat, outcome: Outcome)
    requires w < |s.workers| && s.workers[w] != Stopped && FailuresStop(s)
    ensures FailuresStop(StepOf(s, w, outcome))
  {
    var t := StepOf(s, w, outcome);
    StoppedUpdate(s.workers, w, t.workers[w]);
    assert t.workers == s.workers[w := t.workers[w]];
    hide StoppedCount;
    if s.workers[w].Failing? {
      assert t.failed == s.failed + multiset{s.workers[w].item} && |t.failed| == |s.failed| + 1;
    }
  }

  lemma {:induction false} RunFailuresStop(items: seq<Item>, workers: nat, run: seq<Pool>)
    requires IsRun(items, workers, run)
    ensures FailuresStop(run[|run|-1])
    decreases |run|
  {
    hide FailuresStop, Next;
    if |run| == 1 {
      StartFailuresStop(items, workers);
    } else {
      hide Start;
      var s, t := run[|run|-2], run[|run|-1];
      assert Next(s, t);
      RunFailuresStop(items, workers, run[..|run|-1]);
      NextFailuresStop(s, t);
    }
  }

  lemma StartFailuresStop(items: seq<Item>, workers: nat)
    ensures FailuresStop(Start(items, workers))
  {
    NoneStopped(Start(items, workers).workers);
  }

  lemma NextFailuresStop(s: Pool, t: Pool)
    requires Next(s, t) && FailuresStop(s)
    ensures FailuresStop(t)
  {
    hide FailuresStop, StepOf;
    var w: nat, outcome :| w < |s.workers| && s.workers[w] != Stopped && t == StepOf(s, w, outcome);
    StepFailuresStop(s, w, outcome);
  }

  /** In a finished run at most one item per worker has failed, and items are left in the queue only
      if every worker failed on one; all other items have succeeded. */
  lemma StrandedOnlyWhenAllFail(items: seq<Item>, workers: nat, run: seq<Pool>)
    requires IsRun(items, workers, run) && workers >= 1 && AllStopped(run[|run|-1])
    ensures var s := run[|run|-1];
      && |s.failed| <= workers
      && (s.queue != [] ==> |s.failed| == workers)
      && s.generated + |s.failed| + |s.queue| == |items|
  {
    var s := run[|run|-1];
    RunFailuresStop(items, workers, run);
    RunInv(items, workers, run);
    StoppedBound(s.workers);
    PoolResult(items, workers, run);
    hide Inv, IsRun, StoppedCount;
    assert |s.succeeded + s.failed + multiset(s.queue)| == |s.succeeded| + |s.failed| + |s.queue|;
    assert |multiset(items)| == |items|;
  }

  /** It does happen: with one worker that fails on the first of two items the second is never taken. */
  lemma FailureStrandsItems(a: Item, b: Item, e: Error)
    ensures exists run: seq<Pool> :: IsRun([a, b], 1, run) && AllStopped(run[|run|-1]) && run[|run|-1].queue == [b]
  {
    var s0 := Start([a, b], 1);
    assert s0.workers == [Idle];
    var s1 := StepOf(s0, 0, Wrote);
    assert s1.queue == [b] && s1.workers == [Working(a)];
    var s2 := StepOf(s1, 0, Broke(e));
    assert s2.workers == [Failing(a, e)];
    var s3 := StepOf(s2, 0, Wrote);
    assert s3.workers == [Stopped];
    var run := [s0, s1, s2, s3];
    assert Next(s0, s1) && Next(s1, s2) && Next(s2, s3);
    assert IsRun([a, b], 1, run);
  }
}
