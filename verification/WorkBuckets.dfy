/**
 The per-namespace batching queue of the quota evaluator: waiters are bucketed by namespace
 behind a deduplicating work queue, while any number of workers take and complete batches.
 */
module WorkBuckets {
  import opened Names
  import opened Objects

  type Waiter = nat

  // A missing map entry reads as the empty slice.
  function At(m: map<string, seq<Waiter>>, ns: string): seq<Waiter> {
    if ns in m then m[ns] else []
  }

  /** The client-go queue and the evaluator's maps; every field is shared by all goroutines. */
  datatype Buckets = Buckets(
    queue: seq<string>, dirty: set<string>, processing: set<string>,
    work: map<string, seq<Waiter>>, dirtyWork: map<string, seq<Waiter>>, inProgress: set<string>)

  // ----- the atomic actions -----

  function QueueAdd(b: Buckets, ns: string): Buckets {
    if ns in b.dirty then b
    else b.(dirty := b.dirty + {ns}, queue := if ns in b.processing then b.queue else b.queue + [ns])
  }

  function QueueGet(b: Buckets): Buckets
    requires b.queue != []
  {
    b.(queue := b.queue[1..], processing := b.processing + {b.queue[0]}, dirty := b.dirty - {b.queue[0]})
  }

  function QueueDone(b: Buckets, ns: string): Buckets {
    b.(processing := b.processing - {ns}, queue := if ns in b.dirty then b.queue + [ns] else b.queue)
  }

  function Append(b: Buckets, ns: string, w: Waiter): Buckets {
    if ns in b.inProgress then b.(dirtyWork := b.dirtyWork[ns := At(b.dirtyWork, ns) + [w]])
    else b.(work := b.work[ns := At(b.work, ns) + [w]])
  }

  function TakeOut(b: Buckets, ns: string): Buckets {
    b.(work := b.work - {ns}, dirtyWork := b.dirtyWork - {ns}, inProgress := b.inProgress + {ns})
  }

  function Finish(b: Buckets, ns: string): Buckets {
    b.(work := b.work[ns := At(b.dirtyWork, ns)], dirtyWork := b.dirtyWork - {ns}, inProgress := b.inProgress - {ns})
  }

  /**
   A namespace that is added while it is being served is handed out once more afterwards, one that is
   not is not, and adding it twice is adding it once.
   */
  lemma ServedAsOftenAsNeeded(b: Buckets)
    requires b.queue != [] && b.queue[0] !in b.processing && b.queue[0] !in b.queue[1..]
    ensures var ns, served := b.queue[0], QueueGet(b);
      && QueueDone(served, ns).queue == b.queue[1..]
      && ns !in QueueDone(served, ns).dirty && ns !in QueueDone(served, ns).processing
      && QueueDone(QueueAdd(served, ns), ns).queue == b.queue[1..] + [ns]
      && ns !in QueueAdd(served, ns).queue
      && QueueAdd(QueueAdd(served, ns), ns) == QueueAdd(served, ns)
  {
  }

  // ----- the methods that run them -----

  class WorkQueue {
    var queue: seq<string>
    var dirty: set<string>
    var processing: set<string>

    method Add(item: string)
      modifies this
      ensures dirty == old(dirty) + {item} && processing == old(processing)
      ensures queue == old(queue) + if item in old(dirty) || item in processing then [] else [item]
    {
      if item in dirty {
        return;
      }
      dirty := dirty + {item};
      if item in processing {
        return;
      }
      queue := queue + [item];
    }

    // Blocks while the queue is empty.
    method Get() returns (item: string)
      requires queue != []
      modifies this
      ensures [item] + queue == old(queue)
      ensures processing == old(processing) + {item} && dirty == old(dirty) - {item}
    {
      item := queue[0];
      queue := queue[1..];
      processing := processing + {item};
      dirty := dirty - {item};
    }

    method Done(item: string)
      modifies this
      ensures processing == old(processing) - {item} && dirty == old(dirty)
      ensures queue == if item in dirty then old(queue) + [item] else old(queue)
    {
      processing := processing - {item};
      if item in dirty {
        queue := queue + [item];
      }
    }
  }

  class QuotaEvaluatorQueue {
    const queue: WorkQueue
    var work: map<string, seq<Waiter>>
    var dirtyWork: map<string, seq<Waiter>>
    var inProgress: set<string>

    constructor (queue: WorkQueue)
      ensures this.queue == queue && work == map[] && dirtyWork == map[] && inProgress == {}
    {
      this.queue := queue;
      work, dirtyWork, inProgress := map[], map[], {};
    }

    ghost function Now(): Buckets
      reads this, queue
    {
      Buckets(queue.queue, queue.dirty, queue.processing, work, dirtyWork, inProgress)
    }

    method AddWork(ns: string, a: Waiter)
      modifies this, queue
      ensures Now() == Append(QueueAdd(old(Now()), ns), ns, a)
    {
      queue.Add(ns);
      if ns in inProgress {
        dirtyWork := dirtyWork[ns := (if ns in dirtyWork then dirtyWork[ns] else []) + [a]];
        return;
      }
      work := work[ns := (if ns in work then work[ns] else []) + [a]];
    }

    method CompleteWork(ns: string)
      modifies this, queue
      ensures Now() == Finish(QueueDone(old(Now()), ns), ns)
    {
      queue.Done(ns);
      work := work[ns := if ns in dirtyWork then dirtyWork[ns] else []];
      dirtyWork := dirtyWork - {ns};
      inProgress := inProgress - {ns};
    }

    // None: the queue is empty, and the call goes on waiting.
    method GetWork() returns (got: Option<string>, batch: seq<Waiter>)
      modifies this, queue
      ensures got.None? <==> old(queue.queue) == []
      ensures got.None? ==> Now() == old(Now()) && batch == []
      ensures got.Some? ==>
        && got.value == old(queue.queue)[0] && batch == At(old(work), got.value)
        && Now() == TakeOut(QueueGet(old(Now())), got.value)
    {
      if queue.queue == [] {
        return None, [];
      }
      var ns := queue.Get();
      got := Some(ns);
      batch := if ns in work then work[ns] else [];
      work := work - {ns};
      dirtyWork := dirtyWork - {ns};
      inProgress := inProgress + {ns};
    }
  }

  // ----- all interleavings -----

  // What a worker goroutine is doing. Got: returned from queue.Get, still waiting for the lock.
  datatype Activity = Idle | Got(ns: string) | Working(ns: string) | Finishing(ns: string)

  // An addWork call between queue.Add and its append; it holds the lock, like a Finishing worker.
  datatype Adding = NotAdding | Adding(ns: string, waiter: Waiter)

  /** arrived and taken record, per namespace, every waiter ever added and every batch ever taken. */
  datatype State = State(
    b: Buckets, workers: seq<Activity>, adding: Adding,
    arrived: map<string, seq<Waiter>>, taken: map<string, seq<Waiter>>)

  ghost predicate LockFree(s: State) {
    s.adding.NotAdding? && forall i | 0 <= i < |s.workers| :: !s.workers[i].Finishing?
  }

  datatype Step =
    | BeginAdd(ns: string, waiter: Waiter)
    | EndAdd
    | Get(i: nat)
    | Collect(i: nat)
    | BeginComplete(i: nat)
    | EndComplete(i: nat)

  ghost predicate Enabled(s: State, step: Step) {
    match step
    case BeginAdd(_, _) => LockFree(s)
    case EndAdd => s.adding.Adding?
    case Get(i) => i < |s.workers| && s.workers[i].Idle? && s.b.queue != []
    case Collect(i) => i < |s.workers| && s.workers[i].Got? && LockFree(s)
    case BeginComplete(i) => i < |s.workers| && s.workers[i].Working? && LockFree(s)
    case EndComplete(i) => i < |s.workers| && s.workers[i].Finishing?
  }

  ghost function After(s: State, step: Step): State
    requires Enabled(s, step)
  {
    match step
    case BeginAdd(ns, w) =>
      s.(b := QueueAdd(s.b, ns), adding := Adding(ns, w), arrived := s.arrived[ns := At(s.arrived, ns) + [w]])
    case EndAdd =>
      s.(b := Append(s.b, s.adding.ns, s.adding.waiter), adding := NotAdding)
    case Get(i) =>
      s.(b := QueueGet(s.b), workers := s.workers[i := Got(s.b.queue[0])])
    case Collect(i) =>
      var ns := s.workers[i].ns;
      s.(b := TakeOut(s.b, ns), workers := s.workers[i := Working(ns)],
         taken := s.taken[ns := At(s.taken, ns) + At(s.b.work, ns)])
    case BeginComplete(i) =>
      var ns := s.workers[i].ns;
      s.(b := QueueDone(s.b, ns), workers := s.workers[i := Finishing(ns)])
    case EndComplete(i) =>
      s.(b := Finish(s.b, s.workers[i].ns), workers := s.workers[i := Idle])
  }

  ghost predicate Initial(s: State) {
    && s.b == Buckets([], {}, {}, map[], map[], {})
    && s.adding.NotAdding? && s.arrived == map[] && s.taken == map[]
    && forall i | 0 <= i < |s.workers| :: s.workers[i].Idle?
  }

  ghost predicate IsRun(run: seq<State>) {
    && run != [] && Initial(run[0])
    && forall n | 0 <= n < |run| - 1 :: StepTo(run[n], run[n + 1])
  }

  // ----- the invariant -----

  // The queue has handed ns to this worker.
  ghost predicate Holds(a: Activity, ns: string) {
    a == Got(ns) || a == Working(ns)
  }

  // This worker has marked ns as in progress.
  ghost predicate Serves(a: Activity, ns: string) {
    a == Working(ns) || a == Finishing(ns)
  }

  ghost predicate Held(s: State, ns: string) {
    exists i | 0 <= i < |s.workers| :: Holds(s.workers[i], ns)
  }

  ghost predicate Served(s: State, ns: string) {
    exists i | 0 <= i < |s.workers| :: Serves(s.workers[i], ns)
  }

  ghost predicate WorkersInv(s: State) {
    && (forall i, j, ns | 0 <= i < j < |s.workers| :: !(Holds(s.workers[i], ns) && Holds(s.workers[j], ns)))
    && (forall i, j, ns | 0 <= i < j < |s.workers| :: !(Serves(s.workers[i], ns) && Serves(s.workers[j], ns)))
    && (forall i, j | 0 <= i < j < |s.workers| :: !(s.workers[i].Finishing? && s.workers[j].Finishing?))
    && (s.adding.Adding? ==> forall i | 0 <= i < |s.workers| :: !s.workers[i].Finishing?)
  }

  ghost predicate QueueInv(s: State) {
    && Distinct(s.b.queue)
    && (forall ns :: ns in s.b.queue <==> ns in s.b.dirty && ns !in s.b.processing)
  }

  ghost function Underway(s: State, ns: string): seq<Waiter> {
    if s.adding.Adding? && s.adding.ns == ns then [s.adding.waiter] else []
  }

  ghost predicate Awaiting(s: State, ns: string) {
    At(s.b.work, ns) != [] || At(s.b.dirtyWork, ns) != [] || Underway(s, ns) != []
  }

  // The namespace will be handed out again, or its worker has yet to collect.
  ghost predicate WillBeCollected(s: State, ns: string) {
    ns in s.b.dirty || exists i | 0 <= i < |s.workers| :: s.workers[i] == Got(ns)
  }

  /** What holds of each single namespace. */
  ghost predicate LineInv(s: State, ns: string) {
    && (ns in s.b.processing <==> Held(s, ns))
    && (ns in s.b.inProgress <==> Served(s, ns))
    // one of the two buckets is empty, so nothing is overwritten or dropped
    && (if ns in s.b.inProgress then At(s.b.work, ns) == [] else At(s.b.dirtyWork, ns) == [])
    && At(s.arrived, ns) == At(s.taken, ns) + At(s.b.work, ns) + At(s.b.dirtyWork, ns) + Underway(s, ns)
    && (Awaiting(s, ns) ==> WillBeCollected(s, ns))
  }

  ghost predicate Inv(s: State) {
    WorkersInv(s) && QueueInv(s) && forall ns :: LineInv(s, ns)
  }

  // Changing one worker: what that does to who holds, serves and awaits a namespace.
  lemma ReplaceWorker(s: State, t: State, i: nat, ns: string)
    requires i < |s.workers| && |t.workers| == |s.workers| && t.workers == s.workers[i := t.workers[i]]
    requires WorkersInv(s)
    ensures Held(t, ns) <==> Holds(t.workers[i], ns) || (Held(s, ns) && !Holds(s.workers[i], ns))
    ensures Served(t, ns) <==> Serves(t.workers[i], ns) || (Served(s, ns) && !Serves(s.workers[i], ns))
    ensures (exists j | 0 <= j < |s.workers| :: s.workers[j] == Got(ns)) && s.workers[i] != Got(ns) ==>
      exists j | 0 <= j < |t.workers| :: t.workers[j] == Got(ns)
    ensures t.workers[i] == Got(ns) ==> exists j | 0 <= j < |t.workers| :: t.workers[j] == Got(ns)
  {
    assert forall j | 0 <= j < |s.workers| && j != i :: t.workers[j] == s.workers[j];
    if j :| 0 <= j < |s.workers| && Holds(s.workers[j], ns) && !Holds(s.workers[i], ns) {
      assert Holds(t.workers[j], ns);
    }
    if j :| 0 <= j < |s.workers| && Serves(s.workers[j], ns) && !Serves(s.workers[i], ns) {
      assert Serves(t.workers[j], ns);
    }
    if j :| 0 <= j < |s.workers| && s.workers[j] == Got(ns) && s.workers[i] != Got(ns) {
      assert t.workers[j] == Got(ns);
    }
  }

  lemma SameWorkers(s: State, t: State, ns: string)
    requires t.workers == s.workers
    ensures Held(t, ns) == Held(s, ns) && Served(t, ns) == Served(s, ns)
  {
  }

  lemma LineBeginAdd(s: State, n: string, w: Waiter, ns: string)
    requires Inv(s) && Enabled(s, BeginAdd(n, w))
    ensures LineInv(After(s, BeginAdd(n, w)), ns)
  {
    var t := After(s, BeginAdd(n, w));
    assert LineInv(s, ns);
    SameWorkers(s, t, ns);
  }

  lemma LineEndAdd(s: State, ns: string)
    requires Inv(s) && Enabled(s, EndAdd)
    ensures LineInv(After(s, EndAdd), ns)
  {
    var t := After(s, EndAdd);
    assert LineInv(s, ns);
    SameWorkers(s, t, ns);
  }

  lemma LineGet(s: State, i: nat, ns: string)
    requires Inv(s) && Enabled(s, Get(i))
    ensures LineInv(After(s, Get(i)), ns)
  {
    var t := After(s, Get(i));
    assert LineInv(s, ns);
    ReplaceWorker(s, t, i, ns);
  }

  lemma LineCollect(s: State, i: nat, ns: string)
    requires Inv(s) && Enabled(s, Collect(i))
    ensures LineInv(After(s, Collect(i)), ns)
  {
    var t := After(s, Collect(i));
    assert LineInv(s, ns);
    ReplaceWorker(s, t, i, ns);
    CollectedFirst(s, i);
  }

  lemma LineBeginComplete(s: State, i: nat, ns: string)
    requires Inv(s) && Enabled(s, BeginComplete(i))
    ensures LineInv(After(s, BeginComplete(i)), ns)
  {
    var t := After(s, BeginComplete(i));
    assert LineInv(s, ns);
    ReplaceWorker(s, t, i, ns);
  }

  lemma LineEndComplete(s: State, i: nat, ns: string)
    requires Inv(s) && Enabled(s, EndComplete(i))
    ensures LineInv(After(s, EndComplete(i)), ns)
  {
    var t := After(s, EndComplete(i));
    assert LineInv(s, ns);
    ReplaceWorker(s, t, i, ns);
  }

  lemma LineKept(s: State, step: Step, ns: string)
    requires Inv(s) && Enabled(s, step)
    ensures LineInv(After(s, step), ns)
  {
    match step
    case BeginAdd(n, w) => LineBeginAdd(s, n, w, ns);
    case EndAdd => LineEndAdd(s, ns);
    case Get(i) => LineGet(s, i, ns);
    case Collect(i) => LineCollect(s, i, ns);
    case BeginComplete(i) => LineBeginComplete(s, i, ns);
    case EndComplete(i) => LineEndComplete(s, i, ns);
  }

  // A worker that may collect finds its namespace not in progress: its dirty bucket is empty.
  lemma CollectedFirst(s: State, i: nat)
    requires Inv(s) && Enabled(s, Collect(i))
    ensures s.workers[i].ns !in s.b.inProgress && At(s.b.dirtyWork, s.workers[i].ns) == []
  {
    var ns := s.workers[i].ns;
    assert LineInv(s, ns) && Holds(s.workers[i], ns);
    forall j | 0 <= j < |s.workers| ensures !Serves(s.workers[j], ns) {
      assert !s.workers[j].Finishing?;
      assert Serves(s.workers[j], ns) ==> Holds(s.workers[j], ns);
    }
  }

  lemma WorkersKept(s: State, step: Step)
    requires Inv(s) && Enabled(s, step)
    ensures WorkersInv(After(s, step))
  {
    match step {
      case Get(i) => WorkersKeptByGet(s, i);
      case Collect(i) =>
        CollectedFirst(s, i);
        assert LineInv(s, s.workers[i].ns) && !Served(s, s.workers[i].ns);
      case _ =>
    }
  }

  lemma WorkersKeptByGet(s: State, i: nat)
    requires Inv(s) && Enabled(s, Get(i))
    ensures WorkersInv(After(s, Get(i)))
  {
    var ns := s.b.queue[0];
    assert ns in s.b.queue && LineInv(s, ns);
    assert !Held(s, ns);
  }

  lemma QueueKeptByGet(s: State, i: nat)
    requires Inv(s) && Enabled(s, Get(i))
    ensures QueueInv(After(s, Get(i)))
  {
    assert s.b.queue == [s.b.queue[0]] + s.b.queue[1..];
    assert s.b.queue[0] in s.b.queue;
  }

  lemma QueueKeptByDone(s: State, i: nat)
    requires Inv(s) && Enabled(s, BeginComplete(i))
    ensures QueueInv(After(s, BeginComplete(i)))
  {
    var ns := s.workers[i].ns;
    assert Holds(s.workers[i], ns) && LineInv(s, ns);
    assert ns in s.b.processing && ns !in s.b.queue;
  }

  lemma QueueKept(s: State, step: Step)
    requires Inv(s) && Enabled(s, step)
    ensures QueueInv(After(s, step))
  {
    match step
    case BeginComplete(i) => QueueKeptByDone(s, i);
    case Get(i) => QueueKeptByGet(s, i);
    case _ =>
  }

  /** Every step of every goroutine keeps the invariant. */
  lemma StepKeepsInv(s: State, step: Step)
    requires Inv(s) && Enabled(s, step)
    ensures Inv(After(s, step))
  {
    WorkersKept(s, step);
    QueueKept(s, step);
    forall ns ensures LineInv(After(s, step), ns) {
      LineKept(s, step, ns);
    }
  }

  ghost predicate StepTo(s: State, t: State) {
    exists step :: Enabled(s, step) && t == After(s, step)
  }

  lemma {:induction false} RunsKeepInv(run: seq<State>)
    requires IsRun(run)
    ensures Inv(run[|run| - 1])
  {
    if |run| == 1 {
      assert forall ns :: !Held(run[0], ns) && !Served(run[0], ns);
    } else {
      var front := run[..|run| - 1];
      RunsKeepInv(front);
      var last := run[|run| - 2];
      assert StepTo(run[|run| - 2], run[|run| - 2 + 1]);
      var step :| Enabled(last, step) && run[|run| - 1] == After(last, step);
      StepKeepsInv(last, step);
    }
  }

  /**
   Under every interleaving and for every namespace: the batches taken so far, then the two
   buckets, then a waiter being added, are exactly the arrivals in order. Nobody is lost,
   doubled or reordered, and whoever waits will be collected.
   */
  lemma ArrivalsAreServedInOrder(run: seq<State>, ns: string)
    requires IsRun(run)
    ensures var s := run[|run| - 1];
      && At(s.arrived, ns) == At(s.taken, ns) + At(s.b.work, ns) + At(s.b.dirtyWork, ns) + Underway(s, ns)
      && (At(s.b.work, ns) == [] || At(s.b.dirtyWork, ns) == [])
      && (Awaiting(s, ns) ==> WillBeCollected(s, ns))
  {
    RunsKeepInv(run);
    assert LineInv(run[|run| - 1], ns);
  }

  /**
   While someone waits and there is a worker, the evaluator is never stuck: a step other than a new
   arrival is possible.
   */
  lemma NeverStuck(run: seq<State>, ns: string) returns (step: Step)
    requires IsRun(run) && |run[|run| - 1].workers| > 0 && Awaiting(run[|run| - 1], ns)
    ensures Enabled(run[|run| - 1], step) && !step.BeginAdd?
  {
    var s := run[|run| - 1];
    RunsKeepInv(run);
    if s.adding.Adding? {
      return EndAdd;
    }
    if i :| 0 <= i < |s.workers| && s.workers[i].Finishing? {
      return EndComplete(i);
    } else if i :| 0 <= i < |s.workers| && s.workers[i].Got? {
      return Collect(i);
    } else if i :| 0 <= i < |s.workers| && s.workers[i].Working? {
      return BeginComplete(i);
    } else {
      assert LineInv(s, ns) && !Held(s, ns);
      assert ns in s.b.dirty && ns !in s.b.processing && ns in s.b.queue;
      return Get(0);
    }
  }
}
