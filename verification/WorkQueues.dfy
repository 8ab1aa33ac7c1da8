/**
 * The life of a key in a controller: informers enqueue it, workers take it, sync it and decide whether it comes
 * back (pkg/reconcile/reconcile.go and pkg/controller/endpointgroupbinding/controller.go).
 * The queue itself is client-go's rate limiting work queue.
 */
module WorkQueues {
  import opened Strings

  datatype Item = StringItem(key: string) | OtherItem(id: int)

  /** How a sync ended. StoreError: the object could not be read; Absent: the binding no longer exists. */
  datatype SyncResult =
    | Synced(requeue: bool, requeueAfter: int)
    | RetriableError
    | NoRetryError
    | StoreError
    | Absent

  datatype Op = Forget | AddRateLimited | AddAfter

  /** The two handlers: reconcileHandler, and syncHandler of the EndpointGroupBinding controller. */
  datatype Handler = ReconcileHandler | SyncHandler

  function SyncedOps(requeue: bool, requeueAfter: int): seq<Op> {
    if requeueAfter > 0 then [Forget, AddAfter] else if requeue then [AddRateLimited] else [Forget]
  }

  /** The queue operations between the end of a sync and Done. */
  function Disposition(h: Handler, item: Item, r: SyncResult): seq<Op> {
    match h
    case ReconcileHandler =>
      if item.OtherItem? then [Forget]
      else (
        match r
        case Synced(requeue, after) => SyncedOps(requeue, after)
        case RetriableError => [AddRateLimited]
        case _ => [])
    case SyncHandler =>
      match r
      case Synced(requeue, after) => SyncedOps(requeue, after)
      case _ => []
  }

  predicate ComesBack(ops: seq<Op>) {
    AddRateLimited in ops || AddAfter in ops
  }

  /** Which results bring the key back. */
  lemma ComesBackExactly(h: Handler, item: Item, r: SyncResult)
    ensures ComesBack(Disposition(h, item, r)) <==>
            && (h == ReconcileHandler ==> item.StringItem?)
            && ((r.Synced? && (r.requeue || r.requeueAfter > 0)) || (h == ReconcileHandler && r.RetriableError?))
  {
    var after := [Forget, AddAfter];
    assert after[1] == AddAfter && [AddRateLimited][0] == AddRateLimited;
  }

  /*** client-go's queue ***/

  datatype Pc = Idle | Syncing(item: Item) | Finishing(item: Item, todo: seq<Op>)

  /**
   * latest holds the result of each item's last sync; unseen the items enqueued by an event since they were
   * last taken from the queue; failures the count from which the rate limiter derives an item's next delay.
   */
  datatype System = System(
    queue: seq<Item>, dirty: set<Item>, processing: set<Item>, delayed: set<Item>, down: bool,
    workers: map<nat, Pc>, latest: map<Item, SyncResult>, unseen: set<Item>, failures: map<Item, nat>)

  datatype Event =
    | Enqueue(item: Item)               // an informer's handler
    | Elapse(item: Item)                // the delay of an item is over
    | Take(worker: nat)                 // Get
    | EndSync(worker: nat, result: SyncResult)
    | Dispose(worker: nat)              // the next operation of the disposition
    | Finish(worker: nat)               // Done
    | ShutDown

  function Failures(s: System, item: Item): nat {
    if item in s.failures then s.failures[item] else 0
  }

  function PcOf(s: System, w: nat): Pc {
    if w in s.workers then s.workers[w] else Idle
  }

  /** Add: an item being processed is queued only when it is done. */
  function Add(s: System, item: Item): System {
    if s.down || item in s.dirty then s
    else s.(dirty := s.dirty + {item}, queue := if item in s.processing then s.queue else s.queue + [item])
  }

  /** AddAfter: the item waits first. */
  function AddLater(s: System, item: Item): System {
    if s.down then s else s.(delayed := s.delayed + {item})
  }

  /** One of the three operations; AddRateLimited is AddAfter with a delay that grows with the count. */
  function Perform(s: System, item: Item, op: Op): System {
    match op
    case Forget => s.(failures := s.failures - {item})
    case AddRateLimited => AddLater(s, item).(failures := s.failures[item := Failures(s, item) + 1])
    case AddAfter => AddLater(s, item)
  }

  function DoneWith(s: System, item: Item): System {
    s.(processing := s.processing - {item}, queue := if item in s.dirty then s.queue + [item] else s.queue)
  }

  predicate Enabled(s: System, e: Event) {
    match e
    case Enqueue(_) => true
    case Elapse(item) => item in s.delayed
    case Take(w) => PcOf(s, w).Idle? && s.queue != []
    case EndSync(w, _) => PcOf(s, w).Syncing?
    case Dispose(w) => PcOf(s, w).Finishing? && PcOf(s, w).todo != []
    case Finish(w) => PcOf(s, w).Finishing? && PcOf(s, w).todo == []
    case ShutDown => true
  }

  function Apply(h: Handler, s: System, e: Event): System {
    match e
    case Enqueue(item) => Perform(s, item, AddRateLimited).(unseen := if s.down then s.unseen else s.unseen + {item})
    case Elapse(item) => Add(s.(delayed := s.delayed - {item}), item)
    case Take(w) =>
      if s.queue == [] then s
      else
        var item := s.queue[0];
        s.(queue := s.queue[1..], dirty := s.dirty - {item}, processing := s.processing + {item},
           workers := s.workers[w := Syncing(item)], unseen := s.unseen - {item})
    case EndSync(w, r) =>
      if !PcOf(s, w).Syncing? then s
      else
        var item := PcOf(s, w).item;
        s.(workers := s.workers[w := Finishing(item, Disposition(h, item, r))], latest := s.latest[item := r])
    case Dispose(w) =>
      if !PcOf(s, w).Finishing? || PcOf(s, w).todo == [] then s
      else
        var Finishing(item, todo) := PcOf(s, w);
        Perform(s, item, todo[0]).(workers := s.workers[w := Finishing(item, todo[1..])])
    case Finish(w) =>
      if !PcOf(s, w).Finishing? then s
      else DoneWith(s, PcOf(s, w).item).(workers := s.workers[w := Idle])
    case ShutDown => s.(down := true)
  }

  function Exec(h: Handler, s: System, trace: seq<Event>): System {
    if trace == [] then s else Apply(h, Exec(h, s, trace[..|trace| - 1]), trace[|trace| - 1])
  }

  predicate Legal(h: Handler, s: System, trace: seq<Event>) {
    trace != [] ==>
      && Legal(h, s, trace[..|trace| - 1])
      && Enabled(Exec(h, s, trace[..|trace| - 1]), trace[|trace| - 1])
  }

  predicate Init(s: System) {
    s == System([], {}, {}, {}, false, map[], map[], {}, map[])
  }

  /*** The invariant ***/

  predicate Holds(s: System, w: nat, item: Item) {
    !PcOf(s, w).Idle? && PcOf(s, w).item == item
  }

  /** The queue holds each dirty item that nobody processes, once. */
  ghost predicate QueueInv(s: System) {
    && (forall i, j | 0 <= i < j < |s.queue| :: s.queue[i] != s.queue[j])
    && (forall x :: x in s.queue <==> x in s.dirty && x !in s.processing)
  }

  /** Exactly the items that workers hold are being processed, each by one worker. */
  ghost predicate WorkerInv(s: System) {
    && (forall w: nat, x | Holds(s, w, x) :: x in s.processing)
    && (forall v: nat, w: nat, x | Holds(s, v, x) && Holds(s, w, x) :: v == w)
    && (forall x | x in s.processing :: exists w: nat :: Holds(s, w, x))
  }

  /** The worker holding the item still has to put it back. */
  predicate WillReturn(s: System, w: nat, item: Item) {
    PcOf(s, w).Finishing? && PcOf(s, w).item == item && ComesBack(PcOf(s, w).todo)
  }

  predicate Waiting(s: System, item: Item) {
    item in s.dirty || item in s.delayed
  }

  ghost predicate Kept(s: System, item: Item) {
    Waiting(s, item) || exists w: nat :: WillReturn(s, w, item) || PcOf(s, w) == Syncing(item)
  }

  ghost predicate ReturnInv(h: Handler, s: System) {
    !s.down ==>
      && (forall x | x in s.latest && ComesBack(Disposition(h, x, s.latest[x])) :: Kept(s, x))
      && (forall x | x in s.unseen :: Waiting(s, x))
  }

  ghost predicate Inv(h: Handler, s: System) {
    QueueInv(s) && WorkerInv(s) && ReturnInv(h, s)
  }

  lemma TakeKeepsInv(h: Handler, s: System, w: nat)
    requires Inv(h, s) && Enabled(s, Take(w))
    ensures Inv(h, Apply(h, s, Take(w)))
  {
    hide Disposition, ComesBack, Failures;
    var s' := Apply(h, s, Take(w));
    var item := s.queue[0];
    assert item in s.queue;
    assert s.queue == [item] + s'.queue;
    assert PcOf(s', w) == Syncing(item) && forall v: nat | v != w :: PcOf(s', v) == PcOf(s, v);
    assert forall v: nat, x :: Holds(s', v, x) <==> if v == w then x == item else Holds(s, v, x);
    assert Holds(s', w, item);
    forall x | x in s'.processing
      ensures exists v: nat :: Holds(s', v, x)
    {
      if x != item {
        var v: nat :| Holds(s, v, x);
        assert Holds(s', v, x);
      }
    }
    forall x | x in s'.queue
      ensures x != item
    {
      var j :| 0 <= j < |s'.queue| && s'.queue[j] == x;
      assert s.queue[j + 1] == x;
    }
    assert WillReturn(s', w, item) || PcOf(s', w) == Syncing(item);
    forall x | Kept(s, x)
      ensures Kept(s', x)
    {
      if x != item && !Waiting(s, x) {
        var v: nat :| WillReturn(s, v, x) || PcOf(s, v) == Syncing(x);
        assert WillReturn(s', v, x) || PcOf(s', v) == Syncing(x);
      }
    }
  }

  lemma EndSyncKeepsInv(h: Handler, s: System, w: nat, r: SyncResult)
    requires Inv(h, s) && Enabled(s, EndSync(w, r))
    ensures Inv(h, Apply(h, s, EndSync(w, r)))
  {
    hide Disposition, ComesBack, Failures;
    var s' := Apply(h, s, EndSync(w, r));
    var item := PcOf(s, w).item;
    assert forall v: nat | v != w :: PcOf(s', v) == PcOf(s, v);
    assert forall v: nat, x :: Holds(s', v, x) <==> Holds(s, v, x);
    forall x | x in s'.latest && ComesBack(Disposition(h, x, s'.latest[x])) && !s.down
      ensures Kept(s', x)
    {
      if x == item {
        assert WillReturn(s', w, item);
      } else if !Waiting(s, x) {
        var v: nat :| WillReturn(s, v, x) || PcOf(s, v) == Syncing(x);
        assert WillReturn(s', v, x) || PcOf(s', v) == Syncing(x);
      }
    }
  }

  lemma SameHolders(s: System, s': System)
    requires s'.processing == s.processing && forall v: nat, x :: Holds(s', v, x) <==> Holds(s, v, x)
    ensures WorkerInv(s) ==> WorkerInv(s')
  {
    hide Holds;
    if WorkerInv(s) {
      forall x | x in s'.processing
        ensures exists v: nat :: Holds(s', v, x)
      {
        var v: nat :| Holds(s, v, x);
        assert Holds(s', v, x);
      }
    }
  }

  lemma DisposeStep(h: Handler, s: System, w: nat)
    requires Enabled(s, Dispose(w))
    ensures var s', Finishing(item, todo) := Apply(h, s, Dispose(w)), PcOf(s, w);
            && s'.queue == s.queue && s'.dirty == s.dirty && s'.processing == s.processing
            && s'.latest == s.latest && s'.unseen == s.unseen && s'.down == s.down && s.delayed <= s'.delayed
            && (forall v: nat :: PcOf(s', v) == if v == w then Finishing(item, todo[1..]) else PcOf(s, v))
            && (!s.down ==> (Waiting(s', item) <==> Waiting(s, item) || todo[0] != Forget))
  {
  }

  lemma DisposeKeepsInv(h: Handler, s: System, w: nat)
    requires Inv(h, s) && Enabled(s, Dispose(w))
    ensures Inv(h, Apply(h, s, Dispose(w)))
  {
    hide Disposition, Apply, WorkerInv;
    DisposeStep(h, s, w);
    var s' := Apply(h, s, Dispose(w));
    var Finishing(item, todo) := PcOf(s, w);
    assert todo == [todo[0]] + todo[1..];
    SameHolders(s, s');
    forall x | Kept(s, x) && !s.down
      ensures Kept(s', x)
    {
      if !Waiting(s, x) {
        var v: nat :| WillReturn(s, v, x) || PcOf(s, v) == Syncing(x);
        if v == w {
          assert todo[0] == Forget ==> WillReturn(s', w, x);
        } else {
          assert WillReturn(s', v, x) || PcOf(s', v) == Syncing(x);
        }
      }
    }
  }

  lemma FinishKeepsInv(h: Handler, s: System, w: nat)
    requires Inv(h, s) && Enabled(s, Finish(w))
    ensures Inv(h, Apply(h, s, Finish(w)))
  {
    hide Disposition, Failures;
    var s' := Apply(h, s, Finish(w));
    var item := PcOf(s, w).item;
    assert Holds(s, w, item);
    assert forall v: nat | v != w :: PcOf(s', v) == PcOf(s, v);
    assert forall v: nat, x :: Holds(s', v, x) <==> v != w && Holds(s, v, x);
    forall x | x in s'.processing
      ensures exists v: nat :: Holds(s', v, x)
    {
      var v: nat :| Holds(s, v, x);
      assert Holds(s', v, x);
    }
    forall x | Kept(s, x)
      ensures Kept(s', x)
    {
      if !Waiting(s, x) {
        var v: nat :| WillReturn(s, v, x) || PcOf(s, v) == Syncing(x);
        assert WillReturn(s', v, x) || PcOf(s', v) == Syncing(x);
      }
    }
  }

  /** Without a step of a worker, items that wait still wait. */
  lemma SameWorkersKeep(s: System, s': System)
    requires s'.workers == s.workers && s'.processing == s.processing
    requires forall x | Waiting(s, x) && !s.down :: Waiting(s', x)
    ensures WorkerInv(s) ==> WorkerInv(s')
    ensures forall x | Kept(s, x) && !s.down :: Kept(s', x)
  {
    hide Waiting;
    assert forall v: nat :: PcOf(s', v) == PcOf(s, v);
    SameHolders(s, s');
    forall x | Kept(s, x) && !s.down
      ensures Kept(s', x)
    {
      if !Waiting(s, x) {
        var v: nat :| WillReturn(s, v, x) || PcOf(s, v) == Syncing(x);
        assert WillReturn(s', v, x) || PcOf(s', v) == Syncing(x);
      }
    }
  }

  lemma SameQueue(s: System, s': System)
    ensures QueueInv(s) && s'.queue == s.queue && s'.dirty == s.dirty && s'.processing == s.processing ==> QueueInv(s')
  {
  }

  lemma AddKeepsQueue(s: System, item: Item)
    requires QueueInv(s)
    ensures QueueInv(Add(s, item))
  {
  }

  lemma AddKeepsInv(h: Handler, s: System, e: Event)
    requires Inv(h, s) && Enabled(s, e) && (e.Enqueue? || e.Elapse? || e.ShutDown?)
    ensures Inv(h, Apply(h, s, e))
  {
    hide Disposition, ComesBack, Failures, Kept, WorkerInv, QueueInv;
    SameWorkersKeep(s, Apply(h, s, e));
    SameQueue(s, Apply(h, s, e));
    if e.Elapse? {
      var t := s.(delayed := s.delayed - {e.item});
      SameQueue(s, t);
      AddKeepsQueue(t, e.item);
    }
  }

  lemma StepKeepsInv(h: Handler, s: System, e: Event)
    requires Inv(h, s) && Enabled(s, e)
    ensures Inv(h, Apply(h, s, e))
  {
    match e {
      case Take(w) => hide *; TakeKeepsInv(h, s, w);
      case EndSync(w, r) => hide *; EndSyncKeepsInv(h, s, w, r);
      case Dispose(w) => hide *; DisposeKeepsInv(h, s, w);
      case Finish(w) => hide *; FinishKeepsInv(h, s, w);
      case _ => hide *; AddKeepsInv(h, s, e);
    }
  }

  lemma {:induction false} RunsKeepInv(h: Handler, s: System, trace: seq<Event>)
    requires Inv(h, s) && Legal(h, s, trace)
    ensures Inv(h, Exec(h, s, trace))
  {
    hide Inv, Apply, Enabled;
    if trace != [] {
      RunsKeepInv(h, s, trace[..|trace| - 1]);
      StepKeepsInv(h, Exec(h, s, trace[..|trace| - 1]), trace[|trace| - 1]);
    }
  }

  lemma InitHasInv(h: Handler, s: System)
    requires Init(s)
    ensures Inv(h, s)
  {
    assert forall w: nat :: PcOf(s, w) == Idle;
  }

  /**
   * Over every interleaving of workers, events and delays until shutdown, an item whose latest sync asked for
   * another one is queued, delayed or being processed.
   */
  lemma {:induction false} NothingIsLost(h: Handler, s: System, trace: seq<Event>, item: Item)
    requires Init(s) && Legal(h, s, trace)
    ensures var t := Exec(h, s, trace);
            !t.down && item in t.latest && ComesBack(Disposition(h, item, t.latest[item])) ==>
            item in t.queue || item in t.delayed || item in t.processing
  {
    hide Disposition, ComesBack;
    InitHasInv(h, s);
    RunsKeepInv(h, s, trace);
    var t := Exec(h, s, trace);
    if !t.down && item in t.latest && ComesBack(Disposition(h, item, t.latest[item])) && !Waiting(t, item) {
      var w: nat :| WillReturn(t, w, item) || PcOf(t, w) == Syncing(item);
      assert Holds(t, w, item);
    }
  }

  /** The event takes the item from the queue. */
  predicate Takes(s: System, e: Event, item: Item) {
    e.Take? && s.queue != [] && s.queue[0] == item
  }

  lemma UnseenStep(h: Handler, s: System, e: Event, item: Item)
    ensures item in s.unseen && !Takes(s, e, item) ==> item in Apply(h, s, e).unseen
    ensures e == Enqueue(item) && !s.down ==> item in Apply(h, s, e).unseen
  {
    hide Disposition, Failures;
  }

  lemma {:induction false} UnseenUntilTaken(h: Handler, s: System, trace: seq<Event>, k: nat, item: Item)
    requires k < |trace| && trace[k] == Enqueue(item) && !Exec(h, s, trace[..k]).down
    requires forall i | k < i < |trace| :: !Takes(Exec(h, s, trace[..i]), trace[i], item)
    ensures item in Exec(h, s, trace).unseen
  {
    hide Apply, Takes;
    var m := |trace| - 1;
    UnseenStep(h, Exec(h, s, trace[..m]), trace[m], item);
    if k < m {
      forall i | k < i < m
        ensures !Takes(Exec(h, s, trace[..m][..i]), trace[..m][i], item)
      {
        assert trace[..m][..i] == trace[..i];
      }
      assert trace[..m][..k] == trace[..k];
      UnseenUntilTaken(h, s, trace[..m], k, item);
    }
  }

  /**
   * An event for an item is never forgotten: from then on until it is taken or the queue is shut down, the item
   * waits, even while it is processed.
   */
  lemma {:induction false} EventsAreSeen(h: Handler, s: System, trace: seq<Event>, k: nat, item: Item)
    requires Init(s) && Legal(h, s, trace)
    requires k < |trace| && trace[k] == Enqueue(item) && !Exec(h, s, trace[..k]).down
    requires forall i | k < i < |trace| :: !Takes(Exec(h, s, trace[..i]), trace[i], item)
    ensures var t := Exec(h, s, trace);
            !t.down ==> item in t.queue || item in t.delayed || (item in t.dirty && item in t.processing)
  {
    hide Exec, Legal;
    InitHasInv(h, s);
    RunsKeepInv(h, s, trace);
    UnseenUntilTaken(h, s, trace, k, item);
  }

  /** No item is ever synced by two workers at once. */
  lemma {:induction false} SyncsAreSerial(h: Handler, s: System, trace: seq<Event>, v: nat, w: nat)
    requires Init(s) && Legal(h, s, trace)
    requires var t := Exec(h, s, trace); !PcOf(t, v).Idle? && !PcOf(t, w).Idle? && PcOf(t, v).item == PcOf(t, w).item
    ensures v == w
  {
    InitHasInv(h, s);
    RunsKeepInv(h, s, trace);
    var t := Exec(h, s, trace);
    assert Holds(t, v, PcOf(t, v).item) && Holds(t, w, PcOf(t, v).item);
  }

  /*** A worker that finishes undisturbed ***/

  /** The worker's remaining steps. */
  function Finished(h: Handler, s: System, w: nat): System
    decreases if PcOf(s, w).Finishing? then |PcOf(s, w).todo| else 0
  {
    if !PcOf(s, w).Finishing? then s
    else if PcOf(s, w).todo == [] then Apply(h, s, Finish(w))
    else Finished(h, Apply(h, s, Dispose(w)), w)
  }

  lemma {:induction false} FinishedWaits(h: Handler, s: System, w: nat)
    requires PcOf(s, w).Finishing? && !s.down
    ensures var item := PcOf(s, w).item;
            Waiting(Finished(h, s, w), item) <==> Waiting(s, item) || ComesBack(PcOf(s, w).todo)
    decreases |PcOf(s, w).todo|
  {
    hide Apply, Waiting;
    var todo := PcOf(s, w).todo;
    if todo == [] {
      FinishWaits(h, s, w);
    } else {
      assert todo == [todo[0]] + todo[1..];
      DisposeStep(h, s, w);
      FinishedWaits(h, Apply(h, s, Dispose(w)), w);
    }
  }

  lemma FinishWaits(h: Handler, s: System, w: nat)
    requires PcOf(s, w).Finishing?
    ensures Waiting(Apply(h, s, Finish(w)), PcOf(s, w).item) <==> Waiting(s, PcOf(s, w).item)
  {
  }

  /**
   * Without a new event, an item comes back after a sync exactly when the handler requeues its result: errors of
   * the store, errors marked as final and, in the EndpointGroupBinding controller, all errors drop it.
   */
  lemma ReturnsExactly(h: Handler, s: System, w: nat, r: SyncResult)
    requires PcOf(s, w).Syncing? && !s.down && !Waiting(s, PcOf(s, w).item)
    ensures var item := PcOf(s, w).item;
            Waiting(Finished(h, Apply(h, s, EndSync(w, r)), w), item) <==>
            && (h == ReconcileHandler ==> item.StringItem?)
            && ((r.Synced? && (r.requeue || r.requeueAfter > 0)) || (h == ReconcileHandler && r.RetriableError?))
  {
    hide Disposition, ComesBack;
    ComesBackExactly(h, PcOf(s, w).item, r);
    FinishedWaits(h, Apply(h, s, EndSync(w, r)), w);
  }

  /** The count after some operations. */
  function CountAfter(todo: seq<Op>, n: nat): nat {
    if todo == [] then n
    else
      CountAfter(todo[1..], match todo[0]
        case Forget => 0
        case AddRateLimited => n + 1
        case AddAfter => n)
  }

  lemma {:induction false} FinishedCounts(h: Handler, s: System, w: nat, x: Item)
    requires PcOf(s, w).Finishing?
    ensures Failures(Finished(h, s, w), x) ==
            if x == PcOf(s, w).item then CountAfter(PcOf(s, w).todo, Failures(s, x)) else Failures(s, x)
    decreases |PcOf(s, w).todo|
  {
    hide Apply, Failures;
    if PcOf(s, w).todo == [] {
      FinishCounts(h, s, w, x);
    } else {
      DisposeCounts(h, s, w, x);
      FinishedCounts(h, Apply(h, s, Dispose(w)), w, x);
    }
  }

  lemma DisposeCounts(h: Handler, s: System, w: nat, x: Item)
    requires PcOf(s, w).Finishing? && PcOf(s, w).todo != []
    ensures var s', Finishing(item, todo) := Apply(h, s, Dispose(w)), PcOf(s, w);
            && PcOf(s', w) == Finishing(item, todo[1..])
            && Failures(s', x) == if x == item then CountAfter([todo[0]], Failures(s, x)) else Failures(s, x)
  {
    assert PcOf(s, w).todo[0..1][1..] == [];
  }

  lemma FinishCounts(h: Handler, s: System, w: nat, x: Item)
    requires PcOf(s, w).Finishing?
    ensures Failures(Apply(h, s, Finish(w)), x) == Failures(s, x)
  {
  }

  /**
   * What a sync does to the failure counts. A success and a foreign item reset the item's own, a retriable error
   * or a plain requeue raises it by one, every other error leaves it; those of other items stay.
   */
  lemma FailuresExactly(h: Handler, s: System, w: nat, r: SyncResult, x: Item)
    requires PcOf(s, w).Syncing?
    ensures Failures(Finished(h, Apply(h, s, EndSync(w, r)), w), x) ==
            if x != PcOf(s, w).item then Failures(s, x)
            else if h == ReconcileHandler && x.OtherItem? then 0
            else if r.Synced? && (r.requeueAfter > 0 || !r.requeue) then 0
            else if r.Synced? || (h == ReconcileHandler && r == RetriableError) then Failures(s, x) + 1
            else Failures(s, x)
  {
    hide Finished;
    var t := Apply(h, s, EndSync(w, r));
    FinishedCounts(h, t, w, x);
    assert [Forget, AddAfter][1..] == [AddAfter] && [AddAfter][1..] == [];
    assert [Forget][1..] == [] && [AddRateLimited][1..] == [];
    assert Failures(t, x) == Failures(s, x);
  }

  /*** The handlers as written ***/

  predicate ByWorker(e: Event, w: nat) {
    (e.Take? || e.EndSync? || e.Dispose? || e.Finish?) && e.worker == w
  }

  /** The result of the item's last sync. */
  function ResultFor(s: System, item: Item): Option<SyncResult> {
    if item in s.latest then Some(s.latest[item]) else None
  }

  /** What others do leaves the worker where it is, and its item waiting. */
  lemma OthersLeaveWaiting(h: Handler, s: System, w: nat, e: Event)
    requires Inv(h, s) && Enabled(s, e) && !ByWorker(e, w)
    ensures PcOf(Apply(h, s, e), w) == PcOf(s, w)
    ensures !PcOf(s, w).Idle? && Waiting(s, PcOf(s, w).item) ==>
              Waiting(Apply(h, s, e), PcOf(s, w).item) || Apply(h, s, e).down
    ensures s.down ==> Apply(h, s, e).down
  {
    hide Disposition, ComesBack, Failures, ReturnInv;
    if !PcOf(s, w).Idle? {
      assert Holds(s, w, PcOf(s, w).item);
      if e.Take? {
        assert s.queue[0] in s.queue;
      }
    }
  }

  /** Nobody else ends a sync of the item that the worker holds. */
  lemma OthersLeaveResult(h: Handler, s: System, w: nat, e: Event)
    requires Inv(h, s) && Enabled(s, e) && !ByWorker(e, w) && !PcOf(s, w).Idle?
    ensures ResultFor(Apply(h, s, e), PcOf(s, w).item) == ResultFor(s, PcOf(s, w).item)
  {
    hide Disposition, ComesBack, Failures, ReturnInv, QueueInv;
    assert Holds(s, w, PcOf(s, w).item);
    if e.EndSync? {
      assert Holds(s, e.worker, PcOf(s, e.worker).item);
    }
  }

  lemma ExecAppend(h: Handler, s: System, trace: seq<Event>, e: Event)
    requires Legal(h, s, trace) && Enabled(Exec(h, s, trace), e)
    ensures Legal(h, s, trace + [e])
    ensures Exec(h, s, trace + [e]) == Apply(h, Exec(h, s, trace), e)
  {
    assert (trace + [e])[..|trace|] == trace;
  }

  datatype ObjLookup = ObjFound | ObjNotFound | ObjError

  /** One worker of a controller. */
  class Worker {
    const h: Handler
    const w: nat
    ghost const start: System
    ghost var trace: seq<Event>    // every event since start, whoever caused it
    var system: System

    ghost predicate Valid()
      reads this
    {
      Inv(h, start) && Legal(h, start, trace) && system == Exec(h, start, trace) && Inv(h, system)
    }

    ghost function Item(): Item
      requires !PcOf(system, w).Idle?
      reads this
    {
      PcOf(system, w).item
    }

    constructor (h: Handler, w: nat, s: System)
      requires Inv(h, s)
      ensures Valid() && this.h == h && this.w == w && system == s
    {
      this.h, this.w := h, w;
      start, trace, system := s, [], s;
    }

    method Step(e: Event)
      requires Valid() && Enabled(system, e)
      modifies this`system, this`trace
      ensures Valid() && system == Apply(h, old(system), e)
    {
      hide Inv, Enabled, Apply;
      ExecAppend(h, start, trace, e);
      StepKeepsInv(h, system, e);
      system, trace := Apply(h, system, e), trace + [e];
    }

    /** Any number of events of informers, timers and other workers. */
    method Interleave()
      requires Valid()
      modifies this`system, this`trace
      ensures Valid() && PcOf(system, w) == PcOf(old(system), w)
      ensures !PcOf(system, w).Idle? && Waiting(old(system), Item()) ==> Waiting(system, Item()) || system.down
      ensures !PcOf(system, w).Idle? ==> ResultFor(system, Item()) == ResultFor(old(system), Item())
      ensures old(system).down ==> system.down
    {
      hide Inv, Enabled, Apply, Waiting;
      var n: nat := *;
      while 0 < n
        invariant Valid() && PcOf(system, w) == PcOf(old(system), w)
        invariant !PcOf(system, w).Idle? && Waiting(old(system), Item()) ==> Waiting(system, Item()) || system.down
        invariant !PcOf(system, w).Idle? ==> ResultFor(system, Item()) == ResultFor(old(system), Item())
        invariant old(system).down ==> system.down
        decreases n
      {
        var e: Event := *;
        if Enabled(system, e) && !ByWorker(e, w) {
          OthersLeaveWaiting(h, system, w, e);
          if !PcOf(system, w).Idle? { OthersLeaveResult(h, system, w, e); }
          Step(e);
        }
        n := n - 1;
      }
    }

    /** The sync itself is over; others go on. */
    method End(r: SyncResult)
      requires Valid() && PcOf(system, w).Syncing?
      modifies this`system, this`trace
      ensures Valid() && PcOf(system, w) == Finishing(old(Item()), Disposition(h, old(Item()), r))
      ensures ResultFor(system, Item()) == Some(r)
    {
      hide Inv, Disposition, Exec, Legal;
      Interleave();
      Step(EndSync(w, r));
      Interleave();
    }

    /** The worker calls one operation of the queue: the one that comes next in its disposition. */
    method Call(op: Op)
      requires Valid() && PcOf(system, w).Finishing?
      requires PcOf(system, w).todo != [] && PcOf(system, w).todo[0] == op
      modifies this`system, this`trace
      ensures Valid() && PcOf(system, w) == Finishing(old(Item()), old(PcOf(system, w)).todo[1..])
      ensures ResultFor(system, Item()) == ResultFor(old(system), Item())
      ensures op != Forget || Waiting(old(system), old(Item())) ==> Waiting(system, Item()) || system.down
    {
      hide Inv, Disposition, Exec, Legal;
      Step(Dispose(w));
      Interleave();
    }

    /** reconcileHandler */
    method HandleReconcile(lookup: ObjLookup, onDelete: SyncResult, onUpdate: SyncResult)
      requires Valid() && h == ReconcileHandler && PcOf(system, w).Syncing?
      requires Returned(onDelete) && Returned(onUpdate)
      modifies this`system, this`trace
      ensures Valid() && PcOf(system, w) == Finishing(old(Item()), [])
      ensures ResultFor(system, Item()) == Some(
                if Item().OtherItem? then NoRetryError
                else if lookup == ObjNotFound then onDelete else if lookup == ObjFound then onUpdate else StoreError)
      ensures ComesBack(Disposition(h, old(Item()), ResultFor(system, Item()).value)) ==>
                Waiting(system, Item()) || system.down
    {
      hide Inv, Exec, Legal, Waiting, Apply, Enabled;
      var req := PcOf(system, w).item;
      if req.OtherItem? {
        End(NoRetryError);
        Call(Forget);
        return;
      }
      var res := match lookup
        case ObjNotFound => onDelete
        case ObjError => StoreError
        case ObjFound => onUpdate;
      End(res);
      if res == RetriableError {
        Call(AddRateLimited);
      } else if res.Synced? {
        if res.requeueAfter > 0 {
          Call(Forget);
          Call(AddAfter);
        } else if res.requeue {
          Call(AddRateLimited);
        } else {
          Call(Forget);
        }
      }
    }

    /** syncHandler of the EndpointGroupBinding controller; a key that does not split counts as absent. */
    method HandleSync(lookup: ObjLookup, reconciled: SyncResult)
      requires Valid() && h == SyncHandler && PcOf(system, w).Syncing?
      requires Returned(reconciled)
      modifies this`system, this`trace
      ensures Valid() && PcOf(system, w) == Finishing(old(Item()), [])
      ensures ResultFor(system, Item()) == Some(
                if lookup == ObjNotFound then Absent else if lookup == ObjFound then reconciled else StoreError)
      ensures ComesBack(Disposition(h, old(Item()), ResultFor(system, Item()).value)) ==>
                Waiting(system, Item()) || system.down
    {
      hide Inv, Exec, Legal, Waiting, Apply, Enabled;
      if lookup == ObjNotFound {
        End(Absent);
        return;
      }
      if lookup == ObjError {
        End(StoreError);
        return;
      }
      End(reconciled);
      if reconciled.Synced? {
        if reconciled.requeueAfter > 0 {
          Call(Forget);
          Call(AddAfter);
        } else if reconciled.requeue {
          Call(AddRateLimited);
        } else {
          Call(Forget);
        }
      }
    }

    /** ProcessNextWorkItem: false once the queue is shut down and empty. An empty queue would block Get. */
    method ProcessNextWorkItem(lookup: ObjLookup, onDelete: SyncResult, onUpdate: SyncResult)
      returns (more: bool, ghost taken: Option<Item>)
      requires Valid() && h == ReconcileHandler && PcOf(system, w).Idle?
      requires Returned(onDelete) && Returned(onUpdate)
      modifies this`system, this`trace
      ensures Valid() && PcOf(system, w).Idle?
      ensures taken.None? ==> system.queue == [] && more == !system.down
      ensures taken.Some? ==>
                && more
                && ResultFor(system, taken.value) == Some(
                     if taken.value.OtherItem? then NoRetryError
                     else if lookup == ObjNotFound then onDelete
                     else if lookup == ObjFound then onUpdate else StoreError)
                && (ComesBack(Disposition(h, taken.value, ResultFor(system, taken.value).value)) ==>
                      Waiting(system, taken.value) || system.down)
    {
      hide Inv, Exec, Legal, Disposition, ComesBack;
      Interleave();
      if system.queue == [] {
        return !system.down, None;
      }
      Step(Take(w));
      taken := Some(Item());
      HandleReconcile(lookup, onDelete, onUpdate);
      Step(Finish(w));
      more := true;
    }
  }

  /** The results that process functions return. */
  predicate Returned(r: SyncResult) {
    r.Synced? || r == RetriableError || r == NoRetryError
  }
}
