/** The event loop of the storage worker (src/dw_node.c): stores that wait for a sync are acknowledged
    after it, either at once or at the next tick of the periodic sync. */
module StorageWorker {
  import opened PriorityQueue

  /** What the worker did, in order. */
  datatype Effect =
    | Wrote(worker: int, req: int, waits: bool) // stored the data; `waits`: an acknowledgement is due
    | Loaded(worker: int, req: int)
    | Synced                                    // fsync
    | Acked(worker: int, req: int)              // req sent back to the worker

  /** storage_req_t. */
  datatype Command = Store(waitSync: bool) | Load | Other

  // ---------- counting effects ----------

  function Count(log: seq<Effect>, e: Effect): nat {
    if log == [] then 0 else Count(log[..|log| - 1], e) + if log[|log| - 1] == e then 1 else 0
  }

  /** The i-th effect acknowledges a synchronous store: the acknowledgement of a load directly follows it. */
  predicate StoreAck(log: seq<Effect>, i: nat, w: int, r: int)
    requires i < |log|
  {
    log[i] == Acked(w, r) && (i == 0 || log[i - 1] != Loaded(w, r))
  }

  /** The stores of request r of worker w that have been acknowledged. */
  function Acks(log: seq<Effect>, w: int, r: int): nat {
    if log == [] then 0
    else Acks(log[..|log| - 1], w, r) + if StoreAck(log, |log| - 1, w, r) then 1 else 0
  }

  /** The stores of request r of worker w that have to be acknowledged. */
  function Due(log: seq<Effect>, w: int, r: int): nat {
    Count(log, Wrote(w, r, true))
  }

  /** Those of them that may be acknowledged: the stores written before the latest fsync. */
  function Covered(log: seq<Effect>, w: int, r: int): nat {
    if log == [] then 0
    else
      var front := log[..|log| - 1];
      if log[|log| - 1].Synced? then Due(front, w, r) else Covered(front, w, r)
  }

  /** Each load is acknowledged, once, directly after it. */
  ghost predicate LoadsAnswered(log: seq<Effect>) {
    forall i :: 0 <= i < |log| && log[i].Loaded? ==>
      i + 1 < |log| && log[i + 1] == Acked(log[i].worker, log[i].req)
  }

  /** At no time have more stores been acknowledged to a worker than it had issued and were covered. */
  ghost predicate Durable(log: seq<Effect>) {
    forall n: nat, w: int, r: int :: n <= |log| ==> AckedInTime(log, n, w, r)
  }

  predicate AckedInTime(log: seq<Effect>, n: nat, w: int, r: int)
    requires n <= |log|
  {
    Acks(log[..n], w, r) <= Covered(log[..n], w, r)
  }

  lemma {:induction false} CountMore(log: seq<Effect>, e: Effect)
    ensures forall x :: Count(log + [e], x) == Count(log, x) + if x == e then 1 else 0
    ensures forall w, r :: Covered(log + [e], w, r) == if e.Synced? then Due(log, w, r) else Covered(log, w, r)
    ensures forall w, r :: (Acks(log + [e], w, r)
      == Acks(log, w, r) + if e == Acked(w, r) && !EndsWith(log, Loaded(w, r)) then 1 else 0)
  {
    assert (log + [e])[..|log|] == log;
  }

  predicate EndsWith(log: seq<Effect>, e: Effect) {
    log != [] && log[|log| - 1] == e
  }

  lemma {:induction false} DurableMore(log: seq<Effect>, e: Effect)
    requires Durable(log)
    requires forall w, r :: Acks(log + [e], w, r) <= Covered(log + [e], w, r)
    ensures Durable(log + [e])
  {
    hide Count; hide Covered;
    var log' := log + [e];
    forall n: nat, w: int, r: int | n <= |log'| ensures AckedInTime(log', n, w, r) {
      if n <= |log| {
        assert AckedInTime(log, n, w, r);
        assert log'[..n] == log[..n];
      } else {
        assert log'[..n] == log';
      }
    }
  }

  // ---------- the entries of a queue ----------

  ghost function Holders(m: map<nat, Entry>, v: Entry): set<nat> {
    set k | k in m && m[k] == v
  }

  /** How often an entry is in the queue. */
  ghost function Queued(m: map<nat, Entry>, w: int, r: int): nat {
    |Holders(m, Entry(w, r))|
  }

  lemma {:induction false} HoldersWith(m: map<nat, Entry>, k: nat, v: Entry, e: Entry)
    requires k !in m
    ensures Holders(m[k := v], e) == Holders(m, e) + (if v == e then {k} else {}) && k !in Holders(m, e)
  {
  }

  lemma {:induction false} QueuedWith(m: map<nat, Entry>, k: nat, v: Entry)
    requires k !in m
    ensures forall w, r :: Queued(m[k := v], w, r) == Queued(m, w, r) + if v == Entry(w, r) then 1 else 0
  {
    forall w, r ensures Queued(m[k := v], w, r) == Queued(m, w, r) + if v == Entry(w, r) then 1 else 0 {
      hide Holders;
      HoldersWith(m, k, v, Entry(w, r));
    }
  }

  lemma {:induction false} QueuedWithout(m: map<nat, Entry>, k: nat)
    requires k in m
    ensures forall w, r :: Queued(m, w, r) == Queued(m - {k}, w, r) + if m[k] == Entry(w, r) then 1 else 0
  {
    QueuedWith(m - {k}, k, m[k]);
    assert (m - {k})[k := m[k]] == m;
  }

  // ---------- the worker ----------

  class Worker {
    const periodic: bool      // periodic_sync_msec > 0
    const waiting: PQueue     // sync_waiting_queue: worker id as key, request id as data
    var log: seq<Effect>

    ghost predicate Valid()
      reads this, waiting, waiting.nodes, waiting.heap, waiting.stack
    {
      waiting.Valid() && Durable(log) && Balanced() && LoadsAnswered(log)
    }

    /** Each store due has been acknowledged or waits in the queue. */
    ghost predicate Balanced()
      requires waiting.Shape()
      reads this, waiting, waiting.nodes, waiting.heap, waiting.stack
    {
      forall w, r :: Due(log, w, r) == Acks(log, w, r) + Queued(waiting.Contents(), w, r)
    }

    constructor (periodic: bool, capacity: nat)
      ensures Valid() && log == [] && waiting.size == 0 && this.periodic == periodic
      ensures waiting.capacity == capacity && fresh(waiting)
    {
      this.periodic, log := periodic, [];
      waiting := new PQueue(capacity);
    }

    /** The STORE case, with store() and its fsync. */
    method OnStore(worker: int, req: int, waitSync: bool)
      requires Valid() && (periodic && waitSync ==> waiting.size < waiting.capacity)
      modifies this`log, waiting, waiting.nodes, waiting.heap
      ensures Valid()
      ensures var wrote := old(log) + [Wrote(worker, req, waitSync)];
        log == if waitSync && !periodic then wrote + [Synced] + [Acked(worker, req)] else wrote
      ensures waitSync && periodic ==> waiting.size == old(waiting.size) + 1
    {
      hide Count; hide Covered; hide Acks; hide Durable; hide Queued; hide HeapOrder;
      hide PQueue.Contents; hide PQueue.Linked; hide PQueue.FreeStack; hide PQueue.Keys;
      Latest(log);
      CoveredDue(log);
      Grow(log, Wrote(worker, req, waitSync));
      log := log + [Wrote(worker, req, waitSync)];
      if waitSync {
        if !periodic {
          Grow(log, Synced);
          log := log + [Synced];
          Grow(log, Acked(worker, req));
          log := log + [Acked(worker, req)];
        } else {
          ghost var before := waiting.Contents();
          var x := waiting.Insert(worker, req);
          QueuedWith(before, x, Entry(worker, req));
        }
      }
    }

    /** The LOAD case. */
    method OnLoad(worker: int, req: int)
      requires Valid()
      modifies this`log
      ensures Valid() && log == old(log) + [Loaded(worker, req)] + [Acked(worker, req)]
    {
      hide Count; hide Covered; hide Acks; hide Durable; hide Queued; hide HeapOrder;
      hide PQueue.Contents; hide PQueue.Linked; hide PQueue.FreeStack; hide PQueue.Keys;
      Grow(log, Loaded(worker, req));
      Grow(log + [Loaded(worker, req)], Acked(worker, req));
      log := log + [Loaded(worker, req)] + [Acked(worker, req)];
    }

    /** A request of a connection worker: the STORAGE event. */
    method OnStorage(worker: int, req: int, cmd: Command)
      requires Valid() && (periodic && cmd == Store(true) ==> waiting.size < waiting.capacity)
      modifies this`log, waiting, waiting.nodes, waiting.heap
      ensures Valid()
      ensures cmd == Store(false) ==> log == old(log) + [Wrote(worker, req, false)]
      ensures cmd == Store(true) && !periodic
              ==> log == old(log) + [Wrote(worker, req, true)] + [Synced] + [Acked(worker, req)]
      ensures cmd == Store(true) && periodic
              ==> log == old(log) + [Wrote(worker, req, true)] && waiting.size == old(waiting.size) + 1
      ensures cmd == Load ==> log == old(log) + [Loaded(worker, req)] + [Acked(worker, req)]
      ensures cmd == Other ==> log == old(log)
    {
      match cmd
      case Store(waitSync) => OnStore(worker, req, waitSync);
      case Load => OnLoad(worker, req);
      case Other =>
    }

    /** Every store due is covered by an fsync, and no load is unanswered. */
    ghost predicate AllCovered()
      reads this
    {
      log != [] && !log[|log| - 1].Loaded? && forall w, r :: Covered(log, w, r) == Due(log, w, r)
    }

    /** One turn of the loop of a tick: the store on top of the queue is acknowledged. */
    method AckTop()
      requires Valid() && AllCovered() && waiting.size > 0
      modifies this`log, waiting, waiting.nodes, waiting.heap, waiting.stack
      ensures Valid() && AllCovered() && waiting.size == old(waiting.size) - 1
      ensures |log| == |old(log)| + 1 && old(log) <= log && log[|old(log)|].Acked?
      ensures forall w, r :: Due(log, w, r) == old(Due(log, w, r))
    {
      hide Count; hide Covered; hide Acks; hide Durable; hide Queued; hide HeapOrder;
      hide PQueue.Contents; hide PQueue.Linked; hide PQueue.FreeStack; hide PQueue.Keys;
      Latest(log);
      var top := waiting.Top();
      InQueue(waiting, top);
      var workerId, reqId := waiting.nodes[top].key, waiting.nodes[top].data;
      ghost var before := waiting.Contents();
      ghost var x := waiting.Pop();
      QueuedWithout(before, top);
      Grow(log, Acked(workerId, reqId));
      log := log + [Acked(workerId, reqId)];
    }

    /** A tick of the periodic sync: an fsync, then every store waiting is acknowledged, and no other. */
    method OnTick()
      requires Valid()
      modifies this`log, waiting, waiting.nodes, waiting.heap, waiting.stack
      ensures Valid() && waiting.size == 0 && waiting.Contents() == map[]
      ensures old(log) + [Synced] <= log && forall i :: |old(log)| < i < |log| ==> log[i].Acked?
      ensures forall w, r ::
        Acks(log, w, r) == old(Acks(log, w, r) + Queued(waiting.Contents(), w, r)) == Due(log, w, r)
    {
      hide Count; hide Covered; hide Acks; hide Durable; hide Queued; hide HeapOrder;
      hide PQueue.Contents; hide PQueue.Linked; hide PQueue.FreeStack; hide PQueue.Keys;
      Grow(log, Synced);
      log := log + [Synced];
      while waiting.size > 0
        invariant Valid() && AllCovered()
        invariant old(log) + [Synced] <= log && forall i :: |old(log)| < i < |log| ==> log[i].Acked?
        invariant forall w, r :: Due(log, w, r) == old(Due(log, w, r))
        decreases waiting.size
      {
        AckTop();
      }
      EmptyQueue(waiting);
    }
  }

  lemma {:induction false} InQueue(q: PQueue, x: nat)
    requires q.Shape() && x in q.Contents()
    ensures x < q.capacity && q.Contents()[x] == Entry(q.nodes[x].key, q.nodes[x].data)
  {
  }

  lemma {:induction false} EmptyQueue(q: PQueue)
    requires q.Valid() && q.size == 0
    ensures q.Contents() == map[] && forall w, r :: Queued(q.Contents(), w, r) == 0
  {
    assert forall v :: Holders(q.Contents(), v) == {};
  }

  /** One more effect: the new counts, and durability if it acknowledges only a store that is covered. */
  lemma {:induction false} Grow(log: seq<Effect>, e: Effect)
    requires Durable(log)
    ensures forall w, r :: (Acks(log + [e], w, r)
      == Acks(log, w, r) + if e == Acked(w, r) && !EndsWith(log, Loaded(w, r)) then 1 else 0)
    ensures forall w, r :: Due(log + [e], w, r) == Due(log, w, r) + if e == Wrote(w, r, true) then 1 else 0
    ensures forall w, r :: Covered(log + [e], w, r) == if e.Synced? then Due(log, w, r) else Covered(log, w, r)
    ensures (e.Acked? && !EndsWith(log, Loaded(e.worker, e.req))
             ==> Acks(log, e.worker, e.req) < Covered(log, e.worker, e.req)) ==> Durable(log + [e])
  {
    hide Durable; hide Acks; hide Covered; hide Count;
    CountMore(log, e);
    Latest(log);
    CoveredDue(log);
    if e.Acked? && !EndsWith(log, Loaded(e.worker, e.req))
       ==> Acks(log, e.worker, e.req) < Covered(log, e.worker, e.req) {
      DurableMore(log, e);
    }
  }

  lemma {:induction false} Latest(log: seq<Effect>)
    requires Durable(log)
    ensures forall w, r :: Acks(log, w, r) <= Covered(log, w, r)
  {
    forall w, r ensures Acks(log, w, r) <= Covered(log, w, r) {
      assert AckedInTime(log, |log|, w, r);
      assert log[..|log|] == log;
    }
  }

  /** What is covered is due. */
  lemma {:induction false} CoveredDue(log: seq<Effect>)
    ensures forall w, r :: Covered(log, w, r) <= Due(log, w, r)
  {
    if log != [] {
      var front, last := log[..|log| - 1], log[|log| - 1];
      CoveredDue(front);
      CountMore(front, last);
      assert log == front + [last];
    }
  }

  /** What durability says of each acknowledgement of a store: the k-th one that a request gets comes after an
      fsync that comes after at least k of its synchronous stores. */
  lemma {:induction false} AckAfterSync(log: seq<Effect>, i: nat, w: int, r: int)
    requires Durable(log) && i < |log| && StoreAck(log, i, w, r)
    ensures exists s :: 0 <= s < i && log[s].Synced? && Due(log[..s], w, r) >= Acks(log[..i + 1], w, r) >= 1
  {
    hide Durable; hide Covered; hide Count;
    var upTo := log[..i + 1];
    assert upTo[..i] == log[..i] && StoreAck(upTo, i, w, r);
    assert AckedInTime(log, i + 1, w, r) by { InTime(log, i + 1, w, r); }
    var s := CoveredWitness(upTo, w, r);
    assert upTo[s] == log[s] && upTo[..s] == log[..s] && s != i;
  }

  lemma {:induction false} InTime(log: seq<Effect>, n: nat, w: int, r: int)
    requires Durable(log) && n <= |log|
    ensures AckedInTime(log, n, w, r)
  {
  }

  /** What is covered was written before some fsync. */
  lemma {:induction false} CoveredWitness(log: seq<Effect>, w: int, r: int) returns (s: nat)
    requires Covered(log, w, r) > 0
    ensures s < |log| && log[s].Synced? && Due(log[..s], w, r) == Covered(log, w, r)
  {
    var front := log[..|log| - 1];
    if log[|log| - 1].Synced? {
      s := |log| - 1;
    } else {
      s := CoveredWitness(front, w, r);
      assert front[..s] == log[..s];
    }
  }

  /** A store is acknowledged no more often than it was issued. */
  lemma {:induction false} AcksBounded(log: seq<Effect>, w: int, r: int)
    requires Durable(log)
    ensures Acks(log, w, r) <= Due(log, w, r)
  {
    Latest(log);
    CoveredDue(log);
  }
}
