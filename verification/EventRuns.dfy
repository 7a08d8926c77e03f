/**
 Any number of batch workers on one event queue and one usage table. Every Redis command and every
 database transaction is one step, steps of different workers interleave freely, and a worker may
 crash between any two of its steps.
 */
module EventRuns {
  import opened Basics
  import opened EventQueue
  import opened UsageTable

  /** Where a worker stands in `flush_usage_records`; `pushed` is set between a push and its removal. */
  datatype Worker =
    | Claiming(items: seq<Envelope>)
    | Burying(bad: seq<Envelope>, pushed: bool, good: seq<Envelope>)
    | Writing(good: seq<Envelope>)
    | Acking(todo: seq<Envelope>)
    | Retrying(todo: seq<Envelope>, pushed: bool)

  /** `origin` remembers every event as it was first enqueued, by its request id. */
  datatype System = System(queue: Queue, table: Table, workers: map<nat, Worker>, origin: map<Json, Object>)

  const EMPTY := System(Queue([], [], []), [], map[], map[])

  datatype Action =
    | Enqueue(payload: Payload)
    | Begin(w: nat)
    | ClaimOne(w: nat, now: int)
    | Sort(w: nat)
    | Bury(w: nat)
    | Write(w: nat, stored: bool, ok: bool)
    | Ack(w: nat)
    | Retry(w: nat)
    | Crash(w: nat)
    | Recover(cutoff: int)

  predicate IsObject(e: Envelope) { e.Claim? && e.payload.Obj? }

  function Objects(es: seq<Envelope>): (r: seq<Envelope>)
    ensures forall e <- r :: e in es && IsObject(e)
  {
    if es == [] then [] else if IsObject(es[0]) then [es[0]] + Objects(es[1..]) else Objects(es[1..])
  }

  function NonObjects(es: seq<Envelope>): (r: seq<Envelope>)
    ensures forall e <- r :: e in es && !IsObject(e)
  {
    if es == [] then [] else if IsObject(es[0]) then NonObjects(es[1..]) else [es[0]] + NonObjects(es[1..])
  }

  /** The records of a batch of claims. */
  function RecordsOf(es: seq<Envelope>): seq<Object>
    requires forall e <- es :: IsObject(e)
  {
    if es == [] then [] else assert IsObject(es[0]); [es[0].payload.fields] + RecordsOf(es[1..])
  }

  /** The batch held by a writing worker can be turned into rows. */
  predicate Writable(good: seq<Envelope>) {
    && (forall e <- good :: IsObject(e))
    && forall o <- Distinct(RecordsOf(good), {}) :: Convertible(o)
  }

  /**
   What each step demands. An event comes with a request id of its own and without a retry
   counter; a write is stored only for a batch that converts, may fail for any batch, and may
   look failed to the worker although it was stored.
   */
  predicate Possible(s: System, a: Action) {
    match a
    case Enqueue(Obj(o)) => Truthy(IdOf(o)) && IdOf(o) !in s.origin && Attempt !in o
    case Enqueue(NotObject(_)) => true
    case Begin(w) => w !in s.workers
    case ClaimOne(w, _) => w in s.workers && s.workers[w].Claiming?
    case Sort(w) => w in s.workers && s.workers[w].Claiming?
    case Bury(w) => w in s.workers && s.workers[w].Burying? && forall e <- s.workers[w].bad :: e.Claim?
    case Write(w, stored, ok) =>
      w in s.workers && s.workers[w].Writing? && (ok ==> stored) && (stored ==> Writable(s.workers[w].good))
    case Ack(w) => w in s.workers && s.workers[w].Acking?
    case Retry(w) => w in s.workers && s.workers[w].Retrying? && forall e <- s.workers[w].todo :: e.Claim?
    case Crash(w) => w in s.workers
    case Recover(_) => true
  }

  function Act(s: System, a: Action): System
    requires Possible(s, a)
  {
    match a
    case Enqueue(p) =>
      s.(queue := s.queue.(pending := s.queue.pending + [p]),
         origin := if p.Obj? then s.origin[IdOf(p.fields) := p.fields] else s.origin)
    case Begin(w) => s.(workers := s.workers[w := Claiming([])])
    case ClaimOne(w, now) =>
      var (queue, claim) := Claimed(s.queue, now);
      s.(queue := queue,
         workers := s.workers[w := Claiming(s.workers[w].items + if claim.Some? then [claim.value] else [])])
    case Sort(w) =>
      var items := s.workers[w].items;
      s.(workers := s.workers[w := Burying(NonObjects(items), false, Objects(items))])
    case Bury(w) =>
      var Burying(bad, pushed, good) := s.workers[w];
      if bad == [] then s.(workers := s.workers[w := Writing(good)])
      else if !pushed then
        s.(queue := s.queue.(dlq := s.queue.dlq + [DeadPayload(bad[0].payload)]),
           workers := s.workers[w := Burying(bad, true, good)])
      else
        s.(queue := Acked(s.queue, bad[0]), workers := s.workers[w := Burying(bad[1..], false, good)])
    case Write(w, stored, ok) =>
      var good := s.workers[w].good;
      s.(table := if stored then InsertAll(s.table, RowsOf(RecordsOf(good))) else s.table,
         workers := s.workers[w := if ok then Acking(good) else Retrying(good, false)])
    case Ack(w) =>
      var todo := s.workers[w].todo;
      if todo == [] then s.(workers := s.workers - {w})
      else s.(queue := Acked(s.queue, todo[0]), workers := s.workers[w := Acking(todo[1..])])
    case Retry(w) =>
      var Retrying(todo, pushed) := s.workers[w];
      if todo == [] then s.(workers := s.workers - {w})
      else if !pushed then
        s.(queue := Requeued(s.queue, todo[0].payload), workers := s.workers[w := Retrying(todo, true)])
      else
        s.(queue := Acked(s.queue, todo[0]), workers := s.workers[w := Retrying(todo[1..], false)])
    case Crash(w) => s.(workers := s.workers - {w})
    case Recover(cutoff) => s.(queue := Recovered(s.queue, cutoff))
  }

  predicate Schedule(s: System, actions: seq<Action>)
    decreases |actions|
  {
    actions == [] || (Possible(s, actions[0]) && Schedule(Act(s, actions[0]), actions[1..]))
  }

  function After(s: System, actions: seq<Action>): System
    requires Schedule(s, actions)
    decreases |actions|
  {
    if actions == [] then s else After(Act(s, actions[0]), actions[1..])
  }

  /** An event with a request id that is new joins the end of the queue. */
  lemma EnqueueAppends(s: System, o: Object, id: Json)
    requires Of(RequestId) in o && o[Of(RequestId)] == id && id != Null && id != Number(0) && id != Text("")
    requires id !in s.origin && Attempt !in o
    ensures Possible(s, Enqueue(Obj(o)))
    ensures Act(s, Enqueue(Obj(o))) == System(Queue(s.queue.pending + [Obj(o)], s.queue.inflight, s.queue.dlq), s.table,
                                              s.workers, s.origin[id := o])
  {
  }

  // ---------------------------------------------------------------------------------------------
  // Copies of an event
  // ---------------------------------------------------------------------------------------------

  ghost predicate InQueue(q: Queue, p: Payload) {
    p in q.pending || DeadPayload(p) in q.dlq || exists t :: Claim(p, t) in q.inflight
  }

  /** `p` is the event `id` after at least `attempts` failed writes. */
  predicate IsCopy(p: Payload, id: Json, attempts: int) {
    p.Obj? && IdOf(p.fields) == id && Attempts(p.fields) >= attempts
  }

  ghost predicate HasCopy(q: Queue, id: Json, attempts: int) {
    exists p :: InQueue(q, p) && IsCopy(p, id, attempts)
  }

  /** The event has its row, or a copy that has failed at least `attempts` times. */
  ghost predicate Kept(s: System, id: Json, attempts: int) {
    HasId(s.table, id) || HasCopy(s.queue, id, attempts)
  }

  lemma {:induction false} RemoveFirstKeeps<T>(s: seq<T>, x: T)
    ensures forall y <- s :: y != x ==> y in RemoveFirst(s, x)
    ensures forall y <- RemoveFirst(s, x) :: y in s
  {
    if s != [] && s[0] != x {
      RemoveFirstKeeps(s[1..], x);
    }
  }

  lemma {:induction false} RecoveryKeepsPayload(es: seq<Envelope>, cutoff: int, p: Payload, t: int)
    requires Claim(p, t) in es
    ensures p in StalePayloads(es, cutoff) || Claim(p, t) in Fresh(es, cutoff)
  {
    if es[0] != Claim(p, t) {
      RecoveryKeepsPayload(es[1..], cutoff, p, t);
    }
  }

  lemma ClaimKeepsCopies(q: Queue, now: int, p: Payload)
    requires InQueue(q, p)
    ensures InQueue(Claimed(q, now).0, p)
  {
    var q' := Claimed(q, now).0;
    if q.pending != [] {
      if p in q.pending && p !in q'.pending {
        assert p == q.pending[0];
        assert Claim(p, now) in q'.inflight;
      } else if exists t :: Claim(p, t) in q.inflight {
        var t :| Claim(p, t) in q.inflight;
        assert Claim(p, t) in q'.inflight;
      }
    }
  }

  lemma RecoveryKeepsCopies(q: Queue, cutoff: int, p: Payload)
    requires InQueue(q, p)
    ensures InQueue(Recovered(q, cutoff), p)
  {
    if exists t :: Claim(p, t) in q.inflight {
      var t :| Claim(p, t) in q.inflight;
      RecoveryKeepsPayload(q.inflight, cutoff, p, t);
    }
  }

  /** Pushing onto pending or the dead letters loses nothing. */
  lemma PushKeepsCopies(q: Queue, q': Queue, p: Payload)
    requires q.pending <= q'.pending && q.dlq <= q'.dlq && q.inflight == q'.inflight && InQueue(q, p)
    ensures InQueue(q', p)
  {
  }

  /** Removing one claim loses no payload but its own. */
  lemma AckKeepsOthers(q: Queue, e: Envelope, p: Payload)
    requires InQueue(q, p) && e.Claim? && e.payload != p
    ensures InQueue(Acked(q, e), p)
  {
    RemoveFirstKeeps(q.inflight, e);
  }

  // ---------------------------------------------------------------------------------------------
  // The invariant
  // ---------------------------------------------------------------------------------------------

  /** An event in the queue builds the row of the event as first enqueued. */
  ghost predicate GoodPayload(origin: map<Json, Object>, p: Payload, bound: int) {
    p.Obj? ==>
      && Truthy(IdOf(p.fields)) && IdOf(p.fields) in origin && ToRow(p.fields) == ToRow(origin[IdOf(p.fields)])
      && 0 <= Attempts(p.fields) < bound
  }

  ghost predicate GoodClaim(origin: map<Json, Object>, e: Envelope) {
    e.Claim? && GoodPayload(origin, e.payload, MAX_ATTEMPTS)
  }

  ghost predicate GoodDead(origin: map<Json, Object>, d: Dead) {
    d.DeadPayload? && GoodPayload(origin, d.payload, MAX_ATTEMPTS + 1)
  }

  ghost predicate GoodRow(origin: map<Json, Object>, r: Row) {
    Truthy(r.requestId) && r.requestId in origin && r == ToRow(origin[r.requestId])
  }

  ghost predicate GoodLists(s: System) {
    && (forall p <- s.queue.pending :: GoodPayload(s.origin, p, MAX_ATTEMPTS))
    && (forall e <- s.queue.inflight :: GoodClaim(s.origin, e))
    && (forall d <- s.queue.dlq :: GoodDead(s.origin, d))
  }

  ghost predicate GoodTable(s: System) {
    UniqueIds(s.table) && forall r <- s.table :: GoodRow(s.origin, r)
  }

  ghost predicate GoodClaims(s: System, es: seq<Envelope>) {
    forall e <- es :: GoodClaim(s.origin, e)
  }

  ghost predicate GoodObjects(s: System, es: seq<Envelope>) {
    forall e <- es :: GoodClaim(s.origin, e) && IsObject(e)
  }

  /**
   What a worker knows: acknowledged claims have their row, and a claim about to be removed after a
   retry has been pushed again with a higher count, or has its row by now.
   */
  ghost predicate GoodWorker(s: System, w: Worker) {
    match w
    case Claiming(items) => GoodClaims(s, items)
    case Burying(bad, _, good) => GoodObjects(s, good) && forall e <- bad :: e.Claim? && !IsObject(e)
    case Writing(good) => GoodObjects(s, good)
    case Acking(todo) => GoodObjects(s, todo) && forall e <- todo :: HasId(s.table, IdOf(e.payload.fields))
    case Retrying(todo, pushed) =>
      GoodObjects(s, todo) &&
      (pushed ==>
         todo != [] && IsObject(todo[0])
         && Kept(s, IdOf(todo[0].payload.fields), Attempts(todo[0].payload.fields) + 1))
  }

  ghost predicate Inv(s: System) {
    && GoodLists(s) && GoodTable(s)
    && (forall w <- s.workers :: GoodWorker(s, s.workers[w]))
    && (forall id <- s.origin :: Truthy(id) && Kept(s, id, 0))
  }

  /** Everything known about events in `s` still holds in `s'`. */
  ghost predicate Extends(s: System, s': System) {
    && (forall id :: id in s.origin ==> id in s'.origin && s'.origin[id] == s.origin[id])
    && (forall id :: HasId(s.table, id) ==> HasId(s'.table, id))
    && (forall id, attempts :: Truthy(id) && Kept(s, id, attempts) ==> Kept(s', id, attempts))
  }

  lemma ExtendsByCopies(s: System, s': System)
    requires forall id :: id in s.origin ==> id in s'.origin && s'.origin[id] == s.origin[id]
    requires s'.table == s.table
    requires forall p :: InQueue(s.queue, p) ==> InQueue(s'.queue, p)
    ensures Extends(s, s')
  {
  }

  lemma ExtendsKeepsWorker(s: System, s': System, w: Worker)
    requires Extends(s, s') && GoodWorker(s, w)
    ensures GoodWorker(s', w)
  {
    if w.Retrying? && w.pushed {
      assert GoodClaim(s.origin, w.todo[0]);
    }
  }

  /** Removing a claim keeps every event whose row exists or that has been pushed with a higher count. */
  lemma AckExtends(s: System, s': System, e: Envelope)
    requires e.Claim? && s'.queue == Acked(s.queue, e) && s'.table == s.table && s'.origin == s.origin
    requires e.payload.Obj? ==>
               Kept(s, IdOf(e.payload.fields), Attempts(e.payload.fields) + 1)
    ensures Extends(s, s')
  {
    forall id, attempts | Truthy(id) && Kept(s, id, attempts) ensures Kept(s', id, attempts) {
      if !HasId(s.table, id) {
        var p :| InQueue(s.queue, p) && IsCopy(p, id, attempts);
        if p == e.payload {
          p :| InQueue(s.queue, p) && IsCopy(p, id, Attempts(e.payload.fields) + 1);
        }
        AckKeepsOthers(s.queue, e, p);
        assert IsCopy(p, id, attempts);
      }
    }
  }

  /** What a step must show: nothing known is lost, and what it wrote and its own worker are good. */
  lemma Combine(s: System, s': System)
    requires Inv(s) && Extends(s, s') && GoodLists(s') && GoodTable(s')
    requires forall w <- s'.workers ::
               (w in s.workers && s'.workers[w] == s.workers[w]) || GoodWorker(s', s'.workers[w])
    requires forall id <- s'.origin :: id in s.origin || (Truthy(id) && Kept(s', id, 0))
    ensures Inv(s')
  {
    forall w <- s'.workers ensures GoodWorker(s', s'.workers[w]) {
      if w in s.workers && s'.workers[w] == s.workers[w] {
        ExtendsKeepsWorker(s, s', s.workers[w]);
      }
    }
  }

  lemma EnqueueKeepsLists(s: System, p: Payload)
    requires GoodLists(s) && Possible(s, Enqueue(p))
    ensures GoodLists(Act(s, Enqueue(p)))
  {
    var s' := Act(s, Enqueue(p));
    forall x <- s'.queue.pending ensures GoodPayload(s'.origin, x, MAX_ATTEMPTS) {
      assert x in s.queue.pending || x == p;
    }
  }

  lemma EnqueueExtends(s: System, p: Payload)
    requires Possible(s, Enqueue(p))
    ensures Extends(s, Act(s, Enqueue(p)))
    ensures p.Obj? ==> Kept(Act(s, Enqueue(p)), IdOf(p.fields), 0)
  {
    var s' := Act(s, Enqueue(p));
    forall x | InQueue(s.queue, x) ensures InQueue(s'.queue, x) {
      PushKeepsCopies(s.queue, s'.queue, x);
    }
    ExtendsByCopies(s, s');
    if p.Obj? {
      assert InQueue(s'.queue, p) && IsCopy(p, IdOf(p.fields), 0);
    }
  }

  lemma EnqueueKeepsInv(s: System, p: Payload)
    requires Inv(s) && Possible(s, Enqueue(p))
    ensures Inv(Act(s, Enqueue(p)))
  {
    var s' := Act(s, Enqueue(p));
    EnqueueKeepsLists(s, p);
    EnqueueExtends(s, p);
    forall r <- s'.table ensures GoodRow(s'.origin, r) {
      assert GoodRow(s.origin, r);
    }
    Combine(s, s');
  }

  lemma ClaimKeepsInv(s: System, w: nat, now: int)
    requires Inv(s) && Possible(s, ClaimOne(w, now))
    ensures Inv(Act(s, ClaimOne(w, now)))
  {
    var s' := Act(s, ClaimOne(w, now));
    forall x | InQueue(s.queue, x) ensures InQueue(s'.queue, x) {
      ClaimKeepsCopies(s.queue, now, x);
    }
    ExtendsByCopies(s, s');
    assert GoodWorker(s, s.workers[w]);
    Combine(s, s');
  }

  lemma {:induction false} RecoveryMoves(es: seq<Envelope>, cutoff: int)
    ensures forall e <- Fresh(es, cutoff) :: e in es
    ensures forall p <- StalePayloads(es, cutoff) :: exists t :: Claim(p, t) in es
    ensures (forall e <- es :: e.Claim?) ==> Broken(es) == []
  {
    if es != [] {
      RecoveryMoves(es[1..], cutoff);
      forall p <- StalePayloads(es, cutoff) ensures exists t :: Claim(p, t) in es {
        if Stale(es[0], cutoff) && p == es[0].payload {
          assert Claim(p, es[0].claimedAt) in es;
        } else {
          assert p in StalePayloads(es[1..], cutoff);
          var t :| Claim(p, t) in es[1..];
          assert Claim(p, t) in es;
        }
      }
    }
  }

  lemma RecoverKeepsInv(s: System, cutoff: int)
    requires Inv(s)
    ensures Inv(Act(s, Recover(cutoff)))
  {
    var s' := Act(s, Recover(cutoff));
    forall x | InQueue(s.queue, x) ensures InQueue(s'.queue, x) {
      RecoveryKeepsCopies(s.queue, cutoff, x);
    }
    ExtendsByCopies(s, s');
    RecoveryMoves(s.queue.inflight, cutoff);
    forall p <- s'.queue.pending ensures GoodPayload(s.origin, p, MAX_ATTEMPTS) {
      if p !in s.queue.pending {
        var t :| Claim(p, t) in s.queue.inflight;
        assert GoodClaim(s.origin, Claim(p, t));
      }
    }
    Combine(s, s');
  }

  /** Removing a claim leaves good lists good. */
  lemma AckKeepsLists(s: System, s': System, e: Envelope)
    requires GoodLists(s) && s'.queue == Acked(s.queue, e) && s'.origin == s.origin
    ensures GoodLists(s')
  {
    RemoveFirstKeeps(s.queue.inflight, e);
  }

  /** Removing a claim whose event is safe elsewhere keeps the invariant. */
  lemma DropClaim(s: System, w: nat, e: Envelope, next: Worker)
    requires Inv(s) && e.Claim? && GoodWorker(s, next)
    requires e.payload.Obj? ==> Kept(s, IdOf(e.payload.fields), Attempts(e.payload.fields) + 1)
    ensures Inv(s.(queue := Acked(s.queue, e), workers := s.workers[w := next]))
  {
    var s' := s.(queue := Acked(s.queue, e), workers := s.workers[w := next]);
    AckExtends(s, s', e);
    AckKeepsLists(s, s', e);
    ExtendsKeepsWorker(s, s', next);
    Combine(s, s');
  }

  lemma BuryKeepsInv(s: System, w: nat)
    requires Inv(s) && Possible(s, Bury(w))
    ensures Inv(Act(s, Bury(w)))
  {
    var s' := Act(s, Bury(w));
    var Burying(bad, pushed, good) := s.workers[w];
    assert GoodWorker(s, s.workers[w]);
    if bad != [] {
      assert bad[0] in bad;
      assert GoodDead(s.origin, DeadPayload(bad[0].payload));
    }
    if bad != [] && pushed {
      DropClaim(s, w, bad[0], Burying(bad[1..], false, good));
    } else {
      forall x | InQueue(s.queue, x) ensures InQueue(s'.queue, x) {
        PushKeepsCopies(s.queue, s'.queue, x);
      }
      ExtendsByCopies(s, s');
      Combine(s, s');
    }
  }

  lemma AckKeepsInv(s: System, w: nat)
    requires Inv(s) && Possible(s, Ack(w))
    ensures Inv(Act(s, Ack(w)))
  {
    var todo := s.workers[w].todo;
    assert GoodWorker(s, s.workers[w]);
    if todo != [] {
      assert todo[0] in todo && IsObject(todo[0]);
      DropClaim(s, w, todo[0], Acking(todo[1..]));
    } else {
      ExtendsByCopies(s, Act(s, Ack(w)));
      Combine(s, Act(s, Ack(w)));
    }
  }

  /** A retry pushes a copy with one more failed attempt, still short of the limit if it goes to pending. */
  lemma RequeueAddsCopy(origin: map<Json, Object>, q: Queue, p: Payload)
    requires p.Obj? && GoodPayload(origin, p, MAX_ATTEMPTS)
    ensures var q' := Requeued(q, p);
            && q.pending <= q'.pending && q.dlq <= q'.dlq && q.inflight == q'.inflight
            && HasCopy(q', IdOf(p.fields), Attempts(p.fields) + 1)
            && (forall x <- q'.pending :: x in q.pending || GoodPayload(origin, x, MAX_ATTEMPTS))
            && (forall d <- q'.dlq :: d in q.dlq || GoodDead(origin, d))
  {
    RetryKeepsRow(p.fields);
    var (next, attempts) := IncrementAttempt(p);
    assert IsCopy(next, IdOf(p.fields), Attempts(p.fields) + 1);
    assert InQueue(Requeued(q, p), next);
  }

  lemma RetryPushKeepsInv(s: System, w: nat)
    requires Inv(s) && Possible(s, Retry(w)) && s.workers[w].todo != [] && !s.workers[w].pushed
    ensures Inv(Act(s, Retry(w)))
  {
    var s' := Act(s, Retry(w));
    var todo := s.workers[w].todo;
    assert GoodWorker(s, s.workers[w]);
    assert todo[0] in todo && GoodClaim(s.origin, todo[0]) && IsObject(todo[0]);
    RequeueAddsCopy(s.origin, s.queue, todo[0].payload);
    forall x | InQueue(s.queue, x) ensures InQueue(s'.queue, x) {
      PushKeepsCopies(s.queue, s'.queue, x);
    }
    ExtendsByCopies(s, s');
    ExtendsKeepsWorker(s, s', Writing(todo));
    assert GoodWorker(s', s'.workers[w]);
    Combine(s, s');
  }

  lemma RetryKeepsInv(s: System, w: nat)
    requires Inv(s) && Possible(s, Retry(w))
    ensures Inv(Act(s, Retry(w)))
  {
    var Retrying(todo, pushed) := s.workers[w];
    if todo == [] {
      ExtendsByCopies(s, Act(s, Retry(w)));
      Combine(s, Act(s, Retry(w)));
    } else if pushed {
      assert GoodWorker(s, s.workers[w]);
      DropClaim(s, w, todo[0], Retrying(todo[1..], false));
    } else {
      RetryPushKeepsInv(s, w);
    }
  }

  lemma {:induction false} RecordsBuildOriginRows(s: System, es: seq<Envelope>)
    requires GoodObjects(s, es)
    ensures forall r <- RowsOf(RecordsOf(es)) :: GoodRow(s.origin, r)
    ensures forall e <- es :: ToRow(e.payload.fields) in RowsOf(RecordsOf(es))
  {
    if es != [] {
      assert GoodClaim(s.origin, es[0]) && IsObject(es[0]);
      RecordsBuildOriginRows(s, es[1..]);
    }
  }

  lemma ExtendsByRows(s: System, s': System)
    requires s'.queue == s.queue && s'.origin == s.origin
    requires forall id :: HasId(s.table, id) ==> HasId(s'.table, id)
    ensures Extends(s, s')
  {
  }

  /** A stored batch gives every event in it a row, and every row is that of its event. */
  lemma BatchIsStored(s: System, table: Table, good: seq<Envelope>)
    requires GoodTable(s) && GoodObjects(s, good) && table == InsertAll(s.table, RowsOf(RecordsOf(good)))
    ensures GoodTable(s.(table := table)) && forall id :: HasId(s.table, id) ==> HasId(table, id)
    ensures forall e <- good :: HasId(table, IdOf(e.payload.fields))
  {
    var rows := RowsOf(RecordsOf(good));
    RecordsBuildOriginRows(s, good);
    InsertAllEffect(s.table, rows);
    forall id | HasId(s.table, id) ensures HasId(table, id) {
      var r :| r in s.table && r.requestId == id;
      assert r in table;
    }
    forall e <- good ensures HasId(table, IdOf(e.payload.fields)) {
      assert GoodClaim(s.origin, e) && ToRow(e.payload.fields) in rows;
      assert ToRow(e.payload.fields).requestId == IdOf(e.payload.fields);
    }
  }

  lemma WriterIsGood(s: System, s': System, good: seq<Envelope>, ok: bool)
    requires GoodObjects(s, good) && s'.origin == s.origin
    requires ok ==> forall e <- good :: HasId(s'.table, IdOf(e.payload.fields))
    ensures GoodWorker(s', if ok then Acking(good) else Retrying(good, false))
  {
  }

  /** The table grows, one worker moves on, and the rest stays as it is. */
  lemma TableStep(s: System, s': System, w: nat)
    requires Inv(s) && s'.queue == s.queue && s'.origin == s.origin && GoodTable(s')
    requires forall id :: HasId(s.table, id) ==> HasId(s'.table, id)
    requires w in s'.workers && s'.workers == s.workers[w := s'.workers[w]] && GoodWorker(s', s'.workers[w])
    ensures Inv(s')
  {
    ExtendsByRows(s, s');
    assert GoodLists(s');
    Combine(s, s');
  }

  lemma WriteKeepsInv(s: System, w: nat, stored: bool, ok: bool)
    requires Inv(s) && Possible(s, Write(w, stored, ok))
    ensures Inv(Act(s, Write(w, stored, ok)))
  {
    var s' := Act(s, Write(w, stored, ok));
    var good := s.workers[w].good;
    assert GoodObjects(s, good) by { assert GoodWorker(s, s.workers[w]); }
    if stored {
      BatchIsStored(s, s'.table, good);
      assert GoodTable(s') by { assert GoodTable(s.(table := s'.table)); }
    }
    WriterIsGood(s, s', good, ok);
    TableStep(s, s', w);
  }

  lemma OtherStepKeepsInv(s: System, a: Action)
    requires Inv(s) && Possible(s, a) && (a.Begin? || a.Sort? || a.Crash?)
    ensures Inv(Act(s, a))
  {
    var s' := Act(s, a);
    ExtendsByCopies(s, s');
    if a.Sort? {
      assert GoodWorker(s, s.workers[a.w]);
    }
    Combine(s, s');
  }

  lemma StepKeepsInv(s: System, a: Action)
    requires Inv(s) && Possible(s, a)
    ensures Inv(Act(s, a))
  {
    match a
    case Enqueue(p) => EnqueueKeepsInv(s, p);
    case ClaimOne(w, now) => ClaimKeepsInv(s, w, now);
    case Bury(w) => BuryKeepsInv(s, w);
    case Write(w, stored, ok) => WriteKeepsInv(s, w, stored, ok);
    case Ack(w) => AckKeepsInv(s, w);
    case Retry(w) => RetryKeepsInv(s, w);
    case Recover(cutoff) => RecoverKeepsInv(s, cutoff);
    case _ => OtherStepKeepsInv(s, a);
  }

  lemma {:induction false} RunKeepsInv(s: System, actions: seq<Action>)
    requires Inv(s) && Schedule(s, actions)
    ensures Inv(After(s, actions))
    decreases |actions|
  {
    if actions != [] {
      StepKeepsInv(s, actions[0]);
      RunKeepsInv(Act(s, actions[0]), actions[1..]);
    }
  }

  /**
   In every interleaving, with workers crashing anywhere, every event that was ever enqueued has its
   row or is still in the pending list, the inflight list or the dead letters.
   */
  lemma NoEventIsLost(actions: seq<Action>, id: Json)
    requires Schedule(EMPTY, actions) && id in After(EMPTY, actions).origin
    ensures var s := After(EMPTY, actions); HasId(s.table, id) || HasCopy(s.queue, id, 0)
  {
    RunKeepsInv(EMPTY, actions);
  }

  lemma {:induction false} OriginRemembers(s: System, actions: seq<Action>, o: Object)
    requires Schedule(s, actions)
    requires Enqueue(Obj(o)) in actions || (IdOf(o) in s.origin && s.origin[IdOf(o)] == o)
    ensures IdOf(o) in After(s, actions).origin && After(s, actions).origin[IdOf(o)] == o
    decreases |actions|
  {
    if actions != [] {
      assert actions == [actions[0]] + actions[1..];
      OriginRemembers(Act(s, actions[0]), actions[1..], o);
    }
  }

  /** The lists hold an event with request id `id`, whatever its retry counter says by now. */
  ghost predicate Queued(q: Queue, id: Json) {
    exists o: Object :: Of(RequestId) in o && o[Of(RequestId)] == id &&
      (Obj(o) in q.pending || DeadPayload(Obj(o)) in q.dlq || exists t :: Claim(Obj(o), t) in q.inflight)
  }

  /**
   From the history alone: if an event was enqueued at any time, then at every later moment the table
   has exactly the row of that event under its request id, or the lists still hold it.
   */
  lemma EnqueuedEventIsKept(actions: seq<Action>, o: Object)
    requires Schedule(EMPTY, actions) && Enqueue(Obj(o)) in actions && Of(RequestId) in o && o[Of(RequestId)] != Null
    ensures var s, id := After(EMPTY, actions), o[Of(RequestId)];
            (exists r <- s.table :: r.requestId == id && r == ToRow(o)) || Queued(s.queue, id)
  {
    var s, id := After(EMPTY, actions), o[Of(RequestId)];
    RunKeepsInv(EMPTY, actions);
    OriginRemembers(EMPTY, actions, o);
    assert Truthy(id) && Kept(s, id, 0);
    if HasId(s.table, id) {
      var r :| r in s.table && r.requestId == id;
      assert GoodRow(s.origin, r);
    } else {
      var p :| InQueue(s.queue, p) && IsCopy(p, id, 0);
      assert Of(RequestId) in p.fields;
    }
  }

  /**
   Whatever duplicates, retries and recoveries a run went through, an event has at most one row, and
   that row is the one built from the event as it was first enqueued.
   */
  lemma OneRowPerEvent(actions: seq<Action>, i: nat)
    requires Schedule(EMPTY, actions) && i < |After(EMPTY, actions).table|
    ensures var s := After(EMPTY, actions);
            && s.table[i].requestId in s.origin && s.table[i] == ToRow(s.origin[s.table[i].requestId])
            && forall j :: 0 <= j < |s.table| && s.table[j].requestId == s.table[i].requestId ==> j == i
  {
    RunKeepsInv(EMPTY, actions);
    assert GoodRow(After(EMPTY, actions).origin, After(EMPTY, actions).table[i]);
  }

  /** No pending event has failed as often as the limit allows, and no dead letter more often. */
  lemma AttemptsAreBounded(actions: seq<Action>, p: Payload)
    requires Schedule(EMPTY, actions) && p.Obj?
    ensures var q := After(EMPTY, actions).queue;
            && (p in q.pending ==> 0 <= Attempts(p.fields) < 3)
            && (DeadPayload(p) in q.dlq ==> 0 <= Attempts(p.fields) <= 3)
  {
    RunKeepsInv(EMPTY, actions);
    var s := After(EMPTY, actions);
    if DeadPayload(p) in s.queue.dlq {
      assert GoodDead(s.origin, DeadPayload(p));
    }
  }
}
