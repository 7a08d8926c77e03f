/**
 The durable event queue: a pending list, an inflight list of claims and a dead-letter list, with
 the claim and recovery scripts and the acknowledge, retry and dead-letter loops.
 */
module EventQueue {
  import opened Basics

  const MAX_ATTEMPTS := 3

  datatype Json = Null | Number(n: int) | Text(s: string)

  /** The columns of a usage row that an event can carry. */
  datatype Column =
    | UserId | ApiKeyId | LogicalModelId | ChannelId | UpstreamModel | PromptTokens | CompletionTokens
    | TotalTokens | CostPoints | Status | LatencyMs | RequestId | DowngradedFeatures

  /** The names in an event: a column, the retry counter, the wrapper of a non-object, or any other. */
  datatype Name = Of(column: Column) | Attempt | Raw | Other(n: nat)

  type Object = map<Name, Json>

  /** An element of the pending list, as it parses. */
  datatype Payload = Obj(fields: Object) | NotObject(raw: nat)

  /** An element of the inflight list; `Malformed` stands for anything without payload or time. */
  datatype Envelope = Claim(payload: Payload, claimedAt: int) | Malformed(raw: nat)

  /** An element of the dead-letter list. */
  datatype Dead = DeadPayload(payload: Payload) | DeadEnvelope(raw: nat)

  datatype Queue = Queue(pending: seq<Payload>, inflight: seq<Envelope>, dlq: seq<Dead>)

  function Get(o: Object, name: Name): Json {
    if name in o then o[name] else Null
  }

  predicate Truthy(j: Json) {
    match j
    case Null => false
    case Number(n) => n != 0
    case Text(s) => s != ""
  }

  /** The number of failed writes an event has been through. */
  function Attempts(o: Object): int {
    match Get(o, Attempt)
    case Number(n) => n
    case _ => 0
  }

  /** `_increment_attempt`. */
  function IncrementAttempt(p: Payload): (Payload, int) {
    var fields := if p.Obj? then p.fields else map[Raw := Number(p.raw)];
    (Obj(fields[Attempt := Number(Attempts(fields) + 1)]), Attempts(fields) + 1)
  }

  /** `LREM key 1 x`. */
  function RemoveFirst<T(==)>(s: seq<T>, x: T): seq<T> {
    if s == [] then [] else if s[0] == x then s[1..] else [s[0]] + RemoveFirst(s[1..], x)
  }

  predicate Stale(e: Envelope, cutoff: int) {
    e.Claim? && e.claimedAt <= cutoff
  }

  predicate Young(e: Envelope, cutoff: int) {
    e.Claim? && e.claimedAt > cutoff
  }

  /** The claims that a recovery leaves inflight. */
  function Fresh(es: seq<Envelope>, cutoff: int): seq<Envelope> {
    if es == [] then []
    else if Young(es[0], cutoff) then [es[0]] + Fresh(es[1..], cutoff)
    else Fresh(es[1..], cutoff)
  }

  /** The payloads that a recovery puts back. */
  function StalePayloads(es: seq<Envelope>, cutoff: int): seq<Payload> {
    if es == [] then []
    else if Stale(es[0], cutoff) then [es[0].payload] + StalePayloads(es[1..], cutoff)
    else StalePayloads(es[1..], cutoff)
  }

  /** The dead letters that a recovery makes. */
  function Broken(es: seq<Envelope>): seq<Dead> {
    if es == [] then []
    else if es[0].Malformed? then [DeadEnvelope(es[0].raw)] + Broken(es[1..])
    else Broken(es[1..])
  }

  /** What a recovery amounts to: stale claims go back to pending, malformed ones to the dead letters. */
  function Recovered(q: Queue, cutoff: int): Queue {
    Queue(q.pending + StalePayloads(q.inflight, cutoff), Fresh(q.inflight, cutoff), q.dlq + Broken(q.inflight))
  }

  function Claimed(q: Queue, now: int): (Queue, Option<Envelope>) {
    if q.pending == [] then (q, None)
    else
      var e := Claim(q.pending[0], now);
      (Queue(q.pending[1..], q.inflight + [e], q.dlq), Some(e))
  }

  function Acked(q: Queue, e: Envelope): Queue {
    q.(inflight := RemoveFirst(q.inflight, e))
  }

  /** The push half of a retry. */
  function Requeued(q: Queue, p: Payload): Queue {
    var (next, attempts) := IncrementAttempt(p);
    if attempts >= MAX_ATTEMPTS then q.(dlq := q.dlq + [DeadPayload(next)])
    else q.(pending := q.pending + [next])
  }

  /** The payloads that go back to pending, each with one more attempt. */
  function Retried(items: seq<Envelope>): seq<Payload>
    requires forall e <- items :: e.Claim?
    decreases |items|
  {
    if items == [] then []
    else
      var front, (next, attempts) := items[..|items| - 1], IncrementAttempt(items[|items| - 1].payload);
      if attempts < MAX_ATTEMPTS then Retried(front) + [next] else Retried(front)
  }

  /** The payloads that have failed as often as the limit allows. */
  function Exhausted(items: seq<Envelope>): seq<Dead>
    requires forall e <- items :: e.Claim?
    decreases |items|
  {
    if items == [] then []
    else
      var front, (next, attempts) := items[..|items| - 1], IncrementAttempt(items[|items| - 1].payload);
      if attempts < MAX_ATTEMPTS then Exhausted(front) else Exhausted(front) + [DeadPayload(next)]
  }

  /** Retrying sends every claim of a batch, with one more attempt, where its attempts put it, and no other. */
  lemma {:induction false} RetryingSplits(items: seq<Envelope>)
    requires forall e <- items :: e.Claim?
    ensures |Retried(items)| + |Exhausted(items)| == |items|
    ensures forall p :: p in Retried(items) <==>
              exists e <- items :: IncrementAttempt(e.payload).0 == p && IncrementAttempt(e.payload).1 < MAX_ATTEMPTS
    ensures forall p :: DeadPayload(p) in Exhausted(items) <==>
              exists e <- items :: IncrementAttempt(e.payload).0 == p && IncrementAttempt(e.payload).1 >= MAX_ATTEMPTS
    decreases |items|
  {
    if items != [] {
      var front, last := items[..|items| - 1], items[|items| - 1];
      RetryingSplits(front);
      assert items == front + [last];
      assert forall e :: e in items <==> e in front || e == last;
    }
  }

  /** The payloads of a batch as dead letters, in order. */
  function Letters(items: seq<Envelope>): (r: seq<Dead>)
    requires forall e <- items :: e.Claim?
    ensures |r| == |items| && forall i :: 0 <= i < |items| ==> r[i] == DeadPayload(items[i].payload)
    decreases |items|
  {
    if items == [] then []
    else Letters(items[..|items| - 1]) + [DeadPayload(items[|items| - 1].payload)]
  }

  function RemoveEach(s: seq<Envelope>, items: seq<Envelope>): seq<Envelope>
    decreases |items|
  {
    if items == [] then s else RemoveFirst(RemoveEach(s, items[..|items| - 1]), items[|items| - 1])
  }

  lemma {:induction false} RemoveFirstBag<T>(s: seq<T>, x: T)
    ensures multiset(RemoveFirst(s, x)) == multiset(s) - multiset{x}
  {
    if s != [] {
      assert s == [s[0]] + s[1..];
      if s[0] != x {
        RemoveFirstBag(s[1..], x);
      }
    }
  }

  lemma SubtractOneMore<T>(a: multiset<T>, b: multiset<T>, x: T)
    ensures a - b - multiset{x} == a - (b + multiset{x})
  {
  }

  /** Removing by value takes each of `items` out once, as far as it is there. */
  lemma {:induction false} RemoveEachBag(s: seq<Envelope>, items: seq<Envelope>)
    ensures multiset(RemoveEach(s, items)) == multiset(s) - multiset(items)
    decreases |items|
  {
    if items != [] {
      var front, x := items[..|items| - 1], items[|items| - 1];
      RemoveEachBag(s, front);
      RemoveFirstBag(RemoveEach(s, front), x);
      assert items == front + [x];
      SubtractOneMore(multiset(s), multiset(front), x);
    }
  }

  /** What one more claim of a batch adds to each of its results. */
  lemma OneMore(s: seq<Envelope>, items: seq<Envelope>, i: nat)
    requires i < |items| && forall e <- items :: e.Claim?
    ensures RemoveEach(s, items[..i + 1]) == RemoveFirst(RemoveEach(s, items[..i]), items[i])
    ensures Letters(items[..i + 1]) == Letters(items[..i]) + [DeadPayload(items[i].payload)]
    ensures var (next, attempts) := IncrementAttempt(items[i].payload);
            if attempts < MAX_ATTEMPTS
            then Retried(items[..i + 1]) == Retried(items[..i]) + [next]
                 && Exhausted(items[..i + 1]) == Exhausted(items[..i])
            else Retried(items[..i + 1]) == Retried(items[..i])
                 && Exhausted(items[..i + 1]) == Exhausted(items[..i]) + [DeadPayload(next)]
  {
    assert items[..i + 1][..i] == items[..i];
  }

  /** The three Redis lists of one queue, changed in place; no command fails. */
  class EventStore {
    var lists: Queue

    constructor ()
      ensures lists == Queue([], [], [])
    {
      lists := Queue([], [], []);
    }

    /** The claim script: the oldest pending payload becomes a claim. */
    method ClaimNext(now: int) returns (claim: Option<Envelope>)
      modifies this
      ensures (lists, claim) == Claimed(old(lists), now)
    {
      if lists.pending == [] {
        return None;
      }
      var e := Claim(lists.pending[0], now);
      lists := Queue(lists.pending[1..], lists.inflight + [e], lists.dlq);
      return Some(e);
    }

    /** `claim_batch`: one script call for each reading of `clock`, until the list is empty. */
    method ClaimBatch(clock: seq<int>) returns (claimed: seq<Envelope>)
      modifies this
      ensures var n := if |clock| < |old(lists.pending)| then |clock| else |old(lists.pending)|;
              && |claimed| == n
              && (forall i :: 0 <= i < n ==> claimed[i] == Claim(old(lists.pending[i]), clock[i]))
              && lists == Queue(old(lists.pending[n..]), old(lists.inflight) + claimed, old(lists.dlq))
    {
      claimed := [];
      for i := 0 to |clock|
        invariant i <= |old(lists.pending)| && |claimed| == i
        invariant forall j :: 0 <= j < i ==> claimed[j] == Claim(old(lists.pending[j]), clock[j])
        invariant lists == Queue(old(lists.pending)[i..], old(lists.inflight) + claimed, old(lists.dlq))
      {
        if lists.pending == [] {
          break;
        }
        var claim := ClaimNext(clock[i]);
        claimed := claimed + [claim.value];
      }
    }

    /** `ack_claimed`: each envelope is one claim less. */
    method Ack(items: seq<Envelope>)
      modifies this
      ensures lists.pending == old(lists.pending) && lists.dlq == old(lists.dlq)
      ensures multiset(lists.inflight) == multiset(old(lists.inflight)) - multiset(items)
    {
      for i := 0 to |items|
        invariant lists.pending == old(lists.pending) && lists.dlq == old(lists.dlq)
        invariant lists.inflight == RemoveEach(old(lists.inflight), items[..i])
      {
        assert items[..i + 1][..i] == items[..i];
        lists := Acked(lists, items[i]);
      }
      assert items[..|items|] == items;
      RemoveEachBag(old(lists.inflight), items);
    }

    /**
     `retry_or_dlq_claimed`: every claim goes to the end of pending with one more attempt, or to the
     dead letters once it has failed as often as the limit allows, and is one claim less.
     */
    method RetryOrDlq(items: seq<Envelope>)
      requires forall e <- items :: e.Claim?
      modifies this
      ensures lists.pending == old(lists.pending) + Retried(items)
      ensures lists.dlq == old(lists.dlq) + Exhausted(items)
      ensures multiset(lists.inflight) == multiset(old(lists.inflight)) - multiset(items)
    {
      for i := 0 to |items|
        invariant lists.pending == old(lists.pending) + Retried(items[..i])
        invariant lists.dlq == old(lists.dlq) + Exhausted(items[..i])
        invariant lists.inflight == RemoveEach(old(lists.inflight), items[..i])
      {
        OneMore(old(lists.inflight), items, i);
        lists := Requeued(lists, items[i].payload);
        lists := Acked(lists, items[i]);
      }
      assert items[..|items|] == items;
      RemoveEachBag(old(lists.inflight), items);
    }

    /** `dlq_claimed`: every claim goes to the dead letters as it is, in order, and is one claim less. */
    method Bury(items: seq<Envelope>)
      requires forall e <- items :: e.Claim?
      modifies this
      ensures lists.pending == old(lists.pending) && lists.dlq == old(lists.dlq) + Letters(items)
      ensures multiset(lists.inflight) == multiset(old(lists.inflight)) - multiset(items)
    {
      for i := 0 to |items|
        invariant lists.pending == old(lists.pending) && lists.dlq == old(lists.dlq) + Letters(items[..i])
        invariant lists.inflight == RemoveEach(old(lists.inflight), items[..i])
      {
        OneMore(old(lists.inflight), items, i);
        lists := lists.(dlq := lists.dlq + [DeadPayload(items[i].payload)]);
        lists := Acked(lists, items[i]);
      }
      assert items[..|items|] == items;
      RemoveEachBag(old(lists.inflight), items);
    }

    /** The recovery script: a loop over a snapshot that removes each envelope by value. */
    method Recover(cutoff: int) returns (recovered: nat, buried: nat)
      modifies this
      ensures lists == Recovered(old(lists), cutoff)
      ensures recovered == |StalePayloads(old(lists.inflight), cutoff)| && buried == |Broken(old(lists.inflight))|
    {
      var envelopes := lists.inflight;
      recovered, buried := 0, 0;
      for i := 0 to |envelopes|
        invariant RecoveredLoop(old(lists), envelopes, cutoff) == RecoveredLoop(lists, envelopes[i..], cutoff)
        invariant |lists.pending| == |old(lists.pending)| + recovered && |lists.dlq| == |old(lists.dlq)| + buried
      {
        var e := envelopes[i];
        assert envelopes[i..][1..] == envelopes[i + 1..];
        if e.Malformed? {
          lists := Queue(lists.pending, lists.inflight, lists.dlq + [DeadEnvelope(e.raw)]);
          lists := lists.(inflight := RemoveFirst(lists.inflight, e));
          buried := buried + 1;
        } else if e.claimedAt <= cutoff {
          lists := Queue(lists.pending + [e.payload], lists.inflight, lists.dlq);
          lists := lists.(inflight := RemoveFirst(lists.inflight, e));
          recovered := recovered + 1;
        }
      }
      RecoveredLoopEffect(old(lists), [], envelopes, cutoff);
    }
  }

  /** One turn of the recovery loop. */
  function RecoveredOne(q: Queue, e: Envelope, cutoff: int): Queue {
    if e.Malformed? then Queue(q.pending, RemoveFirst(q.inflight, e), q.dlq + [DeadEnvelope(e.raw)])
    else if e.claimedAt <= cutoff then Queue(q.pending + [e.payload], RemoveFirst(q.inflight, e), q.dlq)
    else q
  }

  /** The recovery loop over what is left of the snapshot. */
  function RecoveredLoop(q: Queue, es: seq<Envelope>, cutoff: int): Queue
    decreases |es|
  {
    if es == [] then q else RecoveredLoop(RecoveredOne(q, es[0], cutoff), es[1..], cutoff)
  }

  /** The loop moves each envelope once, although it removes by value and duplicates may exist. */
  lemma {:induction false} RecoveredLoopEffect(q: Queue, kept: seq<Envelope>, es: seq<Envelope>, cutoff: int)
    requires q.inflight == kept + es && forall e <- kept :: Young(e, cutoff)
    ensures RecoveredLoop(q, es, cutoff) ==
            Queue(q.pending + StalePayloads(es, cutoff), kept + Fresh(es, cutoff), q.dlq + Broken(es))
    decreases |es|
  {
    if es != [] {
      var e, rest := es[0], es[1..];
      assert es == [e] + rest;
      if Young(e, cutoff) {
        Associate(kept, e, rest);
        RecoveredLoopEffect(q, kept + [e], rest, cutoff);
        Associate(kept, e, Fresh(rest, cutoff));
      } else {
        RemoveFirstAfter(kept, e, rest);
        RecoveredLoopEffect(RecoveredOne(q, e, cutoff), kept, rest, cutoff);
        if e.Malformed? {
          Associate(q.dlq, DeadEnvelope(e.raw), Broken(rest));
        } else {
          Associate(q.pending, e.payload, StalePayloads(rest, cutoff));
        }
      }
    }
  }

  lemma {:induction false} FreshIsFresh(es: seq<Envelope>, cutoff: int)
    ensures forall e <- Fresh(es, cutoff) :: Young(e, cutoff) && e in es
  {
    if es != [] {
      FreshIsFresh(es[1..], cutoff);
    }
  }

  /** Removing by value takes the occurrence meant when no earlier element is equal. */
  lemma {:induction false} RemoveFirstAfter<T>(a: seq<T>, x: T, b: seq<T>)
    requires x !in a
    ensures RemoveFirst(a + ([x] + b), x) == a + b
  {
    var s := a + ([x] + b);
    if a == [] {
      assert s == [x] + b;
    } else {
      assert s[0] == a[0] && s[1..] == a[1..] + ([x] + b);
      RemoveFirstAfter(a[1..], x, b);
    }
  }

  // ---------------------------------------------------------------------------------------------
  // Claim and recover move payloads, and never copy or drop one
  // ---------------------------------------------------------------------------------------------

  function Inner(e: Envelope): Dead {
    match e
    case Claim(p, _) => DeadPayload(p)
    case Malformed(raw) => DeadEnvelope(raw)
  }

  function PendingBag(ps: seq<Payload>): multiset<Dead> {
    if ps == [] then multiset{} else multiset{DeadPayload(ps[0])} + PendingBag(ps[1..])
  }

  function InflightBag(es: seq<Envelope>): multiset<Dead> {
    if es == [] then multiset{} else multiset{Inner(es[0])} + InflightBag(es[1..])
  }

  /** Everything in the three lists, with multiplicity and without claim times. */
  function Bag(q: Queue): multiset<Dead> {
    PendingBag(q.pending) + InflightBag(q.inflight) + multiset(q.dlq)
  }

  lemma {:induction false} PendingBagAppend(a: seq<Payload>, b: seq<Payload>)
    ensures PendingBag(a + b) == PendingBag(a) + PendingBag(b)
  {
    if a == [] {
      assert a + b == b;
    } else {
      assert (a + b)[1..] == a[1..] + b;
      PendingBagAppend(a[1..], b);
    }
  }

  lemma {:induction false} InflightBagAppend(a: seq<Envelope>, b: seq<Envelope>)
    ensures InflightBag(a + b) == InflightBag(a) + InflightBag(b)
  {
    if a == [] {
      assert a + b == b;
    } else {
      assert (a + b)[1..] == a[1..] + b;
      InflightBagAppend(a[1..], b);
    }
  }

  lemma ClaimConserves(q: Queue, now: int)
    ensures Bag(Claimed(q, now).0) == Bag(q)
  {
    if q.pending != [] {
      var e := Claim(q.pending[0], now);
      InflightBagAppend(q.inflight, [e]);
      assert InflightBag([e]) == multiset{DeadPayload(q.pending[0])};
    }
  }

  lemma {:induction false} PartsOfInflight(es: seq<Envelope>, cutoff: int)
    ensures InflightBag(es) ==
            PendingBag(StalePayloads(es, cutoff)) + InflightBag(Fresh(es, cutoff)) + multiset(Broken(es))
  {
    if es != [] {
      PartsOfInflight(es[1..], cutoff);
    }
  }

  lemma RecoverConserves(q: Queue, cutoff: int)
    ensures Bag(Recovered(q, cutoff)) == Bag(q)
  {
    PartsOfInflight(q.inflight, cutoff);
    PendingBagAppend(q.pending, StalePayloads(q.inflight, cutoff));
  }

  lemma {:induction false} FreshHasNothingToRecover(es: seq<Envelope>, cutoff: int)
    requires forall e <- es :: Young(e, cutoff)
    ensures Fresh(es, cutoff) == es && StalePayloads(es, cutoff) == [] && Broken(es) == []
  {
    if es != [] {
      FreshHasNothingToRecover(es[1..], cutoff);
    }
  }

  /** A second pass with the same cutoff finds nothing, so two passes never requeue a claim twice. */
  lemma SecondRecoveryIsNoOp(q: Queue, cutoff: int)
    ensures Recovered(Recovered(q, cutoff), cutoff) == Recovered(q, cutoff)
  {
    FreshIsFresh(q.inflight, cutoff);
    FreshHasNothingToRecover(Fresh(q.inflight, cutoff), cutoff);
  }

  // ---------------------------------------------------------------------------------------------
  // What a recovery and a retry move, and where
  // ---------------------------------------------------------------------------------------------

  /** `at` lists `places` in ascending order. */
  ghost predicate Ascends(at: seq<nat>, places: set<nat>) {
    && (forall i, j :: 0 <= i < j < |at| ==> at[i] < at[j])
    && (forall i :: 0 <= i < |at| ==> at[i] in places)
    && (forall i <- places :: i in at)
  }

  /** The places of the claims up to the cutoff, of those after it, and of what is not a claim. */
  ghost function StalePlaces(es: seq<Envelope>, cutoff: int): set<nat> {
    set i: nat | i < |es| && es[i].Claim? && es[i].claimedAt <= cutoff
  }

  ghost function YoungPlaces(es: seq<Envelope>, cutoff: int): set<nat> {
    set i: nat | i < |es| && es[i].Claim? && es[i].claimedAt > cutoff
  }

  ghost function BrokenPlaces(es: seq<Envelope>): set<nat> {
    set i: nat | i < |es| && es[i].Malformed?
  }

  lemma NextAscends(at: seq<nat>, places: set<nat>, n: nat, all: set<nat>)
    requires Ascends(at, places) && (forall i <- places :: i < n) && all == places + {n}
    ensures Ascends(at + [n], all)
  {
  }

  /** What one more envelope at the end of the inflight list adds to a recovery. */
  lemma {:induction false} RecoveryAppends(es: seq<Envelope>, e: Envelope, cutoff: int)
    ensures StalePayloads(es + [e], cutoff) ==
            StalePayloads(es, cutoff) + if e.Claim? && e.claimedAt <= cutoff then [e.payload] else []
    ensures Fresh(es + [e], cutoff) == Fresh(es, cutoff) + if e.Claim? && e.claimedAt > cutoff then [e] else []
    ensures Broken(es + [e]) == Broken(es) + if e.Malformed? then [DeadEnvelope(e.raw)] else []
  {
    if es == [] {
      assert es + [e] == [e];
    } else {
      assert (es + [e])[1..] == es[1..] + [e];
      RecoveryAppends(es[1..], e, cutoff);
    }
  }

  lemma {:induction false} StaleInOrder(es: seq<Envelope>, cutoff: int) returns (at: seq<nat>)
    ensures Ascends(at, StalePlaces(es, cutoff)) && |StalePayloads(es, cutoff)| == |at|
    ensures forall k :: 0 <= k < |at| ==> StalePayloads(es, cutoff)[k] == es[at[k]].payload
    decreases |es|
  {
    at := [];
    if es != [] {
      var n := |es| - 1;
      var front := es[..n];
      at := StaleInOrder(front, cutoff);
      RecoveryAppends(front, es[n], cutoff);
      assert es == front + [es[n]];
      if es[n].Claim? && es[n].claimedAt <= cutoff {
        NextAscends(at, StalePlaces(front, cutoff), n, StalePlaces(es, cutoff));
        at := at + [n];
      } else {
        assert StalePlaces(es, cutoff) == StalePlaces(front, cutoff);
      }
    }
  }

  lemma {:induction false} YoungInOrder(es: seq<Envelope>, cutoff: int) returns (at: seq<nat>)
    ensures Ascends(at, YoungPlaces(es, cutoff)) && |Fresh(es, cutoff)| == |at|
    ensures forall k :: 0 <= k < |at| ==> Fresh(es, cutoff)[k] == es[at[k]]
    decreases |es|
  {
    at := [];
    if es != [] {
      var n := |es| - 1;
      var front := es[..n];
      at := YoungInOrder(front, cutoff);
      RecoveryAppends(front, es[n], cutoff);
      assert es == front + [es[n]];
      if es[n].Claim? && es[n].claimedAt > cutoff {
        NextAscends(at, YoungPlaces(front, cutoff), n, YoungPlaces(es, cutoff));
        at := at + [n];
      } else {
        assert YoungPlaces(es, cutoff) == YoungPlaces(front, cutoff);
      }
    }
  }

  lemma {:induction false} BrokenInOrder(es: seq<Envelope>) returns (at: seq<nat>)
    ensures Ascends(at, BrokenPlaces(es)) && |Broken(es)| == |at|
    ensures forall k :: 0 <= k < |at| ==> Broken(es)[k] == DeadEnvelope(es[at[k]].raw)
    decreases |es|
  {
    at := [];
    if es != [] {
      var n := |es| - 1;
      var front := es[..n];
      at := BrokenInOrder(front);
      RecoveryAppends(front, es[n], 0);
      assert es == front + [es[n]];
      if es[n].Malformed? {
        NextAscends(at, BrokenPlaces(front), n, BrokenPlaces(es));
        at := at + [n];
      } else {
        assert BrokenPlaces(es) == BrokenPlaces(front);
      }
    }
  }

  /** A recovery appends to pending the payloads of exactly the claims up to the cutoff, in their order. */
  lemma RecoveryRequeues(q: Queue, cutoff: int) returns (at: seq<nat>)
    ensures Ascends(at, StalePlaces(q.inflight, cutoff))
    ensures var pending := Recovered(q, cutoff).pending;
            && |pending| == |q.pending| + |at| && pending[..|q.pending|] == q.pending
            && forall k :: 0 <= k < |at| ==> pending[|q.pending| + k] == q.inflight[at[k]].payload
  {
    at := StaleInOrder(q.inflight, cutoff);
  }

  /** It leaves inflight exactly the claims after the cutoff, in their order. */
  lemma RecoveryLeaves(q: Queue, cutoff: int) returns (at: seq<nat>)
    ensures Ascends(at, YoungPlaces(q.inflight, cutoff))
    ensures var inflight := Recovered(q, cutoff).inflight;
            |inflight| == |at| && forall k :: 0 <= k < |at| ==> inflight[k] == q.inflight[at[k]]
  {
    at := YoungInOrder(q.inflight, cutoff);
  }

  /** And it appends to the dead letters exactly the malformed envelopes, in their order. */
  lemma RecoveryBuries(q: Queue, cutoff: int) returns (at: seq<nat>)
    ensures Ascends(at, BrokenPlaces(q.inflight))
    ensures var dlq := Recovered(q, cutoff).dlq;
            && |dlq| == |q.dlq| + |at| && dlq[..|q.dlq|] == q.dlq
            && forall k :: 0 <= k < |at| ==> dlq[|q.dlq| + k] == DeadEnvelope(q.inflight[at[k]].raw)
  {
    at := BrokenInOrder(q.inflight);
  }

  lemma {:induction false} YoungStay(es: seq<Envelope>, cutoff: int, e: Envelope)
    ensures multiset(Fresh(es, cutoff))[e] == if e.Claim? && e.claimedAt > cutoff then multiset(es)[e] else 0
  {
    if es != [] {
      YoungStay(es[1..], cutoff, e);
      assert es == [es[0]] + es[1..];
    }
  }

  /** With multiplicity: exactly the claims after the cutoff stay with their workers. */
  lemma RecoveryLeavesYoung(q: Queue, cutoff: int, e: Envelope)
    ensures multiset(Recovered(q, cutoff).inflight)[e] ==
            if e.Claim? && e.claimedAt > cutoff then multiset(q.inflight)[e] else 0
  {
    YoungStay(q.inflight, cutoff, e);
  }

  ghost function FailedBefore(o: Object): int {
    if Attempt in o && o[Attempt].Number? then o[Attempt].n else 0
  }

  /**
   Where one more claim of a failed batch goes: an event that has failed fewer than two times before goes
   to the end of what is retried, with one more failure counted, and any other to the end of what is
   dead. A payload that is not an object is wrapped into one, and has not failed before.
   */
  lemma RetryAppends(items: seq<Envelope>, payload: Payload, time: int)
    requires forall e <- items :: e.Claim?
    ensures var all := items + [Claim(payload, time)];
            var o := if payload.Obj? then payload.fields else map[Raw := Number(payload.raw)];
            var next := Obj(o[Attempt := Number(FailedBefore(o) + 1)]);
            && (forall e <- all :: e.Claim?)
            && Retried(all) == Retried(items) + (if FailedBefore(o) < 2 then [next] else [])
            && Exhausted(all) == Exhausted(items) + (if FailedBefore(o) < 2 then [] else [DeadPayload(next)])
  {
    var all := items + [Claim(payload, time)];
    assert all[..|items|] == items;
  }
}
