/**
 One flush that nobody interrupts, as a run of the worker's own steps: what it claims reaches the table
 or comes back, and its claims are gone. Crashes and other workers are the business of `EventRuns`.
 */
module EventFlush {
  import opened EventQueue
  import opened UsageTable
  import opened EventRuns

  /** A step of worker `w`; a write, if it is one, looks to it as `ok` says. */
  predicate OwnStep(w: nat, a: Action, ok: bool) {
    match a
    case ClaimOne(x, _) => x == w
    case Write(x, _, seen) => x == w && seen == ok
    case _ => a == Begin(w) || a == Sort(w) || a == Bury(w) || a == Ack(w) || a == Retry(w)
  }

  predicate OwnSteps(w: nat, actions: seq<Action>, ok: bool) {
    forall a <- actions :: OwnStep(w, a, ok)
  }

  /** The records of a batch of payloads, and the dead letters of what is not a record, in order. */
  function FieldsOf(batch: seq<Payload>): seq<Object> {
    if batch == [] then []
    else (if batch[0].Obj? then [batch[0].fields] else []) + FieldsOf(batch[1..])
  }

  function LettersOf(batch: seq<Payload>): seq<Dead> {
    if batch == [] then []
    else (if batch[0].Obj? then [] else [DeadPayload(batch[0])]) + LettersOf(batch[1..])
  }

  function ClaimsOf(batch: seq<Payload>, now: int): (es: seq<Envelope>)
    ensures |es| == |batch| && forall i :: 0 <= i < |batch| ==> es[i] == Claim(batch[i], now)
  {
    seq(|batch|, i requires 0 <= i < |batch| => Claim(batch[i], now))
  }

  lemma {:induction false} RunsJoin(s: System, xs: seq<Action>, ys: seq<Action>)
    requires Schedule(s, xs) && Schedule(After(s, xs), ys)
    ensures Schedule(s, xs + ys) && After(s, xs + ys) == After(After(s, xs), ys)
    decreases |xs|
  {
    if xs == [] {
      assert xs + ys == ys;
    } else {
      assert (xs + ys)[1..] == xs[1..] + ys;
      RunsJoin(Act(s, xs[0]), xs[1..], ys);
    }
  }

  lemma OneStep(s: System, a: Action, rest: seq<Action>)
    requires Possible(s, a) && Schedule(Act(s, a), rest)
    ensures Schedule(s, [a] + rest) && After(s, [a] + rest) == After(Act(s, a), rest)
  {
    assert ([a] + rest)[1..] == rest;
  }

  lemma TwoSteps(s: System, a: Action, b: Action, rest: seq<Action>)
    requires Possible(s, a) && Possible(Act(s, a), b) && Schedule(Act(Act(s, a), b), rest)
    ensures Schedule(s, [a, b] + rest) && After(s, [a, b] + rest) == After(Act(Act(s, a), b), rest)
  {
    OneStep(Act(s, a), b, rest);
    OneStep(s, a, [b] + rest);
    assert [a, b] + rest == [a] + ([b] + rest);
  }

  /** The queue after the `n` oldest payloads have been claimed, in order. */
  function ClaimedUpTo(q: Queue, now: int, n: nat): Queue
    requires n <= |q.pending|
  {
    Queue(q.pending[n..], q.inflight + ClaimsOf(q.pending[..n], now), q.dlq)
  }

  lemma ClaimsSplit(batch: seq<Payload>, now: int, before: seq<Envelope>)
    requires batch != []
    ensures before + [Claim(batch[0], now)] + ClaimsOf(batch[1..], now) == before + ClaimsOf(batch, now)
  {
    assert ClaimsOf(batch, now) == [Claim(batch[0], now)] + ClaimsOf(batch[1..], now);
  }

  lemma ClaimOneMore(q: Queue, now: int, n: nat)
    requires 0 < n <= |q.pending|
    ensures ClaimedUpTo(Claimed(q, now).0, now, n - 1) == ClaimedUpTo(q, now, n)
  {
    ClaimsSplit(q.pending[..n], now, q.inflight);
    assert q.pending[..n][1..] == q.pending[1..][..n - 1];
  }

  lemma {:induction false} ClaimRun(s: System, w: nat, now: int, items: seq<Envelope>, n: nat)
    returns (actions: seq<Action>)
    requires w in s.workers && s.workers[w] == Claiming(items) && n <= |s.queue.pending|
    ensures OwnSteps(w, actions, true) && OwnSteps(w, actions, false) && Schedule(s, actions)
    ensures After(s, actions) ==
            s.(queue := ClaimedUpTo(s.queue, now, n),
               workers := s.workers[w := Claiming(items + ClaimsOf(s.queue.pending[..n], now))])
    decreases n
  {
    actions := [];
    if n == 0 {
      assert ClaimsOf(s.queue.pending[..0], now) == [];
      assert items + [] == items && s.queue.inflight + [] == s.queue.inflight;
      assert s.workers[w := s.workers[w]] == s.workers;
    } else {
      var t, first := Act(s, ClaimOne(w, now)), Claim(s.queue.pending[0], now);
      ClaimOneMore(s.queue, now, n);
      ClaimsSplit(s.queue.pending[..n], now, items);
      assert s.queue.pending[..n][1..] == t.queue.pending[..n - 1];
      var rest := ClaimRun(t, w, now, items + [first], n - 1);
      OneStep(s, ClaimOne(w, now), rest);
      assert t.workers[w := Claiming(items + [first] + ClaimsOf(t.queue.pending[..n - 1], now))] ==
             s.workers[w := Claiming(items + ClaimsOf(s.queue.pending[..n], now))];
      actions := [ClaimOne(w, now)] + rest;
    }
  }

  /** Dropping the claims in order takes each out once. */
  lemma AckedBag(q: Queue, e: Envelope)
    ensures multiset(Acked(q, e).inflight) == multiset(q.inflight) - multiset([e])
  {
    assert multiset([e]) == multiset{e};
    RemoveFirstBag(q.inflight, e);
  }

  /**
   From `s` to `t`, `es` have been dropped from the inflight list, and pending and the dead letters have
   grown by these; the table is as it was.
   */
  ghost predicate Moved(s: System, t: System, es: seq<Envelope>, again: seq<Payload>, dead: seq<Dead>) {
    && t.table == s.table && t.origin == s.origin
    && multiset(t.queue.inflight) == multiset(s.queue.inflight) - multiset(es)
    && t.queue.pending == s.queue.pending + again && t.queue.dlq == s.queue.dlq + dead
  }

  lemma NothingMoved(s: System, t: System)
    requires t.table == s.table && t.origin == s.origin && t.queue == s.queue
    ensures Moved(s, t, [], [], [])
  {
    assert s.queue.pending + [] == s.queue.pending && s.queue.dlq + [] == s.queue.dlq;
  }

  lemma MovedTogether(s: System, t: System, u: System, xs: seq<Envelope>, ys: seq<Envelope>, es: seq<Envelope>,
                      again1: seq<Payload>, again2: seq<Payload>, again: seq<Payload>, dead1: seq<Dead>,
                      dead2: seq<Dead>, dead: seq<Dead>)
    requires Moved(s, t, xs, again1, dead1) && Moved(t, u, ys, again2, dead2)
    requires es == xs + ys && again == again1 + again2 && dead == dead1 + dead2
    ensures Moved(s, u, es, again, dead)
  {
    assert multiset(s.queue.inflight) - multiset(xs) - multiset(ys) == multiset(s.queue.inflight) - multiset(es);
    assert (s.queue.pending + again1) + again2 == s.queue.pending + again;
    assert (s.queue.dlq + dead1) + dead2 == s.queue.dlq + dead;
  }

  lemma OneMoved(s: System, t: System, e: Envelope, again: seq<Payload>, dead: seq<Dead>)
    requires t.table == s.table && t.origin == s.origin
    requires t.queue == Acked(Queue(s.queue.pending + again, s.queue.inflight, s.queue.dlq + dead), e)
    ensures Moved(s, t, [e], again, dead)
  {
    AckedBag(Queue(s.queue.pending + again, s.queue.inflight, s.queue.dlq + dead), e);
  }

  lemma AckOne(s: System, w: nat)
    requires w in s.workers && s.workers[w].Acking? && s.workers[w].todo != []
    ensures var t, todo := Act(s, Ack(w)), s.workers[w].todo;
            Moved(s, t, [todo[0]], [], []) && t.workers == s.workers[w := Acking(todo[1..])]
  {
    assert s.queue.pending + [] == s.queue.pending && s.queue.dlq + [] == s.queue.dlq;
    OneMoved(s, Act(s, Ack(w)), s.workers[w].todo[0], [], []);
  }

  lemma {:induction false} AckRun(s: System, w: nat) returns (actions: seq<Action>)
    requires w in s.workers && s.workers[w].Acking?
    ensures OwnSteps(w, actions, true) && Schedule(s, actions)
    ensures Moved(s, After(s, actions), s.workers[w].todo, [], []) && After(s, actions).workers == s.workers - {w}
    decreases |s.workers[w].todo|
  {
    var todo, t := s.workers[w].todo, Act(s, Ack(w));
    if todo == [] {
      OneStep(s, Ack(w), []);
      NothingMoved(s, t);
      return [Ack(w)] + [];
    }
    AckOne(s, w);
    var rest := AckRun(t, w);
    OneStep(s, Ack(w), rest);
    MovedTogether(s, t, After(t, rest), [todo[0]], todo[1..], todo, [], [], [], [], [], []);
    assert t.workers - {w} == s.workers - {w};
    return [Ack(w)] + rest;
  }

  /** One payload that is no record: pushed to the dead letters, then no claim any more. */
  lemma BuryOne(s: System, w: nat)
    requires w in s.workers && s.workers[w].Burying? && !s.workers[w].pushed && s.workers[w].bad != []
    requires forall e <- s.workers[w].bad :: e.Claim?
    ensures var t1, bad := Act(s, Bury(w)), s.workers[w].bad;
            && Possible(t1, Bury(w))
            && var t2 := Act(t1, Bury(w));
            && Moved(s, t2, [bad[0]], [], [DeadPayload(bad[0].payload)])
            && t2.workers == s.workers[w := Burying(bad[1..], false, s.workers[w].good)]
  {
    var e := s.workers[w].bad[0];
    assert s.queue.pending + [] == s.queue.pending;
    OneMoved(s, Act(Act(s, Bury(w)), Bury(w)), e, [], [DeadPayload(e.payload)]);
  }

  lemma LettersSplit(bad: seq<Envelope>)
    requires bad != [] && forall e <- bad :: e.Claim?
    ensures Letters(bad) == [DeadPayload(bad[0].payload)] + Letters(bad[1..])
  {
  }

  /** `w` has buried all that is no record, and stands before the write. */
  ghost predicate BuriedAll(s: System, w: nat, t: System)
    requires w in s.workers && s.workers[w].Burying? && forall e <- s.workers[w].bad :: e.Claim?
  {
    && Moved(s, t, s.workers[w].bad, [], Letters(s.workers[w].bad))
    && t.workers == s.workers[w := Writing(s.workers[w].good)]
  }

  lemma BuryJoins(s: System, w: nat, t: System, u: System)
    requires w in s.workers && s.workers[w].Burying? && s.workers[w].bad != []
    requires forall e <- s.workers[w].bad :: e.Claim?
    requires var bad := s.workers[w].bad;
             && Moved(s, t, [bad[0]], [], [DeadPayload(bad[0].payload)])
             && t.workers == s.workers[w := Burying(bad[1..], false, s.workers[w].good)] && BuriedAll(t, w, u)
    ensures BuriedAll(s, w, u)
  {
    var bad := s.workers[w].bad;
    LettersSplit(bad);
    MovedTogether(s, t, u, [bad[0]], bad[1..], bad, [], [], [], [DeadPayload(bad[0].payload)], Letters(bad[1..]),
                  Letters(bad));
    assert t.workers[w := Writing(s.workers[w].good)] == s.workers[w := Writing(s.workers[w].good)];
  }

  lemma {:induction false} BuryRun(s: System, w: nat) returns (actions: seq<Action>)
    requires w in s.workers && s.workers[w].Burying? && !s.workers[w].pushed
    requires forall e <- s.workers[w].bad :: e.Claim?
    ensures OwnSteps(w, actions, true) && OwnSteps(w, actions, false)
    ensures Schedule(s, actions) && BuriedAll(s, w, After(s, actions))
    decreases |s.workers[w].bad|
  {
    if s.workers[w].bad == [] {
      OneStep(s, Bury(w), []);
      NothingMoved(s, Act(s, Bury(w)));
      return [Bury(w)] + [];
    }
    BuryOne(s, w);
    var t := Act(Act(s, Bury(w)), Bury(w));
    var rest := BuryRun(t, w);
    TwoSteps(s, Bury(w), Bury(w), rest);
    BuryJoins(s, w, t, After(t, rest));
    return [Bury(w), Bury(w)] + rest;
  }

  /** Where one event of a failed write goes. */
  function AgainOf(e: Envelope): seq<Payload>
    requires e.Claim?
  {
    var (next, attempts) := IncrementAttempt(e.payload);
    if attempts < MAX_ATTEMPTS then [next] else []
  }

  function DeadOf(e: Envelope): seq<Dead>
    requires e.Claim?
  {
    var (next, attempts) := IncrementAttempt(e.payload);
    if attempts < MAX_ATTEMPTS then [] else [DeadPayload(next)]
  }

  lemma RequeuedIs(q: Queue, e: Envelope)
    requires e.Claim?
    ensures Requeued(q, e.payload) == Queue(q.pending + AgainOf(e), q.inflight, q.dlq + DeadOf(e))
  {
    assert q.pending + [] == q.pending && q.dlq + [] == q.dlq;
  }

  /** It is pushed there, and then no claim any more. */
  lemma RetryOne(s: System, w: nat)
    requires w in s.workers && s.workers[w].Retrying? && !s.workers[w].pushed && s.workers[w].todo != []
    requires forall e <- s.workers[w].todo :: e.Claim?
    ensures var t1, todo := Act(s, Retry(w)), s.workers[w].todo;
            && Possible(t1, Retry(w))
            && var t2 := Act(t1, Retry(w));
            && Moved(s, t2, [todo[0]], AgainOf(todo[0]), DeadOf(todo[0]))
            && t2.workers == s.workers[w := Retrying(todo[1..], false)]
  {
    var e := s.workers[w].todo[0];
    RetrySteps(s, w);
    RequeuedIs(s.queue, e);
    OneMoved(s, Act(Act(s, Retry(w)), Retry(w)), e, AgainOf(e), DeadOf(e));
  }

  lemma RetrySteps(s: System, w: nat)
    requires w in s.workers && s.workers[w].Retrying? && !s.workers[w].pushed && s.workers[w].todo != []
    requires forall e <- s.workers[w].todo :: e.Claim?
    ensures var t1, todo := Act(s, Retry(w)), s.workers[w].todo;
            && Possible(t1, Retry(w))
            && Act(t1, Retry(w)) == s.(queue := Acked(Requeued(s.queue, todo[0].payload), todo[0]),
                                       workers := s.workers[w := Retrying(todo[1..], false)])
  {
    var t1, todo := Act(s, Retry(w)), s.workers[w].todo;
    assert t1.workers[w] == Retrying(todo, true);
    assert t1.workers[w := Retrying(todo[1..], false)] == s.workers[w := Retrying(todo[1..], false)];
  }

  lemma RetriedLast(items: seq<Envelope>)
    requires items != [] && forall e <- items :: e.Claim?
    ensures var n := |items| - 1;
            && Retried(items) == Retried(items[..n]) + AgainOf(items[n])
            && Exhausted(items) == Exhausted(items[..n]) + DeadOf(items[n])
  {
  }

  lemma {:induction false} RetriedFirst(items: seq<Envelope>)
    requires items != [] && forall e <- items :: e.Claim?
    ensures Retried(items) == AgainOf(items[0]) + Retried(items[1..])
    decreases |items|
  {
    RetriedLast(items);
    var n, rest := |items| - 1, items[1..];
    if n == 0 {
      assert items[..n] == [] && rest == [];
      assert [] + AgainOf(items[0]) == AgainOf(items[0]) + [];
    } else {
      RetriedFirst(items[..n]);
      RetriedLast(rest);
      assert items[..n][1..] == rest[..n - 1];
    }
  }

  lemma {:induction false} ExhaustedFirst(items: seq<Envelope>)
    requires items != [] && forall e <- items :: e.Claim?
    ensures Exhausted(items) == DeadOf(items[0]) + Exhausted(items[1..])
    decreases |items|
  {
    RetriedLast(items);
    var n, rest := |items| - 1, items[1..];
    if n == 0 {
      assert items[..n] == [] && rest == [];
      assert [] + DeadOf(items[0]) == DeadOf(items[0]) + [];
    } else {
      ExhaustedFirst(items[..n]);
      RetriedLast(rest);
      assert items[..n][1..] == rest[..n - 1];
    }
  }

  /** `w` has retried all of its batch, and is done. */
  ghost predicate RetriedAll(s: System, w: nat, t: System)
    requires w in s.workers && s.workers[w].Retrying? && forall e <- s.workers[w].todo :: e.Claim?
  {
    && Moved(s, t, s.workers[w].todo, Retried(s.workers[w].todo), Exhausted(s.workers[w].todo))
    && t.workers == s.workers - {w}
  }

  lemma RetryJoins(s: System, w: nat, t: System, u: System)
    requires w in s.workers && s.workers[w].Retrying? && s.workers[w].todo != []
    requires forall e <- s.workers[w].todo :: e.Claim?
    requires var todo := s.workers[w].todo;
             && Moved(s, t, [todo[0]], AgainOf(todo[0]), DeadOf(todo[0]))
             && t.workers == s.workers[w := Retrying(todo[1..], false)] && RetriedAll(t, w, u)
    ensures RetriedAll(s, w, u)
  {
    var todo := s.workers[w].todo;
    RetriedFirst(todo);
    ExhaustedFirst(todo);
    MovedTogether(s, t, u, [todo[0]], todo[1..], todo, AgainOf(todo[0]), Retried(todo[1..]), Retried(todo),
                  DeadOf(todo[0]), Exhausted(todo[1..]), Exhausted(todo));
    assert t.workers - {w} == s.workers - {w};
  }

  lemma {:induction false} RetryRun(s: System, w: nat) returns (actions: seq<Action>)
    requires w in s.workers && s.workers[w].Retrying? && !s.workers[w].pushed
    requires forall e <- s.workers[w].todo :: e.Claim?
    ensures OwnSteps(w, actions, false) && Schedule(s, actions) && RetriedAll(s, w, After(s, actions))
    decreases |s.workers[w].todo|
  {
    if s.workers[w].todo == [] {
      OneStep(s, Retry(w), []);
      NothingMoved(s, Act(s, Retry(w)));
      return [Retry(w)] + [];
    }
    RetryOne(s, w);
    var t := Act(Act(s, Retry(w)), Retry(w));
    var rest := RetryRun(t, w);
    TwoSteps(s, Retry(w), Retry(w), rest);
    RetryJoins(s, w, t, After(t, rest));
    return [Retry(w), Retry(w)] + rest;
  }

  // ---------------------------------------------------------------------------------------------
  // The whole flush
  // ---------------------------------------------------------------------------------------------

  lemma {:induction false} RecordsAre(batch: seq<Payload>, now: int)
    ensures RecordsOf(Objects(ClaimsOf(batch, now))) == FieldsOf(batch)
  {
    if batch != [] {
      var claims, rest := ClaimsOf(batch, now), ClaimsOf(batch[1..], now);
      RecordsAre(batch[1..], now);
      assert claims[1..] == rest;
      if batch[0].Obj? {
        assert Objects(claims)[1..] == Objects(rest);
      }
    }
  }

  lemma {:induction false} LettersAre(batch: seq<Payload>, now: int)
    ensures var bad := NonObjects(ClaimsOf(batch, now));
            (forall e <- bad :: e.Claim?) && Letters(bad) == LettersOf(batch)
    decreases |batch|
  {
    var claims := ClaimsOf(batch, now);
    assert forall e <- NonObjects(claims) :: e in claims && e.Claim?;
    if batch != [] {
      var rest := ClaimsOf(batch[1..], now);
      LettersAre(batch[1..], now);
      assert claims[1..] == rest;
      if !batch[0].Obj? {
        LettersSplit(NonObjects(claims));
        assert NonObjects(claims)[1..] == NonObjects(rest);
      }
    }
  }

  lemma {:induction false} BagSplits(es: seq<Envelope>)
    ensures multiset(es) == multiset(Objects(es)) + multiset(NonObjects(es))
  {
    if es != [] {
      BagSplits(es[1..]);
      assert es == [es[0]] + es[1..];
      assert multiset(es) == multiset{es[0]} + multiset(es[1..]);
    }
  }

  /** Worker `w` has claimed `n` payloads, and stands before the write of the records among them. */
  ghost predicate Ready(s: System, t: System, w: nat, now: int, n: nat)
    requires n <= |s.queue.pending|
  {
    var good := Objects(ClaimsOf(s.queue.pending[..n], now));
    && t.workers == s.workers[w := Writing(good)] && t.table == s.table && t.origin == s.origin
    && t.queue.pending == s.queue.pending[n..] && t.queue.dlq == s.queue.dlq + LettersOf(s.queue.pending[..n])
    && multiset(t.queue.inflight) == multiset(s.queue.inflight) + multiset(good)
  }

  /** What claiming, sorting and burying come to. */
  lemma ReadyAfter(s: System, w: nat, now: int, n: nat, claimed: System, t: System)
    requires n <= |s.queue.pending|
    requires var claims := ClaimsOf(s.queue.pending[..n], now);
             && claimed.table == s.table && claimed.origin == s.origin
             && claimed.queue == ClaimedUpTo(s.queue, now, n)
             && (forall e <- NonObjects(claims) :: e.Claim?)
             && Moved(claimed, t, NonObjects(claims), [], Letters(NonObjects(claims)))
             && t.workers == s.workers[w := Writing(Objects(claims))]
    ensures Ready(s, t, w, now, n)
  {
    var claims := ClaimsOf(s.queue.pending[..n], now);
    LettersAre(s.queue.pending[..n], now);
    BagSplits(claims);
    assert claimed.queue.pending + [] == claimed.queue.pending;
  }

  lemma SortAndBury(s: System, w: nat, claims: seq<Envelope>) returns (actions: seq<Action>)
    requires w in s.workers && s.workers[w] == Claiming(claims) && forall e <- NonObjects(claims) :: e.Claim?
    ensures OwnSteps(w, actions, true) && OwnSteps(w, actions, false) && Schedule(s, actions)
    ensures Moved(s, After(s, actions), NonObjects(claims), [], Letters(NonObjects(claims)))
    ensures After(s, actions).workers == s.workers[w := Writing(Objects(claims))]
  {
    var t := Act(s, Sort(w));
    assert t.workers[w] == Burying(NonObjects(claims), false, Objects(claims));
    var bury := BuryRun(t, w);
    OneStep(s, Sort(w), bury);
    assert t.workers[w := Writing(Objects(claims))] == s.workers[w := Writing(Objects(claims))];
    return [Sort(w)] + bury;
  }

  lemma BeginAndClaim(s: System, w: nat, now: int, n: nat) returns (actions: seq<Action>)
    requires w !in s.workers && n <= |s.queue.pending|
    ensures OwnSteps(w, actions, true) && OwnSteps(w, actions, false) && Schedule(s, actions)
    ensures After(s, actions) == s.(queue := ClaimedUpTo(s.queue, now, n),
                                    workers := s.workers[w := Claiming(ClaimsOf(s.queue.pending[..n], now))])
  {
    var t, claims := Act(s, Begin(w)), ClaimsOf(s.queue.pending[..n], now);
    var claim := ClaimRun(t, w, now, [], n);
    assert [] + claims == claims;
    assert t.workers[w := Claiming(claims)] == s.workers[w := Claiming(claims)];
    OneStep(s, Begin(w), claim);
    return [Begin(w)] + claim;
  }

  lemma ToTheWrite(s: System, w: nat, now: int, n: nat) returns (actions: seq<Action>)
    requires w !in s.workers && n <= |s.queue.pending|
    ensures OwnSteps(w, actions, true) && OwnSteps(w, actions, false)
    ensures Schedule(s, actions) && Ready(s, After(s, actions), w, now, n)
  {
    var claims := ClaimsOf(s.queue.pending[..n], now);
    LettersAre(s.queue.pending[..n], now);
    var first := BeginAndClaim(s, w, now, n);
    var claimed := After(s, first);
    var second := SortAndBury(claimed, w, claims);
    RunsJoin(s, first, second);
    assert claimed.workers[w := Writing(Objects(claims))] == s.workers[w := Writing(Objects(claims))];
    ReadyAfter(s, w, now, n, claimed, After(claimed, second));
    return first + second;
  }

  lemma WriteOne(s: System, t: System, w: nat, now: int, n: nat)
    requires n <= |s.queue.pending| && Ready(s, t, w, now, n)
    requires forall o <- Distinct(FieldsOf(s.queue.pending[..n]), {}) :: Convertible(o)
    ensures Possible(t, Write(w, true, true))
    ensures var good := Objects(ClaimsOf(s.queue.pending[..n], now));
            Act(t, Write(w, true, true)) == t.(table := InsertAll(s.table, RowsOf(FieldsOf(s.queue.pending[..n]))),
                                               workers := t.workers[w := Acking(good)])
  {
    RecordsAre(s.queue.pending[..n], now);
  }

  lemma StoredAll(s: System, t: System, u: System, v: System, w: nat, now: int, n: nat)
    requires n <= |s.queue.pending| && w !in s.workers && Ready(s, t, w, now, n) && u.queue == t.queue
    requires Moved(u, v, Objects(ClaimsOf(s.queue.pending[..n], now)), [], [])
    ensures v.queue.pending == s.queue.pending[n..] && v.queue.dlq == s.queue.dlq + LettersOf(s.queue.pending[..n])
    ensures multiset(v.queue.inflight) == multiset(s.queue.inflight)
    ensures t.workers - {w} == s.workers
  {
    assert u.queue.pending + [] == u.queue.pending && u.queue.dlq + [] == u.queue.dlq;
  }

  /**
   A flush of `n` payloads that is not interrupted and whose write succeeds: its records are inserted in
   order, the other payloads are dead letters, and all of its claims are gone; nothing else is touched.
   */
  lemma QuietFlushStores(s: System, w: nat, now: int, n: nat) returns (actions: seq<Action>)
    requires w !in s.workers && n <= |s.queue.pending|
    requires forall o <- Distinct(FieldsOf(s.queue.pending[..n]), {}) :: Convertible(o)
    ensures OwnSteps(w, actions, true) && Schedule(s, actions)
    ensures var t, batch := After(s, actions), s.queue.pending[..n];
            && t.table == InsertAll(s.table, RowsOf(FieldsOf(batch))) && t.origin == s.origin && t.workers == s.workers
            && t.queue.pending == s.queue.pending[n..] && t.queue.dlq == s.queue.dlq + LettersOf(batch)
            && multiset(t.queue.inflight) == multiset(s.queue.inflight)
  {
    var first := ToTheWrite(s, w, now, n);
    var t := After(s, first);
    WriteOne(s, t, w, now, n);
    var u := Act(t, Write(w, true, true));
    var ack := AckRun(u, w);
    OneStep(t, Write(w, true, true), ack);
    RunsJoin(s, first, [Write(w, true, true)] + ack);
    StoredAll(s, t, u, After(u, ack), w, now, n);
    assert u.workers - {w} == t.workers - {w};
    return first + ([Write(w, true, true)] + ack);
  }

  /** A write that looks failed, stored or not. */
  lemma WriteFails(s: System, t: System, w: nat, now: int, n: nat, stored: bool)
    requires n <= |s.queue.pending| && Ready(s, t, w, now, n)
    requires stored ==> forall o <- Distinct(FieldsOf(s.queue.pending[..n]), {}) :: Convertible(o)
    ensures Possible(t, Write(w, stored, false))
    ensures var good := Objects(ClaimsOf(s.queue.pending[..n], now));
            Act(t, Write(w, stored, false)) ==
            t.(table := if stored then InsertAll(s.table, RowsOf(FieldsOf(s.queue.pending[..n]))) else s.table,
               workers := t.workers[w := Retrying(good, false)])
  {
    RecordsAre(s.queue.pending[..n], now);
  }

  /**
   One whose write looks failed, although it may have been stored: every event is retried or dead as
   `RetryOrDlq` decides, and all of its claims are gone.
   */
  lemma QuietFlushRetries(s: System, w: nat, now: int, n: nat, stored: bool) returns (actions: seq<Action>)
    requires w !in s.workers && n <= |s.queue.pending|
    requires stored ==> forall o <- Distinct(FieldsOf(s.queue.pending[..n]), {}) :: Convertible(o)
    ensures OwnSteps(w, actions, false) && Schedule(s, actions)
    ensures var t, batch := After(s, actions), s.queue.pending[..n];
            var good := Objects(ClaimsOf(batch, now));
            && t.table == (if stored then InsertAll(s.table, RowsOf(FieldsOf(batch))) else s.table)
            && t.origin == s.origin && t.workers == s.workers && RecordsOf(good) == FieldsOf(batch)
            && t.queue.pending == s.queue.pending[n..] + Retried(good)
            && t.queue.dlq == s.queue.dlq + LettersOf(batch) + Exhausted(good)
            && multiset(t.queue.inflight) == multiset(s.queue.inflight)
  {
    var first := ToTheWrite(s, w, now, n);
    var t := After(s, first);
    RecordsAre(s.queue.pending[..n], now);
    WriteFails(s, t, w, now, n, stored);
    var u := Act(t, Write(w, stored, false));
    var retry := RetryRun(u, w);
    OneStep(t, Write(w, stored, false), retry);
    RunsJoin(s, first, [Write(w, stored, false)] + retry);
    assert u.workers - {w} == s.workers;
    return first + ([Write(w, stored, false)] + retry);
  }

  // ---------------------------------------------------------------------------------------------
  // What a crash leaves
  // ---------------------------------------------------------------------------------------------

  lemma {:induction false} AllStale(es: seq<Envelope>, cutoff: int)
    requires forall e <- es :: e.Claim? && e.claimedAt <= cutoff
    ensures Fresh(es, cutoff) == [] && Broken(es) == [] && |StalePayloads(es, cutoff)| == |es|
    ensures forall i :: 0 <= i < |es| ==> StalePayloads(es, cutoff)[i] == es[i].payload
  {
    if es != [] {
      AllStale(es[1..], cutoff);
    }
  }

  /**
   A worker that crashes, at whatever point, leaves its claims inflight, and a recovery that comes late
   enough puts the payload of every claim back at the end of pending, in order. A recovery before the
   claim is stale leaves it to its worker.
   */
  lemma CrashedClaimsComeBack(s: System, w: nat, cutoff: int)
    requires w in s.workers && forall e <- s.queue.inflight :: e.Claim?
    ensures var t := Act(Act(s, Crash(w)), Recover(cutoff));
            && t.table == s.table && t.origin == s.origin && t.workers == s.workers - {w} && t.queue.dlq == s.queue.dlq
            && ((forall e <- s.queue.inflight :: e.claimedAt <= cutoff) ==>
                  && t.queue.inflight == [] && |t.queue.pending| == |s.queue.pending| + |s.queue.inflight|
                  && t.queue.pending[..|s.queue.pending|] == s.queue.pending
                  && forall i :: 0 <= i < |s.queue.inflight| ==>
                       t.queue.pending[|s.queue.pending| + i] == s.queue.inflight[i].payload)
            && ((forall e <- s.queue.inflight :: e.claimedAt > cutoff) ==> t.queue == s.queue)
  {
    RecoveryMoves(s.queue.inflight, cutoff);
    assert s.queue.dlq + [] == s.queue.dlq && s.queue.pending + [] == s.queue.pending;
    if forall e <- s.queue.inflight :: e.claimedAt <= cutoff {
      AllStale(s.queue.inflight, cutoff);
    }
    if forall e <- s.queue.inflight :: e.claimedAt > cutoff {
      FreshHasNothingToRecover(s.queue.inflight, cutoff);
    }
  }
}
