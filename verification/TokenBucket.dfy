/**
 The tokens-per-minute bucket of one rate-limit rule: the check script, the settle script, the
 key's time to live, and what holds over every run of checks and signed settlements.

 Lua numbers are integers here: every argument of the two scripts is an integer, and all results
 stay exact in the range where a double is exact.
 */
module TokenBucket {
  import opened Basics
  import opened Sums

  /** The base time to live of a bucket key, in milliseconds (31 minutes). */
  const BUCKET_TTL_MS := 1_860_000

  const MINUTE_MS := 60_000

  /** The hash stored under a bucket key; Redis drops it once the clock is past `expireAt`. */
  datatype Bucket = Missing | Bucket(tokens: int, ts: int, expireAt: int)

  /** `burst` is the capacity, `rate` the refill in tokens per minute. */
  datatype Rule = Rule(burst: int, rate: int) {
    /** The bounds that the rule schema puts on both numbers. */
    ghost predicate Valid() { burst >= 1 && rate >= 1 }
  }

  /** The three numbers the check script returns are (allowed, tokens, limit). */
  datatype Reply = Reply(allowed: bool, tokens: int)

  /** Tokens refilled in `elapsed` milliseconds; `/` rounds down for negative `elapsed` too. */
  function Refill(elapsed: int, rate: int): int { elapsed * rate / MINUTE_MS }

  /** The least `q` with `q * d >= n`. */
  function CeilDiv(n: int, d: int): int
    requires d > 0
  {
    -((-n) / d)
  }

  /** What a key holds when it is read at `now`. */
  function Alive(b: Bucket, now: int): Bucket {
    if b.Bucket? && now > b.expireAt then Missing else b
  }

  /** The balance that a check at `now` finds. */
  function Available(r: Rule, b: Bucket, now: int): int {
    match b
    case Missing => r.burst
    case Bucket(tokens, ts, _) => Min(r.burst, tokens + Refill(now - ts, r.rate))
  }

  /** The bucket and reply after a check that asks for `request` tokens. */
  function AfterCheck(r: Rule, b: Bucket, now: int, request: int): (Bucket, Reply) {
    var available := Available(r, b, now);
    if available < request then
      (b, Reply(false, available))
    else
      (Bucket(available - request, now, now + BUCKET_TTL_MS), Reply(true, available - request))
  }

  /** The time to live that a settlement leaves: long enough for refill to repay any debt. */
  function SettledTtl(r: Rule, tokens: int): int
  {
    if tokens < 0 && r.rate > 0 then CeilDiv(-tokens * MINUTE_MS, r.rate) + BUCKET_TTL_MS
    else BUCKET_TTL_MS
  }

  /** The bucket after a settlement by `delta`; a missing bucket is not created. */
  function AfterSettle(r: Rule, b: Bucket, now: int, delta: int): Bucket {
    if delta == 0 || b.Missing? then b
    else
      var tokens := Min(r.burst, b.tokens + delta);
      Bucket(tokens, b.ts, now + SettledTtl(r, tokens))
  }

  /**
   The check script on what is stored under its key. A denied check writes nothing, not even the
   time to live.
   */
  method CheckScript(r: Rule, stored: Bucket, now: int, request: int) returns (after: Bucket, reply: Reply)
    ensures (after, reply) == AfterCheck(r, Alive(stored, now), now, request)
    ensures var live := stored.Bucket? && now <= stored.expireAt;
            var refilled := if live then stored.tokens + (now - stored.ts) * r.rate / 60_000 else r.burst;
            var balance := if refilled < r.burst then refilled else r.burst;
            && (reply.allowed <==> balance >= request)
            && (reply.allowed ==> after == Bucket(balance - request, now, now + 1_860_000))
            && (!reply.allowed ==> after == if live then stored else Missing)
            && reply.tokens == if reply.allowed then balance - request else balance
  {
    after := if stored.Bucket? && now > stored.expireAt then Missing else stored;
    var tokens := if after.Bucket? then after.tokens else r.burst;
    var lastTs := if after.Bucket? then after.ts else now;
    var elapsed := now - lastTs;
    var refill := elapsed * r.rate / MINUTE_MS;
    tokens := if tokens + refill < r.burst then tokens + refill else r.burst;
    if tokens < request {
      return after, Reply(false, tokens);
    }
    tokens := tokens - request;
    return Bucket(tokens, now, now + BUCKET_TTL_MS), Reply(true, tokens);
  }

  /** The settle script, skipped by its caller for a zero delta. */
  method SettleScript(r: Rule, stored: Bucket, now: int, delta: int) returns (after: Bucket)
    requires delta != 0
    ensures after == AfterSettle(r, Alive(stored, now), now, delta)
    ensures after.Missing? <==> stored.Missing? || now > stored.expireAt
    ensures after.Bucket? ==> after.ts == stored.ts && after.tokens == Min(stored.tokens + delta, r.burst)
    ensures after.Bucket? && (after.tokens >= 0 || r.rate <= 0) ==> after.expireAt == now + 1_860_000
    ensures after.Bucket? && after.tokens < 0 < r.rate ==>
              var wait := after.expireAt - 1_860_000 - now;
              -after.tokens * 60_000 <= wait * r.rate < -after.tokens * 60_000 + r.rate
  {
    if stored.Missing? || now > stored.expireAt {
      return Missing;
    }
    var tokens := stored.tokens + delta;
    if tokens > r.burst {
      tokens := r.burst;
    }
    var ttl := BUCKET_TTL_MS;
    if tokens < 0 && r.rate > 0 {
      var debtTtl := CeilDiv(-tokens * MINUTE_MS, r.rate) + BUCKET_TTL_MS;
      CeilDivBounds(-tokens * MINUTE_MS, r.rate);
      if debtTtl > ttl {
        ttl := debtTtl;
      }
    }
    return Bucket(tokens, stored.ts, now + ttl);
  }

  // ---------------------------------------------------------------------------------------------
  // Runs
  // ---------------------------------------------------------------------------------------------

  /** A check reserves; a settlement replaces the reservation of request `id` by what it used. */
  datatype Event =
    | Check(id: nat, now: int, request: int)
    | Settle(id: nat, now: int, actual: int)

  datatype Reservation = Reservation(at: int, reserved: int)

  /**
   One bucket with its open reservations, the charge of every admitted request (its reservation
   while open, its actual tokens afterwards) and the time of the first admission.
   */
  datatype Machine = Machine(bucket: Bucket, open: map<nat, Reservation>, charges: map<nat, int>, birth: int)

  const INITIAL := Machine(Missing, map[], map[], 0)

  /** The cell that an event at `now` works on, with or without key expiry. */
  function Seen(b: Bucket, now: int, expiring: bool): Bucket {
    if expiring then Alive(b, now) else b
  }

  /** Whether `e` can happen: request ids are fresh and only open requests settle. */
  predicate Enabled(m: Machine, e: Event) {
    match e
    case Check(id, _, _) => id !in m.charges && id !in m.open
    case Settle(id, _, _) => id in m.open && id in m.charges
  }

  /** One event; the reply of a settlement says whether the script found the key. */
  function Step(r: Rule, m: Machine, e: Event, expiring: bool): (Machine, Reply)
    requires Enabled(m, e)
  {
    var seen := Seen(m.bucket, e.now, expiring);
    match e
    case Check(id, now, request) =>
      var (bucket, reply) := AfterCheck(r, seen, now, request);
      if !reply.allowed then (m, reply)
      else
        (Machine(bucket, m.open[id := Reservation(now, request)], m.charges[id := request],
                 if m.bucket.Missing? then now else m.birth), reply)
    case Settle(id, now, actual) =>
      var bucket := AfterSettle(r, seen, now, m.open[id].reserved - actual);
      (Machine(if seen.Missing? then m.bucket else bucket, m.open - {id}, m.charges[id := actual], m.birth),
       Reply(seen.Bucket?, 0))
  }

  /** Whether every event of `es` can happen in turn. */
  predicate Feasible(r: Rule, m: Machine, es: seq<Event>, expiring: bool)
    decreases |es|
  {
    es == [] || (Enabled(m, es[0]) && Feasible(r, Step(r, m, es[0], expiring).0, es[1..], expiring))
  }

  /** The state after `es`. */
  function After(r: Rule, m: Machine, es: seq<Event>, expiring: bool): Machine
    requires Feasible(r, m, es, expiring)
    decreases |es|
  {
    if es == [] then m else After(r, Step(r, m, es[0], expiring).0, es[1..], expiring)
  }

  /** All replies of `es`, one for each event. */
  function Replies(r: Rule, m: Machine, es: seq<Event>, expiring: bool): (replies: seq<Reply>)
    requires Feasible(r, m, es, expiring)
    ensures |replies| == |es|
    decreases |es|
  {
    if es == [] then []
    else
      var (next, reply) := Step(r, m, es[0], expiring);
      [reply] + Replies(r, next, es[1..], expiring)
  }

  // ---------------------------------------------------------------------------------------------
  // Conservation
  // ---------------------------------------------------------------------------------------------

  /** Balance plus everything charged never exceeds the capacity plus the refill since birth. */
  ghost predicate Conserved(r: Rule, m: Machine) {
    match m.bucket
    case Missing => m.charges == map[] && m.open == map[]
    case Bucket(tokens, ts, _) =>
      && MINUTE_MS * (tokens + Sum(m.charges)) <= MINUTE_MS * r.burst + (ts - m.birth) * r.rate
      && forall id <- m.open :: id in m.charges && m.charges[id] == m.open[id].reserved
  }

  lemma CheckConserves(r: Rule, m: Machine, e: Event)
    requires Conserved(r, m) && e.Check? && Enabled(m, e)
    ensures Conserved(r, Step(r, m, e, false).0)
  {
    var (next, reply) := Step(r, m, e, false);
    if reply.allowed {
      SumUpdate(m.charges, e.id, e.request);
      match m.bucket
      case Missing =>
      case Bucket(tokens, ts, _) =>
        var elapsed := e.now - ts;
        assert MINUTE_MS * Refill(elapsed, r.rate) <= elapsed * r.rate;
        assert (ts - m.birth) * r.rate + elapsed * r.rate == (e.now - m.birth) * r.rate;
    }
  }

  lemma SettleConserves(r: Rule, m: Machine, e: Event)
    requires Conserved(r, m) && e.Settle? && Enabled(m, e)
    ensures Conserved(r, Step(r, m, e, false).0)
  {
    SumUpdate(m.charges, e.id, e.actual);
  }

  lemma {:induction false} RunConserves(r: Rule, m: Machine, es: seq<Event>)
    requires Conserved(r, m) && Feasible(r, m, es, false)
    ensures Conserved(r, After(r, m, es, false))
    decreases |es|
  {
    if es != [] {
      if es[0].Check? { CheckConserves(r, m, es[0]); } else { SettleConserves(r, m, es[0]); }
      RunConserves(r, Step(r, m, es[0], false).0, es[1..]);
    }
  }

  /**
   At every admission, whatever was interleaved before it and in whatever order its timestamps
   come: the actual tokens of settled requests plus the reservations of open ones, this one
   included, are at most the capacity plus the refill since the bucket was created.
   */
  lemma AdmissionBound(r: Rule, es: seq<Event>, id: nat, now: int, request: int)
    requires Feasible(r, INITIAL, es, false)
    requires Enabled(After(r, INITIAL, es, false), Check(id, now, request))
    ensures var (m, reply) := Step(r, After(r, INITIAL, es, false), Check(id, now, request), false);
            reply.allowed ==>
              MINUTE_MS * Sum(m.charges) <= MINUTE_MS * r.burst + (now - m.birth) * r.rate
  {
    RunConserves(r, INITIAL, es);
    CheckConserves(r, After(r, INITIAL, es, false), Check(id, now, request));
  }

  // ---------------------------------------------------------------------------------------------
  // What is charged, and since when
  // ---------------------------------------------------------------------------------------------

  lemma {:induction false} SettledStays(r: Rule, m: Machine, es: seq<Event>, id: nat, expiring: bool)
    requires Feasible(r, m, es, expiring) && id in m.charges && id !in m.open
    ensures var m' := After(r, m, es, expiring); id in m'.charges && id !in m'.open && m'.charges[id] == m.charges[id]
    decreases |es|
  {
    if es != [] {
      SettledStays(r, Step(r, m, es[0], expiring).0, es[1..], id, expiring);
    }
  }

  /** The steps of a run are the scripts: what is seen is checked, or settled by reserved minus actual. */
  lemma StepIsTheScript(r: Rule, m: Machine, id: nat, now: int, amount: int, expiring: bool)
    ensures Enabled(m, Check(id, now, amount)) ==>
              var seen := if expiring && m.bucket.Bucket? && now > m.bucket.expireAt then Missing else m.bucket;
              var (next, reply) := Step(r, m, Check(id, now, amount), expiring);
              && reply == AfterCheck(r, seen, now, amount).1
              && (reply.allowed ==> next.bucket == AfterCheck(r, seen, now, amount).0)
              && (!reply.allowed ==> next == m)
    ensures Enabled(m, Settle(id, now, amount)) ==>
              var seen := if expiring && m.bucket.Bucket? && now > m.bucket.expireAt then Missing else m.bucket;
              var (next, reply) := Step(r, m, Settle(id, now, amount), expiring);
              && (reply.allowed <==> seen.Bucket?)
              && next.bucket == if seen.Missing? then m.bucket
                                else AfterSettle(r, seen, now, m.open[id].reserved - amount)
  {
  }

  /** A request that has been settled is charged what it used. */
  lemma {:induction false} SettledIsCharged(r: Rule, m: Machine, es: seq<Event>, e: Event, expiring: bool)
    requires Feasible(r, m, es, expiring) && e in es && e.Settle?
    ensures var m' := After(r, m, es, expiring);
            e.id in m'.charges && e.id !in m'.open && m'.charges[e.id] == e.actual
    decreases |es|
  {
    var next := Step(r, m, es[0], expiring).0;
    if e == es[0] {
      SettledStays(r, next, es[1..], e.id, expiring);
    } else {
      assert es == [es[0]] + es[1..];
      SettledIsCharged(r, next, es[1..], e, expiring);
    }
  }

  /** A request is charged only if it was admitted, what it asked for, unless it has been settled. */
  lemma {:induction false} ChargedWasAdmitted(r: Rule, m: Machine, es: seq<Event>, id: nat, expiring: bool)
    requires Feasible(r, m, es, expiring) && id !in m.charges && id !in m.open
    ensures var m' := After(r, m, es, expiring);
            id in m'.charges ==>
              exists i :: 0 <= i < |es| && es[i].Check? && es[i].id == id && Replies(r, m, es, expiring)[i].allowed
                          && (id in m'.open ==> m'.charges[id] == es[i].request == m'.open[id].reserved)
    decreases |es|
  {
    if es != [] {
      var (next, reply) := Step(r, m, es[0], expiring);
      var m', rest := After(r, m, es, expiring), Replies(r, next, es[1..], expiring);
      if id in next.charges {
        assert es[0].Check? && es[0].id == id && reply.allowed;
        OpenStays(r, next, es[1..], id, expiring);
        assert Replies(r, m, es, expiring)[0] == reply;
      } else {
        ChargedWasAdmitted(r, next, es[1..], id, expiring);
        if id in m'.charges {
          var i :| 0 <= i < |es[1..]| && es[1..][i].Check? && es[1..][i].id == id && rest[i].allowed
                   && (id in m'.open ==> m'.charges[id] == es[1..][i].request == m'.open[id].reserved);
          assert es[i + 1] == es[1..][i] && Replies(r, m, es, expiring)[i + 1] == rest[i];
        }
      }
    }
  }

  lemma {:induction false} OpenStays(r: Rule, m: Machine, es: seq<Event>, id: nat, expiring: bool)
    requires Feasible(r, m, es, expiring) && id in m.charges
    requires id in m.open ==> m.charges[id] == m.open[id].reserved
    ensures var m' := After(r, m, es, expiring);
            && id in m'.charges
            && (id in m'.open ==> id in m.open && m'.open[id] == m.open[id] && m'.charges[id] == m.charges[id])
    decreases |es|
  {
    if es != [] {
      OpenStays(r, Step(r, m, es[0], expiring).0, es[1..], id, expiring);
    }
  }

  /** An admitted request is charged from then on. */
  lemma {:induction false} AdmittedIsCharged(r: Rule, m: Machine, es: seq<Event>, i: nat, expiring: bool)
    requires Feasible(r, m, es, expiring) && i < |es| && es[i].Check? && Replies(r, m, es, expiring)[i].allowed
    ensures es[i].id in After(r, m, es, expiring).charges
    decreases |es|
  {
    var next := Step(r, m, es[0], expiring).0;
    if i == 0 {
      OpenStays(r, next, es[1..], es[0].id, expiring);
    } else {
      AdmittedIsCharged(r, next, es[1..], i - 1, expiring);
    }
  }

  lemma {:induction false} BirthStays(r: Rule, m: Machine, es: seq<Event>)
    requires Feasible(r, m, es, false) && m.bucket.Bucket?
    ensures After(r, m, es, false).birth == m.birth
    decreases |es|
  {
    if es != [] {
      BirthStays(r, Step(r, m, es[0], false).0, es[1..]);
    }
  }

  /** The bound counts the refill from the first admission on. */
  lemma {:induction false} BirthIsFirstAdmission(r: Rule, m: Machine, es: seq<Event>, i: nat)
    requires m.bucket.Missing? && m.open == map[] && Feasible(r, m, es, false)
    requires i < |es| && es[i].Check? && Replies(r, m, es, false)[i].allowed
    requires forall j :: 0 <= j < i ==> !Replies(r, m, es, false)[j].allowed
    ensures After(r, m, es, false).birth == es[i].now
    decreases |es|
  {
    var (next, reply) := Step(r, m, es[0], false);
    assert Replies(r, m, es, false)[0] == reply;
    if i == 0 {
      BirthStays(r, next, es[1..]);
    } else {
      assert Replies(r, m, es, false) == [reply] + Replies(r, next, es[1..], false);
      assert forall j :: 0 <= j < i - 1 ==> Replies(r, next, es[1..], false)[j] == Replies(r, m, es, false)[j + 1];
      BirthIsFirstAdmission(r, next, es[1..], i - 1);
    }
  }

  // ---------------------------------------------------------------------------------------------
  // Expiry is invisible
  // ---------------------------------------------------------------------------------------------

  /** A run on a nondecreasing clock whose settlements come within the base TTL of their checks. */
  predicate Timely(r: Rule, m: Machine, clock: int, es: seq<Event>)
    decreases |es|
  {
    es == [] ||
    (&& Enabled(m, es[0])
     && clock <= es[0].now
     && (es[0].Settle? ==> es[0].now <= m.open[es[0].id].at + BUCKET_TTL_MS)
     && Timely(r, Step(r, m, es[0], false).0, es[0].now, es[1..]))
  }

  /** A settlement is timely up to 1,860,000 ms after its check, and no longer. */
  lemma TimelyIsTheDeadline(r: Rule, request: int, actual: int, later: int)
    requires request <= r.burst
    ensures var es := [Check(0, 0, request), Settle(0, later, actual)];
            Timely(r, INITIAL, 0, es) <==> 0 <= later <= 1_860_000
  {
    var check, settle := Check(0, 0, request), Settle(0, later, actual);
    assert [check, settle][1..] == [settle] && [settle][1..] == [];
    var m := Step(r, INITIAL, check, false).0;
    assert m.open[0] == Reservation(0, request);
    assert Timely(r, m, 0, [settle]) <==> 0 <= later <= BUCKET_TTL_MS;
  }

  lemma CeilDivBounds(n: int, d: int)
    requires d > 0
    ensures CeilDiv(n, d) * d >= n
    ensures CeilDiv(n, d) * d < n + d
    ensures n >= 0 ==> CeilDiv(n, d) >= 0
  {
    var q := (-n) / d;
    assert q * d <= -n;
    assert n >= 0 ==> q <= 0;
  }

  lemma RefillMonotone(a: int, b: int, rate: int)
    requires a <= b && rate >= 0
    ensures Refill(a, rate) <= Refill(b, rate)
  {
    assert a * rate <= b * rate;
  }

  /** What an empty bucket refills in the base time to live and one millisecond. */
  function Refilled(r: Rule): int { Refill(BUCKET_TTL_MS + 1, r.rate) }

  /**
   By the time its key expires a bucket has refilled all it owes, and then as much as an empty one
   refills in the base time to live.
   */
  ghost predicate Outlives(r: Rule, b: Bucket) {
    b.Bucket? ==> b.tokens * MINUTE_MS + (b.expireAt + 1 - b.ts) * r.rate >= (BUCKET_TTL_MS + 1) * r.rate
  }

  /** A settlement keeps that for every rule and whatever debt it leaves. */
  lemma SettleOutlives(r: Rule, b: Bucket, now: int, delta: int)
    requires r.Valid() && Outlives(r, b) && (b.Bucket? ==> b.ts <= now)
    ensures Outlives(r, AfterSettle(r, b, now, delta))
  {
    if delta != 0 && b.Bucket? {
      var t := AfterSettle(r, b, now, delta).tokens;
      var recovery := if t < 0 then CeilDiv(-t * MINUTE_MS, r.rate) else 0;
      if t < 0 { CeilDivBounds(-t * MINUTE_MS, r.rate); }
      Spans(now - b.ts, recovery, BUCKET_TTL_MS + 1, r.rate);
    }
  }

  lemma Spans(a: int, b: int, c: int, rate: int)
    requires a >= 0 && rate >= 0
    ensures (a + b + c) * rate >= b * rate + c * rate
  {
    assert (a + b + c) * rate == a * rate + b * rate + c * rate;
  }

  lemma CheckOutlives(r: Rule, b: Bucket, now: int, request: int)
    requires r.Valid() && Outlives(r, b)
    ensures Outlives(r, AfterCheck(r, b, now, request).0)
  {
  }

  /** From the moment its key expires on, the stored bucket would be full anyway. */
  ghost predicate FullOnExpiry(r: Rule, b: Bucket) {
    b.Bucket? ==> b.tokens + Refill(b.expireAt + 1 - b.ts, r.rate) >= r.burst
  }

  /** That is so for every burst that the base time to live refills. */
  lemma OutlivesIsFull(r: Rule, b: Bucket)
    requires r.burst <= Refilled(r) && Outlives(r, b)
    ensures FullOnExpiry(r, b)
  {
    if b.Bucket? { OwedAndRefilled(b.tokens, (b.expireAt + 1 - b.ts) * r.rate, (BUCKET_TTL_MS + 1) * r.rate); }
  }

  lemma OwedAndRefilled(tokens: int, gained: int, base: int)
    requires tokens * MINUTE_MS + gained >= base
    ensures tokens + gained / MINUTE_MS >= base / MINUTE_MS
  {
  }

  ghost predicate Unseen(r: Rule, m: Machine, clock: int) {
    && Outlives(r, m.bucket)
    && (m.bucket.Bucket? ==> m.bucket.ts <= clock)
    && (forall id <- m.open ::
          m.open[id].at <= clock && m.bucket.Bucket? && m.open[id].at + BUCKET_TTL_MS <= m.bucket.expireAt)
  }

  /** Reading through expiry changes no balance when an expired bucket would be full. */
  lemma ExpiredReadsFull(r: Rule, b: Bucket, now: int)
    requires r.rate >= 0 && FullOnExpiry(r, b)
    ensures Available(r, Alive(b, now), now) == Available(r, b, now)
  {
    if b.Bucket? && now > b.expireAt {
      RefillMonotone(b.expireAt + 1 - b.ts, now - b.ts, r.rate);
    }
  }

  lemma StepUnseen(r: Rule, m: Machine, clock: int, e: Event)
    requires r.Valid() && r.burst <= Refilled(r)
    requires Unseen(r, m, clock) && Enabled(m, e) && clock <= e.now
    requires e.Settle? ==> e.now <= m.open[e.id].at + BUCKET_TTL_MS
    ensures Step(r, m, e, true) == Step(r, m, e, false)
    ensures Unseen(r, Step(r, m, e, false).0, e.now)
  {
    OutlivesIsFull(r, m.bucket);
    ExpiredReadsFull(r, m.bucket, e.now);
    if e.Settle? {
      SettleOutlives(r, m.bucket, e.now, m.open[e.id].reserved - e.actual);
      var t := Min(r.burst, m.bucket.tokens + m.open[e.id].reserved - e.actual);
      if t < 0 { CeilDivBounds(-t * MINUTE_MS, r.rate); }
    }
  }

  lemma {:induction false} TimelyRunUnseen(r: Rule, m: Machine, clock: int, es: seq<Event>)
    requires r.Valid() && r.burst <= Refilled(r)
    requires Unseen(r, m, clock) && Timely(r, m, clock, es)
    ensures Feasible(r, m, es, true) && Feasible(r, m, es, false)
    ensures Replies(r, m, es, true) == Replies(r, m, es, false)
    decreases |es|
  {
    if es != [] {
      StepUnseen(r, m, clock, es[0]);
      TimelyRunUnseen(r, Step(r, m, es[0], false).0, es[0].now, es[1..]);
    }
  }

  lemma {:induction false} TimelyRunSame(r: Rule, m: Machine, clock: int, es: seq<Event>)
    requires r.Valid() && r.burst <= Refilled(r)
    requires Unseen(r, m, clock) && Timely(r, m, clock, es)
    ensures Feasible(r, m, es, true) && Feasible(r, m, es, false)
    ensures After(r, m, es, true) == After(r, m, es, false) && Unseen(r, After(r, m, es, true), EndClock(clock, es))
    decreases |es|
  {
    if es != [] {
      StepUnseen(r, m, clock, es[0]);
      TimelyRunSame(r, Step(r, m, es[0], false).0, es[0].now, es[1..]);
    }
  }

  /**
   The admission bound through expiry: on a nondecreasing clock with settlements in time, and with a
   burst that the base time to live refills.
   */
  lemma AdmissionBoundThroughExpiry(r: Rule, clock: int, es: seq<Event>, id: nat, now: int, request: int)
    requires r.Valid() && r.burst <= Refilled(r) && Timely(r, INITIAL, clock, es) && EndClock(clock, es) <= now
    requires Feasible(r, INITIAL, es, false) && Enabled(After(r, INITIAL, es, false), Check(id, now, request))
    ensures Feasible(r, INITIAL, es, true) && Enabled(After(r, INITIAL, es, true), Check(id, now, request))
    ensures var (m, reply) := Step(r, After(r, INITIAL, es, true), Check(id, now, request), true);
            reply.allowed ==>
              MINUTE_MS * Sum(m.charges) <= MINUTE_MS * r.burst + (now - m.birth) * r.rate
  {
    TimelyRunSame(r, INITIAL, clock, es);
    StepUnseen(r, After(r, INITIAL, es, true), EndClock(clock, es), Check(id, now, request));
    AdmissionBound(r, es, id, now, request);
  }

  /** Every timely run gets the same replies from an expiring bucket as from one kept for ever. */
  ghost predicate ExpiryInvisible(r: Rule) {
    forall clock, es :: Timely(r, INITIAL, clock, es) ==>
      && Feasible(r, INITIAL, es, true) && Feasible(r, INITIAL, es, false)
      && Replies(r, INITIAL, es, true) == Replies(r, INITIAL, es, false)
  }

  /** A time to live too short to refill an empty bucket shows in two full-burst requests. */
  lemma ShortTtlShows(r: Rule)
    requires r.Valid() && r.burst > Refilled(r)
    ensures var es := [Check(0, 0, r.burst), Check(1, BUCKET_TTL_MS + 1, r.burst)];
            && Timely(r, INITIAL, 0, es)
            && Feasible(r, INITIAL, es, true) && Feasible(r, INITIAL, es, false)
            && Replies(r, INITIAL, es, true)[1].allowed
            && !Replies(r, INITIAL, es, false)[1].allowed
  {
    var first, second := Check(0, 0, r.burst), Check(1, BUCKET_TTL_MS + 1, r.burst);
    var (m, _) := Step(r, INITIAL, first, false);
    assert [first, second][1..] == [second];
    assert Step(r, INITIAL, first, true) == Step(r, INITIAL, first, false);
    assert Timely(r, m, 0, [second]);
    assert Feasible(r, m, [second], true) && Feasible(r, m, [second], false);
    assert Replies(r, m, [second], true) == [Step(r, m, second, true).1];
    assert Replies(r, m, [second], false) == [Step(r, m, second, false).1];
  }

  /**
   Key expiry is invisible exactly when the base time to live is long enough to refill an empty
   bucket. The debt-aware part of the time to live is what keeps this a condition on the rule
   alone, whatever debt a settlement leaves.
   */
  lemma ExpiryInvisibleIff(r: Rule)
    requires r.Valid()
    ensures ExpiryInvisible(r) <==> r.burst <= Refilled(r)
  {
    if r.burst <= Refilled(r) {
      forall clock, es | Timely(r, INITIAL, clock, es)
        ensures Feasible(r, INITIAL, es, true) && Feasible(r, INITIAL, es, false)
        ensures Replies(r, INITIAL, es, true) == Replies(r, INITIAL, es, false)
      {
        TimelyRunUnseen(r, INITIAL, clock, es);
      }
    } else {
      ShortTtlShows(r);
    }
  }

  /** A burst of up to 31 times the per-minute limit is always within the bound. */
  lemma BurstOf31Minutes(r: Rule)
    requires r.Valid() && r.burst <= 31 * r.rate
    ensures ExpiryInvisible(r)
  {
    assert (BUCKET_TTL_MS + 1) * r.rate == 31 * r.rate * MINUTE_MS + r.rate;
    ExpiryInvisibleIff(r);
  }

  /**
   The deadline on settlements is needed: for every rule there is a run, with one settlement a
   millisecond late, in which the expired key drops the deduction.
   */
  lemma LateSettlementIsDropped(r: Rule, overuse: int)
    requires r.Valid() && overuse > 0
    ensures var es := [Check(0, 0, 1), Settle(0, BUCKET_TTL_MS + 1, 1 + overuse)];
            && Feasible(r, INITIAL, es, true) && Feasible(r, INITIAL, es, false)
            && Replies(r, INITIAL, es, true)[1] == Reply(false, 0)
            && Replies(r, INITIAL, es, false)[1] == Reply(true, 0)
            && After(r, INITIAL, es, false).bucket.Bucket? && After(r, INITIAL, es, true).bucket.Bucket?
            && After(r, INITIAL, es, false).bucket.tokens == After(r, INITIAL, es, true).bucket.tokens - overuse
  {
    var c, s := Check(0, 0, 1), Settle(0, BUCKET_TTL_MS + 1, 1 + overuse);
    var (m, _) := Step(r, INITIAL, c, true);
    assert Step(r, INITIAL, c, false) == Step(r, INITIAL, c, true);
    assert [c, s][1..] == [s];
    assert Feasible(r, m, [s], true) && Feasible(r, m, [s], false);
    assert Replies(r, m, [s], true) == [Step(r, m, s, true).1];
    assert Replies(r, m, [s], false) == [Step(r, m, s, false).1];
    assert After(r, m, [s], true) == Step(r, m, s, true).0;
    assert After(r, m, [s], false) == Step(r, m, s, false).0;
  }

  // ---------------------------------------------------------------------------------------------
  // Rollback
  // ---------------------------------------------------------------------------------------------

  /** Splitting a span of time can lose at most one token to rounding. */
  lemma RefillSplit(a: int, b: int, rate: int)
    ensures var whole, parts := Refill(a + b, rate), Refill(a, rate) + Refill(b, rate);
            whole - 1 <= parts <= whole
  {
    assert (a + b) * rate == a * rate + b * rate;
  }

  /**
   A reservation taken and given back in the same call, because a later gate denied the request,
   leaves a bucket that offers at every later time exactly what it would have offered otherwise,
   or one token less; never more.
   */
  lemma RollbackOffers(r: Rule, b: Bucket, now: int, request: int, later: int)
    requires r.Valid() && request > 0 && now <= later
    requires AfterCheck(r, b, now, request).1.allowed
    ensures var rolledBack := AfterSettle(r, AfterCheck(r, b, now, request).0, now, request);
            var offered, untouched := Available(r, rolledBack, later), Available(r, b, later);
            untouched - 1 <= offered <= untouched
  {
    RefillMonotone(0, later - now, r.rate);
    if b.Bucket? {
      RefillSplit(now - b.ts, later - now, r.rate);
      RefillMonotone(now - b.ts, later - b.ts, r.rate);
    }
  }

  // ---------------------------------------------------------------------------------------------
  // Rollback through expiry
  // ---------------------------------------------------------------------------------------------

  predicate Clocked(clock: int, es: seq<Event>)
    decreases |es|
  {
    es == [] || (clock <= es[0].now && Clocked(es[0].now, es[1..]))
  }

  function EndClock(clock: int, es: seq<Event>): int
    decreases |es|
  {
    if es == [] then clock else EndClock(es[0].now, es[1..])
  }

  /** At `now`, `b` reads as a bucket that some run of checks and settlements, late ones included, has left. */
  ghost predicate Reached(r: Rule, b: Bucket, now: int) {
    exists clock, es ::
      && Clocked(clock, es) && EndClock(clock, es) <= now && Feasible(r, INITIAL, es, true)
      && Alive(b, now) == Alive(After(r, INITIAL, es, true).bucket, now)
  }

  lemma {:induction false} RunOutlives(r: Rule, m: Machine, clock: int, es: seq<Event>)
    requires r.Valid() && Feasible(r, m, es, true) && Clocked(clock, es)
    requires Outlives(r, m.bucket) && (m.bucket.Bucket? ==> m.bucket.ts <= clock)
    ensures var b := After(r, m, es, true).bucket; Outlives(r, b) && (b.Bucket? ==> b.ts <= EndClock(clock, es))
    decreases |es|
  {
    if es != [] {
      var e, seen := es[0], Alive(m.bucket, es[0].now);
      match e {
        case Check(_, now, request) => CheckOutlives(r, seen, now, request);
        case Settle(id, now, actual) => SettleOutlives(r, seen, now, m.open[id].reserved - actual);
      }
      RunOutlives(r, Step(r, m, e, true).0, e.now, es[1..]);
    }
  }

  lemma ReachedOutlives(r: Rule, b: Bucket, now: int)
    requires r.Valid() && Reached(r, b, now)
    ensures Outlives(r, Alive(b, now)) && (Alive(b, now).Bucket? ==> b.ts <= now)
  {
    var clock, es :| Clocked(clock, es) && EndClock(clock, es) <= now && Feasible(r, INITIAL, es, true)
                     && Alive(b, now) == Alive(After(r, INITIAL, es, true).bucket, now);
    RunOutlives(r, INITIAL, clock, es);
  }

  /** With a burst that the base time to live refills, every bucket that is ever reached is full on expiry. */
  lemma ReachedIsFullOnExpiry(r: Rule, b: Bucket, now: int)
    requires r.Valid() && r.burst <= Refilled(r) && Reached(r, b, now)
    ensures FullOnExpiry(r, Alive(b, now))
  {
    ReachedOutlives(r, b, now);
    OutlivesIsFull(r, Alive(b, now));
  }

  /** A request admitted at `now` and rolled back at once costs at most one token at `later`, and gains none. */
  ghost predicate AtMostOneLess(r: Rule, b: Bucket, now: int, request: int, later: int) {
    var (reserved, reply) := AfterCheck(r, Alive(b, now), now, request);
    reply.allowed ==>
      var rolledBack := AfterSettle(r, reserved, now, request);
      var offered := Available(r, Alive(rolledBack, later), later);
      var untouched := Available(r, Alive(b, later), later);
      untouched - 1 <= offered <= untouched
  }

  /** Rolling back is that cheap for every bucket that checks and settlements reach, and at every later time. */
  ghost predicate RollbackIsCheap(r: Rule) {
    forall b, now, request, later ::
      Reached(r, b, now) && request > 0 && now <= later ==> AtMostOneLess(r, b, now, request, later)
  }

  /** No number of whole milliseconds leaves a larger fraction of a token than one millisecond does. */
  predicate EvenRefill(r: Rule) { MINUTE_MS % (MINUTE_MS - r.rate % MINUTE_MS) == 0 }

  /** The exact bound on the rule; the second part is for one burst only, and few rates. */
  predicate RollbackBound(r: Rule) {
    r.burst <= Refilled(r) || (r.burst == Refilled(r) + 1 && EvenRefill(r))
  }

  lemma RefilledIs(r: Rule)
    ensures Refilled(r) == 31 * r.rate + r.rate / MINUTE_MS
  {
    assert (BUCKET_TTL_MS + 1) * r.rate == 31 * r.rate * MINUTE_MS + r.rate;
  }

  lemma MultiplyOrder(g: int, a: int, b: int)
    requires g > 0 && a <= b
    ensures g * a <= g * b
  {
  }

  /** `x` is a multiple of `g` below `g * k`. */
  lemma LargestMultiple(x: int, g: int, z: int, k: int)
    requires g > 0 && x == g * z && x < g * k
    ensures x <= g * k - g
  {
    assert z < k by { if z >= k { MultiplyOrder(g, k, z); } }
    MultiplyOrder(g, z, k - 1);
  }

  lemma EvenFraction(r: Rule, n: int)
    requires EvenRefill(r)
    ensures n * r.rate % MINUTE_MS <= r.rate % MINUTE_MS
  {
    var c, g := r.rate / MINUTE_MS, MINUTE_MS - r.rate % MINUTE_MS;
    var k := MINUTE_MS / g;
    var q, x := n * r.rate / MINUTE_MS, n * r.rate % MINUTE_MS;
    assert g * k == MINUTE_MS;
    assert r.rate == g * k * (c + 1) - g;
    calc {
      x;
      n * r.rate - g * k * q;
      n * (g * k * (c + 1) - g) - g * k * q;
      g * (n * k * (c + 1) - n - k * q);
    }
    LargestMultiple(x, g, n * k * (c + 1) - n - k * q, k);
  }

  /** At any other rate some number of milliseconds does leave a larger fraction. */
  lemma UnevenFraction(r: Rule) returns (n: nat)
    requires !EvenRefill(r)
    ensures n <= MINUTE_MS && n * r.rate % MINUTE_MS > r.rate % MINUTE_MS
  {
    var c, g := r.rate / MINUTE_MS, MINUTE_MS - r.rate % MINUTE_MS;
    n := MINUTE_MS / g + 1;
    var s := g - MINUTE_MS % g;
    assert n * g == MINUTE_MS + s by { assert g * (MINUTE_MS / g) + MINUTE_MS % g == MINUTE_MS; }
    assert r.rate == MINUTE_MS * (c + 1) - g;
    calc {
      n * r.rate;
      n * (MINUTE_MS * (c + 1) - g);
      MINUTE_MS * (n * (c + 1)) - n * g;
      MINUTE_MS * (n * (c + 1) - 2) + (MINUTE_MS - s);
    }
    Remainder(n * r.rate, n * (c + 1) - 2, MINUTE_MS - s);
    assert g > 1;
  }

  lemma Remainder(n: int, q: int, x: int)
    requires n == MINUTE_MS * q + x && 0 <= x < MINUTE_MS
    ensures n % MINUTE_MS == x && n / MINUTE_MS == q
  {
  }

  /** A bucket rolled back at `now`, where `seen` was found. */
  lemma RolledBackIs(r: Rule, seen: Bucket, now: int, request: int)
    requires request > 0 && AfterCheck(r, seen, now, request).1.allowed
    ensures var a := Available(r, seen, now);
            AfterSettle(r, AfterCheck(r, seen, now, request).0, now, request) == Bucket(a, now, now + BUCKET_TTL_MS)
  {
  }

  lemma PastExpiry(ts: int, now: int, expireAt: int, later: int, rate: int)
    requires rate >= 0 && expireAt < later
    ensures (now - ts) * rate + (later - now) * rate >= (expireAt + 1 - ts) * rate
  {
    assert (now - ts) * rate + (later - now) * rate == (later - ts) * rate;
    assert (later - ts) * rate >= (expireAt + 1 - ts) * rate;
  }

  /** The untouched bucket has expired and reads full; the rolled-back one is short of that by at most one. */
  lemma ExpiredUntouched(r: Rule, b: Bucket, now: int, later: int)
    requires r.Valid() && RollbackBound(r) && b.Bucket? && Outlives(r, b) && b.ts <= now <= b.expireAt < later
    ensures Available(r, b, now) + Refill(later - now, r.rate) >= r.burst - 1
  {
    var p, q := (now - b.ts) * r.rate, (later - now) * r.rate;
    RefillMonotone(0, later - now, r.rate);
    PastExpiry(b.ts, now, b.expireAt, later, r.rate);
    if r.burst <= Refilled(r) {
      OwedAndRefilled(b.tokens, p + q, (BUCKET_TTL_MS + 1) * r.rate);
      RefillSplit(now - b.ts, later - now, r.rate);
    } else {
      EvenFraction(r, now - b.ts);
      RefilledIs(r);
      SplitLosesNothing(b.tokens, p, q, r.rate);
    }
  }

  lemma SplitLosesNothing(tokens: int, p: int, q: int, rate: int)
    requires tokens * MINUTE_MS + p + q >= (BUCKET_TTL_MS + 1) * rate && p % MINUTE_MS <= rate % MINUTE_MS
    ensures tokens + p / MINUTE_MS + q / MINUTE_MS >= 31 * rate + rate / MINUTE_MS
  {
  }

  /** The rolled-back bucket has expired and reads full; so does the untouched one. */
  lemma ExpiredRolledBack(r: Rule, b: Bucket, now: int, later: int)
    requires r.Valid() && RollbackBound(r) && b.Bucket? && Available(r, b, now) >= 1 && now + BUCKET_TTL_MS < later
    ensures Available(r, b, later) == r.burst
  {
    RefillMonotone(BUCKET_TTL_MS + 1, later - now, r.rate);
    RefillSplit(now - b.ts, later - now, r.rate);
  }

  /** Within the bound, a rollback costs at most one token at every later time, and never gains any. */
  lemma RollbackOffersThroughExpiry(r: Rule, b: Bucket, now: int, request: int, later: int)
    requires r.Valid() && RollbackBound(r) && Reached(r, b, now) && request > 0 && now <= later
    ensures AtMostOneLess(r, b, now, request, later)
  {
    var seen := Alive(b, now);
    ReachedOutlives(r, b, now);
    if AfterCheck(r, seen, now, request).1.allowed {
      RolledBackIs(r, seen, now, request);
      RefillMonotone(0, later - now, r.rate);
      if seen.Bucket? {
        if later > b.expireAt {
          ExpiredUntouched(r, b, now, later);
        } else if later > now + BUCKET_TTL_MS {
          ExpiredRolledBack(r, b, now, later);
        } else {
          RollbackOffers(r, b, now, request, later);
        }
      }
    }
  }

  /** A request for one token is rolled back at `now` from a bucket that some run reaches. */
  ghost predicate RolledBackFrom(r: Rule, b: Bucket, now: int, later: int) {
    Reached(r, b, now) && 0 <= now <= later && AfterCheck(r, Alive(b, now), now, 1).1.allowed
  }

  /** What that makes of the tokens offered at `later`. */
  ghost function Differs(r: Rule, b: Bucket, now: int, later: int): int {
    if !RolledBackFrom(r, b, now, later) then 0
    else
      var rolledBack := AfterSettle(r, AfterCheck(r, Alive(b, now), now, 1).0, now, 1);
      Available(r, Alive(rolledBack, later), later) - Available(r, Alive(b, later), later)
  }

  lemma DiffersIsNotCheap(r: Rule, b: Bucket, now: int, later: int)
    requires Differs(r, b, now, later) <= -2 || Differs(r, b, now, later) > 0
    ensures RolledBackFrom(r, b, now, later) && !AtMostOneLess(r, b, now, 1, later)
  {
  }

  /** The bucket that one check for the whole burst leaves, and that a first settlement of it leaves. */
  lemma EmptiedIsReached(r: Rule, now: int)
    requires r.Valid() && now >= 0
    ensures Reached(r, Bucket(0, 0, BUCKET_TTL_MS), now)
  {
    var es := [Check(0, 0, r.burst)];
    assert es[1..] == [] && Clocked(0, []) && EndClock(0, []) == 0;
    assert Clocked(0, es) && EndClock(0, es) == 0;
    assert Feasible(r, INITIAL, es, true);
    assert After(r, INITIAL, es, true) == Step(r, INITIAL, es[0], true).0;
  }

  /** Past the bound, a rollback shortly after the bucket was emptied takes away two tokens or more. */
  lemma RollbackOffersFarLess(r: Rule)
    requires r.Valid() && !RollbackBound(r)
    ensures exists b, now, later :: Differs(r, b, now, later) <= -2
  {
    var n: nat := 0;
    if r.burst == Refilled(r) + 1 { n := UnevenFraction(r); }
    var b, now, later := Bucket(0, 0, BUCKET_TTL_MS), n + MINUTE_MS, BUCKET_TTL_MS + 1;
    EmptiedIsReached(r, now);
    MinuteLater(n, r.rate);
    RefilledIs(r);
    RefillMonotone(0, n, r.rate);
    assert Available(r, b, now) >= 1;
    RolledBackIs(r, b, now, 1);
    var rolledBack := AfterSettle(r, AfterCheck(r, Alive(b, now), now, 1).0, now, 1);
    LossAt(n, r.rate);
    assert Available(r, Alive(rolledBack, later), later) <= Refill(now, r.rate) + Refill(later - now, r.rate);
    assert Available(r, Alive(b, later), later) == r.burst;
    assert Differs(r, b, now, later) <= -2;
  }

  lemma MinuteLater(n: nat, rate: int)
    ensures Refill(n + MINUTE_MS, rate) == Refill(n, rate) + rate
  {
    assert (n + MINUTE_MS) * rate == n * rate + rate * MINUTE_MS;
  }

  /** Splitting the base time to live `n` ms past a minute loses a token exactly if the fraction left is larger. */
  lemma LossAt(n: nat, rate: int)
    ensures Refill(n + MINUTE_MS, rate) + Refill(BUCKET_TTL_MS + 1 - (n + MINUTE_MS), rate) ==
            31 * rate + rate / MINUTE_MS - (if n * rate % MINUTE_MS > rate % MINUTE_MS then 1 else 0)
  {
    MinuteLater(n, rate);
    assert (BUCKET_TTL_MS + 1 - (n + MINUTE_MS)) * rate == 30 * rate * MINUTE_MS + (rate - n * rate);
    assert (30 * rate * MINUTE_MS + (rate - n * rate)) / MINUTE_MS == 30 * rate + (rate - n * rate) / MINUTE_MS;
  }

  /** The bucket after a settlement at two minutes into a debt that leaves it exactly one token to offer. */
  function InDebt(r: Rule): (b: Bucket)
    requires r.Valid()
    ensures b.Bucket? && b.expireAt > 2 * MINUTE_MS + BUCKET_TTL_MS
  {
    CeilDivBounds((2 * r.rate - 1) * MINUTE_MS, r.rate);
    AfterSettle(r, Bucket(0, 0, BUCKET_TTL_MS), 2 * MINUTE_MS, 1 - 2 * r.rate)
  }

  lemma DebtIsReached(r: Rule)
    requires r.Valid()
    ensures Reached(r, InDebt(r), 2 * MINUTE_MS) && InDebt(r).tokens == 1 - 2 * r.rate && InDebt(r).ts == 0
  {
    var now := 2 * MINUTE_MS;
    var check, settle := Check(0, 0, r.burst), Settle(0, now, r.burst + 2 * r.rate - 1);
    var m := Step(r, INITIAL, check, true).0;
    var es := [check, settle];
    assert es[1..] == [settle] && [settle][1..] == [];
    assert m.bucket == Bucket(0, 0, BUCKET_TTL_MS);
    assert Clocked(now, []) && EndClock(now, []) == now && Clocked(0, [settle]) && EndClock(0, [settle]) == now;
    assert Clocked(0, es) && EndClock(0, es) == now;
    assert Feasible(r, m, [settle], true) && Feasible(r, INITIAL, es, true);
    assert After(r, INITIAL, es, true) == After(r, m, [settle], true) == Step(r, m, settle, true).0;
  }

  /**
   Past the bound and that one burst, rolling back a request in debt shortens the life of the debt and
   gains tokens.
   */
  lemma RollbackOffersMore(r: Rule)
    requires r.Valid() && r.burst > Refilled(r) + 1
    ensures exists b, now, later :: Differs(r, b, now, later) > 0
  {
    var now := 2 * MINUTE_MS;
    var later := now + BUCKET_TTL_MS + 1;
    var b := InDebt(r);
    DebtIsReached(r);
    assert Refill(now, r.rate) == 2 * r.rate;
    RolledBackIs(r, b, now, 1);
    assert later * r.rate == 2 * r.rate * MINUTE_MS + (BUCKET_TTL_MS + 1) * r.rate;
    assert Refill(later, r.rate) == 2 * r.rate + Refilled(r);
    var rolledBack := AfterSettle(r, AfterCheck(r, Alive(b, now), now, 1).0, now, 1);
    assert Available(r, Alive(rolledBack, later), later) == r.burst;
    assert Available(r, Alive(b, later), later) == 1 + Refilled(r);
    assert Differs(r, b, now, later) > 0;
  }

  /** Rolling back is cheap exactly within the bound. */
  lemma RollbackIsCheapIff(r: Rule)
    requires r.Valid()
    ensures RollbackIsCheap(r) <==> RollbackBound(r)
  {
    if RollbackBound(r) {
      forall b, now, request, later | Reached(r, b, now) && request > 0 && now <= later
        ensures AtMostOneLess(r, b, now, request, later)
      {
        RollbackOffersThroughExpiry(r, b, now, request, later);
      }
    } else {
      RollbackOffersFarLess(r);
      var b, now, later :| Differs(r, b, now, later) <= -2;
      DiffersIsNotCheap(r, b, now, later);
    }
  }
}
