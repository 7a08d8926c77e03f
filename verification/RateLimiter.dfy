/**
 Admission of one request against several rules, each with up to three gates (window, token
 bucket, stream semaphore), and the rollback of everything a request took when a later gate
 denies it.
 */
module RateLimiter {
  import opened Basics
  import opened SlidingWindow
  import TokenBucket

  /** A rule as read from the database; a limit that is not set leaves its gate out. */
  datatype Rule = Rule(id: nat, subject: nat, rpm: Option<int>, tpm: Option<int>, burst: Option<int>,
                       streams: Option<int>)
  {
    /** Every key of a rule is built from its id and its subject. */
    function Key(): (nat, nat) { (id, subject) }

    /** The bucket of the rule; an absent or zero burst falls back to the per-minute limit. */
    function Bucket(): TokenBucket.Rule
      requires tpm.Some?
    {
      TokenBucket.Rule(if burst.Some? && burst.value != 0 then burst.value else tpm.value, tpm.value)
    }

    /** The bounds that the rule schema puts on the token limits. */
    ghost predicate Valid() {
      (tpm.Some? ==> tpm.value >= 1) && (burst.Some? ==> burst.value >= 1)
    }
  }

  type Key = (nat, nat)

  datatype Outcome =
    | Allowed
    | RpmExceeded(retryAfter: int)
    | TpmExceeded
    | StreamsExceeded

  function SetAt(m: map<Key, SortedSet>, k: Key): SortedSet {
    if k in m then m[k] else EMPTY_SET
  }

  function BucketAt(m: map<Key, TokenBucket.Bucket>, k: Key): TokenBucket.Bucket {
    if k in m then m[k] else TokenBucket.Missing
  }

  ghost predicate DistinctKeys(rules: seq<Rule>) {
    forall i, j :: 0 <= i < j < |rules| ==> rules[i].Key() != rules[j].Key()
  }

  /** `m` is in no set of `sets`. */
  ghost predicate Nowhere(sets: map<Key, SortedSet>, m: Member) {
    forall k :: m !in SetAt(sets, k).scores
  }

  /**
   A set as it was, apart from entries that no longer counted at `now`, and perhaps with the time to
   live of an addition at `now`.
   */
  ghost predicate Restored(before: SortedSet, after: SortedSet, now: int, keep: Retention) {
    || after == before
    || (after.scores == Newer(Alive(before, now), now - keep.span)
        && (after.expireAt == before.expireAt || after.expireAt == now + keep.ttl))
  }

  /** A set that one script found full: only what no longer counts is gone, and the key lives no longer. */
  ghost predicate Swept(before: SortedSet, after: SortedSet, now: int, keep: Retention) {
    after == SortedSet(Newer(Alive(before, now), now - keep.span), before.expireAt)
  }

  /** A set to which one script has just added `m`. */
  ghost predicate Taken(before: SortedSet, after: SortedSet, now: int, keep: Retention, m: Member) {
    after == SortedSet(Newer(Alive(before, now), now - keep.span)[m := now], now + keep.ttl)
  }

  ghost function KeysOf(rules: seq<Rule>): set<Key> {
    set r <- rules :: r.Key()
  }

  /** Sets before any denial: one script added `m` under each key in `taken`, the rest is untouched. */
  ghost predicate Midway(before: map<Key, SortedSet>, after: map<Key, SortedSet>, now: int, keep: Retention,
                         m: Member, taken: set<Key>)
  {
    forall k :: if k in taken then Taken(SetAt(before, k), SetAt(after, k), now, keep, m)
                else SetAt(after, k) == SetAt(before, k)
  }

  /** Sets after a denial, where the gate under `refused` has removed what left the span. */
  ghost predicate AfterDenial(before: map<Key, SortedSet>, after: map<Key, SortedSet>, now: int, keep: Retention,
                          m: Member, taken: set<Key>)
  {
    forall k :: if k in taken then Taken(SetAt(before, k), SetAt(after, k), now, keep, m)
                else Restored(SetAt(before, k), SetAt(after, k), now, keep)
  }

  lemma MidwayIsAfterDenial(before: map<Key, SortedSet>, after: map<Key, SortedSet>, now: int, keep: Retention,
                            m: Member, taken: set<Key>)
    requires Midway(before, after, now, keep, m, taken)
    ensures AfterDenial(before, after, now, keep, m, taken)
  {
  }

  /** Every set restored: `m` is nowhere, and nothing else is missing except what had expired. */
  ghost predicate AllRestored(before: map<Key, SortedSet>, after: map<Key, SortedSet>, now: int, keep: Retention) {
    forall k :: Restored(SetAt(before, k), SetAt(after, k), now, keep)
  }

  /** The effect of `ZREM m` on the keys in `keys`. */
  ghost predicate Removed(before: map<Key, SortedSet>, after: map<Key, SortedSet>, m: Member, keys: set<Key>) {
    forall k :: SetAt(after, k) == if k in keys then AfterRemove(SetAt(before, k), m) else SetAt(before, k)
  }

  lemma RemovalRestores(before: SortedSet, after: SortedSet, now: int, keep: Retention, m: Member)
    requires m !in before.scores
    requires Taken(before, after, now, keep, m) || Restored(before, after, now, keep)
    ensures Restored(before, AfterRemove(after, m), now, keep)
  {
    var kept := Newer(Alive(before, now), now - keep.span);
    assert kept[m := now] - {m} == kept;
    assert kept - {m} == kept;
    assert before.scores - {m} == before.scores;
  }

  /** Removing `m` wherever it was taken, and perhaps elsewhere too, restores every set. */
  lemma RollbackRestores(before: map<Key, SortedSet>, mid: map<Key, SortedSet>, after: map<Key, SortedSet>, now: int,
                         keep: Retention, m: Member, taken: set<Key>, keys: set<Key>)
    requires Nowhere(before, m) && taken <= keys
    requires AfterDenial(before, mid, now, keep, m, taken) && Removed(mid, after, m, keys)
    ensures AllRestored(before, after, now, keep) && Nowhere(after, m)
  {
    forall k ensures Restored(SetAt(before, k), SetAt(after, k), now, keep) && m !in SetAt(after, k).scores {
      assert m !in SetAt(before, k).scores;
      if k in keys {
        RemovalRestores(SetAt(before, k), SetAt(mid, k), now, keep, m);
      }
    }
  }

  /** `after` is `mid` but for one key. */
  ghost predicate OnlyAt(mid: map<Key, SortedSet>, after: map<Key, SortedSet>, k: Key) {
    forall x :: x != k ==> SetAt(after, x) == SetAt(mid, x)
  }

  lemma GateTakes(before: map<Key, SortedSet>, mid: map<Key, SortedSet>, after: map<Key, SortedSet>, now: int,
                  keep: Retention, m: Member, taken: set<Key>, k: Key)
    requires Midway(before, mid, now, keep, m, taken) && k !in taken && OnlyAt(mid, after, k)
    requires Taken(SetAt(mid, k), SetAt(after, k), now, keep, m)
    ensures Midway(before, after, now, keep, m, taken + {k})
  {
  }

  lemma GateRefuses(before: map<Key, SortedSet>, mid: map<Key, SortedSet>, after: map<Key, SortedSet>, now: int,
                    keep: Retention, m: Member, taken: set<Key>, k: Key)
    requires Midway(before, mid, now, keep, m, taken) && k !in taken && OnlyAt(mid, after, k)
    requires Swept(SetAt(mid, k), SetAt(after, k), now, keep)
    ensures AfterDenial(before, after, now, keep, m, taken)
  {
  }

  /** A reservation of `estimate` tokens stands in `after`. */
  ghost predicate Reserved(r: TokenBucket.Rule, before: TokenBucket.Bucket, after: TokenBucket.Bucket, now: int,
                           estimate: int)
  {
    var (reserved, reply) := TokenBucket.AfterCheck(r, TokenBucket.Alive(before, now), now, estimate);
    reply.allowed && after == reserved
  }

  /** A reservation was taken and given back at `now`. */
  ghost predicate GivenBack(r: TokenBucket.Rule, before: TokenBucket.Bucket, after: TokenBucket.Bucket, now: int,
                            estimate: int)
  {
    var (reserved, reply) := TokenBucket.AfterCheck(r, TokenBucket.Alive(before, now), now, estimate);
    reply.allowed && after == TokenBucket.AfterSettle(r, reserved, now, estimate)
  }

  /** Buckets before any denial: reservations stand for the rules in `taken` and for no other. */
  ghost predicate BucketsMidway(before: map<Key, TokenBucket.Bucket>, after: map<Key, TokenBucket.Bucket>, now: int,
                                estimate: int, taken: seq<Rule>)
  {
    && (forall r <- taken ::
          r.tpm.Some? && Reserved(r.Bucket(), BucketAt(before, r.Key()), BucketAt(after, r.Key()), now, estimate))
    && (forall k :: k !in KeysOf(taken) ==> BucketAt(after, k) == BucketAt(before, k))
  }

  /** The keys under which rules have a bucket that a request for `estimate` tokens is checked against. */
  ghost function BucketKeys(rules: seq<Rule>, estimate: int): set<Key> {
    if estimate > 0 then TpmKeys(rules) else {}
  }

  ghost function TpmKeys(rules: seq<Rule>): set<Key> {
    set r <- rules | r.tpm.Some? :: r.Key()
  }

  /** Buckets after a rollback: what the rules in `passed` reserved is given back, and the rest was never touched. */
  ghost predicate AllGivenBack(before: map<Key, TokenBucket.Bucket>, after: map<Key, TokenBucket.Bucket>, now: int,
                               estimate: int, passed: seq<Rule>)
  {
    && (forall r <- passed :: r.tpm.Some? && estimate > 0 ==>
          GivenBack(r.Bucket(), BucketAt(before, r.Key()), BucketAt(after, r.Key()), now, estimate))
    && (forall k :: k !in BucketKeys(passed, estimate) ==> BucketAt(after, k) == BucketAt(before, k))
  }

  /** Buckets after an admission: every rule holds its reservation, and no other bucket was touched. */
  ghost predicate AllReserved(before: map<Key, TokenBucket.Bucket>, after: map<Key, TokenBucket.Bucket>, now: int,
                              estimate: int, rules: seq<Rule>)
  {
    && (forall r <- rules :: r.tpm.Some? && estimate > 0 ==>
          Reserved(r.Bucket(), BucketAt(before, r.Key()), BucketAt(after, r.Key()), now, estimate))
    && (forall k :: k !in BucketKeys(rules, estimate) ==> BucketAt(after, k) == BucketAt(before, k))
  }

  /** Rule keys are distinct, so a rule is known by its key. */
  lemma SameKeySameRule(rules: seq<Rule>, a: Rule, b: Rule)
    requires DistinctKeys(rules) && a in rules && b in rules && a.Key() == b.Key()
    ensures a == b
  {
    var i :| 0 <= i < |rules| && rules[i] == a;
    var j :| 0 <= j < |rules| && rules[j] == b;
  }

  ghost function WindowKeys(rules: seq<Rule>): set<Key> {
    set r <- rules | r.rpm.Some? :: r.Key()
  }

  lemma OneMoreWindow(rules: seq<Rule>, r: Rule)
    requires r.rpm.Some?
    ensures WindowKeys(rules + [r]) == WindowKeys(rules) + {r.Key()}
  {
  }

  ghost function SemaphoreKeys(rules: seq<Rule>): set<Key> {
    set r <- rules | r.streams.Some? :: r.Key()
  }

  /** What settling the rules of a request does to the buckets. */
  ghost predicate Settled(before: map<Key, TokenBucket.Bucket>, after: map<Key, TokenBucket.Bucket>, now: int,
                          rules: seq<Rule>, delta: int)
  {
    && (forall r <- rules :: r.tpm.Some? ==>
          BucketAt(after, r.Key()) ==
          TokenBucket.AfterSettle(r.Bucket(), TokenBucket.Alive(BucketAt(before, r.Key()), now), now, delta))
    && (forall k :: k !in TpmKeys(rules) ==> BucketAt(after, k) == BucketAt(before, k))
  }

  /** Reservations stand for exactly those of the rules in `done` that have a token limit. */
  ghost predicate BucketsTaken(before: map<Key, TokenBucket.Bucket>, after: map<Key, TokenBucket.Bucket>, now: int,
                               estimate: int, done: seq<Rule>, taken: seq<Rule>)
  {
    && BucketsMidway(before, after, now, estimate, taken)
    && (forall r <- taken :: r in done)
    && DistinctKeys(taken) && (taken != [] ==> estimate > 0)
    && (estimate > 0 ==> forall r <- done :: r.tpm.Some? ==> r in taken)
  }

  lemma TakenKeys(before: map<Key, TokenBucket.Bucket>, after: map<Key, TokenBucket.Bucket>, now: int, estimate: int,
                  done: seq<Rule>, taken: seq<Rule>)
    requires BucketsTaken(before, after, now, estimate, done, taken)
    ensures KeysOf(taken) == TpmKeys(taken) == BucketKeys(done, estimate)
  {
  }

  lemma TakenIsReserved(before: map<Key, TokenBucket.Bucket>, after: map<Key, TokenBucket.Bucket>, now: int,
                        estimate: int, rules: seq<Rule>, taken: seq<Rule>)
    requires BucketsTaken(before, after, now, estimate, rules, taken)
    ensures AllReserved(before, after, now, estimate, rules)
  {
    TakenKeys(before, after, now, estimate, rules, taken);
  }

  /** Settling what was taken by the whole estimate gives all of it back and touches no other bucket. */
  lemma SettlementRepays(before: map<Key, TokenBucket.Bucket>, mid: map<Key, TokenBucket.Bucket>,
                         after: map<Key, TokenBucket.Bucket>, now: int, estimate: int, passed: seq<Rule>,
                         taken: seq<Rule>)
    requires BucketsTaken(before, mid, now, estimate, passed, taken) && Settled(mid, after, now, taken, estimate)
    ensures AllGivenBack(before, after, now, estimate, passed)
  {
    TakenKeys(before, mid, now, estimate, passed, taken);
    forall r <- passed | r.tpm.Some? && estimate > 0
      ensures GivenBack(r.Bucket(), BucketAt(before, r.Key()), BucketAt(after, r.Key()), now, estimate)
    {
      assert r in taken;
      assert Reserved(r.Bucket(), BucketAt(before, r.Key()), BucketAt(mid, r.Key()), now, estimate);
    }
  }

  ghost predicate WindowOpen(windows: map<Key, SortedSet>, r: Rule, now: int) {
    r.rpm.Some? ==> WindowAdmits(SetAt(windows, r.Key()), now, r.rpm.value)
  }

  ghost predicate BucketOpen(buckets: map<Key, TokenBucket.Bucket>, r: Rule, now: int, estimate: int) {
    r.tpm.Some? && estimate > 0 ==>
      TokenBucket.Available(r.Bucket(), TokenBucket.Alive(BucketAt(buckets, r.Key()), now), now) >= estimate
  }

  ghost predicate SemaphoreOpen(semaphores: map<Key, SortedSet>, r: Rule, now: int, isStream: bool) {
    r.streams.Some? && isStream ==> SemaphoreAdmits(SetAt(semaphores, r.Key()), now, r.streams.value)
  }

  ghost predicate RuleOpen(windows: map<Key, SortedSet>, buckets: map<Key, TokenBucket.Bucket>,
                           semaphores: map<Key, SortedSet>, r: Rule, now: int, estimate: int, isStream: bool)
  {
    WindowOpen(windows, r, now) && BucketOpen(buckets, r, now, estimate) && SemaphoreOpen(semaphores, r, now, isStream)
  }

  /** Every gate that the request meets would let it through. */
  ghost predicate AllOpen(windows: map<Key, SortedSet>, buckets: map<Key, TokenBucket.Bucket>,
                          semaphores: map<Key, SortedSet>, rules: seq<Rule>, now: int, estimate: int, isStream: bool)
  {
    forall r <- rules :: RuleOpen(windows, buckets, semaphores, r, now, estimate, isStream)
  }

  ghost function SlotKeys(rules: seq<Rule>, isStream: bool): set<Key> {
    if isStream then SemaphoreKeys(rules) else {}
  }

  /** The window of `r` is full and `seconds` is the wait it names. */
  ghost predicate NamedByFullWindow(windows: map<Key, SortedSet>, r: Rule, now: int, seconds: int) {
    && r.rpm.Some? && !WindowOpen(windows, r, now)
    && exists oldest ::
         && IsOldest(Newer(Alive(SetAt(windows, r.Key()), now), now - WINDOW_MS), oldest)
         && seconds == RetryAfter(oldest, now)
  }

  lemma FullWindowNames(windows: map<Key, SortedSet>, r: Rule, now: int, after: SortedSet, oldest: int)
    requires r.rpm.Some? && !WindowOpen(windows, r, now) && IsOldest(after.scores, oldest)
    requires after.scores == Newer(Alive(SetAt(windows, r.Key()), now), now - WINDOW_MS)
    ensures NamedByFullWindow(windows, r, now, RetryAfter(oldest, now))
  {
  }

  lemma NamedAsBefore(before: map<Key, SortedSet>, mid: map<Key, SortedSet>, r: Rule, now: int, seconds: int)
    requires SetAt(mid, r.Key()) == SetAt(before, r.Key()) && NamedByFullWindow(mid, r, now, seconds)
    ensures NamedByFullWindow(before, r, now, seconds)
  {
  }

  /** Every entry is from the past and outlived by its key, and exactly `limit` of them count. */
  ghost predicate Full(s: SortedSet, now: int, limit: int) {
    && |Newer(Alive(s, now), now - WINDOW_MS)| == limit
    && forall m <- s.scores :: 0 <= s.scores[m] <= now && s.scores[m] + WINDOW_TTL_MS <= s.expireAt
  }

  /** If nobody else is admitted, the window has a slot after `wait` seconds and not a whole second sooner. */
  ghost predicate LeastWait(s: SortedSet, now: int, limit: int, wait: int) {
    wait >= 1 && forall seconds :: seconds >= 1 ==> (WindowAdmits(s, now + 1000 * seconds, limit) <==> wait <= seconds)
  }

  lemma FullWindowWaits(s: SortedSet, now: int, limit: int, m: Member, oldest: int)
    requires limit >= 1 && Full(s, now, limit) && IsOldest(AfterWindowCheck(s, now, limit, m).scores, oldest)
    ensures LeastWait(AfterWindowCheck(s, now, limit, m), now, limit, RetryAfter(oldest, now))
  {
    forall seconds | seconds >= 1
      ensures WindowAdmits(AfterWindowCheck(s, now, limit, m), now + 1000 * seconds, limit)
              <==> RetryAfter(oldest, now) <= seconds
    {
      RetryAfterIsLeast(s, now, limit, m, oldest, seconds);
    }
    RetryAfterIsLeast(s, now, limit, m, oldest, 1);
  }

  /** `outcome` names the first gate of `r` that is closed, if there is one. */
  ghost predicate Names(windows: map<Key, SortedSet>, buckets: map<Key, TokenBucket.Bucket>,
                        semaphores: map<Key, SortedSet>, r: Rule, now: int, estimate: int, isStream: bool,
                        outcome: Outcome)
  {
    match outcome
    case RpmExceeded(retryAfter) => NamedByFullWindow(windows, r, now, retryAfter)
    case TpmExceeded => WindowOpen(windows, r, now) && !BucketOpen(buckets, r, now, estimate)
    case StreamsExceeded =>
      && WindowOpen(windows, r, now) && BucketOpen(buckets, r, now, estimate)
      && !SemaphoreOpen(semaphores, r, now, isStream)
    case Allowed => RuleOpen(windows, buckets, semaphores, r, now, estimate, isStream)
  }

  /** The gate of rule `i` finds its set as it was before the request. */
  lemma Untouched(before: map<Key, SortedSet>, mid: map<Key, SortedSet>, now: int, keep: Retention, m: Member,
                  taken: set<Key>, k: Key)
    requires Midway(before, mid, now, keep, m, taken) && k !in taken
    ensures SetAt(mid, k) == SetAt(before, k)
  {
  }

  /** How many rules have let a request past their bucket that was denied at rule `i`. */
  function PastBuckets(i: nat, outcome: Outcome): nat { if outcome.StreamsExceeded? then i + 1 else i }

  /** A request's rules and numbers, and the keys as it finds them. */
  datatype Attempt = Attempt(windows: map<Key, SortedSet>, buckets: map<Key, TokenBucket.Bucket>,
                             semaphores: map<Key, SortedSet>, rules: seq<Rule>, now: int, estimate: int,
                             isStream: bool)

  /** A denial with this outcome, and what it leaves of the buckets: they are only touched as far as it came. */
  ghost predicate Denied(a: Attempt, outcome: Outcome, after: map<Key, TokenBucket.Bucket>) {
    !outcome.Allowed? && exists i :: 0 <= i < |a.rules| && DeniedAt(a, i, outcome, after)
  }

  ghost predicate DeniedAt(a: Attempt, i: nat, outcome: Outcome, after: map<Key, TokenBucket.Bucket>)
    requires i < |a.rules|
  {
    && AllOpen(a.windows, a.buckets, a.semaphores, a.rules[..i], a.now, a.estimate, a.isStream)
    && Names(a.windows, a.buckets, a.semaphores, a.rules[i], a.now, a.estimate, a.isStream, outcome)
    && AllGivenBack(a.buckets, after, a.now, a.estimate, a.rules[..PastBuckets(i, outcome)])
  }

  /** What a running check has taken: windows, reservations, and whether any stream slot. */
  datatype Taking = Taking(rpm: seq<Rule>, tpm: seq<Rule>, stream: bool)

  /** The Redis keys that admission control uses. */
  class Store {
    var windows: map<Key, SortedSet>
    var buckets: map<Key, TokenBucket.Bucket>
    var semaphores: map<Key, SortedSet>

    constructor ()
      ensures windows == map[] && buckets == map[] && semaphores == map[]
    {
      windows, buckets, semaphores := map[], map[], map[];
    }

    /** `release_rpm`: takes `m` out of the windows of `rules`. */
    method ReleaseRpm(m: Member, rules: seq<Rule>)
      modifies `windows
      ensures Removed(old(windows), windows, m, WindowKeys(rules))
    {
      for i := 0 to |rules|
        invariant Removed(old(windows), windows, m, WindowKeys(rules[..i]))
      {
        var k := rules[i].Key();
        assert rules[..i + 1] == rules[..i] + [rules[i]];
        assert WindowKeys(rules[..i + 1]) == WindowKeys(rules[..i]) + (if rules[i].rpm.Some? then {k} else {});
        if rules[i].rpm.Some? {
          windows := windows[k := AfterRemove(SetAt(windows, k), m)];
        }
      }
      assert rules[..|rules|] == rules;
    }

    /** `release_concurrent`: takes `m` out of the semaphores of `rules`. */
    method ReleaseConcurrent(m: Member, rules: seq<Rule>)
      modifies `semaphores
      ensures Removed(old(semaphores), semaphores, m, SemaphoreKeys(rules))
    {
      for i := 0 to |rules|
        invariant Removed(old(semaphores), semaphores, m, SemaphoreKeys(rules[..i]))
      {
        var k := rules[i].Key();
        assert rules[..i + 1] == rules[..i] + [rules[i]];
        assert SemaphoreKeys(rules[..i + 1]) ==
               SemaphoreKeys(rules[..i]) + (if rules[i].streams.Some? then {k} else {});
        if rules[i].streams.Some? {
          semaphores := semaphores[k := AfterRemove(SetAt(semaphores, k), m)];
        }
      }
      assert rules[..|rules|] == rules;
    }

    /** `settle_tpm` on the buckets of distinct rules. */
    method SettleTpm(now: int, rules: seq<Rule>, delta: int)
      requires DistinctKeys(rules)
      modifies `buckets
      ensures delta == 0 ==> buckets == old(buckets)
      ensures delta != 0 ==> Settled(old(buckets), buckets, now, rules, delta)
    {
      if delta == 0 {
        return;
      }
      for i := 0 to |rules|
        invariant Settled(old(buckets), buckets, now, rules[..i], delta)
      {
        var k := rules[i].Key();
        assert rules[..i + 1] == rules[..i] + [rules[i]];
        assert TpmKeys(rules[..i + 1]) == TpmKeys(rules[..i]) + (if rules[i].tpm.Some? then {k} else {});
        assert k !in TpmKeys(rules[..i]);
        if rules[i].tpm.Some? {
          var bucket := TokenBucket.SettleScript(rules[i].Bucket(), BucketAt(buckets, k), now, delta);
          buckets := buckets[k := bucket];
        }
      }
      assert rules[..|rules|] == rules;
    }

    /** Gives back everything a denied request took. */
    method Rollback(now: int, m: Member, rules: seq<Rule>, estimate: int, taken: Taking,
                    ghost windows0: map<Key, SortedSet>, ghost buckets0: map<Key, TokenBucket.Bucket>,
                    ghost semaphores0: map<Key, SortedSet>, ghost slots: set<Key>, ghost passed: seq<Rule>)
      requires Nowhere(windows0, m) && Nowhere(semaphores0, m)
      requires AfterDenial(windows0, windows, now, WINDOW, m, WindowKeys(taken.rpm))
      requires BucketsTaken(buckets0, buckets, now, estimate, passed, taken.tpm)
      requires AfterDenial(semaphores0, semaphores, now, SEMAPHORE, m, slots)
      requires slots <= SemaphoreKeys(rules) && (slots != {} ==> taken.stream)
      modifies this
      ensures AllRestored(windows0, windows, now, WINDOW) && Nowhere(windows, m)
      ensures AllGivenBack(buckets0, buckets, now, estimate, passed)
      ensures AllRestored(semaphores0, semaphores, now, SEMAPHORE) && Nowhere(semaphores, m)
    {
      ghost var w, b, s := windows, buckets, semaphores;
      if taken.rpm != [] {
        ReleaseRpm(m, taken.rpm);
      }
      assert Removed(w, windows, m, WindowKeys(taken.rpm));
      RollbackRestores(windows0, w, windows, now, WINDOW, m, WindowKeys(taken.rpm), WindowKeys(taken.rpm));
      if taken.tpm != [] {
        SettleTpm(now, taken.tpm, estimate);
      }
      SettlementRepays(buckets0, b, buckets, now, estimate, passed, taken.tpm);
      if taken.stream {
        ReleaseConcurrent(m, rules);
      }
      RollbackRestores(semaphores0, s, semaphores, now, SEMAPHORE, m, slots,
                       if taken.stream then SemaphoreKeys(rules) else {});
    }

    /**
     The window script for a rule with a per-minute limit. The rule's own window takes the request,
     or it is full, forgets what no longer counts and names a wait; no other window is touched.
     */
    method AskWindow(now: int, m: Member, r: Rule) returns (open: bool, retryAfter: int)
      requires r.rpm.Some?
      modifies `windows
      ensures open <==> WindowOpen(old(windows), r, now)
      ensures OnlyAt(old(windows), windows, r.Key())
      ensures open ==> Taken(SetAt(old(windows), r.Key()), SetAt(windows, r.Key()), now, WINDOW, m)
      ensures !open ==> Swept(SetAt(old(windows), r.Key()), SetAt(windows, r.Key()), now, WINDOW)
      ensures !open ==> NamedByFullWindow(old(windows), r, now, retryAfter)
      ensures !open && SetAt(windows, r.Key()).scores == map[] ==> retryAfter == 60
      ensures !open && r.rpm.value >= 1 && Full(SetAt(old(windows), r.Key()), now, r.rpm.value) ==>
                LeastWait(SetAt(windows, r.Key()), now, r.rpm.value, retryAfter)
    {
      var after, verdict := WindowScript(SetAt(windows, r.Key()), now, r.rpm.value, m);
      if verdict.Refused? {
        FullWindowNames(windows, r, now, after, verdict.oldest);
        if r.rpm.value >= 1 && Full(SetAt(windows, r.Key()), now, r.rpm.value) {
          FullWindowWaits(SetAt(windows, r.Key()), now, r.rpm.value, m, verdict.oldest);
        }
      }
      windows := windows[r.Key() := after];
      return verdict.Admitted?, if verdict.Admitted? then 60 else RetryAfter(verdict.oldest, now);
    }

    /** The window gate of rule `i`, after the earlier rules' windows have been taken. */
    method WindowGate(now: int, m: Member, rules: seq<Rule>, i: nat, taken: seq<Rule>,
                      ghost before: map<Key, SortedSet>)
      returns (open: bool, retryAfter: int, taken': seq<Rule>)
      requires i < |rules| && DistinctKeys(rules) && WindowKeys(taken) == WindowKeys(rules[..i])
      requires Midway(before, windows, now, WINDOW, m, WindowKeys(rules[..i]))
      modifies `windows
      ensures open <==> WindowOpen(before, rules[i], now)
      ensures open ==> WindowKeys(taken') == WindowKeys(rules[..i + 1])
      ensures open ==> Midway(before, windows, now, WINDOW, m, WindowKeys(rules[..i + 1]))
      ensures AfterDenial(before, windows, now, WINDOW, m, WindowKeys(taken'))
      ensures !open ==> NamedByFullWindow(before, rules[i], now, retryAfter)
    {
      var r := rules[i];
      Extend(rules, i);
      if r.rpm.None? {
        MidwayIsAfterDenial(before, windows, now, WINDOW, m, WindowKeys(taken));
        return true, 60, taken;
      }
      Untouched(before, windows, now, WINDOW, m, WindowKeys(rules[..i]), r.Key());
      ghost var mid := windows;
      open, retryAfter := AskWindow(now, m, r);
      if !open {
        GateRefuses(before, mid, windows, now, WINDOW, m, WindowKeys(rules[..i]), r.Key());
        NamedAsBefore(before, mid, r, now, retryAfter);
        return false, retryAfter, taken;
      }
      GateTakes(before, mid, windows, now, WINDOW, m, WindowKeys(rules[..i]), r.Key());
      OneMoreWindow(taken, r);
      MidwayIsAfterDenial(before, windows, now, WINDOW, m, WindowKeys(taken + [r]));
      return true, retryAfter, taken + [r];
    }

    /** The bucket gate of rule `i`. */
    method BucketGate(now: int, rules: seq<Rule>, i: nat, estimate: int, taken: seq<Rule>,
                      ghost before: map<Key, TokenBucket.Bucket>)
      returns (open: bool, taken': seq<Rule>)
      requires i < |rules| && DistinctKeys(rules) && BucketsTaken(before, buckets, now, estimate, rules[..i], taken)
      modifies `buckets
      ensures open <==> BucketOpen(before, rules[i], now, estimate)
      ensures open ==> BucketsTaken(before, buckets, now, estimate, rules[..i + 1], taken')
      ensures !open ==> buckets == old(buckets) && taken' == taken
    {
      var r := rules[i];
      Extend(rules, i);
      open, taken' := true, taken;
      if r.tpm.Some? && estimate > 0 {
        var next, reply := TokenBucket.CheckScript(r.Bucket(), BucketAt(buckets, r.Key()), now, estimate);
        assert r.Key() !in KeysOf(taken);
        open := reply.allowed;
        if open {
          ghost var mid := buckets;
          buckets := buckets[r.Key() := next];
          BucketTakes(before, mid, buckets, now, estimate, rules, i, taken);
          taken' := taken + [r];
        }
      }
    }

    /** The semaphore script for a rule with a stream limit; no other semaphore is touched. */
    method AskSemaphore(now: int, m: Member, r: Rule) returns (open: bool)
      requires r.streams.Some?
      modifies `semaphores
      ensures open <==> SemaphoreOpen(old(semaphores), r, now, true)
      ensures OnlyAt(old(semaphores), semaphores, r.Key())
      ensures open ==> Taken(SetAt(old(semaphores), r.Key()), SetAt(semaphores, r.Key()), now, SEMAPHORE, m)
      ensures !open ==> Swept(SetAt(old(semaphores), r.Key()), SetAt(semaphores, r.Key()), now, SEMAPHORE)
    {
      var after;
      after, open := SemaphoreScript(SetAt(semaphores, r.Key()), now, r.streams.value, m);
      semaphores := semaphores[r.Key() := after];
    }

    /** The semaphore gate of rule `i`. */
    method SemaphoreGate(now: int, m: Member, rules: seq<Rule>, i: nat, isStream: bool,
                         ghost before: map<Key, SortedSet>)
      returns (open: bool)
      requires i < |rules| && DistinctKeys(rules)
      requires Midway(before, semaphores, now, SEMAPHORE, m, SlotKeys(rules[..i], isStream))
      modifies `semaphores
      ensures open <==> SemaphoreOpen(before, rules[i], now, isStream)
      ensures open ==> Midway(before, semaphores, now, SEMAPHORE, m, SlotKeys(rules[..i + 1], isStream))
      ensures !open ==> AfterDenial(before, semaphores, now, SEMAPHORE, m, SlotKeys(rules[..i], isStream))
    {
      var r := rules[i];
      Extend(rules, i);
      open := true;
      if r.streams.Some? && isStream {
        Untouched(before, semaphores, now, SEMAPHORE, m, SemaphoreKeys(rules[..i]), r.Key());
        ghost var mid := semaphores;
        open := AskSemaphore(now, m, r);
        if open {
          GateTakes(before, mid, semaphores, now, SEMAPHORE, m, SemaphoreKeys(rules[..i]), r.Key());
        } else {
          GateRefuses(before, mid, semaphores, now, SEMAPHORE, m, SemaphoreKeys(rules[..i]), r.Key());
        }
      }
    }

    /** The three gates of rule `i`, up to the first that refuses. */
    method RuleGates(now: int, m: Member, rules: seq<Rule>, i: nat, estimate: int, isStream: bool, taken: Taking,
                     ghost windows0: map<Key, SortedSet>, ghost buckets0: map<Key, TokenBucket.Bucket>,
                     ghost semaphores0: map<Key, SortedSet>)
      returns (outcome: Outcome, taken': Taking)
      requires i < |rules| && DistinctKeys(rules)
      requires WindowKeys(taken.rpm) == WindowKeys(rules[..i])
      requires SlotKeys(rules[..i], isStream) != {} ==> taken.stream
      requires Midway(windows0, windows, now, WINDOW, m, WindowKeys(rules[..i]))
      requires BucketsTaken(buckets0, buckets, now, estimate, rules[..i], taken.tpm)
      requires Midway(semaphores0, semaphores, now, SEMAPHORE, m, SlotKeys(rules[..i], isStream))
      modifies this
      ensures Names(windows0, buckets0, semaphores0, rules[i], now, estimate, isStream, outcome)
      ensures outcome.Allowed? ==>
                && WindowKeys(taken'.rpm) == WindowKeys(rules[..i + 1])
                && (SlotKeys(rules[..i + 1], isStream) != {} ==> taken'.stream)
                && Midway(windows0, windows, now, WINDOW, m, WindowKeys(rules[..i + 1]))
                && BucketsTaken(buckets0, buckets, now, estimate, rules[..i + 1], taken'.tpm)
                && Midway(semaphores0, semaphores, now, SEMAPHORE, m, SlotKeys(rules[..i + 1], isStream))
      ensures !outcome.Allowed? ==>
                && (SlotKeys(rules[..i], isStream) != {} ==> taken'.stream)
                && AfterDenial(windows0, windows, now, WINDOW, m, WindowKeys(taken'.rpm))
                && BucketsTaken(buckets0, buckets, now, estimate, rules[..PastBuckets(i, outcome)], taken'.tpm)
                && AfterDenial(semaphores0, semaphores, now, SEMAPHORE, m, SlotKeys(rules[..i], isStream))
    {
      MidwayIsAfterDenial(semaphores0, semaphores, now, SEMAPHORE, m, SlotKeys(rules[..i], isStream));
      var open, retryAfter, rpm := WindowGate(now, m, rules, i, taken.rpm, windows0);
      if !open {
        return RpmExceeded(retryAfter), Taking(rpm, taken.tpm, taken.stream);
      }
      var tpm;
      open, tpm := BucketGate(now, rules, i, estimate, taken.tpm, buckets0);
      if !open {
        return TpmExceeded, Taking(rpm, tpm, taken.stream);
      }
      open := SemaphoreGate(now, m, rules, i, isStream, semaphores0);
      if !open {
        return StreamsExceeded, Taking(rpm, tpm, taken.stream);
      }
      Extend(rules, i);
      return Allowed, Taking(rpm, tpm, taken.stream || (rules[i].streams.Some? && isStream));
    }

    /**
     `check_rate_limits` with nobody else running. A request is allowed exactly when every gate of
     every rule is open; a denial names the first closed gate. A denied request leaves no trace: it is
     in no window and no semaphore, every other entry that still counted is there with its key's time
     to live as it was or renewed, and every bucket is as it was or has had the estimate taken and
     given back. An allowed request holds every slot, in keys that live on, and every reservation.
     */
    method CheckRateLimits(now: int, m: Member, rules: seq<Rule>, estimate: int, isStream: bool)
      returns (outcome: Outcome)
      requires DistinctKeys(rules) && Nowhere(windows, m) && Nowhere(semaphores, m)
      modifies this
      ensures outcome.Allowed? <==> AllOpen(old(windows), old(buckets), old(semaphores), rules, now, estimate, isStream)
      ensures !outcome.Allowed? ==>
                Denied(Attempt(old(windows), old(buckets), old(semaphores), rules, now, estimate, isStream), outcome,
                       buckets)
      ensures !outcome.Allowed? ==>
                && Nowhere(windows, m) && AllRestored(old(windows), windows, now, WINDOW)
                && Nowhere(semaphores, m) && AllRestored(old(semaphores), semaphores, now, SEMAPHORE)
      ensures outcome.Allowed? ==>
                && Midway(old(windows), windows, now, WINDOW, m, WindowKeys(rules))
                && Midway(old(semaphores), semaphores, now, SEMAPHORE, m, SlotKeys(rules, isStream))
                && AllReserved(old(buckets), buckets, now, estimate, rules)
    {
      var taken := Taking([], [], false);
      for i := 0 to |rules|
        invariant WindowKeys(taken.rpm) == WindowKeys(rules[..i])
        invariant SlotKeys(rules[..i], isStream) != {} ==> taken.stream
        invariant Midway(old(windows), windows, now, WINDOW, m, WindowKeys(rules[..i]))
        invariant BucketsTaken(old(buckets), buckets, now, estimate, rules[..i], taken.tpm)
        invariant Midway(old(semaphores), semaphores, now, SEMAPHORE, m, SlotKeys(rules[..i], isStream))
        invariant AllOpen(old(windows), old(buckets), old(semaphores), rules[..i], now, estimate, isStream)
      {
        Extend(rules, i);
        outcome, taken := RuleGates(now, m, rules, i, estimate, isStream, taken, old(windows), old(buckets),
                                    old(semaphores));
        if !outcome.Allowed? {
          assert rules[i] in rules;
          Rollback(now, m, rules, estimate, taken, old(windows), old(buckets), old(semaphores),
                   SlotKeys(rules[..i], isStream), rules[..PastBuckets(i, outcome)]);
          assert DeniedAt(Attempt(old(windows), old(buckets), old(semaphores), rules, now, estimate, isStream), i,
                          outcome, buckets);
          return;
        }
      }
      assert rules[..|rules|] == rules;
      TakenIsReserved(old(buckets), buckets, now, estimate, rules, taken.tpm);
      outcome := Allowed;
    }
  }

  /** Going from the first `i` rules to the first `i + 1`. */
  lemma Extend(rules: seq<Rule>, i: nat)
    requires DistinctKeys(rules) && i < |rules|
    ensures rules[..i + 1] == rules[..i] + [rules[i]]
    ensures rules[i].Key() !in KeysOf(rules[..i])
    ensures rules[i].Key() !in WindowKeys(rules[..i]) && rules[i].Key() !in SemaphoreKeys(rules[..i])
    ensures WindowKeys(rules[..i + 1]) == WindowKeys(rules[..i]) + (if rules[i].rpm.Some? then {rules[i].Key()} else {})
    ensures SemaphoreKeys(rules[..i + 1]) ==
            SemaphoreKeys(rules[..i]) + (if rules[i].streams.Some? then {rules[i].Key()} else {})
    ensures SemaphoreKeys(rules[..i + 1]) <= SemaphoreKeys(rules)
    ensures SemaphoreKeys(rules[..i]) <= SemaphoreKeys(rules)
  {
    assert rules[..i + 1] == rules[..i] + [rules[i]];
  }

  lemma BucketTakes(before: map<Key, TokenBucket.Bucket>, mid: map<Key, TokenBucket.Bucket>,
                    after: map<Key, TokenBucket.Bucket>, now: int, estimate: int, rules: seq<Rule>, i: nat,
                    taken: seq<Rule>)
    requires i < |rules| && DistinctKeys(rules) && DistinctKeys(taken) && rules[i].tpm.Some?
    requires forall r <- taken :: r in rules[..i]
    requires BucketsMidway(before, mid, now, estimate, taken)
    requires var k := rules[i].Key();
             after == mid[k := BucketAt(after, k)]
             && Reserved(rules[i].Bucket(), BucketAt(mid, k), BucketAt(after, k), now, estimate)
    ensures BucketsMidway(before, after, now, estimate, taken + [rules[i]]) && DistinctKeys(taken + [rules[i]])
  {
    var rule := rules[i];
    forall r <- taken ensures r.Key() != rule.Key() {
    }
    assert rule.Key() !in KeysOf(taken);
    assert KeysOf(taken + [rule]) == KeysOf(taken) + {rule.Key()};
    assert forall k :: k != rule.Key() ==> BucketAt(after, k) == BucketAt(mid, k);
  }

  /**
   One rule with a limit of `n` tokens a minute, on a bucket that nobody has used: it admits an estimate
   exactly up to the burst, which is `n` when it is not set or zero, and then holds the rest.
   */
  lemma TokenRuleInNumbers(a: Attempt, id: nat, subject: nat, n: int, burst: Option<int>,
                           after: map<Key, TokenBucket.Bucket>)
    requires a.rules == [Rule(id, subject, None, Some(n), burst, None)] && (id, subject) !in a.buckets && a.estimate > 0
    ensures var most := if burst == None || burst == Some(0) then n else burst.value;
            && (AllOpen(a.windows, a.buckets, a.semaphores, a.rules, a.now, a.estimate, a.isStream) <==>
                  a.estimate <= most)
            && (AllReserved(a.buckets, after, a.now, a.estimate, a.rules) ==>
                  (id, subject) in after
                  && after[(id, subject)] == TokenBucket.Bucket(most - a.estimate, a.now, a.now + 1_860_000))
  {
    assert a.rules[0] in a.rules;
  }

  /** What is left of such a bucket grows by `n` a minute, up to the burst. */
  lemma RefillInNumbers(a: Attempt, id: nat, subject: nat, n: int, burst: Option<int>, left: int, ts: int, until: int)
    requires a.rules == [Rule(id, subject, None, Some(n), burst, None)] && a.estimate > 0 && a.now <= until
    requires (id, subject) in a.buckets && a.buckets[(id, subject)] == TokenBucket.Bucket(left, ts, until)
    ensures AllOpen(a.windows, a.buckets, a.semaphores, a.rules, a.now, a.estimate, a.isStream) <==>
              && a.estimate <= left + (a.now - ts) * n / 60_000
              && a.estimate <= if burst == None || burst == Some(0) then n else burst.value
  {
    assert a.rules[0] in a.rules;
  }

  /** A settlement moves such a bucket by the difference, up to the same burst. */
  lemma SettleInNumbers(a: Attempt, id: nat, subject: nat, n: int, burst: Option<int>, left: int, ts: int, until: int,
                        delta: int, settled: map<Key, TokenBucket.Bucket>)
    requires a.rules == [Rule(id, subject, None, Some(n), burst, None)] && delta != 0 && a.now <= until
    requires (id, subject) in a.buckets && a.buckets[(id, subject)] == TokenBucket.Bucket(left, ts, until)
    requires Settled(a.buckets, settled, a.now, a.rules, delta)
    ensures var most := if burst == None || burst == Some(0) then n else burst.value;
            && (id, subject) in settled && settled[(id, subject)].Bucket? && settled[(id, subject)].ts == ts
            && settled[(id, subject)].tokens == if left + delta < most then left + delta else most
  {
    assert a.rules[0] in a.rules;
  }

  /** One rule with a limit of requests a minute counts what was added in the last one, and what has not expired. */
  lemma RequestRuleInNumbers(a: Attempt, id: nat, subject: nat, n: int)
    requires a.rules == [Rule(id, subject, Some(n), None, None, None)]
    ensures AllOpen(a.windows, a.buckets, a.semaphores, a.rules, a.now, a.estimate, a.isStream) <==>
              |AddedAfter(SetAt(a.windows, (id, subject)), a.now, a.now - 60_000)| < n
  {
    assert a.rules[0] in a.rules;
    NewerAre(SetAt(a.windows, (id, subject)), a.now, a.now - 60_000);
  }

  /** One rule with a limit of streams counts those that started in the last 35 minutes, and only for a stream. */
  lemma StreamRuleInNumbers(a: Attempt, id: nat, subject: nat, n: int)
    requires a.rules == [Rule(id, subject, None, None, None, Some(n))]
    ensures AllOpen(a.windows, a.buckets, a.semaphores, a.rules, a.now, a.estimate, a.isStream) <==>
              !a.isStream || |AddedAfter(SetAt(a.semaphores, (id, subject)), a.now, a.now - 2_100_000)| < n
  {
    assert a.rules[0] in a.rules;
    NewerAre(SetAt(a.semaphores, (id, subject)), a.now, a.now - 2_100_000);
  }

  ghost predicate CostsAtMostOne(r: TokenBucket.Rule, before: TokenBucket.Bucket, after: TokenBucket.Bucket,
                                 later: int)
  {
    var offered := TokenBucket.Available(r, TokenBucket.Alive(after, later), later);
    var untouched := TokenBucket.Available(r, TokenBucket.Alive(before, later), later);
    offered == untouched || offered == untouched - 1
  }

  /**
   Whatever rules a request is denied by, and whatever checks and settlements came before it: a bucket
   with the limits of `rule` offers at every later time what it would have offered had the request
   never come, or exactly one token less.
   */
  ghost predicate DenialsAreCheap(rule: TokenBucket.Rule) {
    forall a, outcome, after, r, later ::
      Denied(a, outcome, after) && DistinctKeys(a.rules) && HasBucket(a, r, rule) && a.now <= later ==>
        CostsAtMostOne(rule, BucketAt(a.buckets, r.Key()), BucketAt(after, r.Key()), later)
  }

  /** The attempt meets a reachable bucket with the limits of `rule`, that of its rule `r`. */
  ghost predicate HasBucket(a: Attempt, r: Rule, rule: TokenBucket.Rule) {
    r in a.rules && r.tpm.Some? && r.Bucket() == rule && TokenBucket.Reached(rule, BucketAt(a.buckets, r.Key()), a.now)
  }

  lemma DeniedBucket(a: Attempt, outcome: Outcome, after: map<Key, TokenBucket.Bucket>, r: Rule)
    requires DistinctKeys(a.rules) && r in a.rules && r.tpm.Some? && Denied(a, outcome, after)
    ensures var before, left := BucketAt(a.buckets, r.Key()), BucketAt(after, r.Key());
            left == before || (a.estimate > 0 && GivenBack(r.Bucket(), before, left, a.now, a.estimate))
  {
    var i :| 0 <= i < |a.rules| && DeniedAt(a, i, outcome, after);
    var passed := a.rules[..PastBuckets(i, outcome)];
    if r.Key() in BucketKeys(passed, a.estimate) {
      var p :| p in passed && p.tpm.Some? && p.Key() == r.Key();
      SameKeySameRule(a.rules, p, r);
    }
  }

  lemma CheapWithinBound(rule: TokenBucket.Rule, a: Attempt, outcome: Outcome, after: map<Key, TokenBucket.Bucket>,
                         r: Rule, later: int)
    requires rule.Valid() && TokenBucket.RollbackBound(rule) && DistinctKeys(a.rules) && Denied(a, outcome, after)
    requires HasBucket(a, r, rule) && a.now <= later
    ensures CostsAtMostOne(rule, BucketAt(a.buckets, r.Key()), BucketAt(after, r.Key()), later)
  {
    DeniedBucket(a, outcome, after, r);
    if BucketAt(after, r.Key()) != BucketAt(a.buckets, r.Key()) {
      TokenBucket.RollbackOffersThroughExpiry(rule, BucketAt(a.buckets, r.Key()), a.now, a.estimate, later);
    }
  }

  /** A request that is checked against one bucket, and then against a window that has just been filled. */
  function TokensThenWindow(rule: TokenBucket.Rule, before: TokenBucket.Bucket, now: int, request: int): Attempt {
    Attempt(map[(2, 0) := SortedSet(map[0 := now], now + WINDOW_TTL_MS)], map[(1, 0) := before], map[],
            [Rule(1, 0, None, Some(rule.rate), Some(rule.burst), None), Rule(2, 0, Some(1), None, None, None)],
            now, request, false)
  }

  /** It is denied by the window, after it has reserved from the bucket. */
  lemma DeniedAfterReserving(rule: TokenBucket.Rule, before: TokenBucket.Bucket, now: int, request: int)
    requires rule.Valid() && request > 0 && now >= 0
    requires TokenBucket.AfterCheck(rule, TokenBucket.Alive(before, now), now, request).1.allowed
    ensures var reserved := TokenBucket.AfterCheck(rule, TokenBucket.Alive(before, now), now, request).0;
            DeniedAt(TokensThenWindow(rule, before, now, request), 1, RpmExceeded(RetryAfter(now, now)),
                     map[(1, 0) := TokenBucket.AfterSettle(rule, reserved, now, request)])
  {
    var a := TokensThenWindow(rule, before, now, request);
    assert a.rules[..1] == [a.rules[0]];
    assert a.rules[0].Bucket() == rule;
    var kept := Newer(map[0 := now], now - WINDOW_MS);
    assert 0 in kept && kept == map[0 := now];
    assert IsOldest(kept, now);
  }

  lemma DenialShows(rule: TokenBucket.Rule, before: TokenBucket.Bucket, now: int, later: int)
    requires rule.Valid() && TokenBucket.RolledBackFrom(rule, before, now, later)
    requires !TokenBucket.AtMostOneLess(rule, before, now, 1, later)
    ensures !DenialsAreCheap(rule)
  {
    DeniedAfterReserving(rule, before, now, 1);
    var reserved := TokenBucket.AfterCheck(rule, TokenBucket.Alive(before, now), now, 1).0;
    var settled := TokenBucket.AfterSettle(rule, reserved, now, 1);
    var a, after := TokensThenWindow(rule, before, now, 1), map[(1, 0) := settled];
    var r := a.rules[0];
    assert Denied(a, RpmExceeded(RetryAfter(now, now)), after) && HasBucket(a, r, rule);
    assert !CostsAtMostOne(rule, BucketAt(a.buckets, r.Key()), BucketAt(after, r.Key()), later);
  }

  /** Denials are cheap for every rule within the bound on its burst, and for no other. */
  lemma DenialCostsAtMostOneToken(rule: TokenBucket.Rule)
    requires rule.Valid()
    ensures DenialsAreCheap(rule) <==> TokenBucket.RollbackBound(rule)
  {
    if TokenBucket.RollbackBound(rule) {
      forall a, outcome, after, r, later
        | Denied(a, outcome, after) && DistinctKeys(a.rules) && HasBucket(a, r, rule) && a.now <= later
        ensures CostsAtMostOne(rule, BucketAt(a.buckets, r.Key()), BucketAt(after, r.Key()), later)
      {
        CheapWithinBound(rule, a, outcome, after, r, later);
      }
    } else {
      TokenBucket.RollbackOffersFarLess(rule);
      var before, now, later :| TokenBucket.Differs(rule, before, now, later) <= -2;
      TokenBucket.DiffersIsNotCheap(rule, before, now, later);
      DenialShows(rule, before, now, later);
    }
  }
}
