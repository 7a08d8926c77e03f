/**
 The two sorted sets of admission control: the requests-per-minute sliding window and the
 semaphore of concurrent streams. Scores are the times at which members were added.
 */
module SlidingWindow {

  const WINDOW_MS := 60_000

  /** A window key outlives its last addition by the window and one second. */
  const WINDOW_TTL_MS := WINDOW_MS + 1_000

  /** A semaphore entry this old is taken for an abandoned stream. */
  const STALE_MS := 2_100_000

  const SEMAPHORE_TTL_MS := STALE_MS + 10_000

  /** How long entries of a set count, and how long its key lives after an addition. */
  datatype Retention = Retention(span: int, ttl: int)

  const WINDOW := Retention(WINDOW_MS, WINDOW_TTL_MS)

  const SEMAPHORE := Retention(STALE_MS, SEMAPHORE_TTL_MS)

  /** The random 128-bit token that stands for one request, as a number. */
  type Member = nat

  type Scores = map<Member, int>

  /** A sorted-set key; Redis drops it once the clock is past `expireAt`. */
  datatype SortedSet = SortedSet(scores: Scores, expireAt: int)

  const EMPTY_SET := SortedSet(map[], 0)

  /** The outcome of the window script; `oldest` is only meaningful on a denial. */
  datatype Verdict = Admitted | Refused(oldest: int)

  /** What a key holds when it is read at `now`. */
  function Alive(s: SortedSet, now: int): Scores {
    if now > s.expireAt then map[] else s.scores
  }

  /** The members that are left once scores up to `horizon` are removed. */
  function Newer(z: Scores, horizon: int): Scores {
    map m | m in z && z[m] > horizon :: z[m]
  }

  /** The members of `z` added in the `WINDOW_MS` up to and including `t`. */
  function InWindow(z: Scores, t: int): set<Member> {
    set m | m in z && t - WINDOW_MS < z[m] <= t
  }

  ghost predicate IsOldest(z: Scores, score: int) {
    if z == map[] then score == -1
    else (exists m :: m in z && z[m] == score) && forall m <- z :: score <= z[m]
  }

  /**
   Both scripts: forget what no longer counts, then add `m` unless `limit` members are left. A
   refusal keeps the removals and does not touch the time to live.
   */
  function AfterAdd(s: SortedSet, now: int, limit: int, m: Member, keep: Retention): SortedSet {
    var kept := Newer(Alive(s, now), now - keep.span);
    if |kept| >= limit then SortedSet(kept, s.expireAt)
    else SortedSet(kept[m := now], now + keep.ttl)
  }

  /** The state after the window script for `m`. */
  function AfterWindowCheck(s: SortedSet, now: int, limit: int, m: Member): SortedSet {
    AfterAdd(s, now, limit, m, WINDOW)
  }

  /** The state after the semaphore script for `m`. */
  function AfterAcquire(s: SortedSet, now: int, limit: int, m: Member): SortedSet {
    AfterAdd(s, now, limit, m, SEMAPHORE)
  }

  predicate WindowAdmits(s: SortedSet, now: int, limit: int) {
    |Newer(Alive(s, now), now - WINDOW_MS)| < limit
  }

  predicate SemaphoreAdmits(s: SortedSet, now: int, limit: int) {
    |Newer(Alive(s, now), now - STALE_MS)| < limit
  }

  /** The state after `ZREM`. */
  function AfterRemove(s: SortedSet, m: Member): SortedSet {
    s.(scores := s.scores - {m})
  }

  /** The number of seconds a refused caller is told to wait. */
  function RetryAfter(oldest: int, now: int): int {
    if oldest >= 0 then
      var seconds := (oldest + WINDOW_MS - now + 999) / 1000;
      if seconds < 1 then 1 else seconds
    else 60
  }

  /** The score of the first member in score order, -1 for the empty set. */
  method OldestScore(z: Scores) returns (score: int)
    ensures IsOldest(z, score)
  {
    score := -1;
    var rest := z.Keys;
    while rest != {}
      invariant rest <= z.Keys
      invariant rest == z.Keys ==> score == -1
      invariant rest != z.Keys ==> exists m :: m in z && z[m] == score
      invariant rest != z.Keys ==> forall m <- z.Keys - rest :: score <= z[m]
      decreases rest
    {
      var m :| m in rest;
      if rest == z.Keys || z[m] < score {
        score := z[m];
      }
      rest := rest - {m};
    }
  }

  /** The members that were added after `horizon`, if the key is still there. */
  ghost function AddedAfter(s: SortedSet, now: int, horizon: int): set<Member> {
    set m | m in s.scores && now <= s.expireAt && s.scores[m] > horizon
  }

  lemma NewerAre(s: SortedSet, now: int, horizon: int)
    ensures Newer(Alive(s, now), horizon).Keys == AddedAfter(s, now, horizon)
    ensures |Newer(Alive(s, now), horizon)| == |AddedAfter(s, now, horizon)|
  {
    var newer := Newer(Alive(s, now), horizon);
    assert newer.Keys == AddedAfter(s, now, horizon);
    assert |newer.Keys| == |newer|;
  }

  /** The window script on what is stored under its key. */
  method WindowScript(stored: SortedSet, now: int, limit: int, m: Member) returns (after: SortedSet, verdict: Verdict)
    ensures after == AfterWindowCheck(stored, now, limit, m)
    ensures verdict.Admitted? <==> WindowAdmits(stored, now, limit)
    ensures verdict.Refused? ==> IsOldest(after.scores, verdict.oldest)
    ensures verdict.Admitted? <==> |AddedAfter(stored, now, now - 60_000)| < limit
    ensures forall x :: x in after.scores <==>
              (x == m && verdict.Admitted?) || x in AddedAfter(stored, now, now - 60_000)
    ensures forall x <- after.scores :: after.scores[x] == if x == m && verdict.Admitted? then now else stored.scores[x]
    ensures after.expireAt == if verdict.Admitted? then now + 61_000 else stored.expireAt
  {
    NewerAre(stored, now, now - WINDOW_MS);
    after := SortedSet(Newer(Alive(stored, now), now - WINDOW_MS), stored.expireAt);
    if |after.scores| >= limit {
      var oldest := OldestScore(after.scores);
      return after, Refused(oldest);
    }
    return SortedSet(after.scores[m := now], now + WINDOW_TTL_MS), Admitted;
  }

  /** The semaphore script on what is stored under its key. */
  method SemaphoreScript(stored: SortedSet, now: int, limit: int, m: Member) returns (after: SortedSet, acquired: bool)
    ensures after == AfterAcquire(stored, now, limit, m)
    ensures acquired <==> SemaphoreAdmits(stored, now, limit)
    ensures acquired <==> |AddedAfter(stored, now, now - 2_100_000)| < limit
    ensures forall x :: x in after.scores <==> (x == m && acquired) || x in AddedAfter(stored, now, now - 2_100_000)
    ensures forall x <- after.scores :: after.scores[x] == if x == m && acquired then now else stored.scores[x]
    ensures after.expireAt == if acquired then now + 2_110_000 else stored.expireAt
  {
    NewerAre(stored, now, now - STALE_MS);
    after := SortedSet(Newer(Alive(stored, now), now - STALE_MS), stored.expireAt);
    if |after.scores| >= limit {
      return after, false;
    }
    return SortedSet(after.scores[m := now], now + SEMAPHORE_TTL_MS), true;
  }

  lemma SubsetSize<T>(a: set<T>, b: set<T>)
    requires a <= b
    ensures |a| <= |b|
  {
    assert b == a + (b - a);
  }

  lemma AddedSize(z: Scores, m: Member, score: int)
    ensures |z[m := score]| <= |z| + 1
  {
    assert z[m := score].Keys == z.Keys + {m};
    assert |z[m := score].Keys| == |z[m := score]|;
  }

  lemma NewSize(z: Scores, m: Member, score: int)
    requires m !in z
    ensures |z[m := score]| == |z| + 1
  {
    assert z[m := score].Keys == z.Keys + {m};
    assert |z[m := score].Keys| == |z[m := score]|;
  }

  lemma MembersSize(a: Scores, b: Scores)
    requires a.Keys <= b.Keys
    ensures |a| <= |b|
  {
    SubsetSize(a.Keys, b.Keys);
    assert |a.Keys| == |a| && |b.Keys| == |b|;
  }

  lemma FewerSize(a: Scores, b: Scores, m: Member)
    requires a.Keys <= b.Keys - {m} && m in b
    ensures |a| < |b|
  {
    SubsetSize(a.Keys, b.Keys - {m});
    assert |a.Keys| == |a| && |b.Keys| == |b|;
  }

  lemma OneMoreSize(a: set<Member>, z: Scores, m: Member)
    requires a <= z.Keys + {m}
    ensures |a| <= |z| + 1
  {
    SubsetSize(a, z.Keys + {m});
    assert |z.Keys| == |z|;
  }

  lemma NewerSize(z: Scores, horizon: int)
    ensures |Newer(z, horizon)| <= |z|
  {
    SubsetSize(Newer(z, horizon).Keys, z.Keys);
    assert |Newer(z, horizon).Keys| == |Newer(z, horizon)|;
  }

  // ---------------------------------------------------------------------------------------------
  // The window over whole runs
  // ---------------------------------------------------------------------------------------------

  /** A request asks for a slot, or gives it back because a later gate denied it. */
  datatype Event = Ask(now: int, m: Member) | GiveBack(now: int, m: Member)

  /** The key together with every admitted and not returned request since the beginning. */
  datatype Window = Window(key: SortedSet, admitted: Scores)

  const FRESH_WINDOW := Window(EMPTY_SET, map[])

  function WindowStep(limit: int, w: Window, e: Event): Window {
    match e
    case Ask(now, m) =>
      var key := AfterWindowCheck(w.key, now, limit, m);
      Window(key, if WindowAdmits(w.key, now, limit) then w.admitted[m := now] else w.admitted)
    case GiveBack(now, m) =>
      Window(AfterRemove(w.key, m), w.admitted - {m})
  }

  function WindowRun(limit: int, w: Window, es: seq<Event>): Window
    decreases |es|
  {
    if es == [] then w else WindowRun(limit, WindowStep(limit, w, es[0]), es[1..])
  }

  /** Nondecreasing times from `clock` on, and a member of its own for every request. */
  predicate Orderly(limit: int, w: Window, clock: int, es: seq<Event>)
    decreases |es|
  {
    es == [] ||
    (&& clock <= es[0].now
     && (es[0].Ask? ==> es[0].m !in w.admitted)
     && Orderly(limit, WindowStep(limit, w, es[0]), es[0].now, es[1..]))
  }

  /** Requests may come in the same millisecond, and each has a member of its own. */
  lemma OrderlyMeansInOrder(limit: int, m: Member, t: int, n: Member, u: int)
    requires limit >= 1
    ensures Orderly(limit, FRESH_WINDOW, 0, [Ask(t, m), Ask(u, n)]) <==> 0 <= t <= u && m != n
  {
    var first, second := Ask(t, m), Ask(u, n);
    assert [first, second][1..] == [second] && [second][1..] == [];
    var w := WindowStep(limit, FRESH_WINDOW, first);
    assert w.admitted == map[m := t] by {
      assert Newer(Alive(EMPTY_SET, t), t - WINDOW_MS) == map[];
    }
    assert Orderly(limit, w, t, [second]) <==> t <= u && m != n;
  }

  /** The key agrees with the history on everything that still matters at `clock`. */
  ghost predicate Faithful(w: Window, clock: int) {
    && (forall m <- w.key.scores :: m in w.admitted && w.admitted[m] == w.key.scores[m])
    && (forall m <- w.admitted :: w.admitted[m] <= clock)
    && (forall m <- w.admitted :: w.admitted[m] > clock - WINDOW_MS ==> m in w.key.scores)
    && (forall m <- w.key.scores :: 0 <= w.key.scores[m] && w.key.scores[m] + WINDOW_TTL_MS <= w.key.expireAt)
  }

  ghost predicate Bounded(limit: int, w: Window) {
    forall t :: |InWindow(w.admitted, t)| <= limit
  }

  lemma AskKeepsFaithful(limit: int, w: Window, clock: int, e: Event)
    requires Faithful(w, clock) && e.Ask? && 0 <= clock <= e.now && e.m !in w.admitted
    ensures Faithful(WindowStep(limit, w, e), e.now)
  {
    var w', kept := WindowStep(limit, w, e), Newer(Alive(w.key, e.now), e.now - WINDOW_MS);
    forall m <- w.admitted | w.admitted[m] > e.now - WINDOW_MS ensures m in kept {
      assert m in w.key.scores;
    }
    assert w'.key.scores == (if |kept| >= limit then kept else kept[e.m := e.now]);
    assert w'.admitted == if |kept| >= limit then w.admitted else w.admitted[e.m := e.now];
  }

  /** Every window that reaches past the new request holds only what the script kept, and the request. */
  lemma WindowsAfterAsk(w: Window, clock: int, now: int, m: Member, t: int)
    requires Faithful(w, clock) && clock <= now <= t && m !in w.admitted
    ensures InWindow(w.admitted[m := now], t) <= Newer(Alive(w.key, now), now - WINDOW_MS).Keys + {m}
  {
    var kept := Newer(Alive(w.key, now), now - WINDOW_MS);
    forall x | x in InWindow(w.admitted[m := now], t) && x != m ensures x in kept {
      assert x in w.admitted && w.admitted[x] > now - WINDOW_MS && x in w.key.scores;
    }
  }

  lemma AskKeepsBound(limit: int, w: Window, clock: int, e: Event)
    requires limit >= 0 && Faithful(w, clock) && Bounded(limit, w)
    requires e.Ask? && clock <= e.now && e.m !in w.admitted
    ensures Bounded(limit, WindowStep(limit, w, e))
  {
    var kept := Newer(Alive(w.key, e.now), e.now - WINDOW_MS);
    if |kept| < limit {
      var admitted := w.admitted[e.m := e.now];
      forall t ensures |InWindow(admitted, t)| <= limit {
        if t < e.now {
          assert InWindow(admitted, t) == InWindow(w.admitted, t);
        } else {
          WindowsAfterAsk(w, clock, e.now, e.m, t);
          OneMoreSize(InWindow(admitted, t), kept, e.m);
        }
      }
    }
  }

  lemma GiveBackKeepsBound(limit: int, w: Window, clock: int, e: Event)
    requires Faithful(w, clock) && Bounded(limit, w) && e.GiveBack? && clock <= e.now
    ensures Faithful(WindowStep(limit, w, e), e.now) && Bounded(limit, WindowStep(limit, w, e))
  {
    var w' := WindowStep(limit, w, e);
    forall t ensures |InWindow(w'.admitted, t)| <= limit {
      SubsetSize(InWindow(w'.admitted, t), InWindow(w.admitted, t));
    }
  }

  lemma {:induction false} RunKeepsBound(limit: int, w: Window, clock: int, es: seq<Event>)
    requires limit >= 0 && clock >= 0 && Faithful(w, clock) && Bounded(limit, w) && Orderly(limit, w, clock, es)
    ensures Bounded(limit, WindowRun(limit, w, es)) && Faithful(WindowRun(limit, w, es), EndTime(clock, es))
    ensures clock <= EndTime(clock, es)
    decreases |es|
  {
    if es != [] {
      if es[0].Ask? {
        AskKeepsFaithful(limit, w, clock, es[0]);
        AskKeepsBound(limit, w, clock, es[0]);
      } else {
        GiveBackKeepsBound(limit, w, clock, es[0]);
      }
      RunKeepsBound(limit, WindowStep(limit, w, es[0]), es[0].now, es[1..]);
    }
  }

  lemma FreshWindow(limit: int)
    requires limit >= 0
    ensures Faithful(FRESH_WINDOW, 0) && Bounded(limit, FRESH_WINDOW)
  {
    forall t ensures |InWindow(map[], t)| <= limit {
      assert InWindow(map[], t) == {};
    }
  }

  /** After any run on a nondecreasing clock, no 60-second window holds more than `limit` requests. */
  lemma EveryWindowHoldsAtMostLimit(limit: int, es: seq<Event>, t: int)
    requires limit >= 0 && Orderly(limit, FRESH_WINDOW, 0, es)
    ensures |InWindow(WindowRun(limit, FRESH_WINDOW, es).admitted, t)| <= limit
  {
    FreshWindow(limit);
    RunKeepsBound(limit, FRESH_WINDOW, 0, es);
  }

  /** The time of the last event. */
  function EndTime(clock: int, es: seq<Event>): int
    decreases |es|
  {
    if es == [] then clock else EndTime(es[0].now, es[1..])
  }

  /**
   A refusal of a full window names the least whole number of seconds, at least one, after which
   an otherwise untouched window has a slot again.
   */
  lemma RetryAfterIsLeast(s: SortedSet, now: int, limit: int, m: Member, oldest: int, seconds: int)
    requires limit >= 1 && |Newer(Alive(s, now), now - WINDOW_MS)| == limit
    requires forall x <- s.scores :: 0 <= s.scores[x] <= now && s.scores[x] + WINDOW_TTL_MS <= s.expireAt
    requires IsOldest(AfterWindowCheck(s, now, limit, m).scores, oldest)
    ensures RetryAfter(oldest, now) >= 1
    ensures seconds >= 1 ==>
              (WindowAdmits(AfterWindowCheck(s, now, limit, m), now + 1000 * seconds, limit)
               <==> RetryAfter(oldest, now) <= seconds)
  {
    var after := AfterWindowCheck(s, now, limit, m);
    var kept := after.scores;
    var later := now + 1000 * seconds;
    var left := Newer(Alive(after, later), later - WINDOW_MS);
    assert kept != map[];
    assert left.Keys <= kept.Keys;
    assert RetryAfter(oldest, now) <= seconds || seconds < 1 <==> seconds < 1 || oldest <= later - WINDOW_MS;
    if oldest <= later - WINDOW_MS {
      var x :| x in kept && kept[x] == oldest;
      SubsetSize(left.Keys, kept.Keys - {x});
    } else if seconds >= 1 {
      assert left == kept;
    }
  }

  /** In every run, a refused request is told the least wait after which it would be admitted. */
  lemma RefusalsNameTheLeastWait(limit: int, es: seq<Event>, now: int, m: Member, oldest: int, seconds: int)
    requires limit >= 1 && Orderly(limit, FRESH_WINDOW, 0, es) && EndTime(0, es) <= now
    requires var key := WindowRun(limit, FRESH_WINDOW, es).key;
             !WindowAdmits(key, now, limit) && IsOldest(AfterWindowCheck(key, now, limit, m).scores, oldest)
    ensures RetryAfter(oldest, now) >= 1
    ensures var key := AfterWindowCheck(WindowRun(limit, FRESH_WINDOW, es).key, now, limit, m);
            seconds >= 1 ==>
              (WindowAdmits(key, now + 1000 * seconds, limit) <==> RetryAfter(oldest, now) <= seconds)
  {
    FreshWindow(limit);
    RunKeepsBound(limit, FRESH_WINDOW, 0, es);
    var w := WindowRun(limit, FRESH_WINDOW, es);
    var kept := Newer(Alive(w.key, now), now - WINDOW_MS);
    assert kept.Keys <= InWindow(w.admitted, now);
    SubsetSize(kept.Keys, InWindow(w.admitted, now));
    assert |kept.Keys| == |kept|;
    RetryAfterIsLeast(w.key, now, limit, m, oldest, seconds);
  }

  // ---------------------------------------------------------------------------------------------
  // The semaphore over whole runs
  // ---------------------------------------------------------------------------------------------

  datatype StreamEvent = Start(now: int, m: Member) | End(now: int, m: Member)

  /** The key together with every stream that started and has not ended. */
  datatype Streams = Streams(key: SortedSet, active: Scores)

  const NO_STREAMS := Streams(EMPTY_SET, map[])

  function StreamStep(limit: int, s: Streams, e: StreamEvent): Streams {
    match e
    case Start(now, m) =>
      Streams(AfterAcquire(s.key, now, limit, m),
              if SemaphoreAdmits(s.key, now, limit) then s.active[m := now] else s.active)
    case End(now, m) =>
      Streams(AfterRemove(s.key, m), s.active - {m})
  }

  function StreamRun(limit: int, s: Streams, es: seq<StreamEvent>): Streams
    decreases |es|
  {
    if es == [] then s else StreamRun(limit, StreamStep(limit, s, es[0]), es[1..])
  }

  /** A nondecreasing clock on which every active stream is younger than the stale timeout. */
  predicate Prompt(limit: int, s: Streams, clock: int, es: seq<StreamEvent>)
    decreases |es|
  {
    es == [] ||
    (&& clock <= es[0].now
     && (es[0].Start? ==> es[0].m !in s.active)
     && (forall m <- s.active :: es[0].now < s.active[m] + STALE_MS)
     && Prompt(limit, StreamStep(limit, s, es[0]), es[0].now, es[1..]))
  }

  /** A run is prompt as long as no stream is 2,100,000 ms old. */
  lemma PromptMeansYoung(limit: int, m: Member, later: int)
    requires limit >= 1
    ensures Prompt(limit, NO_STREAMS, 0, [Start(0, m), End(later, m)]) <==> 0 <= later < 2_100_000
  {
    var start, end := Start(0, m), End(later, m);
    assert [start, end][1..] == [end] && [end][1..] == [];
    var s := StreamStep(limit, NO_STREAMS, start);
    assert s.active == map[m := 0] by {
      assert Newer(Alive(EMPTY_SET, 0), 0 - STALE_MS) == map[];
    }
    assert Prompt(limit, s, 0, [end]) <==> 0 <= later < STALE_MS;
  }

  /** Every active stream still holds its slot, and there are no more slots than the limit. */
  ghost predicate SlotsHeld(limit: int, s: Streams, clock: int) {
    && |s.key.scores| <= limit
    && (forall m <- s.active :: m in s.key.scores && s.key.scores[m] == s.active[m])
    && (forall m <- s.key.scores :: s.key.scores[m] <= clock && s.key.scores[m] + SEMAPHORE_TTL_MS <= s.key.expireAt)
  }

  /** Forgetting stale entries forgets no active stream. */
  lemma ActiveAreKept(limit: int, s: Streams, clock: int, now: int)
    requires SlotsHeld(limit, s, clock)
    requires forall m <- s.active :: now < s.active[m] + STALE_MS
    ensures var kept := Newer(Alive(s.key, now), now - STALE_MS);
            forall m <- s.active :: m in kept && kept[m] == s.active[m]
  {
    var kept := Newer(Alive(s.key, now), now - STALE_MS);
    forall m <- s.active ensures m in kept && kept[m] == s.active[m] {
      assert m in s.key.scores;
    }
  }

  lemma StartKeepsCount(limit: int, s: Streams, clock: int, e: StreamEvent)
    requires SlotsHeld(limit, s, clock) && e.Start?
    ensures |StreamStep(limit, s, e).key.scores| <= limit
  {
    var seen := Alive(s.key, e.now);
    NewerSize(seen, e.now - STALE_MS);
    AddedSize(Newer(seen, e.now - STALE_MS), e.m, e.now);
  }

  lemma StartKeepsSlots(limit: int, s: Streams, clock: int, e: StreamEvent)
    requires SlotsHeld(limit, s, clock) && clock <= e.now && e.Start? && e.m !in s.active
    requires forall m <- s.active :: e.now < s.active[m] + STALE_MS
    ensures SlotsHeld(limit, StreamStep(limit, s, e), e.now)
  {
    StartKeepsCount(limit, s, clock, e);
    ActiveAreKept(limit, s, clock, e.now);
  }

  lemma EndKeepsSlots(limit: int, s: Streams, clock: int, e: StreamEvent)
    requires SlotsHeld(limit, s, clock) && clock <= e.now && e.End?
    ensures SlotsHeld(limit, StreamStep(limit, s, e), e.now)
  {
    var scores := StreamStep(limit, s, e).key.scores;
    SubsetSize(scores.Keys, s.key.scores.Keys);
    assert |scores.Keys| == |scores|;
  }

  /** The time of the last event. */
  function LastTime(clock: int, es: seq<StreamEvent>): int
    decreases |es|
  {
    if es == [] then clock else LastTime(es[0].now, es[1..])
  }

  lemma {:induction false} StreamRunKeepsSlots(limit: int, s: Streams, clock: int, es: seq<StreamEvent>)
    requires SlotsHeld(limit, s, clock) && Prompt(limit, s, clock, es)
    ensures SlotsHeld(limit, StreamRun(limit, s, es), LastTime(clock, es))
    decreases |es|
  {
    if es != [] {
      if es[0].Start? { StartKeepsSlots(limit, s, clock, es[0]); } else { EndKeepsSlots(limit, s, clock, es[0]); }
      StreamRunKeepsSlots(limit, StreamStep(limit, s, es[0]), es[0].now, es[1..]);
    }
  }

  /**
   In every run whose streams end in under 35 minutes, the active streams are at most `limit` and
   none of them has lost its slot.
   */
  lemma ActiveStreamsKeepTheirSlots(limit: int, clock: int, es: seq<StreamEvent>)
    requires limit >= 0 && Prompt(limit, NO_STREAMS, clock, es)
    ensures var s := StreamRun(limit, NO_STREAMS, es);
            && |s.active| <= limit
            && s.active.Keys <= s.key.scores.Keys
  {
    StreamRunKeepsSlots(limit, NO_STREAMS, clock, es);
    var s := StreamRun(limit, NO_STREAMS, es);
    SubsetSize(s.active.Keys, s.key.scores.Keys);
  }

  /** A start is the semaphore script, and counts as active exactly if it got a slot; an end gives the slot back. */
  lemma StreamStepIsTheScript(limit: int, s: Streams, now: int, m: Member)
    ensures var started, ended := StreamStep(limit, s, Start(now, m)), StreamStep(limit, s, End(now, m));
            && started.key == AfterAcquire(s.key, now, limit, m)
            && started.active ==
               (if |AddedAfter(s.key, now, now - 2_100_000)| < limit then s.active[m := now] else s.active)
            && ended.key == SortedSet(s.key.scores - {m}, s.key.expireAt) && ended.active == s.active - {m}
  {
    NewerAre(s.key, now, now - STALE_MS);
  }

  /** A run is one event after the other. */
  lemma {:induction false} StreamRunGoesOn(limit: int, s: Streams, es: seq<StreamEvent>, e: StreamEvent)
    ensures StreamRun(limit, s, es + [e]) == StreamStep(limit, StreamRun(limit, s, es), e)
    decreases |es|
  {
    if es == [] {
      assert es + [e] == [e] && [e][1..] == [];
      assert StreamRun(limit, StreamStep(limit, s, e), []) == StreamStep(limit, s, e);
    } else {
      assert (es + [e])[1..] == es[1..] + [e];
      StreamRunGoesOn(limit, StreamStep(limit, s, es[0]), es[1..], e);
    }
  }

  /** At the next start, an active stream keeps its slot exactly if it is younger than the stale timeout. */
  lemma OverlongStreamIsEvicted(limit: int, s: Streams, clock: int, e: StreamEvent, m: Member)
    requires SlotsHeld(limit, s, clock) && e.Start? && m in s.active && m != e.m
    ensures m in StreamStep(limit, s, e).key.scores <==> e.now < s.active[m] + STALE_MS
  {
    assert m in s.key.scores && s.key.scores[m] == s.active[m];
  }

  lemma RefusedWhenAllAreYoung(limit: int, s: Streams, clock: int, now: int)
    requires SlotsHeld(limit, s, clock) && |s.active| == limit
    requires forall m <- s.active :: now < s.active[m] + STALE_MS
    ensures !SemaphoreAdmits(s.key, now, limit)
  {
    ActiveAreKept(limit, s, clock, now);
    MembersSize(s.active, Newer(Alive(s.key, now), now - STALE_MS));
  }

  lemma AdmittedWhenOneIsStale(limit: int, s: Streams, clock: int, now: int, m: Member)
    requires SlotsHeld(limit, s, clock) && m in s.active && now >= s.active[m] + STALE_MS
    ensures SemaphoreAdmits(s.key, now, limit)
  {
    assert m in s.key.scores && s.key.scores[m] == s.active[m];
    FewerSize(Newer(Alive(s.key, now), now - STALE_MS), s.key.scores, m);
  }

  /**
   The bound on stream length is needed: with every slot taken by an active stream, the next start
   keeps the number of active streams within the limit exactly if all of them are younger than the
   stale timeout.
   */
  lemma LimitHoldsExactlyWhenNoneIsStale(limit: int, s: Streams, clock: int, e: StreamEvent)
    requires SlotsHeld(limit, s, clock) && e.Start? && e.m !in s.active && |s.active| == limit
    ensures |StreamStep(limit, s, e).active| <= limit <==> forall m <- s.active :: e.now < s.active[m] + STALE_MS
  {
    if m :| m in s.active && e.now >= s.active[m] + STALE_MS {
      AdmittedWhenOneIsStale(limit, s, clock, e.now, m);
      NewSize(s.active, e.m, e.now);
    } else {
      RefusedWhenAllAreYoung(limit, s, clock, e.now);
    }
  }
}
