/**
 The requests-per-minute window when clock readings arrive out of order. A request reads the clock
 first and runs the window script later, up to `delay` milliseconds; scripts run in the order of
 the server's time, and the server's time decides when a key expires.
 */
module SkewedWindow {
  import opened SlidingWindow

  datatype Delayed = AskAt(at: int, now: int, m: Member) | GiveBackAt(at: int, m: Member)

  /** The window script at server time `at` with the reading `now`. */
  function AfterDelayedCheck(s: SortedSet, at: int, now: int, limit: int, m: Member): SortedSet {
    var kept := Newer(Alive(s, at), now - WINDOW_MS);
    if |kept| >= limit then SortedSet(kept, s.expireAt) else SortedSet(kept[m := now], at + WINDOW_TTL_MS)
  }

  function Step(limit: int, w: Window, e: Delayed): Window {
    match e
    case AskAt(at, now, m) =>
      Window(AfterDelayedCheck(w.key, at, now, limit, m),
             if |Newer(Alive(w.key, at), now - WINDOW_MS)| < limit then w.admitted[m := now] else w.admitted)
    case GiveBackAt(_, m) => Window(AfterRemove(w.key, m), w.admitted - {m})
  }

  function Run(limit: int, w: Window, es: seq<Delayed>): Window
    decreases |es|
  {
    if es == [] then w else Run(limit, Step(limit, w, es[0]), es[1..])
  }

  /** Server time does not run backwards, and a reading is at most `delay` old when it is used. */
  predicate Within(limit: int, delay: int, w: Window, clock: int, es: seq<Delayed>)
    decreases |es|
  {
    es == [] ||
    (&& clock <= es[0].at
     && (es[0].AskAt? ==> es[0].at - delay <= es[0].now <= es[0].at && 0 <= es[0].now && es[0].m !in w.admitted)
     && Within(limit, delay, Step(limit, w, es[0]), es[0].at, es[1..]))
  }

  /** An event whose reading is used at once. */
  function AtOnce(e: Event): Delayed {
    match e
    case Ask(now, m) => AskAt(now, now, m)
    case GiveBack(now, m) => GiveBackAt(now, m)
  }

  function AllAtOnce(es: seq<Event>): seq<Delayed> {
    if es == [] then [] else [AtOnce(es[0])] + AllAtOnce(es[1..])
  }

  lemma NoDelayStep(limit: int, w: Window, e: Event)
    ensures Step(limit, w, AtOnce(e)) == WindowStep(limit, w, e)
  {
  }

  /** Without delay these are the runs of the window script. */
  lemma {:induction false} NoDelayIsTheScript(limit: int, w: Window, es: seq<Event>)
    ensures Run(limit, w, AllAtOnce(es)) == WindowRun(limit, w, es)
    decreases |es|
  {
    if es != [] {
      var next := WindowStep(limit, w, es[0]);
      NoDelayStep(limit, w, es[0]);
      NoDelayIsTheScript(limit, next, es[1..]);
      assert AllAtOnce(es)[1..] == AllAtOnce(es[1..]);
      assert Run(limit, w, AllAtOnce(es)) == Run(limit, next, AllAtOnce(es[1..]));
    }
  }

  /** The members of `z` added in the `length` milliseconds up to and including `t`. */
  function InSpan(z: Scores, t: int, length: int): set<Member> {
    set m | m in z && t - length < z[m] <= t
  }

  ghost predicate AtMost(limit: int, z: Scores, t: int, length: int) {
    |InSpan(z, t, length)| <= limit
  }

  ghost predicate SpansBounded(limit: int, length: int, w: Window) {
    forall t :: AtMost(limit, w.admitted, t, length)
  }

  /** A span that reaches past the new request holds only what the script kept, and the request. */
  lemma SpanAfterAsk(w: Window, clock: int, length: int, at: int, now: int, m: Member, t: int)
    requires Faithful(w, clock) && clock <= at && at - (WINDOW_MS - length) <= now <= at && now <= t
    requires m !in w.admitted
    ensures InSpan(w.admitted[m := now], t, length) <= Newer(Alive(w.key, at), now - WINDOW_MS).Keys + {m}
  {
    var kept := Newer(Alive(w.key, at), now - WINDOW_MS);
    forall x | x in InSpan(w.admitted[m := now], t, length) && x != m ensures x in kept {
      assert x in w.admitted && w.admitted[x] > at - WINDOW_MS && x in w.key.scores;
    }
  }

  lemma AskKeepsSpan(limit: int, length: int, w: Window, clock: int, e: Delayed, t: int)
    requires Faithful(w, clock) && AtMost(limit, w.admitted, t, length) && e.AskAt?
    requires clock <= e.at && e.at - (WINDOW_MS - length) <= e.now <= e.at && e.m !in w.admitted
    requires |Newer(Alive(w.key, e.at), e.now - WINDOW_MS)| < limit
    ensures AtMost(limit, w.admitted[e.m := e.now], t, length)
  {
    var admitted := w.admitted[e.m := e.now];
    if t < e.now {
      assert InSpan(admitted, t, length) == InSpan(w.admitted, t, length);
    } else {
      SpanAfterAsk(w, clock, length, e.at, e.now, e.m, t);
      OneMoreSize(InSpan(admitted, t, length), Newer(Alive(w.key, e.at), e.now - WINDOW_MS), e.m);
    }
  }

  lemma AskKeepsSpans(limit: int, length: int, w: Window, clock: int, e: Delayed)
    requires Faithful(w, clock) && SpansBounded(limit, length, w) && e.AskAt?
    requires clock <= e.at && e.at - (WINDOW_MS - length) <= e.now <= e.at && e.m !in w.admitted
    ensures SpansBounded(limit, length, Step(limit, w, e))
  {
    if |Newer(Alive(w.key, e.at), e.now - WINDOW_MS)| < limit {
      forall t ensures AtMost(limit, Step(limit, w, e).admitted, t, length) {
        AskKeepsSpan(limit, length, w, clock, e, t);
      }
    }
  }

  /** The script forgets nothing that a later script could still count. */
  lemma RecentAreKept(w: Window, clock: int, at: int, now: int, m: Member)
    requires Faithful(w, clock) && clock <= at && now <= at && m in w.admitted && w.admitted[m] > at - WINDOW_MS
    ensures m in Newer(Alive(w.key, at), now - WINDOW_MS)
  {
    assert m in w.key.scores;
  }

  lemma StepKeepsFaithful(limit: int, w: Window, clock: int, e: Delayed)
    requires Faithful(w, clock) && 0 <= clock <= e.at && (e.AskAt? ==> 0 <= e.now <= e.at && e.m !in w.admitted)
    ensures Faithful(Step(limit, w, e), e.at)
  {
    if e.AskAt? {
      forall m <- w.admitted | w.admitted[m] > e.at - WINDOW_MS
        ensures m in Newer(Alive(w.key, e.at), e.now - WINDOW_MS)
      {
        RecentAreKept(w, clock, e.at, e.now, m);
      }
    }
  }

  lemma GiveBackKeepsSpans(limit: int, length: int, w: Window, e: Delayed)
    requires SpansBounded(limit, length, w) && e.GiveBackAt?
    ensures SpansBounded(limit, length, Step(limit, w, e))
  {
    forall t ensures AtMost(limit, w.admitted - {e.m}, t, length) {
      assert AtMost(limit, w.admitted, t, length);
      SubsetSize(InSpan(w.admitted - {e.m}, t, length), InSpan(w.admitted, t, length));
    }
  }

  lemma {:induction false} RunKeepsSpans(limit: int, delay: int, length: int, w: Window, clock: int, es: seq<Delayed>)
    requires length == WINDOW_MS - delay && clock >= 0 && Faithful(w, clock) && SpansBounded(limit, length, w)
    requires Within(limit, delay, w, clock, es)
    ensures SpansBounded(limit, length, Run(limit, w, es))
    decreases |es|
  {
    if es != [] {
      StepKeepsFaithful(limit, w, clock, es[0]);
      if es[0].AskAt? {
        AskKeepsSpans(limit, length, w, clock, es[0]);
      } else {
        GiveBackKeepsSpans(limit, length, w, es[0]);
      }
      RunKeepsSpans(limit, delay, length, Step(limit, w, es[0]), es[0].at, es[1..]);
    }
  }

  // ---------------------------------------------------------------------------------------------
  // No longer span is safe
  // ---------------------------------------------------------------------------------------------

  /** Members 0 to `n - 1`, all added at the end of the first minute. */
  function Minute(n: nat): (z: Scores)
    ensures |z| == n && forall m: nat :: (m in z <==> m < n) && (m in z ==> z[m] == WINDOW_MS)
  {
    if n == 0 then map[]
    else
      NewSize(Minute(n - 1), n - 1, WINDOW_MS);
      Minute(n - 1)[n - 1 := WINDOW_MS]
  }

  function Filled(n: nat): Window {
    Window(SortedSet(Minute(n), if n == 0 then 0 else WINDOW_MS + WINDOW_TTL_MS), Minute(n))
  }

  lemma FillOne(limit: nat, n: nat)
    requires n < limit
    ensures Step(limit, Filled(n), AskAt(WINDOW_MS, WINDOW_MS, n)) == Filled(n + 1)
  {
    assert Alive(Filled(n).key, WINDOW_MS) == Minute(n);
    assert Newer(Minute(n), 0) == Minute(n);
    assert Minute(n)[n := WINDOW_MS] == Minute(n + 1);
  }

  /** Filling the window from `n` members up to the limit, and then going on with `rest`. */
  lemma {:induction false} Fill(limit: nat, delay: nat, n: nat, rest: seq<Delayed>) returns (es: seq<Delayed>)
    requires n <= limit && Within(limit, delay, Filled(limit), WINDOW_MS, rest)
    ensures Within(limit, delay, Filled(n), WINDOW_MS, es)
    ensures Run(limit, Filled(n), es) == Run(limit, Filled(limit), rest)
    decreases limit - n
  {
    es := rest;
    if n < limit {
      var more := Fill(limit, delay, n + 1, rest);
      FillOne(limit, n);
      es := [AskAt(WINDOW_MS, WINDOW_MS, n)] + more;
      assert es[1..] == more;
    }
  }

  /** A request that finds nothing that still counts is admitted alone. */
  lemma AskSweeps(limit: nat, w: Window, at: int, now: int, m: Member)
    requires limit > 0 && forall x <- w.key.scores :: w.key.scores[x] <= now - WINDOW_MS
    ensures Step(limit, w, AskAt(at, now, m)) ==
            Window(SortedSet(map[m := now], at + WINDOW_TTL_MS), w.admitted[m := now])
  {
    assert Newer(Alive(w.key, at), now - WINDOW_MS) == map[];
  }

  lemma AddAndRemove(z: Scores, m: Member, score: int)
    requires m !in z
    ensures z[m := score] - {m} == z
  {
  }

  /**
   A minute later one request empties the window and gives its slot back; another, which read the
   clock `delay` ms ago, is admitted into the minute that was full.
   */
  lemma Overfill(limit: nat, delay: nat, w: Window, m: Member) returns (rest: seq<Delayed>)
    requires limit > 0 && delay <= WINDOW_MS && m !in w.admitted && m + 1 !in w.admitted
    requires forall x <- w.key.scores :: w.key.scores[x] <= WINDOW_MS
    ensures Within(limit, delay, w, WINDOW_MS, rest)
    ensures Run(limit, w, rest).admitted == w.admitted[m + 1 := 2 * WINDOW_MS - delay]
  {
    var late := 2 * WINDOW_MS;
    var e1, e2, e3 := AskAt(late, late, m), GiveBackAt(late, m), AskAt(late, late - delay, m + 1);
    AskSweeps(limit, w, late, late, m);
    var w1 := Step(limit, w, e1);
    AddAndRemove(w.admitted, m, late);
    AddAndRemove(map[], m, late);
    var w2 := Window(SortedSet(map[], late + WINDOW_TTL_MS), w.admitted);
    assert Step(limit, w1, e2) == w2;
    AskSweeps(limit, w2, late, late - delay, m + 1);
    ThreeSteps(limit, delay, w, WINDOW_MS, e1, e2, e3);
    rest := [e1, e2, e3];
  }

  lemma ThreeSteps(limit: nat, delay: nat, w: Window, clock: int, e1: Delayed, e2: Delayed, e3: Delayed)
    requires e1.AskAt? && clock <= e1.at && e1.at - delay <= e1.now <= e1.at && 0 <= e1.now && e1.m !in w.admitted
    requires e2.GiveBackAt? && e1.at <= e2.at <= e3.at
    requires e3.AskAt? && e3.at - delay <= e3.now <= e3.at && 0 <= e3.now
    requires e3.m !in Step(limit, Step(limit, w, e1), e2).admitted
    ensures Within(limit, delay, w, clock, [e1, e2, e3])
    ensures Run(limit, w, [e1, e2, e3]) == Step(limit, Step(limit, Step(limit, w, e1), e2), e3)
  {
    var w1 := Step(limit, w, e1);
    var w2 := Step(limit, w1, e2);
    assert [e1, e2, e3][1..] == [e2, e3] && [e2, e3][1..] == [e3] && [e3][1..] == [];
    assert Within(limit, delay, w2, e2.at, [e3]) && Within(limit, delay, w1, e1.at, [e2, e3]);
    assert Run(limit, w2, [e3]) == Run(limit, Step(limit, w2, e3), []);
    assert Run(limit, w1, [e2, e3]) == Run(limit, w2, [e3]);
  }

  /** Every span of this length holds at most `limit` requests, after every run with such a delay. */
  ghost predicate SpanIsSafe(limit: nat, delay: nat, length: int) {
    forall es, t :: Within(limit, delay, FRESH_WINDOW, 0, es) ==>
      AtMost(limit, Run(limit, FRESH_WINDOW, es).admitted, t, length)
  }

  lemma ShorterSpan(z: Scores, t: int, short: int, long: int)
    requires short <= long
    ensures |InSpan(z, t, short)| <= |InSpan(z, t, long)|
  {
    SubsetSize(InSpan(z, t, short), InSpan(z, t, long));
  }

  lemma OverfullSpan(limit: nat, delay: nat, length: int)
    requires limit > 0 && delay <= WINDOW_MS && length > WINDOW_MS - delay
    ensures !SpanIsSafe(limit, delay, length)
  {
    var rest := Overfill(limit, delay, Filled(limit), limit);
    var es := Fill(limit, delay, 0, rest);
    var w := Run(limit, Filled(limit), rest);
    assert Filled(0) == FRESH_WINDOW && Within(limit, delay, FRESH_WINDOW, 0, es);
    var t := 2 * WINDOW_MS - delay;
    NewSize(Minute(limit), limit + 1, t);
    assert InSpan(w.admitted, t, length) == w.admitted.Keys;
    assert |w.admitted.Keys| == |w.admitted|;
    assert !AtMost(limit, w.admitted, t, length);
  }

  lemma FreshSpans(limit: nat, length: int)
    ensures SpansBounded(limit, length, FRESH_WINDOW)
  {
    forall t ensures AtMost(limit, FRESH_WINDOW.admitted, t, length) {
      assert InSpan(FRESH_WINDOW.admitted, t, length) == {};
    }
  }

  lemma ShortSpansAreSafe(limit: nat, delay: nat, length: int, es: seq<Delayed>, t: int)
    requires length <= WINDOW_MS - delay && Within(limit, delay, FRESH_WINDOW, 0, es)
    ensures AtMost(limit, Run(limit, FRESH_WINDOW, es).admitted, t, length)
  {
    var safe := WINDOW_MS - delay;
    FreshSpans(limit, safe);
    RunKeepsSpans(limit, delay, safe, FRESH_WINDOW, 0, es);
    assert AtMost(limit, Run(limit, FRESH_WINDOW, es).admitted, t, safe);
    ShorterSpan(Run(limit, FRESH_WINDOW, es).admitted, t, length, safe);
  }

  /**
   With readings up to `delay` ms old, the spans that never hold more than `limit` requests are
   exactly those that are shorter than the window by that delay or more.
   */
  lemma SafeSpansAreShorterByTheDelay(limit: nat, delay: nat, length: int)
    requires limit > 0 && delay <= WINDOW_MS
    ensures SpanIsSafe(limit, delay, length) <==> length <= WINDOW_MS - delay
  {
    if length <= WINDOW_MS - delay {
      forall es, t | Within(limit, delay, FRESH_WINDOW, 0, es)
        ensures AtMost(limit, Run(limit, FRESH_WINDOW, es).admitted, t, length)
      {
        ShortSpansAreSafe(limit, delay, length, es, t);
      }
    } else {
      OverfullSpan(limit, delay, length);
    }
  }
}
