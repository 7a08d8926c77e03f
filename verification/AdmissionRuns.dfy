/**
 Any number of requests going through admission control at once. Every script and every `ZREM` is
 one step, and steps of different requests interleave freely. Token buckets are left open: a
 bucket gate may answer either way, so what holds here holds whatever the buckets contain.
 */
module AdmissionRuns {
  import opened Basics
  import opened SlidingWindow
  import opened RateLimiter

  datatype Gate = WindowGate | BucketGate | SemaphoreGate

  /** Where a request stands: at a gate of rule `i`, undoing what it took, or done. */
  datatype Phase =
    | At(i: nat, gate: Gate)
    | UndoWindows(todo: seq<Rule>)
    | UndoBuckets
    | UndoSlots(todo: seq<Rule>)
    | Denied
    | Passed

  /** A request: its clock reading is taken once, when the check starts. */
  datatype Request = Request(now: int, rules: seq<Rule>, isStream: bool, phase: Phase, rpm: seq<Rule>, stream: bool)

  /** The shared sorted sets and every request that ever started, by its member token. */
  datatype System = System(windows: map<Key, Scores>, semaphores: map<Key, Scores>, requests: map<Member, Request>)

  const EMPTY := System(map[], map[], map[])

  function ScoresAt(sets: map<Key, Scores>, k: Key): Scores {
    if k in sets then sets[k] else map[]
  }

  function Next(r: Request, i: nat, gate: Gate): Request {
    match gate
    case WindowGate => r.(phase := At(i, BucketGate))
    case BucketGate => r.(phase := At(i, SemaphoreGate))
    case SemaphoreGate => r.(phase := At(i + 1, WindowGate))
  }

  /** One atomic step of request `m`; `bucketOpen` is the answer of a bucket gate, if it is at one. */
  function Step(s: System, m: Member, bucketOpen: bool): System
    requires m in s.requests
  {
    var r := s.requests[m];
    match r.phase
    case At(i, gate) =>
      if i >= |r.rules| then s.(requests := s.requests[m := r.(phase := Passed)])
      else GateStep(s, m, i, gate, bucketOpen)
    case UndoWindows(todo) =>
      if todo == [] then s.(requests := s.requests[m := r.(phase := UndoBuckets)])
      else
        var k := todo[0].Key();
        s.(windows := s.windows[k := ScoresAt(s.windows, k) - {m}],
           requests := s.requests[m := r.(phase := UndoWindows(todo[1..]))])
    case UndoBuckets =>
      s.(requests := s.requests[m := r.(phase := UndoSlots(if r.stream then r.rules else []))])
    case UndoSlots(todo) =>
      if todo == [] then s.(requests := s.requests[m := r.(phase := Denied)])
      else
        var k := todo[0].Key();
        s.(semaphores := if todo[0].streams.Some? then s.semaphores[k := ScoresAt(s.semaphores, k) - {m}]
                         else s.semaphores,
           requests := s.requests[m := r.(phase := UndoSlots(todo[1..]))])
    case Denied => s
    case Passed => s
  }

  function GateStep(s: System, m: Member, i: nat, gate: Gate, bucketOpen: bool): System
    requires m in s.requests && i < |s.requests[m].rules|
  {
    var r := s.requests[m];
    var rule := r.rules[i];
    var k := rule.Key();
    var on, off := Next(r, i, gate), r.(phase := UndoWindows(r.rpm));
    match gate
    case WindowGate =>
      if rule.rpm.None? then s.(requests := s.requests[m := on])
      else
        var kept := Newer(ScoresAt(s.windows, k), r.now - WINDOW_MS);
        if |kept| >= rule.rpm.value then
          s.(windows := s.windows[k := kept], requests := s.requests[m := off])
        else
          s.(windows := s.windows[k := kept[m := r.now]], requests := s.requests[m := on.(rpm := r.rpm + [rule])])
    case BucketGate =>
      s.(requests := s.requests[m := if bucketOpen then on else off])
    case SemaphoreGate =>
      if rule.streams.None? || !r.isStream then s.(requests := s.requests[m := on])
      else
        var kept := Newer(ScoresAt(s.semaphores, k), r.now - STALE_MS);
        if |kept| >= rule.streams.value then
          s.(semaphores := s.semaphores[k := kept], requests := s.requests[m := off])
        else
          s.(semaphores := s.semaphores[k := kept[m := r.now]], requests := s.requests[m := on.(stream := true)])
  }

  /** A new request, a step of a running one, or Redis expiring a whole key. */
  datatype Action =
    | Start(m: Member, now: int, rules: seq<Rule>, isStream: bool)
    | Run(m: Member, bucketOpen: bool)
    | ExpireWindow(k: Key)
    | ExpireSemaphore(k: Key)

  /** Member tokens are unguessable and never reused. */
  predicate Possible(s: System, a: Action) {
    match a
    case Start(m, _, _, _) => m !in s.requests
    case Run(m, _) => m in s.requests
    case _ => true
  }

  function Act(s: System, a: Action): System
    requires Possible(s, a)
  {
    match a
    case Start(m, now, rules, isStream) =>
      s.(requests := s.requests[m := Request(now, rules, isStream, At(0, WindowGate), [], false)])
    case Run(m, bucketOpen) => Step(s, m, bucketOpen)
    case ExpireWindow(k) => s.(windows := s.windows - {k})
    case ExpireSemaphore(k) => s.(semaphores := s.semaphores - {k})
  }

  predicate Schedule(s: System, actions: seq<Action>)
    decreases |actions|
  {
    actions == [] || (Possible(s, actions[0]) && Schedule(Act(s, actions[0]), actions[1..]))
  }

  function After(s: System, actions: seq<Action>): System
    requires Schedule(s, actions)
    decreases |actions|
  {
    if actions == [] then s else After(Act(s, actions[0]), actions[1..])
  }

  /** The windows in which a request at this point may be. */
  ghost predicate MayWindow(r: Request, k: Key) {
    match r.phase
    case At(_, _) => exists x <- r.rpm :: x.Key() == k
    case UndoWindows(todo) => exists x <- todo :: x.Key() == k
    case Passed => exists x <- r.rpm :: x.Key() == k
    case _ => false
  }

  /** The semaphores in which a request at this point may be. */
  ghost predicate MaySlot(r: Request, k: Key) {
    match r.phase
    case UndoSlots(todo) => exists x <- todo :: x.Key() == k && x.streams.Some?
    case Denied => false
    case _ => r.stream && exists x <- r.rules :: x.Key() == k && x.streams.Some?
  }

  /** Member `x` is under key `k` only while its request may be there. */
  ghost predicate Accounted(s: System, k: Key, x: Member) {
    && (x in ScoresAt(s.windows, k) ==> x in s.requests && MayWindow(s.requests[x], k))
    && (x in ScoresAt(s.semaphores, k) ==> x in s.requests && MaySlot(s.requests[x], k))
  }

  /** One more window in its list takes a request out of none, and puts it into that of the rule. */
  lemma KeepsWindows(r: Request, rule: Rule, k: Key)
    ensures (exists x <- r.rpm + [rule] :: x.Key() == k) <==> (exists x <- r.rpm :: x.Key() == k) || rule.Key() == k
  {
    assert rule in r.rpm + [rule];
    assert forall y <- r.rpm :: y in r.rpm + [rule];
  }

  lemma WindowGateKeepsAccount(s: System, m: Member, i: nat, bucketOpen: bool, k: Key, x: Member)
    requires Accounted(s, k, x) && m in s.requests && i < |s.requests[m].rules|
    requires s.requests[m].phase == At(i, WindowGate)
    ensures Accounted(GateStep(s, m, i, WindowGate, bucketOpen), k, x)
  {
    var r := s.requests[m];
    if x == m && r.rules[i].rpm.Some? {
      KeepsWindows(r, r.rules[i], k);
    }
  }

  lemma SemaphoreGateKeepsAccount(s: System, m: Member, i: nat, bucketOpen: bool, k: Key, x: Member)
    requires Accounted(s, k, x) && m in s.requests && i < |s.requests[m].rules|
    requires s.requests[m].phase == At(i, SemaphoreGate)
    ensures Accounted(GateStep(s, m, i, SemaphoreGate, bucketOpen), k, x)
  {
    if x == m {
      assert s.requests[m].rules[i] in s.requests[m].rules;
    }
  }

  lemma GateKeepsAccount(s: System, m: Member, bucketOpen: bool, k: Key, x: Member)
    requires Accounted(s, k, x) && m in s.requests && s.requests[m].phase.At?
    ensures Accounted(Step(s, m, bucketOpen), k, x)
  {
    var r := s.requests[m];
    if r.phase.i < |r.rules| {
      match r.phase.gate
      case WindowGate => WindowGateKeepsAccount(s, m, r.phase.i, bucketOpen, k, x);
      case BucketGate =>
      case SemaphoreGate => SemaphoreGateKeepsAccount(s, m, r.phase.i, bucketOpen, k, x);
    }
  }

  lemma UndoKeepsAccount(s: System, m: Member, bucketOpen: bool, k: Key, x: Member)
    requires Accounted(s, k, x) && m in s.requests && !s.requests[m].phase.At?
    ensures Accounted(Step(s, m, bucketOpen), k, x)
  {
    var r := s.requests[m];
    if (r.phase.UndoWindows? || r.phase.UndoSlots?) && r.phase.todo != [] {
      var todo := r.phase.todo;
      assert forall y <- todo :: y == todo[0] || y in todo[1..];
    }
  }

  lemma {:induction false} RunKeepsAccount(s: System, actions: seq<Action>, k: Key, x: Member)
    requires Accounted(s, k, x) && Schedule(s, actions)
    ensures Accounted(After(s, actions), k, x)
    decreases |actions|
  {
    if actions != [] {
      var a := actions[0];
      if a.Run? {
        if s.requests[a.m].phase.At? {
          GateKeepsAccount(s, a.m, a.bucketOpen, k, x);
        } else {
          UndoKeepsAccount(s, a.m, a.bucketOpen, k, x);
        }
      }
      RunKeepsAccount(Act(s, a), actions[1..], k, x);
    }
  }

  /** In every interleaving, a request that has been denied is in no window and in no semaphore. */
  lemma DeniedLeavesNoEntry(actions: seq<Action>, m: Member, k: Key)
    requires Schedule(EMPTY, actions)
    requires var s := After(EMPTY, actions); m in s.requests && s.requests[m].phase.Denied?
    ensures var s := After(EMPTY, actions); m !in ScoresAt(s.windows, k) && m !in ScoresAt(s.semaphores, k)
  {
    RunKeepsAccount(EMPTY, actions, k, m);
  }

  // ---------------------------------------------------------------------------------------------
  // The steps are the scripts
  // ---------------------------------------------------------------------------------------------

  /** A request waiting at a gate of rule `i`. */
  ghost predicate WaitsAt(s: System, m: Member, i: nat, gate: Gate) {
    m in s.requests && i < |s.requests[m].rules| && s.requests[m].phase == At(i, gate)
  }

  /** A request goes on to `phase`, with what it is recorded to have taken; every other request is as before. */
  ghost predicate GoesTo(s: System, s': System, m: Member, phase: Phase, rpm: seq<Rule>, stream: bool)
    requires m in s.requests
  {
    s'.requests == s.requests[m := s.requests[m].(phase := phase, rpm := rpm, stream := stream)]
  }

  /**
   At a window gate a request runs the window script of its rule: admitted, it goes on to the bucket
   gate with the rule recorded, refused, it starts to undo; without a limit it passes. No other set changes.
   */
  lemma WindowGateIsTheScript(s: System, m: Member, i: nat, bucketOpen: bool, expireAt: int)
    requires WaitsAt(s, m, i, WindowGate) && s.requests[m].now <= expireAt
    ensures var r, s' := s.requests[m], Step(s, m, bucketOpen);
            var rule := r.rules[i];
            var k := (rule.id, rule.subject);
            var stored := SortedSet(ScoresAt(s.windows, k), expireAt);
            && s'.semaphores == s.semaphores
            && if rule.rpm.None? then s'.windows == s.windows && GoesTo(s, s', m, At(i, BucketGate), r.rpm, r.stream)
               else
                 && s'.windows == s.windows[k := AfterWindowCheck(stored, r.now, rule.rpm.value, m).scores]
                 && if WindowAdmits(stored, r.now, rule.rpm.value)
                    then GoesTo(s, s', m, At(i, BucketGate), r.rpm + [rule], r.stream)
                    else GoesTo(s, s', m, UndoWindows(r.rpm), r.rpm, r.stream)
  {
  }

  /** When a key expires, exactly its entries are gone. */
  lemma ExpiryDropsOneKey(s: System, k: Key)
    ensures var window, semaphore := Act(s, ExpireWindow(k)), Act(s, ExpireSemaphore(k));
            && window == s.(windows := s.windows - {k}) && semaphore == s.(semaphores := s.semaphores - {k})
  {
  }

  /** A new request waits at the first gate of its first rule and is recorded to have taken nothing. */
  lemma StartsAtTheFirstGate(s: System, m: Member, now: int, rules: seq<Rule>, isStream: bool)
    requires m !in s.requests && rules != []
    ensures var s' := Act(s, Action.Start(m, now, rules, isStream));
            && WaitsAt(s', m, 0, WindowGate) && s'.windows == s.windows && s'.semaphores == s.semaphores
            && s'.requests[m].now == now && s'.requests[m].rules == rules && s'.requests[m].isStream == isStream
            && s'.requests[m].rpm == [] && !s'.requests[m].stream && s'.requests - {m} == s.requests - {m}
  {
  }

  /** At a bucket gate it goes on to the semaphore gate, or starts to undo. */
  lemma BucketGateOnlyAnswers(s: System, m: Member, i: nat, bucketOpen: bool)
    requires WaitsAt(s, m, i, BucketGate)
    ensures var r, s' := s.requests[m], Step(s, m, bucketOpen);
            && s'.windows == s.windows && s'.semaphores == s.semaphores
            && GoesTo(s, s', m, if bucketOpen then At(i, SemaphoreGate) else UndoWindows(r.rpm), r.rpm, r.stream)
  {
  }

  /** At a semaphore gate a stream runs the semaphore script, and goes on to the next rule or starts to undo. */
  lemma SemaphoreGateIsTheScript(s: System, m: Member, i: nat, bucketOpen: bool, expireAt: int)
    requires WaitsAt(s, m, i, SemaphoreGate) && s.requests[m].now <= expireAt
    ensures var r, s' := s.requests[m], Step(s, m, bucketOpen);
            var rule := r.rules[i];
            var k := (rule.id, rule.subject);
            var stored := SortedSet(ScoresAt(s.semaphores, k), expireAt);
            && s'.windows == s.windows
            && if rule.streams.None? || !r.isStream
               then s'.semaphores == s.semaphores && GoesTo(s, s', m, At(i + 1, WindowGate), r.rpm, r.stream)
               else
                 && s'.semaphores == s.semaphores[k := AfterAcquire(stored, r.now, rule.streams.value, m).scores]
                 && if SemaphoreAdmits(stored, r.now, rule.streams.value)
                    then GoesTo(s, s', m, At(i + 1, WindowGate), r.rpm, true)
                    else GoesTo(s, s', m, UndoWindows(r.rpm), r.rpm, r.stream)
  {
  }

  /** The set under `k` is the one that a step of the undoing takes `m` out of. */
  ghost predicate GivesUpWindow(r: Request, k: Key) {
    r.phase.UndoWindows? && r.phase.todo != [] && (r.phase.todo[0].id, r.phase.todo[0].subject) == k
  }

  ghost predicate GivesUpSlot(r: Request, k: Key) {
    && r.phase.UndoSlots? && r.phase.todo != [] && r.phase.todo[0].streams.Some?
    && (r.phase.todo[0].id, r.phase.todo[0].subject) == k
  }

  /** A step of the undoing takes `m` out of one set, as `ZREM` does, and takes out nothing else. */
  lemma UndoingRemovesOnly(s: System, m: Member, bucketOpen: bool, k: Key, x: Member)
    requires m in s.requests && !s.requests[m].phase.At?
    ensures var s', r := Step(s, m, bucketOpen), s.requests[m];
            && (x in ScoresAt(s'.windows, k) <==> x in ScoresAt(s.windows, k) && !(x == m && GivesUpWindow(r, k)))
            && (x in ScoresAt(s'.semaphores, k) <==> x in ScoresAt(s.semaphores, k) && !(x == m && GivesUpSlot(r, k)))
  {
  }

  /** How many more steps a refused request needs. */
  function StepsLeft(r: Request): nat {
    match r.phase
    case UndoWindows(todo) => |todo| + |r.rules| + 3
    case UndoBuckets => |r.rules| + 2
    case UndoSlots(todo) => |todo| + 1
    case _ => 0
  }

  /** A refused request ends denied, if it is left to run. */
  lemma {:induction false} RefusalEnds(s: System, m: Member) returns (actions: seq<Action>)
    requires m in s.requests
    requires var phase := s.requests[m].phase;
             phase.UndoWindows? || phase.UndoBuckets? || phase.UndoSlots? || phase.Denied?
    ensures forall a <- actions :: a == Run(m, false)
    ensures Schedule(s, actions) && m in After(s, actions).requests && After(s, actions).requests[m].phase.Denied?
    decreases StepsLeft(s.requests[m])
  {
    actions := [];
    if !s.requests[m].phase.Denied? {
      var rest := RefusalEnds(Act(s, Run(m, false)), m);
      actions := [Run(m, false)] + rest;
      assert actions[1..] == rest;
    }
  }

  /** A request that has been let through by the gates of every rule has passed. */
  lemma LastGatePasses(s: System, m: Member, gate: Gate, bucketOpen: bool)
    requires m in s.requests && s.requests[m].phase == At(|s.requests[m].rules|, gate)
    ensures var s' := Step(s, m, bucketOpen);
            && s'.windows == s.windows && s'.semaphores == s.semaphores
            && GoesTo(s, s', m, Passed, s.requests[m].rpm, s.requests[m].stream)
  {
  }
}
