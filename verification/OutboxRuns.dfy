/**
 Any number of enqueues of one process at once. Between two pushes a coroutine runs alone; while it
 waits for a push, others take events from the outbox, put them back and park their own. Every
 event is enqueued once and stands for the coroutine that enqueues it.
 */
module OutboxRuns {
  import opened Outbox

  /** What an enqueue waits for: the push of an event that it took from the outbox, or of its own. */
  datatype Task = Replaying(item: nat) | Pushing

  datatype System = System(box: seq<nat>, received: seq<nat>, tasks: map<nat, Task>, started: set<nat>, lost: set<nat>)

  const EMPTY := System([], [], map[], {}, {})

  /** An enqueue begins, or a push that it waits for works or fails. */
  datatype Action = Start(x: nat) | Return(x: nat, works: bool)

  /** `appendleft` on a deque of bounded length drops from the right. */
  function PutBack(box: seq<nat>, item: nat): seq<nat> {
    [item] + (if |box| >= CAPACITY then box[..CAPACITY - 1] else box)
  }

  /** `append` drops from the left. */
  function Park(box: seq<nat>, x: nat): seq<nat> {
    (if |box| >= CAPACITY then box[1..] else box) + [x]
  }

  /** The elements of one outbox that another no longer holds. */
  function Dropped(before: seq<nat>, after: seq<nat>): set<nat> {
    set x | x in before && x !in after
  }

  /** An enqueue looks at the outbox: it takes the oldest event, or goes on to its own. */
  function Look(s: System, x: nat): System {
    if s.box == [] then s.(tasks := s.tasks[x := Pushing])
    else s.(box := s.box[1..], tasks := s.tasks[x := Replaying(s.box[0])])
  }

  function Failed(s: System, x: nat): System
    requires x in s.tasks
  {
    var front := if s.tasks[x].Replaying? then PutBack(s.box, s.tasks[x].item) else s.box;
    var box := Park(front, x);
    s.(box := box, tasks := s.tasks - {x}, lost := s.lost + Dropped(s.box, front) + Dropped(front, box))
  }

  predicate Possible(s: System, a: Action) {
    match a
    case Start(x) => x !in s.started
    case Return(x, _) => x in s.tasks
  }

  function Act(s: System, a: Action): System
    requires Possible(s, a)
  {
    match a
    case Start(x) => Look(s.(started := s.started + {x}), x)
    case Return(x, works) =>
      if !works then Failed(s, x)
      else
        match s.tasks[x]
        case Replaying(item) => Look(s.(received := s.received + [item]), x)
        case Pushing => s.(received := s.received + [x], tasks := s.tasks - {x})
  }

  predicate Schedule(s: System, actions: seq<Action>)
    decreases |actions|
  {
    actions == [] || (Possible(s, actions[0]) && Schedule(Act(s, actions[0]), actions[1..]))
  }

  function After(s: System, actions: seq<Action>): System
    requires Schedule(s, actions)
    decreases |actions|
  {
    if actions == [] then s else After(Act(s, actions[0]), actions[1..])
  }

  // ---------------------------------------------------------------------------------------------
  // Every event is in exactly one place
  // ---------------------------------------------------------------------------------------------

  ghost predicate NoRepeat(xs: seq<nat>) {
    forall i, j :: 0 <= i < j < |xs| ==> xs[i] != xs[j]
  }

  ghost predicate Carried(s: System, e: nat) {
    exists x <- s.tasks :: s.tasks[x] == Replaying(e)
  }

  function One(b: bool): nat { if b then 1 else 0 }

  /** The number of places that hold `e`: the outbox, Redis, its own task, a task that replays it, the lost ones. */
  ghost function Places(s: System, e: nat): nat {
    One(e in s.box) + One(e in s.received) + One(e in s.tasks) + One(Carried(s, e)) + One(e in s.lost)
  }

  ghost predicate Placed(s: System, e: nat) {
    Places(s, e) == One(e in s.started)
  }

  ghost predicate CarriedOnce(s: System) {
    forall x <- s.tasks, y <- s.tasks :: s.tasks[x] == s.tasks[y] && s.tasks[x].Replaying? ==> x == y
  }

  ghost predicate Inv(s: System) {
    && |s.box| <= CAPACITY && NoRepeat(s.box) && NoRepeat(s.received) && CarriedOnce(s)
    && (forall e :: Placed(s, e))
  }

  /** Who carries what once task `x` is replaced, or gone. */
  lemma SetTask(s: System, x: nat, task: Task, e: nat)
    requires CarriedOnce(s)
    ensures Carried(s.(tasks := s.tasks[x := task]), e) <==>
              task == Replaying(e) || (Carried(s, e) && !(x in s.tasks && s.tasks[x] == Replaying(e)))
  {
    var t := s.(tasks := s.tasks[x := task]);
    if task == Replaying(e) {
      assert x in t.tasks && t.tasks[x] == Replaying(e);
    }
    forall y <- s.tasks | s.tasks[y] == Replaying(e) && y != x ensures Carried(t, e) {
      assert y in t.tasks && t.tasks[y] == Replaying(e);
    }
  }

  lemma DropTask(s: System, x: nat, e: nat)
    requires CarriedOnce(s) && x in s.tasks
    ensures Carried(s.(tasks := s.tasks - {x}), e) <==> Carried(s, e) && s.tasks[x] != Replaying(e)
  {
    var t := s.(tasks := s.tasks - {x});
    forall y <- s.tasks | s.tasks[y] == Replaying(e) && y != x ensures Carried(t, e) {
      assert y in t.tasks && t.tasks[y] == Replaying(e);
    }
  }

  lemma TailHas(box: seq<nat>, e: nat)
    requires NoRepeat(box) && box != []
    ensures NoRepeat(box[1..]) && (e in box[1..] <==> e in box && e != box[0])
  {
    assert box == [box[0]] + box[1..];
  }

  lemma FrontHas(box: seq<nat>, e: nat)
    requires NoRepeat(box) && box != []
    ensures var n := |box| - 1; NoRepeat(box[..n]) && (e in box[..n] <==> e in box && e != box[n])
  {
    var n := |box| - 1;
    assert box == box[..n] + [box[n]];
  }

  lemma PutBackHas(box: seq<nat>, item: nat, e: nat)
    requires |box| <= CAPACITY && NoRepeat(box) && item !in box
    ensures var front := PutBack(box, item);
            && NoRepeat(front) && |front| <= CAPACITY
            && (e in front <==> e == item || (e in box && !(|box| == CAPACITY && e == box[CAPACITY - 1])))
  {
    if |box| == CAPACITY { FrontHas(box, e); }
  }

  lemma ParkHas(box: seq<nat>, x: nat, e: nat)
    requires |box| <= CAPACITY && NoRepeat(box) && x !in box
    ensures var parked := Park(box, x);
            && NoRepeat(parked) && |parked| <= CAPACITY
            && (e in parked <==> e == x || (e in box && !(|box| == CAPACITY && e == box[0])))
  {
    if |box| == CAPACITY { TailHas(box, e); }
  }

  /** Looking at the outbox moves its oldest event into the hands of `x`, and nothing else. */
  lemma LookKeepsPlaces(s: System, x: nat)
    requires |s.box| <= CAPACITY && NoRepeat(s.box) && CarriedOnce(s) && forall e <- s.box :: !Carried(s, e)
    requires x in s.tasks ==> s.tasks[x].Pushing?
    ensures var t := Look(s, x);
            && |t.box| <= CAPACITY && NoRepeat(t.box) && CarriedOnce(t)
            && forall e :: Places(t, e) == Places(s, e) + One(e == x && x !in s.tasks)
  {
    var t := Look(s, x);
    var task := if s.box == [] then Pushing else Replaying(s.box[0]);
    forall e ensures Places(t, e) == Places(s, e) + One(e == x && x !in s.tasks) {
      SetTask(s, x, task, e);
      if s.box != [] { TailHas(s.box, e); }
    }
    if s.box != [] {
      TailHas(s.box, s.box[0]);
      assert forall y <- s.tasks :: s.tasks[y] != Replaying(s.box[0]) by { assert !Carried(s, s.box[0]); }
    }
  }

  lemma BoxIsFree(s: System)
    requires Inv(s)
    ensures forall e <- s.box :: !Carried(s, e) && e !in s.received && e !in s.tasks && e !in s.lost
  {
    forall e <- s.box ensures !Carried(s, e) && e !in s.received && e !in s.tasks && e !in s.lost {
      assert Placed(s, e);
    }
  }

  lemma StartKeepsInv(s: System, x: nat)
    requires Inv(s) && x !in s.started
    ensures Inv(Act(s, Start(x)))
  {
    var mid := s.(started := s.started + {x});
    assert Placed(s, x);
    BoxIsFree(s);
    forall e ensures Carried(mid, e) <==> Carried(s, e) {
    }
    LookKeepsPlaces(mid, x);
    forall e ensures Placed(Act(s, Start(x)), e) {
      assert Placed(s, e);
    }
  }

  lemma ReplayedKeepsInv(s: System, x: nat)
    requires Inv(s) && x in s.tasks && s.tasks[x].Replaying?
    ensures Inv(Act(s, Return(x, true)))
  {
    var item := s.tasks[x].item;
    var mid := s.(received := s.received + [item], tasks := s.tasks[x := Pushing]);
    assert Carried(s, item) && Placed(s, item);
    BoxIsFree(s);
    forall e ensures Places(mid, e) == Places(s, e) && (Carried(mid, e) ==> Carried(s, e)) {
      SetTask(s, x, Pushing, e);
    }
    LookKeepsPlaces(mid, x);
    var t := Act(s, Return(x, true));
    assert t == Look(mid, x);
    forall e ensures Placed(t, e) {
      assert Placed(s, e);
    }
  }

  lemma PushedKeepsInv(s: System, x: nat)
    requires Inv(s) && x in s.tasks && s.tasks[x].Pushing?
    ensures Inv(Act(s, Return(x, true)))
  {
    var t := Act(s, Return(x, true));
    assert Placed(s, x);
    forall e ensures Placed(t, e) {
      assert Placed(s, e);
      DropTask(s, x, e);
      assert Carried(t, e) == Carried(s.(tasks := s.tasks - {x}), e);
    }
  }

  /** What a failed push does to the outbox, and what it loses. */
  lemma FailedBox(s: System, x: nat, e: nat)
    requires Inv(s) && x in s.tasks
    ensures var t := Failed(s, x);
            && |t.box| <= CAPACITY && NoRepeat(t.box)
            && Places(t, e) == Places(s, e)
  {
    var t := Failed(s, x);
    assert Placed(s, x) && Placed(s, e);
    BoxIsFree(s);
    var front := s.box;
    if s.tasks[x].Replaying? {
      var item := s.tasks[x].item;
      assert Carried(s, item) && Placed(s, item);
      PutBackHas(s.box, item, e);
      PutBackHas(s.box, item, x);
      front := PutBack(s.box, item);
    }
    ParkHas(front, x, e);
    DropTask(s, x, e);
    assert Carried(t, e) == Carried(s.(tasks := s.tasks - {x}), e);
  }

  lemma FailedKeepsInv(s: System, x: nat)
    requires Inv(s) && x in s.tasks
    ensures Inv(Failed(s, x))
  {
    FailedBox(s, x, x);
    forall e ensures Placed(Failed(s, x), e) {
      assert Placed(s, e);
      FailedBox(s, x, e);
    }
  }

  lemma {:induction false} RunKeepsInv(s: System, actions: seq<Action>)
    requires Inv(s) && Schedule(s, actions)
    ensures Inv(After(s, actions))
    decreases |actions|
  {
    if actions != [] {
      match actions[0] {
        case Start(x) => StartKeepsInv(s, x);
        case Return(x, works) =>
          if !works {
            FailedKeepsInv(s, x);
          } else if s.tasks[x].Replaying? {
            ReplayedKeepsInv(s, x);
          } else {
            PushedKeepsInv(s, x);
          }
      }
      RunKeepsInv(Act(s, actions[0]), actions[1..]);
    }
  }

  lemma EmptyIsGood()
    ensures Inv(EMPTY)
  {
    forall e ensures Placed(EMPTY, e) {
      assert !Carried(EMPTY, e);
    }
  }

  /**
   However enqueues interleave and pushes fail, every enqueued event is in exactly one place: received
   by Redis once, waiting in the outbox, in the hands of one enqueue, or lost to a full outbox.
   */
  lemma EveryEventIsInOnePlace(actions: seq<Action>, e: nat)
    requires Schedule(EMPTY, actions)
    ensures var s := After(EMPTY, actions);
            Places(s, e) == One(e in s.started) && NoRepeat(s.received) && NoRepeat(s.box) && |s.box| <= CAPACITY
  {
    EmptyIsGood();
    RunKeepsInv(EMPTY, actions);
    assert Placed(After(EMPTY, actions), e);
  }

  // ---------------------------------------------------------------------------------------------
  // What a full outbox loses
  // ---------------------------------------------------------------------------------------------

  /**
   In every reachable state a step loses exactly this: a failed replay on a full outbox the newest
   parked event and the one it replayed, on an outbox with one place left the one it replayed, and a
   failed push of its own event on a full outbox the oldest parked one.
   */
  function Loses(s: System, a: Action): set<nat>
    requires Possible(s, a)
  {
    if a.Start? || a.works then {}
    else
      match s.tasks[a.x]
      case Replaying(item) =>
        if |s.box| >= CAPACITY then {s.box[CAPACITY - 1], item} else if |s.box| == CAPACITY - 1 then {item} else {}
      case Pushing => if |s.box| >= CAPACITY then {s.box[0]} else {}
  }

  lemma StepLoses(s: System, a: Action)
    requires Inv(s) && Possible(s, a)
    ensures Act(s, a).lost == s.lost + Loses(s, a) && s.lost !! Loses(s, a)
  {
    if a.Return? && !a.works {
      var x := a.x;
      assert Placed(s, x);
      BoxIsFree(s);
      if s.tasks[x].Replaying? {
        var item := s.tasks[x].item;
        assert Carried(s, item) && Placed(s, item);
      }
      forall e ensures e in Act(s, a).lost <==> e in s.lost + Loses(s, a) {
        LostByFailure(s, x, e);
      }
    }
  }

  lemma LostByFailure(s: System, x: nat, e: nat)
    requires Inv(s) && x in s.tasks
    ensures e in Failed(s, x).lost <==> e in s.lost || e in Loses(s, Return(x, false))
  {
    assert Placed(s, x) && Placed(s, e);
    BoxIsFree(s);
    var front := s.box;
    if s.tasks[x].Replaying? {
      var item := s.tasks[x].item;
      assert Carried(s, item) && Placed(s, item);
      PutBackHas(s.box, item, e);
      PutBackHas(s.box, item, x);
      front := PutBack(s.box, item);
    }
    ParkHas(front, x, e);
  }

  /** Of the parked events a step never loses one that is neither the oldest nor, by a replay that fails, the newest. */
  lemma NewestIsLostIff(s: System, a: Action)
    requires Inv(s) && Possible(s, a) && |s.box| > 1
    ensures var newest := s.box[|s.box| - 1];
            newest in Act(s, a).lost <==> a.Return? && !a.works && s.tasks[a.x].Replaying? && |s.box| == CAPACITY
  {
    StepLoses(s, a);
    BoxIsFree(s);
    if a.Return? && s.tasks[a.x].Replaying? {
      assert Carried(s, s.tasks[a.x].item) && Placed(s, s.tasks[a.x].item);
    }
  }

  // ---------------------------------------------------------------------------------------------
  // It happens
  // ---------------------------------------------------------------------------------------------

  function UpTo(n: nat): (xs: seq<nat>)
    ensures |xs| == n && forall i :: 0 <= i < n ==> xs[i] == i
    ensures forall x :: x in xs <==> 0 <= x < n
  {
    if n == 0 then [] else UpTo(n - 1) + [n - 1]
  }

  /** Events 0 to `n - 1` are parked. */
  function Parked(n: nat): System {
    System(UpTo(n), [], map[], set x <- UpTo(n), {})
  }

  /** One more enqueue while nothing gets through. */
  lemma ParkOne(n: nat)
    requires n < CAPACITY
    ensures var s := Act(Parked(n), Start(n)); n in s.tasks && Act(s, Return(n, false)) == Parked(n + 1)
  {
    var s := Act(Parked(n), Start(n));
    var t := Act(s, Return(n, false));
    assert Parked(n).started + {n} == Parked(n + 1).started;
    if n > 0 {
      assert PutBack(s.box, 0) == UpTo(n);
    }
    assert Park(UpTo(n), n) == UpTo(n + 1);
    assert s.tasks - {n} == map[];
    assert t.box == UpTo(n + 1);
    assert t.lost == {};
  }

  lemma TwoActions(s: System, a: Action, b: Action, rest: seq<Action>)
    requires Possible(s, a) && Possible(Act(s, a), b) && Schedule(Act(Act(s, a), b), rest)
    ensures Schedule(s, [a, b] + rest) && After(s, [a, b] + rest) == After(Act(Act(s, a), b), rest)
  {
    var all := [a, b] + rest;
    assert all[1..] == [b] + rest && all[1..][1..] == rest;
    assert Schedule(Act(s, a), all[1..]);
  }

  lemma {:induction false} ParkAll(n: nat, rest: seq<Action>) returns (actions: seq<Action>)
    requires n <= CAPACITY && Schedule(Parked(CAPACITY), rest)
    ensures Schedule(Parked(n), actions) && After(Parked(n), actions) == After(Parked(CAPACITY), rest)
    decreases CAPACITY - n
  {
    actions := rest;
    if n < CAPACITY {
      var more := ParkAll(n + 1, rest);
      ParkOne(n);
      TwoActions(Parked(n), Start(n), Return(n, false), more);
      actions := [Start(n), Return(n, false)] + more;
    }
  }

  /** Two enqueues each take one event from a full outbox, and the second fails first and parks its own. */
  lemma SecondFails(s: System, a: nat, b: nat)
    requires |s.box| == CAPACITY && Possible(s, Start(a)) && a !in s.tasks
    requires Possible(Act(s, Start(a)), Start(b)) && b !in s.tasks
    ensures a != b
    ensures var s2 := Act(Act(s, Start(a)), Start(b));
            && s2.tasks == s.tasks[a := Replaying(s.box[0])][b := Replaying(s.box[1])]
            && var s3 := Act(s2, Return(b, false));
            && s3.box == s.box[1..] + [b] && s3.tasks == s.tasks[a := Replaying(s.box[0])] && s3.lost == s.lost
  {
    var s1 := Act(s, Start(a));
    var s2 := Act(s1, Start(b));
    assert s1.box == s.box[1..] && s2.box == s.box[1..][1..];
    assert PutBack(s2.box, s.box[1]) == s.box[1..];
    var s3 := Act(s2, Return(b, false));
    assert s3.tasks == s.tasks[a := Replaying(s.box[0])];
  }

  /** Then the first fails in turn: there is no place for the event that was just parked. */
  lemma FirstFails(s: System, a: nat, xs: seq<nat>, b: nat)
    requires |xs| == CAPACITY && NoRepeat(xs) && a !in xs && b !in xs
    requires s.box == xs[1..] + [b] && a in s.tasks && s.tasks[a] == Replaying(xs[0])
    ensures var t := Act(s, Return(a, false)); t.box == xs[1..] + [a] && t.lost == s.lost + {xs[0], b}
  {
    assert s.box[..CAPACITY - 1] == xs[1..];
    assert PutBack(s.box, xs[0]) == xs;
    assert b in s.box by { assert s.box[CAPACITY - 1] == b; }
    forall e ensures e in Dropped(s.box, xs) <==> e == b {
      TailHas(xs, e);
    }
    forall e ensures e in Dropped(xs, xs[1..] + [a]) <==> e == xs[0] {
      TailHas(xs, e);
    }
  }

  /**
   So at every full outbox, two new enqueues whose replays fail in the other order drop the newest
   event, although older ones stay.
   */
  lemma NewestIsDropped(s: System, a: nat, b: nat)
    requires Inv(s) && |s.box| == CAPACITY && a != b && a !in s.started && b !in s.started
    ensures var actions := [Start(a), Start(b)] + [Return(b, false), Return(a, false)];
            && Schedule(s, actions)
            && var t := After(s, actions); t.box == s.box[1..] + [a] && t.lost == s.lost + {s.box[0], b}
  {
    assert Placed(s, a) && Placed(s, b);
    SecondFails(s, a, b);
    var s2 := Act(Act(s, Start(a)), Start(b));
    var s3 := Act(s2, Return(b, false));
    FirstFails(s3, a, s.box, b);
    assert Schedule(Act(s3, Return(a, false)), []);
    TwoActions(s2, Return(b, false), Return(a, false), []);
    assert [Return(b, false), Return(a, false)] + [] == [Return(b, false), Return(a, false)];
    TwoActions(s, Start(a), Start(b), [Return(b, false), Return(a, false)]);
  }

  lemma ParkedIsGood(n: nat)
    requires n <= CAPACITY
    ensures Inv(Parked(n))
  {
    forall e ensures Placed(Parked(n), e) {
      assert !Carried(Parked(n), e);
    }
  }

  /** And that happens: 10,002 enqueues lose their newest event. */
  lemma NewestIsLost() returns (actions: seq<Action>)
    ensures Schedule(EMPTY, actions)
    ensures var s := After(EMPTY, actions);
            s.lost == {0, CAPACITY + 1} && s.box == UpTo(CAPACITY)[1..] + [CAPACITY]
  {
    var a, b := CAPACITY, CAPACITY + 1;
    var full := Parked(CAPACITY);
    ParkedIsGood(CAPACITY);
    assert full.lost == {} && full.box[0] == 0;
    assert a !in full.started && b !in full.started;
    NewestIsDropped(full, a, b);
    actions := ParkAll(0, [Start(a), Start(b)] + [Return(b, false), Return(a, false)]);
    assert Parked(0) == EMPTY;
  }

  // ---------------------------------------------------------------------------------------------
  // One enqueue that runs alone
  // ---------------------------------------------------------------------------------------------

  /** Enqueue `x` has replayed `n` events and waits for its next push. */
  function ReplayedUpTo(s: System, x: nat, n: nat): System
    requires n <= |s.box|
  {
    System(if n < |s.box| then s.box[n + 1..] else [], s.received + s.box[..n],
           s.tasks[x := if n < |s.box| then Replaying(s.box[n]) else Pushing], s.started + {x}, s.lost)
  }

  lemma StartsToReplay(s: System, x: nat)
    requires x !in s.started
    ensures Act(s, Start(x)) == ReplayedUpTo(s, x, 0)
  {
    assert s.received + s.box[..0] == s.received;
  }

  lemma ReplaysOneMore(s: System, x: nat, n: nat)
    requires n < |s.box|
    ensures Act(ReplayedUpTo(s, x, n), Return(x, true)) == ReplayedUpTo(s, x, n + 1)
  {
    var t := Act(ReplayedUpTo(s, x, n), Return(x, true));
    assert s.received + s.box[..n] + [s.box[n]] == s.received + s.box[..n + 1];
    assert t.tasks == s.tasks[x := if n + 1 < |s.box| then Replaying(s.box[n + 1]) else Pushing];
  }

  /** `n` pushes of enqueue `x` that work. */
  function Pushes(x: nat, n: nat): (actions: seq<Action>)
    ensures |actions| == n && forall i :: 0 <= i < n ==> actions[i] == Return(x, true)
  {
    if n == 0 then [] else [Return(x, true)] + Pushes(x, n - 1)
  }

  lemma OneAction(s: System, a: Action, rest: seq<Action>)
    requires Possible(s, a) && Schedule(Act(s, a), rest)
    ensures Schedule(s, [a] + rest) && After(s, [a] + rest) == After(Act(s, a), rest)
  {
    assert ([a] + rest)[1..] == rest;
  }

  lemma {:induction false} Replays(s: System, x: nat, n: nat, end: nat, last: System, rest: seq<Action>)
    requires n <= end <= |s.box| && last == ReplayedUpTo(s, x, end) && Schedule(last, rest)
    ensures Schedule(ReplayedUpTo(s, x, n), Pushes(x, end - n) + rest)
    ensures After(ReplayedUpTo(s, x, n), Pushes(x, end - n) + rest) == After(last, rest)
    decreases end - n
  {
    if n == end {
      assert Pushes(x, 0) + rest == rest;
    } else {
      var t, u := ReplayedUpTo(s, x, n), ReplayedUpTo(s, x, n + 1);
      ReplaysOneMore(s, x, n);
      Replays(s, x, n + 1, end, last, rest);
      PushedFirst(t, u, x, end - n, rest);
    }
  }

  lemma PushedFirst(s: System, t: System, x: nat, n: nat, rest: seq<Action>)
    requires x in s.tasks && Act(s, Return(x, true)) == t && n > 0 && Schedule(t, Pushes(x, n - 1) + rest)
    ensures Schedule(s, Pushes(x, n) + rest) && After(s, Pushes(x, n) + rest) == After(t, Pushes(x, n - 1) + rest)
  {
    OneAction(s, Return(x, true), Pushes(x, n - 1) + rest);
    assert Pushes(x, n) + rest == [Return(x, true)] + (Pushes(x, n - 1) + rest);
  }

  /**
   An enqueue that nobody interleaves replays the outbox oldest first, until a push fails. If the first
   `n` pushes work and the next one ends it, `n` events have left the outbox for Redis, and the new event
   follows the others there, or in the outbox, from which it may evict the oldest.
   */
  lemma AloneInOrder(s: System, x: nat, n: nat, works: bool)
    requires x !in s.started && x !in s.tasks && |s.box| <= CAPACITY && (if works then n == |s.box| else n <= |s.box|)
    ensures var actions := [Start(x)] + (Pushes(x, n) + [Return(x, works)]);
            && Schedule(s, actions)
            && var t, left := After(s, actions), s.box[n..];
            && t.received == s.received + s.box[..n] + (if works then [x] else [])
            && t.box == (if works then [] else if |left| == 10_000 then left[1..] + [x] else left + [x])
            && t.tasks == s.tasks && t.started == s.started + {x}
  {
    var before, last := ReplayedUpTo(s, x, n), Return(x, works);
    assert Schedule(Act(before, last), []);
    OneAction(before, last, []);
    assert [last] + [] == [last];
    EndsAlone(s, x, n, works);
    StartsToReplay(s, x);
    Replays(s, x, 0, n, before, [last]);
    OneAction(s, Start(x), Pushes(x, n) + [last]);
  }

  lemma EndsAlone(s: System, x: nat, n: nat, works: bool)
    requires x !in s.tasks && |s.box| <= CAPACITY && (if works then n == |s.box| else n <= |s.box|)
    ensures var t, left := Act(ReplayedUpTo(s, x, n), Return(x, works)), s.box[n..];
            && t.received == s.received + s.box[..n] + (if works then [x] else [])
            && t.box == (if works then [] else if |left| == 10_000 then left[1..] + [x] else left + [x])
            && t.tasks == s.tasks && t.started == s.started + {x}
  {
    assert s.tasks[x := Pushing] - {x} == s.tasks;
    if !works && n < |s.box| {
      assert s.tasks[x := Replaying(s.box[n])] - {x} == s.tasks;
      assert PutBack(s.box[n + 1..], s.box[n]) == s.box[n..];
    }
  }
}
