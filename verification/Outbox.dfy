/**
 The process-local outbox in front of one queue: events whose push failed wait here and are
 replayed, oldest first, before the next event that gets through.
 */
module Outbox {

  const CAPACITY := 10_000

  /** The elements of `history` whose place in `lost` is not marked. */
  function Surviving<T>(history: seq<T>, lost: seq<bool>): seq<T>
    requires |history| == |lost|
  {
    if history == [] then []
    else (if lost[0] then [] else [history[0]]) + Surviving(history[1..], lost[1..])
  }

  /** The place in `history` of the element that stands at `rank` among the survivors. */
  function PlaceOf<T>(history: seq<T>, lost: seq<bool>, rank: nat): (place: nat)
    requires |history| == |lost| && rank < |Surviving(history, lost)|
    ensures place < |lost| && !lost[place] && history[place] == Surviving(history, lost)[rank]
  {
    if lost[0] then 1 + PlaceOf(history[1..], lost[1..], rank)
    else if rank == 0 then 0
    else 1 + PlaceOf(history[1..], lost[1..], rank - 1)
  }

  lemma {:induction false} LoseOne<T>(history: seq<T>, lost: seq<bool>, rank: nat)
    requires |history| == |lost| && rank < |Surviving(history, lost)|
    ensures var s := Surviving(history, lost);
            Surviving(history, lost[PlaceOf(history, lost, rank) := true]) == s[..rank] + s[rank + 1..]
  {
    var rest := Surviving(history[1..], lost[1..]);
    var after := lost[PlaceOf(history, lost, rank) := true];
    if lost[0] {
      LoseOne(history[1..], lost[1..], rank);
      assert after[1..] == lost[1..][PlaceOf(history[1..], lost[1..], rank) := true];
    } else if rank == 0 {
      assert after[1..] == lost[1..];
    } else {
      LoseOne(history[1..], lost[1..], rank - 1);
      assert after[1..] == lost[1..][PlaceOf(history[1..], lost[1..], rank - 1) := true];
    }
  }

  lemma {:induction false} SurvivingAppend<T>(history: seq<T>, lost: seq<bool>, x: T)
    requires |history| == |lost|
    ensures Surviving(history + [x], lost + [false]) == Surviving(history, lost) + [x]
  {
    if history == [] {
      assert history + [x] == [x] && lost + [false] == [false];
    } else {
      assert (history + [x])[1..] == history[1..] + [x] && (lost + [false])[1..] == lost[1..] + [false];
      SurvivingAppend(history[1..], lost[1..], x);
    }
  }

  lemma SameSuffix<T>(a: seq<T>, b: seq<T>, c: seq<T>)
    requires a + b == a + c
    ensures b == c
  {
    assert b == (a + b)[|a|..] && c == (a + c)[|a|..];
  }

  /** Marking the oldest event of the outbox as lost drops it from the survivors. */
  lemma EvictOldest<T>(history: seq<T>, lost: seq<bool>, received: seq<T>, box: seq<T>)
    requires |history| == |lost| && Surviving(history, lost) == received + box && box != []
    ensures var place := PlaceOf(history, lost, |received|);
            history[place] == box[0] && Surviving(history, lost[place := true]) == received + box[1..]
  {
    LoseOne(history, lost, |received|);
    var all := received + box;
    assert all[|received|] == box[0] && all[..|received|] + all[|received| + 1..] == received + box[1..];
  }

  /**
   The outbox of one process together with what Redis has received from it. The ghost fields
   remember every enqueued event and which of them have been evicted.
   */
  class Sender<T> {
    var box: seq<T>
    var received: seq<T>
    ghost var history: seq<T>
    ghost var lost: seq<bool>

    /** What Redis received, followed by the outbox, is the enqueue order without evicted events. */
    ghost predicate Valid()
      reads this
    {
      |history| == |lost| && |box| <= CAPACITY && Surviving(history, lost) == received + box
    }

    constructor ()
      ensures Valid() && box == [] && received == [] && history == []
    {
      box, received, history, lost := [], [], [], [];
    }

    /**
     `_flush_outbox`: replays up to the first push that fails. `pushes` says of each push whether it
     works; a push beyond its end fails.
     */
    method Flush(pushes: seq<bool>) returns (ok: bool, used: nat)
      requires Valid()
      modifies `box, `received
      ensures Valid() && used <= |pushes|
      ensures received + box == old(received + box) && old(received) <= received
      ensures ok <==> box == []
      ensures ok ==> used == |old(box)|
      ensures used <= |old(box)| && received == old(received) + old(box)[..used]
      ensures forall i :: 0 <= i < used ==> pushes[i]
      ensures !ok ==> used == |pushes| || !pushes[used]
    {
      used := 0;
      while box != []
        invariant Valid() && used <= |pushes|
        invariant received + box == old(received + box) && old(received) <= received
        invariant |received| == |old(received)| + used && forall i :: 0 <= i < used ==> pushes[i]
        invariant used <= |old(box)| && received == old(received) + old(box)[..used] && box == old(box)[used..]
        decreases |box|
      {
        var item := box[0];
        box := box[1..];
        if used >= |pushes| || !pushes[used] {
          box := [item] + box;
          return false, used;
        }
        received := received + [item];
        used := used + 1;
      }
      return true, used;
    }

    /**
     `enqueue_event`: flushes the outbox, then pushes; on any failure the event is parked. An event
     is evicted only when the outbox is full, and then it is the oldest one in it.
     */
    method Enqueue(x: T, pushes: seq<bool>) returns (ok: bool, evicted: bool)
      requires Valid()
      modifies this
      ensures Valid() && history == old(history) + [x] && old(received) <= received
      ensures ok <==> |old(box)| < |pushes| && forall i :: 0 <= i <= |old(box)| ==> pushes[i]
      ensures ok ==> !evicted && box == []
      ensures !ok ==> box != [] && box[|box| - 1] == x
      ensures !evicted ==> received + box == old(received + box) + [x] && lost == old(lost) + [false]
      ensures evicted <==> |old(box)| == 10_000 && (pushes == [] || !pushes[0])
      ensures evicted ==>
                && received + box == old(received) + old(box)[1..] + [x]
                && exists place :: 0 <= place < |old(lost)| && !old(lost)[place] && old(history)[place] == old(box)[0]
                                   && lost == old(lost)[place := true] + [false]
    {
      var flushed, used := Flush(pushes);
      ok, evicted := flushed && used < |pushes| && pushes[used], false;
      if ok {
        received := received + [x];
      } else {
        if |box| >= CAPACITY {
          evicted := true;
          assert received == old(received);
          SameSuffix(received, box, old(box));
          EvictOldest(history, lost, received, box);
          lost := lost[PlaceOf(history, lost, |received|) := true];
          box := box[1..];
        }
        box := box + [x];
      }
      SurvivingAppend(history, lost, x);
      history, lost := history + [x], lost + [false];
    }
  }
}
