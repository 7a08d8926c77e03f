/**
 64-bit ids: a 41-bit millisecond timestamp, a 10-bit worker id and a 12-bit sequence number.

 A call reads the wall clock as often as it has to wait. The clock is adversarial: the readings of
 a call are any finite sequence, so a call may also still be waiting when its readings run out.
 */
module Snowflake {

  const EPOCH_MS: int := 1735689600000
  const MAX_WORKER_ID: nat := 1023
  const MAX_SEQUENCE: nat := 4095
  const MAX_ROLLBACK_WAIT_MS: nat := 1000

  const SEQUENCES: int := 4096
  const WORKERS: int := 1024
  const TICK: int := 4194304

  /** A millisecond and a number within it. */
  datatype Stamp = Stamp(ms: int, sequence: int)

  predicate InRange(s: Stamp) { 0 <= s.sequence <= MAX_SEQUENCE }

  predicate Before(a: Stamp, b: Stamp) {
    a.ms < b.ms || (a.ms == b.ms && a.sequence < b.sequence)
  }

  function Encode(s: Stamp, worker: nat): int {
    (s.ms - EPOCH_MS) * TICK + worker * SEQUENCES + s.sequence
  }

  function TimestampOf(id: int): int { id / TICK + EPOCH_MS }

  function WorkerOf(id: int): int { id / SEQUENCES % WORKERS }

  function SequenceOf(id: int): int { id % SEQUENCES }

  lemma Split(high: int, middle: int, low: int)
    requires 0 <= middle < WORKERS && 0 <= low < SEQUENCES
    ensures var id := high * TICK + middle * SEQUENCES + low;
            id % SEQUENCES == low && id / SEQUENCES == high * WORKERS + middle && id / TICK == high
            && id / SEQUENCES % WORKERS == middle
  {
  }

  /** The three fields come back from the id, which is a positive 64-bit number for 41-bit timestamps. */
  lemma DecodeEncode(s: Stamp, worker: nat)
    requires InRange(s) && worker <= MAX_WORKER_ID
    ensures var id := Encode(s, worker);
            && TimestampOf(id) == s.ms && WorkerOf(id) == worker && SequenceOf(id) == s.sequence
            && (0 <= s.ms - EPOCH_MS < 0x200_0000_0000 <==> 0 <= id < 0x8000_0000_0000_0000)
  {
    Split(s.ms - EPOCH_MS, worker, s.sequence);
  }

  /** Two ids are equal only if their worker and their stamp are. */
  lemma EncodeInjective(s: Stamp, v: nat, t: Stamp, w: nat)
    requires InRange(s) && InRange(t) && v <= MAX_WORKER_ID && w <= MAX_WORKER_ID
    requires Encode(s, v) == Encode(t, w)
    ensures s == t && v == w
  {
    DecodeEncode(s, v);
    DecodeEncode(t, w);
  }

  /** Ids of one worker are ordered as their stamps. */
  lemma EncodeOrders(s: Stamp, t: Stamp, worker: nat)
    requires InRange(s) && InRange(t) && Before(s, t)
    ensures Encode(s, worker) < Encode(t, worker)
  {
  }

  /** Shifting and or-ing the fields, as the generator does, adds them: they do not overlap. */
  lemma FieldsDoNotOverlap(ms: bv64, worker: bv64, sequence: bv64)
    requires ms < 0x200_0000_0000 && worker < 1024 && sequence < 4096
    ensures var id := (ms << 22) | (worker << 12) | sequence;
            && id == (ms << 22) + (worker << 12) + sequence
            && id >> 22 == ms && (id >> 12) & 1023 == worker && id & 4095 == sequence
  {
  }

  // ---------------------------------------------------------------------------------------------
  // One call
  // ---------------------------------------------------------------------------------------------

  /** A stamp at millisecond `now` is still unused by a generator whose latest stamp is `last`. */
  predicate Usable(last: Stamp, now: int) {
    last.ms < now || (last.ms == now && last.sequence < MAX_SEQUENCE)
  }

  /** The least unused stamp at `now`. */
  function Next(last: Stamp, now: int): (s: Stamp)
    requires Usable(last, now) && InRange(last)
    ensures InRange(s) && Before(last, s)
    ensures forall t: Stamp :: t.ms == now && InRange(t) && Before(last, t) ==> s == t || Before(s, t)
  {
    if now == last.ms then Stamp(now, last.sequence + 1) else Stamp(now, 0)
  }

  function FirstUsable(last: Stamp, readings: seq<int>): (i: nat)
    ensures i <= |readings|
    ensures i < |readings| ==> Usable(last, readings[i])
    ensures forall j :: 0 <= j < i ==> !Usable(last, readings[j])
    decreases |readings|
  {
    if readings == [] || Usable(last, readings[0]) then 0 else 1 + FirstUsable(last, readings[1..])
  }

  datatype Outcome = Minted(stamp: Stamp) | Refused | Waiting

  /**
   What a call must do: refuse when the clock has gone back by more than the tolerated amount, and
   otherwise wait for the first reading at which an unused stamp exists, and take the least one.
   */
  function Call(last: Stamp, readings: seq<int>): Outcome
    requires InRange(last)
  {
    if readings == [] then Waiting
    else if readings[0] < last.ms - MAX_ROLLBACK_WAIT_MS then Refused
    else
      var i := FirstUsable(last, readings);
      if i == |readings| then Waiting else Minted(Next(last, readings[i]))
  }

  /**
   In numbers: a call refuses exactly on a first reading more than a second behind the latest stamp.
   Otherwise it mints at the first reading of a later millisecond, or of the same one while that has had
   fewer than 4096 ids; numbers start at 0 in a millisecond and go up by one.
   */
  lemma CallIsExact(last: Stamp, readings: seq<int>)
    requires InRange(last)
    ensures var outcome := Call(last, readings);
            && (outcome.Refused? <==> readings != [] && readings[0] < last.ms - 1000)
            && (outcome.Minted? <==>
                  !outcome.Refused? && exists i :: 0 <= i < |readings| && HasStamp(last, readings[i]))
            && (outcome.Minted? ==>
                  exists i ::
                    && 0 <= i < |readings| && HasStamp(last, readings[i])
                    && (forall j :: 0 <= j < i ==> !HasStamp(last, readings[j]))
                    && outcome.stamp == Stamp(readings[i], if readings[i] == last.ms then last.sequence + 1 else 0))
  {
    var i := FirstUsable(last, readings);
    assert i < |readings| ==> HasStamp(last, readings[i]);
    assert forall j :: 0 <= j < i ==> !HasStamp(last, readings[j]);
  }

  ghost predicate HasStamp(last: Stamp, now: int) {
    now > last.ms || (now == last.ms && last.sequence + 1 < 4096)
  }

  class Generator {
    var workerId: int
    var lastMs: int
    var sequence: int

    ghost predicate Valid()
      reads this
    {
      0 <= workerId <= MAX_WORKER_ID && InRange(Last())
    }

    ghost function Last(): Stamp
      reads this
    {
      Stamp(lastMs, sequence)
    }

    constructor ()
      ensures Valid() && workerId == 0 && Last() == Stamp(-1, 0)
    {
      workerId, lastMs, sequence := 0, -1, 0;
    }

    method SetWorkerId(worker: int) returns (ok: bool)
      requires Valid()
      modifies this`workerId
      ensures Valid() && ok == (0 <= worker <= 1023)
      ensures workerId == if ok then worker else old(workerId)
    {
      ok := 0 <= worker <= MAX_WORKER_ID;
      if ok {
        workerId := worker;
      }
    }

    /** A refused call leaves the generator as it was. */
    method NextId(readings: seq<int>) returns (id: int, outcome: Outcome)
      requires Valid()
      modifies this`lastMs, this`sequence
      ensures Valid() && outcome == Call(old(Last()), readings)
      ensures outcome.Minted? ==> Last() == outcome.stamp && id == Encode(outcome.stamp, workerId)
      ensures outcome.Minted? ==> id == (lastMs - 1735689600000) * 0x40_0000 + workerId * 0x1000 + sequence
      ensures outcome.Refused? ==> Last() == old(Last())
      ensures outcome.Waiting? ==> lastMs == old(lastMs)
    {
      id, outcome := 0, Waiting;
      ghost var last := Last();
      if |readings| == 0 {
        return;
      }
      var i, now := 0, readings[0];
      if now < lastMs {
        if lastMs - now > MAX_ROLLBACK_WAIT_MS {
          outcome := Refused;
          return;
        }
        while now < lastMs
          invariant 0 <= i < |readings| && now == readings[i]
          invariant forall j :: 0 <= j < i ==> !Usable(last, readings[j])
          decreases |readings| - i
        {
          i := i + 1;
          if i == |readings| {
            return;
          }
          now := readings[i];
        }
      }
      if now == lastMs {
        sequence := (sequence + 1) % SEQUENCES;
        if sequence == 0 {
          while now <= lastMs
            invariant 0 <= i < |readings| && now == readings[i]
            invariant forall j :: 0 <= j < i ==> !Usable(last, readings[j])
            decreases |readings| - i
          {
            i := i + 1;
            if i == |readings| {
              return;
            }
            now := readings[i];
          }
        }
      } else {
        sequence := 0;
      }
      lastMs := now;
      assert FirstUsable(last, readings) == i;
      outcome := Minted(Stamp(now, sequence));
      id := (now - EPOCH_MS) * TICK + workerId * SEQUENCES + sequence;
    }
  }

  // ---------------------------------------------------------------------------------------------
  // All calls of one process
  // ---------------------------------------------------------------------------------------------

  /** The ids returned by a process, call after call; a call that waits for ever is the last one. */
  function Ids(last: Stamp, worker: nat, calls: seq<seq<int>>): seq<int>
    requires InRange(last)
    decreases |calls|
  {
    if calls == [] then []
    else
      match Call(last, calls[0])
      case Minted(stamp) => [Encode(stamp, worker)] + Ids(stamp, worker, calls[1..])
      case Refused => Ids(last, worker, calls[1..])
      case Waiting => []
  }

  ghost predicate Increasing(ids: seq<int>, above: int) {
    && (forall i :: 0 <= i < |ids| ==> above < ids[i])
    && (forall i, j :: 0 <= i < j < |ids| ==> ids[i] < ids[j])
  }

  lemma Prepend(id: int, ids: seq<int>, above: int)
    requires above < id && Increasing(ids, id)
    ensures Increasing([id] + ids, above)
  {
    var all := [id] + ids;
    forall i | 0 <= i < |all| ensures above < all[i] {
      assert i > 0 ==> all[i] == ids[i - 1];
    }
    forall i, j | 0 <= i < j < |all| ensures all[i] < all[j] {
      assert all[j] == ids[j - 1];
      assert i > 0 ==> all[i] == ids[i - 1];
    }
  }

  lemma {:induction false} IdsFollow(last: Stamp, worker: nat, calls: seq<seq<int>>)
    requires InRange(last)
    ensures Increasing(Ids(last, worker, calls), Encode(last, worker))
    decreases |calls|
  {
    if calls != [] {
      match Call(last, calls[0])
      case Minted(stamp) =>
        EncodeOrders(last, stamp, worker);
        IdsFollow(stamp, worker, calls[1..]);
        Prepend(Encode(stamp, worker), Ids(stamp, worker, calls[1..]), Encode(last, worker));
      case Refused =>
        IdsFollow(last, worker, calls[1..]);
      case Waiting =>
    }
  }

  /** The calls of a process that sees each of these times once. */
  function Once(times: seq<int>): (calls: seq<seq<int>>)
    ensures |calls| == |times|
  {
    if times == [] then [] else [[times[0]]] + Once(times[1..])
  }

  /** On a clock that goes on from call to call, every call mints, with the time, the worker and number 0. */
  lemma {:induction false} SteadyClockMints(last: Stamp, worker: nat, times: seq<int>)
    requires InRange(last) && (forall i :: 0 <= i < |times| ==> last.ms < times[i])
    requires forall i, j :: 0 <= i < j < |times| ==> times[i] < times[j]
    ensures |Ids(last, worker, Once(times))| == |times|
    ensures forall i :: 0 <= i < |times| ==>
              Ids(last, worker, Once(times))[i] == (times[i] - 1735689600000) * 0x40_0000 + worker * 0x1000
    decreases |times|
  {
    if times != [] {
      var stamp := Stamp(times[0], 0);
      assert FirstUsable(last, [times[0]]) == 0;
      assert Call(last, Once(times)[0]) == Minted(stamp);
      SteadyClockMints(stamp, worker, times[1..]);
      assert Once(times)[1..] == Once(times[1..]);
      var rest := Ids(stamp, worker, Once(times[1..]));
      assert Ids(last, worker, Once(times)) == [Encode(stamp, worker)] + rest;
    }
  }

  /** Whatever the clock shows to a new process, the ids it mints strictly increase. */
  lemma IdsStrictlyIncrease(worker: nat, calls: seq<seq<int>>)
    ensures var ids := Ids(Stamp(-1, 0), worker, calls);
            forall i, j :: 0 <= i < j < |ids| ==> ids[i] < ids[j]
  {
    IdsFollow(Stamp(-1, 0), worker, calls);
  }
}
