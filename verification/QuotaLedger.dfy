/**
 Quota counters in Redis: the all-or-nothing reservation script, settlement by the signed
 difference, compensation, and the ledger of reservations and charges that the counters add up.
 */
module QuotaLedger {
  import opened Basics
  import opened QuotaPeriods

  datatype Metric = Requests | Tokens | Cost

  /** `scope` stands for the scope, its id and the model, which a key spells out. */
  datatype QuotaKey = QuotaKey(scope: nat, period: Period, metric: Metric)

  datatype Counter = Counter(value: int, expireAt: Option<int>)

  type Counters = map<QuotaKey, Counter>

  /** One quota of a request, with the amount it reserves; a zero `ttl` means no time to live. */
  datatype Item = Item(key: QuotaKey, ttl: int, limit: int, enforce: bool, reserve: int)

  datatype Verdict = Pass | Fail(index: nat, count: int)

  function ValueAt(c: Counters, k: QuotaKey): int {
    if k in c then c[k].value else 0
  }

  /** `INCRBY` keeps a time to live and creates a missing key without one. */
  function IncrBy(c: Counters, k: QuotaKey, d: int): Counters {
    c[k := if k in c then Counter(c[k].value + d, c[k].expireAt) else Counter(d, None)]
  }

  function ExpireIn(c: Counters, k: QuotaKey, now: int, ttl: int): Counters
    requires k in c
  {
    c[k := Counter(c[k].value, Some(now + ttl * SECOND_MS))]
  }

  /** One turn of the script's loop, before the limit is looked at. */
  function ReserveOne(c: Counters, item: Item, now: int): (c': Counters)
    ensures item.key in c'
  {
    var c1 := IncrBy(c, item.key, item.reserve);
    if c1[item.key].value == item.reserve && item.ttl > 0 then ExpireIn(c1, item.key, now, item.ttl) else c1
  }

  /** The rollback: one decrement for each item. */
  function GiveBack(c: Counters, items: seq<Item>): Counters
    decreases |items|
  {
    if items == [] then c else GiveBack(IncrBy(c, items[0].key, -items[0].reserve), items[1..])
  }

  /** The reservation script from item `i` on. */
  function Reserve(c: Counters, items: seq<Item>, i: nat, now: int): (Counters, Verdict)
    requires i <= |items|
    decreases |items| - i
  {
    if i == |items| then (c, Pass)
    else
      var c1 := ReserveOne(c, items[i], now);
      var count := c1[items[i].key].value;
      if items[i].enforce && count > items[i].limit then (GiveBack(c1, items[..i + 1]), Fail(i, count))
      else Reserve(c1, items, i + 1, now)
  }

  /** What `items` together reserve on `k`. */
  function ReservedOn(items: seq<Item>, k: QuotaKey): int {
    if items == [] then 0
    else (if items[0].key == k then items[0].reserve else 0) + ReservedOn(items[1..], k)
  }

  lemma {:induction false} ReservedOnAppend(items: seq<Item>, item: Item, k: QuotaKey)
    ensures ReservedOn(items + [item], k) == ReservedOn(items, k) + (if item.key == k then item.reserve else 0)
  {
    if items == [] {
      assert [] + [item] == [item];
    } else {
      assert (items + [item])[1..] == items[1..] + [item];
      ReservedOnAppend(items[1..], item, k);
    }
  }

  lemma {:induction false} GiveBackValue(c: Counters, items: seq<Item>, k: QuotaKey)
    ensures ValueAt(GiveBack(c, items), k) == ValueAt(c, k) - ReservedOn(items, k)
    decreases |items|
  {
    if items != [] {
      GiveBackValue(IncrBy(c, items[0].key, -items[0].reserve), items[1..], k);
    }
  }

  /**
   The script passes exactly when, for every enforced item, the counter as it was plus everything
   the items up to it reserve on the same key is within the limit. A pass adds precisely what the
   items reserve; a failure leaves every counter at its old value.
   */
  lemma {:induction false} ReserveEffect(before: Counters, c: Counters, items: seq<Item>, i: nat, now: int)
    requires i <= |items|
    requires forall k :: ValueAt(c, k) == ValueAt(before, k) + ReservedOn(items[..i], k)
    ensures var (after, verdict) := Reserve(c, items, i, now);
            && (verdict.Pass? <==> forall j :: i <= j < |items| && items[j].enforce ==>
                  ValueAt(before, items[j].key) + ReservedOn(items[..j + 1], items[j].key) <= items[j].limit)
            && (forall k :: ValueAt(after, k) ==
                  if verdict.Pass? then ValueAt(before, k) + ReservedOn(items, k) else ValueAt(before, k))
    decreases |items| - i
  {
    if i == |items| {
      assert items[..i] == items;
    } else {
      var c1 := ReserveOne(c, items[i], now);
      assert items[..i + 1] == items[..i] + [items[i]];
      forall k ensures ValueAt(c1, k) == ValueAt(before, k) + ReservedOn(items[..i + 1], k) {
        ReservedOnAppend(items[..i], items[i], k);
      }
      if items[i].enforce && c1[items[i].key].value > items[i].limit {
        forall k ensures ValueAt(GiveBack(c1, items[..i + 1]), k) == ValueAt(before, k) {
          GiveBackValue(c1, items[..i + 1], k);
        }
      } else {
        ReserveEffect(before, c1, items, i + 1, now);
      }
    }
  }

  /** A check of one item: its counter takes the reservation or keeps its value, and no other counter is touched. */
  lemma OneItem(c: Counters, item: Item, now: int)
    ensures var (after, verdict) := Reserve(c, [item], 0, now);
            var k, before := item.key, ValueAt(c, item.key);
            && (verdict.Pass? <==> !item.enforce || before + item.reserve <= item.limit)
            && k in after && after[k].value == (if verdict.Pass? then before + item.reserve else before)
            && (before != 0 ==> k in c && after[k].expireAt == c[k].expireAt)
            && (before == 0 && verdict.Pass? && item.ttl > 0 ==> after[k].expireAt == Some(now + 1000 * item.ttl))
            && (forall other <- c :: other != k ==> other in after && after[other] == c[other])
            && (forall other <- after :: other != k ==> other in c)
  {
    var c1 := ReserveOne(c, item, now);
    assert [item][..1] == [item] && [item][1..] == [];
    if item.enforce && c1[item.key].value > item.limit {
      var back := IncrBy(c1, item.key, -item.reserve);
      assert GiveBack(back, []) == back;
      assert Reserve(c, [item], 0, now) == (back, Fail(0, c1[item.key].value));
    } else {
      assert Reserve(c1, [item], 1, now) == (c1, Pass);
    }
  }

  /** A cost in micro-units; an unpriced request costs nothing. */
  function Micro(cost: Option<real>): int {
    if cost.Some? then Truncate(cost.value * 1_000_000.0) else 0
  }

  /** `_reserve_for_metric`: what a check reserves. */
  function ReserveFor(metric: Metric, tokens: int, cost: Option<real>): (reserve: int)
    ensures reserve >= 1
  {
    match metric
    case Requests => 1
    case Tokens => AtLeastOne(tokens)
    case Cost => AtLeastOne(Micro(cost))
  }

  /** `_settlement_adjustment_for_metric`: what a settlement adds to the counter. */
  function Adjustment(metric: Metric, reserved: int, tokens: int, cost: Option<real>): int {
    match metric
    case Requests => 0
    case Tokens => tokens - reserved
    case Cost => Micro(cost) - reserved
  }

  /** A reservation as the request carries it from check to settlement. */
  datatype Reservation = Reservation(key: QuotaKey, reserved: int)

  /** The quota keys in Redis, changed in place. */
  class QuotaStore {
    var counters: Counters

    constructor ()
      ensures counters == map[]
    {
      counters := map[];
    }

    /** The reservation script. */
    method Check(items: seq<Item>, now: int) returns (verdict: Verdict)
      modifies this
      ensures (counters, verdict) == Reserve(old(counters), items, 0, now)
    {
      for i := 0 to |items|
        invariant Reserve(old(counters), items, 0, now) == Reserve(counters, items, i, now)
      {
        var item := items[i];
        counters := IncrBy(counters, item.key, item.reserve);
        var count := counters[item.key].value;
        if count == item.reserve && item.ttl > 0 {
          counters := ExpireIn(counters, item.key, now, item.ttl);
        }
        if item.enforce && count > item.limit {
          ghost var full := counters;
          for j := 0 to i + 1
            invariant GiveBack(full, items[..i + 1]) == GiveBack(counters, items[j..i + 1])
          {
            assert items[j..i + 1][1..] == items[j + 1..i + 1];
            counters := IncrBy(counters, items[j].key, -items[j].reserve);
          }
          return Fail(i, count);
        }
      }
      return Pass;
    }

    /** `settle_reservations`: every counter moves by actual minus reserved, and keeps its time to live. */
    method Settle(reservations: seq<Reservation>, tokens: int, cost: Option<real>)
      modifies this
      ensures counters == SettledEach(old(counters), reservations, tokens, cost)
      ensures forall k :: ValueAt(counters, k) == ValueAt(old(counters), k) + AdjustedOn(reservations, tokens, cost, k)
      ensures KeepsLifetimes(old(counters), counters)
    {
      for i := 0 to |reservations|
        invariant counters == SettledEach(old(counters), reservations[..i], tokens, cost)
      {
        var r := reservations[i];
        assert reservations[..i + 1][..i] == reservations[..i];
        var adjustment := Adjustment(r.key.metric, r.reserved, tokens, cost);
        if adjustment != 0 {
          counters := IncrBy(counters, r.key, adjustment);
        }
      }
      assert reservations[..|reservations|] == reservations;
      SettledEachEffect(old(counters), reservations, tokens, cost);
    }

    /** `compensate_reservations`: every counter gives its reservation back, and keeps its time to live. */
    method Compensate(reservations: seq<Reservation>)
      modifies this
      ensures counters == ReturnedEach(old(counters), reservations)
      ensures forall k :: ValueAt(counters, k) == ValueAt(old(counters), k) - HeldOn(reservations, k)
      ensures KeepsLifetimes(old(counters), counters)
    {
      for i := 0 to |reservations|
        invariant counters == ReturnedEach(old(counters), reservations[..i])
      {
        var r := reservations[i];
        assert reservations[..i + 1][..i] == reservations[..i];
        if r.reserved != 0 {
          counters := IncrBy(counters, r.key, -r.reserved);
        }
      }
      assert reservations[..|reservations|] == reservations;
      ReturnedEachEffect(old(counters), reservations);
    }
  }

  /** One settlement of one reservation. */
  function Adjusted(c: Counters, k: QuotaKey, reserved: int, tokens: int, cost: Option<real>): Counters {
    var adjustment := Adjustment(k.metric, reserved, tokens, cost);
    if adjustment == 0 then c else IncrBy(c, k, adjustment)
  }

  /** One reservation given back. */
  function Returned(c: Counters, k: QuotaKey, reserved: int): Counters {
    if reserved == 0 then c else IncrBy(c, k, -reserved)
  }

  function SettledEach(c: Counters, rs: seq<Reservation>, tokens: int, cost: Option<real>): Counters
    decreases |rs|
  {
    if rs == [] then c
    else
      var r := rs[|rs| - 1];
      Adjusted(SettledEach(c, rs[..|rs| - 1], tokens, cost), r.key, r.reserved, tokens, cost)
  }

  function ReturnedEach(c: Counters, rs: seq<Reservation>): Counters
    decreases |rs|
  {
    if rs == [] then c
    else
      var r := rs[|rs| - 1];
      Returned(ReturnedEach(c, rs[..|rs| - 1]), r.key, r.reserved)
  }

  /** No key is lost and none changes its time to live; a key that was missing has none. */
  ghost predicate KeepsLifetimes(before: Counters, after: Counters) {
    && (forall k :: k in before ==> k in after && after[k].expireAt == before[k].expireAt)
    && (forall k :: k in after && k !in before ==> after[k].expireAt.None?)
  }

  lemma {:induction false} SettledEachEffect(c: Counters, rs: seq<Reservation>, tokens: int, cost: Option<real>)
    ensures var after := SettledEach(c, rs, tokens, cost);
            && (forall k :: ValueAt(after, k) == ValueAt(c, k) + AdjustedOn(rs, tokens, cost, k))
            && KeepsLifetimes(c, after)
    decreases |rs|
  {
    if rs != [] {
      var front, r := rs[..|rs| - 1], rs[|rs| - 1];
      SettledEachEffect(c, front, tokens, cost);
      AdjustedOnAppend(front, r, tokens, cost);
      assert rs == front + [r];
    }
  }

  lemma {:induction false} ReturnedEachEffect(c: Counters, rs: seq<Reservation>)
    ensures var after := ReturnedEach(c, rs);
            && (forall k :: ValueAt(after, k) == ValueAt(c, k) - HeldOn(rs, k))
            && KeepsLifetimes(c, after)
    decreases |rs|
  {
    if rs != [] {
      var front, r := rs[..|rs| - 1], rs[|rs| - 1];
      ReturnedEachEffect(c, front);
      HeldOnAppend(front, r);
      assert rs == front + [r];
    }
  }

  function AdjustedOn(reservations: seq<Reservation>, tokens: int, cost: Option<real>, k: QuotaKey): int {
    if reservations == [] then 0
    else
      var r := reservations[0];
      (if r.key == k then Adjustment(k.metric, r.reserved, tokens, cost) else 0)
      + AdjustedOn(reservations[1..], tokens, cost, k)
  }

  function HeldOn(reservations: seq<Reservation>, k: QuotaKey): int {
    if reservations == [] then 0
    else (if reservations[0].key == k then reservations[0].reserved else 0) + HeldOn(reservations[1..], k)
  }

  lemma {:induction false} AdjustedOnAppend(rs: seq<Reservation>, r: Reservation, tokens: int, cost: Option<real>)
    ensures forall k :: AdjustedOn(rs + [r], tokens, cost, k) ==
              AdjustedOn(rs, tokens, cost, k)
              + (if r.key == k then Adjustment(k.metric, r.reserved, tokens, cost) else 0)
  {
    if rs == [] {
      assert rs + [r] == [r];
    } else {
      AdjustedOnAppend(rs[1..], r, tokens, cost);
      assert (rs + [r])[1..] == rs[1..] + [r];
    }
  }

  lemma {:induction false} HeldOnAppend(rs: seq<Reservation>, r: Reservation)
    ensures forall k :: HeldOn(rs + [r], k) == HeldOn(rs, k) + (if r.key == k then r.reserved else 0)
  {
    if rs == [] {
      assert rs + [r] == [r];
    } else {
      HeldOnAppend(rs[1..], r);
      assert (rs + [r])[1..] == rs[1..] + [r];
    }
  }
}
