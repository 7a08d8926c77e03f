/**
 Whole runs of the quota counters: checks, single settlements and compensations of any number of
 requests in any order, on a nondecreasing clock, with keys expiring underneath them.
 */
module QuotaRuns {
  import opened Basics
  import opened Sums
  import opened QuotaPeriods
  import opened QuotaLedger

  /** A reservation is known by its request and by its position in the request's quota list. */
  type Id = (nat, nat)

  /**
   What one reservation contributes to its counter: `reserved` while open, its charge afterwards.
   `exact` is the untruncated charge in counter units.
   */
  datatype Entry = Entry(key: QuotaKey, amount: int, reserved: int, open: bool, exact: real)

  type Entries = map<Id, Entry>

  /** A reservation that its request still carries; on a period that ends it is due by `deadline`. */
  datatype Held = Held(key: QuotaKey, reserved: int, deadline: int)

  /**
   The counters, the contributions to those that have not expired, the reservations in flight, and in
   `over` what settlements added beyond reservations since the last admission on a key.
   */
  datatype State = State(counters: Counters, entries: Entries, held: map<Id, Held>, over: map<QuotaKey, int>)

  const START := State(map[], map[], map[], map[])

  /** A quota as a request meets it: its key is named at one moment and its TTL computed at another. */
  datatype Ask = Ask(scope: nat, kind: Kind, metric: Metric, limit: real, enforce: bool, named: nat, timed: nat)

  datatype Event =
    | Check(req: nat, now: nat, asks: seq<Ask>, tokens: int, cost: Option<real>)
    | Settle(id: Id, now: nat, tokens: int, cost: Option<real>)
    | Compensate(id: Id, now: nat)

  function KeyOf(a: Ask): QuotaKey {
    QuotaKey(a.scope, PeriodOf(a.kind, a.named), a.metric)
  }

  /** The limit in counter units. */
  function LimitOf(a: Ask): int {
    Truncate(if a.metric == Cost then a.limit * 1_000_000.0 else a.limit)
  }

  function ItemOf(a: Ask, tokens: int, cost: Option<real>): Item {
    Item(KeyOf(a), TtlSeconds(a.kind, a.timed), LimitOf(a), a.enforce, ReserveFor(a.metric, tokens, cost))
  }

  function ItemsOf(asks: seq<Ask>, tokens: int, cost: Option<real>): (items: seq<Item>)
    ensures |items| == |asks|
  {
    seq(|asks|, i requires 0 <= i < |asks| => ItemOf(asks[i], tokens, cost))
  }

  function EntryOf(a: Ask, tokens: int, cost: Option<real>): Entry {
    var reserve := ReserveFor(a.metric, tokens, cost);
    Entry(KeyOf(a), reserve, reserve, true, reserve as real)
  }

  function HeldOf(a: Ask, tokens: int, cost: Option<real>): Held {
    Held(KeyOf(a), ReserveFor(a.metric, tokens, cost), a.named + SETTLE_WITHIN_MS)
  }

  /** What is left of the counters at `now`. */
  function LiveCounters(c: Counters, now: int): Counters {
    map k | k in c && (c[k].expireAt.Some? ==> now <= c[k].expireAt.value) :: c[k]
  }

  /** The contributions to counters that are still there. */
  function LiveEntries(entries: Entries, c: Counters): Entries {
    map id | id in entries && entries[id].key in c :: entries[id]
  }

  function Live(s: State, now: int): State {
    var c := LiveCounters(s.counters, now);
    s.(counters := c, entries := LiveEntries(s.entries, c))
  }

  /** The entries of an admitted check, from position `i` on. */
  function Book(entries: Entries, req: nat, asks: seq<Ask>, tokens: int, cost: Option<real>, i: nat): Entries
    requires i <= |asks|
    decreases |asks| - i
  {
    if i == |asks| then entries
    else Book(entries[(req, i) := EntryOf(asks[i], tokens, cost)], req, asks, tokens, cost, i + 1)
  }

  /** The reservations of an admitted check. */
  function Take(held: map<Id, Held>, req: nat, asks: seq<Ask>, tokens: int, cost: Option<real>): map<Id, Held> {
    held + map i | 0 <= i < |asks| :: (req, i) := HeldOf(asks[i], tokens, cost)
  }

  /** An entry after settlement: the actual charge of its metric replaces what was reserved. */
  function Charged(e: Entry, tokens: int, cost: Option<real>): (c: Entry)
    ensures c.key == e.key && !c.open && c.amount == e.reserved + Adjustment(e.key.metric, e.reserved, tokens, cost)
    ensures e.key.metric == Requests ==> c.amount == e.reserved
    ensures e.key.metric == Tokens ==> c.amount == tokens
    ensures e.key.metric == Cost ==> c.amount == Micro(cost)
    ensures c.exact == if e.key.metric != Cost then c.amount as real
                       else if cost.Some? then cost.value * 1_000_000.0 else 0.0
  {
    var amount := e.reserved + Adjustment(e.key.metric, e.reserved, tokens, cost);
    e.(amount := amount, open := false,
       exact := if e.key.metric == Cost then (if cost.Some? then cost.value * 1_000_000.0 else 0.0) else amount as real)
  }

  function OverAt(s: State, k: QuotaKey): int {
    if k in s.over then s.over[k] else 0
  }

  function Positive(n: int): int { if n > 0 then n else 0 }

  /** Whether an event can happen: request numbers are new, and only reservations in flight settle. */
  predicate Enabled(s: State, e: Event) {
    match e
    case Check(req, now, asks, _, _) =>
      && (forall id <- s.entries :: id.0 != req)
      && (forall id <- s.held :: id.0 != req)
      && (forall a <- asks :: a.named <= a.timed <= now)
    case Settle(id, _, _, _) => id in s.held
    case Compensate(id, _) => id in s.held
  }

  function AfterCheck(s: State, e: Event): (State, Verdict)
    requires e.Check?
  {
    var (counters, verdict) := Reserve(s.counters, ItemsOf(e.asks, e.tokens, e.cost), 0, e.now);
    if verdict.Pass? then
      (State(counters, Book(s.entries, e.req, e.asks, e.tokens, e.cost, 0),
             Take(s.held, e.req, e.asks, e.tokens, e.cost), s.over - set a <- e.asks :: KeyOf(a)), verdict)
    else
      (s.(counters := counters), verdict)
  }

  /** A settlement of `h`, whose key may have expired by now. */
  function AfterSettle(s: State, id: Id, h: Held, tokens: int, cost: Option<real>): State {
    var adjustment := Adjustment(h.key.metric, h.reserved, tokens, cost);
    State(Adjusted(s.counters, h.key, h.reserved, tokens, cost),
          if id in s.entries then s.entries[id := Charged(s.entries[id], tokens, cost)] else s.entries,
          s.held - {id},
          s.over[h.key := OverAt(s, h.key) + Positive(adjustment)])
  }

  function AfterCompensate(s: State, id: Id, h: Held): State {
    s.(counters := Returned(s.counters, h.key, h.reserved),
       entries := s.entries - {id}, held := s.held - {id})
  }

  /** A settlement or compensation on what is left of the counters. */
  function Ended(s: State, e: Event): State
    requires !e.Check? && Enabled(s, e)
  {
    if e.Settle? then AfterSettle(s, e.id, s.held[e.id], e.tokens, e.cost) else AfterCompensate(s, e.id, s.held[e.id])
  }

  function Step(s: State, e: Event): State
    requires Enabled(s, e)
  {
    var live := Live(s, e.now);
    if e.Check? then AfterCheck(live, e).0 else Ended(live, e)
  }

  /** A run on a nondecreasing clock. */
  predicate Feasible(s: State, clock: int, es: seq<Event>)
    decreases |es|
  {
    es == [] || (Enabled(s, es[0]) && clock <= es[0].now && Feasible(Step(s, es[0]), es[0].now, es[1..]))
  }

  function Run(s: State, clock: int, es: seq<Event>): State
    requires Feasible(s, clock, es)
    decreases |es|
  {
    if es == [] then s else Run(Step(s, es[0]), es[0].now, es[1..])
  }

  /** Whether an event keeps the deadline of a reservation on `k`, if it ends one and `k` has one. */
  predicate InTime(s: State, e: Event, k: QuotaKey)
    requires Enabled(s, e)
  {
    e.Check? || s.held[e.id].key != k || k.period.Forever? || e.now <= s.held[e.id].deadline
  }

  /** Every reservation on `k` that is settled or returned is so in time; other keys may be late. */
  predicate Timely(s: State, clock: int, es: seq<Event>, k: QuotaKey)
    requires Feasible(s, clock, es)
    decreases |es|
  {
    es == [] || (InTime(s, es[0], k) && Timely(Step(s, es[0]), es[0].now, es[1..], k))
  }

  /** The time of the last event. */
  function EndTime(clock: int, es: seq<Event>): int
    decreases |es|
  {
    if es == [] then clock else EndTime(es[0].now, es[1..])
  }

  // ---------------------------------------------------------------------------------------------
  // What every run keeps
  // ---------------------------------------------------------------------------------------------

  function AmountsOn(entries: Entries, k: QuotaKey): map<Id, int> {
    map id | id in entries && entries[id].key == k :: entries[id].amount
  }

  /** Open reservations plus settled charges on `k`. */
  ghost function SumOn(entries: Entries, k: QuotaKey): int {
    Sum(AmountsOn(entries, k))
  }

  function ContributionOn(entries: Entries, id: Id, k: QuotaKey): int {
    if id in entries && entries[id].key == k then entries[id].amount else 0
  }

  /** A key of a period that ends has a time to live that outlasts every settlement. */
  predicate KeyGood(c: Counters, k: QuotaKey) {
    k in c ==>
      if k.period.Forever? then c[k].expireAt.None?
      else c[k].expireAt.Some? && c[k].expireAt.value > EndOf(k.period) + SETTLE_WITHIN_MS
  }

  ghost predicate EntryGood(c: Counters, e: Entry) {
    && e.key in c
    && (e.open ==> e.amount == e.reserved >= 1)
    && (e.key.metric == Requests ==> e.amount == e.reserved == 1)
    && (e.open || e.key.metric != Cost ==> e.exact == e.amount as real)
    && (e.exact >= 0.0 ==> e.amount as real <= e.exact < (e.amount + 1) as real)
  }

  /** A reservation in flight is still part of its counter, unless its key outlived the deadline and expired. */
  ghost predicate HeldGood(s: State, clock: int, id: Id) {
    id in s.held ==>
      var h := s.held[id];
      && (!h.key.period.Forever? ==> h.deadline <= EndOf(h.key.period) + SETTLE_WITHIN_MS)
      && if id in s.entries
         then s.entries[id].open && s.entries[id].key == h.key && s.entries[id].reserved == h.reserved
         else !h.key.period.Forever? && h.deadline < clock
  }

  /** One reservation against one key: in flight and open go together, and contributions are good. */
  ghost predicate IdGood(s: State, clock: int, k: QuotaKey, id: Id) {
    && (id in s.held && s.held[id].key == k ==> HeldGood(s, clock, id))
    && (id in s.held && id in s.entries ==> s.entries[id].key == s.held[id].key)
    && (id in s.entries && s.entries[id].key == k ==>
          EntryGood(s.counters, s.entries[id]) && (s.entries[id].open ==> id in s.held))
  }

  /** What every run keeps of one key. */
  ghost predicate Good(s: State, clock: int, k: QuotaKey) {
    && ValueAt(s.counters, k) == SumOn(s.entries, k)
    && KeyGood(s.counters, k)
    && (forall id :: IdGood(s, clock, k, id))
  }

  lemma UpdateSum(entries: Entries, id: Id, e: Entry, k: QuotaKey)
    ensures SumOn(entries[id := e], k) ==
            SumOn(entries, k) - ContributionOn(entries, id, k) + (if e.key == k then e.amount else 0)
  {
    var amounts := AmountsOn(entries, k);
    if e.key == k {
      assert AmountsOn(entries[id := e], k) == amounts[id := e.amount];
      SumUpdate(amounts, id, e.amount);
    } else {
      assert AmountsOn(entries[id := e], k) == amounts - {id};
      SumRemove(amounts, id);
    }
  }

  lemma RemoveSum(entries: Entries, id: Id, k: QuotaKey)
    ensures SumOn(entries - {id}, k) == SumOn(entries, k) - ContributionOn(entries, id, k)
  {
    assert AmountsOn(entries - {id}, k) == AmountsOn(entries, k) - {id};
    SumRemove(AmountsOn(entries, k), id);
  }

  lemma LiveIsGood(s: State, clock: int, now: int, k: QuotaKey)
    requires Good(s, clock, k) && clock <= now
    ensures Good(Live(s, now), now, k)
  {
    var live := Live(s, now);
    if k in live.counters {
      assert AmountsOn(live.entries, k) == AmountsOn(s.entries, k);
    } else {
      assert AmountsOn(live.entries, k) == map[];
    }
    forall id ensures IdGood(live, now, k, id) {
      LiveIdIsGood(s, clock, now, k, id);
    }
  }

  lemma LiveIdIsGood(s: State, clock: int, now: int, k: QuotaKey, id: Id)
    requires KeyGood(s.counters, k) && IdGood(s, clock, k, id) && clock <= now
    ensures IdGood(Live(s, now), now, k, id)
  {
  }

  /** A reservation that is settled in time finds its key, with its time to live, and is still part of it. */
  lemma TimelySettlementFindsItsKey(s: State, clock: int, id: Id, now: int)
    requires id in s.held && Good(s, clock, s.held[id].key) && clock <= now
    requires s.held[id].key.period.Forever? || now <= s.held[id].deadline
    ensures s.held[id].key in Live(s, now).counters && id in Live(s, now).entries
    ensures !s.held[id].key.period.Forever? ==> Live(s, now).counters[s.held[id].key].expireAt.Some?
  {
    assert IdGood(s, clock, s.held[id].key, id);
  }

  /** Whatever happens to another key's reservation, however late, is nothing to `k`. */
  lemma OtherKeyIsGood(s: State, e: Event, now: int, k: QuotaKey)
    requires Good(s, now, k) && !e.Check? && Enabled(s, e) && s.held[e.id].key != k
    ensures Good(Ended(s, e), now, k)
  {
    var after := Ended(s, e);
    assert IdGood(s, now, k, e.id);
    assert AmountsOn(after.entries, k) == AmountsOn(s.entries, k);
    forall x ensures IdGood(after, now, k, x) {
      assert IdGood(s, now, k, x);
    }
  }

  lemma SettleIsGood(s: State, now: int, id: Id, tokens: int, cost: Option<real>, k: QuotaKey)
    requires Good(s, now, k) && id in s.held && s.held[id].key == k && id in s.entries
    ensures Good(AfterSettle(s, id, s.held[id], tokens, cost), now, k)
  {
    assert IdGood(s, now, k, id);
    UpdateSum(s.entries, id, Charged(s.entries[id], tokens, cost), k);
    forall x ensures IdGood(AfterSettle(s, id, s.held[id], tokens, cost), now, k, x) {
      assert IdGood(s, now, k, x);
    }
  }

  lemma CompensateIsGood(s: State, now: int, id: Id, k: QuotaKey)
    requires Good(s, now, k) && id in s.held && s.held[id].key == k && id in s.entries
    ensures Good(AfterCompensate(s, id, s.held[id]), now, k)
  {
    assert IdGood(s, now, k, id);
    RemoveSum(s.entries, id, k);
    forall x ensures IdGood(AfterCompensate(s, id, s.held[id]), now, k, x) {
      assert IdGood(s, now, k, x);
    }
  }

  /** Reserving creates no key without a time to live, and loses no key, whether it passes or not. */
  lemma {:induction false} ReserveKeepsKey(c: Counters, asks: seq<Ask>, tokens: int, cost: Option<real>, i: nat,
                                           now: nat, k: QuotaKey)
    requires i <= |asks| && (forall a <- asks :: a.named <= a.timed <= now) && KeyGood(c, k)
    requires forall j :: 0 <= j < i && KeyOf(asks[j]) == k ==> k in c
    ensures var (after, verdict) := Reserve(c, ItemsOf(asks, tokens, cost), i, now);
            && KeyGood(after, k) && (k in c ==> k in after)
            && (verdict.Pass? ==> forall a <- asks :: KeyOf(a) == k ==> k in after)
    decreases |asks| - i
  {
    var items := ItemsOf(asks, tokens, cost);
    if i < |asks| {
      var c1 := ReserveOne(c, items[i], now);
      assert items[i] == ItemOf(asks[i], tokens, cost);
      ReserveOneKeepsKey(c, asks[i], tokens, cost, now, k);
      if items[i].enforce && c1[items[i].key].value > items[i].limit {
        GiveBackKeepsKey(c1, items[..i + 1], k);
      } else {
        ReserveKeepsKey(c1, asks, tokens, cost, i + 1, now, k);
      }
    }
  }

  lemma ReserveOneKeepsKey(c: Counters, a: Ask, tokens: int, cost: Option<real>, now: nat, k: QuotaKey)
    requires a.named <= a.timed <= now && KeyGood(c, k)
    ensures var c1 := ReserveOne(c, ItemOf(a, tokens, cost), now);
            KeyGood(c1, k) && c1.Keys == c.Keys + {KeyOf(a)}
  {
    if a.kind != Total { KeyOutlivesPeriod(a.kind, a.named, a.timed, now); }
    TtlSign(a.kind, a.timed);
  }

  lemma TtlSign(kind: Kind, t: nat)
    ensures TtlSeconds(kind, t) > 0 <==> kind != Total
  {
  }

  lemma {:induction false} GiveBackKeepsKey(c: Counters, items: seq<Item>, k: QuotaKey)
    requires KeyGood(c, k) && forall item <- items :: item.key == k ==> k in c
    ensures KeyGood(GiveBack(c, items), k) && (k in c ==> k in GiveBack(c, items))
    decreases |items|
  {
    if items != [] {
      GiveBackKeepsKey(IncrBy(c, items[0].key, -items[0].reserve), items[1..], k);
    }
  }

  lemma {:induction false} BookSum(entries: Entries, req: nat, asks: seq<Ask>, tokens: int, cost: Option<real>, i: nat,
                                   k: QuotaKey)
    requires i <= |asks| && forall id <- entries :: id.0 == req ==> id.1 < i
    ensures SumOn(Book(entries, req, asks, tokens, cost, i), k) ==
            SumOn(entries, k) + ReservedOn(ItemsOf(asks, tokens, cost)[i..], k)
    decreases |asks| - i
  {
    if i < |asks| {
      var e := EntryOf(asks[i], tokens, cost);
      UpdateSum(entries, (req, i), e, k);
      BookSum(entries[(req, i) := e], req, asks, tokens, cost, i + 1, k);
      var items := ItemsOf(asks, tokens, cost);
      assert items[i..][1..] == items[i + 1..];
    }
  }

  /** Booking adds one open entry for every ask, under the request's own ids. */
  lemma {:induction false} BookedIs(entries: Entries, req: nat, asks: seq<Ask>, tokens: int, cost: Option<real>, i: nat,
                                    id: Id)
    requires i <= |asks|
    ensures var booked := Book(entries, req, asks, tokens, cost, i);
            if id.0 == req && i <= id.1 < |asks| then id in booked && booked[id] == EntryOf(asks[id.1], tokens, cost)
            else (id in booked <==> id in entries) && (id in booked ==> booked[id] == entries[id])
    decreases |asks| - i
  {
    if i < |asks| {
      BookedIs(entries[(req, i) := EntryOf(asks[i], tokens, cost)], req, asks, tokens, cost, i + 1, id);
    }
  }

  lemma AskDeadline(a: Ask)
    requires a.kind != Total
    ensures a.named + SETTLE_WITHIN_MS <= EndOf(KeyOf(a).period) + SETTLE_WITHIN_MS
  {
    EndsInOrder(a.kind, a.named, a.named);
  }

  /** An admitted check, against one reservation. */
  lemma TakenIsGood(s: State, e: Event, c: Counters, k: QuotaKey, id: Id)
    requires e.Check? && Enabled(s, e) && IdGood(s, e.now, k, id)
    requires (k in s.counters ==> k in c) && forall a <- e.asks :: KeyOf(a) == k ==> k in c
    ensures IdGood(s.(counters := c, entries := Book(s.entries, e.req, e.asks, e.tokens, e.cost, 0),
                      held := Take(s.held, e.req, e.asks, e.tokens, e.cost)), e.now, k, id)
  {
    BookedIs(s.entries, e.req, e.asks, e.tokens, e.cost, 0, id);
    if id.0 == e.req && id.1 < |e.asks| && e.asks[id.1].kind != Total { AskDeadline(e.asks[id.1]); }
  }

  lemma CheckIsGood(s: State, e: Event, k: QuotaKey)
    requires e.Check? && Enabled(s, e) && Good(s, e.now, k)
    ensures Good(AfterCheck(s, e).0, e.now, k)
  {
    var items := ItemsOf(e.asks, e.tokens, e.cost);
    var (counters, verdict) := Reserve(s.counters, items, 0, e.now);
    assert items[..0] == [] && items[0..] == items;
    ReserveEffect(s.counters, s.counters, items, 0, e.now);
    ReserveKeepsKey(s.counters, e.asks, e.tokens, e.cost, 0, e.now, k);
    if verdict.Pass? {
      BookSum(s.entries, e.req, e.asks, e.tokens, e.cost, 0, k);
    }
    forall id ensures IdGood(AfterCheck(s, e).0, e.now, k, id) {
      assert IdGood(s, e.now, k, id);
      if verdict.Pass? { TakenIsGood(s, e, counters, k, id); }
    }
  }

  lemma StepIsGood(s: State, clock: int, e: Event, k: QuotaKey)
    requires Good(s, clock, k) && Enabled(s, e) && clock <= e.now && InTime(s, e, k)
    ensures Good(Step(s, e), e.now, k)
  {
    LiveIsGood(s, clock, e.now, k);
    var live := Live(s, e.now);
    if e.Check? {
      CheckIsGood(live, e, k);
    } else if s.held[e.id].key != k {
      OtherKeyIsGood(live, e, e.now, k);
    } else {
      TimelySettlementFindsItsKey(s, clock, e.id, e.now);
      if e.Settle? {
        SettleIsGood(live, e.now, e.id, e.tokens, e.cost, k);
      } else {
        CompensateIsGood(live, e.now, e.id, k);
      }
    }
  }

  lemma {:induction false} RunIsGood(s: State, clock: int, es: seq<Event>, k: QuotaKey)
    requires Good(s, clock, k) && Feasible(s, clock, es) && Timely(s, clock, es, k)
    ensures Good(Run(s, clock, es), EndTime(clock, es), k)
    decreases |es|
  {
    if es != [] {
      StepIsGood(s, clock, es[0], k);
      RunIsGood(Step(s, es[0]), es[0].now, es[1..], k);
    }
  }

  lemma StartIsGood(k: QuotaKey)
    ensures Good(START, 0, k)
  {
    assert AmountsOn(map[], k) == map[];
  }

  /**
   After every run, each counter whose reservations are ended in time is the sum of the open
   reservations and the settled charges on its key; failed checks and compensations have contributed
   nothing. Counters of total quotas have no deadline.
   */
  lemma CountersAreConserved(es: seq<Event>, k: QuotaKey)
    requires Feasible(START, 0, es) && Timely(START, 0, es, k)
    ensures var s := Run(START, 0, es); ValueAt(s.counters, k) == SumOn(s.entries, k)
  {
    StartIsGood(k);
    RunIsGood(START, 0, es, k);
  }

  /**
   No run leaves a counter of a period that ends, and whose reservations are ended in time, without a
   time to live, or with one that ends less than `SETTLE_WITHIN_MS` after the period.
   */
  lemma NoCounterLivesForEver(es: seq<Event>, k: QuotaKey)
    requires Feasible(START, 0, es) && Timely(START, 0, es, k)
    requires k in Run(START, 0, es).counters && !k.period.Forever?
    ensures var c := Run(START, 0, es).counters[k];
            c.expireAt.Some? && c.expireAt.value > EndOf(k.period) + SETTLE_WITHIN_MS
  {
    StartIsGood(k);
    RunIsGood(START, 0, es, k);
  }

  // ---------------------------------------------------------------------------------------------
  // Late settlements
  // ---------------------------------------------------------------------------------------------

  /** What a settlement or compensation adds to the counter of its key. */
  function DeltaOf(s: State, e: Event): int
    requires !e.Check? && Enabled(s, e)
  {
    var h := s.held[e.id];
    if e.Settle? then Adjustment(h.key.metric, h.reserved, e.tokens, e.cost) else -h.reserved
  }

  /**
   A settlement or compensation leaves every key with the time to live it must have exactly if its
   own key has not expired, or nothing is to be added.
   */
  lemma LateSettlementOrphans(s: State, clock: int, e: Event)
    requires !e.Check? && Enabled(s, e) && clock <= e.now && forall k :: Good(s, clock, k)
    ensures (forall k :: KeyGood(Step(s, e).counters, k))
            <==> s.held[e.id].key in Live(s, e.now).counters || DeltaOf(s, e) == 0
  {
    var h, live, after := s.held[e.id], Live(s, e.now), Step(s, e);
    assert Good(s, clock, h.key) && IdGood(s, clock, h.key, e.id);
    LiveIsGood(s, clock, e.now, h.key);
    if h.key in live.counters || DeltaOf(s, e) == 0 {
      forall k ensures KeyGood(after.counters, k) {
        assert Good(s, clock, k);
      }
    } else {
      assert !KeyGood(after.counters, h.key);
    }
  }

  /**
   That happens: for every ask on a period that ends, a check that passes and a settlement after the
   key expired leave a counter that never expires.
   */
  lemma LateSettlementHappens(a: Ask, req: nat, now: nat, tokens: int, cost: Option<real>, late: nat, used: int,
                              paid: Option<real>)
    requires a.kind != Total && a.named <= a.timed <= now
    requires a.enforce ==> ReserveFor(a.metric, tokens, cost) <= LimitOf(a)
    requires now + TtlSeconds(a.kind, a.timed) * SECOND_MS < late
    requires Adjustment(a.metric, ReserveFor(a.metric, tokens, cost), used, paid) != 0
    ensures var es := [Check(req, now, [a], tokens, cost), Settle((req, 0), late, used, paid)];
            && Feasible(START, 0, es)
            && KeyOf(a) in Run(START, 0, es).counters && Run(START, 0, es).counters[KeyOf(a)].expireAt.None?
  {
    var check, settle := Check(req, now, [a], tokens, cost), Settle((req, 0), late, used, paid);
    FirstCheck(a, req, now, tokens, cost);
    var s1 := Step(START, check);
    var s2 := Step(s1, settle);
    assert KeyOf(a) !in Live(s1, late).counters;
    assert s2.counters[KeyOf(a)].expireAt.None?;
    assert [check, settle][1..] == [settle] && [settle][1..] == [];
    assert Run(s1, now, [settle]) == Run(s2, late, []) == s2;
  }

  lemma FirstCheck(a: Ask, req: nat, now: nat, tokens: int, cost: Option<real>)
    requires a.kind != Total && a.named <= a.timed <= now
    requires a.enforce ==> ReserveFor(a.metric, tokens, cost) <= LimitOf(a)
    ensures var check := Check(req, now, [a], tokens, cost);
            && Enabled(START, check) && (req, 0) in Step(START, check).held
            && Step(START, check).held[(req, 0)] == HeldOf(a, tokens, cost)
            && Step(START, check).counters ==
               map[KeyOf(a) := Counter(ReserveFor(a.metric, tokens, cost),
                                       Some(now + TtlSeconds(a.kind, a.timed) * SECOND_MS))]
  {
    var item := ItemOf(a, tokens, cost);
    assert ItemsOf([a], tokens, cost) == [item];
    assert Live(START, now) == START;
    TtlSign(a.kind, a.timed);
    var c1 := ReserveOne(map[], item, now);
    assert Reserve(c1, [item], 1, now) == (c1, Pass);
    assert Reserve(map[], [item], 0, now) == (c1, Pass);
  }

  // ---------------------------------------------------------------------------------------------
  // In numbers
  // ---------------------------------------------------------------------------------------------

  /**
   A check with one ask on `k`: it passes exactly if `amount` more stays within the limit, or nothing is
   enforced; then the counter has `amount` more, which is due for 2099 s. A counter that was zero gets the
   lifetime of its period, any other keeps its own. Otherwise no counter value changes. No other counter is touched.
   */
  ghost predicate ReservesExactly(s: State, e: Event, k: QuotaKey, amount: int, limit: real)
    requires e.Check? && |e.asks| == 1
  {
    var (s', verdict) := AfterCheck(s, e);
    var before := if k in s.counters then s.counters[k].value else 0;
    && (verdict.Pass? <==> !e.asks[0].enforce || (before + amount) as real <= limit)
    && k in s'.counters && s'.counters[k].value == (if verdict.Pass? then before + amount else before)
    && (before != 0 ==> s'.counters[k].expireAt == s.counters[k].expireAt)
    && (before == 0 && verdict.Pass? && e.asks[0].kind != Total ==>
          s'.counters[k].expireAt == Some(e.now + 1000 * TtlSeconds(e.asks[0].kind, e.asks[0].timed)))
    && (forall other <- s.counters :: other != k ==> other in s'.counters && s'.counters[other] == s.counters[other])
    && (forall other <- s'.counters :: other != k ==> other in s.counters)
    && (verdict.Pass? ==> (e.req, 0) in s'.held && s'.held[(e.req, 0)] == Held(k, amount, e.asks[0].named + 2_099_000))
  }

  lemma OneAsk(s: State, e: Event, a: Ask, k: QuotaKey, amount: int, limit: real)
    requires e.Check? && e.asks == [a] && limit >= 0.0
    requires amount == ReserveFor(a.metric, e.tokens, e.cost) && k == KeyOf(a) && LimitOf(a) == Truncate(limit)
    ensures ReservesExactly(s, e, k, amount, limit)
  {
    var item := ItemOf(a, e.tokens, e.cost);
    TtlSign(a.kind, a.timed);
    assert ItemsOf([a], e.tokens, e.cost) == [item];
    OneItem(s.counters, item, e.now);
    var count := ValueAt(s.counters, k) + amount;
    assert count as real <= limit <==> count <= Truncate(limit);
  }

  /** A token quota counts the estimate, at least 1, against its limit. */
  lemma TokenAskIsExact(s: State, req: nat, now: nat, a: Ask, tokens: int, cost: Option<real>)
    requires a.metric == Tokens && a.limit >= 0.0
    ensures ReservesExactly(s, Check(req, now, [a], tokens, cost), QuotaKey(a.scope, PeriodOf(a.kind, a.named), Tokens),
                            if tokens >= 1 then tokens else 1, a.limit)
  {
    OneAsk(s, Check(req, now, [a], tokens, cost), a, KeyOf(a), ReserveFor(a.metric, tokens, cost), a.limit);
  }

  /** A cost quota counts the estimate in whole millionths, rounded down and at least 1; its limit is scaled alike. */
  lemma CostAskIsExact(s: State, req: nat, now: nat, a: Ask, tokens: int, cost: Option<real>)
    requires a.metric == Cost && a.limit >= 0.0
    ensures var micro := if cost.Some? then cost.value * 1_000_000.0 else 0.0;
            ReservesExactly(s, Check(req, now, [a], tokens, cost), QuotaKey(a.scope, PeriodOf(a.kind, a.named), Cost),
                            if micro >= 1.0 then micro.Floor else 1, a.limit * 1_000_000.0)
  {
    OneAsk(s, Check(req, now, [a], tokens, cost), a, KeyOf(a), ReserveFor(a.metric, tokens, cost),
           a.limit * 1_000_000.0);
  }

  /** A request quota counts 1 for every request. */
  lemma RequestAskIsExact(s: State, req: nat, now: nat, a: Ask, tokens: int, cost: Option<real>)
    requires a.metric == Requests && a.limit >= 0.0
    ensures ReservesExactly(s, Check(req, now, [a], tokens, cost),
                            QuotaKey(a.scope, PeriodOf(a.kind, a.named), Requests), 1, a.limit)
  {
    OneAsk(s, Check(req, now, [a], tokens, cost), a, KeyOf(a), 1, a.limit);
  }

  /**
   A settlement moves the counter of its reservation, and no other that has not expired, from what was
   reserved to what was used, and what it adds counts as overuse; a compensation takes away what was reserved.
   */
  lemma EndsExactly(s: State, id: Id, now: nat, tokens: int, cost: Option<real>)
    requires id in s.held
    ensures var settled, returned := Step(s, Settle(id, now, tokens, cost)), Step(s, Compensate(id, now));
            var live, h := Live(s, now), s.held[id];
            var charge := match h.key.metric
                          case Requests => h.reserved
                          case Tokens => tokens
                          case Cost => if cost.Some? then Truncate(cost.value * 1_000_000.0) else 0;
            var before := ValueAt(live.counters, h.key);
            && ValueAt(settled.counters, h.key) == before + charge - h.reserved
            && OverAt(settled, h.key) == OverAt(s, h.key) + (if charge > h.reserved then charge - h.reserved else 0)
            && ValueAt(returned.counters, h.key) == before - h.reserved && returned.over == s.over
            && settled.counters - {h.key} == returned.counters - {h.key} == live.counters - {h.key}
            && settled.over - {h.key} == s.over - {h.key} && settled.held == returned.held == s.held - {id}
  {
  }

  /** At any moment exactly the counters whose time has not passed are there, with what contributes to them. */
  lemma LiveIsExact(s: State, now: int, k: QuotaKey, id: Id)
    ensures var live := Live(s, now);
            && (k in live.counters <==>
                  k in s.counters && (s.counters[k].expireAt.None? || now <= s.counters[k].expireAt.value))
            && (k in live.counters ==> live.counters[k] == s.counters[k])
            && (id in live.entries <==> id in s.entries && s.entries[id].key in live.counters)
            && (id in live.entries ==> live.entries[id] == s.entries[id])
            && live.held == s.held && live.over == s.over
  {
  }

  /** A check works on what is left of the counters; an admission starts counting overuse on its keys again. */
  lemma CheckStepIsTheScript(s: State, e: Event)
    requires e.Check? && Enabled(s, e)
    ensures var live := Live(s, e.now);
            var (s', verdict) := AfterCheck(live, e);
            && Step(s, e) == s' && (verdict.Fail? ==> s' == live.(counters := s'.counters))
            && (verdict.Pass? ==> s'.over == s.over - set a <- e.asks :: KeyOf(a))
  {
  }

  /** What is asked of a run for `k`: a reservation on `k` that ends is ended by its deadline, if it has one. */
  lemma TimelyIsTheDeadline(s: State, clock: int, e: Event, es: seq<Event>, k: QuotaKey)
    requires Feasible(s, clock, [e] + es)
    ensures Timely(s, clock, [e] + es, k) <==>
              && (e.Check? || s.held[e.id].key != k || k.period == Forever || e.now <= s.held[e.id].deadline)
              && Feasible(Step(s, e), e.now, es) && Timely(Step(s, e), e.now, es, k)
  {
    assert ([e] + es)[1..] == es;
  }

  // ---------------------------------------------------------------------------------------------
  // Overshoot
  // ---------------------------------------------------------------------------------------------

  /** `k` is enforced with the limit `limit` by every check of `es`. */
  predicate FixedLimit(es: seq<Event>, k: QuotaKey, limit: int) {
    forall e <- es :: e.Check? ==> forall a <- e.asks :: KeyOf(a) == k ==> a.enforce && LimitOf(a) == limit
  }

  ghost predicate Bounded(s: State, k: QuotaKey, limit: int) {
    OverAt(s, k) >= 0 && ValueAt(s.counters, k) <= limit + OverAt(s, k)
  }

  /** The last item on `k` sees everything that is reserved on `k`. */
  lemma {:induction false} LastItemOn(items: seq<Item>, k: QuotaKey) returns (j: nat)
    requires exists item <- items :: item.key == k
    ensures j < |items| && items[j].key == k && ReservedOn(items[..j + 1], k) == ReservedOn(items, k)
    decreases |items|
  {
    var n := |items| - 1;
    assert items == items[..n] + [items[n]] == items[..n + 1];
    if items[n].key == k {
      j := n;
    } else {
      assert exists item <- items[..n] :: item.key == k;
      j := LastItemOn(items[..n], k);
      ReservedOnAppend(items[..n], items[n], k);
      assert items[..n][..j + 1] == items[..j + 1];
    }
  }

  /** Right after an admitted check, every enforced counter it touched is within its limit. */
  lemma AdmittedWithinLimit(s: State, e: Event, k: QuotaKey, limit: int)
    requires e.Check? && FixedLimit([e], k, limit) && (exists a <- e.asks :: KeyOf(a) == k)
    requires AfterCheck(s, e).1.Pass?
    ensures ValueAt(AfterCheck(s, e).0.counters, k) <= limit
  {
    var items := ItemsOf(e.asks, e.tokens, e.cost);
    assert items[..0] == [];
    ReserveEffect(s.counters, s.counters, items, 0, e.now);
    var a :| a in e.asks && KeyOf(a) == k;
    var i :| 0 <= i < |e.asks| && e.asks[i] == a;
    assert items[i] == ItemOf(a, e.tokens, e.cost) && items[i] in items;
    var j := LastItemOn(items, k);
    assert items[j] == ItemOf(e.asks[j], e.tokens, e.cost) && e.asks[j] in e.asks && e in [e];
  }

  lemma CheckKeepsBound(s: State, e: Event, k: QuotaKey, limit: int)
    requires Bounded(s, k, limit) && e.Check? && FixedLimit([e], k, limit)
    ensures Bounded(AfterCheck(s, e).0, k, limit)
  {
    var items := ItemsOf(e.asks, e.tokens, e.cost);
    assert items[..0] == [];
    ReserveEffect(s.counters, s.counters, items, 0, e.now);
    if AfterCheck(s, e).1.Pass? {
      if exists a <- e.asks :: KeyOf(a) == k {
        AdmittedWithinLimit(s, e, k, limit);
      } else {
        NothingReservedOn(items, k);
      }
    }
  }

  lemma {:induction false} NothingReservedOn(items: seq<Item>, k: QuotaKey)
    requires forall item <- items :: item.key != k
    ensures ReservedOn(items, k) == 0
  {
    if items != [] {
      NothingReservedOn(items[1..], k);
    }
  }

  lemma StepKeepsBound(s: State, clock: int, e: Event, k: QuotaKey, limit: int)
    requires Good(s, clock, k) && Enabled(s, e) && clock <= e.now && InTime(s, e, k)
    requires limit >= 0 && Bounded(s, k, limit) && FixedLimit([e], k, limit)
    ensures Bounded(Step(s, e), k, limit)
  {
    var live := Live(s, e.now);
    assert Bounded(live, k, limit);
    if e.Check? {
      CheckKeepsBound(live, e, k, limit);
    } else if s.held[e.id].key == k {
      TimelySettlementFindsItsKey(s, clock, e.id, e.now);
      assert IdGood(s, clock, k, e.id);
    }
  }

  lemma {:induction false} RunKeepsBound(s: State, clock: int, es: seq<Event>, k: QuotaKey, limit: int)
    requires Good(s, clock, k) && Feasible(s, clock, es) && Timely(s, clock, es, k)
    requires limit >= 0 && Bounded(s, k, limit) && FixedLimit(es, k, limit)
    ensures Bounded(Run(s, clock, es), k, limit)
    decreases |es|
  {
    if es != [] {
      assert es[0] in es && forall e <- es[1..] :: e in es;
      StepIsGood(s, clock, es[0], k);
      StepKeepsBound(s, clock, es[0], k, limit);
      RunKeepsBound(Step(s, es[0]), es[0].now, es[1..], k, limit);
    }
  }

  /**
   At every state of a run, a counter whose limit is fixed and enforced, and whose reservations are
   ended in time, exceeds the limit by no more than what settlements have added beyond their
   reservations since the last admission.
   */
  lemma OvershootIsBounded(es: seq<Event>, k: QuotaKey, limit: int)
    requires Feasible(START, 0, es) && Timely(START, 0, es, k) && limit >= 0 && FixedLimit(es, k, limit)
    ensures var s := Run(START, 0, es); ValueAt(s.counters, k) <= limit + (if k in s.over then s.over[k] else 0)
  {
    StartIsGood(k);
    RunKeepsBound(START, 0, es, k, limit);
  }

  // ---------------------------------------------------------------------------------------------
  // Cost
  // ---------------------------------------------------------------------------------------------

  /** The cost of a request in millionths of a cost point. */
  function Priced(priceInput: real, priceOutput: real, prompt: int, completion: int): real {
    prompt as real * priceInput + completion as real * priceOutput
  }

  /** `compute_cost`: nothing for a model without both prices. */
  function ComputeCost(priceInput: Option<real>, priceOutput: Option<real>, prompt: int, completion: int): Option<real>
  {
    if priceInput.None? || priceOutput.None? then None
    else Some(Priced(priceInput.value, priceOutput.value, prompt, completion) / 1_000_000.0)
  }

  /** The charge in micro-units is the priced token count, rounded down. */
  lemma MicroCostRoundsDown(priceInput: real, priceOutput: real, prompt: int, completion: int)
    requires Priced(priceInput, priceOutput, prompt, completion) >= 0.0
    ensures Micro(ComputeCost(Some(priceInput), Some(priceOutput), prompt, completion)) ==
            Priced(priceInput, priceOutput, prompt, completion).Floor
  {
    var x := Priced(priceInput, priceOutput, prompt, completion);
    MillionBack(x);
    assert Micro(Some(x / 1_000_000.0)) == x.Floor;
  }

  /** Prices are per million tokens, input and output apart. */
  lemma PricesArePerMillion(priceInput: real, priceOutput: real, millionsIn: int, millionsOut: int)
    ensures ComputeCost(Some(priceInput), Some(priceOutput), 1_000_000 * millionsIn, 1_000_000 * millionsOut)
            == Some(millionsIn as real * priceInput + millionsOut as real * priceOutput)
    ensures ComputeCost(None, Some(priceOutput), millionsIn, millionsOut) == None
    ensures ComputeCost(Some(priceInput), None, millionsIn, millionsOut) == None
  {
    var cost := millionsIn as real * priceInput + millionsOut as real * priceOutput;
    MillionTimes(millionsIn, priceInput);
    MillionTimes(millionsOut, priceOutput);
    assert Priced(priceInput, priceOutput, 1_000_000 * millionsIn, 1_000_000 * millionsOut) == 1_000_000.0 * cost;
    assert 1_000_000.0 * cost / 1_000_000.0 == cost;
  }

  lemma MillionTimes(n: int, price: real)
    ensures (1_000_000 * n) as real * price == 1_000_000.0 * (n as real * price)
  {
    assert (1_000_000 * n) as real == 1_000_000.0 * n as real;
  }

  lemma MillionBack(x: real)
    ensures x / 1_000_000.0 * 1_000_000.0 == x
  {
  }

  function ExactOn(entries: Entries, k: QuotaKey): map<Id, real> {
    map id | id in entries && entries[id].key == k :: entries[id].exact
  }

  function SettledOn(entries: Entries, k: QuotaKey): map<Id, int> {
    map id | id in entries && entries[id].key == k :: if entries[id].open then 0 else 1
  }

  /** Summing marks counts the marked. */
  lemma {:induction false} MarksCount(marks: map<Id, int>)
    requires forall id <- marks :: marks[id] == 0 || marks[id] == 1
    ensures Sum(marks) == |set id | id in marks && marks[id] == 1|
    decreases |marks|
  {
    if marks != map[] {
      var id :| id in marks;
      var rest := marks - {id};
      assert |rest| < |marks| by {
        assert rest.Keys == marks.Keys - {id};
        assert |rest.Keys| == |rest| && |marks.Keys| == |marks|;
      }
      MarksCount(rest);
      SumRemove(marks, id);
      var one := set x | x in marks && marks[x] == 1;
      assert (set x | x in rest && rest[x] == 1) == one - {id};
    }
  }

  /**
   A cost counter never exceeds the exact costs it stands for, and falls short of them by less than
   one micro-unit for each settled request.
   */
  lemma CostShortfall(es: seq<Event>, k: QuotaKey)
    requires Feasible(START, 0, es) && Timely(START, 0, es, k)
    requires forall id <- Run(START, 0, es).entries ::
               Run(START, 0, es).entries[id].key == k ==> Run(START, 0, es).entries[id].exact >= 0.0
    ensures var s := Run(START, 0, es);
            var value, exact := ValueAt(s.counters, k), RealSum(ExactOn(s.entries, k));
            var settled := |set id | id in s.entries && s.entries[id].key == k && !s.entries[id].open|;
            && value as real <= exact
            && (exact < (value + settled) as real || (settled == 0 && exact == value as real))
  {
    StartIsGood(k);
    RunIsGood(START, 0, es, k);
    var s := Run(START, 0, es);
    forall id <- s.entries | s.entries[id].key == k ensures EntryGood(s.counters, s.entries[id]) {
      assert IdGood(s, EndTime(0, es), k, id);
    }
    Shortfall(AmountsOn(s.entries, k), ExactOn(s.entries, k), SettledOn(s.entries, k));
    MarksCount(SettledOn(s.entries, k));
    assert (set id | id in SettledOn(s.entries, k) && SettledOn(s.entries, k)[id] == 1) ==
           set id | id in s.entries && s.entries[id].key == k && !s.entries[id].open;
  }
}
