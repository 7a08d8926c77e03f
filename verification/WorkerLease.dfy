/**
 Worker ids leased to replicas through keys that expire. A lease is claimed with SET NX EX, renewed
 and released by scripts that compare the stored token, and it frees itself when it is not renewed.

 Times are milliseconds of one shared clock. A key exists up to and including its `until`.
 */
module WorkerLease {
  import opened Snowflake

  datatype Lease = Lease(token: nat, until: nat)

  predicate Free(leases: map<nat, Lease>, worker: nat, now: nat) {
    worker in leases ==> leases[worker].until < now
  }

  /** What GET compares with: the key exists and stores `token`. */
  predicate Holds(leases: map<nat, Lease>, worker: nat, token: nat, now: nat) {
    worker in leases && now <= leases[worker].until && leases[worker].token == token
  }

  function AfterClaim(leases: map<nat, Lease>, worker: nat, token: nat, ttl: nat, now: nat): map<nat, Lease> {
    if Free(leases, worker, now) then leases[worker := Lease(token, now + ttl)] else leases
  }

  function AfterRenew(leases: map<nat, Lease>, worker: nat, token: nat, ttl: nat, now: nat): map<nat, Lease> {
    if Holds(leases, worker, token, now) then leases[worker := Lease(token, now + ttl)] else leases
  }

  function AfterRelease(leases: map<nat, Lease>, worker: nat, token: nat, now: nat): map<nat, Lease> {
    if Holds(leases, worker, token, now) then leases - {worker} else leases
  }

  class Registry {
    var leases: map<nat, Lease>
    const ttl: nat

    constructor (ttl: nat)
      ensures leases == map[] && this.ttl == ttl
    {
      leases := map[];
      this.ttl := ttl;
    }

    method TryClaim(worker: nat, token: nat, now: nat) returns (claimed: bool)
      modifies this
      ensures claimed == Free(old(leases), worker, now)
      ensures leases == AfterClaim(old(leases), worker, token, ttl, now)
      ensures claimed <==> worker !in old(leases) || old(leases)[worker].until < now
      ensures leases == if claimed then old(leases)[worker := Lease(token, now + ttl)] else old(leases)
    {
      claimed := Free(leases, worker, now);
      if claimed {
        leases := leases[worker := Lease(token, now + ttl)];
      }
    }

    method Renew(worker: nat, token: nat, now: nat) returns (renewed: bool)
      modifies this
      ensures renewed == Holds(old(leases), worker, token, now)
      ensures leases == AfterRenew(old(leases), worker, token, ttl, now)
      ensures renewed <==>
                worker in old(leases) && now <= old(leases)[worker].until && old(leases)[worker].token == token
      ensures leases == if renewed then old(leases)[worker := Lease(token, now + ttl)] else old(leases)
    {
      renewed := Holds(leases, worker, token, now);
      if renewed {
        leases := leases[worker := Lease(token, now + ttl)];
      }
    }

    method Release(worker: nat, token: nat, now: nat) returns (released: bool)
      modifies this
      ensures released == Holds(old(leases), worker, token, now)
      ensures leases == AfterRelease(old(leases), worker, token, now)
      ensures released <==>
                worker in old(leases) && now <= old(leases)[worker].until && old(leases)[worker].token == token
      ensures leases == if released then old(leases) - {worker} else old(leases)
    {
      released := Holds(leases, worker, token, now);
      if released {
        leases := leases - {worker};
      }
    }

    /**
     The walk over 0..1023, with attempt `w` made at `clock[w]`: it takes the first id that is free
     when its turn comes, and fails only if every id is held at its turn.
     */
    method Acquire(token: nat, clock: seq<nat>) returns (acquired: bool, worker: nat)
      requires |clock| == MAX_WORKER_ID + 1
      modifies this
      ensures acquired <==> exists w :: 0 <= w <= 1023 && Free(old(leases), w, clock[w])
      ensures acquired ==> worker <= 1023 && Free(old(leases), worker, clock[worker])
      ensures acquired ==> forall w :: 0 <= w < worker ==> !Free(old(leases), w, clock[w])
      ensures leases == if acquired then old(leases)[worker := Lease(token, clock[worker] + ttl)] else old(leases)
    {
      worker := 0;
      while worker <= MAX_WORKER_ID
        invariant 0 <= worker <= MAX_WORKER_ID + 1 && leases == old(leases)
        invariant forall w :: 0 <= w < worker ==> !Free(leases, w, clock[w])
      {
        acquired := TryClaim(worker, token, clock[worker]);
        if acquired {
          return;
        }
        worker := worker + 1;
      }
      acquired := false;
    }
  }

  // ---------------------------------------------------------------------------------------------
  // Many replicas
  // ---------------------------------------------------------------------------------------------

  /** A replica: its worker id, when it claimed it, and the latest stamp of its generator. */
  datatype Replica = Replica(worker: nat, claimed: nat, last: Stamp)

  datatype Issued = Issued(token: nat, worker: nat, stamp: Stamp)

  /** Every replica is known by the random token it drew when it started. */
  datatype System = System(now: nat, leases: map<nat, Lease>, replicas: map<nat, Replica>, minted: seq<Issued>)

  const START := System(0, map[], map[], [])

  datatype Action =
    | Claim(token: nat, worker: nat)
    | Renew(token: nat)
    | Release(token: nat)
    | Mint(token: nat)

  /** What a replica does at time `now`. */
  datatype Event = Event(now: nat, action: Action)

  /**
   The clock does not run backwards, tokens are never drawn twice, and a replica mints only while
   its token is in Redis.
   */
  predicate Possible(s: System, e: Event) {
    && s.now <= e.now
    && match e.action
       case Claim(token, worker) => token !in s.replicas && worker <= MAX_WORKER_ID
       case Renew(token) => token in s.replicas
       case Release(token) => token in s.replicas
       case Mint(token) =>
         && token in s.replicas && Holds(s.leases, s.replicas[token].worker, token, e.now)
         && InRange(s.replicas[token].last) && Call(s.replicas[token].last, [e.now]).Minted?
  }

  /** A worker id that was given back is claimed at a later millisecond than its last id. */
  predicate Spaced(s: System, e: Event) {
    e.action.Claim? && e.action.worker !in s.leases ==>
      forall m <- s.minted :: m.worker == e.action.worker ==> m.stamp.ms < e.now
  }

  function Act(s: System, e: Event, ttl: nat): System
    requires Possible(s, e)
  {
    match e.action
    case Claim(token, worker) =>
      System(e.now, AfterClaim(s.leases, worker, token, ttl, e.now),
             if Free(s.leases, worker, e.now)
             then s.replicas[token := Replica(worker, e.now, Stamp(-1, 0))] else s.replicas,
             s.minted)
    case Renew(token) =>
      s.(now := e.now, leases := AfterRenew(s.leases, s.replicas[token].worker, token, ttl, e.now))
    case Release(token) =>
      s.(now := e.now, leases := AfterRelease(s.leases, s.replicas[token].worker, token, e.now))
    case Mint(token) =>
      var replica := s.replicas[token];
      var stamp := Call(replica.last, [e.now]).stamp;
      s.(now := e.now, replicas := s.replicas[token := replica.(last := stamp)],
         minted := s.minted + [Issued(token, replica.worker, stamp)])
  }

  predicate Run(s: System, ttl: nat, events: seq<Event>)
    decreases |events|
  {
    events == [] || (Possible(s, events[0]) && Run(Act(s, events[0], ttl), ttl, events[1..]))
  }

  predicate SpacedRun(s: System, ttl: nat, events: seq<Event>)
    requires Run(s, ttl, events)
    decreases |events|
  {
    events == [] || (Spaced(s, events[0]) && SpacedRun(Act(s, events[0], ttl), ttl, events[1..]))
  }

  function After(s: System, ttl: nat, events: seq<Event>): System
    requires Run(s, ttl, events)
    decreases |events|
  {
    if events == [] then s else After(Act(s, events[0], ttl), ttl, events[1..])
  }

  /** The lease of `worker` is there at `now` and stores `token`. */
  ghost predicate StoredFor(leases: map<nat, Lease>, worker: nat, token: nat, now: nat) {
    worker in leases && leases[worker].token == token && leases[worker].until >= now
  }

  /** A claim takes an id that nobody holds for a whole lifetime, and does nothing to any other. */
  lemma ClaimTakesEffect(s: System, now: nat, token: nat, worker: nat, ttl: nat)
    requires s.now <= now && token !in s.replicas && worker <= 1023
    ensures Possible(s, Event(now, Claim(token, worker)))
    ensures var s' := Act(s, Event(now, Claim(token, worker)), ttl);
            && s'.now == now && s'.minted == s.minted
            && if worker !in s.leases || s.leases[worker].until < now
               then s'.leases == s.leases[worker := Lease(token, now + ttl)]
                    && s'.replicas == s.replicas[token := Replica(worker, now, Stamp(-1, 0))]
               else s'.leases == s.leases && s'.replicas == s.replicas
  {
  }

  /** A renewal by the holder starts the lifetime again, a release by the holder frees the id; nobody else can. */
  lemma HoldingTakesEffect(s: System, now: nat, token: nat, ttl: nat)
    requires s.now <= now && token in s.replicas
    ensures Possible(s, Event(now, Renew(token))) && Possible(s, Event(now, Release(token)))
    ensures var renewed, released := Act(s, Event(now, Renew(token)), ttl), Act(s, Event(now, Release(token)), ttl);
            var worker := s.replicas[token].worker;
            var mine := StoredFor(s.leases, worker, token, now);
            && renewed.leases == (if mine then s.leases[worker := Lease(token, now + ttl)] else s.leases)
            && released.leases == (if mine then s.leases - {worker} else s.leases)
            && renewed == s.(now := now, leases := renewed.leases)
            && released == s.(now := now, leases := released.leases)
  {
  }

  /** A holder can mint unless its clock is behind or the millisecond is used up; that adds one id with it. */
  lemma MintTakesEffect(s: System, now: nat, token: nat, ttl: nat)
    requires s.now <= now && token in s.replicas && StoredFor(s.leases, s.replicas[token].worker, token, now)
    requires InRange(s.replicas[token].last) && s.replicas[token].last.ms <= now
    requires s.replicas[token].last.ms == now ==> s.replicas[token].last.sequence < 4095
    ensures Possible(s, Event(now, Mint(token)))
    ensures var s', replica := Act(s, Event(now, Mint(token)), ttl), s.replicas[token];
            && s'.now == now && s'.leases == s.leases
            && exists stamp: Stamp ::
                 && stamp == Stamp(now, if replica.last.ms == now then replica.last.sequence + 1 else 0)
                 && s'.minted == s.minted + [Issued(token, replica.worker, stamp)]
                 && s'.replicas == s.replicas[token := Replica(replica.worker, replica.claimed, stamp)]
  {
  }

  // ---------------------------------------------------------------------------------------------
  // Ids are unique
  // ---------------------------------------------------------------------------------------------

  /** An id against the replicas: it is in the past of the replica that minted it. */
  ghost predicate GoodId(s: System, m: Issued) {
    && m.worker <= MAX_WORKER_ID && InRange(m.stamp) && 0 <= m.stamp.ms <= s.now
    && m.token in s.replicas
  }

  /** An id against the lease of its worker: by the holder so far, or from before its claim. */
  ghost predicate Behind(s: System, m: Issued) {
    m.worker in s.leases ==>
      var lease := s.leases[m.worker];
      && m.stamp.ms <= lease.until && lease.token in s.replicas
      && if m.token == lease.token then !Before(s.replicas[lease.token].last, m.stamp)
         else m.stamp.ms < s.replicas[lease.token].claimed
  }

  /** A lease names a replica that claimed this worker id. */
  ghost predicate GoodLease(s: System, worker: nat) {
    worker in s.leases ==>
      && s.leases[worker].token in s.replicas
      && s.replicas[s.leases[worker].token].worker == worker
      && s.replicas[s.leases[worker].token].claimed <= s.now
  }

  ghost predicate GoodReplica(r: Replica) {
    r.worker <= MAX_WORKER_ID && InRange(r.last)
  }

  ghost predicate Distinct(minted: seq<Issued>) {
    forall i, j :: 0 <= i < j < |minted| ==> minted[i].worker != minted[j].worker || minted[i].stamp != minted[j].stamp
  }

  ghost predicate Inv(s: System) {
    && (forall m <- s.minted :: GoodId(s, m) && Behind(s, m))
    && (forall worker :: GoodLease(s, worker))
    && (forall token <- s.replicas :: GoodReplica(s.replicas[token]))
    && Distinct(s.minted)
  }

  lemma ClaimKeepsInv(s: System, e: Event, ttl: nat)
    requires Inv(s) && Possible(s, e) && Spaced(s, e) && e.action.Claim?
    ensures Inv(Act(s, e, ttl))
  {
    var s' := Act(s, e, ttl);
    forall m <- s'.minted ensures GoodId(s', m) && Behind(s', m) {
      assert GoodId(s, m) && Behind(s, m);
    }
    forall worker ensures GoodLease(s', worker) {
      assert GoodLease(s, worker);
    }
  }

  lemma HoldingKeepsInv(s: System, e: Event, ttl: nat)
    requires Inv(s) && Possible(s, e) && (e.action.Renew? || e.action.Release?)
    ensures Inv(Act(s, e, ttl))
  {
    var s' := Act(s, e, ttl);
    forall m <- s'.minted ensures GoodId(s', m) && Behind(s', m) {
      assert GoodId(s, m) && Behind(s, m);
    }
    forall worker ensures GoodLease(s', worker) {
      assert GoodLease(s, worker);
    }
  }

  /** A new id differs from every older one. */
  lemma MintIsNew(s: System, e: Event, m: Issued)
    requires Inv(s) && Possible(s, e) && e.action.Mint? && m in s.minted
    ensures var replica := s.replicas[e.action.token];
            m.worker != replica.worker || m.stamp != Call(replica.last, [e.now]).stamp
  {
    assert GoodId(s, m) && Behind(s, m) && GoodLease(s, m.worker);
  }

  lemma MintKeepsInv(s: System, e: Event, ttl: nat)
    requires Inv(s) && Possible(s, e) && e.action.Mint?
    ensures Inv(Act(s, e, ttl))
  {
    var s' := Act(s, e, ttl);
    var token := e.action.token;
    var mine := s'.minted[|s.minted|];
    assert GoodReplica(s.replicas[token]);
    assert mine.stamp.ms == e.now;
    assert GoodLease(s, mine.worker);
    forall m <- s'.minted ensures GoodId(s', m) && Behind(s', m) {
      if m in s.minted {
        assert GoodId(s, m) && Behind(s, m) && GoodLease(s, m.worker);
      } else {
        assert m == mine;
      }
    }
    forall worker ensures GoodLease(s', worker) {
      assert GoodLease(s, worker);
    }
    forall i, j | 0 <= i < j < |s'.minted|
      ensures s'.minted[i].worker != s'.minted[j].worker || s'.minted[i].stamp != s'.minted[j].stamp
    {
      if j == |s.minted| { MintIsNew(s, e, s.minted[i]); }
    }
  }

  lemma StepKeepsInv(s: System, e: Event, ttl: nat)
    requires Inv(s) && Possible(s, e) && Spaced(s, e)
    ensures Inv(Act(s, e, ttl))
  {
    match e.action
    case Claim(_, _) => ClaimKeepsInv(s, e, ttl);
    case Mint(_) => MintKeepsInv(s, e, ttl);
    case _ => HoldingKeepsInv(s, e, ttl);
  }

  lemma {:induction false} RunKeepsInv(s: System, ttl: nat, events: seq<Event>)
    requires Inv(s) && Run(s, ttl, events) && SpacedRun(s, ttl, events)
    ensures Inv(After(s, ttl, events))
    decreases |events|
  {
    if events != [] {
      StepKeepsInv(s, events[0], ttl);
      RunKeepsInv(Act(s, events[0], ttl), ttl, events[1..]);
    }
  }

  /** Ids minted by any number of replicas are pairwise distinct, however their steps interleave. */
  lemma IdsAreUnique(ttl: nat, events: seq<Event>, i: nat, j: nat)
    requires Run(START, ttl, events) && SpacedRun(START, ttl, events)
    requires i < j < |After(START, ttl, events).minted|
    ensures var minted := After(START, ttl, events).minted;
            Encode(minted[i].stamp, minted[i].worker) != Encode(minted[j].stamp, minted[j].worker)
  {
    RunKeepsInv(START, ttl, events);
    var s := After(START, ttl, events);
    var m, n := s.minted[i], s.minted[j];
    assert GoodId(s, m) && GoodId(s, n);
    if Encode(m.stamp, m.worker) == Encode(n.stamp, n.worker) {
      EncodeInjective(m.stamp, m.worker, n.stamp, n.worker);
    }
  }

  /** A lease that ran out is re-claimed later than its last id in any case: only a release needs the spacing. */
  lemma ExpiryIsSpaced(s: System, worker: nat, now: nat, m: Issued)
    requires Inv(s) && worker in s.leases && Free(s.leases, worker, now) && m in s.minted && m.worker == worker
    ensures m.stamp.ms < now
  {
    assert Behind(s, m);
  }

  lemma {:induction false} Extend(s: System, ttl: nat, events: seq<Event>, e: Event)
    requires Run(s, ttl, events) && Possible(After(s, ttl, events), e)
    ensures Run(s, ttl, events + [e])
    ensures After(s, ttl, events + [e]) == Act(After(s, ttl, events), e, ttl)
    decreases |events|
  {
    var all := events + [e];
    if events != [] {
      Extend(Act(s, events[0], ttl), ttl, events[1..], e);
      assert all[1..] == events[1..] + [e];
    }
  }

  /** Without the spacing, a release and a claim within one millisecond give the same id twice. */
  lemma HandoverWithinOneMillisecond(ttl: nat)
    ensures var events := [Event(5, Claim(1, 0)), Event(5, Mint(1)), Event(5, Release(1)),
                           Event(5, Claim(2, 0)), Event(5, Mint(2))];
            && Run(START, ttl, events)
            && var minted := After(START, ttl, events).minted;
               |minted| == 2 && Encode(minted[0].stamp, minted[0].worker) == Encode(minted[1].stamp, minted[1].worker)
  {
    var e1, e2, e3 := Event(5, Claim(1, 0)), Event(5, Mint(1)), Event(5, Release(1));
    var e4, e5 := Event(5, Claim(2, 0)), Event(5, Mint(2));
    var r1 := [] + [e1];
    var r2 := r1 + [e2];
    var r3 := r2 + [e3];
    var r4 := r3 + [e4];
    Extend(START, ttl, [], e1);
    Extend(START, ttl, r1, e2);
    Extend(START, ttl, r2, e3);
    Extend(START, ttl, r3, e4);
    Extend(START, ttl, r4, e5);
    assert r4 + [e5] == [e1, e2, e3, e4, e5];
  }

  // ---------------------------------------------------------------------------------------------
  // The spacing is exactly what is needed
  // ---------------------------------------------------------------------------------------------

  function Mints(now: nat, token: nat, n: nat): seq<Event>
    ensures |Mints(now, token, n)| == n
  {
    if n == 0 then [] else [Event(now, Mint(token))] + Mints(now, token, n - 1)
  }

  /** `n` ids within one millisecond, after one numbered `q`. */
  lemma {:induction false} MintsCount(s: System, ttl: nat, now: nat, token: nat, q: nat, n: nat)
    requires s.now <= now && token in s.replicas && Holds(s.leases, s.replicas[token].worker, token, now)
    requires s.replicas[token].last == Stamp(now, q) && q + n <= MAX_SEQUENCE
    ensures Run(s, ttl, Mints(now, token, n)) && SpacedRun(s, ttl, Mints(now, token, n))
    ensures var after := After(s, ttl, Mints(now, token, n));
            && s.minted <= after.minted && |after.minted| == |s.minted| + n
            && (n > 0 ==>
                  after.minted[|after.minted| - 1] == Issued(token, s.replicas[token].worker, Stamp(now, q + n)))
    decreases n
  {
    if n > 0 {
      var e := Event(now, Mint(token));
      var s' := Act(s, e, ttl);
      assert Mints(now, token, n)[1..] == Mints(now, token, n - 1);
      assert s'.minted == s.minted + [Issued(token, s.replicas[token].worker, Stamp(now, q + 1))];
      MintsCount(s', ttl, now, token, q + 1, n - 1);
    }
  }

  /** A replica that has just claimed an id mints the stamps 0 to `q` of that millisecond. */
  lemma FreshReplicaMints(s: System, ttl: nat, now: nat, token: nat, q: nat)
    requires s.now <= now && token in s.replicas && Holds(s.leases, s.replicas[token].worker, token, now)
    requires s.replicas[token].last == Stamp(-1, 0) && q <= MAX_SEQUENCE
    ensures Run(s, ttl, Mints(now, token, q + 1)) && SpacedRun(s, ttl, Mints(now, token, q + 1))
    ensures var after := After(s, ttl, Mints(now, token, q + 1));
            && s.minted < after.minted
            && after.minted[|after.minted| - 1] == Issued(token, s.replicas[token].worker, Stamp(now, q))
  {
    var e := Event(now, Mint(token));
    var s' := Act(s, e, ttl);
    assert Mints(now, token, q + 1)[1..] == Mints(now, token, q);
    assert s'.minted == s.minted + [Issued(token, s.replicas[token].worker, Stamp(now, 0))];
    MintsCount(s', ttl, now, token, 0, q);
  }

  /** After a claim that is not spaced, the new holder only has to mint in order to repeat an id. */
  lemma UnspacedClaimRepeats(s: System, e: Event, ttl: nat)
    requires Inv(s) && Possible(s, e) && e.action.Claim? && !Spaced(s, e)
    ensures exists events ::
              && Run(Act(s, e, ttl), ttl, events) && SpacedRun(Act(s, e, ttl), ttl, events)
              && !Distinct(After(Act(s, e, ttl), ttl, events).minted)
  {
    var s' := Act(s, e, ttl);
    var m :| m in s.minted && m.worker == e.action.worker && m.stamp.ms >= e.now;
    assert GoodId(s, m);
    var events := Mints(e.now, e.action.token, m.stamp.sequence + 1);
    FreshReplicaMints(s', ttl, e.now, e.action.token, m.stamp.sequence);
    var minted := After(s', ttl, events).minted;
    var i :| 0 <= i < |s.minted| && s.minted[i] == m;
    assert minted[i] == s'.minted[i] == m && i < |minted| - 1;
  }

  /**
   In every reachable state, a claim can never lead to a repeated id exactly if it is spaced: a worker
   id that was given back is claimed at a later millisecond than its last id.
   */
  lemma SpacingIsExact(ttl: nat, before: seq<Event>, e: Event)
    requires Run(START, ttl, before) && SpacedRun(START, ttl, before)
    requires Possible(After(START, ttl, before), e) && e.action.Claim?
    ensures var s := After(START, ttl, before);
            Spaced(s, e) <==>
              forall events :: Run(Act(s, e, ttl), ttl, events) && SpacedRun(Act(s, e, ttl), ttl, events) ==>
                Distinct(After(Act(s, e, ttl), ttl, events).minted)
  {
    RunKeepsInv(START, ttl, before);
    var s := After(START, ttl, before);
    if Spaced(s, e) {
      StepKeepsInv(s, e, ttl);
      forall events | Run(Act(s, e, ttl), ttl, events) && SpacedRun(Act(s, e, ttl), ttl, events)
        ensures Distinct(After(Act(s, e, ttl), ttl, events).minted)
      {
        RunKeepsInv(Act(s, e, ttl), ttl, events);
      }
    } else {
      UnspacedClaimRepeats(s, e, ttl);
    }
  }

  // ---------------------------------------------------------------------------------------------
  // A replaced holder
  // ---------------------------------------------------------------------------------------------

  /** The replica with this token has lost its lease. */
  predicate Replaced(s: System, token: nat) {
    token in s.replicas && !Holds(s.leases, s.replicas[token].worker, token, s.now)
  }

  /** Every lease names a replica that claimed this worker id, spaced or not. */
  ghost predicate Leased(s: System) {
    forall worker :: GoodLease(s, worker)
  }

  lemma StepKeepsLeased(s: System, e: Event, ttl: nat)
    requires Leased(s) && Possible(s, e)
    ensures Leased(Act(s, e, ttl))
  {
    forall worker ensures GoodLease(Act(s, e, ttl), worker) {
      assert GoodLease(s, worker);
    }
  }

  lemma {:induction false} RunKeepsLeased(s: System, ttl: nat, events: seq<Event>)
    requires Leased(s) && Run(s, ttl, events)
    ensures Leased(After(s, ttl, events))
    decreases |events|
  {
    if events != [] {
      StepKeepsLeased(s, events[0], ttl);
      RunKeepsLeased(Act(s, events[0], ttl), ttl, events[1..]);
    }
  }

  lemma StepKeepsReplaced(s: System, e: Event, ttl: nat, token: nat)
    requires Leased(s) && Possible(s, e) && Replaced(s, token)
    ensures Replaced(Act(s, e, ttl), token)
    ensures e.action == Renew(token) || e.action == Release(token) ==> Act(s, e, ttl).leases == s.leases
    ensures e.action != Mint(token)
  {
    assert GoodLease(s, s.replicas[token].worker);
  }

  lemma {:induction false} RunKeepsReplaced(s: System, ttl: nat, events: seq<Event>, token: nat)
    requires Leased(s) && Run(s, ttl, events) && Replaced(s, token)
    ensures Leased(After(s, ttl, events)) && Replaced(After(s, ttl, events), token)
    decreases |events|
  {
    if events != [] {
      StepKeepsReplaced(s, events[0], ttl, token);
      StepKeepsLeased(s, events[0], ttl);
      RunKeepsReplaced(Act(s, events[0], ttl), ttl, events[1..], token);
    }
  }

  /**
   Once replaced, for ever replaced, in every run: nothing a replica sends after it lost its lease
   changes a lease or mints an id.
   */
  lemma ReplacedForGood(ttl: nat, before: seq<Event>, token: nat, events: seq<Event>, e: Event)
    requires Run(START, ttl, before) && Replaced(After(START, ttl, before), token)
    requires Run(After(START, ttl, before), ttl, events)
    requires Possible(After(After(START, ttl, before), ttl, events), e)
    ensures var s := After(After(START, ttl, before), ttl, events);
            && Replaced(s, token) && e.action != Mint(token)
            && (e.action == Renew(token) || e.action == Release(token) ==> Act(s, e, ttl).leases == s.leases)
  {
    RunKeepsLeased(START, ttl, before);
    RunKeepsReplaced(After(START, ttl, before), ttl, events, token);
    StepKeepsReplaced(After(After(START, ttl, before), ttl, events), e, ttl, token);
  }

  // ---------------------------------------------------------------------------------------------
  // The heartbeat
  // ---------------------------------------------------------------------------------------------

  /** What one renewal attempt came to, on the monotonic clock. */
  datatype Answer = Renewed | Lost | Failed
  datatype Beat = Beat(at: nat, answer: Answer)

  function LastRenew(start: nat, beats: seq<Beat>): nat
    decreases |beats|
  {
    if beats == [] then start
    else if beats[|beats| - 1].answer.Renewed? then beats[|beats| - 1].at
    else LastRenew(start, beats[..|beats| - 1])
  }

  /** Beat `i` fences: the lease is gone, or nothing was renewed for a whole TTL. */
  predicate Fences(start: nat, ttl: nat, beats: seq<Beat>, i: nat)
    requires i < |beats|
  {
    beats[i].answer.Lost? || (beats[i].answer.Failed? && beats[i].at >= LastRenew(start, beats[..i]) + ttl)
  }

  /**
   In numbers, where `last` is the last of the first `i` beats that was renewed: beat `i` fences exactly if
   the lease is lost, or it failed a whole lifetime after that one, or after the start. A renewed beat never does.
   */
  lemma {:induction false} FencesAfterATtl(start: nat, ttl: nat, beats: seq<Beat>, i: nat, last: nat)
    requires i < |beats| && (last < i ==> beats[last].answer.Renewed?)
    requires forall j :: 0 <= j < i && beats[j].answer.Renewed? ==> last < i && j <= last
    ensures LastRenew(start, beats[..i]) == if last < i then beats[last].at else start
    ensures Fences(start, ttl, beats, i) <==>
              || beats[i].answer == Lost
              || (beats[i].answer == Failed && beats[i].at >= (if last < i then beats[last].at else start) + ttl)
    decreases i
  {
    if i > 0 {
      var front := beats[..i];
      assert front[..i - 1] == beats[..i - 1];
      if !beats[i - 1].answer.Renewed? {
        FencesAfterATtl(start, ttl, beats, i - 1, if last < i then last else i - 1);
      }
    }
  }

  class Heartbeat {
    const ttl: nat
    const start: nat
    var lastRenew: nat

    constructor (ttl: nat, start: nat)
      ensures this.ttl == ttl && this.start == start && lastRenew == start
    {
      this.ttl, this.start := ttl, start;
      lastRenew := start;
    }

    /** The replica shuts down at the first beat that fences, and at no other. */
    method Beats(beats: seq<Beat>) returns (fenced: bool, n: nat)
      requires lastRenew == start
      modifies this
      ensures n <= |beats| && (fenced <==> n < |beats|)
      ensures forall i :: 0 <= i < n ==> !Fences(start, ttl, beats, i)
      ensures fenced ==> Fences(start, ttl, beats, n)
      ensures lastRenew == LastRenew(start, beats[..n])
    {
      fenced, n := false, 0;
      while n < |beats|
        invariant n <= |beats| && !fenced
        invariant forall i :: 0 <= i < n ==> !Fences(start, ttl, beats, i)
        invariant lastRenew == LastRenew(start, beats[..n])
      {
        assert beats[..n + 1][..n] == beats[..n];
        match beats[n].answer {
          case Failed =>
            if beats[n].at >= lastRenew + ttl {
              return true, n;
            }
          case Lost =>
            return true, n;
          case Renewed =>
            lastRenew := beats[n].at;
        }
        n := n + 1;
      }
      assert beats[..n] == beats;
    }
  }

  /** A replica that has not been fenced by its last beat was renewed less than a TTL before that beat. */
  lemma FenceIsPrompt(start: nat, ttl: nat, beats: seq<Beat>)
    requires ttl > 0 && beats != [] && !Fences(start, ttl, beats, |beats| - 1)
    ensures beats[|beats| - 1].at < LastRenew(start, beats) + ttl
  {
  }
}
