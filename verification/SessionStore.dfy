/**
 Login sessions in Redis: a whitelist of access tokens, single-use refresh tokens with replay
 markers, one index of access tokens per user and one of users. Records are JSON objects written
 by the store itself, so parsing never fails here; `detail` stands for address, agent and login time.

 A key that expires is present up to and including its `until`; `At` drops the others.
 */
module SessionStore {

  datatype Access = Access(user: nat, hash: nat, detail: nat, until: nat)
  datatype Refresh = Refresh(user: nat, jti: nat, until: nat)
  datatype Used = Used(user: nat, until: nat)
  datatype Index = Index(jtis: set<nat>, until: nat)

  datatype Redis = Redis(now: nat, access: map<nat, Access>, refresh: map<nat, Refresh>, used: map<nat, Used>,
                         index: map<nat, Index>, users: set<nat>)

  const EMPTY := Redis(0, map[], map[], map[], map[], {})

  datatype Info = Info(jti: nat, user: nat, detail: nat)

  datatype Outcome = Ok(user: nat, jti: nat) | Invalid | ReuseDetected(user: nat)

  /** The state when time has come to `now`. */
  function At(s: Redis, now: nat): Redis {
    Redis(now,
          map j | j in s.access && now <= s.access[j].until :: s.access[j],
          map h | h in s.refresh && now <= s.refresh[h].until :: s.refresh[h],
          map h | h in s.used && now <= s.used[h].until :: s.used[h],
          map u | u in s.index && now <= s.index[u].until :: s.index[u],
          s.users)
  }

  function Members(s: Redis, user: nat): set<nat> {
    if user in s.index then s.index[user].jtis else {}
  }

  function Live(s: Redis, user: nat): set<nat> {
    set j | j in Members(s, user) && j in s.access
  }

  function Bound(access: map<nat, Access>, jtis: set<nat>): set<nat> {
    set j | j in jtis && j in access :: access[j].hash
  }

  /** An index whose set of a user becomes `jtis`; an empty set is no key. */
  function WithMembers(index: map<nat, Index>, user: nat, jtis: set<nat>): map<nat, Index> {
    if user !in index then index
    else if jtis == {} then index - {user}
    else index[user := index[user].(jtis := jtis)]
  }

  function Without(index: map<nat, Index>, user: nat, jti: nat): map<nat, Index> {
    if user in index then WithMembers(index, user, index[user].jtis - {jti}) else index
  }

  function AfterCreate(s: Redis, user: nat, jti: nat, accessTtl: nat, hash: nat, refreshTtl: nat, detail: nat): Redis {
    s.(access := s.access[jti := Access(user, hash, detail, s.now + accessTtl)],
       refresh := s.refresh[hash := Refresh(user, jti, s.now + refreshTtl)],
       index := s.index[user := Index(Members(s, user) + {jti}, s.now + refreshTtl)],
       users := s.users + {user})
  }

  function AfterRevokeAccess(s: Redis, jti: nat): Redis {
    if jti !in s.access then s
    else
      var user := s.access[jti].user;
      var index := Without(s.index, user, jti);
      s.(access := s.access - {jti}, refresh := s.refresh - {s.access[jti].hash},
         index := index, users := if user in index then s.users else s.users - {user})
  }

  /** The records without those of `jtis` and the refresh tokens bound to them. */
  function Revoked(s: Redis, jtis: set<nat>): Redis {
    s.(access := s.access - jtis, refresh := s.refresh - Bound(s.access, jtis))
  }

  function AfterRevokeAll(s: Redis, user: nat): Redis {
    Revoked(s, Members(s, user)).(index := s.index - {user}, users := s.users - {user})
  }

  lemma RevokedOneMore(s: Redis, done: set<nat>, jti: nat)
    requires jti !in done
    ensures var before := Revoked(s, done);
            Revoked(s, done + {jti}) ==
              if jti !in before.access then before
              else before.(access := before.access - {jti}, refresh := before.refresh - {before.access[jti].hash})
  {
    var before := Revoked(s, done);
    if jti in before.access {
      assert Bound(s.access, done + {jti}) == Bound(s.access, done) + {s.access[jti].hash};
    } else {
      assert Bound(s.access, done + {jti}) == Bound(s.access, done);
    }
    assert Revoked(s, done + {jti}).access == before.access - {jti};
  }

  function Consume(s: Redis, hash: nat): Outcome {
    if hash in s.refresh then Ok(s.refresh[hash].user, s.refresh[hash].jti)
    else if hash in s.used then ReuseDetected(s.used[hash].user)
    else Invalid
  }

  function AfterConsume(s: Redis, hash: nat, markerTtl: nat): Redis {
    match Consume(s, hash)
    case Ok(user, _) => s.(refresh := s.refresh - {hash}, used := s.used[hash := Used(user, s.now + markerTtl)])
    case ReuseDetected(user) => AfterRevokeAll(s, user)
    case Invalid => s
  }

  /** What listing the sessions of these users leaves: no dead member, no empty index, no idle user. */
  function Pruned(s: Redis, listed: set<nat>): Redis {
    s.(index := map u | u in s.index && (u in listed ==> Live(s, u) != {}) ::
                  if u in listed then s.index[u].(jtis := Live(s, u)) else s.index[u],
       users := set u | u in s.users && (u in listed ==> Live(s, u) != {}))
  }

  lemma PrunedTwice(s: Redis, listed: set<nat>, user: nat)
    ensures Pruned(Pruned(s, listed), {user}) == Pruned(s, listed + {user})
  {
    var t := Pruned(s, listed);
    forall u ensures Live(t, u) == Live(s, u) {
    }
    assert Pruned(t, {user}).index == Pruned(s, listed + {user}).index;
    assert Pruned(t, {user}).users == Pruned(s, listed + {user}).users;
  }

  // ---------------------------------------------------------------------------------------------
  // The indexes agree with the records
  // ---------------------------------------------------------------------------------------------

  /** A live access record is in the index of its user, which outlives it, and its user is listed. */
  ghost predicate Indexed(s: Redis, jti: nat) {
    jti in s.access ==>
      var a := s.access[jti];
      a.user in s.index && jti in s.index[a.user].jtis && a.until <= s.index[a.user].until && a.user in s.users
  }

  /** An index has members, and only access tokens of its user. */
  ghost predicate GoodIndex(s: Redis, user: nat) {
    user in s.index ==>
      s.index[user].jtis != {} && forall j <- s.index[user].jtis :: j in s.access ==> s.access[j].user == user
  }

  ghost predicate Consistent(s: Redis) {
    && (forall j :: Indexed(s, j))
    && (forall u :: GoodIndex(s, u))
  }

  lemma PrunedIsConsistent(s: Redis, listed: set<nat>)
    requires Consistent(s)
    ensures Consistent(Pruned(s, listed))
  {
    var t := Pruned(s, listed);
    forall j ensures Indexed(t, j) {
      assert Indexed(s, j);
      assert j in s.access ==> j in Live(s, s.access[j].user);
    }
    forall u ensures GoodIndex(t, u) {
      assert GoodIndex(s, u);
    }
  }

  lemma PrunedOne(s: Redis, user: nat)
    ensures var index := WithMembers(s.index, user, Live(s, user));
            Pruned(s, {user}) == s.(index := index, users := if user in index then s.users else s.users - {user})
  {
    var index := WithMembers(s.index, user, Live(s, user));
    assert Pruned(s, {user}).index == index;
    assert Pruned(s, {user}).users == if user in index then s.users else s.users - {user};
  }

  lemma MembersStep(index: map<nat, Index>, user: nat, jtis: set<nat>, jti: nat)
    requires jti in jtis
    ensures Without(WithMembers(index, user, jtis), user, jti) == WithMembers(index, user, jtis - {jti})
  {
  }

  lemma LiveIsComplete(s: Redis, user: nat)
    requires Consistent(s)
    ensures Live(s, user) == set j | j in s.access && s.access[j].user == user
  {
    forall j ensures j in Live(s, user) <==> j in s.access && s.access[j].user == user {
      assert Indexed(s, j) && GoodIndex(s, user);
    }
  }

  // ---------------------------------------------------------------------------------------------
  // The operations
  // ---------------------------------------------------------------------------------------------

  /** One entry for every live token among `jtis`, and nothing else. */
  ghost predicate Lists(sessions: seq<Info>, access: map<nat, Access>, jtis: set<nat>) {
    && (forall i :: 0 <= i < |sessions| ==>
          var e := sessions[i];
          e.jti in jtis && e.jti in access && e == Info(e.jti, access[e.jti].user, access[e.jti].detail))
    && (forall i, k :: 0 <= i < k < |sessions| ==> sessions[i].jti != sessions[k].jti)
    && (forall j <- jtis :: j in access ==> exists i :: 0 <= i < |sessions| && sessions[i].jti == j)
  }

  lemma ListsOneMore(sessions: seq<Info>, access: map<nat, Access>, jtis: set<nat>, jti: nat)
    requires Lists(sessions, access, jtis) && jti !in jtis
    ensures jti !in access ==> Lists(sessions, access, jtis + {jti})
    ensures jti in access ==>
              Lists(sessions + [Info(jti, access[jti].user, access[jti].detail)], access, jtis + {jti})
  {
    if jti in access {
      var more := sessions + [Info(jti, access[jti].user, access[jti].detail)];
      forall j | j in jtis + {jti} && j in access ensures exists i :: 0 <= i < |more| && more[i].jti == j {
        if j == jti {
          assert more[|sessions|].jti == j;
        } else {
          var i :| 0 <= i < |sessions| && sessions[i].jti == j;
          assert more[i].jti == j;
        }
      }
    }
  }

  lemma ListsBoth(xs: seq<Info>, ys: seq<Info>, access: map<nat, Access>, a: set<nat>, b: set<nat>)
    requires Lists(xs, access, a) && Lists(ys, access, b) && a !! b
    ensures Lists(xs + ys, access, a + b)
  {
    var both := xs + ys;
    forall j | j in a + b && j in access ensures exists i :: 0 <= i < |both| && both[i].jti == j {
      if j in a {
        var i :| 0 <= i < |xs| && xs[i].jti == j;
        assert both[i].jti == j;
      } else {
        var i :| 0 <= i < |ys| && ys[i].jti == j;
        assert both[|xs| + i].jti == j;
      }
    }
    forall i, k | 0 <= i < k < |both| ensures both[i].jti != both[k].jti {
      if i < |xs| <= k {
        assert both[i].jti in a && both[k].jti in b;
      }
    }
  }

  lemma NothingRevoked(s: Redis)
    ensures Revoked(s, {}) == s
  {
    assert s.access - {} == s.access && s.refresh - {} == s.refresh;
  }

  /** The live access tokens of these users. */
  function TokensOf(s: Redis, users: set<nat>): set<nat> {
    set j | j in s.access && s.access[j].user in users
  }

  lemma Relisted(sessions: seq<Info>, access: map<nat, Access>, jtis: set<nat>, same: set<nat>)
    requires Lists(sessions, access, jtis) && forall j <- access :: j in jtis <==> j in same
    ensures Lists(sessions, access, same)
  {
  }

  lemma NothingPruned(s: Redis)
    ensures Pruned(s, {}) == s
  {
    assert Pruned(s, {}).index == s.index;
    assert Pruned(s, {}).users == s.users;
  }

  /** Listing other users does not touch the set of this one, which holds all its live tokens. */
  lemma OwnTokens(s: Redis, listed: set<nat>, user: nat)
    requires Consistent(s) && user !in listed
    ensures Members(Pruned(s, listed), user) == Members(s, user)
    ensures forall j <- s.access :: j in Members(s, user) <==> j in TokensOf(s, {user})
    ensures TokensOf(s, listed) !! TokensOf(s, {user})
    ensures TokensOf(s, listed) + TokensOf(s, {user}) == TokensOf(s, listed + {user})
  {
    LiveIsComplete(s, user);
    forall j <- s.access ensures j in Members(s, user) <==> j in TokensOf(s, {user}) {
      assert j in Live(s, user) <==> s.access[j].user == user;
    }
  }

  lemma NoneLive(s: Redis, user: nat)
    requires Lists([], s.access, TokensOf(s, {user})) && Consistent(s)
    ensures Live(s, user) == {}
  {
    LiveIsComplete(s, user);
    assert TokensOf(s, {user}) == Live(s, user);
    assert forall j <- TokensOf(s, {user}) :: j in s.access;
  }

  lemma AllTokens(s: Redis)
    requires Consistent(s)
    ensures TokensOf(s, s.users) == s.access.Keys
  {
    forall j ensures j in TokensOf(s, s.users) <==> j in s.access {
      assert Indexed(s, j);
    }
  }

  /** The loop over one user's tokens: those in `todo` are still to be looked at, `kept` remain indexed. */
  ghost predicate Listing(s: Redis, user: nat, todo: set<nat>, kept: set<nat>, index: map<nat, Index>,
                          sessions: seq<Info>)
  {
    && todo <= kept <= Members(s, user) && Live(s, user) <= kept && kept <= todo + Live(s, user)
    && index == WithMembers(s.index, user, kept)
    && Lists(sessions, s.access, Members(s, user) - todo)
  }

  lemma ListingStarts(s: Redis, user: nat)
    requires Consistent(s)
    ensures Listing(s, user, Members(s, user), Members(s, user), s.index, [])
  {
    assert GoodIndex(s, user);
  }

  lemma ListingStep(s: Redis, user: nat, todo: set<nat>, kept: set<nat>, index: map<nat, Index>,
                    sessions: seq<Info>, jti: nat)
    requires Consistent(s) && Listing(s, user, todo, kept, index, sessions) && jti in todo
    ensures jti !in s.access ==> Listing(s, user, todo - {jti}, kept - {jti}, Without(index, user, jti), sessions)
    ensures jti in s.access ==>
              Listing(s, user, todo - {jti}, kept, index, sessions + [Info(jti, user, s.access[jti].detail)])
  {
    assert GoodIndex(s, user);
    ListsOneMore(sessions, s.access, Members(s, user) - todo, jti);
    MembersStep(s.index, user, kept, jti);
    assert Members(s, user) - (todo - {jti}) == (Members(s, user) - todo) + {jti};
  }

  lemma ListingEnds(s: Redis, user: nat, kept: set<nat>, index: map<nat, Index>, sessions: seq<Info>)
    requires Listing(s, user, {}, kept, index, sessions) && Consistent(s)
    ensures Lists(sessions, s.access, Members(s, user))
    ensures Lists(sessions, s.access, set j | j in s.access && s.access[j].user == user)
    ensures Pruned(s, {user}) == s.(index := index, users := if user in index then s.users else s.users - {user})
  {
    assert kept == Live(s, user);
    assert Members(s, user) - {} == Members(s, user);
    LiveIsComplete(s, user);
    Relisted(sessions, s.access, Members(s, user), Live(s, user));
    PrunedOne(s, user);
  }

  /** The loop over the users: one more has been listed. */
  lemma OneMoreUser(s: Redis, listed: set<nat>, user: nat, sessions: seq<Info>, own: seq<Info>)
    requires Consistent(s) && user !in listed && Lists(sessions, s.access, TokensOf(s, listed))
    requires Lists(own, s.access, Members(Pruned(s, listed), user))
    ensures Pruned(Pruned(s, listed), {user}) == Pruned(s, listed + {user})
    ensures Lists(sessions + own, s.access, TokensOf(s, listed + {user}))
    ensures own == [] ==>
              && sessions + own == sessions
              && Pruned(s, listed + {user}).users - {user} == Pruned(s, listed + {user}).users
  {
    PrunedTwice(s, listed, user);
    OwnTokens(s, listed, user);
    Relisted(own, s.access, Members(s, user), TokensOf(s, {user}));
    ListsBoth(sessions, own, s.access, TokensOf(s, listed), TokensOf(s, {user}));
    if own == [] {
      assert sessions + own == sessions;
      NoneLive(s, user);
    }
  }

  class SessionStore {
    var now: nat
    var access: map<nat, Access>
    var refresh: map<nat, Refresh>
    var used: map<nat, Used>
    var index: map<nat, Index>
    var users: set<nat>

    ghost function State(): Redis
      reads this
    {
      Redis(now, access, refresh, used, index, users)
    }

    constructor ()
      ensures State() == EMPTY
    {
      now, access, refresh, used, index, users := 0, map[], map[], map[], map[], {};
    }

    method CreateSession(user: nat, jti: nat, accessTtl: nat, hash: nat, refreshTtl: nat, detail: nat)
      modifies this
      ensures State() == AfterCreate(old(State()), user, jti, accessTtl, hash, refreshTtl, detail)
      ensures access == old(access)[jti := Access(user, hash, detail, now + accessTtl)]
      ensures refresh == old(refresh)[hash := Refresh(user, jti, now + refreshTtl)]
      ensures user in index && index[user].until == now + refreshTtl
      ensures index[user].jtis == (if user in old(index) then old(index)[user].jtis else {}) + {jti}
      ensures index - {user} == old(index) - {user} && users == old(users) + {user} && used == old(used)
    {
      access := access[jti := Access(user, hash, detail, now + accessTtl)];
      refresh := refresh[hash := Refresh(user, jti, now + refreshTtl)];
      var jtis := if user in index then index[user].jtis else {};
      index := index[user := Index(jtis + {jti}, now + refreshTtl)];
      users := users + {user};
    }

    method RemoveMember(user: nat, jti: nat)
      modifies this`index
      ensures index == Without(old(index), user, jti)
    {
      if user in index {
        var rest := index[user].jtis - {jti};
        index := if rest == {} then index - {user} else index[user := index[user].(jtis := rest)];
      }
    }

    method PruneUserIndex(user: nat)
      modifies this`users
      ensures users == if user in index then old(users) else old(users) - {user}
    {
      if user !in index {
        users := users - {user};
      }
    }

    method RevokeAccess(jti: nat)
      modifies this
      ensures State() == AfterRevokeAccess(old(State()), jti)
    {
      if jti !in access {
        return;
      }
      var record := access[jti];
      access := access - {jti};
      RemoveMember(record.user, jti);
      PruneUserIndex(record.user);
      refresh := refresh - {record.hash};
    }

    method RevokeAllSessions(user: nat)
      modifies this
      ensures State() == AfterRevokeAll(old(State()), user)
    {
      ghost var before, done := State(), {};
      var todo := if user in index then index[user].jtis else {};
      NothingRevoked(before);
      while todo != {}
        invariant todo !! done && todo + done == Members(before, user)
        invariant State() == Revoked(before, done)
        decreases |todo|
      {
        var jti :| jti in todo;
        RevokedOneMore(before, done, jti);
        todo, done := todo - {jti}, done + {jti};
        if jti in access {
          var hash := access[jti].hash;
          access := access - {jti};
          refresh := refresh - {hash};
        }
      }
      index := index - {user};
      users := users - {user};
    }

    method ConsumeRefresh(hash: nat, markerTtl: nat) returns (outcome: Outcome)
      modifies this
      ensures outcome == Consume(old(State()), hash)
      ensures State() == AfterConsume(old(State()), hash, markerTtl)
      ensures hash in old(refresh) ==>
                && outcome == Ok(old(refresh)[hash].user, old(refresh)[hash].jti) && refresh == old(refresh) - {hash}
                && used == old(used)[hash := Used(old(refresh)[hash].user, now + markerTtl)]
                && access == old(access) && index == old(index) && users == old(users)
      ensures hash !in old(refresh) && hash in old(used) ==> outcome == ReuseDetected(old(used)[hash].user)
      ensures hash !in old(refresh) && hash !in old(used) ==> outcome.Invalid? && State() == old(State())
    {
      if hash in refresh {
        var record := refresh[hash];
        refresh := refresh - {hash};
        used := used[hash := Used(record.user, now + markerTtl)];
        return Ok(record.user, record.jti);
      }
      if hash !in used {
        return Invalid;
      }
      var user := used[hash].user;
      RevokeAllSessions(user);
      return ReuseDetected(user);
    }

    method ListUserSessions(user: nat) returns (sessions: seq<Info>)
      requires Consistent(State())
      modifies this
      ensures State() == Pruned(old(State()), {user})
      ensures Lists(sessions, old(access), Members(old(State()), user))
      ensures Lists(sessions, old(access), set j | j in old(access) && old(access)[j].user == user)
    {
      ghost var before := State();
      ListingStarts(before, user);
      var todo := if user in index then index[user].jtis else {};
      ghost var kept := todo;
      sessions := [];
      while todo != {}
        invariant Listing(before, user, todo, kept, index, sessions)
        invariant State() == before.(index := index)
        decreases |todo|
      {
        var jti :| jti in todo;
        ListingStep(before, user, todo, kept, index, sessions, jti);
        todo := todo - {jti};
        if jti !in access {
          RemoveMember(user, jti);
          kept := kept - {jti};
        } else {
          sessions := sessions + [Info(jti, user, access[jti].detail)];
        }
      }
      ListingEnds(before, user, kept, index, sessions);
      PruneUserIndex(user);
    }

    method ListAllSessions() returns (sessions: seq<Info>)
      requires Consistent(State())
      modifies this
      ensures State() == Pruned(old(State()), old(users))
      ensures Lists(sessions, old(access), old(access).Keys)
    {
      ghost var before, listed := State(), {};
      var todo := users;
      sessions := [];
      NothingPruned(before);
      while todo != {}
        invariant listed !! todo && listed + todo == before.users
        invariant State() == Pruned(before, listed)
        invariant Lists(sessions, before.access, TokensOf(before, listed))
        decreases |todo|
      {
        var user :| user in todo;
        todo := todo - {user};
        PrunedIsConsistent(before, listed);
        var own := ListUserSessions(user);
        OneMoreUser(before, listed, user, sessions, own);
        listed := listed + {user};
        if |own| == 0 {
          users := users - {user};
        } else {
          sessions := sessions + own;
        }
      }
      AllTokens(before);
    }
  }

  // ---------------------------------------------------------------------------------------------
  // All runs
  // ---------------------------------------------------------------------------------------------

  /** Lifetimes, the same for every session. */
  datatype Ttls = Ttls(access: nat, refresh: nat, marker: nat)

  /** The store, the tokens drawn so far, and the refresh tokens accepted so far. */
  datatype System = System(redis: Redis, jtis: set<nat>, hashes: set<nat>, accepted: seq<nat>)

  const START := System(EMPTY, {}, {}, [])

  datatype Event =
    | Login(user: nat, jti: nat, hash: nat, detail: nat)
    | RevokeAccess(jti: nat)
    | Submit(hash: nat)
    | RevokeAll(user: nat)
    | ListUser(user: nat)
    | ListAll
    | Tick(now: nat)

  /** Tokens are random, hence new; time does not run backwards. */
  predicate Possible(s: System, e: Event) {
    match e
    case Login(_, jti, hash, _) => jti !in s.jtis && hash !in s.hashes
    case Tick(now) => s.redis.now <= now
    case _ => true
  }

  function Act(s: System, e: Event, t: Ttls): System {
    match e
    case Login(user, jti, hash, detail) =>
      System(AfterCreate(s.redis, user, jti, t.access, hash, t.refresh, detail),
             s.jtis + {jti}, s.hashes + {hash}, s.accepted)
    case RevokeAccess(jti) => s.(redis := AfterRevokeAccess(s.redis, jti))
    case Submit(hash) =>
      s.(redis := AfterConsume(s.redis, hash, t.marker),
         accepted := if Consume(s.redis, hash).Ok? then s.accepted + [hash] else s.accepted)
    case RevokeAll(user) => s.(redis := AfterRevokeAll(s.redis, user))
    case ListUser(user) => s.(redis := Pruned(s.redis, {user}))
    case ListAll => s.(redis := Pruned(s.redis, s.redis.users))
    case Tick(now) => s.(redis := At(s.redis, now))
  }

  /** Every event of a run is the operation of the store, with the lifetimes of the setting. */
  lemma EventsAreTheOperations(s: System, e: Event, t: Ttls)
    ensures var r, r' := s.redis, Act(s, e, t).redis;
            match e
            case Login(user, jti, hash, detail) =>
              r' == AfterCreate(r, user, jti, t.access, hash, t.refresh, detail)
            case RevokeAccess(jti) => r' == AfterRevokeAccess(r, jti)
            case Submit(hash) => r' == AfterConsume(r, hash, t.marker)
            case RevokeAll(user) => r' == AfterRevokeAll(r, user)
            case ListUser(user) => r' == Pruned(r, {user})
            case ListAll => r' == Pruned(r, r.users)
            case Tick(now) => r' == At(r, now)
  {
  }

  predicate Run(s: System, t: Ttls, events: seq<Event>)
    decreases |events|
  {
    events == [] || (Possible(s, events[0]) && Run(Act(s, events[0], t), t, events[1..]))
  }

  function After(s: System, t: Ttls, events: seq<Event>): System
    decreases |events|
  {
    if events == [] then s else After(Act(s, events[0], t), t, events[1..])
  }

  /** A live access token was drawn, and lives no longer than the lifetime from now. */
  ghost predicate GoodAccess(s: System, t: Ttls, jti: nat) {
    jti in s.redis.access ==> jti in s.jtis && s.redis.access[jti].until <= s.redis.now + t.access
  }

  ghost predicate DrawnMembers(s: System, user: nat) {
    user in s.redis.index ==> s.redis.index[user].jtis <= s.jtis
  }

  /** A refresh token was drawn; it is stored only before it is accepted, its marker only after. */
  ghost predicate GoodHash(s: System, hash: nat) {
    && (hash in s.redis.refresh ==> hash in s.hashes && hash !in s.accepted)
    && (hash in s.accepted ==> hash in s.hashes)
    && (hash in s.redis.used ==> hash in s.accepted)
  }

  ghost predicate NoRepeat(xs: seq<nat>) {
    forall i, j :: 0 <= i < j < |xs| ==> xs[i] != xs[j]
  }

  ghost predicate TokensInv(s: System, t: Ttls) {
    && (forall j :: GoodAccess(s, t, j))
    && (forall u :: DrawnMembers(s, u))
    && (forall h :: GoodHash(s, h))
    && NoRepeat(s.accepted)
  }

  ghost predicate Inv(s: System, t: Ttls) {
    Consistent(s.redis) && TokensInv(s, t)
  }

  lemma LoginIsConsistent(s: System, e: Event, t: Ttls)
    requires Inv(s, t) && Possible(s, e) && e.Login? && t.access <= t.refresh
    ensures Consistent(Act(s, e, t).redis)
  {
    var r, r' := s.redis, Act(s, e, t).redis;
    forall j ensures Indexed(r', j) {
      assert Indexed(r, j) && GoodAccess(s, t, j);
    }
    forall u ensures GoodIndex(r', u) {
      assert GoodIndex(r, u) && DrawnMembers(s, u);
    }
  }

  lemma RevokeIsConsistent(r: Redis, jti: nat)
    requires Consistent(r)
    ensures Consistent(AfterRevokeAccess(r, jti))
  {
    var r' := AfterRevokeAccess(r, jti);
    assert Indexed(r, jti);
    forall j ensures Indexed(r', j) {
      assert Indexed(r, j);
    }
    forall u ensures GoodIndex(r', u) {
      assert GoodIndex(r, u);
    }
  }

  lemma RevokeAllIsConsistent(r: Redis, user: nat)
    requires Consistent(r)
    ensures Consistent(AfterRevokeAll(r, user))
  {
    var r' := AfterRevokeAll(r, user);
    forall j ensures Indexed(r', j) {
      assert Indexed(r, j);
    }
    forall u ensures GoodIndex(r', u) {
      assert GoodIndex(r, u);
    }
  }

  lemma TickIsConsistent(r: Redis, now: nat)
    requires Consistent(r)
    ensures Consistent(At(r, now))
  {
    var r' := At(r, now);
    forall j ensures Indexed(r', j) {
      assert Indexed(r, j);
    }
    forall u ensures GoodIndex(r', u) {
      assert GoodIndex(r, u);
    }
  }

  lemma StepIsConsistent(s: System, e: Event, t: Ttls)
    requires Inv(s, t) && Possible(s, e) && t.access <= t.refresh
    ensures Consistent(Act(s, e, t).redis)
  {
    match e
    case Login(_, _, _, _) => LoginIsConsistent(s, e, t);
    case RevokeAccess(jti) => RevokeIsConsistent(s.redis, jti);
    case Submit(hash) =>
      var r' := Act(s, e, t).redis;
      match Consume(s.redis, hash) {
        case ReuseDetected(user) => RevokeAllIsConsistent(s.redis, user);
        case _ =>
          forall j ensures Indexed(r', j) { assert Indexed(s.redis, j); }
          forall u ensures GoodIndex(r', u) { assert GoodIndex(s.redis, u); }
      }
    case RevokeAll(user) => RevokeAllIsConsistent(s.redis, user);
    case ListUser(user) => PrunedIsConsistent(s.redis, {user});
    case ListAll => PrunedIsConsistent(s.redis, s.redis.users);
    case Tick(now) => TickIsConsistent(s.redis, now);
  }

  lemma StepKeepsTokens(s: System, e: Event, t: Ttls)
    requires TokensInv(s, t) && Possible(s, e)
    ensures TokensInv(Act(s, e, t), t)
  {
    var s' := Act(s, e, t);
    forall j ensures GoodAccess(s', t, j) {
      assert GoodAccess(s, t, j);
    }
    forall u ensures DrawnMembers(s', u) {
      assert DrawnMembers(s, u);
    }
    forall h ensures GoodHash(s', h) {
      assert GoodHash(s, h);
    }
    if e.Submit? { assert GoodHash(s, e.hash); }
  }

  lemma {:induction false} RunKeepsInv(s: System, t: Ttls, events: seq<Event>)
    requires Inv(s, t) && Run(s, t, events) && t.access <= t.refresh
    ensures Inv(After(s, t, events), t)
    decreases |events|
  {
    if events != [] {
      StepIsConsistent(s, events[0], t);
      StepKeepsTokens(s, events[0], t);
      RunKeepsInv(Act(s, events[0], t), t, events[1..]);
    }
  }

  lemma {:induction false} RunKeepsTokens(s: System, t: Ttls, events: seq<Event>)
    requires TokensInv(s, t) && Run(s, t, events)
    ensures TokensInv(After(s, t, events), t)
    decreases |events|
  {
    if events != [] {
      StepKeepsTokens(s, events[0], t);
      RunKeepsTokens(Act(s, events[0], t), t, events[1..]);
    }
  }

  /** In every run, with any lifetimes, no refresh token is accepted twice. */
  lemma RefreshIsAcceptedOnce(t: Ttls, events: seq<Event>)
    requires Run(START, t, events)
    ensures NoRepeat(After(START, t, events).accepted)
  {
    RunKeepsTokens(START, t, events);
  }

  /** In every run with these lifetimes, expiry and lazy pruning anywhere, the indexes cover all live records. */
  ghost predicate AlwaysConsistent(t: Ttls) {
    forall events :: Run(START, t, events) ==> Consistent(After(START, t, events).redis)
  }

  /** An access token that outlives its user's index escapes a revocation of all the user's sessions. */
  lemma LongAccessEscapes(t: Ttls)
    requires t.access > t.refresh
    ensures var events := [Login(1, 10, 20, 0), Tick(t.refresh + 1)];
            && Run(START, t, events) && !Indexed(After(START, t, events).redis, 10)
            && 10 in AfterRevokeAll(After(START, t, events).redis, 1).access
  {
    var e1, e2 := Login(1, 10, 20, 0), Tick(t.refresh + 1);
    var s1 := Act(START, e1, t);
    var s2 := Act(s1, e2, t);
    assert 10 in s2.redis.access && 1 !in s2.redis.index && Members(s2.redis, 1) == {};
    assert [e2][1..] == [] && [e1, e2][1..] == [e2];
    assert Run(s2, t, []) && Run(s1, t, [e2]);
    assert After(s2, t, []) == s2 && After(s1, t, [e2]) == s2 && After(START, t, [e1, e2]) == s2;
  }

  /**
   The indexes agree with the records in every run, so that listing everything gives exactly one entry
   for every live access record, exactly if access tokens live no longer than refresh tokens.
   */
  lemma IndexAgreesWithRecords(t: Ttls)
    ensures AlwaysConsistent(t) <==> t.access <= t.refresh
  {
    if t.access <= t.refresh {
      forall events | Run(START, t, events) ensures Consistent(After(START, t, events).redis) {
        RunKeepsInv(START, t, events);
      }
    } else {
      LongAccessEscapes(t);
      var events := [Login(1, 10, 20, 0), Tick(t.refresh + 1)];
      assert Run(START, t, events) && !Consistent(After(START, t, events).redis);
    }
  }

  /** Revoking a user's sessions removes its live access tokens and the refresh tokens bound to them, and no others. */
  lemma RevokeAllIsExact(r: Redis, user: nat, jti: nat, hash: nat)
    requires Consistent(r)
    ensures var r' := AfterRevokeAll(r, user);
            && (jti in r'.access <==> jti in r.access && r.access[jti].user != user)
            && (jti in r'.access ==> r'.access[jti] == r.access[jti])
            && (hash in r'.refresh <==>
                hash in r.refresh && !exists j :: j in r.access && r.access[j].user == user && r.access[j].hash == hash)
  {
    LiveIsComplete(r, user);
    assert forall j :: j in Live(r, user) <==> j in r.access && r.access[j].user == user;
  }

  /** Revoking them all also empties the user's index and unlists the user, and nobody else. */
  lemma RevokeAllUnlists(r: Redis, user: nat, other: nat)
    ensures var r' := AfterRevokeAll(r, user);
            && user !in r'.index && user !in r'.users && r'.used == r.used && r'.now == r.now
            && (other != user ==> (other in r'.users <==> other in r.users))
            && (other != user ==> (other in r'.index <==> other in r.index))
            && (other != user && other in r.index ==> r'.index[other] == r.index[other])
  {
  }

  /**
   A logout of one session: the access token is gone from the records and from the index of its user,
   its refresh token is no longer accepted, every other access and refresh token is as before, and the
   user stays listed exactly if another token of the user is indexed. Nothing happens for a token that is gone.
   */
  lemma RevokeAccessIsExact(r: Redis, jti: nat, other: nat, hash: nat)
    requires Consistent(r)
    ensures var r' := AfterRevokeAccess(r, jti);
            && r'.used == r.used && r'.now == r.now
            && (other in r'.access <==> other in r.access && other != jti)
            && (other in r'.access ==> r'.access[other] == r.access[other])
            && (hash in r'.refresh <==> hash in r.refresh && !(jti in r.access && r.access[jti].hash == hash))
            && (hash in r'.refresh ==> r'.refresh[hash] == r.refresh[hash])
            && (jti in r.access && hash == r.access[jti].hash ==> !Consume(r', hash).Ok?)
            && (jti !in r.access ==> r' == r)
  {
  }

  lemma RevokeAccessUnindexes(r: Redis, jti: nat, other: nat)
    requires Consistent(r) && jti in r.access
    ensures var r', owner := AfterRevokeAccess(r, jti), r.access[jti].user;
            && owner in r.index
            && (owner in r'.index && other in r'.index[owner].jtis <==> other != jti && other in r.index[owner].jtis)
            && (owner in r'.index ==> r'.index[owner].until == r.index[owner].until)
            && (owner in r'.users <==> exists j :: j in r.index[owner].jtis && j != jti)
            && r'.index - {owner} == r.index - {owner} && r'.users - {owner} == r.users - {owner}
  {
    var owner := r.access[jti].user;
    assert Indexed(r, jti) && GoodIndex(r, owner);
    var rest := r.index[owner].jtis - {jti};
    assert forall j :: j in r.index[owner].jtis && j != jti <==> j in rest;
    if rest != {} {
      var j :| j in rest;
      assert j in r.index[owner].jtis && j != jti;
    }
  }

  /** Keys go exactly when the clock has passed their expiry, and nothing else changes. */
  lemma TickIsExact(r: Redis, now: nat, x: nat)
    ensures var r' := At(r, now);
            && r'.now == now && r'.users == r.users
            && (x in r'.access <==> x in r.access && now <= r.access[x].until)
            && (x in r'.access ==> r'.access[x] == r.access[x])
            && (x in r'.refresh <==> x in r.refresh && now <= r.refresh[x].until)
            && (x in r'.refresh ==> r'.refresh[x] == r.refresh[x])
            && (x in r'.used <==> x in r.used && now <= r.used[x].until)
            && (x in r'.used ==> r'.used[x] == r.used[x])
            && (x in r'.index <==> x in r.index && now <= r.index[x].until)
            && (x in r'.index ==> r'.index[x] == r.index[x])
  {
  }

  /**
   Listing a user prunes: its index keeps exactly the live tokens, and is gone, and the user unlisted,
   exactly if there are none. Records and other users' indexes are as before.
   */
  lemma ListingPrunesExactly(r: Redis, user: nat, other: nat, jti: nat)
    requires Consistent(r)
    ensures var r' := Pruned(r, {user});
            && r'.access == r.access && r'.refresh == r.refresh && r'.used == r.used && r'.now == r.now
            && (user in r'.index && jti in r'.index[user].jtis <==> jti in r.access && r.access[jti].user == user)
            && (user in r'.index <==> exists j :: j in r.access && r.access[j].user == user)
            && (user in r'.users <==> exists j :: j in r.access && r.access[j].user == user)
            && (user in r'.index ==> r'.index[user].until == r.index[user].until)
            && (other != user ==> (other in r'.users <==> other in r.users))
            && (other != user ==> (other in r'.index <==> other in r.index))
            && (other != user && other in r.index ==> r'.index[other] == r.index[other])
  {
    LiveIsComplete(r, user);
    assert Indexed(r, jti) && GoodIndex(r, user);
    forall j | j in r.access && r.access[j].user == user
      ensures user in r.index && user in r.users && j in Live(r, user)
    {
      assert Indexed(r, j);
    }
    if Live(r, user) != {} {
      var j :| j in Live(r, user);
      assert j in r.access && r.access[j].user == user;
    }
  }

  /** A refresh token whose access record has expired survives the revocation of its user's sessions. */
  lemma RefreshOfExpiredSessionSurvives(t: Ttls)
    requires t.access < t.refresh
    ensures var events := [Login(1, 10, 20, 0), Tick(t.access + 1), RevokeAll(1)];
            Run(START, t, events) && Consume(After(START, t, events).redis, 20) == Ok(1, 10)
  {
    var e1, e2, e3 := Login(1, 10, 20, 0), Tick(t.access + 1), RevokeAll(1);
    var s1 := Act(START, e1, t);
    var s2 := Act(s1, e2, t);
    var s3 := Act(s2, e3, t);
    assert s2.redis.access == map[] && s2.redis.refresh[20] == Refresh(1, 10, t.refresh);
    assert Bound(s2.redis.access, Members(s2.redis, 1)) == {};
    assert [e3][1..] == [] && [e2, e3][1..] == [e3] && [e1, e2, e3][1..] == [e2, e3];
    assert Run(s3, t, []) && Run(s2, t, [e3]) && Run(s1, t, [e2, e3]);
    assert After(s3, t, []) == s3 && After(s2, t, [e3]) == s3 && After(s1, t, [e2, e3]) == s3;
  }

  lemma {:induction false} MarkerStays(s: System, t: Ttls, events: seq<Event>, hash: nat)
    requires TokensInv(s, t) && Run(s, t, events) && hash in s.redis.used
    requires After(s, t, events).redis.now <= s.redis.used[hash].until
    ensures hash in After(s, t, events).redis.used && After(s, t, events).redis.used[hash] == s.redis.used[hash]
    decreases |events|
  {
    if events != [] {
      var s' := Act(s, events[0], t);
      StepKeepsTokens(s, events[0], t);
      TimeGoesOn(s', t, events[1..]);
      assert GoodHash(s, hash);
      assert hash in s'.redis.used && s'.redis.used[hash] == s.redis.used[hash];
      MarkerStays(s', t, events[1..], hash);
    }
  }

  lemma {:induction false} TimeGoesOn(s: System, t: Ttls, events: seq<Event>)
    requires Run(s, t, events)
    ensures s.redis.now <= After(s, t, events).redis.now
    decreases |events|
  {
    if events != [] {
      TimeGoesOn(Act(s, events[0], t), t, events[1..]);
    }
  }

  lemma ReplayRevokes(s: System, t: Ttls, hash: nat)
    requires TokensInv(s, t) && hash in s.redis.used
    ensures Consume(s.redis, hash) == ReuseDetected(s.redis.used[hash].user)
    ensures Consistent(s.redis) ==>
              forall j <- AfterConsume(s.redis, hash, t.marker).access ::
                s.redis.access[j].user != s.redis.used[hash].user
  {
    assert GoodHash(s, hash);
    var user := s.redis.used[hash].user;
    if Consistent(s.redis) {
      forall j <- AfterConsume(s.redis, hash, t.marker).access ensures s.redis.access[j].user != user {
        RevokeAllIsExact(s.redis, user, j, 0);
      }
    }
  }

  /** The run right after `before`, with the first submission of `hash`. */
  function Submitted(t: Ttls, before: seq<Event>, hash: nat): System {
    Act(After(START, t, before), Submit(hash), t)
  }

  /**
   Whatever happens after a refresh token was accepted: submitted again while its marker lives, it
   is recognised as a replay; and then, if access tokens live no longer than refresh tokens, no access
   token of its user is left.
   */
  lemma ReplayIsCaught(t: Ttls, before: seq<Event>, hash: nat, between: seq<Event>)
    requires Run(START, t, before) && Consume(After(START, t, before).redis, hash).Ok?
    requires Run(Submitted(t, before, hash), t, between)
    requires After(Submitted(t, before, hash), t, between).redis.now <= After(START, t, before).redis.now + t.marker
    ensures var user := Consume(After(START, t, before).redis, hash).user;
            var r := After(Submitted(t, before, hash), t, between).redis;
            && Consume(r, hash) == ReuseDetected(user)
            && (t.access <= t.refresh ==>
                  forall j <- AfterConsume(r, hash, t.marker).access :: r.access[j].user != user)
  {
    var s, s' := After(START, t, before), Submitted(t, before, hash);
    RunKeepsTokens(START, t, before);
    StepKeepsTokens(s, Submit(hash), t);
    assert s'.redis.used[hash] == Used(s.redis.refresh[hash].user, s.redis.now + t.marker);
    MarkerStays(s', t, between, hash);
    RunKeepsTokens(s', t, between);
    if t.access <= t.refresh {
      RunKeepsInv(START, t, before);
      StepIsConsistent(s, Submit(hash), t);
      RunKeepsInv(s', t, between);
    }
    ReplayRevokes(After(s', t, between), t, hash);
  }
}
