/**
 Permission snapshots cached under keys that carry two generation counters. The counters only grow,
 and a mutation bumps one of them strictly after its commit, so a stale snapshot can only ever be
 stored under a key that nobody will compose again.

 A snapshot is represented by the database version it was loaded from.
 */
module PermissionCache {
  import opened Basics

  /** The after-commit hooks of this module: one generation for everybody, or one for a user. */
  datatype Hook = BumpAll | BumpUser(user: nat)

  /** The key of a snapshot. */
  datatype Key = Key(user: nat, globalGen: nat, userGen: nat)

  /**
   The shared state. `globalBumps` and `userBumps` list, for every successful increment of a
   counter, the database version that the bumping mutation had committed; the counters themselves
   are their lengths.
   */
  datatype Shared = Shared(version: nat, globalBumps: seq<nat>, userBumps: map<nat, seq<nat>>, cache: map<Key, nat>)

  const FRESH_START := Shared(0, [], map[], map[])

  function UserBumps(s: Shared, user: nat): seq<nat> {
    if user in s.userBumps then s.userBumps[user] else []
  }

  /** The key that a reader composes when it reads both generations. */
  function KeyNow(s: Shared, user: nat): Key {
    Key(user, |s.globalBumps|, |UserBumps(s, user)|)
  }

  function Bumped(s: Shared, hook: Hook, version: nat): Shared {
    match hook
    case BumpAll => s.(globalBumps := s.globalBumps + [version])
    case BumpUser(user) => s.(userBumps := s.userBumps[user := UserBumps(s, user) + [version]])
  }

  /** Version `v` includes every mutation whose bump is counted in the generations of `k`. */
  ghost predicate Covers(s: Shared, k: Key, v: nat) {
    && k.globalGen <= |s.globalBumps| && k.userGen <= |UserBumps(s, k.user)|
    && (forall i :: 0 <= i < k.globalGen ==> s.globalBumps[i] <= v)
    && (forall i :: 0 <= i < k.userGen ==> UserBumps(s, k.user)[i] <= v)
  }

  /** No bump is ahead of the database, and no cached snapshot is behind its key. */
  ghost predicate Sound(s: Shared) {
    && (forall b <- s.globalBumps :: b <= s.version)
    && (forall user <- s.userBumps :: forall b <- s.userBumps[user] :: b <= s.version)
    && (forall k <- s.cache :: Covers(s, k, s.cache[k]))
  }

  /** `later` differs from `s` by commits, bumps and sound cache writes only. */
  ghost predicate Follows(s: Shared, later: Shared) {
    && s.version <= later.version && s.globalBumps <= later.globalBumps
    && forall user :: UserBumps(s, user) <= UserBumps(later, user)
  }

  lemma CoversLater(s: Shared, later: Shared, k: Key, v: nat)
    requires Follows(s, later) && Covers(s, k, v)
    ensures Covers(later, k, v)
  {
    assert UserBumps(s, k.user) <= UserBumps(later, k.user);
  }

  /** A snapshot of the current database covers every key composed so far. */
  lemma CurrentCovers(s: Shared, k: Key, v: nat)
    requires Sound(s) && s.version <= v
    requires k.globalGen <= |s.globalBumps| && k.userGen <= |UserBumps(s, k.user)|
    ensures Covers(s, k, v)
  {
    forall i | 0 <= i < k.globalGen ensures s.globalBumps[i] <= v {
      assert s.globalBumps[i] in s.globalBumps;
    }
    forall i | 0 <= i < k.userGen ensures UserBumps(s, k.user)[i] <= v {
      assert UserBumps(s, k.user)[i] in s.userBumps[k.user];
    }
  }

  lemma BumpIsSound(s: Shared, hook: Hook, version: nat)
    requires Sound(s) && version <= s.version
    ensures Sound(Bumped(s, hook, version)) && Follows(s, Bumped(s, hook, version))
  {
    var s' := Bumped(s, hook, version);
    forall k <- s'.cache ensures Covers(s', k, s'.cache[k]) {
      CoversLater(s, s', k, s.cache[k]);
    }
  }

  lemma StoreIsSound(s: Shared, k: Key, v: nat)
    requires Sound(s) && Covers(s, k, v)
    ensures Sound(s.(cache := s.cache[k := v]))
  {
    var s' := s.(cache := s.cache[k := v]);
    forall x <- s'.cache ensures Covers(s', x, s'.cache[x]) {
      assert Covers(s, x, s'.cache[x]);
    }
  }

  // ---------------------------------------------------------------------------------------------
  // The unit of work
  // ---------------------------------------------------------------------------------------------

  /** A database session with its after-commit hooks. */
  class Session {
    var hooks: seq<Hook>

    constructor ()
      ensures hooks == []
    {
      hooks := [];
    }

    method AddAfterCommitHook(hook: Hook)
      modifies this
      ensures hooks == old(hooks) + [hook]
    {
      hooks := hooks + [hook];
    }

    /**
     `commit_session`: hooks run in order of registration, each at most once, only after a
     successful commit, and up to the first one that raises (at `raising`); a failed commit drops
     them all. Either way none is left.
     */
    method Commit(commits: bool, raising: nat) returns (committed: bool, ran: seq<Hook>)
      modifies this
      ensures hooks == [] && committed == commits
      ensures ran <= old(hooks)
      ensures |ran| == if !commits then 0 else if raising < |old(hooks)| then raising else |old(hooks)|
    {
      if !commits {
        hooks := [];
        return false, [];
      }
      var pending := hooks;
      hooks, ran := [], [];
      for i := 0 to |pending|
        invariant ran == pending[..i] && i <= |pending|
        invariant i <= raising && hooks == []
      {
        if i == raising {
          break;
        }
        ran := ran + [pending[i]];
      }
      return true, ran;
    }
  }

  /** The shared state, as one reader that nobody interrupts uses it. */
  class Cache {
    var shared: Shared

    constructor ()
      ensures shared == FRESH_START && Sound(shared)
    {
      shared := FRESH_START;
    }

    /**
     `load_snapshot` over `get_or_load`, for every pattern of Redis failures: the snapshot includes
     every mutation that has been bumped, and what is left in the cache stays sound.
     */
    method LoadSnapshot(user: nat, gensReadable: bool, getWorks: bool, decodes: bool, setWorks: bool)
      returns (version: nat)
      requires Sound(shared)
      modifies this
      ensures Sound(shared) && Covers(shared, KeyNow(old(shared), user), version)
      ensures var key := KeyNow(old(shared), user);
              var hit := gensReadable && getWorks && decodes && key in old(shared.cache);
              var store := gensReadable && getWorks && !hit && setWorks;
              && version == (if hit then old(shared.cache)[key] else old(shared.version))
              && shared == old(shared).(cache := if store then old(shared.cache)[key := version] else old(shared.cache))
    {
      CurrentCovers(shared, KeyNow(shared, user), shared.version);
      if !gensReadable {
        return shared.version;
      }
      var key := KeyNow(shared, user);
      if !getWorks {
        return shared.version;
      }
      if key in shared.cache && decodes {
        assert Covers(shared, key, shared.cache[key]);
        return shared.cache[key];
      }
      version := shared.version;
      if setWorks {
        StoreIsSound(shared, key, version);
        shared := shared.(cache := shared.cache[key := version]);
      }
    }
  }

  // ---------------------------------------------------------------------------------------------
  // Interleaved readers and writers
  // ---------------------------------------------------------------------------------------------

  /** Where a reader stands; `key` is none once it has decided not to use the cache. */
  datatype Phase =
    | Starting
    | Composed(composed: Key)
    | Loading(key: Option<Key>, from: nat)
    | Loaded(key: Option<Key>, version: nat)
    | Returned(version: nat)

  /** `start` holds the generations at the moment the read began. */
  datatype Reader = Reader(user: nat, start: Key, phase: Phase)

  /** A mutation that committed `version` and still has hooks to run. */
  datatype Writer = Writer(version: nat, hooks: seq<Hook>)

  datatype System = System(shared: Shared, readers: map<nat, Reader>, writers: map<nat, Writer>)

  const INITIAL := System(FRESH_START, map[], map[])

  datatype Action =
    | Commit(w: nat, hooks: seq<Hook>)
    | RunHook(w: nat, works: bool)
    | Evict(key: Key)
    | Begin(r: nat, user: nat)
    | ReadGens(r: nat, works: bool)
    | Get(r: nat, works: bool, decodes: bool)
    | Load(r: nat, version: nat)
    | Set(r: nat, works: bool)

  predicate Possible(s: System, a: Action) {
    match a
    case Commit(w, _) => w !in s.writers
    case RunHook(w, _) => w in s.writers && s.writers[w].hooks != []
    case Evict(_) => true
    case Begin(r, _) => r !in s.readers
    case ReadGens(r, _) => r in s.readers && s.readers[r].phase.Starting?
    case Get(r, _, _) => r in s.readers && s.readers[r].phase.Composed?
    case Load(r, version) =>
      r in s.readers && s.readers[r].phase.Loading? && s.readers[r].phase.from <= version <= s.shared.version
    case Set(r, _) => r in s.readers && s.readers[r].phase.Loaded?
  }

  function To(s: System, r: nat, phase: Phase): System
    requires r in s.readers
  {
    s.(readers := s.readers[r := s.readers[r].(phase := phase)])
  }

  function Act(s: System, a: Action): System
    requires Possible(s, a)
  {
    match a
    case Commit(w, hooks) =>
      var version := s.shared.version + 1;
      s.(shared := s.shared.(version := version), writers := s.writers[w := Writer(version, hooks)])
    case RunHook(w, works) =>
      var Writer(version, hooks) := s.writers[w];
      s.(shared := if works then Bumped(s.shared, hooks[0], version) else s.shared,
         writers := s.writers[w := Writer(version, hooks[1..])])
    case Evict(key) => s.(shared := s.shared.(cache := s.shared.cache - {key}))
    case Begin(r, user) => s.(readers := s.readers[r := Reader(user, KeyNow(s.shared, user), Starting)])
    case ReadGens(r, works) =>
      To(s, r, if works then Composed(KeyNow(s.shared, s.readers[r].user)) else Loading(None, s.shared.version))
    case Get(r, works, decodes) =>
      var key := s.readers[r].phase.composed;
      To(s, r, if !works then Loading(None, s.shared.version)
               else if key in s.shared.cache && decodes then Returned(s.shared.cache[key])
               else Loading(Some(key), s.shared.version))
    case Load(r, version) => To(s, r, Loaded(s.readers[r].phase.key, version))
    case Set(r, works) =>
      var Loaded(key, version) := s.readers[r].phase;
      var s' := To(s, r, Returned(version));
      if works && key.Some? then s'.(shared := s.shared.(cache := s.shared.cache[key.value := version])) else s'
  }

  predicate Schedule(s: System, actions: seq<Action>)
    decreases |actions|
  {
    actions == [] || (Possible(s, actions[0]) && Schedule(Act(s, actions[0]), actions[1..]))
  }

  function After(s: System, actions: seq<Action>): System
    requires Schedule(s, actions)
    decreases |actions|
  {
    if actions == [] then s else After(Act(s, actions[0]), actions[1..])
  }

  /** Key `k` was composed by a reader of `user` that started at `start`. */
  ghost predicate NotBefore(start: Key, k: Key) {
    k.user == start.user && start.globalGen <= k.globalGen && start.userGen <= k.userGen
  }

  /** What `version` must cover for a reader that may still store it under `key`. */
  ghost predicate CoversBoth(s: Shared, start: Key, key: Option<Key>, version: nat) {
    && Covers(s, start, version)
    && (key.Some? ==> NotBefore(start, key.value) && Covers(s, key.value, version))
  }

  ghost predicate GoodReader(s: Shared, r: Reader) {
    && r.start.user == r.user
    && r.start.globalGen <= |s.globalBumps| && r.start.userGen <= |UserBumps(s, r.user)|
    && match r.phase
       case Starting => true
       case Composed(key) =>
         NotBefore(r.start, key) && key.globalGen <= |s.globalBumps| && key.userGen <= |UserBumps(s, r.user)|
       case Loading(key, from) => CoversBoth(s, r.start, key, from)
       case Loaded(key, version) => CoversBoth(s, r.start, key, version)
       case Returned(version) => Covers(s, r.start, version)
  }

  ghost predicate Inv(s: System) {
    && Sound(s.shared)
    && (forall w <- s.writers :: s.writers[w].version <= s.shared.version)
    && (forall r <- s.readers :: GoodReader(s.shared, s.readers[r]))
  }

  lemma ReaderLater(s: Shared, later: Shared, r: Reader)
    requires Follows(s, later) && GoodReader(s, r)
    ensures GoodReader(later, r)
  {
    assert UserBumps(s, r.user) <= UserBumps(later, r.user);
    match r.phase
    case Starting =>
    case Composed(_) =>
    case Loading(key, from) =>
      CoversLater(s, later, r.start, from);
      if key.Some? { CoversLater(s, later, key.value, from); }
    case Loaded(key, version) =>
      CoversLater(s, later, r.start, version);
      if key.Some? { CoversLater(s, later, key.value, version); }
    case Returned(version) => CoversLater(s, later, r.start, version);
  }

  /** A newer version covers whatever an older one covers. */
  lemma NewerCovers(s: Shared, k: Key, v: nat, w: nat)
    requires Covers(s, k, v) && v <= w
    ensures Covers(s, k, w)
  {
  }

  lemma SharedStepKeepsInv(s: System, a: Action)
    requires Inv(s) && Possible(s, a) && (a.Commit? || a.RunHook? || a.Evict?)
    ensures Inv(Act(s, a))
  {
    var s' := Act(s, a);
    if a.RunHook? && a.works {
      BumpIsSound(s.shared, s.writers[a.w].hooks[0], s.writers[a.w].version);
    }
    assert Follows(s.shared, s'.shared);
    forall k <- s'.shared.cache ensures Covers(s'.shared, k, s'.shared.cache[k]) {
      if !a.RunHook? { CoversLater(s.shared, s'.shared, k, s.shared.cache[k]); }
    }
    forall r <- s'.readers ensures GoodReader(s'.shared, s'.readers[r]) {
      ReaderLater(s.shared, s'.shared, s.readers[r]);
    }
  }

  lemma ReaderStepIsGood(s: System, a: Action)
    requires Inv(s) && Possible(s, a) && (a.Begin? || a.ReadGens? || a.Get? || a.Load? || a.Set?)
    ensures GoodReader(s.shared, Act(s, a).readers[a.r])
  {
    if !a.Begin? {
      var r := s.readers[a.r];
      assert GoodReader(s.shared, r);
      CurrentCoversStart(s, a.r);
      match a
      case Get(_, _, _) =>
        CurrentCovers(s.shared, r.phase.composed, s.shared.version);
        if r.phase.composed in s.shared.cache {
          assert Covers(s.shared, r.phase.composed, s.shared.cache[r.phase.composed]);
        }
      case Load(_, version) =>
        NewerCovers(s.shared, r.start, r.phase.from, version);
      case _ =>
    }
  }

  lemma CurrentCoversStart(s: System, r: nat)
    requires Inv(s) && r in s.readers
    ensures Covers(s.shared, s.readers[r].start, s.shared.version)
  {
    assert GoodReader(s.shared, s.readers[r]);
    CurrentCovers(s.shared, s.readers[r].start, s.shared.version);
  }

  lemma ReaderStepKeepsInv(s: System, a: Action)
    requires Inv(s) && Possible(s, a) && (a.Begin? || a.ReadGens? || a.Get? || a.Load? || a.Set?)
    ensures Inv(Act(s, a))
  {
    var s' := Act(s, a);
    ReaderStepIsGood(s, a);
    if a.Set? {
      var phase := s.readers[a.r].phase;
      assert GoodReader(s.shared, s.readers[a.r]);
      if phase.key.Some? { StoreIsSound(s.shared, phase.key.value, phase.version); }
    }
    assert Follows(s.shared, s'.shared);
    forall r <- s'.readers ensures GoodReader(s'.shared, s'.readers[r]) {
      ReaderLater(s.shared, s'.shared, s'.readers[r]);
    }
  }

  lemma {:induction false} RunKeepsInv(s: System, actions: seq<Action>)
    requires Inv(s) && Schedule(s, actions)
    ensures Inv(After(s, actions))
    decreases |actions|
  {
    if actions != [] {
      var a := actions[0];
      if a.Commit? || a.RunHook? || a.Evict? { SharedStepKeepsInv(s, a); } else { ReaderStepKeepsInv(s, a); }
      RunKeepsInv(Act(s, a), actions[1..]);
    }
  }

  /**
   In every interleaving of readers and writers, with any Redis failures, evictions and late stores:
   a read returns a snapshot loaded from a database version at or after the commit of every
   mutation whose bump, global or of that user, had succeeded when the read began.
   */
  lemma ReadsAreFresh(actions: seq<Action>, r: nat)
    requires Schedule(INITIAL, actions)
    requires var s := After(INITIAL, actions); r in s.readers && s.readers[r].phase.Returned?
    ensures var s := After(INITIAL, actions);
            var reader := s.readers[r];
            && reader.start.globalGen <= |s.shared.globalBumps|
            && reader.start.userGen <= |UserBumps(s.shared, reader.user)|
            && (forall i :: 0 <= i < reader.start.globalGen ==> s.shared.globalBumps[i] <= reader.phase.version)
            && (forall i :: 0 <= i < reader.start.userGen ==>
                  UserBumps(s.shared, reader.user)[i] <= reader.phase.version)
  {
    RunKeepsInv(INITIAL, actions);
    assert GoodReader(After(INITIAL, actions).shared, After(INITIAL, actions).readers[r]);
  }

  // ---------------------------------------------------------------------------------------------
  // What that means for a history
  // ---------------------------------------------------------------------------------------------

  lemma {:induction false} ScheduleGoesOn(s: System, xs: seq<Action>, ys: seq<Action>)
    requires Schedule(s, xs + ys)
    ensures Schedule(s, xs) && Schedule(After(s, xs), ys) && After(s, xs + ys) == After(After(s, xs), ys)
    decreases |xs|
  {
    if xs == [] {
      assert xs + ys == ys;
    } else {
      assert (xs + ys)[1..] == xs[1..] + ys;
      ScheduleGoesOn(Act(s, xs[0]), xs[1..], ys);
    }
  }

  /** No step takes back a bump, changes what a writer has committed, or when a read began. */
  lemma {:induction false} RunKeepsHistory(s: System, actions: seq<Action>, w: nat, r: nat)
    requires Schedule(s, actions)
    ensures var s' := After(s, actions);
            && Follows(s.shared, s'.shared)
            && (w in s.writers ==> w in s'.writers && s'.writers[w].version == s.writers[w].version)
            && (r in s.readers ==>
                  && r in s'.readers && s'.readers[r].user == s.readers[r].user
                  && s'.readers[r].start == s.readers[r].start)
    decreases |actions|
  {
    if actions != [] {
      var t := Act(s, actions[0]);
      RunKeepsHistory(t, actions[1..], w, r);
      var s' := After(s, actions);
      forall user ensures UserBumps(s.shared, user) <= UserBumps(s'.shared, user) {
        assert UserBumps(s.shared, user) <= UserBumps(t.shared, user) <= UserBumps(s'.shared, user);
      }
    }
  }

  /** A bump of the user, or of all, is counted by every read that begins later. */
  lemma BumpIsCounted(s: System, w: nat, mid: seq<Action>, r: nat, user: nat)
    requires Schedule(s, [RunHook(w, true)] + mid + [Begin(r, user)]) && Possible(s, RunHook(w, true))
    requires s.writers[w].hooks[0] == BumpAll || s.writers[w].hooks[0] == BumpUser(user)
    ensures var s' := After(s, [RunHook(w, true)] + mid + [Begin(r, user)]);
            && r in s'.readers && s'.readers[r].user == user
            && forall v: nat :: Covers(s'.shared, s'.readers[r].start, v) ==> s.writers[w].version <= v
  {
    var hook, begin := [RunHook(w, true)], [Begin(r, user)];
    ScheduleGoesOn(s, hook + mid, begin);
    ScheduleGoesOn(s, hook, mid);
    assert hook[1..] == [] && begin[1..] == [];
    var s1 := Act(s, hook[0]);
    assert After(s, hook) == After(s1, []) == s1;
    var s2 := After(s1, mid);
    var s3 := Act(s2, begin[0]);
    assert After(s2, begin) == After(s3, []) == s3;
    RunKeepsHistory(s1, mid, w, r);
    if s.writers[w].hooks[0] == BumpAll {
      var i := |s.shared.globalBumps|;
      assert s1.shared.globalBumps[i] == s3.shared.globalBumps[i] == s.writers[w].version;
    } else {
      var i := |UserBumps(s.shared, user)|;
      assert UserBumps(s1.shared, user) <= UserBumps(s2.shared, user);
      assert UserBumps(s1.shared, user)[i] == UserBumps(s3.shared, user)[i] == s.writers[w].version;
    }
  }

  /**
   A writer has committed and then its next hook, a bump of `user` or of all, succeeds: every read of
   `user` that begins after that returns a version that includes what the writer committed.
   */
  lemma FreshAfterBump(pre: seq<Action>, w: nat, mid: seq<Action>, r: nat, user: nat, post: seq<Action>)
    requires Schedule(INITIAL, pre)
    requires Schedule(After(INITIAL, pre), [RunHook(w, true)] + mid + [Begin(r, user)] + post)
    requires var s := After(INITIAL, pre);
             w in s.writers && s.writers[w].hooks != []
             && (s.writers[w].hooks[0] == BumpAll || s.writers[w].hooks[0] == BumpUser(user))
    ensures var s := After(INITIAL, pre);
            var s' := After(s, [RunHook(w, true)] + mid + [Begin(r, user)] + post);
            && r in s'.readers && s'.readers[r].user == user
            && (s'.readers[r].phase.Returned? ==> s.writers[w].version <= s'.readers[r].phase.version)
  {
    var s := After(INITIAL, pre);
    var middle := [RunHook(w, true)] + mid + [Begin(r, user)];
    ScheduleGoesOn(s, middle, post);
    BumpIsCounted(s, w, mid, r, user);
    var t := After(s, middle);
    var end := After(t, post);
    RunKeepsHistory(t, post, w, r);
    RunKeepsInv(INITIAL, pre);
    RunKeepsInv(s, middle);
    RunKeepsInv(t, post);
    assert GoodReader(t.shared, t.readers[r]) && GoodReader(end.shared, end.readers[r]);
    if end.readers[r].phase.Returned? {
      StartsAlike(t, end, r, end.readers[r].phase.version);
    }
  }

  /** How many hooks of writer `w` these actions run. */
  function HooksRun(w: nat, actions: seq<Action>): nat {
    if actions == [] then 0
    else (if actions[0].RunHook? && actions[0].w == w then 1 else 0) + HooksRun(w, actions[1..])
  }

  /** Hooks run in the order of their registration, and none is left out. */
  lemma {:induction false} HooksRunInOrder(s: System, w: nat, actions: seq<Action>)
    requires Schedule(s, actions) && w in s.writers
    ensures w in After(s, actions).writers && HooksRun(w, actions) <= |s.writers[w].hooks|
    ensures After(s, actions).writers[w].hooks == s.writers[w].hooks[HooksRun(w, actions)..]
    decreases |actions|
  {
    if actions != [] {
      HooksRunInOrder(Act(s, actions[0]), w, actions[1..]);
    }
  }

  /** Redis may drop any snapshot at any time, and then drops nothing else. */
  lemma EvictionDropsOneKey(s: System, key: Key)
    ensures var s' := Act(s, Evict(key));
            && key !in s'.shared.cache && s' == s.(shared := s'.shared)
            && s'.shared == s.shared.(cache := s'.shared.cache)
            && forall k :: k != key ==> (k in s'.shared.cache <==> k in s.shared.cache)
                                        && (k in s.shared.cache ==> s'.shared.cache[k] == s.shared.cache[k])
  {
  }

  /** A commit makes the next version, and all of its hooks are due after it. */
  lemma CommitLeavesHooks(s: System, w: nat, hooks: seq<Hook>)
    requires w !in s.writers
    ensures Possible(s, Commit(w, hooks))
    ensures Act(s, Commit(w, hooks)) == System(s.shared.(version := s.shared.version + 1), s.readers,
                                               s.writers[w := Writer(s.shared.version + 1, hooks)])
    ensures hooks != [] ==> Possible(Act(s, Commit(w, hooks)), RunHook(w, true))
  {
  }

  /**
   The same from the commit on: once that hook of a mutation that bumps `user` or everybody has run, no
   read of `user` that begins later returns a version from before the mutation.
   */
  lemma NoReadMissesTheMutation(pre: seq<Action>, w: nat, hooks: seq<Hook>, between: seq<Action>, mid: seq<Action>,
                                r: nat, user: nat, post: seq<Action>)
    requires Schedule(INITIAL, pre) && Schedule(After(INITIAL, pre), [Commit(w, hooks)] + between)
    requires var s := After(After(INITIAL, pre), [Commit(w, hooks)] + between);
             Schedule(s, [RunHook(w, true)] + mid + [Begin(r, user)] + post)
    requires var k := HooksRun(w, between);
             k < |hooks| && (hooks[k] == BumpAll || hooks[k] == BumpUser(user))
    ensures var s := After(After(INITIAL, pre), [Commit(w, hooks)] + between);
            var s' := After(s, [RunHook(w, true)] + mid + [Begin(r, user)] + post);
            && r in s'.readers
            && (s'.readers[r].phase.Returned? ==> s'.readers[r].phase.version > After(INITIAL, pre).shared.version)
  {
    var s0, commit := After(INITIAL, pre), [Commit(w, hooks)];
    ScheduleGoesOn(s0, commit, between);
    assert commit[1..] == [];
    var s1 := Act(s0, commit[0]);
    assert After(s0, commit) == After(s1, []) == s1;
    RunKeepsHistory(s1, between, w, r);
    HooksRunInOrder(s1, w, between);
    RunsJoin(INITIAL, pre, commit + between);
    FreshAfterBump(pre + (commit + between), w, mid, r, user, post);
  }

  lemma {:induction false} RunsJoin(s: System, xs: seq<Action>, ys: seq<Action>)
    requires Schedule(s, xs) && Schedule(After(s, xs), ys)
    ensures Schedule(s, xs + ys) && After(s, xs + ys) == After(After(s, xs), ys)
    decreases |xs|
  {
    if xs == [] {
      assert xs + ys == ys;
    } else {
      assert (xs + ys)[1..] == xs[1..] + ys;
      RunsJoin(Act(s, xs[0]), xs[1..], ys);
    }
  }

  /** A bump makes exactly the snapshots it is meant for unreachable: those of one user, or all. */
  lemma BumpMisses(s: Shared, hook: Hook, version: nat, user: nat)
    requires Sound(s) && version <= s.version
    ensures var s' := Bumped(s, hook, version);
            if hook == BumpAll || hook == BumpUser(user) then KeyNow(s', user) !in s'.cache
            else KeyNow(s', user) == KeyNow(s, user) && s'.cache == s.cache
  {
    var k := KeyNow(Bumped(s, hook, version), user);
    if k in s.cache { assert Covers(s, k, s.cache[k]); }
  }

  /** What a later state says of the bumps that were counted when a read began, the earlier one says too. */
  lemma StartsAlike(s: System, later: System, r: nat, v: nat)
    requires Follows(s.shared, later.shared) && r in s.readers && r in later.readers
    requires later.readers[r].start == s.readers[r].start && Covers(later.shared, later.readers[r].start, v)
    requires GoodReader(s.shared, s.readers[r])
    ensures Covers(s.shared, s.readers[r].start, v)
  {
    var k := s.readers[r].start;
    assert UserBumps(s.shared, k.user) <= UserBumps(later.shared, k.user);
  }

  /**
   A read that nobody interrupts returns what is cached under the key of the moment. If nothing is, or
   anything fails on the way, it returns the current version, and caches it only if all of Redis worked.
   */
  lemma QuietRead(s: System, r: nat, user: nat, gensWork: bool, getWorks: bool, decodes: bool, setWorks: bool)
    requires r !in s.readers
    ensures var composed := Act(Act(s, Begin(r, user)), ReadGens(r, gensWork));
            var look := if gensWork then Act(composed, Get(r, getWorks, decodes)) else composed;
            var key := KeyNow(s.shared, user);
            var hit := gensWork && getWorks && decodes && key in s.shared.cache;
            if hit then look.readers[r].phase == Returned(s.shared.cache[key])
            else
              && Possible(look, Load(r, s.shared.version))
              && var loaded := Act(look, Load(r, s.shared.version));
              && Possible(loaded, Set(r, setWorks))
              && var done := Act(loaded, Set(r, setWorks));
              && r in done.readers && done.readers[r].phase == Returned(s.shared.version)
              && done.shared == if gensWork && getWorks && setWorks
                                then s.shared.(cache := s.shared.cache[key := s.shared.version]) else s.shared
  {
  }

  /**
   The order of commit and bump matters. If a mutation bumped before it committed, a reader in
   between would store the old snapshot under the new key, and every read after the commit would
   be served from it.
   */
  lemma EarlyBumpServesStale(s: Shared, user: nat)
    requires Sound(s)
    ensures var bumped := Bumped(s, BumpAll, s.version + 1);
            var key := KeyNow(bumped, user);
            var stored := bumped.(cache := bumped.cache[key := bumped.version]);
            var committed := stored.(version := s.version + 1);
            && KeyNow(committed, user) in committed.cache
            && !Covers(committed, KeyNow(committed, user), committed.cache[KeyNow(committed, user)])
  {
    var bumped := Bumped(s, BumpAll, s.version + 1);
    assert bumped.globalBumps[|s.globalBumps|] == s.version + 1;
  }
}
