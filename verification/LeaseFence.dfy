/**
 One replica that mints ids until its heartbeat fences it, whether or not it still holds its lease.
 Renewals may not reach Redis, and their answers may not come back; meanwhile other replicas do with
 the keys what they like, except storing this replica's token.
 */
module LeaseFence {
  import opened WorkerLease

  /**
   Answers follow each other, and the first one the start, by at most `gap`; an answer comes at most
   `lag` after its renewal was carried out, and the heartbeat starts at most `lag` after the claim.
   */
  datatype Setting = Setting(worker: nat, token: nat, ttl: nat, gap: nat, lag: nat)

  /** A renewal under way: when it was carried out, whether it reached Redis, whether it renewed. */
  datatype Pending = NoCall | Call(sent: nat, reached: bool, renewed: bool)

  /** `until` is the expiry that Redis last stored with this replica's token. */
  datatype Guard = Guard(now: nat, leases: map<nat, Lease>, until: nat, start: nat, beats: seq<Beat>, pending: Pending,
                         fenced: bool)

  datatype Event =
    | Ask(now: nat, reached: bool)
    | Hear(now: nat, arrives: bool)
    | Others(now: nat, leases: map<nat, Lease>)
    | MintId(now: nat)

  /** The heartbeat starts with a lease that was claimed at `claimed`. */
  predicate Started(c: Setting, g: Guard, claimed: nat) {
    && claimed <= g.start <= claimed + c.lag && g.now == g.start && g.until == claimed + c.ttl
    && g.beats == [] && g.pending.NoCall? && !g.fenced && OwnLeaseIsLast(c, g)
  }

  predicate OwnLeaseIsLast(c: Setting, g: Guard) {
    c.worker in g.leases && g.leases[c.worker].token == c.token ==> g.leases[c.worker].until == g.until
  }

  function LastBeat(g: Guard): nat { if g.beats == [] then g.start else g.beats[|g.beats| - 1].at }

  predicate Possible(c: Setting, g: Guard, e: Event) {
    && g.now <= e.now
    && (e.Others? || (!g.fenced && e.now <= LastBeat(g) + c.gap))
    && match e
       case Ask(_, _) => g.pending.NoCall?
       case Hear(now, _) => g.pending.Call? && now <= g.pending.sent + c.lag
       case Others(_, leases) =>
         c.worker in leases && leases[c.worker].token == c.token ==>
           c.worker in g.leases && g.leases[c.worker] == leases[c.worker]
       case MintId(_) => true
  }

  /** What the heartbeat makes of a renewal. */
  function AnswerTo(call: Pending, arrives: bool): Answer
    requires call.Call?
  {
    if !call.reached || !arrives then Failed else if call.renewed then Renewed else Lost
  }

  function Step(c: Setting, g: Guard, e: Event): Guard
    requires Possible(c, g, e)
  {
    match e
    case Ask(now, reached) =>
      var renewed := reached && Holds(g.leases, c.worker, c.token, now);
      g.(now := now, pending := Call(now, reached, renewed),
         leases := if reached then AfterRenew(g.leases, c.worker, c.token, c.ttl, now) else g.leases,
         until := if renewed then now + c.ttl else g.until)
    case Hear(now, arrives) =>
      var beats := g.beats + [Beat(now, AnswerTo(g.pending, arrives))];
      g.(now := now, pending := NoCall, beats := beats, fenced := Fences(g.start, c.ttl, beats, |beats| - 1))
    case Others(now, leases) => g.(now := now, leases := leases)
    case MintId(now) => g.(now := now)
  }

  predicate Run(c: Setting, g: Guard, events: seq<Event>)
    decreases |events|
  {
    events == [] || (Possible(c, g, events[0]) && Run(c, Step(c, g, events[0]), events[1..]))
  }

  function After(c: Setting, g: Guard, events: seq<Event>): Guard
    requires Run(c, g, events)
    decreases |events|
  {
    if events == [] then g else After(c, Step(c, g, events[0]), events[1..])
  }

  /** The last renewal that the replica knows of is not much later than the last one in Redis. */
  ghost predicate Inv(c: Setting, g: Guard) {
    && OwnLeaseIsLast(c, g)
    && LastRenew(g.start, g.beats) + c.ttl <= g.until + c.lag
    && (g.pending.Call? && g.pending.renewed ==> g.until == g.pending.sent + c.ttl)
    && g.until <= g.now + c.ttl
    && (!g.fenced && g.beats != [] ==> !Fences(g.start, c.ttl, g.beats, |g.beats| - 1))
  }

  lemma HearKeepsInv(c: Setting, g: Guard, e: Event)
    requires Inv(c, g) && Possible(c, g, e) && e.Hear?
    ensures Inv(c, Step(c, g, e))
  {
    var beats := Step(c, g, e).beats;
    assert beats[..|beats| - 1] == g.beats;
  }

  lemma {:induction false} RunKeepsInv(c: Setting, g: Guard, events: seq<Event>)
    requires Inv(c, g) && Run(c, g, events)
    ensures Inv(c, After(c, g, events))
    decreases |events|
  {
    if events != [] {
      if events[0].Hear? { HearKeepsInv(c, g, events[0]); }
      RunKeepsInv(c, Step(c, g, events[0]), events[1..]);
    }
  }

  /**
   However renewals fail and answers get lost, every id is minted before the expiry of the replica's
   own last lease plus one gap and one lag; what Redis still stores under the replica's token is that
   lease.
   */
  lemma MintsEndSoonAfterTheLease(c: Setting, g: Guard, claimed: nat, events: seq<Event>, now: nat)
    requires c.ttl > 0 && Started(c, g, claimed) && Run(c, g, events)
    requires Possible(c, After(c, g, events), MintId(now))
    ensures now < After(c, g, events).until + c.gap + c.lag && OwnLeaseIsLast(c, After(c, g, events))
  {
    RunKeepsInv(c, g, events);
    var last := After(c, g, events);
    if last.beats != [] {
      FenceIsPrompt(last.start, c.ttl, last.beats);
    }
  }

  /** When the key is another's by now, the next renewal that is answered fences. */
  lemma ReplacedIsFenced(c: Setting, g: Guard, other: map<nat, Lease>, taken: nat, sent: nat, heard: nat)
    requires c.worker in other && other[c.worker].token != c.token && Possible(c, g, Others(taken, other))
    requires var g1 := Step(c, g, Others(taken, other));
             Possible(c, g1, Ask(sent, true)) && Possible(c, Step(c, g1, Ask(sent, true)), Hear(heard, true))
    ensures var g1 := Step(c, g, Others(taken, other));
            var g3 := Step(c, Step(c, g1, Ask(sent, true)), Hear(heard, true));
            g3.fenced && g3.leases == other && g3.until == g.until
  {
  }

  lemma OneFailedBeat(c: Setting, g: Guard)
    requires c.gap > 0 && g.pending.NoCall? && !g.fenced && LastBeat(g) == g.now
    requires LastRenew(g.start, g.beats) == g.start && g.now + 1 < g.start + c.ttl
    ensures var ask, hear := Ask(g.now + 1, false), Hear(g.now + 1, false);
            && Possible(c, g, ask) && Possible(c, Step(c, g, ask), hear)
            && var next := Step(c, Step(c, g, ask), hear);
               && next.pending.NoCall? && !next.fenced && LastBeat(next) == next.now == g.now + 1
               && next.start == g.start && LastRenew(next.start, next.beats) == next.start && next.until == g.until
  {
    var next := Step(c, Step(c, g, Ask(g.now + 1, false)), Hear(g.now + 1, false));
    assert next.beats[..|next.beats| - 1] == g.beats;
  }

  lemma TwoSteps(c: Setting, g: Guard, a: Event, b: Event, rest: seq<Event>)
    requires Possible(c, g, a) && Possible(c, Step(c, g, a), b) && Run(c, Step(c, Step(c, g, a), b), rest)
    ensures Run(c, g, [a, b] + rest) && After(c, g, [a, b] + rest) == After(c, Step(c, Step(c, g, a), b), rest)
  {
    var events := [a, b] + rest;
    assert events[1..] == [b] + rest && events[1..][1..] == rest;
    assert Run(c, Step(c, g, a), events[1..]);
  }

  /** `n` renewals, a millisecond apart, of which none reaches Redis, do not fence within the TTL. */
  lemma {:induction false} FailedBeats(c: Setting, g: Guard, n: nat) returns (events: seq<Event>)
    requires c.gap > 0 && g.pending.NoCall? && !g.fenced && LastBeat(g) == g.now
    requires LastRenew(g.start, g.beats) == g.start && g.now + n < g.start + c.ttl
    ensures Run(c, g, events)
    ensures var last := After(c, g, events);
            LastBeat(last) == last.now == g.now + n && !last.fenced && last.until == g.until
    decreases n
  {
    events := [];
    if n > 0 {
      var ask, hear := Ask(g.now + 1, false), Hear(g.now + 1, false);
      OneFailedBeat(c, g);
      var next := Step(c, Step(c, g, ask), hear);
      var rest := FailedBeats(c, next, n - 1);
      TwoSteps(c, g, ask, hear, rest);
      events := [ask, hear] + rest;
    }
  }

  /** The bound is reached: for every setting there is a run that mints in the last millisecond before it. */
  lemma BoundIsReached(c: Setting)
    requires c.ttl > 0 && c.gap > 0
    ensures exists g, events ::
              && Started(c, g, 0) && Run(c, g, events)
              && Possible(c, After(c, g, events), MintId(After(c, g, events).until + c.gap + c.lag - 1))
  {
    var g := Guard(c.lag, map[c.worker := Lease(c.token, c.ttl)], c.ttl, c.lag, [], NoCall, false);
    var events := FailedBeats(c, g, c.ttl - 1);
    assert Started(c, g, 0) && Run(c, g, events);
  }

  /**
   A renewal that reaches Redis and is answered: the holder's lease starts again and it mints on; a
   replica whose lease is gone or another's is fenced. An answer that does not come counts as a failure,
   and so does a renewal that does not reach Redis, which fences exactly after a whole lifetime.
   */
  lemma RenewalIsKnown(c: Setting, g: Guard, sent: nat, heard: nat, reached: bool, arrives: bool)
    requires Possible(c, g, Ask(sent, reached)) && Possible(c, Step(c, g, Ask(sent, reached)), Hear(heard, arrives))
    requires c.ttl > 0
    ensures var asked := Step(c, g, Ask(sent, reached));
            var next := Step(c, asked, Hear(heard, arrives));
            var mine := StoredFor(g.leases, c.worker, c.token, sent);
            && next.until == (if reached && mine then sent + c.ttl else g.until)
            && next.leases == (if reached && mine then g.leases[c.worker := Lease(c.token, sent + c.ttl)] else g.leases)
            && (reached && arrives ==> (next.fenced <==> !mine))
            && (reached && arrives && mine ==> LastRenew(next.start, next.beats) == heard)
            && (!(reached && arrives) ==> (next.fenced <==> heard >= LastRenew(g.start, g.beats) + c.ttl))
            && (!(reached && arrives) ==> LastRenew(next.start, next.beats) == LastRenew(g.start, g.beats))
            && next.start == g.start && next.pending.NoCall?
  {
    var next := Step(c, Step(c, g, Ask(sent, reached)), Hear(heard, arrives));
    assert next.beats[..|next.beats| - 1] == g.beats;
  }
}
