// One execution per instrument: tryAcquire and release of
// market-maker-service/internal/execution/service.go with the Redis lock of async_audit.go.
// Each call is one atomic step; times are milliseconds.
module RunLock {
  // How SetNX ends when Redis is on: with an answer or with an error.
  datatype Reply = Answered | Errored

  function RedisKey(id: string): string { "mm:lock:" + id }

  predicate KeyLive(keys: map<string, nat>, now: nat, id: string) {
    RedisKey(id) in keys && now < keys[RedisKey(id)]
  }

  // tryAcquire on the shared keys (with their expiry times) and a process's local flags.
  function Acquire(redisOn: bool, ttl: nat, now: nat, keys: map<string, nat>, flags: set<string>,
                   id: string, reply: Reply)
    : (bool, map<string, nat>, set<string>)
  {
    if redisOn && reply == Answered then
      if KeyLive(keys, now, id) then (false, keys, flags) else (true, keys[RedisKey(id) := now + ttl], flags)
    else if id in flags then (false, keys, flags)
    else (true, keys, flags + {id})
  }

  // release: the key is deleted whoever set it, and a failure of the deletion is ignored.
  function Released(redisOn: bool, deleted: bool, keys: map<string, nat>, flags: set<string>, id: string)
    : (map<string, nat>, set<string>)
  {
    (if redisOn && deleted then keys - {RedisKey(id)} else keys, flags - {id})
  }

  class Redis {
    var now: nat
    var keys: map<string, nat>

    constructor ()
      ensures now == 0 && keys == map[]
    {
      now, keys := 0, map[];
    }

    method SetNX(key: string, ttl: nat) returns (ok: bool)
      modifies this
      ensures now == old(now)
      ensures ok <==> !(key in old(keys) && now < old(keys)[key])
      ensures keys == if ok then old(keys)[key := now + ttl] else old(keys)
    {
      if key in keys && now < keys[key] {
        return false;
      }
      keys := keys[key := now + ttl];
      return true;
    }

    method Del(key: string)
      modifies this
      ensures now == old(now) && keys == old(keys) - {key}
    {
      keys := keys - {key};
    }
  }

  class Service {
    var running: set<string>
    const rdb: Redis
    const redisOn: bool
    const ttl: nat

    constructor (rdb: Redis, redisOn: bool, ttl: nat)
      ensures this.rdb == rdb && this.redisOn == redisOn && this.ttl == ttl && running == {}
    {
      this.rdb, this.redisOn, this.ttl := rdb, redisOn, ttl;
      running := {};
    }

    method TryAcquire(id: string, reply: Reply) returns (granted: bool)
      modifies this, rdb
      ensures rdb.now == old(rdb.now)
      ensures (granted, rdb.keys, running)
        == Acquire(redisOn, ttl, old(rdb.now), old(rdb.keys), old(running), id, reply)
    {
      if redisOn && reply == Answered {
        granted := rdb.SetNX(RedisKey(id), ttl);
        return granted;
      }
      if id in running {
        return false;
      }
      running := running + {id};
      return true;
    }

    method Release(id: string, deleted: bool)
      modifies this, rdb
      ensures rdb.now == old(rdb.now)
      ensures (rdb.keys, running) == Released(redisOn, deleted, old(rdb.keys), old(running), id)
    {
      if redisOn && deleted {
        rdb.Del(RedisKey(id));
      }
      running := running - {id};
    }
  }

  // ----- every interleaving of any number of processes -----

  // An execute body in flight: ticket tells two bodies apart, since is when it was granted, and
  // byKey whether the Redis key or the local flag granted it.
  datatype Body = Body(ticket: nat, proc: nat, id: string, since: nat, byKey: bool)

  datatype State = State(now: nat, keys: map<string, nat>, flags: map<nat, set<string>>,
                         bodies: set<Body>, tickets: nat)

  datatype Event =
    | TryAcquire(proc: nat, id: string, reply: Reply)
    | Release(body: Body, deleted: bool)
    | Tick(elapsed: nat)

  function FlagsOf(s: State, proc: nat): set<string> {
    if proc in s.flags then s.flags[proc] else {}
  }

  const START := State(0, map[], map[], {}, 0)

  function Step(redisOn: bool, ttl: nat, s: State, e: Event): State {
    match e
    case TryAcquire(proc, id, reply) =>
      var (granted, keys, flags) := Acquire(redisOn, ttl, s.now, s.keys, FlagsOf(s, proc), id, reply);
      if granted then
        var body := Body(s.tickets, proc, id, s.now, redisOn && reply == Answered);
        State(s.now, keys, s.flags[proc := flags], s.bodies + {body}, s.tickets + 1)
      else s
    case Release(body, deleted) =>
      if body !in s.bodies then s else
        var (keys, flags) := Released(redisOn, deleted, s.keys, FlagsOf(s, body.proc), body.id);
        s.(keys := keys, flags := s.flags[body.proc := flags], bodies := s.bodies - {body})
    case Tick(elapsed) => s.(now := s.now + elapsed)
  }

  function Run(redisOn: bool, ttl: nat, events: seq<Event>): State {
    if events == [] then START
    else Step(redisOn, ttl, Run(redisOn, ttl, events[..|events| - 1]), events[|events| - 1])
  }

  // At most one body per instrument, within each process or across all of them.
  ghost predicate ExclusivePerProcess(s: State) {
    forall b, c :: b in s.bodies && c in s.bodies && b.id == c.id && b.proc == c.proc ==> b == c
  }

  ghost predicate Exclusive(s: State) {
    forall b, c :: b in s.bodies && c in s.bodies && b.id == c.id ==> b == c
  }

  // Redis off: the local flag of every running body is set.
  ghost predicate LocalInv(s: State) {
    ExclusivePerProcess(s) && forall b :: b in s.bodies ==> b.id in FlagsOf(s, b.proc)
  }

  lemma LocalStep(ttl: nat, s: State, e: Event)
    requires LocalInv(s)
    ensures LocalInv(Step(false, ttl, s, e))
  {
  }

  // With Redis off a process never runs two bodies for one instrument, in any interleaving.
  lemma {:induction false} LocalExclusion(ttl: nat, events: seq<Event>)
    ensures LocalInv(Run(false, ttl, events))
  {
    if events != [] {
      LocalExclusion(ttl, events[..|events| - 1]);
      LocalStep(ttl, Run(false, ttl, events[..|events| - 1]), events[|events| - 1]);
    }
  }

  // With Redis off a process's flags are exactly those of its running bodies.
  ghost predicate FlagsMatch(s: State) {
    && LocalInv(s)
    && (forall proc, id :: id in FlagsOf(s, proc) ==> RunsIn(s, proc, id))
  }

  ghost predicate RunsIn(s: State, proc: nat, id: string) {
    exists b :: b in s.bodies && b.proc == proc && b.id == id
  }

  lemma FlagsStep(ttl: nat, s: State, e: Event)
    requires FlagsMatch(s)
    ensures FlagsMatch(Step(false, ttl, s, e))
  {
    LocalStep(ttl, s, e);
    var t := Step(false, ttl, s, e);
    forall proc, id | id in FlagsOf(t, proc) ensures RunsIn(t, proc, id) {
      if id in FlagsOf(s, proc) {
        assert RunsIn(s, proc, id);
        var b :| b in s.bodies && b.proc == proc && b.id == id;
        assert b in t.bodies;
      } else {
        assert Body(s.tickets, proc, id, s.now, false) in t.bodies;
      }
    }
  }

  lemma {:induction false} FlagsMatchRun(ttl: nat, events: seq<Event>)
    ensures FlagsMatch(Run(false, ttl, events))
  {
    if events != [] {
      FlagsMatchRun(ttl, events[..|events| - 1]);
      FlagsStep(ttl, Run(false, ttl, events[..|events| - 1]), events[|events| - 1]);
    }
  }

  // The event starts a new body of the instrument in the process.
  ghost predicate Starts(s: State, t: State, proc: nat, id: string) {
    exists b :: b in t.bodies && b !in s.bodies && b.proc == proc && b.id == id
  }

  // In every run with Redis off, an acquire starts a body exactly if the process runs none for the
  // instrument: a released instrument can always be acquired again, and no other one is in its way.
  lemma GrantedExactlyWhenIdle(ttl: nat, events: seq<Event>, proc: nat, id: string, reply: Reply)
    ensures var s := Run(false, ttl, events);
      Starts(s, Step(false, ttl, s, TryAcquire(proc, id, reply)), proc, id) <==> !RunsIn(s, proc, id)
  {
    FlagsMatchRun(ttl, events);
    TicketsRun(false, ttl, events);
    var s := Run(false, ttl, events);
    if RunsIn(s, proc, id) {
      var b :| b in s.bodies && b.proc == proc && b.id == id;
      assert id in FlagsOf(s, proc);
    } else {
      var c := Body(s.tickets, proc, id, s.now, false);
      assert c in Step(false, ttl, s, TryAcquire(proc, id, reply)).bodies && c !in s.bodies;
    }
  }

  lemma {:induction false} TicketsRun(redisOn: bool, ttl: nat, events: seq<Event>)
    ensures FreshTickets(Run(redisOn, ttl, events))
  {
    if events != [] {
      TicketsRun(redisOn, ttl, events[..|events| - 1]);
    }
  }

  // With Redis on and the lock answering: once a release has deleted the key the next acquire of the
  // instrument starts a body, from any process; so does one after the key has expired.
  lemma GrantedAfterRelease(ttl: nat, s: State, body: Body, proc: nat)
    requires FreshTickets(s) && body in s.bodies
    ensures var t := Step(true, ttl, s, Release(body, true));
      Starts(t, Step(true, ttl, t, TryAcquire(proc, body.id, Answered)), proc, body.id)
  {
    var t := Step(true, ttl, s, Release(body, true));
    var c := Body(t.tickets, proc, body.id, t.now, true);
    assert c in Step(true, ttl, t, TryAcquire(proc, body.id, Answered)).bodies && c !in t.bodies;
  }

  // If the lock does not answer, the local flag decides, and a release has cleared it in any case.
  lemma GrantedAfterReleaseOnError(redisOn: bool, ttl: nat, s: State, body: Body, deleted: bool)
    requires FreshTickets(s) && body in s.bodies
    ensures var t := Step(redisOn, ttl, s, Release(body, deleted));
      Starts(t, Step(redisOn, ttl, t, TryAcquire(body.proc, body.id, Errored)), body.proc, body.id)
  {
    var t := Step(redisOn, ttl, s, Release(body, deleted));
    var c := Body(t.tickets, body.proc, body.id, t.now, false);
    assert c in Step(redisOn, ttl, t, TryAcquire(body.proc, body.id, Errored)).bodies && c !in t.bodies;
  }

  // A release whose deletion fails leaves the instrument locked until the key expires.
  lemma RefusedWhileKeyLives(ttl: nat, s: State, body: Body, proc: nat)
    requires FreshTickets(s) && body in s.bodies && KeyLive(s.keys, s.now, body.id)
    ensures var t := Step(true, ttl, s, Release(body, false));
      body !in t.bodies && Step(true, ttl, t, TryAcquire(proc, body.id, Answered)) == t
  {
  }

  lemma GrantedAfterExpiry(ttl: nat, s: State, proc: nat, id: string)
    requires FreshTickets(s)
    requires RedisKey(id) in s.keys ==> s.keys[RedisKey(id)] <= s.now
    ensures Starts(s, Step(true, ttl, s, TryAcquire(proc, id, Answered)), proc, id)
  {
    var c := Body(s.tickets, proc, id, s.now, true);
    assert c in Step(true, ttl, s, TryAcquire(proc, id, Answered)).bodies && c !in s.bodies;
  }

  // A refused acquire changes nothing, and no step touches the bodies of another instrument.
  lemma RefusalChangesNothing(redisOn: bool, ttl: nat, s: State, proc: nat, id: string, reply: Reply)
    requires !Starts(s, Step(redisOn, ttl, s, TryAcquire(proc, id, reply)), proc, id) && FreshTickets(s)
    ensures Step(redisOn, ttl, s, TryAcquire(proc, id, reply)) == s
  {
    var c := Body(s.tickets, proc, id, s.now, redisOn && reply == Answered);
    assert c !in s.bodies;
  }

  // Redis on, no SetNX errors, and no body held for as long as hold.
  ghost predicate Timely(hold: nat, s: State, e: Event) {
    match e
    case TryAcquire(_, _, reply) => reply == Answered
    case Release(_, _) => true
    case Tick(elapsed) => forall b :: b in s.bodies ==> s.now + elapsed < b.since + hold
  }

  ghost predicate TimelyRun(ttl: nat, hold: nat, events: seq<Event>) {
    forall k :: 0 <= k < |events| ==> Timely(hold, Run(true, ttl, events[..k]), events[k])
  }

  // The key of every running body is its own, and outlives the hold.
  ghost predicate RedisInv(ttl: nat, hold: nat, s: State) {
    && Exclusive(s)
    && forall b :: b in s.bodies ==>
         s.now < b.since + hold && RedisKey(b.id) in s.keys && s.keys[RedisKey(b.id)] == b.since + ttl
  }

  lemma KeysDiffer(a: string, b: string)
    ensures RedisKey(a) == RedisKey(b) ==> a == b
  {
    if RedisKey(a) == RedisKey(b) {
      assert a == RedisKey(a)[|"mm:lock:"|..] && b == RedisKey(b)[|"mm:lock:"|..];
    }
  }

  lemma RedisStep(ttl: nat, hold: nat, s: State, e: Event)
    requires 0 < hold <= ttl
    requires RedisInv(ttl, hold, s) && Timely(hold, s, e)
    ensures RedisInv(ttl, hold, Step(true, ttl, s, e))
  {
    var t := Step(true, ttl, s, e);
    match e
    case TryAcquire(proc, id, reply) =>
      if !KeyLive(s.keys, s.now, id) {
        assert forall b :: b in s.bodies ==> b.id != id;
        forall b | b in s.bodies ensures RedisKey(b.id) != RedisKey(id) {
          KeysDiffer(b.id, id);
        }
      }
    case Release(body, deleted) =>
      if body in s.bodies {
        forall b | b in t.bodies ensures RedisKey(b.id) != RedisKey(body.id) {
          KeysDiffer(b.id, body.id);
        }
      }
    case Tick(elapsed) =>
  }

  lemma {:induction false} TimelyHoldersExclude(ttl: nat, hold: nat, events: seq<Event>)
    requires 0 < hold <= ttl && TimelyRun(ttl, hold, events)
    ensures RedisInv(ttl, hold, Run(true, ttl, events))
  {
    if events != [] {
      var k := |events| - 1;
      assert forall j :: 0 <= j < k ==> events[..k][..j] == events[..j];
      TimelyHoldersExclude(ttl, hold, events[..k]);
      assert Timely(hold, Run(true, ttl, events[..k]), events[k]);
      RedisStep(ttl, hold, Run(true, ttl, events[..k]), events[k]);
    }
  }

  lemma RunExtends(redisOn: bool, ttl: nat, events: seq<Event>, e: Event)
    ensures Run(redisOn, ttl, events + [e]) == Step(redisOn, ttl, Run(redisOn, ttl, events), e)
  {
  }

  lemma TimelyExtends(ttl: nat, hold: nat, events: seq<Event>, e: Event)
    requires TimelyRun(ttl, hold, events) && Timely(hold, Run(true, ttl, events), e)
    ensures TimelyRun(ttl, hold, events + [e])
  {
    forall k | 0 <= k < |events| + 1 ensures Timely(hold, Run(true, ttl, (events + [e])[..k]), (events + [e])[k]) {
      assert (events + [e])[..k] == events[..k];
    }
  }

  // A holder that outlives the TTL lets a second body start.
  lemma LateHolderBreaksExclusion(ttl: nat, hold: nat) returns (events: seq<Event>)
    requires ttl < hold
    ensures TimelyRun(ttl, hold, events) && !Exclusive(Run(true, ttl, events))
  {
    var id := "v4:ETHUSDT";
    var e0, e1, e2 := TryAcquire(0, id, Answered), Tick(ttl), TryAcquire(1, id, Answered);
    RunExtends(true, ttl, [], e0);
    RunExtends(true, ttl, [] + [e0], e1);
    RunExtends(true, ttl, [] + [e0] + [e1], e2);
    TimelyExtends(ttl, hold, [], e0);
    var s1 := Run(true, ttl, [] + [e0]);
    assert s1.bodies == {Body(0, 0, id, 0, true)} && s1.keys == map[RedisKey(id) := ttl];
    TimelyExtends(ttl, hold, [] + [e0], e1);
    TimelyExtends(ttl, hold, [] + [e0] + [e1], e2);
    events := [] + [e0] + [e1] + [e2];
    assert {Body(0, 0, id, 0, true), Body(1, 1, id, ttl, true)} <= Run(true, ttl, events).bodies;
  }

  // The Redis lock excludes, over every run without lock errors, exactly when the time a holder
  // can take is at most the TTL. The defaults are a 15 s TTL and a 3 min execution context.
  lemma RedisExclusionExactlyWhen(ttl: nat, hold: nat)
    requires hold > 0
    ensures (forall events :: TimelyRun(ttl, hold, events) ==> Exclusive(Run(true, ttl, events))) <==> hold <= ttl
  {
    if hold <= ttl {
      forall events | TimelyRun(ttl, hold, events) ensures Exclusive(Run(true, ttl, events)) {
        TimelyHoldersExclude(ttl, hold, events);
      }
    } else {
      var events := LateHolderBreaksExclusion(ttl, hold);
    }
  }

  // ----- lock errors -----

  // Whether tryAcquire refuses: the key is live, or on a lock error the local flag is set.
  predicate Refuses(redisOn: bool, s: State, proc: nat, id: string, reply: Reply) {
    if redisOn && reply == Answered then KeyLive(s.keys, s.now, id) else id in FlagsOf(s, proc)
  }

  ghost predicate InFlight(s: State, id: string) {
    exists b :: b in s.bodies && b.id == id
  }

  ghost predicate FreshTickets(s: State) {
    forall b :: b in s.bodies ==> b.ticket < s.tickets
  }

  // One call, with or without an error: exclusion survives it exactly if it refuses or finds the
  // instrument idle.
  lemma AcquireExclusiveExactlyWhen(redisOn: bool, ttl: nat, s: State, proc: nat, id: string, reply: Reply)
    requires Exclusive(s) && FreshTickets(s)
    ensures Exclusive(Step(redisOn, ttl, s, TryAcquire(proc, id, reply)))
       <==> Refuses(redisOn, s, proc, id, reply) || !InFlight(s, id)
  {
    var t := Step(redisOn, ttl, s, TryAcquire(proc, id, reply));
    if !Refuses(redisOn, s, proc, id, reply) && InFlight(s, id) {
      var b :| b in s.bodies && b.id == id;
      var c := Body(s.tickets, proc, id, s.now, redisOn && reply == Answered);
      assert b in t.bodies && c in t.bodies && b != c;
    }
  }

  // Holders are timely; lock calls may error.
  ghost predicate TimelyTick(hold: nat, s: State, e: Event) {
    e.Tick? ==> forall b :: b in s.bodies ==> s.now + e.elapsed < b.since + hold
  }

  ghost predicate TimelyTicks(ttl: nat, hold: nat, events: seq<Event>) {
    forall k :: 0 <= k < |events| ==> TimelyTick(hold, Run(true, ttl, events[..k]), events[k])
  }

  // An acquire of an instrument in flight goes to the lock that granted it: Redis answers and the
  // body holds the key, or Redis errors and the body was granted by the flag of the same process.
  // (A key that an earlier release failed to delete also refuses while it is live.)
  ghost predicate SameLock(s: State, e: Event) {
    e.TryAcquire? ==> forall b :: b in s.bodies && b.id == e.id ==>
      if e.reply == Answered then b.byKey || KeyLive(s.keys, s.now, e.id) else !b.byKey && b.proc == e.proc
  }

  // A body granted by Redis has its own live key, one granted by a flag has that flag, and every
  // flag set is that of such a body.
  ghost predicate MixedInv(ttl: nat, hold: nat, s: State) {
    && Exclusive(s) && FreshTickets(s)
    && (forall b :: b in s.bodies ==> s.now < b.since + hold)
    && (forall b :: b in s.bodies && b.byKey ==> RedisKey(b.id) in s.keys && s.keys[RedisKey(b.id)] == b.since + ttl)
    && (forall b :: b in s.bodies && !b.byKey ==> b.id in FlagsOf(s, b.proc))
    && (forall proc, id :: id in FlagsOf(s, proc) ==> FlagHeld(s, proc, id))
  }

  ghost predicate FlagHeld(s: State, proc: nat, id: string) {
    exists b :: b in s.bodies && b.id == id && b.proc == proc && !b.byKey
  }

  lemma RefusesExactlySameLock(ttl: nat, hold: nat, s: State, proc: nat, id: string, reply: Reply)
    requires 0 < hold <= ttl && MixedInv(ttl, hold, s)
    ensures Refuses(true, s, proc, id, reply) || !InFlight(s, id) <==> SameLock(s, TryAcquire(proc, id, reply))
  {
    if InFlight(s, id) {
      var b :| b in s.bodies && b.id == id;
      assert forall c :: c in s.bodies && c.id == id ==> c == b;
      if reply == Errored && id in FlagsOf(s, proc) {
        assert FlagHeld(s, proc, id);
      }
    }
  }

  lemma MixedStep(ttl: nat, hold: nat, s: State, e: Event)
    requires 0 < hold <= ttl && MixedInv(ttl, hold, s) && TimelyTick(hold, s, e)
    ensures SameLock(s, e) ==> MixedInv(ttl, hold, Step(true, ttl, s, e))
    ensures !SameLock(s, e) ==> !Exclusive(Step(true, ttl, s, e))
  {
    match e
    case TryAcquire(proc, id, reply) =>
      RefusesExactlySameLock(ttl, hold, s, proc, id, reply);
      AcquireExclusiveExactlyWhen(true, ttl, s, proc, id, reply);
      if SameLock(s, e) && !Refuses(true, s, proc, id, reply) {
        MixedGrant(ttl, hold, s, proc, id, reply);
      }
    case Release(body, deleted) =>
      if body in s.bodies {
        MixedRelease(ttl, hold, s, body, deleted);
      }
    case Tick(elapsed) =>
      var t := Step(true, ttl, s, e);
      assert forall p, id :: FlagHeld(s, p, id) ==> FlagHeld(t, p, id);
  }

  lemma MixedGrant(ttl: nat, hold: nat, s: State, proc: nat, id: string, reply: Reply)
    requires 0 < hold <= ttl && MixedInv(ttl, hold, s)
    requires !Refuses(true, s, proc, id, reply) && !InFlight(s, id)
    ensures MixedInv(ttl, hold, Step(true, ttl, s, TryAcquire(proc, id, reply)))
  {
    var t := Step(true, ttl, s, TryAcquire(proc, id, reply));
    var c := Body(s.tickets, proc, id, s.now, reply == Answered);
    assert t.bodies == s.bodies + {c};
    forall b | b in s.bodies ensures RedisKey(b.id) != RedisKey(id) {
      KeysDiffer(b.id, id);
    }
    forall p, i | i in FlagsOf(t, p) ensures FlagHeld(t, p, i) {
      if i in FlagsOf(s, p) {
        assert FlagHeld(s, p, i);
      } else {
        assert c.id == i && c.proc == p && !c.byKey;
      }
    }
  }

  lemma MixedRelease(ttl: nat, hold: nat, s: State, body: Body, deleted: bool)
    requires MixedInv(ttl, hold, s) && body in s.bodies
    ensures MixedInv(ttl, hold, Step(true, ttl, s, Release(body, deleted)))
  {
    var t := Step(true, ttl, s, Release(body, deleted));
    forall b | b in t.bodies ensures b.id != body.id && RedisKey(b.id) != RedisKey(body.id) {
      KeysDiffer(b.id, body.id);
    }
    forall p, i | i in FlagsOf(t, p) ensures FlagHeld(t, p, i) {
      assert i in FlagsOf(s, p) && FlagHeld(s, p, i);
      var b :| b in s.bodies && b.id == i && b.proc == p && !b.byKey;
      assert b in t.bodies;
    }
  }

  ghost predicate ExclusiveThroughout(ttl: nat, events: seq<Event>) {
    forall k :: 0 <= k <= |events| ==> Exclusive(Run(true, ttl, events[..k]))
  }

  ghost predicate SameLockThroughout(ttl: nat, events: seq<Event>) {
    forall k :: 0 <= k < |events| ==> SameLockAt(ttl, events, k)
  }

  ghost predicate SameLockAt(ttl: nat, events: seq<Event>, k: nat)
    requires k < |events|
  {
    SameLock(Run(true, ttl, events[..k]), events[k])
  }

  // One more event of a run, and what it does to exclusion.
  lemma MixedOneMore(ttl: nat, hold: nat, events: seq<Event>, k: nat)
    requires k < |events| && 0 < hold <= ttl && TimelyTicks(ttl, hold, events)
    requires MixedInv(ttl, hold, Run(true, ttl, events[..k]))
    ensures SameLockAt(ttl, events, k) ==> MixedInv(ttl, hold, Run(true, ttl, events[..k + 1]))
    ensures !SameLockAt(ttl, events, k) ==> !Exclusive(Run(true, ttl, events[..k + 1]))
  {
    assert events[..k + 1][..k] == events[..k];
    assert TimelyTick(hold, Run(true, ttl, events[..k]), events[k]);
    MixedStep(ttl, hold, Run(true, ttl, events[..k]), events[k]);
  }

  lemma {:induction false} SameLockKeepsMixed(ttl: nat, hold: nat, events: seq<Event>, n: nat)
    requires n <= |events| && 0 < hold <= ttl && TimelyTicks(ttl, hold, events)
    requires SameLockThroughout(ttl, events) || ExclusiveThroughout(ttl, events)
    ensures MixedInv(ttl, hold, Run(true, ttl, events[..n]))
  {
    if n > 0 {
      SameLockKeepsMixed(ttl, hold, events, n - 1);
      MixedOneMore(ttl, hold, events, n - 1);
    }
  }

  // Over every run of timely holders, lock errors included, in any number of processes: no two
  // bodies of an instrument ever overlap exactly if every acquire of an instrument in flight goes
  // to the lock that granted it. The two locks do not see each other.
  lemma ExclusiveThroughoutExactlyWhen(ttl: nat, hold: nat, events: seq<Event>)
    requires 0 < hold <= ttl && TimelyTicks(ttl, hold, events)
    ensures ExclusiveThroughout(ttl, events) <==> SameLockThroughout(ttl, events)
  {
    if SameLockThroughout(ttl, events) {
      forall k | 0 <= k <= |events| ensures Exclusive(Run(true, ttl, events[..k])) {
        SameLockKeepsMixed(ttl, hold, events, k);
      }
    }
    if ExclusiveThroughout(ttl, events) {
      forall k | 0 <= k < |events| ensures SameLockAt(ttl, events, k) {
        SameLockKeepsMixed(ttl, hold, events, k);
        MixedOneMore(ttl, hold, events, k);
      }
    }
  }

  // One lock error is enough: it falls back to the local flag, which a body granted by Redis
  // never set.
  lemma LockErrorBreaksExclusion(ttl: nat) returns (events: seq<Event>)
    requires ttl > 0
    ensures !ExclusivePerProcess(Run(true, ttl, events))
  {
    var id := "v3:BTCUSDT";
    var e0, e1 := TryAcquire(0, id, Answered), TryAcquire(0, id, Errored);
    RunExtends(true, ttl, [], e0);
    RunExtends(true, ttl, [] + [e0], e1);
    assert FlagsOf(Run(true, ttl, [] + [e0]), 0) == {};
    events := [] + [e0] + [e1];
    assert {Body(0, 0, id, 0, true), Body(1, 0, id, 0, false)} <= Run(true, ttl, events).bodies;
  }
}
