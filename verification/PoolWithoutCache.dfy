/**
 A configuration whose cache for prepared statements has no room, which the database accepts:
 the connections there are go on, and no other is ever opened.
 */
module PoolWithoutCache {
  import opened Configuration
  import opened PoolSpec
  import opened PoolInvariant
  import opened PoolSteps
  import opened PoolRuns

  predicate CacheLess(config: Config) {
    config.maxSqlCacheSize <= 0
  }

  // Every number given out in between is that of a closed connection.
  ghost predicate NothingOpened(p: Pool, p': Pool) {
    && p.nextId <= p'.nextId && p.closed <= p'.closed
    && (forall id: nat :: p.nextId <= id < p'.nextId ==> id in p'.closed)
  }

  // The same, and the configuration still has no room for a cache.
  ghost predicate Stays(p: Pool, p': Pool) {
    CacheLess(p.config) ==> CacheLess(p'.config) && NothingOpened(p, p')
  }

  lemma StaysOn(p: Pool, q: Pool, r: Pool)
    requires Stays(p, q) && Stays(q, r)
    ensures Stays(p, r)
  {
  }

  lemma Unchanged(p: Pool)
    ensures Stays(p, p)
  {
  }

  // What has nothing to do with the numbers of connections.
  lemma SameNumbers(p: Pool, q: Pool, r: Pool)
    ensures r.nextId == q.nextId && r.closed >= q.closed && r.config == q.config && Stays(p, q) ==> Stays(p, r)
  {
  }

  lemma OpenStays(p: Pool, primary: bool, request: Request, env: Env)
    ensures Stays(p, OpenAndAcquire(p, primary, request, env).0)
  {
  }

  lemma AttemptsStay(p: Pool, request: Request, env: Env)
    ensures Stays(p, TryIdle(p, request, env).0) && Stays(p, TryPrimary(p, request, env).0)
  {
    Unchanged(p);
    OpenStays(p, true, request, env);
    OpenStays(p, false, request, env);
    hide OpenAndAcquire, PickIdle, HasAcquiredPrimary, Stays;
    SameNumbers(p, p, TryIdle(p, request, env).0);
    SameNumbers(p, p, TryPrimary(p, request, env).0);
  }

  lemma ServeStays(p: Pool, request: Request, env: Env)
    ensures Stays(p, Serve(p, request, env).0)
  {
    var q := TryIdle(p, request, env).0;
    AttemptsStay(p, request, env);
    AttemptsStay(q, request, env);
    hide TryIdle, TryPrimary, Stays;
    StaysOn(p, q, TryPrimary(q, request, env).0);
  }

  lemma ServeFlaggedStays(p: Pool, request: Request, noPrimary: bool, noIdle: bool, env: Env)
    ensures Stays(p, ServeFlagged(p, request, noPrimary, noIdle, env).0)
  {
    var q := TryIdle(p, request, env).0;
    Unchanged(p);
    AttemptsStay(p, request, env);
    AttemptsStay(q, request, env);
    hide TryIdle, TryPrimary, Stays;
    StaysOn(p, q, TryPrimary(q, request, env).0);
  }

  lemma {:induction false} WakeFromStays(p: Pool, i: nat, noPrimary: bool, noIdle: bool, env: Env)
    requires i <= |p.queue|
    ensures Stays(p, WakeFrom(p, i, noPrimary, noIdle, env))
    decreases |p.queue| - i
  {
    hide ServeFlagged, Stays;
    if i == |p.queue| {
      Unchanged(p);
    } else {
      var (p1, a, noPrimary1, noIdle1) := ServeFlagged(p, p.queue[i].request, noPrimary, noIdle, env);
      ServeFlaggedUntouched(p, p.queue[i].request, noPrimary, noIdle, env);
      ServeFlaggedStays(p, p.queue[i].request, noPrimary, noIdle, env);
      if a == Unavailable {
        WakeFromStays(p1, i + 1, noPrimary1, noIdle1, env);
        StaysOn(p, p1, WakeFrom(p1, i + 1, noPrimary1, noIdle1, env));
      } else {
        var q := Dequeue(p1, i, if a.Got? then Granted(a.id) else Refused(a.error));
        SameNumbers(p, p1, q);
        WakeFromStays(q, i, noPrimary1, noIdle1, env);
        StaysOn(p, q, WakeFrom(q, i, noPrimary1, noIdle1, env));
      }
    }
  }

  // A pool that was changed and then woken.
  lemma WokenStays(p: Pool, q: Pool, env: Env)
    requires Stays(p, q)
    ensures Stays(p, Wake(q, env))
  {
    hide Stays, WakeFrom;
    WakeFromStays(q, 0, false, false, env);
    StaysOn(p, q, WakeFrom(q, 0, false, false, env));
    SameNumbers(p, q, q.(queue := [], abandoned := q.abandoned + Tickets(q.queue)));
  }

  lemma AcquireStays(p: Pool, request: Request, canceled: bool, env: Env)
    ensures Stays(p, Acquire(p, request, canceled, env).0)
  {
    var q := Serve(p, request, env).0;
    Unchanged(p);
    ServeStays(p, request, env);
    hide Serve, Stays, InsertionPoint;
    SameNumbers(p, q, Enqueue(q, request));
  }

  lemma CancelStays(p: Pool, ticket: nat, env: Env)
    ensures Stays(p, Cancel(p, ticket, env))
  {
    Unchanged(p);
    hide Stays, Wake;
    var k := Position(p.queue, ticket, 0);
    if k < |p.queue| {
      var q := Dequeue(p, k, Refused(OperationCanceled));
      SameNumbers(p, p, q);
      WokenStays(p, q, env);
    }
  }

  lemma ReleaseStays(p: Pool, id: nat, env: Env)
    ensures Stays(p, Release(p, id, env).0)
  {
    Unchanged(p);
    if id in p.acquired {
      var p1 := Removed(p, id);
      var (q, conn) := Recycle(p1, p.acquired[id], env);
      SameNumbers(p, p, q);
      SameNumbers(p, p, CloseConnection(p1, id));
      hide Stays, Wake, Recycle;
      if conn.Some? {
        SameNumbers(p, q, q.(primary := conn));
        SameNumbers(p, q, q.(idle := q.idle + [conn.value]));
        WokenStays(p, q.(primary := conn), env);
        WokenStays(p, q.(idle := q.idle + [conn.value]), env);
      }
      WokenStays(p, q, env);
    }
  }

  lemma ReopenStays(p: Pool, config: Config, env: Env)
    requires CacheLess(config)
    ensures Stays(p, Reopen(p, config, env).0)
  {
  }

  lemma ExcessNumbers(p: Pool)
    ensures var q := CloseExcess(p);
            q.nextId == p.nextId && p.closed <= q.closed && q.config == p.config
  {
    hide Ids;
  }

  lemma ReconfiguredNumbers(p: Pool, env: Env)
    ensures var q := ReconfigureAll(p, env);
            q.nextId == p.nextId && p.closed <= q.closed && q.config == p.config
  {
    hide Ids, Reconfigured, MarkAcquired;
  }

  lemma InPlaceStays(p: Pool, config: Config, env: Env)
    requires CacheLess(config)
    ensures Stays(p, ReconfigureInPlace(p, config, env))
  {
    hide CloseExcess, ReconfigureAll, Wake;
    var q := p.(config := config, max := PoolSize(config));
    ExcessNumbers(q);
    ReconfiguredNumbers(CloseExcess(q), env);
    assert Stays(p, ReconfigureAll(CloseExcess(q), env));
    hide Stays;
    WokenStays(p, ReconfigureAll(CloseExcess(q), env), env);
  }

  lemma ReconfigureStays(p: Pool, config: Config, env: Env)
    requires config.path == p.config.path && CacheLess(config)
    ensures Stays(p, Reconfigure(p, config, env).0)
  {
    var p1 := if Wal(config) != Wal(p.config) then CloseIdle(p) else p;
    Unchanged(p);
    SameNumbers(p, p, p1);
    hide Stays, Reopen, ReconfigureInPlace;
    ReopenStays(p1, config, env);
    StaysOn(p, p1, Reopen(p1, config, env).0);
    InPlaceStays(p1, config, env);
    StaysOn(p, p1, ReconfigureInPlace(p1, config, env));
  }

  lemma CloseStays(p: Pool, env: Env)
    ensures Stays(p, Close(p, env).0)
  {
    Unchanged(p);
    var q := CloseAvailable(p.(open := false));
    SameNumbers(p, p, q);
    hide Stays, Wake;
    WokenStays(p, q, env);
  }

  // No step gives the pool another configuration with room for a cache.
  ghost predicate KeepsCacheLess(step: Step) {
    step.PoolReconfigures? ==> CacheLess(step.config)
  }

  lemma NextStays(sys: System, step: Step)
    requires KeepsCacheLess(step)
    ensures Stays(sys.pool, Next(sys, step).pool)
  {
    Unchanged(sys.pool);
    hide Stays, Acquire, Cancel, Release, Reconfigure, Close;
    match step
    case SessionAcquires(_, request, canceled, env) => AcquireStays(sys.pool, request, canceled, env);
    case SessionWakes(s) =>
      if s in sys.clients && sys.clients[s].Waiting? {
        SameNumbers(sys.pool, sys.pool, Collect(sys.pool, sys.clients[s].ticket).0);
      }
    case SessionIsCanceled(s, env) =>
      if s in sys.clients && sys.clients[s].Waiting? {
        CancelStays(sys.pool, sys.clients[s].ticket, env);
      }
    case SessionReleases(s, env) =>
      if s in sys.clients && sys.clients[s].Holding? {
        ReleaseStays(sys.pool, sys.clients[s].id, env);
      }
    case PoolReconfigures(config, env) =>
      if config.path == sys.pool.config.path {
        ReconfigureStays(sys.pool, config, env);
      }
    case PoolCloses(env) => CloseStays(sys.pool, env);
  }

  lemma {:induction false} RunStays(sys: System, steps: seq<Step>)
    requires forall i :: 0 <= i < |steps| ==> KeepsCacheLess(steps[i])
    ensures Stays(sys.pool, Run(sys, steps).pool)
    decreases |steps|
  {
    hide Stays, Next, KeepsCacheLess;
    if steps == [] {
      Unchanged(sys.pool);
    } else {
      NextStays(sys, steps[0]);
      RunStays(Next(sys, steps[0]), steps[1..]);
      StaysOn(sys.pool, Next(sys, steps[0]).pool, Run(Next(sys, steps[0]), steps[1..]).pool);
    }
  }

  /**
   From any reachable state on: once the configuration has no room for a cache, and until it has
   again, every connection in the pool or in use is one that was there before.
   */
  lemma NothingOpensWithoutCache(sys: System, steps: seq<Step>, id: nat)
    requires Reachable(sys) && CacheLess(sys.pool.config)
    requires forall i :: 0 <= i < |steps| ==> KeepsCacheLess(steps[i])
    ensures Live(Run(sys, steps).pool, id) ==> Live(sys.pool, id)
  {
    ReachableInv(sys);
    hide Reachable, Owned, KeepsCacheLess;
    RunKeeps(sys, steps);
    RunStays(sys, steps);
    StillThere(sys.pool, Run(sys, steps).pool, id);
  }

  lemma StillThere(p: Pool, p': Pool, id: nat)
    requires Inv(p) && Inv(p') && NothingOpened(p, p')
    ensures Live(p', id) ==> Live(p, id)
  {
  }

  /** A pool, and so a database, cannot be opened with such a configuration. */
  lemma NoPoolWithoutCache(config: Config, env: Env)
    ensures CacheLess(config) ==> OpenPool(config, env).None?
  {
  }
}
