/**
 How many connections there are. When no connection ever fails to open or to be
 reconfigured, the pool never exceeds its maximum; with failures it can, by exactly one.
 */
module PoolSizes {
  import opened Wrappers
  import opened Configuration
  import opened PoolSpec
  import opened PoolInvariant
  import opened PoolWake
  import opened PoolSteps
  import opened PoolRuns

  ghost predicate NoFailures(env: Env) {
    env.openFails == {} && env.reconfigureFails == {}
  }

  ghost predicate StepWithoutFailures(step: Step) {
    match step
    case SessionAcquires(_, _, _, env) => NoFailures(env)
    case SessionWakes(_) => true
    case SessionIsCanceled(_, env) => NoFailures(env)
    case SessionReleases(_, env) => NoFailures(env)
    case PoolReconfigures(config, env) => NoFailures(env) && config.maxSqlCacheSize > 0
    case PoolCloses(env) => NoFailures(env)
  }

  ghost predicate HasLivePrimary(acquired: map<nat, Held>) {
    exists id: nat :: LivePrimary(acquired, id)
  }

  ghost predicate HasPrimary(p: Pool) {
    p.primary.Some? || HasLivePrimary(p.acquired)
  }

  // There is a primary that is not discarded, and room is left for it.
  ghost predicate Healthy(p: Pool) {
    HasPrimary(p) && |p.idle| + |Workers(p.acquired)| <= p.max - 1
  }

  lemma LivePrimaryBlocks(p: Pool)
    requires p.primary.None? && HasPrimary(p)
    ensures HasAcquiredPrimary(p.acquired) && |Workers(p.acquired)| + 1 <= |p.acquired|
  {
    var id: nat :| LivePrimary(p.acquired, id);
    assert p.acquired[id].conn.primary;
    SubsetSize(Workers(p.acquired) + {id}, p.acquired.Keys);
    assert |Workers(p.acquired) + {id}| == |Workers(p.acquired)| + 1;
    assert |p.acquired.Keys| == |p.acquired|;
  }

  lemma PutHealthy(acquired: map<nat, Held>, held: Held)
    requires held.conn.id !in acquired && held.status == NORMAL
    ensures held.conn.primary || HasLivePrimary(acquired) ==> HasLivePrimary(acquired[held.conn.id := held])
  {
    forall id: nat | LivePrimary(acquired, id) ensures LivePrimary(acquired[held.conn.id := held], id) {}
    if held.conn.primary {
      assert LivePrimary(acquired[held.conn.id := held], held.conn.id);
    }
  }

  lemma TryPrimaryHealthy(p: Pool, request: Request, env: Env)
    requires Connections(p) && Healthy(p)
    ensures Healthy(TryPrimary(p, request, env).0)
  {
    var (p', a) := TryPrimary(p, request, env);
    TryPrimaryKeeps(p, request, env);
    if p.primary.Some? {
      PutHealthy(p.acquired, p'.acquired[a.id]);
      WorkersPut(p.acquired, p'.acquired[a.id]);
    } else {
      LivePrimaryBlocks(p);
    }
  }

  lemma IdleTaken(p: Pool, p': Pool, id: nat)
    requires id !in p.acquired && id in p'.acquired && p'.acquired[id].conn.id == id
    requires p'.acquired == p.acquired[id := p'.acquired[id]] && p'.primary == p.primary
    requires !p'.acquired[id].conn.primary && p'.acquired[id].status == NORMAL
    ensures HasPrimary(p') == HasPrimary(p)
    ensures |p'.acquired| == |p.acquired| + 1 && |Workers(p'.acquired)| == |Workers(p.acquired)| + 1
  {
    WorkersPut(p.acquired, p'.acquired[id]);
    forall a: nat ensures LivePrimary(p'.acquired, a) <==> LivePrimary(p.acquired, a) {}
    if a: nat :| LivePrimary(p.acquired, a) {
      assert LivePrimary(p'.acquired, a);
    }
  }

  lemma TryIdleHealthy(p: Pool, request: Request, env: Env)
    requires Connections(p) && Healthy(p)
    ensures Healthy(TryIdle(p, request, env).0)
  {
    var (p', a) := TryIdle(p, request, env);
    TryIdleKeeps(p, request, env);
    if a.Got? {
      hide Connections;
      IdleTaken(p, p', a.id);
      if |p.idle| == 0 {
        WorkersBounded(p.acquired);
        if p.primary.None? {
          LivePrimaryBlocks(p);
        }
      }
      hide HasPrimary, Workers;
    }
  }

  lemma ServeHealthy(p: Pool, request: Request, env: Env)
    requires Connections(p) && Healthy(p)
    ensures Healthy(Serve(p, request, env).0)
  {
    hide Healthy;
    TryIdleKeeps(p, request, env);
    if request.flags.primaryAffinity || IdleBlocked(p) {
      TryPrimaryHealthy(p, request, env);
    } else {
      TryIdleHealthy(p, request, env);
    }
  }

  lemma {:induction false} ServeInOrderHealthy(p: Pool, i: nat, env: Env)
    requires Base(p) && i <= |p.queue| && Healthy(p)
    ensures Healthy(ServeInOrder(p, i, env))
    decreases |p.queue| - i
  {
    hide Serve, Connections, Queued, GrantsDistinct;
    if i < |p.queue| {
      var (p1, a) := Serve(p, p.queue[i].request, env);
      TurnBase(p, i, env);
      ServeHealthy(p, p.queue[i].request, env);
      match a
      case Got(id) => ServeInOrderHealthy(Dequeue(p1, i, Granted(id)), i, env);
      case Failed(error) => ServeInOrderHealthy(Dequeue(p1, i, Refused(error)), i, env);
      case Unavailable => ServeInOrderHealthy(p1, i + 1, env);
    }
  }

  lemma WakeHealthy(p: Pool, env: Env)
    requires Base(p) && p.open && Healthy(p)
    ensures Healthy(Wake(p, env))
  {
    WakeServesInOrder(p, 0, false, false, env);
    ServeInOrderHealthy(p, 0, env);
  }

  // The released connection put back, or closed because there is no room for it.
  lemma OtherPrimary(p: Pool, id: nat)
    requires id in p.acquired && !LivePrimary(p.acquired, id)
    ensures HasPrimary(Removed(p, id)) <==> HasPrimary(p)
  {
    forall a: nat ensures LivePrimary(p.acquired - {id}, a) <==> LivePrimary(p.acquired, a) && a != id {}
    if a: nat :| LivePrimary(p.acquired, a) {
      assert LivePrimary(p.acquired - {id}, a);
    }
  }

  lemma FewerWorkers(p: Pool, id: nat)
    requires id in p.acquired
    ensures |Workers(p.acquired - {id})| <= |Workers(p.acquired)|
    ensures id in Workers(p.acquired) ==> |Workers(p.acquired - {id})| == |Workers(p.acquired)| - 1
  {
    WorkersRemove(p.acquired, id);
    SubsetSize(Workers(p.acquired - {id}), Workers(p.acquired));
    if id in Workers(p.acquired) {
      assert Workers(p.acquired) == Workers(p.acquired - {id}) + {id};
    }
  }

  lemma PutBackHealthy(p: Pool, id: nat, conn: Conn)
    requires Base(p) && Healthy(p) && id in p.acquired && conn.id == id
    ensures var q := Removed(p, id);
            && (LivePrimary(p.acquired, id) ==> Healthy(q.(primary := Some(conn))))
            && (id in Workers(p.acquired) ==> Healthy(q.(idle := q.idle + [conn])))
            && (!LivePrimary(p.acquired, id) ==> Healthy(q))
  {
    hide Connections, Queued, GrantsDistinct;
    FewerWorkers(p, id);
    if !LivePrimary(p.acquired, id) {
      OtherPrimary(p, id);
    }
  }

  lemma ReleaseHealthy(p: Pool, id: nat, env: Env)
    requires Inv(p) && p.open && Healthy(p) && NotGranted(p, id) && id in p.acquired && NoFailures(env)
    ensures Healthy(Release(p, id, env).0)
  {
    var held := p.acquired[id];
    assert held.conn.id == id;
    hide Connections, Queued, GrantsDistinct, NoLostWakeup, Wake, Healthy;
    var q := Removed(p, id);
    if !held.conn.primary && |p.idle| >= p.max - 1 {
      PutBackHealthy(p, id, held.conn);
      assert CloseConnection(q, id).(closed := p.closed) == q;
      SameHealth(CloseConnection(q, id), q);
    } else {
      RecycledBase(p, id, env);
      var (r, conn) := Recycle(q, held, env);
      var r' := if conn.None? then r
                else if held.conn.primary then r.(primary := conn)
                else r.(idle := r.idle + [conn.value]);
      PutBackHealthy(p, id, if conn.None? then held.conn else conn.value);
      if conn.None? {
        SameHealth(r', q);
      }
      hide Base, Recycle;
      WakeHealthy(r', env);
    }
  }

  lemma SameHealth(p: Pool, q: Pool)
    requires p.primary == q.primary && p.idle == q.idle && p.acquired == q.acquired && p.max == q.max
    ensures Healthy(p) == Healthy(q)
  {
  }

  lemma InPlaceHealthy(p: Pool, config: Config, env: Env)
    requires Inv(p) && p.open && Healthy(p) && config.openFlags == p.config.openFlags && NoFailures(env)
    ensures Healthy(ReconfigureInPlace(p, config, env))
  {
    InvParts(p);
    BaseSized(p);
    NoExcess(p, config);
    var q := ReconfigureAll(p.(config := config), env);
    ReconfiguredBase(p, config, env);
    MarkedWorkers(p.acquired, RECONFIGURE);
    ReconfiguredParts(p.idle, config, env);
    assert Healthy(q) by {
      if id: nat :| LivePrimary(p.acquired, id) {
        assert LivePrimary(q.acquired, id);
      }
    }
    hide Base, Wake, Connections, Queued, GrantsDistinct, NoLostWakeup;
    WakeHealthy(q, env);
  }

  lemma ReopenHealthy(p: Pool, config: Config, env: Env)
    requires Inv(p) && p.open && !OpenFails(p.nextId, config, env)
    requires Wal(config) != Wal(p.config) ==> p.acquired == map[]
    ensures Healthy(Reopen(p, config, env).0)
  {
    hide Base, Wake, CloseAvailable, NoLostWakeup, Connections, Queued, GrantsDistinct, Reopen;
    CloseAvailableParts(p);
    var r := CloseAvailable(p);
    ReopenedBase(r, Conn(r.nextId, true, config, false), config);
    ReopenOnceClosed(p, config, env);
    MarkedWorkers(r.acquired, DISCARD);
    WakeHealthy(r.(nextId := r.nextId + 1, acquired := MarkAcquired(r.acquired, DISCARD),
                   primary := Some(Conn(r.nextId, true, config, false)), config := config, max := PoolSize(config)),
                     env);
  }

  lemma ReconfigureHealthy(p: Pool, config: Config, env: Env)
    requires Inv(p) && p.open && Healthy(p) && NoFailures(env) && config.path == p.config.path
    requires config.maxSqlCacheSize > 0
    ensures Healthy(Reconfigure(p, config, env).0)
  {
    hide Inv, Reopen, ReconfigureInPlace, Healthy;
    if !(p.acquired != map[] && (Wal(config) != Wal(p.config) || config.foreignKeys != p.config.foreignKeys)) {
      if config.openFlags != p.config.openFlags {
        CloseIdleKeeps(p);
        ReopenHealthy(if Wal(config) != Wal(p.config) then CloseIdle(p) else p, config, env);
      } else {
        InPlaceHealthy(p, config, env);
      }
    }
  }

  lemma CancelHealthy(p: Pool, ticket: nat, env: Env)
    requires Inv(p) && p.open && Healthy(p)
    ensures Healthy(Cancel(p, ticket, env))
  {
    var k := Position(p.queue, ticket, 0);
    if k < |p.queue| {
      DequeueBase(p, k, Refused(OperationCanceled));
      WakeHealthy(Dequeue(p, k, Refused(OperationCanceled)), env);
    }
  }

  ghost predicate HealthyWhileOpen(sys: System) {
    sys.pool.open ==> Healthy(sys.pool)
  }

  lemma NextHealthy(sys: System, step: Step)
    requires SystemInv(sys) && HealthyWhileOpen(sys) && StepWithoutFailures(step)
    ensures HealthyWhileOpen(Next(sys, step))
  {
    hide Healthy, Inv, Owned, Serve, Cancel, Release, Reconfigure;
    var p := sys.pool;
    if p.open {
      match step
      case SessionAcquires(_, request, _, env) =>
        InvParts(p);
        ServeHealthy(p, request, env);
        EnqueueHealthy(Serve(p, request, env).0, request);
      case SessionWakes(s) =>
        if s in sys.clients && sys.clients[s].Waiting? {
          CollectHealthy(p, sys.clients[s].ticket);
        }
      case SessionIsCanceled(s, env) =>
        if s in sys.clients && sys.clients[s].Waiting? {
          CancelHealthy(p, sys.clients[s].ticket, env);
        }
      case SessionReleases(s, env) =>
        if s in sys.clients && sys.clients[s].Holding? {
          OwnReleased(sys, s);
          ReleaseHealthy(p, sys.clients[s].id, env);
        }
      case PoolReconfigures(config, env) =>
        if config.path == p.config.path {
          ReconfigureHealthy(p, config, env);
        }
      case PoolCloses(env) =>
    } else {
      StaysClosed(sys, step);
    }
  }

  lemma OwnReleased(sys: System, s: nat)
    requires Owned(sys) && s in sys.clients && sys.clients[s].Holding?
    ensures sys.clients[s].id in sys.pool.acquired && NotGranted(sys.pool, sys.clients[s].id)
  {
  }

  lemma EnqueueHealthy(p: Pool, request: Request)
    requires Healthy(p)
    ensures Healthy(Enqueue(p, request))
  {
  }

  lemma CollectHealthy(p: Pool, ticket: nat)
    requires Healthy(p)
    ensures Healthy(Collect(p, ticket).0)
  {
  }

  lemma StaysClosed(sys: System, step: Step)
    requires SystemInv(sys) && !sys.pool.open
    ensures !Next(sys, step).pool.open
  {
  }

  lemma {:induction false} RunHealthy(sys: System, steps: seq<Step>)
    requires SystemInv(sys) && HealthyWhileOpen(sys)
    requires forall i :: 0 <= i < |steps| ==> StepWithoutFailures(steps[i])
    ensures HealthyWhileOpen(Run(sys, steps))
    decreases |steps|
  {
    hide SystemInv, HealthyWhileOpen, Next, StepWithoutFailures;
    if steps != [] {
      NextKeeps(sys, steps[0]);
      NextHealthy(sys, steps[0]);
      RunHealthy(Next(sys, steps[0]), steps[1..]);
    }
  }

  /** In a run without failures an open pool never has more connections, discarded ones aside, than its maximum. */
  lemma SizeBoundWithoutFailures(config: Config, env: Env, steps: seq<Step>)
    requires OpenPool(config, env).Some?
    requires forall i :: 0 <= i < |steps| ==> StepWithoutFailures(steps[i])
    ensures var pool := Run(System(OpenPool(config, env).value, map[]), steps).pool;
            pool.open ==> ConnectionCount(pool) <= pool.max
  {
    var start := System(OpenPool(config, env).value, map[]);
    OpenPoolKeeps(config, env);
    assert Owned(start) && HealthyWhileOpen(start) by {
      assert start.pool.acquired == map[] && start.pool.done == map[] && start.pool.queue == [];
      assert Workers(start.pool.acquired) == {};
    }
    hide Inv, Owned, Healthy, OpenPool;
    RunKeeps(start, steps);
    RunHealthy(start, steps);
    HealthyCount(Run(start, steps).pool);
  }

  lemma HealthyCount(p: Pool)
    requires Inv(p)
    ensures Healthy(p) ==> ConnectionCount(p) <= p.max
  {
    CountSplits(p);
  }

  const QUIET := Env({}, {}, {})
  const ANY_REQUEST := Request(None, Flags(false, false, false))
  const PRIMARY_REQUEST := Request(None, Flags(false, true, false))

  // The five states of the run below.
  ghost function Passing(config: Config, n: nat): Pool
    requires n <= 5 && config.maxSqlCacheSize > 0
  {
    var conn := Conn(0, true, config, false);
    var worker := Held(Conn(1, false, config, false), NORMAL);
    var p := OpenPool(config, QUIET).value;
    match n
    case 0 => p
    case 1 => p.(primary := None, acquired := map[0 := Held(conn, NORMAL)])
    case 2 => p.(primary := None, acquired := map[0 := Held(conn, RECONFIGURE)])
    case 3 => p.(primary := None, closed := {0})
    case 4 => p.(primary := None, closed := {0}, nextId := 2, acquired := map[1 := worker])
    case 5 => p.(primary := None, closed := {0}, nextId := 3,
                 acquired := map[1 := worker, 2 := Held(Conn(2, true, config, false), NORMAL)])
  }

  lemma ReconfigurePasses(config: Config)
    requires !Wal(config) && config.maxSqlCacheSize > 0
    ensures Reconfigure(Passing(config, 1), config, QUIET).0 == Passing(config, 2)
  {
    var p := Passing(config, 1);
    assert CloseExcess(p.(config := config, max := PoolSize(config))) == p by {
      assert Ids([]) == {};
    }
    assert ReconfigureAll(p, QUIET) == Passing(config, 2);
  }

  lemma ReleasePasses(config: Config)
    requires !Wal(config) && config.maxSqlCacheSize > 0
    ensures Release(Passing(config, 2), 0, Env({}, {0}, {})).0 == Passing(config, 3)
  {
  }

  lemma ServePasses(config: Config)
    requires !Wal(config) && config.maxSqlCacheSize > 0
    ensures Serve(Passing(config, 0), PRIMARY_REQUEST, QUIET) == (Passing(config, 1), Got(0))
    ensures Serve(Passing(config, 3), ANY_REQUEST, QUIET) == (Passing(config, 4), Got(1))
    ensures Serve(Passing(config, 4), PRIMARY_REQUEST, QUIET) == (Passing(config, 5), Got(2))
  {
  }

  ghost function PassingStep(config: Config, n: nat): Step
    requires n < 5
  {
    match n
    case 0 => SessionAcquires(0, PRIMARY_REQUEST, false, QUIET)
    case 1 => PoolReconfigures(config, QUIET)
    case 2 => SessionReleases(0, Env({}, {0}, {}))
    case 3 => SessionAcquires(1, ANY_REQUEST, false, QUIET)
    case 4 => SessionAcquires(2, PRIMARY_REQUEST, false, QUIET)
  }

  ghost function PassingSystem(config: Config, n: nat): System
    requires n <= 5 && config.maxSqlCacheSize > 0
  {
    System(Passing(config, n),
           if n == 0 || n == 3 then map[]
           else if n < 3 then map[0 := Holding(0, 1)]
           else if n == 4 then map[1 := Holding(1, 1)]
           else map[1 := Holding(1, 1), 2 := Holding(2, 1)])
  }

  lemma AcquiresPass(config: Config, n: nat)
    requires !Wal(config) && config.maxSqlCacheSize > 0 && n in {0, 3, 4}
    ensures Next(PassingSystem(config, n), PassingStep(config, n)) == PassingSystem(config, n + 1)
  {
    ServePasses(config);
    assert Passing(config, n).open;
    hide Serve, Passing;
  }

  lemma OtherStepsPass(config: Config, n: nat)
    requires !Wal(config) && config.maxSqlCacheSize > 0 && n in {1, 2}
    ensures Next(PassingSystem(config, n), PassingStep(config, n)) == PassingSystem(config, n + 1)
  {
    ReconfigurePasses(config);
    ReleasePasses(config);
    assert Passing(config, n).config == config;
    hide Reconfigure, Release, Passing;
    assert map[0 := Holding(0, 1)] - {0} == map[];
  }

  lemma NextPasses(config: Config, n: nat)
    requires !Wal(config) && config.maxSqlCacheSize > 0 && n < 5
    ensures Next(PassingSystem(config, n), PassingStep(config, n)) == PassingSystem(config, n + 1)
  {
    hide Next;
    if n in {0, 3, 4} {
      AcquiresPass(config, n);
    } else {
      OtherStepsPass(config, n);
    }
  }

  ghost function PassingScript(config: Config, n: nat): seq<Step>
    requires n <= 5
    decreases 5 - n
  {
    if n == 5 then [] else [PassingStep(config, n)] + PassingScript(config, n + 1)
  }

  lemma {:induction false} RunPasses(config: Config, n: nat)
    requires !Wal(config) && config.maxSqlCacheSize > 0 && n <= 5
    ensures Run(PassingSystem(config, n), PassingScript(config, n)) == PassingSystem(config, 5)
    decreases 5 - n
  {
    hide Next, PassingSystem, PassingStep;
    if n < 5 {
      NextPasses(config, n);
      RunPasses(config, n + 1);
      assert PassingScript(config, n)[1..] == PassingScript(config, n + 1);
    }
  }

  /**
   With a failure the bound can be passed: the released primary cannot be reconfigured and is
   closed, one session takes the room for a non-primary, and another reopens the primary.
   */
  lemma SizeBoundIsPassed(config: Config)
    requires !Wal(config) && config.maxSqlCacheSize > 0
    ensures exists sys :: Reachable(sys) && sys.pool.open && sys.pool.max == 1 && ConnectionCount(sys.pool) == 2
  {
    RunPasses(config, 0);
    var sys := PassingSystem(config, 5);
    assert FromOpening(config, QUIET, PassingScript(config, 0), sys);
    assert NotDiscarded(sys.pool.acquired) == {1, 2};
  }
}
