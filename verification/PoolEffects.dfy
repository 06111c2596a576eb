/**
 What becomes of a released connection, of a cancelled waiter, and of the connections in use when
 the pool is reconfigured.
 */
module PoolEffects {
  import opened Wrappers
  import opened Configuration
  import opened PoolSpec
  import opened PoolInvariant
  import opened PoolWake
  import opened PoolSteps

  // No connection that has a number already is closed.
  ghost predicate ClosesNothing(p: Pool, p': Pool) {
    p.nextId <= p'.nextId && forall id: nat :: id < p.nextId ==> (id in p'.closed <==> id in p.closed)
  }

  lemma AttemptCloses(p: Pool, request: Request, env: Env)
    ensures ClosesNothing(p, TryIdle(p, request, env).0) && ClosesNothing(p, TryPrimary(p, request, env).0)
  {
  }

  lemma ServeFlaggedCloses(p: Pool, request: Request, noPrimary: bool, noIdle: bool, env: Env)
    ensures ClosesNothing(p, ServeFlagged(p, request, noPrimary, noIdle, env).0)
  {
    AttemptCloses(p, request, env);
    AttemptCloses(TryIdle(p, request, env).0, request, env);
    hide TryIdle, TryPrimary;
  }

  lemma {:induction false} WakeFromCloses(p: Pool, i: nat, noPrimary: bool, noIdle: bool, env: Env)
    requires i <= |p.queue|
    ensures ClosesNothing(p, WakeFrom(p, i, noPrimary, noIdle, env))
    decreases |p.queue| - i
  {
    hide ServeFlagged;
    if i < |p.queue| {
      var (p1, a, noPrimary1, noIdle1) := ServeFlagged(p, p.queue[i].request, noPrimary, noIdle, env);
      ServeFlaggedUntouched(p, p.queue[i].request, noPrimary, noIdle, env);
      ServeFlaggedCloses(p, p.queue[i].request, noPrimary, noIdle, env);
      match a
      case Got(id) => WakeFromCloses(Dequeue(p1, i, Granted(id)), i, noPrimary1, noIdle1, env);
      case Failed(error) => WakeFromCloses(Dequeue(p1, i, Refused(error)), i, noPrimary1, noIdle1, env);
      case Unavailable => WakeFromCloses(p1, i + 1, noPrimary1, noIdle1, env);
    }
  }

  lemma WakeCloses(p: Pool, env: Env)
    ensures ClosesNothing(p, Wake(p, env))
  {
    WakeFromCloses(p, 0, false, false, env);
  }

  // The pool in which the waiters are woken after a release, if they are.
  ghost function PutBack(p: Pool, id: nat, env: Env): Pool
    requires id in p.acquired
  {
    var held := p.acquired[id];
    var (q, conn) := Recycle(Removed(p, id), held, env);
    if conn.None? then q else if held.conn.primary then q.(primary := conn) else q.(idle := q.idle + [conn.value])
  }

  /**
   A released connection is closed exactly if the pool is closed, it was to be discarded, it
   could not be reconfigured, or as a non-primary it finds no room. Otherwise it is in the
   pool, or already acquired again, with the configuration of the pool.
   */
  lemma ReleaseExactly(p: Pool, id: nat, env: Env)
    requires Inv(p) && id in p.acquired && NotGranted(p, id)
    ensures var (p', exception) := Release(p, id, env);
            var held := p.acquired[id];
            && exception == None
            && (id in p'.closed <==>
                  || !p.open || held.status == DISCARD
                  || (held.status == RECONFIGURE && id in env.reconfigureFails)
                  || (!held.conn.primary && |p.idle| >= p.max - 1))
            && (id !in p'.closed <==> Live(p', id))
            && (id in p'.acquired ==> p'.acquired[id].status == NORMAL && p'.acquired[id].conn.config == p.config)
  {
    hide Inv, Base, Wake, Advanced, NotGranted, NoLostWakeup, Live, ClosesNothing;
    ReleaseKeeps(p, id, env);
    InvAccounted(p, id);
    var held := p.acquired[id];
    if p.open && (held.conn.primary || |p.idle| < p.max - 1) {
      RecycledBase(p, id, env);
      var q := PutBack(p, id, env);
      assert Release(p, id, env).0 == Wake(q, env);
      WakeCloses(q, env);
      WakeKeeps(q, env);
      WokenParts(q, Wake(q, env), id);
    }
    AccountedFor(Release(p, id, env).0, id);
  }

  // Whoever comes first is served if no primary is out.
  lemma FirstIsServed(q: Pool, env: Env)
    requires Base(q) && q.open && q.queue != [] && !PrimaryBlocked(q)
    ensures q.queue[0].ticket in Wake(q, env).done
  {
    WakeServesInOrder(q, 0, false, false, env);
    var (q1, a) := Serve(q, q.queue[0].request, env);
    ServeKeeps(q, q.queue[0].request, env);
    TurnBase(q, 0, env);
    hide Serve, Base, PrimaryBlocked, Connections;
    var outcome := if a.Got? then Granted(a.id) else Refused(a.error);
    var r := Dequeue(q1, 0, outcome);
    assert q.queue[0].ticket in r.done;
    ServeInOrderAdvances(r, 0, env);
  }

  lemma PutBackUnblocks(p: Pool, id: nat, env: Env)
    requires id in p.acquired && p.acquired[id].conn.primary
    requires forall a :: a in p.acquired && p.acquired[a].conn.primary ==> a == id
    ensures !PrimaryBlocked(PutBack(p, id, env)) && PutBack(p, id, env).queue == p.queue
  {
  }

  /** When the last primary is released, whatever becomes of it, the first waiter gets an answer at once. */
  lemma LastPrimaryAnswers(p: Pool, id: nat, env: Env)
    requires Inv(p) && p.open && p.queue != [] && id in p.acquired && NotGranted(p, id) && p.acquired[id].conn.primary
    requires forall a :: a in p.acquired && p.acquired[a].conn.primary ==> a == id
    ensures p.queue[0].ticket in Release(p, id, env).0.done
  {
    PutBackUnblocks(p, id, env);
    hide Inv, Base, Wake, NotGranted, NoLostWakeup, PrimaryBlocked;
    InvAccounted(p, id);
    RecycledBase(p, id, env);
    FirstIsServed(PutBack(p, id, env), env);
  }

  // A connection that was out of the pool, or closed, before the waiters were woken.
  lemma WokenParts(q: Pool, p': Pool, id: nat)
    requires Inv(p') && Advanced(q, p') && ClosesNothing(q, p') && id < q.nextId && id !in q.acquired
    ensures id < p'.nextId && (id in p'.closed <==> id in q.closed)
    ensures id in p'.acquired ==> p'.acquired[id].status == NORMAL && p'.acquired[id].conn.config == q.config
  {
  }

  lemma InvAccounted(p: Pool, id: nat)
    requires Inv(p) && id in p.acquired
    ensures Base(p) && p.acquired[id].conn.id == id && id < p.nextId && id !in p.closed
  {
    assert Live(p, id);
  }

  lemma AccountedFor(p: Pool, id: nat)
    requires Inv(p) && id < p.nextId
    ensures id !in p.closed <==> Live(p, id)
  {
  }

  /** A cancelled waiter that was queued finds the exception, whatever else the cancellation sets going. */
  lemma CancelAnswers(p: Pool, ticket: nat, env: Env)
    requires Inv(p) && p.open
    ensures var p' := Cancel(p, ticket, env);
            if Position(p.queue, ticket, 0) < |p.queue| then
              ticket in p'.done && p'.done[ticket] == Refused(OperationCanceled)
            else p' == p
  {
    var k := Position(p.queue, ticket, 0);
    if k < |p.queue| {
      var q := Dequeue(p, k, Refused(OperationCanceled));
      DequeueBase(p, k, Refused(OperationCanceled));
      hide Inv, Base, Wake;
      WakeKeeps(q, env);
      assert ticket in q.done;
    }
  }

  /**
   A reconfiguration that succeeds discards every acquired connection when the open flags
   change, and has every one not to be discarded anyway reconfigured on its release when not.
   */
  lemma ReconfigureMarks(p: Pool, config: Config, env: Env)
    requires Inv(p) && p.open && config.path == p.config.path && Reconfigure(p, config, env).1 == None
    ensures var p' := Reconfigure(p, config, env).0;
            forall id :: id in p.acquired ==>
              && id in p'.acquired && p'.acquired[id].conn == p.acquired[id].conn
              && p'.acquired[id].status ==
                   (if config.openFlags != p.config.openFlags || p.acquired[id].status == DISCARD then DISCARD
                                            else RECONFIGURE)
  {
    hide Base, Wake, Advanced, NoLostWakeup, MarkAcquired;
    if config.openFlags != p.config.openFlags {
      if p.acquired != map[] {
        ReopenMarks(p, config, env);
      }
    } else {
      InPlaceMarks(p, config, env);
    }
  }

  lemma MarksKept(p: Pool, acquired: map<nat, Held>, status: Status, p': Pool)
    requires p.acquired == MarkAcquired(acquired, status) && Advanced(p, p')
    ensures forall id :: id in acquired ==>
              && id in p'.acquired && p'.acquired[id].conn == acquired[id].conn
              && p'.acquired[id].status == if acquired[id].status == DISCARD then DISCARD else status
  {
  }

  lemma ReopenMarks(p: Pool, config: Config, env: Env)
    requires Inv(p) && p.open && config.path == p.config.path && config.openFlags != p.config.openFlags
    requires p.acquired != map[] && Reconfigure(p, config, env).1 == None
    ensures var p' := Reconfigure(p, config, env).0;
            forall id :: id in p.acquired ==>
              && id in p'.acquired && p'.acquired[id].conn == p.acquired[id].conn && p'.acquired[id].status == DISCARD
  {
    hide Base, Wake, Advanced, NoLostWakeup, MarkAcquired, CloseAvailable;
    assert Reconfigure(p, config, env) == Reopen(p, config, env) && !OpenFails(p.nextId, config, env);
    CloseAvailableParts(p);
    var q := CloseAvailable(p);
    ReopenOnceClosed(p, config, env);
    ReopenedBase(q, Conn(q.nextId, true, config, false), config);
    var r := q.(nextId := q.nextId + 1,
                acquired := MarkAcquired(q.acquired, DISCARD),
                primary := Some(Conn(q.nextId, true, config, false)),
                config := config,
                max := PoolSize(config));
    WakeKeeps(r, env);
    MarksKept(r, p.acquired, DISCARD, Wake(r, env));
  }

  lemma InPlaceMarks(p: Pool, config: Config, env: Env)
    requires Inv(p) && p.open && config.path == p.config.path && config.openFlags == p.config.openFlags
    requires Reconfigure(p, config, env).1 == None
    ensures var p' := Reconfigure(p, config, env).0;
            forall id :: id in p.acquired ==>
              && id in p'.acquired && p'.acquired[id].conn == p.acquired[id].conn
              && p'.acquired[id].status == if p.acquired[id].status == DISCARD then DISCARD else RECONFIGURE
  {
    hide Base, Wake, Advanced, NoLostWakeup, MarkAcquired;
    BaseSized(p);
    NoExcess(p, config);
    ReconfiguredBase(p, config, env);
    var r := ReconfigureAll(p.(config := config), env);
    WakeKeeps(r, env);
    MarksKept(r, p.acquired, RECONFIGURE, Wake(r, env));
  }

  ghost predicate Available(p: Pool, id: nat) {
    (p.primary.Some? && p.primary.value.id == id) || exists c :: c in p.idle && c.id == id
  }

  // These connections have been closed, and no other that had a number.
  ghost predicate ClosedAlso(p: Pool, p': Pool, also: set<nat>) {
    forall id: nat :: id < p.nextId ==> (id in p'.closed <==> id in p.closed || id in also)
  }

  lemma IsClosedAlso(p: Pool, r: Pool, also: set<nat>)
    requires r.closed == p.closed + also
    ensures ClosedAlso(p, r, also)
  {
  }

  lemma ClosedThenWoken(p: Pool, r: Pool, also: set<nat>, env: Env)
    requires ClosedAlso(p, r, also) && p.nextId <= r.nextId
    ensures ClosedAlso(p, Wake(r, env), also)
  {
    WakeCloses(r, env);
    hide Wake;
  }

  ghost function AvailableIds(p: Pool): set<nat> {
    Ids(p.idle) + if p.primary.Some? then {p.primary.value.id} else {}
  }

  lemma AvailableIdsExact(p: Pool)
    ensures forall id: nat :: id in AvailableIds(p) <==> Available(p, id)
  {
  }

  lemma CloseAvailableCloses(p: Pool)
    ensures CloseAvailable(p).closed == p.closed + AvailableIds(p) && CloseAvailable(p).nextId == p.nextId
  {
  }

  lemma ReopenCloses(p: Pool, config: Config, env: Env)
    requires Base(p) && p.open && !OpenFails(p.nextId, config, env)
    ensures ClosedAlso(p, Reopen(p, config, env).0, AvailableIds(p))
  {
    hide *;
    ReopenOnceClosed(p, config, env);
    CloseAvailableCloses(p);
    var q := CloseAvailable(p);
    var r := q.(nextId := q.nextId + 1,
                acquired := MarkAcquired(q.acquired, DISCARD),
                primary := Some(Conn(q.nextId, true, config, false)),
                config := config,
                max := PoolSize(config));
    IsClosedAlso(p, r, AvailableIds(p));
    ClosedThenWoken(p, r, AvailableIds(p), env);
  }

  // Closing the idle connections first makes no difference.
  lemma IdleFirst(p: Pool, p': Pool)
    requires ClosedAlso(CloseIdle(p), p', AvailableIds(CloseIdle(p)))
    ensures ClosedAlso(p, p', AvailableIds(p))
  {
    assert AvailableIds(p) == AvailableIds(CloseIdle(p)) + Ids(p.idle);
  }

  lemma ReconfiguredCloses(p: Pool, env: Env)
    ensures var r := ReconfigureAll(p, env);
            r.closed == p.closed + AvailableIds(p) * env.reconfigureFails && r.nextId == p.nextId
  {
    hide MarkAcquired, Reconfigured;
  }

  lemma SameAvailable(p: Pool, config: Config)
    ensures AvailableIds(p.(config := config)) == AvailableIds(p)
  {
  }

  lemma InPlaceIs(p: Pool, config: Config, env: Env)
    requires CloseExcess(p.(config := config, max := PoolSize(config))) == p.(config := config)
    ensures ReconfigureInPlace(p, config, env) == Wake(ReconfigureAll(p.(config := config), env), env)
  {
    hide CloseExcess, ReconfigureAll, Wake;
  }

  lemma InPlaceCloses(p: Pool, config: Config, env: Env)
    requires Inv(p) && WalFlag(config.openFlags) == WalFlag(p.config.openFlags)
    ensures ClosedAlso(p, ReconfigureInPlace(p, config, env), AvailableIds(p) * env.reconfigureFails)
  {
    hide *;
    SizedParts(p);
    NoExcess(p, config);
    ReconfiguredCloses(p.(config := config), env);
    var r := ReconfigureAll(p.(config := config), env);
    SameAvailable(p, config);
    InPlaceIs(p, config, env);
    IsClosedAlso(p, r, AvailableIds(p) * env.reconfigureFails);
    ClosedThenWoken(p, r, AvailableIds(p) * env.reconfigureFails, env);
  }

  lemma SizedParts(p: Pool)
    requires Inv(p)
    ensures Base(p) && Sized(p)
  {
  }

  /**
   A reconfiguration that succeeds closes every available connection when the open flags change,
   and when not just those that cannot be reconfigured; it never closes one in use.
   */
  lemma ReconfigureCloses(p: Pool, config: Config, env: Env, id: nat)
    requires Inv(p) && p.open && config.path == p.config.path && Reconfigure(p, config, env).1 == None
    requires id < p.nextId
    ensures id in Reconfigure(p, config, env).0.closed <==>
              || id in p.closed
              || (Available(p, id) && (config.openFlags != p.config.openFlags || id in env.reconfigureFails))
  {
    AvailableIdsExact(p);
    SizedParts(p);
    hide Inv, Base, Sized, Available, AvailableIds, Reopen, ReconfigureInPlace;
    if config.openFlags == p.config.openFlags {
      InPlaceCloses(p, config, env);
    } else if Wal(config) == Wal(p.config) {
      NewOpens(p, config, env);
      ReopenCloses(p, config, env);
    } else {
      CloseIdleKeeps(p);
      SizedParts(CloseIdle(p));
      NewOpens(CloseIdle(p), config, env);
      ReopenCloses(CloseIdle(p), config, env);
      IdleFirst(p, Reopen(CloseIdle(p), config, env).0);
    }
  }

  lemma NewOpens(p: Pool, config: Config, env: Env)
    requires Reopen(p, config, env).1 == None
    ensures !OpenFails(p.nextId, config, env)
  {
  }

  ghost predicate HasCached(conn: Conn, sql: Option<string>, env: Env) {
    sql.Some? && (conn.id, sql.value) in env.cached
  }

  /**
   Of the idle connections the first that has the statement cached is taken; if none has, or no
   statement is named, the last one.
   */
  lemma PicksCached(idle: seq<Conn>, sql: Option<string>, env: Env)
    requires idle != []
    ensures var k := PickIdle(idle, sql, env);
            if exists i :: 0 <= i < |idle| && HasCached(idle[i], sql, env) then
              HasCached(idle[k], sql, env) && forall i :: 0 <= i < k ==> !HasCached(idle[i], sql, env)
            else
              k == |idle| - 1
  {
    if sql.Some? {
      FirstCachedExact(idle, sql.value, env, 0);
    }
  }

  // Whether the request reaches for the primary: it insists on it, or nothing else is left.
  ghost predicate WantsPrimary(p: Pool, request: Request) {
    request.flags.primaryAffinity || IdleBlocked(p)
  }

  // The request has to open a connection.
  ghost predicate HasToOpen(p: Pool, request: Request) {
    if WantsPrimary(p, request) then
      p.primary.None? && !HasAcquiredPrimary(p.acquired)
    else p.idle == []
  }

  ghost predicate OnlyNumbered(p: Pool, p': Pool) {
    p' == p.(nextId := p.nextId + 1, closed := p.closed + {p.nextId})
  }

  // One attempt fails exactly if it opens a connection and that fails.
  lemma AttemptFails(p: Pool, request: Request, env: Env)
    ensures var (p', a) := TryPrimary(p, request, env);
            && (a.Failed? <==>
                  p.primary.None? && !HasAcquiredPrimary(p.acquired) && OpenFails(p.nextId, p.config, env))
            && (a.Failed? ==> a.error == OpenFailed(p.nextId) && OnlyNumbered(p, p'))
    ensures var (p', a) := TryIdle(p, request, env);
            && (a.Failed? <==>
                  p.idle == [] && |p.acquired| + SlotCount(p) < p.max && OpenFails(p.nextId, p.config, env))
            && (a.Failed? ==> a.error == OpenFailed(p.nextId) && OnlyNumbered(p, p'))
  {
    hide HasAcquiredPrimary, OpenFails, PickIdle;
  }

  lemma ServeExactly(p: Pool, request: Request, env: Env)
    requires Connections(p)
    ensures var (p', a) := Serve(p, request, env);
            && (a.Failed? <==> HasToOpen(p, request) && OpenFails(p.nextId, p.config, env))
            && (a.Failed? ==> a.error == OpenFailed(p.nextId) && OnlyNumbered(p, p'))
            && (a.Got? ==> (p'.acquired[a.id].conn.primary <==> WantsPrimary(p, request)))
  {
    AttemptFails(p, request, env);
    hide Connections, OpenFails, TryIdle, TryPrimary, HasAcquiredPrimary, OnlyNumbered;
    if request.flags.primaryAffinity {
      TryPrimaryKeeps(p, request, env);
    } else {
      TryIdleKeeps(p, request, env);
      if IdleBlocked(p) {
        TryPrimaryKeeps(p, request, env);
      }
    }
  }

  lemma TookNormal(p: Pool, p': Pool, a: Attempt, request: Request)
    requires Connections(p') && Took(p, p', a, request) && a.Got?
    ensures p'.acquired[a.id].conn.config == p.config
  {
  }

  /**
   An acquire throws exactly if the pool is closed, or it was canceled, or it has to open a
   connection and that fails; it is queued exactly if there is nothing for it. Otherwise it gets a
   connection of its own for the access asked for, the primary only if it insists on it or no
   other is left.
   */
  lemma AcquireExactly(p: Pool, request: Request, canceled: bool, env: Env)
    requires Inv(p)
    ensures var (p', r) := Acquire(p, request, canceled, env);
            && (r == Threw(PoolClosed) <==> !p.open)
            && (r == Threw(OperationCanceled) <==> p.open && canceled)
            && (r == Threw(OpenFailed(p.nextId)) <==>
                  p.open && !canceled && HasToOpen(p, request) && OpenFails(p.nextId, p.config, env))
            && (r.Threw? ==> p' == p || OnlyNumbered(p, p'))
            && (r.Threw? ==> r.error in {PoolClosed, OperationCanceled, OpenFailed(p.nextId)})
            && (r.Enqueued? <==> p.open && !canceled && Blocked(p, request))
            && (r.Enqueued? ==> r.ticket == p.nextTicket && p' == Enqueue(p, request))
            && (r.Acquired? ==>
                  && r.id !in p.acquired && r.id in p'.acquired && p'.queue == p.queue
                  && p'.acquired[r.id].status == NORMAL && p'.acquired[r.id].conn.config == p.config
                  && p'.acquired[r.id].conn.readOnly == request.flags.readOnly
                  && (p'.acquired[r.id].conn.primary <==> WantsPrimary(p, request)))
  {
    if p.open && !canceled {
      ServeKeeps(p, request, env);
      ServeExactly(p, request, env);
      var (p', a) := Serve(p, request, env);
      if a.Got? {
        TookNormal(p, p', a, request);
      }
    }
    hide Inv, Connections, Serve, OpenFails, WantsPrimary, HasToOpen, Blocked;
  }

  /** What a woken thread finds, if the pool is open: its connection, its exception, or nothing yet. */
  lemma CollectExactly(p: Pool, ticket: nat)
    ensures var (p', r) := Collect(p, ticket);
            && (r == StillWaiting <==> p.open && ticket !in p.done)
            && (r == StillWaiting || !p.open ==> p' == p)
            && (!p.open ==> r == Raised(PoolClosed))
            && (p.open && ticket in p.done ==>
                  && ticket !in p'.done && p'.acquired == p.acquired
                  && (forall t :: t in p.done && t != ticket ==> t in p'.done && p'.done[t] == p.done[t])
                  && (forall id :: r == Returned(id) <==> p.done[ticket] == Granted(id))
                  && (forall e :: r == Raised(e) <==> p.done[ticket] == Refused(e)))
  {
  }

  /** A thread whose wait is canceled, or whose pool is closed, finds that when it wakes up. */
  lemma WakesToException(p: Pool, ticket: nat, env: Env)
    requires Inv(p) && p.open && exists w :: w in p.queue && w.ticket == ticket
    ensures Collect(Cancel(p, ticket, env), ticket).1 == Raised(OperationCanceled)
    ensures Collect(Close(p, env).0, ticket).1 == Raised(PoolClosed)
  {
    CancelAnswers(p, ticket, env);
    CancelKeepsOpen(p, ticket, env);
    hide Cancel;
  }

  lemma CancelKeepsOpen(p: Pool, ticket: nat, env: Env)
    ensures Cancel(p, ticket, env).open == p.open
  {
    var k := Position(p.queue, ticket, 0);
    if k < |p.queue| && p.open {
      WakeKeepsConfig(Dequeue(p, k, Refused(OperationCanceled)), 0, false, false, env);
    }
  }

  lemma {:induction false} FirstCachedExact(idle: seq<Conn>, sql: string, env: Env, i: nat)
    requires i <= |idle|
    ensures var k := FirstCached(idle, sql, env, i);
            && (k == -1 ==> forall j :: i <= j < |idle| ==> (idle[j].id, sql) !in env.cached)
            && (k != -1 ==> (idle[k].id, sql) in env.cached && forall j :: i <= j < k ==>
                  (idle[j].id, sql) !in env.cached)
    decreases |idle| - i
  {
    if i < |idle| && (idle[i].id, sql) !in env.cached {
      FirstCachedExact(idle, sql, env, i + 1);
    }
  }
}
