/** Every lock-held section keeps the invariant of the pool. */
module PoolSteps {
  import opened Wrappers
  import opened Configuration
  import opened PoolSpec
  import opened PoolInvariant
  import opened PoolWake

  // ---------------------------------------------------------------- opening and acquiring

  lemma OpenPoolKeeps(config: Config, env: Env)
    requires OpenPool(config, env).Some?
    ensures Inv(OpenPool(config, env).value) && OpenPool(config, env).value.open
  {
    var p := OpenPool(config, env).value;
    assert p.acquired == map[] && Workers(p.acquired) == {};
    forall id: nat ensures Live(p, id) <==> id == 0 {}
  }

  /** A pool opens exactly if its first connection does, and has that one, as the primary, and nothing else. */
  lemma OpensExactly(config: Config, env: Env)
    ensures OpenPool(config, env).Some? <==> 0 !in env.openFails && config.maxSqlCacheSize > 0
    ensures OpenPool(config, env).Some? ==>
              var p := OpenPool(config, env).value;
              && p.open && p.config == config && p.primary.Some? && p.primary.value.primary
              && p.primary.value.config == config && p.idle == [] && p.acquired == map[] && p.queue == []
              && p.closed == {}
  {
  }

  lemma {:induction false} InsertionPointSplits(queue: seq<Waiter>, priority: int, i: nat)
    requires Ordered(queue) && i <= |queue|
    requires forall j :: 0 <= j < i ==> priority <= Priority(queue[j].request)
    ensures var k := InsertionPoint(queue, priority, i);
            && (forall j :: 0 <= j < k ==> priority <= Priority(queue[j].request))
            && (forall j :: k <= j < |queue| ==> priority > Priority(queue[j].request))
    decreases |queue| - i
  {
    if i < |queue| && priority <= Priority(queue[i].request) {
      InsertionPointSplits(queue, priority, i + 1);
    } else if i < |queue| {
      forall j | i <= j < |queue| ensures priority > Priority(queue[j].request) {
        assert i < j ==> Before(queue[i], queue[j]);
      }
    }
  }

  lemma EnqueuedAt(queue: seq<Waiter>, w: Waiter, k: nat)
    requires k <= |queue|
    ensures var q := queue[..k] + [w] + queue[k..];
            q[k] == w && forall i :: 0 <= i < |q| && i != k ==> q[i] == queue[if i < k then i else i - 1]
  {
  }

  lemma EnqueuedOrdered(queue: seq<Waiter>, w: Waiter, k: nat)
    requires Ordered(queue) && k <= |queue|
    requires forall i :: 0 <= i < k ==> Before(queue[i], w)
    requires forall i :: k <= i < |queue| ==> Before(w, queue[i])
    ensures Ordered(queue[..k] + [w] + queue[k..])
  {
    EnqueuedAt(queue, w, k);
    hide Before;
  }

  lemma EnqueuedDistinct(queue: seq<Waiter>, w: Waiter, k: nat)
    requires k <= |queue| && forall i, j :: 0 <= i < j < |queue| ==> queue[i].ticket != queue[j].ticket
    requires forall i :: 0 <= i < |queue| ==> queue[i].ticket != w.ticket
    ensures var q := queue[..k] + [w] + queue[k..];
            forall i, j :: 0 <= i < j < |q| ==> q[i].ticket != q[j].ticket
  {
    EnqueuedAt(queue, w, k);
  }

  // The waiter joined at position k: behind those of the main thread, and behind the others
  // unless it is of the main thread itself.
  ghost predicate JoinedAt(queue: seq<Waiter>, w: Waiter, q: seq<Waiter>, k: nat) {
    && k < |q| && q[k] == w && q[..k] + q[k + 1..] == queue
    && (forall i :: 0 <= i < k && w.request.flags.interactive ==> q[i].request.flags.interactive)
    && (forall i :: k < i < |q| ==> w.request.flags.interactive && !q[i].request.flags.interactive)
  }

  lemma Joins(queue: seq<Waiter>, w: Waiter, k: nat)
    requires k <= |queue|
    requires forall i :: 0 <= i < k ==> Priority(w.request) <= Priority(queue[i].request)
    requires forall i :: k <= i < |queue| ==> Priority(w.request) > Priority(queue[i].request)
    ensures JoinedAt(queue, w, queue[..k] + [w] + queue[k..], k)
  {
    EnqueuedAt(queue, w, k);
    var q := queue[..k] + [w] + queue[k..];
    assert q[..k] == queue[..k] && q[k + 1..] == queue[k..];
    assert queue[..k] + queue[k..] == queue;
    forall i | 0 <= i < k && w.request.flags.interactive ensures q[i].request.flags.interactive {
      assert q[i] == queue[i];
    }
    forall i | k < i < |q| ensures w.request.flags.interactive && !q[i].request.flags.interactive {
      assert q[i] == queue[i - 1];
    }
  }

  /**
   A new waiter goes to the end of the queue, but one of the main thread before all those of
   other threads; the others stay as they were.
   */
  lemma EnqueuedBehind(p: Pool, request: Request)
    requires Ordered(p.queue)
    ensures exists k :: JoinedAt(p.queue, Waiter(p.nextTicket, request), Enqueue(p, request).queue, k)
  {
    var k := InsertionPoint(p.queue, Priority(request), 0);
    InsertionPointSplits(p.queue, Priority(request), 0);
    Joins(p.queue, Waiter(p.nextTicket, request), k);
    hide Ordered, InsertionPoint, JoinedAt, Priority;
    assert JoinedAt(p.queue, Waiter(p.nextTicket, request), Enqueue(p, request).queue, k);
  }

  lemma EnqueueQueued(p: Pool, request: Request)
    requires Queued(p) && p.open
    ensures Queued(Enqueue(p, request))
  {
    var k := InsertionPoint(p.queue, Priority(request), 0);
    var w := Waiter(p.nextTicket, request);
    InsertionPointSplits(p.queue, Priority(request), 0);
    EnqueuedOrdered(p.queue, w, k);
    EnqueuedDistinct(p.queue, w, k);
    EnqueuedAt(p.queue, w, k);
    hide Ordered, InsertionPoint, Before;
    var q := p.queue[..k] + [w] + p.queue[k..];
    forall i | 0 <= i < |q|
      ensures q[i].ticket < p.nextTicket + 1 && q[i].ticket !in p.done && q[i].ticket !in p.abandoned {}
    assert Enqueue(p, request).queue == q;
  }

  lemma EnqueueKeeps(p: Pool, request: Request)
    requires Inv(p) && p.open && Blocked(p, request)
    ensures Inv(Enqueue(p, request))
  {
    var p' := Enqueue(p, request);
    EnqueueQueued(p, request);
    forall id: nat ensures Live(p', id) <==> Live(p, id) {}
    forall w | w in p'.queue ensures w in p.queue || w.request == request {}
  }

  lemma ServeInv(p: Pool, request: Request, env: Env)
    requires Inv(p) && p.open
    ensures Inv(Serve(p, request, env).0)
  {
    var (p', a) := Serve(p, request, env);
    ServeKeeps(p, request, env);
    ServeBase(p, request, env);
    BlockedStays(p, request, env);
  }

  /**
   An acquire keeps the invariant, so nobody in the queue could be served afterwards; and it
   overtakes nobody: if it gets a connection at once, every queued waiter insists on the
   primary and the connection is not the primary.
   */
  lemma AcquireKeeps(p: Pool, request: Request, canceled: bool, env: Env)
    requires Inv(p)
    ensures Inv(Acquire(p, request, canceled, env).0)
    ensures var (p', r) := Acquire(p, request, canceled, env);
            r.Acquired? ==>
              && r.id in p'.acquired
              && (forall w :: w in p.queue ==>
                    w.request.flags.primaryAffinity && !p'.acquired[r.id].conn.primary)
  {
    if p.open && !canceled {
      var (p1, a) := Serve(p, request, env);
      ServeInv(p, request, env);
      ServeKeeps(p, request, env);
      TryIdleKeeps(p, request, env);
      TryPrimaryKeeps(p, request, env);
      if a == Unavailable {
        EnqueueKeeps(p1, request);
      }
    }
  }

  lemma CollectKeeps(p: Pool, ticket: nat)
    requires Inv(p)
    ensures Inv(Collect(p, ticket).0)
  {
    var p' := Collect(p, ticket).0;
    forall id: nat ensures Live(p', id) <==> Live(p, id) {}
  }

  lemma CancelKeeps(p: Pool, ticket: nat, env: Env)
    requires Inv(p)
    ensures Inv(Cancel(p, ticket, env))
  {
    var k := Position(p.queue, ticket, 0);
    if k < |p.queue| {
      DequeueBase(p, k, Refused(OperationCanceled));
      WakeKeeps(Dequeue(p, k, Refused(OperationCanceled)), env);
    }
  }

  // ---------------------------------------------------------------- releasing

  // The caller gives back a connection that is its own, not one assigned to a waiter.
  ghost predicate NotGranted(p: Pool, id: nat) {
    forall t :: t in p.done ==> p.done[t] != Granted(id)
  }

  // The released connection out of the acquired map, not yet anywhere else.
  ghost function Removed(p: Pool, id: nat): Pool {
    p.(acquired := p.acquired - {id})
  }

  lemma RemovedSized(p: Pool, id: nat)
    requires Sized(p) && id in p.acquired
    ensures Sized(Removed(p, id))
    ensures id in Workers(p.acquired) ==> |p.idle| + |Workers(p.acquired - {id})| < p.max
  {
    WorkersRemove(p.acquired, id);
    if id in Workers(p.acquired) {
      assert Workers(p.acquired) == Workers(p.acquired - {id}) + {id};
    } else {
      assert Workers(p.acquired) == Workers(p.acquired - {id});
    }
  }

  lemma RemovedPrimary(p: Pool, id: nat)
    requires OnePrimary(p) && id in p.acquired
    ensures OnePrimary(Removed(p, id))
    ensures LivePrimary(p.acquired, id) ==> forall a: nat :: !LivePrimary(p.acquired - {id}, a)
  {
    forall a: nat ensures LivePrimary(p.acquired - {id}, a) <==> LivePrimary(p.acquired, a) && a != id {}
  }

  lemma RemovedGrants(p: Pool, id: nat)
    requires ConfigAgrees(p) && Queued(p) && GrantsDistinct(p) && id in p.acquired && NotGranted(p, id)
    ensures ConfigAgrees(Removed(p, id)) && Queued(Removed(p, id)) && GrantsDistinct(Removed(p, id))
  {
    forall t | t in p.done && p.done[t].Granted? ensures p.done[t].id != id {
      assert p.done[t] != Granted(id);
    }
  }

  lemma RemovedParts(p: Pool, id: nat)
    requires Base(p) && id in p.acquired && NotGranted(p, id)
    ensures var q := Removed(p, id);
            && OnePrimary(q) && ConfigAgrees(q) && Queued(q) && GrantsDistinct(q) && Sized(q)
            && (LivePrimary(p.acquired, id) ==> forall a: nat :: !LivePrimary(q.acquired, a))
            && (id in Workers(p.acquired) ==> |q.idle| + |Workers(q.acquired)| < q.max)
  {
    hide OnePrimary, ConfigAgrees, Sized, Queued, GrantsDistinct, NotGranted;
    RemovedSized(p, id);
    RemovedPrimary(p, id);
    RemovedGrants(p, id);
  }

  lemma ClosedAccounted(p: Pool, id: nat)
    requires Accounted(p) && id in p.acquired
    ensures Accounted(CloseConnection(Removed(p, id), id))
  {
    var q := CloseConnection(Removed(p, id), id);
    forall a: nat ensures Live(q, a) <==> Live(p, a) && a != id {
      if a in Ids(p.idle) {
        var c :| c in p.idle && c.id == a;
      }
    }
  }

  lemma SlottedAccounted(p: Pool, id: nat, conn: Conn)
    requires Accounted(p) && id in p.acquired && conn.id == id && conn.primary && p.primary.None?
    ensures Accounted(Removed(p, id).(primary := Some(conn)))
  {
    var q := Removed(p, id).(primary := Some(conn));
    forall a: nat ensures Live(q, a) <==> Live(p, a) {}
    forall c | c in p.idle ensures c.id != id {}
  }

  lemma ShelvedAccounted(p: Pool, id: nat, conn: Conn)
    requires Accounted(p) && id in p.acquired && conn.id == id && !conn.primary
    ensures Accounted(Removed(p, id).(idle := p.idle + [conn]))
  {
    var q := Removed(p, id).(idle := p.idle + [conn]);
    IdsAppend(p.idle, [conn]);
    assert Ids([conn]) == {id};
    forall a: nat ensures Live(q, a) <==> Live(p, a) {}
    forall c | c in p.idle ensures c.id != id {}
  }

  /**
   The branch of a release that closes the connection without waking anyone leaves nobody
   waiting for it: the queue then accepts only the primary, or the pool is still full.
   */
  lemma ClosingNeedsNoWakeup(p: Pool, id: nat)
    requires Inv(p) && p.open && id in p.acquired && !p.acquired[id].conn.primary && |p.idle| >= p.max - 1
    ensures NoLostWakeup(CloseConnection(Removed(p, id), id))
  {
    var q := CloseConnection(Removed(p, id), id);
    if p.queue != [] {
      var a :| a in p.acquired && p.acquired[a].conn.primary;
      assert a in q.acquired && q.acquired[a].conn.primary;
      WorkersRemove(p.acquired, id);
      assert |q.acquired| >= 1 by {
        assert q.acquired.Keys >= {a};
        SubsetSize({a}, q.acquired.Keys);
      }
    }
  }

  /** The assertion on the release of the primary holds: if it is put back, its slot is empty. */
  lemma ReleaseAssertionHolds(p: Pool, id: nat, env: Env)
    requires Base(p) && id in p.acquired && p.acquired[id].conn.primary
    ensures Recycle(Removed(p, id), p.acquired[id], env).1.Some? ==> p.primary.None?
  {
    if p.acquired[id].status != DISCARD {
      assert LivePrimary(p.acquired, id);
    }
  }

  lemma PutBackPrimary(p: Pool, id: nat, conn: Conn)
    requires Base(p) && p.acquired.Keys >= {id} && NotGranted(p, id) && LivePrimary(p.acquired, id)
    requires conn.id == id && conn.primary && conn.config == p.config
    ensures Base(Removed(p, id).(primary := Some(conn)))
  {
    var q := Removed(p, id).(primary := Some(conn));
    SlottedAccounted(p, id, conn);
    hide Accounted;
    RemovedParts(p, id);
    assert OnePrimary(q) && ConfigAgrees(q) && Sized(q);
  }

  lemma PutBackIdle(p: Pool, id: nat, conn: Conn)
    requires Base(p) && id in Workers(p.acquired) && NotGranted(p, id) && |p.idle| < p.max - 1
    requires conn.id == id && !conn.primary && conn.config == p.config
    ensures Base(Removed(p, id).(idle := p.idle + [conn]))
  {
    var q := Removed(p, id).(idle := p.idle + [conn]);
    ShelvedAccounted(p, id, conn);
    hide Accounted;
    RemovedParts(p, id);
    assert OnePrimary(q) && ConfigAgrees(q) && Sized(q);
  }

  lemma RecycledBase(p: Pool, id: nat, env: Env)
    requires Base(p) && id in p.acquired && NotGranted(p, id)
    requires !p.acquired[id].conn.primary ==> |p.idle| < p.max - 1
    ensures var (q, conn) := Recycle(Removed(p, id), p.acquired[id], env);
            && (conn.None? ==> Base(q))
            && (conn.Some? && p.acquired[id].conn.primary ==> Base(q.(primary := conn)))
            && (conn.Some? && !p.acquired[id].conn.primary ==> Base(q.(idle := q.idle + [conn.value])))
  {
    var held := p.acquired[id];
    var (q, conn) := Recycle(Removed(p, id), held, env);
    assert held.conn.id == id;
    if conn.None? {
      ClosedBase(p, id);
    } else {
      assert conn.value.config == p.config;
      if held.conn.primary {
        PutBackPrimary(p, id, conn.value);
      } else {
        PutBackIdle(p, id, conn.value);
      }
    }
  }

  lemma ClosedBase(p: Pool, id: nat)
    requires Base(p) && id in p.acquired && NotGranted(p, id)
    ensures Base(CloseConnection(Removed(p, id), id))
  {
    RemovedParts(p, id);
    ClosedAccounted(p, id);
  }

  lemma ReleaseRefused(p: Pool, id: nat, env: Env)
    ensures Release(p, id, env).1 == (if id in p.acquired then None else Some(NotAcquired))
    ensures id !in p.acquired ==> Release(p, id, env).0 == p
  {
    hide Wake, Recycle;
  }

  lemma ReleaseKeeps(p: Pool, id: nat, env: Env)
    requires Inv(p) && NotGranted(p, id)
    ensures Inv(Release(p, id, env).0)
  {
    hide Base, NoLostWakeup, Wake, NotGranted;
    if id in p.acquired {
      var held := p.acquired[id];
      if !p.open {
        ClosedBase(p, id);
      } else if !held.conn.primary && |p.idle| >= p.max - 1 {
        ClosedBase(p, id);
        ClosingNeedsNoWakeup(p, id);
      } else {
        RecycledBase(p, id, env);
        var (q, conn) := Recycle(Removed(p, id), held, env);
        var r := if conn.None? then q
                 else if held.conn.primary then q.(primary := conn)
                 else q.(idle := q.idle + [conn.value]);
        WakeKeeps(r, env);
      }
    }
  }

  // ---------------------------------------------------------------- reconfiguring

  lemma MarkedWorkers(acquired: map<nat, Held>, status: Status)
    requires status != NORMAL
    ensures var marked := MarkAcquired(acquired, status);
            && |marked| == |acquired|
            && Workers(marked) == (if status == DISCARD then {} else Workers(acquired))
            && (forall id: nat :: LivePrimary(marked, id) <==> status != DISCARD && LivePrimary(acquired, id))
            && (HasAcquiredPrimary(marked) <==> HasAcquiredPrimary(acquired))
            && (forall id :: id in marked ==> marked[id].conn == acquired[id].conn && marked[id].status != NORMAL
                                              && (acquired[id].status == DISCARD ==> marked[id].status == DISCARD)
                                              && (acquired[id].status != DISCARD ==> marked[id].status == status))
  {
    var marked := MarkAcquired(acquired, status);
    assert |marked.Keys| == |marked| && |acquired.Keys| == |acquired|;
    if HasAcquiredPrimary(acquired) {
      var id :| id in acquired && acquired[id].conn.primary;
      assert marked[id].conn.primary;
    }
  }

  lemma CloseAvailableParts(p: Pool)
    requires Base(p)
    ensures var q := CloseAvailable(p);
            && Base(q) && q.primary.None? && q.idle == []
            && q == p.(primary := None, idle := [], closed := q.closed)
  {
    var q := CloseAvailable(p);
    forall id: nat ensures Live(q, id) <==> id in p.acquired {}
    forall id: nat ensures id in q.closed <==> id in p.closed || (Live(p, id) && id !in p.acquired) {}
  }

  // The state just before the wake-up in the branch that reopens the primary.
  lemma ReopenedBase(p: Pool, conn: Conn, config: Config)
    requires Base(p) && p.primary.None? && p.idle == [] && p.open
    requires conn.primary && conn.id == p.nextId && conn.config == config
    ensures Base(p.(nextId := p.nextId + 1,
                    acquired := MarkAcquired(p.acquired, DISCARD),
                    primary := Some(conn),
                    config := config,
                    max := PoolSize(config)))
  {
    MarkedWorkers(p.acquired, DISCARD);
    var q := p.(nextId := p.nextId + 1,
                acquired := MarkAcquired(p.acquired, DISCARD),
                primary := Some(conn),
                config := config,
                max := PoolSize(config));
    ReopenedAccounted(p, conn, config);
    hide Accounted, Live;
    assert OnePrimary(q) && ConfigAgrees(q) && Sized(q) && Queued(q);
  }

  lemma ReopenedAccounted(p: Pool, conn: Conn, config: Config)
    requires Accounted(p) && p.primary.None? && p.idle == [] && conn.primary && conn.id == p.nextId
    ensures Accounted(p.(nextId := p.nextId + 1,
                         acquired := MarkAcquired(p.acquired, DISCARD),
                         primary := Some(conn),
                         config := config,
                         max := PoolSize(config)))
  {
    var q := p.(nextId := p.nextId + 1,
                acquired := MarkAcquired(p.acquired, DISCARD),
                primary := Some(conn),
                config := config,
                max := PoolSize(config));
    assert p.nextId !in p.acquired by {
      assert !Live(p, p.nextId);
    }
    forall id: nat ensures Live(q, id) <==> Live(p, id) || id == p.nextId {}
  }

  // Closing what is available before or after the new primary is opened comes to the same.
  lemma ReopenOnceClosed(p: Pool, config: Config, env: Env)
    requires Base(p) && p.open && !OpenFails(p.nextId, config, env)
    ensures var q := CloseAvailable(p);
            Reopen(p, config, env) ==
            (Wake(q.(nextId := q.nextId + 1,
                     acquired := MarkAcquired(q.acquired, DISCARD),
                     primary := Some(Conn(q.nextId, true, config, false)),
                     config := config,
                     max := PoolSize(config)), env), None)
  {
    hide Wake, Base;
    var p1 := if Wal(config) != Wal(p.config) then CloseAvailable(p) else p;
    assert CloseAvailable(p1.(nextId := p1.nextId + 1)) == CloseAvailable(p).(nextId := p.nextId + 1) by {
      assert Ids([]) == {};
    }
  }

  lemma FailedReopen(p: Pool)
    requires Inv(p) && p.open
    ensures Inv(p.(nextId := p.nextId + 1, closed := p.closed + {p.nextId}))
  {
    FailedAccounted(p, p.(nextId := p.nextId + 1, closed := p.closed + {p.nextId}));
  }

  // With no connection acquired nobody can be waiting.
  lemma NothingAcquired(p: Pool)
    requires Inv(p) && p.open && p.acquired == map[]
    ensures p.queue == []
  {
    assert !HasAcquiredPrimary(p.acquired);
  }

  lemma WalReopenCloses(p: Pool)
    requires Inv(p) && p.open && p.acquired == map[]
    ensures Inv(CloseAvailable(p))
  {
    NothingAcquired(p);
    hide Connections;
    CloseAvailableParts(p);
  }

  lemma FailedReopenKeeps(p: Pool, config: Config, env: Env)
    requires Inv(p) && p.open && OpenFails(p.nextId, config, env)
    requires Wal(config) != Wal(p.config) ==> p.acquired == map[]
    ensures var (p', error) := Reopen(p, config, env);
            Inv(p') && p'.config == p.config && error.Some?
  {
    hide Inv;
    var q := if Wal(config) != Wal(p.config) then CloseAvailable(p) else p;
    if Wal(config) != Wal(p.config) {
      WalReopenCloses(p);
    }
    FailedReopen(q);
  }

  lemma ReopenKeeps(p: Pool, config: Config, env: Env)
    requires Inv(p) && p.open
    requires Wal(config) != Wal(p.config) ==> p.acquired == map[]
    ensures var (p', error) := Reopen(p, config, env);
            Inv(p') && p'.config == (if error.None? then config else p.config)
  {
    hide Base, Wake, CloseAvailable, Reopen, NoLostWakeup, Connections;
    if OpenFails(p.nextId, config, env) {
      FailedReopenKeeps(p, config, env);
    } else {
      CloseAvailableParts(p);
      var q := CloseAvailable(p);
      var conn := Conn(q.nextId, true, config, false);
      ReopenedBase(q, conn, config);
      ReopenOnceClosed(p, config, env);
      WakeKeeps(q.(nextId := q.nextId + 1, acquired := MarkAcquired(q.acquired, DISCARD), primary := Some(conn),
                   config := config, max := PoolSize(config)), env);
    }
  }

  lemma {:induction false} ReconfiguredParts(idle: seq<Conn>, config: Config, env: Env)
    requires forall i, j :: 0 <= i < j < |idle| ==> idle[i].id != idle[j].id
    requires forall c :: c in idle ==> !c.primary
    ensures var r := Reconfigured(idle, config, env);
            && |r| <= |idle|
            && Ids(r) == Ids(idle) - env.reconfigureFails
            && (forall i, j :: 0 <= i < j < |r| ==> r[i].id != r[j].id)
            && (forall c :: c in r ==> !c.primary && c.config == config && !c.readOnly)
  {
    if idle != [] {
      var head := if idle[0].id in env.reconfigureFails then []
                  else [idle[0].(config := config, readOnly := false)];
      var tail := Reconfigured(idle[1..], config, env);
      ReconfiguredParts(idle[1..], config, env);
      assert idle == [idle[0]] + idle[1..];
      IdsAppend([idle[0]], idle[1..]);
      IdsAppend(head, tail);
      assert Ids([idle[0]]) == {idle[0].id};
      assert Ids(head) == {idle[0].id} - env.reconfigureFails;
      forall c | c in tail ensures c.id != idle[0].id {
        assert c.id in Ids(tail);
        var d :| d in idle[1..] && d.id == c.id;
      }
    }
  }

  // As many idle connections are kept as there is room for, the first ones, and the others are closed.
  lemma CloseExcessExactly(p: Pool)
    ensures var q := CloseExcess(p);
            && q == p.(idle := q.idle, closed := q.closed) && q.idle <= p.idle
            && |q.idle| == (if |p.idle| < p.max then |p.idle| else if p.max <= 1 then 0 else p.max - 1)
            && (forall id: nat :: id in q.closed <==>
                  id in p.closed || exists i :: |q.idle| <= i < |p.idle| && p.idle[i].id == id)
  {
    hide Ids;
    var keep := if p.max - 1 < 0 then 0 else if p.max - 1 < |p.idle| then p.max - 1 else |p.idle|;
    IdsFrom(p.idle, keep);
  }

  lemma IdsFrom(idle: seq<Conn>, keep: nat)
    requires keep <= |idle|
    ensures forall id: nat :: id in Ids(idle[keep..]) <==> exists i :: keep <= i < |idle| && idle[i].id == id
  {
    var rest := idle[keep..];
    forall id: nat | id in Ids(rest) ensures exists i :: keep <= i < |idle| && idle[i].id == id {
      var c :| c in rest && c.id == id;
      var j :| 0 <= j < |rest| && rest[j] == c;
      assert idle[keep + j].id == id;
    }
    forall i | keep <= i < |idle| ensures idle[i].id in Ids(rest) {
      assert idle[i] == rest[i - keep];
      assert idle[i] in rest;
    }
  }

  /** With the same open flags the pool keeps its size, so there is never an excess connection to close. */
  lemma NoExcess(p: Pool, config: Config)
    requires Sized(p) && WalFlag(config.openFlags) == WalFlag(p.config.openFlags)
    ensures CloseExcess(p.(config := config, max := PoolSize(config))) == p.(config := config)
  {
    assert p.idle[..|p.idle|] == p.idle && Ids(p.idle[|p.idle|..]) == {};
  }

  lemma PrimaryReconfigured(p: Pool, env: Env)
    requires Accounted(p)
    ensures Accounted(ReconfigurePrimary(p, env))
  {
    var q := ReconfigurePrimary(p, env);
    if p.primary.Some? {
      var a := p.primary.value.id;
      forall id: nat ensures Live(q, id) <==> Live(p, id) && (id != a || a !in env.reconfigureFails) {}
    }
  }

  lemma IdleReconfigured(p: Pool, config: Config, env: Env)
    requires Accounted(p)
    ensures Accounted(p.(idle := Reconfigured(p.idle, config, env),
                         closed := p.closed + Ids(p.idle) * env.reconfigureFails))
  {
    var q := p.(idle := Reconfigured(p.idle, config, env), closed := p.closed + Ids(p.idle) * env.reconfigureFails);
    ReconfiguredParts(p.idle, config, env);
    forall id | id in Ids(p.idle) ensures id !in p.acquired {
      var c :| c in p.idle && c.id == id;
    }
    forall c | c in q.idle ensures c.id !in p.acquired {
      assert c.id in Ids(q.idle);
    }
    forall id: nat ensures Live(q, id) <==> Live(p, id) && (id !in Ids(p.idle) || id !in env.reconfigureFails) {}
  }

  lemma MarkedAccounted(p: Pool, status: Status)
    requires Accounted(p)
    ensures Accounted(p.(acquired := MarkAcquired(p.acquired, status)))
  {
    var q := p.(acquired := MarkAcquired(p.acquired, status));
    forall id: nat ensures Live(q, id) <==> Live(p, id) {}
  }

  lemma ReconfiguredAccounted(p: Pool, env: Env)
    requires Accounted(p)
    ensures Accounted(ReconfigureAll(p, env))
  {
    hide Accounted;
    PrimaryReconfigured(p, env);
    var q := ReconfigurePrimary(p, env);
    IdleReconfigured(q, q.config, env);
    MarkedAccounted(q.(idle := Reconfigured(q.idle, q.config, env),
                       closed := q.closed + Ids(q.idle) * env.reconfigureFails), RECONFIGURE);
  }

  lemma ReconfiguredAgrees(p: Pool, config: Config, env: Env)
    requires Accounted(p) && ConfigAgrees(p) && config.openFlags == p.config.openFlags
    ensures ConfigAgrees(ReconfigureAll(p.(config := config), env))
  {
    IdleAgrees(p.idle, config, env);
    MarkedAgrees(p.acquired);
    hide Accounted, MarkAcquired, Reconfigured, Ids;
  }

  lemma {:induction false} IdleAgrees(idle: seq<Conn>, config: Config, env: Env)
    ensures forall c :: c in Reconfigured(idle, config, env) ==> c.config == config
  {
    if idle != [] {
      IdleAgrees(idle[1..], config, env);
    }
  }

  lemma MarkedAgrees(acquired: map<nat, Held>)
    ensures var marked := MarkAcquired(acquired, RECONFIGURE);
            forall id :: id in marked ==>
              && id in acquired && marked[id].status != NORMAL && marked[id].conn == acquired[id].conn
              && (marked[id].status != DISCARD ==> acquired[id].status != DISCARD)
  {
  }

  lemma ReconfiguredSized(p: Pool, config: Config, env: Env)
    requires Accounted(p) && Sized(p) && config.openFlags == p.config.openFlags
    ensures Sized(ReconfigureAll(p.(config := config), env))
  {
    ReconfiguredParts(p.idle, config, env);
    MarkedWorkers(p.acquired, RECONFIGURE);
    ReconfiguredFields(p.(config := config), env);
    hide Accounted, MarkAcquired, Workers, Reconfigured, ReconfigureAll;
  }

  lemma ReconfiguredFields(p: Pool, env: Env)
    ensures var q := ReconfigureAll(p, env);
            && q.idle == Reconfigured(p.idle, p.config, env) && q.acquired == MarkAcquired(p.acquired, RECONFIGURE)
            && q.config == p.config && q.max == p.max
  {
  }

  lemma ReconfiguredPrimary(p: Pool, config: Config, env: Env)
    requires OnePrimary(p)
    ensures OnePrimary(ReconfigureAll(p.(config := config), env))
  {
    MarkedWorkers(p.acquired, RECONFIGURE);
    hide MarkAcquired, HasAcquiredPrimary, LivePrimary, Workers;
  }

  lemma ReconfiguredQueue(p: Pool, config: Config, env: Env)
    requires Queued(p) && GrantsDistinct(p)
    ensures var q := ReconfigureAll(p.(config := config), env);
            Queued(q) && GrantsDistinct(q)
  {
  }

  lemma NewConfigAccounted(p: Pool, config: Config)
    requires Accounted(p)
    ensures Accounted(p.(config := config))
  {
    forall id: nat ensures Live(p.(config := config), id) <==> Live(p, id) {}
  }

  lemma ReconfiguredBase(p: Pool, config: Config, env: Env)
    requires Base(p) && config.openFlags == p.config.openFlags
    ensures Base(ReconfigureAll(p.(config := config), env))
  {
    hide Accounted, OnePrimary, ConfigAgrees, Sized, Queued, GrantsDistinct, ReconfigureAll;
    NewConfigAccounted(p, config);
    ReconfiguredAccounted(p.(config := config), env);
    ReconfiguredSized(p, config, env);
    ReconfiguredPrimary(p, config, env);
    ReconfiguredAgrees(p, config, env);
    ReconfiguredQueue(p, config, env);
  }

  /**
   A reconfiguration keeps the invariant, so every connection that stays available carries the
   new configuration; when it throws, the configuration is the old one.
   */
  lemma ReconfigureKeeps(p: Pool, config: Config, env: Env)
    requires Inv(p) && config.path == p.config.path
    ensures var (p', error) := Reconfigure(p, config, env);
            Inv(p') && p'.config == (if error.None? then config else p.config)
  {
    hide Base, Wake, NoLostWakeup;
    if p.open && !(Wal(config) != Wal(p.config) && p.acquired != map[])
       && !(config.foreignKeys != p.config.foreignKeys && p.acquired != map[]) {
      if config.openFlags != p.config.openFlags {
        var p1 := if Wal(config) != Wal(p.config) then CloseIdle(p) else p;
        CloseIdleKeeps(p);
        ReopenKeeps(p1, config, env);
      } else {
        assert Sized(p) by {
          BaseSized(p);
        }
        NoExcess(p, config);
        ReconfiguredBase(p, config, env);
        WakeKeeps(ReconfigureAll(p.(config := config), env), env);
      }
    }
  }

  lemma BaseSized(p: Pool)
    requires Base(p)
    ensures Sized(p)
  {
  }

  lemma CloseIdleKeeps(p: Pool)
    requires Inv(p) && p.open
    ensures p.acquired == map[] ==> Inv(CloseIdle(p))
  {
    if p.acquired == map[] {
      NothingAcquired(p);
      var q := CloseIdle(p);
      forall id: nat ensures Live(q, id) <==> Live(p, id) && id !in Ids(p.idle) {}
      assert OnePrimary(q) && ConfigAgrees(q) && Sized(q) && Queued(q) && GrantsDistinct(q);
    }
  }

  /**
   A failed reopening leaves the available connections alone exactly when it does not also
   change the write-ahead logging mode (or when there were none): in that case they had to
   be closed first.
   */
  lemma FailedReopenTouches(p: Pool, config: Config, env: Env)
    requires Inv(p) && p.open && config.path == p.config.path
    requires Reconfigure(p, config, env).1 == Some(OpenFailed(p.nextId))
    ensures var p' := Reconfigure(p, config, env).0;
            && (p'.primary == p.primary && p'.idle == p.idle <==>
                  Wal(config) == Wal(p.config) || (p.primary.None? && p.idle == []))
            && p'.acquired == p.acquired && p'.config == p.config && p'.queue == p.queue
  {
    hide Inv, Wake;
  }

  /** A new pool, asked to change that mode, has no connection left when the new primary cannot be opened. */
  lemma FailedReopenLosesPrimary(config: Config, config': Config)
    requires config'.path == config.path && Wal(config') != Wal(config) && config.maxSqlCacheSize > 0
    ensures OpenPool(config, Env({}, {}, {})).Some?
    ensures var p := OpenPool(config, Env({}, {}, {})).value;
            var (p', exception) := Reconfigure(p, config', Env({1}, {}, {}));
            && Inv(p) && p.primary.Some? && exception == Some(OpenFailed(1))
            && p'.open && p'.config == config && p'.primary == None && p'.idle == []
  {
    OpenPoolKeeps(config, Env({}, {}, {}));
    hide Inv;
  }

  // ---------------------------------------------------------------- closing

  lemma {:induction false} WakeKeepsConfig(p: Pool, i: nat, noPrimary: bool, noIdle: bool, env: Env)
    requires i <= |p.queue|
    ensures WakeFrom(p, i, noPrimary, noIdle, env).config == p.config &&
            WakeFrom(p, i, noPrimary, noIdle, env).open == p.open
    decreases |p.queue| - i
  {
    hide ServeFlagged;
    if i < |p.queue| {
      var (p1, a, noPrimary1, noIdle1) := ServeFlagged(p, p.queue[i].request, noPrimary, noIdle, env);
      ServeFlaggedUntouched(p, p.queue[i].request, noPrimary, noIdle, env);
      match a
      case Got(id) => WakeKeepsConfig(Dequeue(p1, i, Granted(id)), i, noPrimary1, noIdle1, env);
      case Failed(error) => WakeKeepsConfig(Dequeue(p1, i, Refused(error)), i, noPrimary1, noIdle1, env);
      case Unavailable => WakeKeepsConfig(p1, i + 1, noPrimary1, noIdle1, env);
    }
  }

  // What an attempt never touches.
  ghost predicate Untouched(p: Pool, p': Pool) {
    && p'.open == p.open && p'.config == p.config && p'.queue == p.queue && p'.done == p.done
    && p'.abandoned == p.abandoned && p'.nextTicket == p.nextTicket
  }

  lemma AttemptsUntouched(p: Pool, request: Request, env: Env)
    ensures Untouched(p, TryIdle(p, request, env).0) && Untouched(p, TryPrimary(p, request, env).0)
  {
    OpenUntouched(p, true, request, env);
    OpenUntouched(p, false, request, env);
    hide OpenAndAcquire, HasAcquiredPrimary, PickIdle;
  }

  lemma OpenUntouched(p: Pool, primary: bool, request: Request, env: Env)
    ensures Untouched(p, OpenAndAcquire(p, primary, request, env).0)
  {
  }

  lemma ServeUntouched(p: Pool, request: Request, env: Env)
    ensures Untouched(p, Serve(p, request, env).0)
  {
    AttemptsUntouched(p, request, env);
    AttemptsUntouched(TryIdle(p, request, env).0, request, env);
    hide TryIdle, TryPrimary;
  }

  lemma ServeFlaggedUntouched(p: Pool, request: Request, noPrimary: bool, noIdle: bool, env: Env)
    ensures Untouched(p, ServeFlagged(p, request, noPrimary, noIdle, env).0)
  {
    AttemptsUntouched(p, request, env);
    AttemptsUntouched(TryIdle(p, request, env).0, request, env);
    hide TryIdle, TryPrimary;
  }

  /** A reconfiguration that throws leaves the pool its configuration; it never opens or closes the pool. */
  lemma ReconfigureTakesConfig(p: Pool, config: Config, env: Env)
    requires config.path == p.config.path
    ensures var (p', exception) := Reconfigure(p, config, env);
            p'.config == (if exception == None then config else p.config) && p'.open == p.open
  {
    forall q: Pool | true ensures Wake(q, env).config == q.config && Wake(q, env).open == q.open {
      WakeKeepsConfig(q, 0, false, false, env);
    }
  }

  // What a reconfiguration throws.
  function WhyRefused(p: Pool, config: Config, env: Env): Option<Error> {
    if Wal(config) != Wal(p.config) && p.acquired != map[] then Some(WalInUse)
    else if config.foreignKeys != p.config.foreignKeys && p.acquired != map[] then Some(ForeignKeysInUse)
    else if config.openFlags != p.config.openFlags && OpenFails(p.nextId, config, env) then Some(OpenFailed(p.nextId))
    else None
  }

  /**
   A connection that cannot be reconfigured is closed without an exception, so a change of
   anything but the open flags and the foreign key mode never throws.
   */
  lemma ReconfigureThrowsOnly(p: Pool, config: Config, env: Env)
    requires p.open && config.path == p.config.path
    ensures Reconfigure(p, config, env).1 == WhyRefused(p, config, env)
    ensures config.openFlags == p.config.openFlags && config.foreignKeys == p.config.foreignKeys ==>
              WhyRefused(p, config, env) == None
  {
    hide Wake, ReconfigureAll, CloseExcess;
  }

  // Only the closing of the connections counts: nobody is queued any more.
  lemma ClosedParts(p: Pool, r: Pool)
    requires Base(p) && !r.open && r.queue == [] && r.done == p.done && r.nextTicket == p.nextTicket
    requires r == p.(open := false, queue := [], abandoned := p.abandoned + Tickets(p.queue))
    requires p.primary.None? && p.idle == []
    ensures Inv(r)
  {
    hide Ordered;
    forall id: nat ensures Live(r, id) <==> Live(p, id) {}
    assert Queued(r) by {
      assert Ordered(r.queue) by {
        NobodyOrdered();
      }
    }
  }

  lemma NobodyOrdered()
    ensures Ordered([])
  {
  }

  /** Closing closes what is available and lets every waiter go without an outcome; only an open pool can be closed. */
  lemma CloseExactly(p: Pool, env: Env)
    ensures var (p', exception) := Close(p, env);
            && (exception == if p.open then None else Some(PoolClosed))
            && (!p.open ==> p' == p)
            && (p.open ==>
                  && !p'.open && p'.primary == None && p'.idle == [] && p'.queue == []
                  && p'.acquired == p.acquired && p'.done == p.done
                  && (forall t: nat :: t in p'.abandoned <==>
                        t in p.abandoned || exists w :: w in p.queue && w.ticket == t)
                  && (forall id: nat :: id in p'.closed <==>
                        || id in p.closed || (exists c :: c in p.idle && c.id == id)
                        || (p.primary.Some? && p.primary.value.id == id)))
  {
  }

  lemma CloseKeeps(p: Pool, env: Env)
    requires Inv(p)
    ensures Inv(Close(p, env).0)
  {
    if p.open {
      CloseAvailableParts(p);
      var q, r := CloseAvailable(p), Close(p, env).0;
      assert CloseAvailable(p.(open := false)) == q.(open := false);
      hide Inv, Base, CloseAvailable;
      ClosedParts(q, r);
    }
  }

  // ---------------------------------------------------------------- yielding

  /** Because the queue is ordered, the early exit of the search misses nobody. */
  lemma {:induction false} BlocksFromExact(queue: seq<Waiter>, holdingPrimary: bool, priority: int, i: nat)
    requires Ordered(queue) && i <= |queue|
    ensures BlocksFrom(queue, holdingPrimary, priority, i) <==>
            exists w :: w in queue[i..] && Priority(w.request) >= priority
                        && (holdingPrimary || !w.request.flags.primaryAffinity)
    decreases |queue| - i
  {
    if i < |queue| {
      assert queue[i..] == [queue[i]] + queue[i + 1..];
      if priority > Priority(queue[i].request) {
        forall w | w in queue[i..] ensures Priority(w.request) < priority {
          var j :| i <= j < |queue| && queue[j] == w;
          assert i < j ==> Before(queue[i], queue[j]);
        }
      } else {
        BlocksFromExact(queue, holdingPrimary, priority, i + 1);
      }
    }
  }

  /**
   A session should yield exactly when a waiter could use its connection, one of the main thread
   if the session is on that thread itself; only the owner of a connection may ask.
   */
  lemma ShouldYieldExact(p: Pool, id: nat, request: Request)
    requires Inv(p)
    ensures ShouldYield(p, id, request) == None <==> id !in p.acquired
    ensures id in p.acquired ==>
              ShouldYield(p, id, request) == Some(
                exists w :: w in p.queue && (w.request.flags.interactive || !request.flags.interactive)
                            && (p.acquired[id].conn.primary || !w.request.flags.primaryAffinity))
  {
    if id in p.acquired {
      BlocksFromExact(p.queue, p.acquired[id].conn.primary, Priority(request), 0);
      assert p.queue[0..] == p.queue;
    }
  }
}
