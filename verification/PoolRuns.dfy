/**
 Whole runs: any number of sessions using one pool, interleaved in any way at the
 granularity of the lock-held sections.
 */
module PoolRuns {
  import opened Wrappers
  import opened Configuration
  import opened PoolSpec
  import opened PoolInvariant
  import opened PoolWake
  import opened PoolSteps

  // What a session has: a place in the queue, or a connection with its use count.
  datatype Client = Waiting(ticket: nat) | Holding(id: nat, uses: nat)

  // A session that is not in the map has neither.
  datatype System = System(pool: Pool, clients: map<nat, Client>)

  datatype Step =
    | SessionAcquires(session: nat, request: Request, canceled: bool, env: Env)
    | SessionWakes(session: nat)
    | SessionIsCanceled(session: nat, env: Env)
    | SessionReleases(session: nat, env: Env)
    | PoolReconfigures(config: Config, env: Env)
    | PoolCloses(env: Env)

  function Next(sys: System, step: Step): System {
    match step
    case SessionAcquires(s, request, canceled, env) =>
      if s in sys.clients then
        (match sys.clients[s]
         case Waiting(_) => sys      // its thread is parked
         case Holding(id, uses) => sys.(clients := sys.clients[s := Holding(id, uses + 1)]))
      else
        var (pool, r) := Acquire(sys.pool, request, canceled, env);
        (match r
         case Acquired(id) => System(pool, sys.clients[s := Holding(id, 1)])
         case Enqueued(ticket) => System(pool, sys.clients[s := Waiting(ticket)])
         case Threw(_) => sys.(pool := pool))
    case SessionWakes(s) =>
      if s in sys.clients && sys.clients[s].Waiting? then
        var (pool, r) := Collect(sys.pool, sys.clients[s].ticket);
        (match r
         case Returned(id) => System(pool, sys.clients[s := Holding(id, 1)])
         case Raised(_) => System(pool, sys.clients - {s})
         case StillWaiting => sys)
      else sys
    case SessionIsCanceled(s, env) =>
      if s in sys.clients && sys.clients[s].Waiting? then
        sys.(pool := Cancel(sys.pool, sys.clients[s].ticket, env))
      else sys
    case SessionReleases(s, env) =>
      if s in sys.clients && sys.clients[s].Holding? then
        if sys.clients[s].uses > 1 then
          sys.(clients := sys.clients[s := Holding(sys.clients[s].id, sys.clients[s].uses - 1)])
        else
          System(Release(sys.pool, sys.clients[s].id, env).0, sys.clients - {s})
      else sys
    case PoolReconfigures(config, env) =>
      if config.path == sys.pool.config.path then
        sys.(pool := Reconfigure(sys.pool, config, env).0)
      else sys
    case PoolCloses(env) =>
      sys.(pool := Close(sys.pool, env).0)
  }

  function Run(sys: System, steps: seq<Step>): System
    decreases |steps|
  {
    if steps == [] then sys else Run(Next(sys, steps[0]), steps[1..])
  }

  // ---------------------------------------------------------------- ownership

  // A session's connection is acquired, is assigned to no waiter, and is no other session's.
  ghost predicate HoldersDistinct(sys: System) {
    && (forall s :: s in sys.clients && sys.clients[s].Holding? ==>
          && sys.clients[s].uses >= 1
          && sys.clients[s].id in sys.pool.acquired
          && NotGranted(sys.pool, sys.clients[s].id))
    && (forall s, r | s in sys.clients && r in sys.clients && sys.clients[s].Holding? && sys.clients[r].Holding? ::
          sys.clients[s].id == sys.clients[r].id ==> s == r)
  }

  ghost predicate InQueue(p: Pool, ticket: nat) {
    exists w :: w in p.queue && w.ticket == ticket
  }

  // While the pool is open, a waiting session's waiter is queued or has its outcome, and is its own.
  ghost predicate WaitersDistinct(sys: System) {
    && (forall s :: s in sys.clients && sys.clients[s].Waiting? ==> sys.clients[s].ticket < sys.pool.nextTicket)
    && (sys.pool.open ==>
          forall s :: s in sys.clients && sys.clients[s].Waiting? ==>
            sys.clients[s].ticket in sys.pool.done || InQueue(sys.pool, sys.clients[s].ticket))
    && (forall s, r | s in sys.clients && r in sys.clients && sys.clients[s].Waiting? && sys.clients[r].Waiting? ::
          sys.clients[s].ticket == sys.clients[r].ticket ==> s == r)
  }

  ghost predicate HeldBySomeone(sys: System, id: nat) {
    || (exists s :: s in sys.clients && sys.clients[s].Holding? && sys.clients[s].id == id)
    || (exists t :: t in sys.pool.done && sys.pool.done[t] == Granted(id))
  }

  ghost predicate TicketOfSomeone(sys: System, ticket: nat) {
    exists s :: s in sys.clients && sys.clients[s] == Waiting(ticket)
  }

  // While the pool is open, no acquired connection and no waiter has been forgotten.
  ghost predicate NothingForgotten(sys: System) {
    sys.pool.open ==>
      && (forall id :: id in sys.pool.acquired ==> HeldBySomeone(sys, id))
      && (forall t :: t in sys.pool.done ==> TicketOfSomeone(sys, t))
      && (forall w :: w in sys.pool.queue ==> TicketOfSomeone(sys, w.ticket))
  }

  ghost predicate Owned(sys: System) {
    HoldersDistinct(sys) && WaitersDistinct(sys) && NothingForgotten(sys)
  }

  ghost predicate SystemInv(sys: System) {
    Inv(sys.pool) && Owned(sys)
  }

  lemma ServedForgotten(sys: System, s: nat, pool: Pool, id: nat)
    requires NothingForgotten(sys) && s !in sys.clients && pool.open == sys.pool.open
    requires pool.acquired.Keys == sys.pool.acquired.Keys + {id} && pool.done == sys.pool.done &&
             pool.queue == sys.pool.queue
    ensures NothingForgotten(System(pool, sys.clients[s := Holding(id, 1)]))
  {
    var sys' := System(pool, sys.clients[s := Holding(id, 1)]);
    assert sys'.clients[s].id == id;
    KeptTickets(sys, sys');
    if pool.open {
      forall a | a in pool.acquired ensures HeldBySomeone(sys', a) {
        if a != id {
          assert HeldBySomeone(sys, a);
          if r :| r in sys.clients && sys.clients[r].Holding? && sys.clients[r].id == a {
            assert sys'.clients[r].id == a;
          }
        }
      }
    }
  }

  // A session without a connection is given one that nobody had.
  lemma ServedOwned(sys: System, s: nat, pool: Pool, id: nat)
    requires Owned(sys) && GrantsDistinct(sys.pool) && s !in sys.clients && id !in sys.pool.acquired
    requires pool.open == sys.pool.open && pool.acquired.Keys == sys.pool.acquired.Keys + {id}
    requires pool.done == sys.pool.done && pool.queue == sys.pool.queue && pool.nextTicket == sys.pool.nextTicket
    ensures Owned(System(pool, sys.clients[s := Holding(id, 1)]))
  {
    hide HoldersDistinct, WaitersDistinct, NothingForgotten, GrantsDistinct;
    ServedHolders(sys, s, pool, id);
    ServedWaiters(sys, s, pool, id);
    ServedForgotten(sys, s, pool, id);
  }

  lemma ServedHolders(sys: System, s: nat, pool: Pool, id: nat)
    requires HoldersDistinct(sys) && GrantsDistinct(sys.pool) && s !in sys.clients && id !in sys.pool.acquired
    requires pool.acquired.Keys == sys.pool.acquired.Keys + {id} && pool.done == sys.pool.done
    ensures HoldersDistinct(System(pool, sys.clients[s := Holding(id, 1)]))
  {
    forall a | NotGranted(sys.pool, a) ensures NotGranted(pool, a) {}
  }

  lemma ServedWaiters(sys: System, s: nat, pool: Pool, id: nat)
    requires WaitersDistinct(sys) && s !in sys.clients && pool.open == sys.pool.open
    requires pool.done == sys.pool.done && pool.queue == sys.pool.queue && pool.nextTicket == sys.pool.nextTicket
    ensures WaitersDistinct(System(pool, sys.clients[s := Holding(id, 1)]))
  {
    forall t | InQueue(sys.pool, t) ensures InQueue(pool, t) {}
  }

  // Tickets stay with the sessions that have them.
  lemma KeptTickets(sys: System, sys': System)
    requires forall s :: s in sys.clients && sys.clients[s].Waiting? ==>
               s in sys'.clients && sys'.clients[s] == sys.clients[s]
    ensures forall t :: TicketOfSomeone(sys, t) ==> TicketOfSomeone(sys', t)
  {
    forall t | TicketOfSomeone(sys, t) ensures TicketOfSomeone(sys', t) {
      var s :| s in sys.clients && sys.clients[s] == Waiting(t);
      assert sys'.clients[s] == Waiting(t);
    }
  }

  lemma EnqueuedMembers(p: Pool, request: Request)
    ensures forall w :: w in Enqueue(p, request).queue <==> w in p.queue || w == Waiter(p.nextTicket, request)
    ensures forall t :: InQueue(p, t) || t == p.nextTicket ==> InQueue(Enqueue(p, request), t)
  {
    var q := Enqueue(p, request).queue;
    var k := InsertionPoint(p.queue, Priority(request), 0);
    assert q[k] == Waiter(p.nextTicket, request);
    forall w | w in p.queue ensures w in q {
      var i :| 0 <= i < |p.queue| && p.queue[i] == w;
      assert q[if i < k then i else i + 1] == w;
    }
  }

  lemma EnqueuedHolders(sys: System, s: nat, request: Request, client: Client)
    requires HoldersDistinct(sys) && s !in sys.clients && client.Waiting?
    ensures HoldersDistinct(System(Enqueue(sys.pool, request), sys.clients[s := client]))
  {
    forall a | NotGranted(sys.pool, a) ensures NotGranted(Enqueue(sys.pool, request), a) {}
  }

  lemma EnqueuedWaiters(sys: System, s: nat, request: Request)
    requires WaitersDistinct(sys) && s !in sys.clients
    ensures WaitersDistinct(System(Enqueue(sys.pool, request), sys.clients[s := Waiting(sys.pool.nextTicket)]))
  {
    EnqueuedMembers(sys.pool, request);
  }

  lemma EnqueuedForgotten(sys: System, s: nat, request: Request)
    requires NothingForgotten(sys) && sys.pool.open && s !in sys.clients
    ensures NothingForgotten(System(Enqueue(sys.pool, request), sys.clients[s := Waiting(sys.pool.nextTicket)]))
  {
    var pool := Enqueue(sys.pool, request);
    var sys' := System(pool, sys.clients[s := Waiting(sys.pool.nextTicket)]);
    assert sys'.clients[s] == Waiting(sys.pool.nextTicket);
    EnqueuedMembers(sys.pool, request);
    KeptTickets(sys, sys');
    hide InsertionPoint, InQueue;
    forall id | id in pool.acquired ensures HeldBySomeone(sys', id) {
      assert HeldBySomeone(sys, id);
      if r :| r in sys.clients && sys.clients[r].Holding? && sys.clients[r].id == id {
        assert sys'.clients[r].id == id;
      }
    }
    hide HeldBySomeone;
  }

  lemma EnqueuedOwned(sys: System, s: nat, request: Request)
    requires Owned(sys) && sys.pool.open && s !in sys.clients
    ensures Owned(System(Enqueue(sys.pool, request), sys.clients[s := Waiting(sys.pool.nextTicket)]))
  {
    hide HoldersDistinct, WaitersDistinct, NothingForgotten, Enqueue;
    EnqueuedHolders(sys, s, request, Waiting(sys.pool.nextTicket));
    EnqueuedWaiters(sys, s, request);
    EnqueuedForgotten(sys, s, request);
  }

  lemma InvParts(p: Pool)
    requires Inv(p)
    ensures Base(p) && Connections(p) && Queued(p) && GrantsDistinct(p)
  {
  }

  lemma FreshOwned(sys: System, s: nat, request: Request, env: Env)
    requires SystemInv(sys) && sys.pool.open && s !in sys.clients
    ensures Owned(Next(sys, SessionAcquires(s, request, false, env)))
  {
    hide Serve, Inv, Owned, Connections, Queued, GrantsDistinct, Blocked, Enqueue;
    var (pool, a) := Serve(sys.pool, request, env);
    InvParts(sys.pool);
    ServeKeeps(sys.pool, request, env);
    match a
    case Got(id) => ServedOwned(sys, s, pool, id);
    case Unavailable => EnqueuedOwned(sys, s, request);
    case Failed(_) => SamePoolOwned(sys, pool);
  }

  lemma AcquiresOwned(sys: System, step: Step)
    requires SystemInv(sys) && step.SessionAcquires?
    ensures SystemInv(Next(sys, step))
  {
    hide Inv, Owned, Serve;
    var s := step.session;
    if s in sys.clients {
      if sys.clients[s].Holding? {
        ReholdOwned(sys, s, Holding(sys.clients[s].id, sys.clients[s].uses + 1));
      }
    } else {
      AcquireKeeps(sys.pool, step.request, step.canceled, step.env);
      if sys.pool.open && !step.canceled {
        FreshOwned(sys, s, step.request, step.env);
      }
    }
  }

  // Another use count for the same connection.
  lemma ReholdOwned(sys: System, s: nat, client: Client)
    requires Owned(sys) && s in sys.clients && sys.clients[s].Holding?
    requires client.Holding? && client.id == sys.clients[s].id && client.uses >= 1
    ensures Owned(sys.(clients := sys.clients[s := client]))
  {
    var sys' := sys.(clients := sys.clients[s := client]);
    forall id | HeldBySomeone(sys, id) ensures HeldBySomeone(sys', id) {
      if r :| r in sys.clients && sys.clients[r].Holding? && sys.clients[r].id == id {
        assert sys'.clients[r].id == id;
      }
    }
    KeptTickets(sys, sys');
  }

  lemma SamePoolOwned(sys: System, pool: Pool)
    requires Owned(sys)
    requires pool.open == sys.pool.open && pool.acquired.Keys == sys.pool.acquired.Keys
    requires pool.done == sys.pool.done && pool.queue == sys.pool.queue && pool.nextTicket == sys.pool.nextTicket
    ensures Owned(sys.(pool := pool))
  {
    var sys' := sys.(pool := pool);
    forall id | HeldBySomeone(sys, id) ensures HeldBySomeone(sys', id) {}
    KeptTickets(sys, sys');
    forall t | InQueue(sys.pool, t) ensures InQueue(pool, t) {}
  }

  lemma AdvancedForgotten(sys: System, pool: Pool)
    requires NothingForgotten(sys) && Advanced(sys.pool, pool)
    ensures NothingForgotten(sys.(pool := pool))
  {
    var sys' := sys.(pool := pool);
    KeptTickets(sys, sys');
    if pool.open {
      forall id | id in pool.acquired ensures HeldBySomeone(sys', id) {
        if id in sys.pool.acquired {
          assert HeldBySomeone(sys, id);
          if t :| t in sys.pool.done && sys.pool.done[t] == Granted(id) {
            assert pool.done[t] == Granted(id);
          }
        }
      }
    }
  }

  // The pool advances: waiters are granted connections or refused, nothing else changes hands.
  lemma AdvancedOwned(sys: System, pool: Pool)
    requires Owned(sys) && Base(pool) && Advanced(sys.pool, pool)
    ensures Owned(sys.(pool := pool))
  {
    hide Advanced, HoldersDistinct, WaitersDistinct, NothingForgotten;
    AdvancedHolders(sys, pool);
    AdvancedWaiters(sys, pool);
    AdvancedForgotten(sys, pool);
  }

  lemma AdvancedHolders(sys: System, pool: Pool)
    requires HoldersDistinct(sys) && Advanced(sys.pool, pool)
    ensures HoldersDistinct(sys.(pool := pool))
  {
    forall s | s in sys.clients && sys.clients[s].Holding? ensures NotGranted(pool, sys.clients[s].id) {
      forall t | t in pool.done ensures pool.done[t] != Granted(sys.clients[s].id) {
        if t in sys.pool.done {
          assert sys.pool.done[t] != Granted(sys.clients[s].id);
        }
      }
    }
  }

  lemma AdvancedWaiters(sys: System, pool: Pool)
    requires WaitersDistinct(sys) && Advanced(sys.pool, pool)
    ensures WaitersDistinct(sys.(pool := pool))
  {
    forall t | InQueue(sys.pool, t) ensures t in pool.done || InQueue(pool, t) {
      var w :| w in sys.pool.queue && w.ticket == t;
    }
  }

  lemma WakesOwned(sys: System, step: Step)
    requires SystemInv(sys) && step.SessionWakes?
    ensures SystemInv(Next(sys, step))
  {
    var s := step.session;
    if s in sys.clients && sys.clients[s].Waiting? {
      var t := sys.clients[s].ticket;
      var (pool, r) := Collect(sys.pool, t);
      CollectKeeps(sys.pool, t);
      hide Inv;
      if r != StillWaiting {
        CollectedHolders(sys, s);
        CollectedRest(sys, s);
      }
    }
  }

  // After the wake-up the session holds what its waiter was granted, or nothing.
  lemma CollectedHolders(sys: System, s: nat)
    requires SystemInv(sys) && s in sys.clients && sys.clients[s].Waiting?
    requires Collect(sys.pool, sys.clients[s].ticket).1 != StillWaiting
    ensures HoldersDistinct(Next(sys, SessionWakes(s)))
  {
    var sys' := Next(sys, SessionWakes(s));
    var t := sys.clients[s].ticket;
    forall r | r in sys'.clients && sys'.clients[r].Holding? && r != s
      ensures NotGranted(sys'.pool, sys'.clients[r].id)
      ensures sys.pool.open && sys.pool.done[t].Granted? ==> sys.pool.done[t].id != sys'.clients[r].id
    {
      assert NotGranted(sys.pool, sys.clients[r].id);
    }
    if sys.pool.open && sys.pool.done[t].Granted? {
      var id := sys.pool.done[t].id;
      forall u | u in sys'.pool.done ensures sys'.pool.done[u] != Granted(id) {
        assert u in sys.pool.done && u != t;
      }
    }
  }

  lemma CollectedWaiters(sys: System, s: nat)
    requires Inv(sys.pool) && WaitersDistinct(sys) && s in sys.clients && sys.clients[s].Waiting?
    requires Collect(sys.pool, sys.clients[s].ticket).1 != StillWaiting
    ensures WaitersDistinct(Next(sys, SessionWakes(s)))
  {
    hide Inv;
    var sys' := Next(sys, SessionWakes(s));
    forall u | InQueue(sys.pool, u) ensures InQueue(sys'.pool, u) {}
  }

  // Everybody else keeps what they had, and the session has what its waiter was granted.
  lemma CollectedHeld(sys: System, s: nat)
    requires NothingForgotten(sys) && sys.pool.open && s in sys.clients && sys.clients[s].Waiting?
    requires Collect(sys.pool, sys.clients[s].ticket).1 != StillWaiting
    ensures var sys' := Next(sys, SessionWakes(s));
            && (forall id :: id in sys'.pool.acquired ==> HeldBySomeone(sys', id))
            && (forall u :: u != sys.clients[s].ticket && TicketOfSomeone(sys, u) ==> TicketOfSomeone(sys', u))
  {
    var sys' := Next(sys, SessionWakes(s));
    var t := sys.clients[s].ticket;
    forall u | u != t && TicketOfSomeone(sys, u) ensures TicketOfSomeone(sys', u) {
      var r :| r in sys.clients && sys.clients[r] == Waiting(u);
      assert sys'.clients[r] == Waiting(u);
    }
    forall id | id in sys'.pool.acquired ensures HeldBySomeone(sys', id) {
      assert HeldBySomeone(sys, id);
      if r :| r in sys.clients && sys.clients[r].Holding? && sys.clients[r].id == id {
        assert sys'.clients[r].id == id;
      } else {
        var u :| u in sys.pool.done && sys.pool.done[u] == Granted(id);
        if u == t {
          assert sys'.clients[s].id == id;
        } else {
          assert sys'.pool.done[u] == Granted(id);
        }
      }
    }
  }

  lemma QueuedNotDone(p: Pool)
    requires Inv(p)
    ensures forall w :: w in p.queue ==> w.ticket !in p.done
  {
  }

  lemma CollectedRest(sys: System, s: nat)
    requires SystemInv(sys) && s in sys.clients && sys.clients[s].Waiting?
    requires Collect(sys.pool, sys.clients[s].ticket).1 != StillWaiting
    ensures WaitersDistinct(Next(sys, SessionWakes(s))) && NothingForgotten(Next(sys, SessionWakes(s)))
  {
    hide Inv, HoldersDistinct;
    CollectedWaiters(sys, s);
    if sys.pool.open {
      CollectedHeld(sys, s);
      QueuedNotDone(sys.pool);
      hide WaitersDistinct, HeldBySomeone, TicketOfSomeone;
    }
  }

  lemma CanceledOwned(sys: System, step: Step)
    requires SystemInv(sys) && step.SessionIsCanceled?
    ensures SystemInv(Next(sys, step))
  {
    var s := step.session;
    if s in sys.clients && sys.clients[s].Waiting? {
      var p := sys.pool;
      var k := Position(p.queue, sys.clients[s].ticket, 0);
      CancelKeeps(p, sys.clients[s].ticket, step.env);
      if k < |p.queue| {
        var q := Dequeue(p, k, Refused(OperationCanceled));
        DequeueBase(p, k, Refused(OperationCanceled));
        WakeKeeps(q, step.env);
        DequeuedAdvances(p, k);
        hide Base, Advanced, Wake, Owned, Dequeue;
        AdvancedTransitive(p, q, Wake(q, step.env));
        assert Base(Wake(q, step.env));
        AdvancedOwned(sys, Wake(q, step.env));
      }
    }
  }

  lemma DequeuedAdvances(p: Pool, k: nat)
    requires Queued(p) && k < |p.queue|
    ensures Advanced(p, Dequeue(p, k, Refused(OperationCanceled)))
  {
    assert p.queue == p.queue[..k] + [p.queue[k]] + p.queue[k + 1..];
  }

  // The state after a session gave its connection back and before anyone else was served.
  lemma GivenBackOwned(sys: System, s: nat, pool: Pool)
    requires Owned(sys) && s in sys.clients && sys.clients[s].Holding?
    requires pool.open == sys.pool.open && pool.acquired.Keys == sys.pool.acquired.Keys - {sys.clients[s].id}
    requires pool.done == sys.pool.done && pool.queue == sys.pool.queue && pool.nextTicket == sys.pool.nextTicket
    ensures Owned(System(pool, sys.clients - {s}))
  {
    var sys' := System(pool, sys.clients - {s});
    KeptTickets(sys, sys');
    assert HoldersDistinct(sys');
    forall id | id in pool.acquired && HeldBySomeone(sys, id) ensures HeldBySomeone(sys', id) {
      if r :| r in sys.clients && sys.clients[r].Holding? && sys.clients[r].id == id {
        assert sys'.clients[r].id == id;
      }
    }
    forall t | InQueue(sys.pool, t) ensures InQueue(pool, t) {}
    assert WaitersDistinct(sys');
    assert NothingForgotten(sys');
  }

  // A release is a connection put aside or closed, followed by a wake-up or nothing.
  lemma ReleaseShape(p: Pool, id: nat, env: Env) returns (q: Pool)
    requires Inv(p) && id in p.acquired && NotGranted(p, id)
    ensures Base(q) && q.open == p.open && q.acquired.Keys == p.acquired.Keys - {id}
    ensures q.done == p.done && q.queue == p.queue && q.nextTicket == p.nextTicket && q.max == p.max
    ensures Release(p, id, env).0 == q || (p.open && Release(p, id, env).0 == Wake(q, env))
  {
    hide Base, NoLostWakeup, Wake, NotGranted;
    var held := p.acquired[id];
    if !p.open || (!held.conn.primary && |p.idle| >= p.max - 1) {
      ClosedBase(p, id);
      q := CloseConnection(Removed(p, id), id);
    } else {
      RecycledBase(p, id, env);
      var (r, conn) := Recycle(Removed(p, id), held, env);
      q := if conn.None? then r
           else if held.conn.primary then r.(primary := conn)
           else r.(idle := r.idle + [conn.value]);
    }
  }

  lemma ReleasesOwned(sys: System, step: Step)
    requires SystemInv(sys) && step.SessionReleases?
    ensures SystemInv(Next(sys, step))
  {
    var s := step.session;
    if s in sys.clients && sys.clients[s].Holding? {
      var id := sys.clients[s].id;
      if sys.clients[s].uses > 1 {
        ReholdOwned(sys, s, Holding(id, sys.clients[s].uses - 1));
      } else {
        ReleaseKeeps(sys.pool, id, step.env);
        var q := ReleaseShape(sys.pool, id, step.env);
        GivenBackOwned(sys, s, q);
        hide Owned, Base, Release, Inv, NotGranted, Wake;
        if Release(sys.pool, id, step.env).0 != q {
          WakeKeeps(q, step.env);
          assert Base(Wake(q, step.env)) by {
            InvParts(Wake(q, step.env));
          }
          AdvancedOwned(System(q, sys.clients - {s}), Wake(q, step.env));
        }
      }
    }
  }

  // What a reconfiguration does to the connections in use and to the waiters, before the wake-up: nothing.
  ghost predicate SameHands(p: Pool, q: Pool) {
    && q.open == p.open && q.acquired.Keys == p.acquired.Keys
    && q.done == p.done && q.queue == p.queue && q.nextTicket == p.nextTicket
  }

  lemma ReopenShape(p: Pool, config: Config, env: Env) returns (q: Pool)
    requires Inv(p) && p.open
    requires Wal(config) != Wal(p.config) ==> p.acquired == map[]
    ensures Base(q) && SameHands(p, q)
    ensures Reopen(p, config, env).0 == q || Reopen(p, config, env).0 == Wake(q, env)
  {
    hide Base, NoLostWakeup, Wake, CloseAvailable, Wal;
    CloseAvailableParts(p);
    var r := CloseAvailable(p);
    if OpenFails(p.nextId, config, env) {
      FailedReopenKeeps(p, config, env);
      q := Reopen(p, config, env).0;
      assert Base(q);
    } else {
      ReopenedBase(r, Conn(r.nextId, true, config, false), config);
      ReopenOnceClosed(p, config, env);
      q := r.(nextId := r.nextId + 1, acquired := MarkAcquired(r.acquired, DISCARD),
              primary := Some(Conn(r.nextId, true, config, false)), config := config, max := PoolSize(config));
    }
  }

  lemma ReconfiguredHands(p: Pool, config: Config, env: Env)
    ensures SameHands(p, ReconfigureAll(p.(config := config), env))
  {
    hide Reconfigured, Ids;
  }

  lemma InPlaceShape(p: Pool, config: Config, env: Env) returns (q: Pool)
    requires Inv(p) && p.open && config.openFlags == p.config.openFlags
    ensures Base(q) && SameHands(p, q) && ReconfigureInPlace(p, config, env) == Wake(q, env)
  {
    InvParts(p);
    BaseSized(p);
    NoExcess(p, config);
    ReconfiguredHands(p, config, env);
    hide Base, Wake, Inv, Sized, CloseExcess, ReconfigureAll, SameHands;
    ReconfiguredBase(p, config, env);
    q := ReconfigureAll(p.(config := config), env);
  }

  lemma ReconfigureShape(p: Pool, config: Config, env: Env) returns (q: Pool)
    requires Inv(p) && p.open && config.path == p.config.path
    ensures Base(q) && SameHands(p, q)
    ensures Reconfigure(p, config, env).0 == q || Reconfigure(p, config, env).0 == Wake(q, env)
  {
    InvParts(p);
    hide Base, Wake, Inv, Reopen, ReconfigureInPlace;
    var p1 := if Wal(config) != Wal(p.config) then CloseIdle(p) else p;
    if p.acquired != map[] && (Wal(config) != Wal(p.config) || config.foreignKeys != p.config.foreignKeys) {
      q := p;
    } else if config.openFlags == p.config.openFlags {
      q := InPlaceShape(p, config, env);
    } else {
      CloseIdleKeeps(p);
      q := ReopenShape(p1, config, env);
    }
  }

  lemma ReconfiguresOwned(sys: System, step: Step)
    requires SystemInv(sys) && step.PoolReconfigures?
    ensures SystemInv(Next(sys, step))
  {
    var p := sys.pool;
    if step.config.path == p.config.path && p.open {
      ReconfigureKeeps(p, step.config, step.env);
      var q := ReconfigureShape(p, step.config, step.env);
      hide Inv, Base, Owned, Reconfigure, Wake;
      SamePoolOwned(sys, q);
      if Reconfigure(p, step.config, step.env).0 != q {
        WakeKeeps(q, step.env);
        assert Base(Wake(q, step.env)) by {
          InvParts(Wake(q, step.env));
        }
        AdvancedOwned(sys.(pool := q), Wake(q, step.env));
      }
    }
  }

  lemma ClosedHolders(sys: System, pool: Pool)
    requires HoldersDistinct(sys) && pool.acquired == sys.pool.acquired && pool.done == sys.pool.done
    ensures HoldersDistinct(sys.(pool := pool))
  {
    forall a | NotGranted(sys.pool, a) ensures NotGranted(pool, a) {}
  }

  lemma ClosesOwned(sys: System, step: Step)
    requires SystemInv(sys) && step.PoolCloses?
    ensures SystemInv(Next(sys, step))
  {
    hide Inv, HoldersDistinct;
    CloseKeeps(sys.pool, step.env);
    ClosedHolders(sys, Close(sys.pool, step.env).0);
  }

  /** One step of any session, or a reconfiguration or the closing of the pool, keeps the system's invariant. */
  lemma NextKeeps(sys: System, step: Step)
    requires SystemInv(sys)
    ensures SystemInv(Next(sys, step))
  {
    hide SystemInv, Next;
    match step
    case SessionAcquires(_, _, _, _) => AcquiresOwned(sys, step);
    case SessionWakes(_) => WakesOwned(sys, step);
    case SessionIsCanceled(_, _) => CanceledOwned(sys, step);
    case SessionReleases(_, _) => ReleasesOwned(sys, step);
    case PoolReconfigures(_, _) => ReconfiguresOwned(sys, step);
    case PoolCloses(_) => ClosesOwned(sys, step);
  }

  lemma {:induction false} RunKeeps(sys: System, steps: seq<Step>)
    requires SystemInv(sys)
    ensures SystemInv(Run(sys, steps))
    decreases |steps|
  {
    hide SystemInv, Next;
    if steps != [] {
      NextKeeps(sys, steps[0]);
      RunKeeps(Next(sys, steps[0]), steps[1..]);
    }
  }

  ghost predicate Reachable(sys: System) {
    exists config, env, steps :: FromOpening(config, env, steps, sys)
  }

  ghost predicate FromOpening(config: Config, env: Env, steps: seq<Step>, sys: System) {
    OpenPool(config, env).Some? && sys == Run(System(OpenPool(config, env).value, map[]), steps)
  }

  /** Every system reached from the opening of a pool satisfies the invariant. */
  lemma ReachableInv(sys: System)
    requires Reachable(sys)
    ensures SystemInv(sys)
  {
    var config, env, steps :| FromOpening(config, env, steps, sys);
    var start := System(OpenPool(config, env).value, map[]);
    OpenPoolKeeps(config, env);
    hide Inv;
    assert Owned(start) by {
      assert start.pool.acquired == map[] && start.pool.done == map[] && start.pool.queue == [];
    }
    RunKeeps(start, steps);
  }

  // ---------------------------------------------------------------- what it means

  /** In every reachable open pool no queued waiter could be served, whichever opens would fail. */
  lemma NobodyWaitsInVain(sys: System, w: Waiter, env: Env)
    requires Reachable(sys) && sys.pool.open && w in sys.pool.queue
    ensures Serve(sys.pool, w.request, env) == (sys.pool, Unavailable)
  {
    ReachableInv(sys);
    ServeKeeps(sys.pool, w.request, env);
  }

  /** In every reachable pool the waiters of the main thread come first, and otherwise whoever came first. */
  lemma MainThreadFirst(sys: System, i: nat, j: nat)
    requires Reachable(sys) && i < j < |sys.pool.queue|
    ensures var a, b := sys.pool.queue[i], sys.pool.queue[j];
            && (b.request.flags.interactive ==> a.request.flags.interactive)
            && (a.request.flags.interactive == b.request.flags.interactive ==> a.ticket < b.ticket)
  {
    ReachableInv(sys);
  }

  ghost predicate HeldBy(sys: System, s: nat, id: nat) {
    s in sys.clients && sys.clients[s].Holding? && sys.clients[s].id == id
  }

  ghost predicate GrantedTo(p: Pool, t: nat, id: nat) {
    t in p.done && p.done[t] == Granted(id)
  }

  /**
   While the pool is open every acquired connection has exactly one owner, a session or a waiter,
   and is not available.
   */
  lemma OneOwner(sys: System, id: nat)
    requires Reachable(sys) && sys.pool.open && id in sys.pool.acquired
    ensures (exists s :: HeldBy(sys, s, id)) || (exists t :: GrantedTo(sys.pool, t, id))
    ensures forall s, t :: HeldBy(sys, s, id) ==> !GrantedTo(sys.pool, t, id)
    ensures forall s, r :: HeldBy(sys, s, id) && HeldBy(sys, r, id) ==> s == r
    ensures forall t, u :: GrantedTo(sys.pool, t, id) && GrantedTo(sys.pool, u, id) ==> t == u
    ensures id !in Ids(sys.pool.idle) && (sys.pool.primary.Some? ==> sys.pool.primary.value.id != id)
  {
    ReachableInv(sys);
    assert HeldBySomeone(sys, id);
    if s :| s in sys.clients && sys.clients[s].Holding? && sys.clients[s].id == id {
      assert HeldBy(sys, s, id);
    } else {
      var t :| t in sys.pool.done && sys.pool.done[t] == Granted(id);
      assert GrantedTo(sys.pool, t, id);
    }
    forall c | c in sys.pool.idle ensures c.id != id {}
  }

  /**
   No deadlock: while someone is queued in an open pool, a primary is held by a session that may
   release it, or granted to a waiter that only has to wake up.
   */
  lemma SomeoneCanGoOn(sys: System)
    requires Reachable(sys) && sys.pool.open && sys.pool.queue != []
    ensures exists id | id in sys.pool.acquired ::
              && sys.pool.acquired[id].conn.primary
              && ((exists s :: HeldBy(sys, s, id)) || (exists t :: GrantedTo(sys.pool, t, id)))
  {
    ReachableInv(sys);
    assert HasAcquiredPrimary(sys.pool.acquired);
    hide SystemInv, Reachable;
    var id :| id in sys.pool.acquired && sys.pool.acquired[id].conn.primary;
    OneOwner(sys, id);
  }

  /** A session that releases its connection never hits the "not acquired from this pool" exception. */
  lemma ReleaseNeverRefused(sys: System, s: nat, env: Env)
    requires Reachable(sys) && s in sys.clients && sys.clients[s].Holding?
    ensures Release(sys.pool, sys.clients[s].id, env).1 == None
  {
    ReachableInv(sys);
    hide Wake, Recycle;
  }

  /**
   A session that holds a connection goes on with that one: acquiring it again and releasing it
   leaves everything as it was, and only the last release gives it back to the pool.
   */
  lemma NestedUse(sys: System, s: nat, request: Request, canceled: bool, env: Env, env': Env)
    requires Reachable(sys) && s in sys.clients && sys.clients[s].Holding?
    ensures Next(Next(sys, SessionAcquires(s, request, canceled, env)), SessionReleases(s, env')) == sys
    ensures var sys' := Next(sys, SessionReleases(s, env));
            if sys.clients[s].uses > 1 then s in sys'.clients && sys'.clients[s].Holding? && sys'.pool == sys.pool
            else s !in sys'.clients && sys'.pool == Release(sys.pool, sys.clients[s].id, env).0
  {
    UsedAtLeastOnce(sys, s);
    hide Reachable, Release;
    var sys1 := Next(sys, SessionAcquires(s, request, canceled, env));
    assert sys1 == sys.(clients := sys.clients[s := Holding(sys.clients[s].id, sys.clients[s].uses + 1)]);
    var sys2 := Next(sys1, SessionReleases(s, env'));
    assert sys2.clients == sys.clients;
  }

  lemma UsedAtLeastOnce(sys: System, s: nat)
    requires Reachable(sys) && s in sys.clients && sys.clients[s].Holding?
    ensures sys.clients[s].uses >= 1
  {
    ReachableInv(sys);
  }

  // ---------------------------------------------------------------- how many connections

  ghost function NotDiscarded(acquired: map<nat, Held>): set<nat> {
    set id | id in acquired && acquired[id].status != DISCARD
  }

  ghost function ConnectionCount(p: Pool): nat {
    SlotCount(p) + |p.idle| + |NotDiscarded(p.acquired)|
  }

  lemma CountSplits(p: Pool)
    requires OnePrimary(p)
    ensures ConnectionCount(p) <= |p.idle| + |Workers(p.acquired)| + 1
    ensures p.primary.Some? || (exists id: nat :: LivePrimary(p.acquired, id)) <==>
              ConnectionCount(p) == |p.idle| + |Workers(p.acquired)| + 1
  {
    var primaries := NotDiscarded(p.acquired) - Workers(p.acquired);
    assert NotDiscarded(p.acquired) == Workers(p.acquired) + primaries;
    forall id | id in primaries ensures LivePrimary(p.acquired, id) {}
    if id: nat :| LivePrimary(p.acquired, id) {
      assert primaries == {id};
    } else {
      assert primaries == {};
    }
  }

  // Ten connections in write-ahead logging mode, else one.
  ghost predicate IsMaximum(max: int, openFlags: bv32) {
    max == if openFlags & 0x2000_0000 != 0 then 10 else 1
  }

  /** At most one connection more than the maximum, discarded ones aside, and at most max - 1 idle non-primaries. */
  lemma SizeBound(sys: System)
    requires Reachable(sys)
    ensures ConnectionCount(sys.pool) <= sys.pool.max + 1 && |sys.pool.idle| <= sys.pool.max - 1
    ensures IsMaximum(sys.pool.max, sys.pool.config.openFlags)
  {
    ReachableInv(sys);
    CountSplits(sys.pool);
  }

  /**
   Whoever is queued in a reachable open pool waits for the primary, which is out; if any
   connection would do, all are out, and not fewer than the maximum.
   */
  lemma QueuedMeansFull(sys: System, w: Waiter)
    requires Reachable(sys) && sys.pool.open && w in sys.pool.queue
    ensures sys.pool.primary == None && exists id :: id in sys.pool.acquired && sys.pool.acquired[id].conn.primary
    ensures !w.request.flags.primaryAffinity ==>
              sys.pool.idle == [] && |sys.pool.acquired| >= sys.pool.max
    ensures IsMaximum(sys.pool.max, sys.pool.config.openFlags)
  {
    ReachableInv(sys);
  }
}
