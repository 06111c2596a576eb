/**
 SQLiteConnectionPool in place: the waiter queue and the free list are linked through the
 waiter objects, which are used over and over. `model` is the pool as a value; every method
 performs one function of PoolSpec on it. A thrown exception is returned as an `Error`.
 */
module ConnectionPool {
  import opened Wrappers
  import opened Configuration
  import opened PoolSpec
  import opened PoolInvariant
  import opened PoolSteps
  import opened WaiterLists

  // What the caller of an attempt gets to see.
  ghost predicate Reports(p: Pool, a: Attempt, connection: Option<Conn>, exception: Option<Error>) {
    match a
    case Got(id) =>
      && id in p.acquired && p.acquired[id].conn.id == id
      && connection == Some(p.acquired[id].conn) && exception == None
    case Unavailable => connection == None && exception == None
    case Failed(error) => connection == None && exception == Some(error)
  }

  ghost function Cells(nodes: set<ConnectionWaiter>): map<ConnectionWaiter, Cell>
    reads nodes
  {
    map w | w in nodes :: w.GetCell()
  }

  lemma CellsAre(nodes: set<ConnectionWaiter>, cells: map<ConnectionWaiter, Cell>)
    requires cells.Keys == nodes && forall w :: w in nodes ==> w.GetCell() == cells[w]
    ensures Cells(nodes) == cells
  {
  }

  lemma CellsOf(nodes: set<ConnectionWaiter>)
    ensures Cells(nodes).Keys == nodes && forall w :: w in nodes ==> Cells(nodes)[w] == w.GetCell()
  {
  }

  // ---------------------------------------------------------------- steps on the values

  predicate WalModeChanged(a: bv32, b: bv32) {
    (a ^ b) & ENABLE_WRITE_AHEAD_LOGGING != 0
  }

  lemma FlagChanged(a: bv32, b: bv32)
    ensures WalModeChanged(a, b) <==> WalFlag(a) != WalFlag(b)
  {
  }

  // Only the first n idle connections kept.
  ghost function Shortened(p: Pool, n: nat): Pool
    requires n <= |p.idle|
  {
    p.(idle := p.idle[..n], closed := p.closed + Ids(p.idle[n..]))
  }

  lemma ExcessStep(p: Pool, n: nat)
    requires 0 < n <= |p.idle|
    ensures Shortened(p, n - 1) ==
              CloseConnection(Shortened(p, n).(idle := Shortened(p, n).idle[..n - 1]), p.idle[n - 1].id)
  {
    assert p.idle[n - 1..] == [p.idle[n - 1]] + p.idle[n..];
    IdsAppend([p.idle[n - 1]], p.idle[n..]);
    assert Ids([p.idle[n - 1]]) == {p.idle[n - 1].id};
    hide Ids;
    assert p.idle[..n][..n - 1] == p.idle[..n - 1];
  }

  lemma ExcessEnds(p: Pool, n: nat)
    requires n <= |p.idle|
    ensures n == |p.idle| ==> Shortened(p, n) == p
    ensures p.max >= 1 && (n == p.max - 1 || (n == |p.idle| && n <= p.max - 1)) ==> CloseExcess(p) == Shortened(p, n)
  {
    assert n == |p.idle| ==> p.idle[..n] == p.idle && p.idle[n..] == [];
  }

  lemma ReconfiguredStep(rest: seq<Conn>, done: seq<Conn>, closed: set<nat>, config: Config, env: Env)
    requires rest != []
    ensures rest[0].id in env.reconfigureFails ==>
              && Reconfigured(rest, config, env) == Reconfigured(rest[1..], config, env)
              && closed + Ids(rest) * env.reconfigureFails ==
                   closed + {rest[0].id} + Ids(rest[1..]) * env.reconfigureFails
    ensures rest[0].id !in env.reconfigureFails ==>
              && done + Reconfigured(rest, config, env) ==
                 done + [rest[0].(config := config, readOnly := false)] + Reconfigured(rest[1..], config, env)
              && closed + Ids(rest) * env.reconfigureFails == closed + Ids(rest[1..]) * env.reconfigureFails
  {
    assert Ids(rest) == {rest[0].id} + Ids(rest[1..]) by {
      assert rest == [rest[0]] + rest[1..];
      IdsAppend([rest[0]], rest[1..]);
      assert Ids([rest[0]]) == {rest[0].id};
    }
    hide Ids;
  }

  lemma NothingLeft(config: Config, env: Env)
    ensures Ids([]) == {} && Reconfigured([], config, env) == []
  {
  }

  ghost predicate Remarked(acquired: map<nat, Held>, id: nat, status: Status)
    requires id in acquired
  {
    acquired[id].status != status && acquired[id].status != DISCARD
  }

  // Some of the connections marked.
  ghost function Marked(acquired: map<nat, Held>, ids: set<nat>, status: Status): map<nat, Held> {
    map id | id in acquired :: if id in ids then acquired[id].(status := status) else acquired[id]
  }

  lemma MarkedNext(acquired: map<nat, Held>, ids: set<nat>, id: nat, status: Status)
    requires id in acquired
    ensures id in Marked(acquired, ids, status)
    ensures Marked(acquired, ids, status)[id := Held(Marked(acquired, ids, status)[id].conn, status)] ==
            Marked(acquired, ids + {id}, status)
  {
  }

  lemma MarkedNone(acquired: map<nat, Held>, status: Status)
    ensures Marked(acquired, {}, status) == acquired
  {
  }

  lemma MarkedAll(acquired: map<nat, Held>, ids: set<nat>, status: Status)
    requires forall id :: id in acquired ==> (id in ids <==> Remarked(acquired, id, status))
    ensures Marked(acquired, ids, status) == MarkAcquired(acquired, status)
  {
  }

  // The waiters are where they were.
  ghost predicate SameQueue(p: Pool, p': Pool) {
    p'.queue == p.queue && p'.done == p.done && p'.abandoned == p.abandoned && p'.nextTicket == p.nextTicket
  }

  lemma ReleaseAssertion(p: Pool, id: nat, env: Env)
    requires Base(p) && id in p.acquired
    ensures p.acquired[id].conn.id == id
    ensures p.acquired[id].conn.primary && Recycle(Removed(p, id), p.acquired[id], env).1.Some? ==> p.primary.None?
  {
    if p.acquired[id].conn.primary {
      ReleaseAssertionHolds(p, id, env);
    }
  }

  // Two counts with the same 32-bit value.
  lemma WrapsApart(m: nat, n: nat)
    ensures Wrap32(m) == Wrap32(n) <==> (n - m) % 0x1_0000_0000 == 0
  {
  }

  // What the cancellation of a waiter object does, for the ticket of its present use or for none.
  ghost predicate CanceledObject(l: Ledger, p: Pool, p': Pool, waiter: ConnectionWaiter, crashed: bool, env: Env) {
    && (forall t :: OnPresentUse(l, waiter, t) ==> p' == Cancel(p, t, env) && (crashed <==> t in p.abandoned))
    && ((forall t :: !OnPresentUse(l, waiter, t)) ==> p' == p)
  }

  lemma AnsweredIgnored(cells: map<ConnectionWaiter, Cell>, l: Ledger, p: Pool, w: ConnectionWaiter, env: Env)
    requires Represents(cells, l, p) && w in cells && !Unanswered(cells[w])
    ensures CanceledObject(l, p, p, w, false, env)
  {
    hide Represents, Unanswered;
    forall t | OnPresentUse(l, w, t) ensures p == Cancel(p, t, env) && t !in p.abandoned {
      PresentTicket(cells, l, p, w, t);
    }
  }

  lemma MissingCrashes(cells: map<ConnectionWaiter, Cell>, l: Ledger, p: Pool, w: ConnectionWaiter, env: Env)
    requires Represents(cells, l, p) && w in cells && Unanswered(cells[w]) && w !in l.queued
    ensures CanceledObject(l, p, p, w, true, env)
  {
    hide Represents, Unanswered;
    forall t | OnPresentUse(l, w, t) ensures p == Cancel(p, t, env) && t in p.abandoned {
      PresentTicket(cells, l, p, w, t);
    }
  }

  lemma QueuedIsCanceled(cells: map<ConnectionWaiter, Cell>, l: Ledger, p: Pool, i: nat, env: Env)
    requires Represents(cells, l, p) && i < |l.queued| == |p.queue|
    ensures CanceledObject(l, p, Wake(Dequeue(p, i, Refused(OperationCanceled)), env), l.queued[i], false, env)
    ensures l.queued[i] in cells && Unanswered(cells[l.queued[i]]) && l.place[l.queued[i]] == QUEUED
  {
    hide Represents, Wake;
    var w := l.queued[i];
    LengthsAgree(cells, l, p);
    QueuedObject(cells, l, p, i);
    NoPresentTicket(cells, l, p, w);
    forall t | OnPresentUse(l, w, t) ensures Position(p.queue, t, 0) == i && t !in p.abandoned {
      PresentTicket(cells, l, p, w, t);
    }
  }

  // A waiter that has a ticket and no answer is in the queue exactly if the pool is open.
  lemma WaitsWhileOpen(cells: map<ConnectionWaiter, Cell>, l: Ledger, p: Pool, w: ConnectionWaiter, t: nat)
    requires Represents(cells, l, p) && Inv(p) && OnPresentUse(l, w, t) && Unanswered(cells[w])
    ensures p.open <==> w in l.queued
  {
    PresentTicket(cells, l, p, w, t);
  }

  // The reopening, step by step.
  lemma ReopenSteps(p: Pool, config: Config, env: Env)
    ensures var p1 := if Wal(config) != Wal(p.config) then CloseAvailable(p) else p;
            var (p2, conn) := OpenConnection(p1, config, true, env);
            var p3 := CloseAvailable(p2);
            && SameQueue(p, p1) && SameQueue(p, p2) && SameQueue(p, p3)
            && Reopen(p, config, env) ==
               if conn.None? then (p2, Some(OpenFailed(p1.nextId)))
               else (Wake(p3.(acquired := MarkAcquired(p3.acquired, DISCARD), primary := conn, config := config,
                              max := PoolSize(config)), env), None)
  {
    hide Wake, MarkAcquired;
  }

  // The branches of a release of an acquired connection.
  lemma ReleaseBranches(p: Pool, id: nat, env: Env)
    requires id in p.acquired
    ensures var held, q := p.acquired[id], Removed(p, id);
            var (r, conn) := Recycle(q, held, env);
            && SameQueue(p, q) && SameQueue(p, r) && r == q.(closed := r.closed)
            && Release(p, id, env) ==
               (if !p.open || (!held.conn.primary && |p.idle| >= p.max - 1) then CloseConnection(q, held.conn.id)
                else if held.conn.primary then Wake(if conn.Some? then r.(primary := conn) else r, env)
                else Wake(if conn.Some? then r.(idle := r.idle + [conn.value]) else r, env), None)
    requires p.acquired[id].conn.id == id
  {
    hide Wake;
  }

  lemma RecycledParts(l: Ledger, w: ConnectionWaiter)
    requires w in l.uses
    ensures Head(Recycled(l, w).queued) == Head(l.queued) && Head(Recycled(l, w).free) == w
  {
  }

  // The ticket was given out on this waiter while it had this nonce.
  ghost predicate IsTicket(l: Ledger, ticket: nat, waiter: ConnectionWaiter, nonce: int) {
    ticket in l.issued && l.issued[ticket].waiter == waiter && nonce == Wrap32(l.issued[ticket].uses)
  }

  ghost predicate TicketIssued(l: Ledger, ticket: nat) {
    ticket in l.issued
  }

  ghost predicate KeepsTickets(l: Ledger, l': Ledger) {
    forall t :: t in l.issued ==> t in l'.issued && l'.issued[t] == l.issued[t]
  }

  lemma TicketsKept(l: Ledger)
    ensures KeepsTickets(l, l)
  {
  }

  lemma NextNotIssued(cells: map<ConnectionWaiter, Cell>, l: Ledger, p: Pool)
    requires Represents(cells, l, p)
    ensures !TicketIssued(l, p.nextTicket)
  {
  }

  lemma SameExceptQueue(p: Pool, request: Request)
    ensures var p' := Enqueue(p, request);
            p' == p.(queue := p'.queue, nextTicket := p'.nextTicket)
  {
  }

  lemma OutcomeParts(connection: Option<Conn>, exception: Option<Error>, outcome: Option<Outcome>)
    ensures IsOutcome(connection, exception, outcome) ==> (outcome.Some? <==> connection.Some? || exception.Some?)
    ensures IsOutcome(None, None, None)
  {
  }

  // What the closing of the pool does to the queue.
  ghost function AllLeave(p: Pool): Pool {
    p.(queue := [], abandoned := p.abandoned + Tickets(p.queue))
  }

  lemma WakeStarts(p: Pool, env: Env)
    ensures Wake(p, env) == if p.open then WakeFrom(p, 0, false, false, env) else AllLeave(p)
  {
  }

  lemma WakeTurn(p: Pool, i: nat, noPrimary: bool, noIdle: bool, env: Env)
    requires i < |p.queue|
    ensures var (p1, a, noPrimary1, noIdle1) := ServeFlagged(p, p.queue[i].request, noPrimary, noIdle, env);
            && p1.open == p.open && p1.queue == p.queue && p1.done == p.done
            && p1.abandoned == p.abandoned && p1.nextTicket == p.nextTicket
            && WakeFrom(p, i, noPrimary, noIdle, env) ==
               (match a
                case Got(id) => WakeFrom(Departed(p1, i, Some(Granted(id))), i, noPrimary1, noIdle1, env)
                case Failed(error) => WakeFrom(Departed(p1, i, Some(Refused(error))), i, noPrimary1, noIdle1, env)
                case Unavailable =>
                  if noPrimary1 && noIdle1 then p1 else WakeFrom(p1, i + 1, noPrimary1, noIdle1, env))
  {
    hide ServeFlagged;
    ServeFlaggedUntouched(p, p.queue[i].request, noPrimary, noIdle, env);
  }

  lemma WakeEnds(p: Pool, noPrimary: bool, noIdle: bool, env: Env)
    ensures WakeFrom(p, |p.queue|, noPrimary, noIdle, env) == p
    ensures p.queue == [] ==> AllLeave(p) == p
  {
  }

  lemma LeftNext(l: Ledger, p: Pool, i: nat, outcome: Option<Outcome>)
    requires i < |p.queue| == |l.queued|
    ensures var l' := Left(l, i, outcome);
            && l'.issued == l.issued && l'.uses == l.uses && |l'.queued| == |l.queued| - 1
            && (i > 0 ==> l'.queued[i - 1] == l.queued[i - 1])
            && Successor(l.queued, i) == (if i == |l'.queued| then null else l'.queued[i])
    ensures var p' := Departed(p, i, outcome);
            && |p'.queue| == |p.queue| - 1
            && p' == p.(queue := p'.queue, done := p'.done, abandoned := p'.abandoned)
    ensures i == 0 && outcome.None? ==> AllLeave(Departed(p, i, outcome)) == AllLeave(p)
  {
    if i == 0 {
      assert p.queue == [p.queue[0]] + p.queue[1..];
      assert Tickets(p.queue) == {p.queue[0].ticket} + Tickets(p.queue[1..]);
    }
  }

  lemma InsertedParts(l: Ledger, p: Pool, w: ConnectionWaiter, k: nat)
    requires k <= |l.queued| && w in l.uses
    ensures var l' := Inserted(l, p, w, k);
            && l'.issued == l.issued[p.nextTicket := Issue(w, l.uses[w])] && l'.uses == l.uses && l'.free == l.free
            && Head(l'.queued) == (if k == 0 then w else Head(l.queued))
  {
  }

  lemma HeldUnanswered(cells: map<ConnectionWaiter, Cell>, l: Ledger, p: Pool, w: ConnectionWaiter)
    requires Represents(cells, l, p) && w in l.place && l.place[w] == HELD
    ensures w in cells && Unanswered(cells[w]) && cells[w].nonce == Wrap32(l.uses[w])
    ensures forall i :: 0 <= i < |l.queued| ==> l.queued[i] != w
  {
  }

  ghost predicate IsOutcome(connection: Option<Conn>, exception: Option<Error>, outcome: Option<Outcome>) {
    match outcome
    case None => connection == None && exception == None
    case Some(Granted(id)) => connection.Some? && connection.value.id == id && exception == None
    case Some(Refused(error)) => connection == None && exception == Some(error)
  }

  lemma LeftParts(l: Ledger, p: Pool, i: nat, outcome: Option<Outcome>)
    requires i < |l.queued|
    ensures var l' := Left(l, i, outcome);
            && l'.issued == l.issued && l'.uses == l.uses && l'.free == l.free
            && Head(l'.queued) == (if i == 0 then Successor(l.queued, i) else Head(l.queued))
  {
  }

  class SQLiteConnectionPool {
    const configuration: SQLiteDatabaseConfiguration
    var maxConnectionPoolSize: int
    var isOpen: bool
    var nextConnectionId: nat
    var connectionWaiterPool: ConnectionWaiter?
    var connectionWaiterQueue: ConnectionWaiter?
    var availableNonPrimary: seq<Conn>
    var availablePrimary: Option<Conn>
    var acquiredConnections: map<nat, Held>

    ghost var model: Pool
    ghost var ledger: Ledger
    ghost var nodes: set<ConnectionWaiter>      // every waiter object there is

    ghost predicate Fields()
      reads this, configuration
    {
      && isOpen == model.open
      && configuration.View() == model.config
      && maxConnectionPoolSize == model.max
      && nextConnectionId == model.nextId
      && availablePrimary == model.primary
      && availableNonPrimary == model.idle
      && acquiredConnections == model.acquired
    }

    ghost predicate Waiters()
      reads this, nodes
    {
      && Represents(Cells(nodes), ledger, model)
      && connectionWaiterQueue == Head(ledger.queued)
      && connectionWaiterPool == Head(ledger.free)
    }

    ghost predicate Valid()
      reads this, configuration, nodes
    {
      Fields() && Waiters()
    }

    constructor (configuration: SQLiteDatabaseConfiguration)
      ensures Valid() && nodes == {} && fresh(this.configuration)
      ensures var config := configuration.View();
              model == Pool(false, config, PoolSize(config), 0, None, [], map[], [], map[], 0, {}, {})
    {
      var copy := new SQLiteDatabaseConfiguration.Copy(configuration);
      this.configuration := copy;
      maxConnectionPoolSize := 0;
      isOpen, nextConnectionId := false, 0;
      connectionWaiterPool, connectionWaiterQueue := null, null;
      availableNonPrimary, availablePrimary, acquiredConnections := [], None, map[];
      model := Pool(false, copy.View(), 0, 0, None, [], map[], [], map[], 0, {}, {});
      nodes, ledger := {}, Ledger([], [], map[], map[], map[]);
      new;
      SetMaxConnectionPoolSizeLocked();
    }

    method SetMaxConnectionPoolSizeLocked()
      modifies this`maxConnectionPoolSize, this`model
      ensures maxConnectionPoolSize == model.max
      ensures model == old(model).(max := PoolSize(configuration.View()))
    {
      if configuration.openFlags & ENABLE_WRITE_AHEAD_LOGGING != 0 {
        maxConnectionPoolSize := 10;
      } else {
        maxConnectionPoolSize := 1;
      }
      model := model.(max := maxConnectionPoolSize);
    }

    // ---------------------------------------------------------------- connections

    method OpenConnectionLocked(configuration: SQLiteDatabaseConfiguration, primaryConnection: bool, env: Env)
      returns (connection: Option<Conn>, exception: Option<Error>)
      requires Fields()
      modifies this`nextConnectionId, this`model
      ensures Fields()
      ensures (model, connection) == OpenConnection(old(model), configuration.View(), primaryConnection, env)
      ensures exception == if connection.None? then Some(OpenFailed(old(model).nextId)) else None
    {
      var connectionId := nextConnectionId;
      nextConnectionId := nextConnectionId + 1;
      if connectionId in env.openFails || configuration.maxSqlCacheSize <= 0 {
        connection, exception := None, Some(OpenFailed(connectionId));
        model := model.(nextId := nextConnectionId, closed := model.closed + {connectionId});
      } else {
        connection, exception := Some(Conn(connectionId, primaryConnection, configuration.View(), false)), None;
        model := model.(nextId := nextConnectionId);
      }
    }

    method FinishAcquireConnectionLocked(connection: Conn, flags: Flags, ghost sql: Option<string>)
      returns (acquired: Conn)
      requires acquiredConnections == model.acquired
      modifies this`acquiredConnections, this`model
      ensures model == FinishAcquire(old(model), connection, Request(sql, flags))
      ensures acquiredConnections == model.acquired
      ensures connection.id in model.acquired && acquired == model.acquired[connection.id].conn
    {
      acquired := connection.(readOnly := flags.readOnly);
      acquiredConnections := acquiredConnections[connection.id := Held(acquired, NORMAL)];
      model := FinishAcquire(model, connection, Request(sql, flags));
    }

    method TryAcquirePrimaryConnectionLocked(flags: Flags, ghost sql: Option<string>, env: Env)
      returns (connection: Option<Conn>, exception: Option<Error>)
      requires Fields()
      modifies this`nextConnectionId, this`availablePrimary, this`acquiredConnections, this`model
      ensures Fields()
      ensures var (p, a) := TryPrimary(old(model), Request(sql, flags), env);
              model == p && Reports(p, a, connection, exception)
    {
      connection := availablePrimary;
      if connection.Some? {
        availablePrimary := None;
        model := model.(primary := None);
        var acquired := FinishAcquireConnectionLocked(connection.value, flags, sql);
        return Some(acquired), None;
      }
      if exists id | id in acquiredConnections :: acquiredConnections[id].conn.primary {
        return None, None;
      }
      connection, exception := OpenConnectionLocked(configuration, true, env);
      if connection.Some? {
        var acquired := FinishAcquireConnectionLocked(connection.value, flags, sql);
        connection := Some(acquired);
      }
    }

    // Takes the idle connection at position i.
    method TakeIdleLocked(i: nat, flags: Flags, ghost sql: Option<string>) returns (acquired: Conn)
      requires Fields() && i < |availableNonPrimary|
      modifies this`availableNonPrimary, this`acquiredConnections, this`model
      ensures Fields()
      ensures var p := old(model);
              model == FinishAcquire(p.(idle := p.idle[..i] + p.idle[i + 1..]), p.idle[i], Request(sql, flags))
      ensures Reports(model, Got(old(model).idle[i].id), Some(acquired), None)
    {
      var connection := availableNonPrimary[i];
      availableNonPrimary := availableNonPrimary[..i] + availableNonPrimary[i + 1..];
      model := model.(idle := availableNonPrimary);
      acquired := FinishAcquireConnectionLocked(connection, flags, sql);
    }

    method TryAcquireNonPrimaryConnectionLocked(sql: Option<string>, flags: Flags, env: Env)
      returns (connection: Option<Conn>, exception: Option<Error>)
      requires Fields()
      modifies this`nextConnectionId, this`availableNonPrimary, this`acquiredConnections, this`model
      ensures Fields()
      ensures var (p, a) := TryIdle(old(model), Request(sql, flags), env);
              model == p && Reports(p, a, connection, exception)
    {
      var availableCount := |availableNonPrimary|;
      if availableCount > 1 && sql.Some? {
        var i := 0;
        while i < availableCount
          invariant 0 <= i <= availableCount
          invariant FirstCached(availableNonPrimary, sql.value, env, 0) ==
                      FirstCached(availableNonPrimary, sql.value, env, i)
        {
          if (availableNonPrimary[i].id, sql.value) in env.cached {
            var acquired := TakeIdleLocked(i, flags, sql);
            return Some(acquired), None;
          }
          i := i + 1;
        }
      }
      if availableCount > 0 {
        var acquired := TakeIdleLocked(availableCount - 1, flags, sql);
        return Some(acquired), None;
      }
      var openConnections := |acquiredConnections|;
      if availablePrimary.Some? {
        openConnections := openConnections + 1;
      }
      if openConnections >= maxConnectionPoolSize {
        return None, None;
      }
      connection, exception := OpenConnectionLocked(configuration, false, env);
      if connection.Some? {
        var acquired := FinishAcquireConnectionLocked(connection.value, flags, sql);
        connection := Some(acquired);
      }
    }

    // ---------------------------------------------------------------- waiters

    // What there is to know about the head of the free list.
    lemma FreeWaiter(waiter: ConnectionWaiter)
      requires Waiters() && connectionWaiterPool == waiter
      ensures waiter in nodes && waiter.GetCell() == Cells(nodes)[waiter] && |ledger.free| > 0
      ensures Represents(Cells(nodes)[waiter := waiter.GetCell().(next := null)], Taken(ledger), model)
      ensures var l := Taken(ledger);
              && waiter in l.place && l.place[waiter] == HELD && waiter.next == Head(l.free)
              && l.queued == ledger.queued && l.issued == ledger.issued && l.uses == ledger.uses
    {
      hide Represents;
      LengthsAgree(Cells(nodes), ledger, model);
      assert waiter.GetCell() == Cells(nodes)[waiter];
      TakenRepresents(Cells(nodes), ledger, model);
    }

    // Takes the head off the free list, or allocates a waiter object.
    method TakeWaiterLocked() returns (waiter: ConnectionWaiter)
      requires Waiters()
      modifies this`connectionWaiterPool, this`ledger, this`nodes, nodes
      ensures Waiters() && fresh(nodes - old(nodes)) && nodes == old(nodes) + {waiter}
      ensures waiter in ledger.place && ledger.place[waiter] == HELD
      ensures ledger.queued == old(ledger.queued) && ledger.issued == old(ledger.issued)
    {
      hide Represents, Taken, Head, Cells;
      ghost var cells := Cells(nodes);
      CellsOf(nodes);
      if connectionWaiterPool != null {
        waiter := connectionWaiterPool;
        FreeWaiter(waiter);
        ledger := Taken(ledger);
        connectionWaiterPool := waiter.next;
        waiter.next := null;
        cells := cells[waiter := cells[waiter].(next := null)];
      } else {
        LengthsAgree(cells, ledger, model);
        waiter := new ConnectionWaiter();
        NewRepresents(cells, ledger, model, waiter);
        nodes := nodes + {waiter};
        ledger := ledger.(place := ledger.place[waiter := HELD], uses := ledger.uses[waiter := 0]);
        cells := cells[waiter := BLANK];
      }
      CellsAre(nodes, cells);
    }

    method ObtainConnectionWaiterLocked(priority: int, wantPrimary: bool, sql: Option<string>, flags: Flags)
      returns (waiter: ConnectionWaiter)
      requires Waiters()
      modifies this`connectionWaiterPool, this`ledger, this`nodes, nodes
      ensures Waiters() && fresh(nodes - old(nodes)) && nodes == old(nodes) + {waiter}
      ensures waiter in ledger.place && ledger.place[waiter] == HELD
      ensures ledger.queued == old(ledger.queued) && ledger.issued == old(ledger.issued)
      ensures waiter.priority == priority && waiter.wantPrimary == wantPrimary && waiter.sql == sql &&
              waiter.flags == flags
    {
      hide Represents, Cells;
      waiter := TakeWaiterLocked();
      ghost var cells := Cells(nodes);
      CellsOf(nodes);
      HeldUnanswered(cells, ledger, model, waiter);
      waiter.priority := priority;
      waiter.wantPrimary := wantPrimary;
      waiter.sql := sql;
      waiter.flags := flags;
      CellsAre(nodes, cells[waiter := waiter.GetCell()]);
      FilledRepresents(cells, ledger, model, waiter, waiter.GetCell());
    }

    // The waiters between which a new one of this priority belongs.
    method FindPlaceLocked(priority: int)
      returns (predecessor: ConnectionWaiter?, successor: ConnectionWaiter?, ghost k: nat)
      requires Waiters()
      ensures k == InsertionPoint(model.queue, priority, 0) && k <= |ledger.queued|
      ensures predecessor == (if k == 0 then null else ledger.queued[k - 1])
      ensures successor == (if k == |ledger.queued| then null else ledger.queued[k])
    {
      hide Represents;
      ghost var cells := Cells(nodes);
      LengthsAgree(cells, ledger, model);
      predecessor, successor, k := null, connectionWaiterQueue, 0;
      while successor != null
        invariant 0 <= k <= |ledger.queued|
        invariant predecessor == (if k == 0 then null else ledger.queued[k - 1])
        invariant successor == (if k == |ledger.queued| then null else ledger.queued[k])
        invariant InsertionPoint(model.queue, priority, 0) == InsertionPoint(model.queue, priority, k)
        decreases |ledger.queued| - k
      {
        QueuedObject(cells, ledger, model, k);
        assert successor.GetCell() == cells[successor];
        if priority > successor.priority {
          break;
        }
        predecessor := successor;
        successor := successor.next;
        k := k + 1;
      }
    }

    // Puts a waiter between two neighbours of the chain, or at its head.
    method LinkLocked(predecessor: ConnectionWaiter?, waiter: ConnectionWaiter, successor: ConnectionWaiter?,
                      ghost chain: seq<ConnectionWaiter>, ghost k: nat)
      requires waiter in nodes && k <= |chain| &&
               (forall i :: 0 <= i < |chain| ==> chain[i] in nodes && chain[i] != waiter)
      requires predecessor == (if k == 0 then null else chain[k - 1])
      requires successor == (if k == |chain| then null else chain[k])
      modifies this`connectionWaiterQueue, waiter`next, (if predecessor == null then {} else {predecessor})`next
      ensures InsertedCells(old(Cells(nodes)), Cells(nodes), chain, waiter, k)
      ensures connectionWaiterQueue == (if predecessor == null then waiter else old(connectionWaiterQueue))
    {
      waiter.next := successor;
      if predecessor != null {
        predecessor.next := waiter;
      } else {
        connectionWaiterQueue := waiter;
      }
    }

    // What there is to know about a waiter before it is put into the queue.
    lemma BeforeInserting(waiter: ConnectionWaiter, request: Request)
      requires Waiters() && waiter in nodes && waiter in ledger.place && ledger.place[waiter] == HELD
      requires Describes(waiter.GetCell(), Waiter(0, request))
      ensures waiter in ledger.uses && waiter.nonce == Wrap32(ledger.uses[waiter]) &&
              waiter.priority == Priority(request)
      ensures forall i :: 0 <= i < |ledger.queued| ==> ledger.queued[i] in nodes && ledger.queued[i] != waiter
      ensures waiter in Cells(nodes) && Describes(Cells(nodes)[waiter], Waiter(0, request))
    {
      LengthsAgree(Cells(nodes), ledger, model);
      HeldUnanswered(Cells(nodes), ledger, model, waiter);
      assert waiter.GetCell() == Cells(nodes)[waiter];
    }

    /** Links a waiter into the queue behind everyone of its own or a higher priority. */
    method InsertWaiterLocked(waiter: ConnectionWaiter, ghost request: Request) returns (nonce: int)
      requires Waiters() && waiter in nodes && waiter in ledger.place && ledger.place[waiter] == HELD
      requires Describes(waiter.GetCell(), Waiter(0, request))
      modifies this`connectionWaiterQueue, this`model, this`ledger, nodes
      ensures Waiters()
      ensures model == Enqueue(old(model), request)
      ensures ledger.issued == old(ledger.issued)[old(model).nextTicket := Issue(waiter, old(ledger.uses)[waiter])]
      ensures ledger.uses == old(ledger.uses) && nonce == Wrap32(ledger.uses[waiter])
    {
      hide Represents, InsertedCells, Inserted, Enqueue, InsertionPoint, Fields, Cells, Describes, Wrap32, Head;
      ghost var cells, l, p := Cells(nodes), ledger, model;
      BeforeInserting(waiter, request);
      var predecessor, successor, k := FindPlaceLocked(waiter.priority);
      InsertedParts(l, p, waiter, k);
      nonce := waiter.nonce;
      ledger := Inserted(l, p, waiter, k);
      model := Enqueue(p, request);
      assert Cells(nodes) == cells;
      LinkLocked(predecessor, waiter, successor, l.queued, k);
      InsertedRepresents(cells, Cells(nodes), l, p, waiter, request);
    }

    // What the methods that unlink the waiter at position i need to know before they do.
    lemma BeforeUnlinking(i: nat, outcome: Option<Outcome>)
      requires Waiters() && i < |model.queue| && i < |ledger.queued|
      ensures |model.queue| == |ledger.queued| && (forall j :: 0 <= j < |ledger.queued| ==> ledger.queued[j] in nodes)
      ensures forall j :: 0 <= j < |ledger.queued| && j != i ==> ledger.queued[j] != ledger.queued[i]
      ensures ledger.queued[i].next == Successor(ledger.queued, i)
      ensures ledger.queued[i].assignedConnection == None && ledger.queued[i].exception == None
      ensures var l := Left(ledger, i, outcome);
              && l.free == ledger.free && l.issued == ledger.issued && l.uses == ledger.uses
              && Head(l.queued) == (if i == 0 then Successor(ledger.queued, i) else Head(ledger.queued))
    {
      hide Represents;
      LengthsAgree(Cells(nodes), ledger, model);
      QueuedObject(Cells(nodes), ledger, model, i);
      assert ledger.queued[i].GetCell() == Cells(nodes)[ledger.queued[i]];
      LeftParts(ledger, model, i, outcome);
    }

    // Takes the waiter at position i out of the queue and leaves it its outcome.
    method UnlinkLocked(predecessor: ConnectionWaiter?, waiter: ConnectionWaiter, connection: Option<Conn>,
                        exception: Option<Error>, ghost i: nat, ghost outcome: Option<Outcome>)
      requires Waiters() && i < |model.queue| && i < |ledger.queued| && waiter == ledger.queued[i]
      requires predecessor == (if i == 0 then null else ledger.queued[i - 1])
      requires IsOutcome(connection, exception, outcome)
      modifies this`connectionWaiterQueue, this`model, this`ledger, nodes
      ensures Waiters()
      ensures model == Departed(old(model), i, outcome)
      ensures ledger == Left(old(ledger), i, outcome)
    {
      hide Represents, Departed, Left, UnlinkedCells, Successor, Head;
      BeforeUnlinking(i, outcome);
      ghost var cells, l, p := Cells(nodes), ledger, model;
      model := Departed(p, i, outcome);
      ledger := Left(l, i, outcome);
      assert Cells(nodes) == cells;
      SetOutcome(predecessor, waiter, connection, exception, l.queued, i, outcome);
      LeftRepresents(cells, Cells(nodes), l, p, i, outcome);
    }

    // The same, with what the wake-up loop needs to go on from the successor.
    method DequeueLocked(predecessor: ConnectionWaiter?, waiter: ConnectionWaiter, connection: Option<Conn>,
                         exception: Option<Error>, ghost i: nat, ghost outcome: Option<Outcome>)
      requires Valid() && i < |model.queue| == |ledger.queued| && waiter == ledger.queued[i]
      requires predecessor == (if i == 0 then null else ledger.queued[i - 1])
      requires IsOutcome(connection, exception, outcome)
      modifies this`connectionWaiterQueue, this`model, this`ledger, nodes
      ensures Valid()
      ensures model == Departed(old(model), i, outcome) && model.open == old(model.open)
      ensures ledger.issued == old(ledger.issued) && ledger.uses == old(ledger.uses)
      ensures |model.queue| == |ledger.queued| == old(|ledger.queued|) - 1
      ensures predecessor == (if i == 0 then null else ledger.queued[i - 1])
      ensures old(Successor(ledger.queued, i)) == (if i == |ledger.queued| then null else ledger.queued[i])
      ensures i == 0 && outcome.None? ==> AllLeave(model) == AllLeave(old(model))
    {
      hide Represents, Departed, Left, IsOutcome, AllLeave;
      LeftNext(ledger, model, i, outcome);
      UnlinkLocked(predecessor, waiter, connection, exception, i, outcome);
    }

    method SetOutcome(predecessor: ConnectionWaiter?, waiter: ConnectionWaiter, connection: Option<Conn>,
                      exception: Option<Error>, ghost chain: seq<ConnectionWaiter>, ghost i: nat,
                      ghost outcome: Option<Outcome>)
      requires i < |chain| && waiter == chain[i] && (forall j :: 0 <= j < |chain| ==> chain[j] in nodes)
      requires forall j :: 0 <= j < |chain| && j != i ==> chain[j] != waiter
      requires predecessor == (if i == 0 then null else chain[i - 1])
      requires waiter.next == Successor(chain, i)
      requires IsOutcome(connection, exception, outcome)
      modifies this`connectionWaiterQueue, waiter, (if predecessor == null then {} else {predecessor})`next
      ensures UnlinkedCells(old(Cells(nodes)), Cells(nodes), chain, i, outcome)
      ensures connectionWaiterQueue == (if i == 0 then Successor(chain, i) else old(connectionWaiterQueue))
    {
      waiter.assignedConnection := connection;
      waiter.exception := exception;
      var successor := waiter.next;
      if predecessor != null {
        predecessor.next := successor;
      } else {
        connectionWaiterQueue := successor;
      }
      waiter.next := null;
    }

    // ---------------------------------------------------------------- waking

    // One attempt to serve a queued waiter, skipping what the flags say is not available.
    method ServeWaiterLocked(waiter: ConnectionWaiter, noPrimary: bool, noIdle: bool, env: Env)
      returns (connection: Option<Conn>, exception: Option<Error>, noPrimary': bool, noIdle': bool)
      requires Fields() && waiter.wantPrimary == waiter.flags.primaryAffinity
      modifies this`nextConnectionId, this`availablePrimary, this`availableNonPrimary, this`acquiredConnections,
               this`model
      ensures Fields()
      ensures var (p, a, nP, nI) := ServeFlagged(old(model), Request(waiter.sql, waiter.flags), noPrimary, noIdle, env);
              model == p && Reports(p, a, connection, exception) && noPrimary' == nP && noIdle' == nI
    {
      hide TryIdle, TryPrimary;
      connection, exception := None, None;
      noPrimary', noIdle' := noPrimary, noIdle;
      if !waiter.wantPrimary && !noIdle {
        connection, exception := TryAcquireNonPrimaryConnectionLocked(waiter.sql, waiter.flags, env);
        if connection == None && exception == None {
          noIdle' := true;
        }
      }
      if connection == None && exception == None && !noPrimary {
        connection, exception := TryAcquirePrimaryConnectionLocked(waiter.flags, waiter.sql, env);
        if connection == None && exception == None {
          noPrimary' := true;
        }
      }
    }

    lemma Lists()
      requires Valid()
      ensures isOpen == model.open && |ledger.queued| == |model.queue|
      ensures connectionWaiterQueue == Head(ledger.queued) && connectionWaiterPool == Head(ledger.free)
    {
      LengthsAgree(Cells(nodes), ledger, model);
    }

    lemma TicketObject(t: nat)
      requires Valid() && t in ledger.issued
      ensures ledger.issued[t].waiter in nodes && ledger.issued[t].waiter in ledger.uses
      ensures t in model.abandoned ==> OnPresentUse(ledger, ledger.issued[t].waiter, t)
    {
      CallbackObject(Cells(nodes), ledger, model, t);
      assert t in model.abandoned ==> Current(ledger, t);
    }

    lemma SamePath()
      requires Valid()
      ensures configuration.path == model.config.path
    {
    }

    lemma NextInQueue(i: nat)
      requires Valid() && i < |ledger.queued| == |model.queue|
      ensures ledger.queued[i] in nodes && ledger.queued[i].next == Successor(ledger.queued, i)
    {
      QueuedObject(Cells(nodes), ledger, model, i);
      assert ledger.queued[i].GetCell().next == Successor(ledger.queued, i);
    }

    // The same for the waiter at position i of the queue, told in terms of the wake-up loop.
    method ServeQueuedLocked(waiter: ConnectionWaiter, noPrimary: bool, noIdle: bool, env: Env, ghost i: nat)
      returns (connection: Option<Conn>, exception: Option<Error>, noPrimary': bool, noIdle': bool,
               ghost outcome: Option<Outcome>)
      requires Valid() && i < |model.queue| == |ledger.queued| && waiter == ledger.queued[i]
      modifies this`nextConnectionId, this`availablePrimary, this`availableNonPrimary, this`acquiredConnections,
               this`model
      ensures Valid() && model.open == old(model.open) && |model.queue| == old(|model.queue|)
      ensures IsOutcome(connection, exception, outcome)
      ensures WakeFrom(old(model), i, noPrimary, noIdle, env) ==
              if outcome.Some? then WakeFrom(Departed(model, i, outcome), i, noPrimary', noIdle', env)
              else if noPrimary' && noIdle' then model
              else WakeFrom(model, i + 1, noPrimary', noIdle', env)
    {
      hide Represents, ServeFlagged, Departed, WakeFrom;
      ghost var cells, p := Cells(nodes), model;
      QueuedObject(cells, ledger, p, i);
      assert waiter.GetCell() == cells[waiter];
      assert p.queue[i].request == Request(waiter.sql, waiter.flags);
      WakeTurn(p, i, noPrimary, noIdle, env);
      connection, exception, noPrimary', noIdle' := ServeWaiterLocked(waiter, noPrimary, noIdle, env);
      outcome := if connection.Some? then Some(Granted(connection.value.id))
                 else if exception.Some? then Some(Refused(exception.value)) else None;
      assert Cells(nodes) == cells;
      SameQueueRepresents(cells, ledger, p, model);
    }

    /**
     Goes once through the queue and dequeues every waiter that can be served, or every waiter
     if the pool is closed. Stops early once neither kind of connection is available.
     */
    method WakeConnectionWaitersLocked(env: Env)
      requires Valid()
      modifies this`nextConnectionId, this`availablePrimary, this`availableNonPrimary, this`acquiredConnections,
               this`connectionWaiterQueue, this`model, this`ledger, nodes
      ensures Valid()
      ensures model == Wake(old(model), env)
      ensures ledger.issued == old(ledger.issued) && ledger.uses == old(ledger.uses)
    {
      hide Valid, Departed, WakeFrom, AllLeave, Wake, IsOutcome;
      ghost var target, i := Wake(model, env), 0;
      WakeStarts(model, env);
      Lists();
      var predecessor: ConnectionWaiter?, waiter := null, connectionWaiterQueue;
      var noPrimary, noIdle := false, false;
      while waiter != null
        invariant Valid() && ledger.issued == old(ledger.issued) && ledger.uses == old(ledger.uses)
        invariant isOpen == model.open && i <= |model.queue| == |ledger.queued|
        invariant predecessor == (if i == 0 then null else ledger.queued[i - 1])
        invariant waiter == (if i == |ledger.queued| then null else ledger.queued[i])
        invariant isOpen ==> WakeFrom(model, i, noPrimary, noIdle, env) == target
        invariant !isOpen ==> i == 0 && AllLeave(model) == target
        decreases |model.queue| - i
      {
        NextInQueue(i);
        var successor := waiter.next;
        var connection, exception := None, None;
        ghost var outcome: Option<Outcome> := None;
        if isOpen {
          connection, exception, noPrimary, noIdle, outcome := ServeQueuedLocked(waiter, noPrimary, noIdle, env, i);
          OutcomeParts(connection, exception, outcome);
          if connection == None && exception == None && noIdle && noPrimary {
            break;
          }
        } else {
          OutcomeParts(connection, exception, outcome);
        }
        if connection.Some? || exception.Some? || !isOpen {
          DequeueLocked(predecessor, waiter, connection, exception, i, outcome);
        } else {
          predecessor, i := waiter, i + 1;
        }
        waiter := successor;
      }
      WakeEnds(model, noPrimary, noIdle, env);
    }

    // ---------------------------------------------------------------- acquiring and waiting

    // An attempt that does not wait.
    method ServeLocked(sql: Option<string>, flags: Flags, env: Env)
      returns (connection: Option<Conn>, exception: Option<Error>)
      requires Valid()
      modifies this`nextConnectionId, this`availablePrimary, this`availableNonPrimary, this`acquiredConnections,
               this`model
      ensures Valid()
      ensures var (p, a) := Serve(old(model), Request(sql, flags), env);
              model == p && Reports(p, a, connection, exception)
    {
      hide Represents, TryIdle, TryPrimary;
      ghost var cells, p := Cells(nodes), model;
      connection, exception := None, None;
      if !flags.primaryAffinity {
        connection, exception := TryAcquireNonPrimaryConnectionLocked(sql, flags, env);
      }
      if connection == None && exception == None {
        connection, exception := TryAcquirePrimaryConnectionLocked(flags, sql, env);
      }
      ServeUntouched(p, Request(sql, flags), env);
      assert Cells(nodes) == cells;
      SameQueueRepresents(cells, ledger, p, model);
    }

    // Puts a waiter for the request into the queue.
    method EnqueueLocked(sql: Option<string>, flags: Flags) returns (waiter: ConnectionWaiter, nonce: int)
      requires Valid()
      modifies this`connectionWaiterQueue, this`connectionWaiterPool, this`model, this`ledger, this`nodes, nodes
      ensures Valid() && fresh(nodes - old(nodes)) && old(nodes) <= nodes
      ensures model == Enqueue(old(model), Request(sql, flags))
      ensures IsTicket(ledger, old(model).nextTicket, waiter, nonce) && KeepsTickets(old(ledger), ledger)
    {
      hide Represents, Enqueue, Cells, Wrap32, Head;
      Lists();
      SameExceptQueue(model, Request(sql, flags));
      assert !TicketIssued(ledger, model.nextTicket) by {
        NextNotIssued(Cells(nodes), ledger, model);
      }
      var priority := if flags.interactive then 1 else 0;
      waiter := ObtainConnectionWaiterLocked(priority, flags.primaryAffinity, sql, flags);
      nonce := InsertWaiterLocked(waiter, Request(sql, flags));
    }

    /** An acquire returns a connection, throws, or leaves a waiter in the queue, to be known by its nonce. */
    method AcquireConnection(sql: Option<string>, flags: Flags, canceled: bool, env: Env)
      returns (connection: Option<Conn>, exception: Option<Error>, waiter: ConnectionWaiter?, nonce: int)
      requires Valid() && Inv(model)
      modifies this`nextConnectionId, this`availablePrimary, this`availableNonPrimary, this`acquiredConnections,
               this`connectionWaiterQueue, this`connectionWaiterPool, this`model, this`ledger, this`nodes, nodes
      ensures Valid() && Inv(model) && fresh(nodes - old(nodes)) && old(nodes) <= nodes
      ensures var (p, r) := Acquire(old(model), Request(sql, flags), canceled, env);
              && model == p
              && (match r
                  case Acquired(id) =>
                    id in p.acquired && connection == Some(p.acquired[id].conn) && exception == None && waiter == null
                  case Threw(error) => connection == None && exception == Some(error) && waiter == null
                  case Enqueued(ticket) =>
                    connection == None && exception == None && waiter != null &&
                      IsTicket(ledger, ticket, waiter, nonce))
      ensures KeepsTickets(old(ledger), ledger)
    {
      hide Valid, Inv, Serve, Enqueue, IsTicket, KeepsTickets;
      TicketsKept(ledger);
      connection, exception, waiter, nonce := None, None, null, 0;
      Lists();
      AcquireKeeps(model, Request(sql, flags), canceled, env);
      if !isOpen {
        return None, Some(PoolClosed), null, 0;
      }
      if canceled {
        return None, Some(OperationCanceled), null, 0;
      }
      connection, exception := ServeLocked(sql, flags, env);
      if connection == None && exception == None {
        waiter, nonce := EnqueueLocked(sql, flags);
      }
    }

    // Empties a waiter object, counts its nonce up, and links it in front of the free list.
    method ClearWaiter(waiter: ConnectionWaiter, ghost l: Ledger)
      requires waiter in nodes && waiter in l.uses && waiter.nonce == Wrap32(l.uses[waiter])
      requires connectionWaiterPool == Head(l.free)
      modifies this`connectionWaiterPool, waiter
      ensures RecycledCells(old(Cells(nodes)), Cells(nodes), l, waiter) && connectionWaiterPool == waiter
    {
      waiter.next := connectionWaiterPool;
      waiter.sql := None;
      waiter.assignedConnection := None;
      waiter.exception := None;
      waiter.nonce := Increment32(waiter.nonce);
      connectionWaiterPool := waiter;
    }

    // Puts a waiter whose outcome was taken at the head of the free list.
    method RecycleConnectionWaiterLocked(waiter: ConnectionWaiter, ghost ticket: nat)
      requires Waiters() && ticket in model.done && ticket in ledger.issued && waiter == ledger.issued[ticket].waiter
      requires waiter in nodes && waiter in ledger.uses && waiter.nonce == Wrap32(ledger.uses[waiter])
      modifies this`connectionWaiterPool, this`model, this`ledger, waiter
      ensures Waiters()
      ensures model == old(model).(done := old(model).done - {ticket}) && ledger == Recycled(old(ledger), waiter)
    {
      hide Represents, RecycledCells, Recycled, Cells, Head, Wrap32;
      ghost var cells, l, p := Cells(nodes), ledger, model;
      RecycledParts(l, waiter);
      ledger := Recycled(l, waiter);
      model := p.(done := p.done - {ticket});
      assert Cells(nodes) == cells;
      ClearWaiter(waiter, l);
      RecycledRepresents(cells, Cells(nodes), l, p, ticket);
    }

    /**
     The thread of a waiter wakes up: it takes its connection or its exception and recycles the
     waiter, or parks again. After a close it throws whatever the waiter holds.
     */
    method FinishWaiting(waiter: ConnectionWaiter, ghost ticket: nat)
      returns (connection: Option<Conn>, exception: Option<Error>)
      requires Valid() && Inv(model)
      requires ticket in ledger.issued && waiter == ledger.issued[ticket].waiter && waiter in ledger.uses
      requires ledger.issued[ticket].uses == ledger.uses[waiter]
      modifies this`connectionWaiterPool, this`model, this`ledger, nodes
      ensures Valid() && Inv(model) && KeepsTickets(old(ledger), ledger)
      ensures var (p, r) := Collect(old(model), ticket);
              && model == p
              && (match r
                  case Returned(id) => connection.Some? && connection.value.id == id && exception == None
                  case Raised(error) => connection == None && exception == Some(error)
                  case StillWaiting => connection == None && exception == None)
    {
      hide Represents, Inv, Wrap32;
      CollectKeeps(model, ticket);
      if !isOpen {
        return None, Some(PoolClosed);
      }
      CallbackObject(Cells(nodes), ledger, model, ticket);
      assert waiter.GetCell() == Cells(nodes)[waiter];
      connection, exception := waiter.assignedConnection, waiter.exception;
      if connection.Some? || exception.Some? {
        DoneObject(Cells(nodes), ledger, model, ticket);
        RecycleConnectionWaiterLocked(waiter, ticket);
      }
    }

    // ---------------------------------------------------------------- cancelling

    // Unlinks the waiter at position i and leaves it the exception; its own link stays as it was.
    method SetCanceled(predecessor: ConnectionWaiter?, waiter: ConnectionWaiter, ghost chain: seq<ConnectionWaiter>,
                       ghost i: nat)
      requires i < |chain| && waiter == chain[i] && (forall j :: 0 <= j < |chain| ==> chain[j] in nodes)
      requires forall j :: 0 <= j < |chain| && j != i ==> chain[j] != waiter
      requires predecessor == (if i == 0 then null else chain[i - 1])
      requires waiter.next == Successor(chain, i) && waiter.assignedConnection == None
      modifies this`connectionWaiterQueue, waiter, (if predecessor == null then {} else {predecessor})`next
      ensures UnlinkedCells(old(Cells(nodes)), Cells(nodes), chain, i, Some(Refused(OperationCanceled)))
      ensures connectionWaiterQueue == (if i == 0 then Successor(chain, i) else old(connectionWaiterQueue))
    {
      if predecessor != null {
        predecessor.next := waiter.next;
      } else {
        connectionWaiterQueue := waiter.next;
      }
      waiter.exception := Some(OperationCanceled);
    }

    method DequeueCanceledLocked(predecessor: ConnectionWaiter?, waiter: ConnectionWaiter, ghost i: nat)
      requires Waiters() && i < |model.queue| == |ledger.queued| && waiter == ledger.queued[i]
      requires predecessor == (if i == 0 then null else ledger.queued[i - 1])
      modifies this`connectionWaiterQueue, this`model, this`ledger, nodes
      ensures Waiters()
      ensures model == Dequeue(old(model), i, Refused(OperationCanceled))
      ensures ledger.issued == old(ledger.issued) && ledger.uses == old(ledger.uses)
    {
      hide Represents, Left, UnlinkedCells, Successor, Head;
      ghost var cells, l, p, outcome := Cells(nodes), ledger, model, Some(Refused(OperationCanceled));
      BeforeUnlinking(i, outcome);
      model := Dequeue(p, i, Refused(OperationCanceled));
      ledger := Left(l, i, outcome);
      assert Cells(nodes) == cells;
      SetCanceled(predecessor, waiter, l.queued, i);
      LeftRepresents(cells, Cells(nodes), l, p, i, outcome);
    }

    // The search of a cancellation: it finds the waiter, or runs off the end of the queue.
    method FindWaiterLocked(waiter: ConnectionWaiter)
      returns (found: bool, predecessor: ConnectionWaiter?, ghost i: nat)
      requires Valid()
      ensures i <= |ledger.queued| == |model.queue|
      ensures forall j :: 0 <= j < i ==> ledger.queued[j] != waiter
      ensures found <==> i < |ledger.queued|
      ensures found ==> ledger.queued[i] == waiter && predecessor == (if i == 0 then null else ledger.queued[i - 1])
    {
      hide Valid;
      Lists();
      i := 0;
      predecessor := null;
      var current := connectionWaiterQueue;
      while current != waiter
        invariant i <= |ledger.queued|
        invariant predecessor == (if i == 0 then null else ledger.queued[i - 1])
        invariant current == (if i == |ledger.queued| then null else ledger.queued[i])
        invariant forall j :: 0 <= j < i ==> ledger.queued[j] != waiter
        decreases |ledger.queued| - i
      {
        if current == null {
          return false, predecessor, i;
        }
        NextInQueue(i);
        predecessor := current;
        current := current.next;
        i := i + 1;
      }
      found := true;
    }

    /**
     Cancels the present use of a waiter object. The search ends in a null dereference exactly
     if the object holds neither a connection nor an exception and is in no queue: it was
     abandoned when the pool was closed, or is on the free list.
     */
    method CancelConnectionWaiterLocked(waiter: ConnectionWaiter, env: Env) returns (crashed: bool)
      requires Valid() && Inv(model) && waiter in nodes
      modifies this`nextConnectionId, this`availablePrimary, this`availableNonPrimary, this`acquiredConnections,
               this`connectionWaiterQueue, this`model, this`ledger, nodes
      ensures Valid() && ledger.issued == old(ledger.issued) && ledger.uses == old(ledger.uses)
      ensures CanceledObject(old(ledger), old(model), model, waiter, crashed, env)
      ensures crashed <==>
                old(waiter.assignedConnection == None && waiter.exception == None && waiter !in ledger.queued)
      ensures (exists t :: OnPresentUse(old(ledger), waiter, t)) ==>
                (crashed <==> old(!isOpen && waiter.assignedConnection == None && waiter.exception == None))
      ensures old(waiter in ledger.place && ledger.place[waiter] == FREE) ==> crashed
      ensures crashed ==> unchanged(nodes)
    {
      hide Represents, Wake, Inv, OnPresentUse, CanceledObject;
      ghost var cells, l, p := Cells(nodes), ledger, model;
      Lists();
      LengthsAgree(cells, l, p);
      assert waiter.GetCell() == cells[waiter];
      NoPresentTicket(cells, l, p, waiter);
      if waiter.assignedConnection.Some? || waiter.exception.Some? {
        AnsweredIgnored(cells, l, p, waiter, env);
        return false;
      }
      forall t | OnPresentUse(l, waiter, t) ensures isOpen <==> waiter in l.queued {
        WaitsWhileOpen(cells, l, p, waiter, t);
      }
      var found, predecessor, i := FindWaiterLocked(waiter);
      if !found {
        MissingCrashes(cells, l, p, waiter, env);
        return true;
      }
      QueuedIsCanceled(cells, l, p, i, env);
      DequeueCanceledLocked(predecessor, waiter, i);
      WakeConnectionWaitersLocked(env);
      return false;
    }

    /**
     The cancel callback of the waiter that was given out with this nonce. It is ignored
     exactly if the waiter has been recycled since and the 32-bit nonce has not come round to
     the same value: then it cancels whoever has the waiter by now.
     */
    method OnCancel(waiter: ConnectionWaiter, nonce: int, ghost ticket: nat, env: Env) returns (crashed: bool)
      requires Valid() && Inv(model) && IsTicket(ledger, ticket, waiter, nonce) && waiter in ledger.uses
      modifies this`nextConnectionId, this`availablePrimary, this`availableNonPrimary, this`acquiredConnections,
               this`connectionWaiterQueue, this`model, this`ledger, nodes
      ensures Valid() && Inv(model) && ledger.issued == old(ledger.issued) && ledger.uses == old(ledger.uses)
      ensures ledger.issued[ticket].uses == ledger.uses[waiter] ==>
                && model == Cancel(old(model), ticket, env)
                && (crashed <==> old(!isOpen && waiter.assignedConnection == None && waiter.exception == None))
      ensures (ledger.uses[waiter] - ledger.issued[ticket].uses) % 0x1_0000_0000 != 0 ==>
                !crashed && model == old(model) && unchanged(nodes)
      ensures (ledger.uses[waiter] - ledger.issued[ticket].uses) % 0x1_0000_0000 == 0 ==>
                && CanceledObject(old(ledger), old(model), model, waiter, crashed, env)
                && (crashed <==>
                      old(waiter.assignedConnection == None && waiter.exception == None && waiter !in ledger.queued))
    {
      hide Represents, Wake, Inv, Wrap32;
      CallbackObject(Cells(nodes), ledger, model, ticket);
      forall t: nat ensures Inv(Cancel(model, t, env)) {
        CancelKeeps(model, t, env);
      }
      assert waiter.GetCell() == Cells(nodes)[waiter];
      WrapsApart(ledger.issued[ticket].uses, ledger.uses[waiter]);
      assert ledger.issued[ticket].uses == ledger.uses[waiter] <==> OnPresentUse(ledger, waiter, ticket);
      if waiter.nonce == nonce {
        crashed := CancelConnectionWaiterLocked(waiter, env);
      } else {
        crashed := false;
      }
    }

    // ---------------------------------------------------------------- releasing

    method CloseConnectionLocked(connection: Conn)
      modifies this`model
      ensures model == CloseConnection(old(model), connection.id)
    {
      model := CloseConnection(model, connection.id);
    }

    method RecycleConnectionLocked(connection: Conn, status: Status, env: Env) returns (recycled: Option<Conn>)
      requires Fields()
      modifies this`model
      ensures (model, recycled) == Recycle(old(model), Held(connection, status), env)
    {
      recycled := Some(connection);
      var status' := status;
      if status == RECONFIGURE {
        if connection.id in env.reconfigureFails {
          status' := DISCARD;
        } else {
          recycled := Some(connection.(config := configuration.View(), readOnly := false));
        }
      }
      if status' == DISCARD {
        CloseConnectionLocked(connection);
        recycled := None;
      }
    }

    // What a release does before it wakes anyone, and whether it does wake anyone.
    method PutBackLocked(id: nat, env: Env) returns (wakes: bool)
      requires Fields() && Base(model) && id in acquiredConnections
      modifies this`acquiredConnections, this`availablePrimary, this`availableNonPrimary, this`model
      ensures Fields() && SameQueue(old(model), model)
      ensures Release(old(model), id, env) == ((if wakes then Wake(model, env) else model), None)
    {
      hide Wake, Base, Recycle, PoolSpec.Release;
      ghost var p := model;
      var held := acquiredConnections[id];
      ReleaseAssertion(p, id, env);
      ReleaseBranches(p, id, env);
      acquiredConnections := acquiredConnections - {id};
      model := model.(acquired := acquiredConnections);
      if !isOpen {
        CloseConnectionLocked(held.conn);
        wakes := false;
      } else if held.conn.primary {
        var recycled := RecycleConnectionLocked(held.conn, held.status, env);
        if recycled.Some? {
          assert availablePrimary == None;
          availablePrimary := recycled;
          model := model.(primary := recycled);
        }
        wakes := true;
      } else if |availableNonPrimary| >= maxConnectionPoolSize - 1 {
        CloseConnectionLocked(held.conn);
        wakes := false;
      } else {
        var recycled := RecycleConnectionLocked(held.conn, held.status, env);
        if recycled.Some? {
          availableNonPrimary := availableNonPrimary + [recycled.value];
          model := model.(idle := availableNonPrimary);
        }
        wakes := true;
      }
    }

    /** The assertion that the primary slot is empty when the primary is put back holds. */
    method ReleaseConnection(id: nat, env: Env) returns (exception: Option<Error>)
      requires Valid() && Inv(model) && NotGranted(model, id)
      modifies this`nextConnectionId, this`availablePrimary, this`availableNonPrimary, this`acquiredConnections,
               this`connectionWaiterQueue, this`model, this`ledger, nodes
      ensures Valid() && Inv(model) && ledger.issued == old(ledger.issued) && ledger.uses == old(ledger.uses)
      ensures (model, exception) == Release(old(model), id, env)
    {
      hide Represents, Wake, Base, NoLostWakeup;
      ReleaseKeeps(model, id, env);
      if id !in acquiredConnections {
        return Some(NotAcquired);
      }
      ghost var cells, p := Cells(nodes), model;
      var wakes := PutBackLocked(id, env);
      assert Cells(nodes) == cells;
      SameQueueRepresents(cells, ledger, p, model);
      if wakes {
        WakeConnectionWaitersLocked(env);
      }
      exception := None;
    }

    /**
     Whether the holder of a connection should give it up: None is the exception for a connection
     that is not acquired.
     */
    method ShouldYieldConnection(id: nat, flags: Flags) returns (blocking: Option<bool>)
      requires Valid()
      ensures blocking == ShouldYield(model, id, Request(None, flags))
    {
      hide Represents;
      Lists();
      if id !in acquiredConnections {
        return None;
      }
      if !isOpen {
        return Some(false);
      }
      var holdingPrimary := acquiredConnections[id].conn.primary;
      var waiter := connectionWaiterQueue;
      var priority := if flags.interactive then 1 else 0;
      ghost var i := 0;
      while waiter != null
        invariant i <= |model.queue| == |ledger.queued|
        invariant waiter == (if i == |ledger.queued| then null else ledger.queued[i])
        invariant BlocksFrom(model.queue, holdingPrimary, priority, 0) ==
                    BlocksFrom(model.queue, holdingPrimary, priority, i)
        decreases |model.queue| - i
      {
        QueuedObject(Cells(nodes), ledger, model, i);
        assert waiter.GetCell() == Cells(nodes)[waiter];
        if priority > waiter.priority {
          break;
        }
        if holdingPrimary || !waiter.wantPrimary {
          return Some(true);
        }
        waiter := waiter.next;
        i := i + 1;
      }
      return Some(false);
    }

    // ---------------------------------------------------------------- closing and reconfiguring

    method CloseAvailableNonPrimaryConnectionsLocked()
      requires Fields()
      modifies this`availableNonPrimary, this`model
      ensures Fields() && model == CloseIdle(old(model))
    {
      ghost var p := model;
      var count := |availableNonPrimary|;
      for i := 0 to count
        invariant availableNonPrimary == p.idle
        invariant model == p.(closed := p.closed + Ids(p.idle[..i]))
      {
        assert p.idle[..i + 1] == p.idle[..i] + [p.idle[i]];
        IdsAppend(p.idle[..i], [p.idle[i]]);
        assert Ids([p.idle[i]]) == {p.idle[i].id};
        CloseConnectionLocked(availableNonPrimary[i]);
      }
      assert p.idle[..count] == p.idle;
      availableNonPrimary := [];
      model := model.(idle := []);
    }

    method CloseAvailableConnectionsLocked()
      requires Fields()
      modifies this`availableNonPrimary, this`availablePrimary, this`model
      ensures Fields() && model == CloseAvailable(old(model))
    {
      CloseAvailableNonPrimaryConnectionsLocked();
      if availablePrimary.Some? {
        CloseConnectionLocked(availablePrimary.value);
        availablePrimary := None;
        model := model.(primary := None);
      }
    }

    method CloseExcessConnectionsLocked()
      requires Fields() && maxConnectionPoolSize >= 1
      modifies this`availableNonPrimary, this`model
      ensures Fields() && model == CloseExcess(old(model))
    {
      ghost var p := model;
      var availableCount := |availableNonPrimary|;
      ExcessEnds(p, availableCount);
      hide Ids, CloseExcess;
      while availableCount > maxConnectionPoolSize - 1
        invariant 0 <= availableCount <= |p.idle|
        invariant availableCount >= p.max - 1 || availableCount == |p.idle|
        invariant Fields() && model == Shortened(p, availableCount)
      {
        ExcessStep(p, availableCount);
        availableCount := availableCount - 1;
        var connection := availableNonPrimary[availableCount];
        availableNonPrimary := availableNonPrimary[..availableCount];
        model := model.(idle := availableNonPrimary);
        CloseConnectionLocked(connection);
      }
      ExcessEnds(p, availableCount);
    }

    method MarkAcquiredConnectionsLocked(status: Status)
      requires Fields()
      modifies this`acquiredConnections, this`model
      ensures Fields() && model == old(model).(acquired := MarkAcquired(old(model).acquired, status))
    {
      hide MarkAcquired;
      ghost var was := acquiredConnections;
      var entries := acquiredConnections.Keys;
      var keysToUpdate: seq<nat> := [];
      while entries != {}
        invariant entries <= was.Keys
        invariant forall id :: id in keysToUpdate <==> id in was && id !in entries && Remarked(was, id, status)
        modifies {}
        decreases |entries|
      {
        var id :| id in entries;
        entries := entries - {id};
        var oldStatus := acquiredConnections[id].status;
        if status != oldStatus && oldStatus != DISCARD {
          keysToUpdate := keysToUpdate + [id];
        }
      }
      hide Remarked;
      ghost var updated := {};
      MarkedNone(was, status);
      for i := 0 to |keysToUpdate|
        invariant model == old(model) && updated <= was.Keys && (forall id :: id in updated ==> id in keysToUpdate)
        invariant forall j :: 0 <= j < i ==> keysToUpdate[j] in updated
        invariant acquiredConnections == Marked(was, updated, status)
      {
        var key := keysToUpdate[i];
        MarkedNext(was, updated, key, status);
        acquiredConnections := acquiredConnections[key := Held(acquiredConnections[key].conn, status)];
        updated := updated + {key};
      }
      MarkedAll(was, updated, status);
      model := model.(acquired := acquiredConnections);
    }

    method ReconfigurePrimaryLocked(env: Env)
      requires Fields()
      modifies this`availablePrimary, this`model
      ensures Fields() && model == ReconfigurePrimary(old(model), env)
    {
      if availablePrimary.Some? {
        var connection := availablePrimary.value;
        if connection.id in env.reconfigureFails {
          CloseConnectionLocked(connection);
          availablePrimary := None;
        } else {
          availablePrimary := Some(connection.(config := configuration.View(), readOnly := false));
        }
        model := model.(primary := availablePrimary);
      }
    }

    // Reconfigures the idle connections one after the other, taking out those that fail.
    method ReconfigureIdleLocked(env: Env)
      requires Fields()
      modifies this`availableNonPrimary, this`model
      ensures Fields()
      ensures var p := old(model);
              model == p.(idle := Reconfigured(p.idle, p.config, env),
                          closed := p.closed + Ids(p.idle) * env.reconfigureFails)
    {
      hide Reconfigured, Ids;
      ghost var p, rest := model, availableNonPrimary;
      var i, count := 0, |availableNonPrimary|;
      while i < count
        invariant 0 <= i <= count == |availableNonPrimary| && rest == availableNonPrimary[i..]
        invariant availableNonPrimary[..i] + Reconfigured(rest, p.config, env) == Reconfigured(p.idle, p.config, env)
        invariant model == p.(closed := model.closed)
        invariant model.closed + Ids(rest) * env.reconfigureFails == p.closed + Ids(p.idle) * env.reconfigureFails
        decreases count - i
      {
        var connection := availableNonPrimary[i];
        ReconfiguredStep(rest, availableNonPrimary[..i], model.closed, p.config, env);
        if connection.id in env.reconfigureFails {
          CloseConnectionLocked(connection);
          availableNonPrimary := availableNonPrimary[..i] + availableNonPrimary[i + 1..];
          count := count - 1;
        } else {
          availableNonPrimary :=
            availableNonPrimary[i := connection.(config := configuration.View(), readOnly := false)];
          i := i + 1;
        }
        rest := rest[1..];
      }
      NothingLeft(p.config, env);
      model := model.(idle := availableNonPrimary);
    }

    method ReconfigureAllConnectionsLocked(env: Env)
      requires Fields()
      modifies this`availableNonPrimary, this`availablePrimary, this`acquiredConnections, this`model
      ensures Fields() && model == ReconfigureAll(old(model), env)
    {
      hide Reconfigured, ReconfigurePrimary;
      ReconfigurePrimaryLocked(env);
      ReconfigureIdleLocked(env);
      MarkAcquiredConnectionsLocked(RECONFIGURE);
    }

    method UpdateConfigurationLocked(configuration: SQLiteDatabaseConfiguration)
      requires Fields() && configuration != this.configuration && configuration.path == this.configuration.path
      modifies this.configuration, this`maxConnectionPoolSize, this`model
      ensures Fields()
      ensures model == old(model).(config := configuration.View(), max := PoolSize(configuration.View()))
    {
      var _ := this.configuration.UpdateParametersFrom(configuration);
      model := model.(config := this.configuration.View());
      SetMaxConnectionPoolSizeLocked();
    }

    // Opens a new primary, then closes or discards every other connection; what is left to do is the wake-up.
    method ReopenLocked(configuration: SQLiteDatabaseConfiguration, walModeChanged: bool, env: Env)
      returns (exception: Option<Error>)
      requires Fields() && configuration != this.configuration && configuration.path == this.configuration.path
      requires walModeChanged <==> Wal(configuration.View()) != Wal(model.config)
      modifies this.configuration, this`maxConnectionPoolSize, this`nextConnectionId, this`availablePrimary,
               this`availableNonPrimary, this`acquiredConnections, this`model
      ensures Fields() && SameQueue(old(model), model)
      ensures Reopen(old(model), configuration.View(), env) ==
                ((if exception.None? then Wake(model, env) else model), exception)
    {
      hide Wake, MarkAcquired, CloseAvailable, OpenConnection, Wal, Reopen;
      ReopenSteps(model, configuration.View(), env);
      if walModeChanged {
        CloseAvailableConnectionsLocked();
      }
      var newPrimaryConnection;
      newPrimaryConnection, exception := OpenConnectionLocked(configuration, true, env);
      if exception.Some? {
        return;
      }
      CloseAvailableConnectionsLocked();
      MarkAcquiredConnectionsLocked(DISCARD);
      availablePrimary := newPrimaryConnection;
      model := model.(primary := newPrimaryConnection);
      UpdateConfigurationLocked(configuration);
    }

    method ReconfigureInPlaceLocked(configuration: SQLiteDatabaseConfiguration, env: Env)
      requires Fields() && configuration != this.configuration && configuration.path == this.configuration.path
      modifies this.configuration, this`maxConnectionPoolSize, this`availablePrimary,
               this`availableNonPrimary, this`acquiredConnections, this`model
      ensures Fields() && SameQueue(old(model), model)
      ensures ReconfigureInPlace(old(model), configuration.View(), env) == Wake(model, env)
    {
      hide Wake, MarkAcquired, Reconfigured;
      UpdateConfigurationLocked(configuration);
      CloseExcessConnectionsLocked();
      ReconfigureAllConnectionsLocked(env);
    }

    // The first half of a reconfiguration: it throws if connections are in use that must not be.
    method CheckReconfigurationLocked(configuration: SQLiteDatabaseConfiguration, ghost env: Env)
      returns (walModeChanged: bool, exception: Option<Error>)
      requires Fields() && configuration.path == this.configuration.path
      modifies this`availableNonPrimary, this`model
      ensures Fields() && SameQueue(old(model), model) && model.config == old(model.config)
      ensures walModeChanged <==> Wal(configuration.View()) != Wal(model.config)
      ensures PoolSpec.Reconfigure(old(model), configuration.View(), env) ==
              if exception.Some? then (model, exception)
              else if configuration.View().openFlags != model.config.openFlags then
                Reopen(model, configuration.View(), env)
              else (ReconfigureInPlace(model, configuration.View(), env), None)
    {
      hide Reopen, ReconfigureInPlace, WalModeChanged, WalFlag;
      walModeChanged, exception := WalModeChanged(configuration.openFlags, this.configuration.openFlags), None;
      FlagChanged(configuration.openFlags, this.configuration.openFlags);
      if !isOpen {
        return walModeChanged, Some(PoolClosed);
      }
      if walModeChanged {
        if acquiredConnections != map[] {
          return walModeChanged, Some(WalInUse);
        }
        CloseAvailableNonPrimaryConnectionsLocked();
      }
      var foreignKeyModeChanged := configuration.foreignKeys != this.configuration.foreignKeys;
      if foreignKeyModeChanged {
        if acquiredConnections != map[] {
          return walModeChanged, Some(ForeignKeysInUse);
        }
      }
    }

    // Everything a reconfiguration does before it wakes anyone.
    method ReconfigureLocked(configuration: SQLiteDatabaseConfiguration, env: Env) returns (exception: Option<Error>)
      requires Fields() && configuration != this.configuration && configuration.path == this.configuration.path
      modifies this.configuration, this`maxConnectionPoolSize, this`nextConnectionId, this`availablePrimary,
               this`availableNonPrimary, this`acquiredConnections, this`model
      ensures Fields() && SameQueue(old(model), model)
      ensures PoolSpec.Reconfigure(old(model), configuration.View(), env) ==
                ((if exception.None? then Wake(model, env) else model), exception)
    {
      hide Wake, Reopen, ReconfigureInPlace, PoolSpec.Reconfigure, WalFlag;
      var walModeChanged;
      walModeChanged, exception := CheckReconfigurationLocked(configuration, env);
      if exception.Some? {
        return;
      }
      if this.configuration.openFlags != configuration.openFlags {
        exception := ReopenLocked(configuration, walModeChanged, env);
      } else {
        ReconfigureInPlaceLocked(configuration, env);
      }
    }

    /**
     Takes over the parameters of another configuration object and brings every connection to
     them, at once or when it is released. When it throws, the pool keeps its configuration.
     */
    method Reconfigure(configuration: SQLiteDatabaseConfiguration, env: Env) returns (exception: Option<Error>)
      requires Valid() && Inv(model)
      requires configuration != this.configuration && configuration.path == this.configuration.path
      modifies this.configuration, this`maxConnectionPoolSize, this`nextConnectionId, this`availablePrimary,
               this`availableNonPrimary, this`acquiredConnections, this`connectionWaiterQueue, this`model, this`ledger,
               nodes
      ensures Valid() && Inv(model) && ledger.issued == old(ledger.issued) && ledger.uses == old(ledger.uses)
      ensures (model, exception) == PoolSpec.Reconfigure(old(model), configuration.View(), env)
      ensures model.config == if exception == None then configuration.View() else old(model.config)
    {
      hide Represents, Wake, Inv, Reopen, ReconfigureInPlace;
      ghost var cells, p := Cells(nodes), model;
      ReconfigureKeeps(p, configuration.View(), env);
      ReconfigureTakesConfig(p, configuration.View(), env);
      exception := ReconfigureLocked(configuration, env);
      assert Cells(nodes) == cells;
      SameQueueRepresents(cells, ledger, p, model);
      if exception.None? {
        WakeConnectionWaitersLocked(env);
      }
    }

    method Close(env: Env) returns (exception: Option<Error>)
      requires Valid() && Inv(model)
      modifies this`isOpen, this`nextConnectionId, this`availablePrimary, this`availableNonPrimary,
               this`acquiredConnections,
               this`connectionWaiterQueue, this`model, this`ledger, nodes
      ensures Valid() && Inv(model) && ledger.issued == old(ledger.issued) && ledger.uses == old(ledger.uses)
      ensures (model, exception) == PoolSpec.Close(old(model), env)
    {
      hide Represents, Wake, Inv;
      ghost var cells, p := Cells(nodes), model;
      CloseKeeps(p, env);
      if !isOpen {
        return Some(PoolClosed);
      }
      isOpen := false;
      model := model.(open := false);
      CloseAvailableConnectionsLocked();
      assert Cells(nodes) == cells;
      SameQueueRepresents(cells, ledger, p, model);
      WakeConnectionWaitersLocked(env);
      exception := None;
    }

    /** Opens the primary connection of a new pool; the pool is not usable when that throws. */
    method Open(env: Env) returns (exception: Option<Error>)
      requires Valid() && nodes == {}
      requires model == Pool(false, model.config, PoolSize(model.config), 0, None, [], map[], [], map[], 0, {}, {})
      modifies this`isOpen, this`nextConnectionId, this`availablePrimary, this`model
      ensures exception.None? <==> OpenPool(old(model.config), env).Some?
      ensures exception.None? ==> Valid() && Inv(model) && Some(model) == OpenPool(old(model.config), env)
    {
      hide Represents, Inv, Cells, Head;
      ghost var cells, p := Cells(nodes), model;
      availablePrimary, exception := OpenConnectionLocked(configuration, true, env);
      isOpen := exception.None?;
      model := model.(primary := availablePrimary, open := isOpen);
      assert Cells(nodes) == cells;
      SameQueueRepresents(cells, ledger, p, model);
      if isOpen {
        OpenPoolKeeps(p.config, env);
      }
    }
  }

  // ---------------------------------------------------------------- a cancellation after a close

  const ALL_WELL := Env({}, {}, {})
  const FOR_PRIMARY := Flags(false, true, false)

  // What two sessions that ask the opened pool for the same come to.
  ghost function AcquiredTwice(config: Config, flags: Flags, env: Env): (Pool, Acquisition)
    requires OpenPool(config, env).Some?
  {
    var p := Acquire(OpenPool(config, env).value, Request(None, flags), false, env).0;
    Acquire(p, Request(None, flags), false, env)
  }

  method AcquireTwice(configuration: SQLiteDatabaseConfiguration, flags: Flags, env: Env)
    returns (pool: SQLiteConnectionPool, waiter: ConnectionWaiter?, nonce: int)
    requires OpenPool(configuration.View(), env).Some?
    ensures fresh(pool) && fresh(pool.nodes) && pool.Valid() && Inv(pool.model)
    ensures var (p, r) := AcquiredTwice(configuration.View(), flags, env);
            && pool.model == p
            && (r.Enqueued? ==> waiter != null && IsTicket(pool.ledger, r.ticket, waiter, nonce))
  {
    hide SQLiteConnectionPool.Valid, Inv, Acquire, OpenPool, IsTicket;
    pool := new SQLiteConnectionPool(configuration);
    var exception := pool.Open(env);
    var connection;
    connection, exception, waiter, nonce := pool.AcquireConnection(None, flags, false, env);
    connection, exception, waiter, nonce := pool.AcquireConnection(None, flags, false, env);
  }

  lemma ClosedWhileWaiting(config: Config)
    requires config.maxSqlCacheSize > 0
    ensures OpenPool(config, ALL_WELL).Some?
    ensures var (p, r) := AcquiredTwice(config, FOR_PRIMARY, ALL_WELL);
            p.open && r == Enqueued(0) && 0 in PoolSpec.Close(p, ALL_WELL).0.abandoned
  {
    var p := Acquire(OpenPool(config, ALL_WELL).value, Request(None, FOR_PRIMARY), false, ALL_WELL).0;
    assert p.acquired[0].conn.primary;
    var q := AcquiredTwice(config, FOR_PRIMARY, ALL_WELL).0;
    assert q.queue[0].ticket == 0;
    assert CloseAvailable(q.(open := false)).queue == q.queue;
  }

  // The second session is cancelled once the pool was closed.
  method CancelSecond(configuration: SQLiteDatabaseConfiguration, flags: Flags, env: Env, ghost ticket: nat)
    returns (crashed: bool)
    requires OpenPool(configuration.View(), env).Some?
    requires var (p, r) := AcquiredTwice(configuration.View(), flags, env);
             p.open && r == Enqueued(ticket) && ticket in PoolSpec.Close(p, env).0.abandoned
    ensures crashed
  {
    hide SQLiteConnectionPool.Valid, Inv, Cancel, PoolSpec.Close, AcquiredTwice, OpenPool;
    var pool, waiter, nonce := AcquireTwice(configuration, flags, env);
    var exception := pool.Close(env);
    pool.TicketObject(ticket);
    assert OnPresentUse(pool.ledger, waiter, ticket) && ticket in pool.model.abandoned;
    crashed := pool.OnCancel(waiter, nonce, ticket, env);
  }

  /** Two sessions ask for the primary, the pool is closed, and the one that waits is cancelled: a null dereference. */
  method CancelAfterClose(configuration: SQLiteDatabaseConfiguration) returns (crashed: bool)
    requires configuration.maxSqlCacheSize > 0
    ensures crashed
  {
    ClosedWhileWaiting(configuration.View());
    crashed := CancelSecond(configuration, FOR_PRIMARY, ALL_WELL, 0);
  }
}
