/**
 The connection pool as a value. Every function here is one lock-held section of
 SQLiteConnectionPool, taken as an atomic step on a `Pool`; the class in
 ConnectionPool.dfy performs the same steps in place and is proved against them.

 Opening and reconfiguring a connection are native calls that may throw. Which of them
 throw during a step is given by an `Env`; so is the content of the prepared statement
 caches, which decides between several idle connections.
 */
module PoolSpec {
  import opened Wrappers
  import opened Configuration

  datatype Conn = Conn(id: nat, primary: bool, config: Config, readOnly: bool)

  datatype Status = NORMAL | RECONFIGURE | DISCARD

  datatype Held = Held(conn: Conn, status: Status)

  // The three bits of the connection flags.
  datatype Flags = Flags(readOnly: bool, primaryAffinity: bool, interactive: bool)

  datatype Request = Request(sql: Option<string>, flags: Flags)

  // `ticket` numbers the waiters in order of arrival.
  datatype Waiter = Waiter(ticket: nat, request: Request)

  datatype Error =
    | PoolClosed
    | OperationCanceled
    | OpenFailed(id: nat)
    | NotAcquired
    | WalInUse
    | ForeignKeysInUse

  // What a dequeued waiter finds when its thread wakes up.
  datatype Outcome = Granted(id: nat) | Refused(error: Error)

  datatype Env = Env(openFails: set<nat>, reconfigureFails: set<nat>, cached: set<(nat, string)>)

  datatype Pool = Pool(
    open: bool,
    config: Config,
    max: int,
    nextId: nat,
    primary: Option<Conn>,
    idle: seq<Conn>,
    acquired: map<nat, Held>,
    queue: seq<Waiter>,
    done: map<nat, Outcome>,      // dequeued waiters whose thread has not woken up yet
    nextTicket: nat,
    closed: set<nat>,             // connections closed so far
    abandoned: set<nat>)          // waiters dequeued by the closing of the pool

  // Result of one attempt to take a connection.
  datatype Attempt = Got(id: nat) | Unavailable | Failed(error: Error)

  // Result of an acquire: the connection, an exception, or a place in the queue.
  datatype Acquisition = Acquired(id: nat) | Threw(error: Error) | Enqueued(ticket: nat)

  // Result of a wake-up: the connection, an exception, or parked again.
  datatype Awakening = Returned(id: nat) | Raised(error: Error) | StillWaiting

  function PoolSize(config: Config): int {
    if Wal(config) then 10 else 1
  }

  function Priority(request: Request): int {
    if request.flags.interactive then 1 else 0
  }

  function SlotCount(p: Pool): nat {
    if p.primary.Some? then 1 else 0
  }

  predicate HasAcquiredPrimary(acquired: map<nat, Held>) {
    exists id | id in acquired :: acquired[id].conn.primary
  }

  // ---------------------------------------------------------------- taking a connection

  /**
   Opening the connection with this number throws: the database cannot be opened, or the size is
   none that the cache for prepared statements can have.
   */
  predicate OpenFails(id: nat, config: Config, env: Env) {
    id in env.openFails || config.maxSqlCacheSize <= 0
  }

  /** A connection that fails to open is disposed of by its own `open`. */
  function OpenConnection(p: Pool, config: Config, primary: bool, env: Env): (Pool, Option<Conn>) {
    if OpenFails(p.nextId, config, env) then
      (p.(nextId := p.nextId + 1, closed := p.closed + {p.nextId}), None)
    else
      (p.(nextId := p.nextId + 1), Some(Conn(p.nextId, primary, config, false)))
  }

  function FinishAcquire(p: Pool, conn: Conn, request: Request): Pool {
    p.(acquired := p.acquired[conn.id := Held(conn.(readOnly := request.flags.readOnly), NORMAL)])
  }

  function OpenAndAcquire(p: Pool, primary: bool, request: Request, env: Env): (Pool, Attempt) {
    var (p', conn) := OpenConnection(p, p.config, primary, env);
    if conn.None? then (p', Failed(OpenFailed(p.nextId)))
    else (FinishAcquire(p', conn.value, request), Got(conn.value.id))
  }

  function TryPrimary(p: Pool, request: Request, env: Env): (Pool, Attempt) {
    if p.primary.Some? then
      (FinishAcquire(p.(primary := None), p.primary.value, request), Got(p.primary.value.id))
    else if HasAcquiredPrimary(p.acquired) then
      (p, Unavailable)
    else
      OpenAndAcquire(p, true, request, env)
  }

  // The first connection from index `i` on that has the statement cached, else -1.
  function FirstCached(idle: seq<Conn>, sql: string, env: Env, i: nat): (k: int)
    requires i <= |idle|
    ensures k == -1 || i <= k < |idle|
    decreases |idle| - i
  {
    if i == |idle| then -1
    else if (idle[i].id, sql) in env.cached then i
    else FirstCached(idle, sql, env, i + 1)
  }

  function PickIdle(idle: seq<Conn>, sql: Option<string>, env: Env): (k: nat)
    requires |idle| > 0
    ensures k < |idle|
  {
    if |idle| > 1 && sql.Some? && FirstCached(idle, sql.value, env, 0) != -1 then
      FirstCached(idle, sql.value, env, 0)
    else
      |idle| - 1
  }

  function TryIdle(p: Pool, request: Request, env: Env): (Pool, Attempt) {
    if |p.idle| > 0 then
      var k := PickIdle(p.idle, request.sql, env);
      (FinishAcquire(p.(idle := p.idle[..k] + p.idle[k + 1..]), p.idle[k], request), Got(p.idle[k].id))
    else if |p.acquired| + SlotCount(p) >= p.max then
      (p, Unavailable)
    else
      OpenAndAcquire(p, false, request, env)
  }

  /** One request, served without waiting: a non-primary connection if it accepts one, else the primary. */
  function Serve(p: Pool, request: Request, env: Env): (Pool, Attempt) {
    if request.flags.primaryAffinity then
      TryPrimary(p, request, env)
    else
      var (p', a) := TryIdle(p, request, env);
      if a != Unavailable then (p', a) else TryPrimary(p', request, env)
  }

  // ---------------------------------------------------------------- the waiter queue

  // Where a waiter of this priority is inserted: before the first one of lower priority.
  function InsertionPoint(queue: seq<Waiter>, priority: int, i: nat): (k: nat)
    requires i <= |queue|
    ensures i <= k <= |queue|
    decreases |queue| - i
  {
    if i == |queue| || priority > Priority(queue[i].request) then i
    else InsertionPoint(queue, priority, i + 1)
  }

  function Enqueue(p: Pool, request: Request): Pool {
    var k := InsertionPoint(p.queue, Priority(request), 0);
    p.(queue := p.queue[..k] + [Waiter(p.nextTicket, request)] + p.queue[k..],
       nextTicket := p.nextTicket + 1)
  }

  function Dequeue(p: Pool, i: nat, outcome: Outcome): Pool
    requires i < |p.queue|
  {
    p.(queue := p.queue[..i] + p.queue[i + 1..], done := p.done[p.queue[i].ticket := outcome])
  }

  // The position of a ticket in the queue from index `i` on, |queue| if it is not there.
  function Position(queue: seq<Waiter>, ticket: nat, i: nat): (k: nat)
    requires i <= |queue|
    ensures i <= k <= |queue|
    ensures k < |queue| ==> queue[k].ticket == ticket
    ensures forall j :: i <= j < k ==> queue[j].ticket != ticket
    decreases |queue| - i
  {
    if i == |queue| || queue[i].ticket == ticket then i
    else Position(queue, ticket, i + 1)
  }

  /**
   One turn of the wake-up loop: like `Serve`, but it skips an attempt that a flag says
   is hopeless, and raises the flag of an attempt that found nothing.
   */
  function ServeFlagged(p: Pool, request: Request, noPrimary: bool, noIdle: bool, env: Env)
    : (Pool, Attempt, bool, bool)
  {
    var (p1, a1) :=
      if !request.flags.primaryAffinity && !noIdle then TryIdle(p, request, env) else (p, Unavailable);
    var noIdle1 := noIdle || (!request.flags.primaryAffinity && a1 == Unavailable);
    if a1 == Unavailable && !noPrimary then
      var (p2, a2) := TryPrimary(p1, request, env);
      (p2, a2, a2 == Unavailable, noIdle1)
    else
      (p1, a1, noPrimary, noIdle1)
  }

  /** The wake-up loop of an open pool from queue position `i` on, with its two flags and its early exit. */
  function WakeFrom(p: Pool, i: nat, noPrimary: bool, noIdle: bool, env: Env): Pool
    requires i <= |p.queue|
    decreases |p.queue| - i
  {
    if i == |p.queue| then p
    else
      var (p1, a, noPrimary1, noIdle1) := ServeFlagged(p, p.queue[i].request, noPrimary, noIdle, env);
      match a
      case Got(id) => WakeFrom(Dequeue(p1, i, Granted(id)), i, noPrimary1, noIdle1, env)
      case Failed(error) => WakeFrom(Dequeue(p1, i, Refused(error)), i, noPrimary1, noIdle1, env)
      case Unavailable =>
        if noPrimary1 && noIdle1 then p1 else WakeFrom(p1, i + 1, noPrimary1, noIdle1, env)
  }

  function Tickets(queue: seq<Waiter>): set<nat> {
    set w | w in queue :: w.ticket
  }

  function Wake(p: Pool, env: Env): Pool {
    if p.open then WakeFrom(p, 0, false, false, env)
    else p.(queue := [], abandoned := p.abandoned + Tickets(p.queue))
  }

  // ---------------------------------------------------------------- the lock-held sections

  function Acquire(p: Pool, request: Request, canceled: bool, env: Env): (Pool, Acquisition) {
    if !p.open then (p, Threw(PoolClosed))
    else if canceled then (p, Threw(OperationCanceled))
    else
      var (p', a) := Serve(p, request, env);
      match a
      case Got(id) => (p', Acquired(id))
      case Failed(error) => (p', Threw(error))
      case Unavailable => (Enqueue(p', request), Enqueued(p'.nextTicket))
  }

  /** The thread of a waiter wakes up and looks at its waiter. */
  function Collect(p: Pool, ticket: nat): (Pool, Awakening) {
    if !p.open then (p, Raised(PoolClosed))
    else if ticket !in p.done then (p, StillWaiting)
    else
      (p.(done := p.done - {ticket}),
       match p.done[ticket]
       case Granted(id) => Returned(id)
       case Refused(error) => Raised(error))
  }

  /** A cancellation of a waiter that is no longer in the queue does nothing. */
  function Cancel(p: Pool, ticket: nat, env: Env): Pool {
    var k := Position(p.queue, ticket, 0);
    if k == |p.queue| then p else Wake(Dequeue(p, k, Refused(OperationCanceled)), env)
  }

  function CloseConnection(p: Pool, id: nat): Pool {
    p.(closed := p.closed + {id})
  }

  /** The pool after the call, and the connection to put back, if it is still usable. */
  function Recycle(p: Pool, held: Held, env: Env): (Pool, Option<Conn>) {
    if held.status == DISCARD
       || (held.status == RECONFIGURE && held.conn.id in env.reconfigureFails) then
      (CloseConnection(p, held.conn.id), None)
    else if held.status == RECONFIGURE then
      (p, Some(held.conn.(config := p.config, readOnly := false)))
    else
      (p, Some(held.conn))
  }

  function Release(p: Pool, id: nat, env: Env): (Pool, Option<Error>) {
    if id !in p.acquired then (p, Some(NotAcquired))
    else
      var held := p.acquired[id];
      var p1 := p.(acquired := p.acquired - {id});
      if !p.open then
        (CloseConnection(p1, id), None)
      else if held.conn.primary then
        var (p2, conn) := Recycle(p1, held, env);
        (Wake(if conn.Some? then p2.(primary := conn) else p2, env), None)
      else if |p1.idle| >= p1.max - 1 then
        (CloseConnection(p1, id), None)
      else
        var (p2, conn) := Recycle(p1, held, env);
        (Wake(if conn.Some? then p2.(idle := p2.idle + [conn.value]) else p2, env), None)
  }

  function Ids(conns: seq<Conn>): set<nat> {
    set c | c in conns :: c.id
  }

  function CloseIdle(p: Pool): Pool {
    p.(idle := [], closed := p.closed + Ids(p.idle))
  }

  function CloseAvailable(p: Pool): Pool {
    var p1 := CloseIdle(p);
    if p1.primary.Some? then p1.(primary := None, closed := p1.closed + {p1.primary.value.id}) else p1
  }

  function CloseExcess(p: Pool): Pool {
    var keep := if p.max - 1 < 0 then 0 else if p.max - 1 < |p.idle| then p.max - 1 else |p.idle|;
    p.(idle := p.idle[..keep], closed := p.closed + Ids(p.idle[keep..]))
  }

  function MarkAcquired(acquired: map<nat, Held>, status: Status): (marked: map<nat, Held>)
    ensures marked.Keys == acquired.Keys
  {
    map id | id in acquired ::
      if acquired[id].status == DISCARD then acquired[id] else acquired[id].(status := status)
  }

  // The idle connections that survive a reconfiguration, with their new configuration.
  function Reconfigured(idle: seq<Conn>, config: Config, env: Env): seq<Conn> {
    if idle == [] then []
    else
      (if idle[0].id in env.reconfigureFails then []
       else [idle[0].(config := config, readOnly := false)])
      + Reconfigured(idle[1..], config, env)
  }

  function ReconfigurePrimary(p: Pool, env: Env): Pool {
    if p.primary.None? then p
    else if p.primary.value.id in env.reconfigureFails then
      p.(primary := None, closed := p.closed + {p.primary.value.id})
    else
      p.(primary := Some(p.primary.value.(config := p.config, readOnly := false)))
  }

  function ReconfigureAll(p: Pool, env: Env): Pool {
    var p1 := ReconfigurePrimary(p, env);
    p1.(idle := Reconfigured(p1.idle, p1.config, env),
        closed := p1.closed + Ids(p1.idle) * env.reconfigureFails,
        acquired := MarkAcquired(p1.acquired, RECONFIGURE))
  }

  // The branch taken when the open flags change: a new primary, everything else closed or discarded.
  function Reopen(p: Pool, config: Config, env: Env): (Pool, Option<Error>) {
    var p1 := if Wal(config) != Wal(p.config) then CloseAvailable(p) else p;
    var (p2, conn) := OpenConnection(p1, config, true, env);
    if conn.None? then (p2, Some(OpenFailed(p1.nextId)))
    else
      var p3 := CloseAvailable(p2);
      var p4 := p3.(acquired := MarkAcquired(p3.acquired, DISCARD),
                    primary := conn,
                    config := config,
                    max := PoolSize(config));
      (Wake(p4, env), None)
  }

  function ReconfigureInPlace(p: Pool, config: Config, env: Env): Pool {
    Wake(ReconfigureAll(CloseExcess(p.(config := config, max := PoolSize(config))), env), env)
  }

  /** The only caller, SQLiteDatabase, passes its own configuration, whose path never changes. */
  function Reconfigure(p: Pool, config: Config, env: Env): (Pool, Option<Error>)
    requires config.path == p.config.path
  {
    if !p.open then (p, Some(PoolClosed))
    else if Wal(config) != Wal(p.config) && p.acquired != map[] then (p, Some(WalInUse))
    else
      var p1 := if Wal(config) != Wal(p.config) then CloseIdle(p) else p;
      if config.foreignKeys != p.config.foreignKeys && p.acquired != map[] then
        (p1, Some(ForeignKeysInUse))
      else if config.openFlags != p.config.openFlags then
        Reopen(p1, config, env)
      else
        (ReconfigureInPlace(p1, config, env), None)
  }

  function Close(p: Pool, env: Env): (Pool, Option<Error>) {
    if !p.open then (p, Some(PoolClosed))
    else (Wake(CloseAvailable(p.(open := false)), env), None)
  }

  /** A queued waiter of the same or a higher priority that could use the held connection. */
  function BlocksFrom(queue: seq<Waiter>, holdingPrimary: bool, priority: int, i: nat): bool
    requires i <= |queue|
    decreases |queue| - i
  {
    if i == |queue| || priority > Priority(queue[i].request) then false
    else if holdingPrimary || !queue[i].request.flags.primaryAffinity then true
    else BlocksFrom(queue, holdingPrimary, priority, i + 1)
  }

  function ShouldYield(p: Pool, id: nat, request: Request): Option<bool> {
    if id !in p.acquired then None
    else Some(p.open && BlocksFrom(p.queue, p.acquired[id].conn.primary, Priority(request), 0))
  }

  /** A new pool, once its primary connection could be opened. */
  function OpenPool(config: Config, env: Env): Option<Pool> {
    var p := Pool(false, config, PoolSize(config), 0, None, [], map[], [], map[], 0, {}, {});
    var (p', conn) := OpenConnection(p, config, true, env);
    if conn.None? then None else Some(p'.(primary := conn, open := true))
  }
}
