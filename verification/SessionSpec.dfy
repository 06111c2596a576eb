/**
 SQLiteSession as a value: nested transactions and a use count on one pooled connection.
 The session keeps a log of what it did. What the pool, the native library and the listeners
 answer is given to each operation as an argument.
 */
module SessionSpec {
  import opened Wrappers
  import opened SqlStatements

  datatype Kind = DEFERRED | IMMEDIATE | EXCLUSIVE

  datatype Event =
    | Acquired(conn: nat)
    | Released(conn: nat)
    | Began(conn: nat, kind: Kind, ok: bool)              // BEGIN
    | Undone(conn: nat, ok: bool)                         // ROLLBACK after onBegin threw
    | Opened(depth: nat)                                  // a transaction, known from now on by the index of this event
    | Marked(serial: nat)
    | Ended(serial: nat, yielding: bool, told: Option<bool>, threw: bool)   // told: onCommit or onRollback
    | Finished(conn: nat, commit: bool, ok: bool)         // COMMIT or ROLLBACK of the outermost transaction
    | Worked(conn: nat, ok: bool)                         // any other statement

  datatype Transaction = Transaction(serial: nat, mode: int, listener: Option<nat>, marked: bool, childFailed: bool)

  // The innermost transaction comes first.
  datatype Session = Session(
    connection: Option<nat>,
    flags: int,
    useCount: nat,
    stack: seq<Transaction>,
    log: seq<Event>)

  const NEW_SESSION := Session(None, 0, 0, [], [])

  datatype Result = Done(value: bool) | IllegalState | Canceled | Failed

  datatype BeginEnv = BeginEnv(canceled: bool, acquired: Option<nat>, beginOk: bool, onBeginThrows: bool, undoOk: bool)

  datatype EndEnv = EndEnv(canceled: bool, listenerThrows: bool, nativeOk: bool)

  datatype Op =
    | BeginTransaction(mode: int, listener: Option<nat>, flags: int, begin: BeginEnv)
    | SetTransactionSuccessful
    | EndTransaction(end: EndEnv)
    | YieldTransaction(throwIfUnsafe: bool, canceled: bool, wanted: bool, end: EndEnv, begin: BeginEnv)
    | Execute(sql: string, flags: int, canceled: bool, acquired: Option<nat>, ok: bool, begin: BeginEnv, end: EndEnv)

  /** Between operations the connection is held exactly during a transaction, and counted once. */
  predicate Steady(s: Session) {
    && (s.connection.Some? <==> s.stack != [])
    && s.useCount == if s.stack == [] then 0 else 1
  }

  function Logged(s: Session, e: Event): Session {
    s.(log := s.log + [e])
  }

  function Acquire(s: Session, flags: int, acquired: Option<nat>): (r: (Session, bool))
    ensures r.1 ==> r.0.connection.Some?
  {
    if s.connection.Some? then (s.(useCount := s.useCount + 1), true)
    else if acquired.None? then (s, false)
    else
      (Logged(s.(connection := acquired, flags := flags, useCount := s.useCount + 1), Acquired(acquired.value)), true)
  }

  function Release(s: Session): Session
    requires s.connection.Some? && s.useCount > 0
  {
    if s.useCount > 1 then s.(useCount := s.useCount - 1)
    else Logged(s.(useCount := 0, connection := None), Released(s.connection.value))
  }

  function BeginKind(mode: int): Kind {
    if mode == 1 then IMMEDIATE else if mode == 2 then EXCLUSIVE else DEFERRED
  }

  function Push(s: Session, mode: int, listener: Option<nat>): Session {
    Logged(s.(stack := [Transaction(|s.log|, mode, listener, false, false)] + s.stack), Opened(|s.stack| + 1))
  }

  // The connection is held and nothing has been done with it.
  function BeginOutermost(s: Session, mode: int, listener: Option<nat>, env: BeginEnv): (Session, Result)
    requires s.connection.Some? && s.useCount > 0
  {
    var c := s.connection.value;
    var s1 := Logged(s, Began(c, BeginKind(mode), env.beginOk));
    if !env.beginOk then (Release(s1), Failed)
    else if listener.Some? && env.onBeginThrows then (Release(Logged(s1, Undone(c, env.undoOk))), Failed)
    else (Push(s1, mode, listener), Done(true))
  }

  function BeginUnchecked(s: Session, mode: int, listener: Option<nat>, flags: int, env: BeginEnv): (Session, Result) {
    if env.canceled then (s, Canceled)
    else if s.stack != [] then
      if listener.Some? && env.onBeginThrows then (s, Failed) else (Push(s, mode, listener), Done(true))
    else
      var (s1, got) := Acquire(s, flags, env.acquired);
      if !got then (s1, Failed) else BeginOutermost(s1, mode, listener, env)
  }

  function Begin(s: Session, mode: int, listener: Option<nat>, flags: int, env: BeginEnv): (Session, Result) {
    if s.stack != [] && s.stack[0].marked then (s, IllegalState)
    else BeginUnchecked(s, mode, listener, flags, env)
  }

  function SetSuccessful(s: Session): (Session, Result) {
    if s.stack == [] || s.stack[0].marked then (s, IllegalState)
    else (Logged(s.(stack := [s.stack[0].(marked := true)] + s.stack[1..]), Marked(s.stack[0].serial)), Done(true))
  }

  function EndUnchecked(s: Session, env: EndEnv, yielding: bool): (Session, Result)
    requires s.stack != [] && s.connection.Some? && s.useCount > 0
  {
    if env.canceled then (s, Canceled)
    else
      var top := s.stack[0];
      var successful := (top.marked || yielding) && !top.childFailed;
      var threw := top.listener.Some? && env.listenerThrows;
      var told := if top.listener.Some? then Some(successful) else None;
      var s1 := Logged(s.(stack := s.stack[1..]), Ended(top.serial, yielding, told, threw));
      if s1.stack != [] then
        (if successful && !threw then s1
         else s1.(stack := [s1.stack[0].(childFailed := true)] + s1.stack[1..]),
         if threw then Failed else Done(true))
      else
        (Release(Logged(s1, Finished(s.connection.value, successful && !threw, env.nativeOk))),
         if threw || !env.nativeOk then Failed else Done(true))
  }

  function End(s: Session, env: EndEnv): (Session, Result)
    requires Steady(s)
  {
    if s.stack == [] then (s, IllegalState) else EndUnchecked(s, env, false)
  }

  // What is not safe to yield, or not worth it.
  predicate Unsafe(s: Session) {
    s.stack == [] || s.stack[0].marked || |s.stack| > 1
  }

  function Yield(s: Session, throwIfUnsafe: bool, canceled: bool, wanted: bool, end: EndEnv,
                 begin: BeginEnv): (Session, Result)
    requires Steady(s)
  {
    if Unsafe(s) then (s, if throwIfUnsafe then IllegalState else Done(false))
    else if s.stack[0].childFailed then (s, Done(false))
    else if canceled then (s, Canceled)
    else if !wanted then (s, Done(false))
    else
      var (s1, r) := EndUnchecked(s, end, true);
      if !r.Done? then (s1, r)
      else BeginUnchecked(s1, s.stack[0].mode, s.stack[0].listener, s.flags, begin)
  }

  function ExecuteOrdinary(s: Session, flags: int, acquired: Option<nat>, ok: bool): (Session, Result) {
    var (s1, got) := Acquire(s, flags, acquired);
    if !got then (s1, Failed)
    else (Release(Logged(s1, Worked(s1.connection.value, ok))), if ok then Done(true) else Failed)
  }

  /** BEGIN, COMMIT, END and ROLLBACK given as statements are taken over by the session. */
  function ExecuteSql(s: Session, sql: string, flags: int, canceled: bool, acquired: Option<nat>, ok: bool,
                      begin: BeginEnv, end: EndEnv)
    : (Session, Result)
    requires Steady(s)
  {
    if canceled then (s, Canceled)
    else match SqlStatementType(sql)
    case BEGIN => Begin(s, 2, None, flags, begin)
    case COMMIT =>
      var (s1, r) := SetSuccessful(s);
      if !r.Done? then (s1, r) else End(s1, end)
    case ABORT => End(s, end)
    case _ => ExecuteOrdinary(s, flags, acquired, ok)
  }

  function Step(s: Session, op: Op): (Session, Result)
    requires Steady(s)
  {
    match op
    case BeginTransaction(mode, listener, flags, begin) => Begin(s, mode, listener, flags, begin)
    case SetTransactionSuccessful => SetSuccessful(s)
    case EndTransaction(end) => End(s, end)
    case YieldTransaction(throwIfUnsafe, canceled, wanted, end, begin) =>
      Yield(s, throwIfUnsafe, canceled, wanted, end, begin)
    case Execute(sql, flags, canceled, acquired, ok, begin, end) =>
      ExecuteSql(s, sql, flags, canceled, acquired, ok, begin, end)
  }

  lemma BeginSteady(s: Session, mode: int, listener: Option<nat>, flags: int, env: BeginEnv)
    requires Steady(s)
    ensures Steady(BeginUnchecked(s, mode, listener, flags, env).0)
  {
  }

  lemma EndSteady(s: Session, env: EndEnv, yielding: bool)
    requires Steady(s) && s.stack != []
    ensures Steady(EndUnchecked(s, env, yielding).0)
  {
  }

  lemma StepSteady(s: Session, op: Op)
    requires Steady(s)
    ensures Steady(Step(s, op).0)
  {
    hide SqlStatementType, BeginUnchecked, EndUnchecked;
    match op
    case BeginTransaction(mode, listener, flags, begin) => BeginSteady(s, mode, listener, flags, begin);
    case SetTransactionSuccessful =>
    case EndTransaction(end) =>
      if s.stack != [] {
        EndSteady(s, end, false);
      }
    case YieldTransaction(_, _, _, end, begin) =>
      if s.stack != [] {
        EndSteady(s, end, true);
        BeginSteady(EndUnchecked(s, end, true).0, s.stack[0].mode, s.stack[0].listener, s.flags, begin);
      }
    case Execute(_, flags, _, _, _, begin, end) =>
      BeginSteady(s, 2, None, flags, begin);
      if s.stack != [] {
        EndSteady(s, end, false);
        EndSteady(SetSuccessful(s).0, end, false);
      }
  }

  function Run(s: Session, ops: seq<Op>): (r: Session)
    requires Steady(s)
    ensures Steady(r)
    decreases |ops|
  {
    if ops == [] then s else StepSteady(s, ops[0]); Run(Step(s, ops[0]).0, ops[1..])
  }
}
