/**
 SQLiteSession in place: the open transactions are a stack linked through their parents, and
 the objects of ended ones are kept on a free list. `model` is the session as a value; every
 method performs one function of SessionSpec on it.
 */
module Session {
  import opened Wrappers
  import opened SqlStatements
  import Spec = SessionSpec
  import opened SessionRuns

  class Transaction {
    var parent: Transaction?
    var mode: int
    var listener: Option<nat>
    var markedSuccessful: bool
    var childFailed: bool
    ghost var serial: nat

    constructor ()
      ensures parent == null && !markedSuccessful && !childFailed
    {
      parent, mode, listener, markedSuccessful, childFailed := null, 0, None, false, false;
    }

    ghost function View(): Spec.Transaction
      reads this
    {
      Spec.Transaction(serial, mode, listener, markedSuccessful, childFailed)
    }
  }

  // A list of distinct objects linked through their parents, from `head` on.
  ghost predicate Linked(head: Transaction?, chain: seq<Transaction>)
    reads chain
  {
    if chain == [] then head == null
    else head == chain[0] && chain[0] !in chain[1..] && Linked(chain[0].parent, chain[1..])
  }

  ghost predicate Describes(chain: seq<Transaction>, stack: seq<Spec.Transaction>)
    reads chain
  {
    if chain == [] then stack == []
    else stack != [] && chain[0].View() == stack[0] && Describes(chain[1..], stack[1..])
  }

  ghost predicate Disjoint(a: seq<Transaction>, b: seq<Transaction>) {
    forall t :: t in a ==> t !in b
  }

  class SQLiteSession {
    var connection: Option<nat>
    var connectionFlags: int
    var connectionUseCount: int
    var transactionPool: Transaction?
    var transactionStack: Transaction?

    ghost var model: Spec.Session
    ghost var open: seq<Transaction>
    ghost var free: seq<Transaction>

    // The objects represent a stack of transactions; no object is on both lists or twice on one.
    ghost predicate Represents(stack: seq<Spec.Transaction>)
      reads this, open, free
    {
      Linked(transactionStack, open) && Linked(transactionPool, free) && Describes(open, stack) && Disjoint(open, free)
    }

    ghost function Objects(): set<Transaction>
      reads this
    {
      (set t | t in open) + (set t | t in free)
    }

    ghost predicate Fields()
      reads this
    {
      connection == model.connection && connectionFlags == model.flags && connectionUseCount == model.useCount
    }

    ghost predicate Valid()
      reads this, open, free
    {
      Fields() && Represents(model.stack)
    }

    constructor ()
      ensures Valid() && Inv(model) && model == Spec.NEW_SESSION && open == [] && free == []
    {
      connection, connectionFlags, connectionUseCount := None, 0, 0;
      transactionPool, transactionStack := null, null;
      model, open, free := Spec.NEW_SESSION, [], [];
      new;
      NewSessionInv();
    }

    // ---------------------------------------------------------------- the connection

    method AcquireConnection(flags: int, acquired: Option<nat>) returns (ok: bool)
      requires Fields() && (connection.None? ==> connectionUseCount == 0)
      modifies this`connection, this`connectionFlags, this`connectionUseCount, this`model
      ensures Fields() && (model, ok) == Spec.Acquire(old(model), flags, acquired)
    {
      if connection.None? {
        assert connectionUseCount == 0;
        if acquired.None? {
          return false;
        }
        connection := acquired;
        connectionFlags := flags;
        model := Spec.Logged(model.(connection := acquired, flags := flags), Spec.Acquired(acquired.value));
      }
      connectionUseCount := connectionUseCount + 1;
      model := model.(useCount := model.useCount + 1);
      return true;
    }

    method ReleaseConnection()
      requires Fields() && connection.Some? && connectionUseCount > 0
      modifies this`connection, this`connectionUseCount, this`model
      ensures Fields() && model == Spec.Release(old(model))
    {
      connectionUseCount := connectionUseCount - 1;
      model := model.(useCount := model.useCount - 1);
      if connectionUseCount == 0 {
        model := Spec.Logged(model.(connection := None), Spec.Released(connection.value));
        connection := None;
      }
    }

    // ---------------------------------------------------------------- the transaction objects

    // A transaction object off the free list, or a new one.
    method ObtainTransaction(mode: int, listener: Option<nat>, ghost serial: nat) returns (transaction: Transaction)
      requires Represents(model.stack)
      modifies this`transactionPool, this`free, free
      ensures Represents(model.stack)
      ensures transaction !in open && transaction !in free && transaction.parent == null
      ensures transaction.View() == Spec.Transaction(serial, mode, listener, false, false)
      ensures fresh(transaction) || transaction in old(free)
      ensures forall t :: t in free ==> t in old(free)
    {
      if transactionPool != null {
        transaction := transactionPool;
        assert free[0] in free;
        transactionPool := transaction.parent;
        free := free[1..];
        transaction.parent := null;
        transaction.markedSuccessful := false;
        transaction.childFailed := false;
      } else {
        transaction := new Transaction();
      }
      transaction.mode := mode;
      transaction.listener := listener;
      transaction.serial := serial;
    }

    // Puts an object that is on neither list on top of the stack.
    method PushTransaction(mode: int, listener: Option<nat>)
      requires Valid()
      modifies this`transactionPool, this`transactionStack, this`free, this`open, this`model, free
      ensures Valid() && model == Spec.Push(old(model), mode, listener)
      ensures fresh(Objects() - old(Objects()))
    {
      var transaction := ObtainTransaction(mode, listener, |model.log|);
      transaction.parent := transactionStack;
      transactionStack := transaction;
      open := [transaction] + open;
      assert open[1..] == old(open);
      model := Spec.Push(model, mode, listener);
    }

    method RecycleTransaction(transaction: Transaction)
      requires Represents(model.stack) && transaction !in open && transaction !in free
      modifies this`transactionPool, this`free, transaction
      ensures Represents(model.stack) && free == [transaction] + old(free)
    {
      transaction.parent := transactionPool;
      transaction.listener := None;
      transactionPool := transaction;
      free := [transaction] + free;
      assert free[1..] == old(free);
    }

    // Takes the innermost transaction off the stack; what it was told at its end is in the log.
    method PopTransaction(ghost e: Spec.Event)
      requires Valid() && transactionStack != null
      modifies this`transactionPool, this`transactionStack, this`free, this`open, this`model, Objects()
      ensures Valid() && model == Spec.Logged(old(model).(stack := old(model).stack[1..]), e)
      ensures open == old(open)[1..] && Objects() == old(Objects())
    {
      var top := transactionStack;
      assert open[0] in open;
      transactionStack := top.parent;
      open := open[1..];
      model := Spec.Logged(model.(stack := model.stack[1..]), e);
      RecycleTransaction(top);
    }

    method FailParent()
      requires Valid() && transactionStack != null
      modifies this`model, transactionStack
      ensures Valid() &&
              model == old(model).(stack := [old(model).stack[0].(childFailed := true)] + old(model).stack[1..])
    {
      assert open[0] in open;
      transactionStack.childFailed := true;
      model := model.(stack := [model.stack[0].(childFailed := true)] + model.stack[1..]);
    }

    // ---------------------------------------------------------------- transactions

    // BEGIN on a connection just acquired, then the listener, then the bookkeeping.
    method BeginOutermost(mode: int, listener: Option<nat>, env: Spec.BeginEnv) returns (result: Spec.Result)
      requires Valid() && connection.Some? && connectionUseCount > 0 && transactionStack == null
      modifies this, free
      ensures Valid() && (model, result) == Spec.BeginOutermost(old(model), mode, listener, env)
      ensures fresh(Objects() - old(Objects()))
    {
      model := Spec.Logged(model, Spec.Began(connection.value, Spec.BeginKind(mode), env.beginOk));
      if !env.beginOk {
        ReleaseConnection();
        return Spec.Failed;
      }
      if listener.Some? && env.onBeginThrows {
        model := Spec.Logged(model, Spec.Undone(connection.value, env.undoOk));
        ReleaseConnection();
        return Spec.Failed;
      }
      PushTransaction(mode, listener);
      return Spec.Done(true);
    }

    method BeginTransactionUnchecked(mode: int, listener: Option<nat>, flags: int, env: Spec.BeginEnv)
      returns (result: Spec.Result)
      requires Valid() && Inv(model)
      modifies this, Objects()
      ensures Valid() && Inv(model) && (model, result) == Spec.BeginUnchecked(old(model), mode, listener, flags, env)
      ensures fresh(Objects() - old(Objects()))
    {
      hide Kept;
      BeginKept(model, mode, listener, flags, env);
      if env.canceled {
        return Spec.Canceled;
      }
      if transactionStack == null {
        var ok := AcquireConnection(flags, env.acquired);
        if !ok {
          return Spec.Failed;
        }
        result := BeginOutermost(mode, listener, env);
      } else {
        if listener.Some? && env.onBeginThrows {
          return Spec.Failed;
        }
        PushTransaction(mode, listener);
        return Spec.Done(true);
      }
    }

    method BeginTransaction(mode: int, listener: Option<nat>, flags: int, env: Spec.BeginEnv)
      returns (result: Spec.Result)
      requires Valid() && Inv(model)
      modifies this, Objects()
      ensures Valid() && Inv(model) && (model, result) == Spec.Begin(old(model), mode, listener, flags, env)
    {
      hide Kept, Spec.BeginUnchecked;
      if transactionStack != null && transactionStack.markedSuccessful {
        return Spec.IllegalState;
      }
      result := BeginTransactionUnchecked(mode, listener, flags, env);
    }

    method SetTransactionSuccessful() returns (result: Spec.Result)
      requires Valid() && Inv(model)
      modifies this`model, open
      ensures Valid() && Inv(model) && (model, result) == Spec.SetSuccessful(old(model))
    {
      hide Kept;
      MarkKept(model);
      if transactionStack == null || transactionStack.markedSuccessful {
        return Spec.IllegalState;
      }
      assert open[0] in open;
      transactionStack.markedSuccessful := true;
      model := Spec.SetSuccessful(model).0;
      return Spec.Done(true);
    }

    /**
     Listener first, then the stack, then COMMIT or ROLLBACK, then the connection; what the
     listener threw comes last.
     */
    method EndTransactionUnchecked(env: Spec.EndEnv, yielding: bool) returns (result: Spec.Result)
      requires Valid() && Inv(model) && transactionStack != null
      modifies this, Objects()
      ensures Valid() && Inv(model) && (model, result) == Spec.EndUnchecked(old(model), env, yielding)
      ensures fresh(Objects() - old(Objects()))
    {
      hide Kept;
      EndKept(model, env, yielding);
      if env.canceled {
        return Spec.Canceled;
      }
      var top := transactionStack;
      var successful := (top.markedSuccessful || yielding) && !top.childFailed;
      var listenerThrew := false;
      ghost var told := if top.listener.Some? then Some(successful) else None;
      if top.listener.Some? {
        listenerThrew := env.listenerThrows;
        if listenerThrew {
          successful := false;
        }
      }
      PopTransaction(Spec.Ended(top.serial, yielding, told, listenerThrew));
      var nativeThrew := false;
      if transactionStack != null {
        if !successful {
          FailParent();
        }
      } else {
        nativeThrew := !env.nativeOk;
        model := Spec.Logged(model, Spec.Finished(connection.value, successful, env.nativeOk));
        ReleaseConnection();
      }
      result := if nativeThrew || listenerThrew then Spec.Failed else Spec.Done(true);
    }

    method EndTransaction(env: Spec.EndEnv) returns (result: Spec.Result)
      requires Valid() && Inv(model)
      modifies this, Objects()
      ensures Valid() && Inv(model) && (model, result) == Spec.End(old(model), env)
    {
      hide Kept, Spec.EndUnchecked;
      if transactionStack == null {
        return Spec.IllegalState;
      }
      result := EndTransactionUnchecked(env, false);
    }

    method YieldTransaction(throwIfUnsafe: bool, canceled: bool, wanted: bool, end: Spec.EndEnv, begin: Spec.BeginEnv)
      returns (result: Spec.Result)
      requires Valid() && Inv(model)
      modifies this, Objects()
      ensures Valid() && Inv(model)
      ensures (model, result) == Spec.Yield(old(model), throwIfUnsafe, canceled, wanted, end, begin)
    {
      hide Kept, Spec.EndUnchecked, Spec.BeginUnchecked;
      if open != [] {
        assert Linked(transactionStack.parent, open[1..]) && Describes(open[1..], model.stack[1..]);
      }
      if transactionStack == null || transactionStack.markedSuccessful || transactionStack.parent != null {
        return if throwIfUnsafe then Spec.IllegalState else Spec.Done(false);
      }
      if transactionStack.childFailed {
        return Spec.Done(false);
      }
      if canceled {
        return Spec.Canceled;
      }
      if !wanted {
        return Spec.Done(false);
      }
      var transactionMode, listener, flags := transactionStack.mode, transactionStack.listener, connectionFlags;
      result := EndTransactionUnchecked(end, true);
      if !result.Done? {
        return;
      }
      result := BeginTransactionUnchecked(transactionMode, listener, flags, begin);
    }

    // ---------------------------------------------------------------- statements

    method ExecuteOrdinary(flags: int, acquired: Option<nat>, ok: bool) returns (result: Spec.Result)
      requires Valid() && Inv(model)
      modifies this`connection, this`connectionFlags, this`connectionUseCount, this`model
      ensures Valid() && Inv(model) && (model, result) == Spec.ExecuteOrdinary(old(model), flags, acquired, ok)
    {
      hide Kept;
      ExecuteKept(model, flags, acquired, ok);
      var got := AcquireConnection(flags, acquired);
      if !got {
        return Spec.Failed;
      }
      model := Spec.Logged(model, Spec.Worked(connection.value, ok));
      ReleaseConnection();
      result := if ok then Spec.Done(true) else Spec.Failed;
    }

    /** Executes a statement; BEGIN, COMMIT, END and ROLLBACK are transaction operations. */
    method Execute(sql: string, flags: int, canceled: bool, acquired: Option<nat>, ok: bool, begin: Spec.BeginEnv,
                   end: Spec.EndEnv)
      returns (result: Spec.Result)
      requires Valid() && Inv(model)
      modifies this, Objects()
      ensures Valid() && Inv(model)
      ensures (model, result) == Spec.ExecuteSql(old(model), sql, flags, canceled, acquired, ok, begin, end)
    {
      hide Kept, Represents, Spec.Begin, Spec.End, Spec.SetSuccessful, Spec.ExecuteOrdinary, SqlStatementType;
      if canceled {
        return Spec.Canceled;
      }
      match SqlStatementType(sql)
      case BEGIN =>
        result := BeginTransaction(2, None, flags, begin);
      case COMMIT =>
        result := SetTransactionSuccessful();
        if result.Done? {
          result := EndTransaction(end);
        }
      case ABORT =>
        result := EndTransaction(end);
      case _ =>
        result := ExecuteOrdinary(flags, acquired, ok);
    }
  }
}
