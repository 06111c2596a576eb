/** What the statements BEGIN, COMMIT, END and ROLLBACK do to a session, told by its log. */
module SessionStatements {
  import opened Wrappers
  import opened SqlStatements
  import opened SessionSpec
  import opened SessionRuns

  // A text that begins with this word is executed.
  ghost predicate Executes(op: Op, word: string) {
    op.Execute? && !op.canceled && Says(op.sql, word)
  }

  // The listener of the innermost transaction throws.
  predicate ListenerThrows(s: Session, end: EndEnv)
    requires s.stack != []
  {
    s.stack[0].listener.Some? && end.listenerThrows
  }

  // The native transaction that a mode stands for: 0, 1 or 2.
  ghost predicate IsKindOf(kind: Kind, mode: int) {
    (mode == 1 ==> kind == IMMEDIATE) && (mode == 2 ==> kind == EXCLUSIVE) && (mode !in {1, 2} ==> kind == DEFERRED)
  }

  // A new transaction on top of the others.
  ghost predicate Pushed(s: Session, mode: int, listener: Option<nat>, s': Session) {
    && s'.log != [] && s'.log[|s'.log| - 1] == Opened(|s.stack| + 1)
    && s'.stack == [Transaction(|s'.log| - 1, mode, listener, false, false)] + s.stack
  }

  /** A transaction is begun within another one: no native command is issued, and only the listener may throw. */
  lemma BeginWithin(s: Session, mode: int, listener: Option<nat>, flags: int, env: BeginEnv)
    requires Steady(s) && s.stack != []
    ensures var (s', r) := Step(s, BeginTransaction(mode, listener, flags, env));
            && (r != Done(true) ==> s' == s)
            && (r == Done(true) ==> Pushed(s, mode, listener, s') && s'.log == s.log + [Opened(|s.stack| + 1)])
            && r == (if s.stack[0].marked then IllegalState
                     else if env.canceled then Canceled
                     else if listener.Some? && env.onBeginThrows then Failed else Done(true))
  {
  }

  /**
   An outermost transaction is begun: a connection is acquired, BEGIN issued in the mode asked
   for, and then the listener told. If BEGIN or the listener throws, the connection is released
   again, after a ROLLBACK in the second case.
   */
  lemma BeginOutside(s: Session, mode: int, listener: Option<nat>, flags: int, env: BeginEnv)
    requires Steady(s) && s.stack == []
    ensures var (s', r) := Step(s, BeginTransaction(mode, listener, flags, env));
            if env.canceled || env.acquired.None? then s' == s && r == if env.canceled then Canceled else Failed
            else
              var c := env.acquired.value;
              && |s'.log| == |s.log| + (if env.beginOk && listener.Some? && env.onBeginThrows then 4 else 3)
              && s'.log[..|s.log| + 1] == s.log + [Acquired(c)] && s'.flags == flags
              && (var began := s'.log[|s.log| + 1];
                  began == Began(c, began.kind, env.beginOk) && IsKindOf(began.kind, mode))
              && (if !env.beginOk then
                    s'.stack == [] && s'.connection == None && s'.log[|s.log| + 2..] == [Released(c)] && r == Failed
                  else if listener.Some? && env.onBeginThrows then
                    && s'.stack == [] && s'.connection == None && r == Failed
                    && s'.log[|s.log| + 2..] == [Undone(c, env.undoOk), Released(c)]
                  else
                    Pushed(s, mode, listener, s') && s'.connection == Some(c) && r == Done(true))
  {
  }

  /** The mark goes to the innermost transaction, once. */
  lemma MarkExactly(s: Session)
    requires Steady(s)
    ensures var (s', r) := Step(s, SetTransactionSuccessful);
            if s.stack == [] || s.stack[0].marked then s' == s && r == IllegalState
            else
              && r == Done(true) && s'.log == s.log + [Marked(s.stack[0].serial)] && |s'.stack| == |s.stack|
              && s'.stack[0] == s.stack[0].(marked := true) && s'.stack[1..] == s.stack[1..]
              && s'.connection == s.connection && s'.useCount == s.useCount
  {
  }

  // The innermost transaction was ended: well, or not.
  ghost predicate EndedTop(s: Session, end: EndEnv, well: bool, before: seq<Event>, told: Option<bool>, s': Session,
                           r: Result)
    requires s.stack != [] && s.connection.Some?
  {
    var threw := ListenerThrows(s, end);
    var ended := Ended(s.stack[0].serial, false, told, threw);
    if |s.stack| == 1 then
      && s'.stack == [] && s'.connection == None && s'.useCount == 0
      && s'.log == s.log + before + [ended, Finished(s.connection.value, well, end.nativeOk),
                                     Released(s.connection.value)]
      && r == if threw || !end.nativeOk then Failed else Done(true)
    else
      && s'.stack == [s.stack[1].(childFailed := s.stack[1].childFailed || !well)] + s.stack[2..]
      && s'.connection == s.connection && s'.useCount == 1
      && s'.log == s.log + before + [ended]
      && r == if threw then Failed else Done(true)
  }

  /**
   The end of a transaction, and what its caller gets: it ends well if it was marked successful,
   no transaction within it failed, and its listener did not throw. If it does not, the one around
   it has a failed child; the outermost one is committed if it ends well and else rolled back,
   and its connection released. Its listener is told before, and so of the marks alone.
   */
  lemma EndExactly(s: Session, end: EndEnv)
    requires Steady(s) && !end.canceled
    ensures var (s', r) := Step(s, EndTransaction(end));
            if s.stack == [] then s' == s && r == IllegalState
            else
              var ok := s.stack[0].marked && !s.stack[0].childFailed;
              EndedTop(s, end, ok && !ListenerThrows(s, end), [],
                       if s.stack[0].listener.Some? then Some(ok) else None, s', r)
  {
    if s.stack != [] {
      assert s.stack[1..] == if |s.stack| == 1 then [] else [s.stack[1]] + s.stack[2..];
      assert s.log + [] == s.log;
    }
  }

  /**
   ROLLBACK ends the innermost transaction and marks nothing: the outermost one is committed
   only if it had been marked successful before.
   */
  lemma RollbackStatement(s: Session, op: Op)
    requires Steady(s) && Executes(op, "ROLLBACK") && !op.end.canceled
    ensures var (s', r) := Step(s, op);
            if s.stack == [] then s' == s && r == IllegalState
            else
              var ok := s.stack[0].marked && !s.stack[0].childFailed;
              EndedTop(s, op.end, ok && !ListenerThrows(s, op.end), [],
                       if s.stack[0].listener.Some? then Some(ok) else None, s', r)
  {
    TransactionStatements(op.sql);
    EndExactly(s, op.end);
    hide SqlStatementType, Says, End, EndedTop;
  }

  /** COMMIT or END marks the innermost transaction and ends it, unless there is none or it is marked already. */
  lemma CommitStatement(s: Session, op: Op)
    requires Steady(s) && (Executes(op, "COMMIT") || Executes(op, "END")) && !op.end.canceled
    ensures var (s', r) := Step(s, op);
            if s.stack == [] || s.stack[0].marked then s' == s && r == IllegalState
            else
              var ok := !s.stack[0].childFailed;
              EndedTop(s, op.end, ok && !ListenerThrows(s, op.end), [Marked(s.stack[0].serial)],
                       if s.stack[0].listener.Some? then Some(ok) else None, s', r)
  {
    TransactionStatements(op.sql);
    hide SqlStatementType, Says, End, EndedTop;
    if s.stack != [] && !s.stack[0].marked {
      var s1 := SetSuccessful(s).0;
      var (s', r) := End(s1, op.end);
      EndExactly(s1, op.end);
      MarkedBefore(s, op.end, !s.stack[0].childFailed && !ListenerThrows(s, op.end),
                   if s.stack[0].listener.Some? then Some(!s.stack[0].childFailed) else None, s', r);
    }
  }

  lemma MarkedBefore(s: Session, end: EndEnv, well: bool, told: Option<bool>, s': Session, r: Result)
    requires s.stack != [] && !s.stack[0].marked && s.connection.Some?
    requires EndedTop(SetSuccessful(s).0, end, well, [], told, s', r)
    ensures EndedTop(s, end, well, [Marked(s.stack[0].serial)], told, s', r)
  {
  }

  /** BEGIN begins a transaction without a listener, an exclusive one if it is the outermost. */
  lemma BeginStatement(s: Session, op: Op)
    requires Steady(s) && Executes(op, "BEGIN")
    ensures Step(s, op) == Begin(s, 2, None, op.flags, op.begin)
    ensures var (s', r) := Step(s, op);
            r == Done(true) ==>
              && Pushed(s, 2, None, s')
              && s'.log == s.log + (if s.stack != [] then [Opened(|s.stack| + 1)]
                                    else [Acquired(s'.connection.value),
                                          Began(s'.connection.value, EXCLUSIVE, true), Opened(1)])
  {
    TransactionStatements(op.sql);
    hide SqlStatementType, Says;
  }

  // A text of one of the four kinds.
  ghost predicate IsSpecial(sql: string) {
    SqlStatementType(sql) in {BEGIN, COMMIT, ABORT}
  }

  /**
   The other statements leave the transactions alone; outside of them a connection is acquired for
   the one statement.
   */
  lemma OtherStatement(s: Session, op: Op)
    requires Steady(s) && op.Execute? && !op.canceled && !IsSpecial(op.sql)
    ensures var (s', r) := Step(s, op);
            if s.stack != [] then
              && s'.log == s.log + [Worked(s.connection.value, op.ok)] && s' == s.(log := s'.log)
              && r == if op.ok then Done(true) else Failed
            else if op.acquired.None? then s' == s && r == Failed
            else
              var c := op.acquired.value;
              && s'.log == s.log + [Acquired(c), Worked(c, op.ok), Released(c)]
              && s' == s.(log := s'.log, flags := op.flags)
              && r == if op.ok then Done(true) else Failed
  {
    hide SqlStatementType;
  }

  /** These statements are not among the four. */
  lemma NotSpecial(sql: string)
    ensures Says(sql, "SELECT") || Says(sql, "INSERT") || Says(sql, "UPDATE") || Says(sql, "REPLACE") ||
            Says(sql, "DELETE") || Says(sql, "PRAGMA") || Says(sql, "CREATE") || Says(sql, "ATTACH") ||
            Says(sql, "SAVEPOINT") || Says(sql, "RELEASE") ==>
              !IsSpecial(sql)
  {
    CachedStatements(sql);
    SchemaStatements(sql);
    DefinitionStatements(sql);
    OtherStatements(sql);
    hide SqlStatementType, Says;
  }

  /** A statement that was canceled before it began does nothing. */
  lemma CanceledStatement(s: Session, op: Op)
    requires Steady(s) && op.Execute? && op.canceled
    ensures Step(s, op) == (s, Canceled)
  {
  }

  // ---------------------------------------------------------------- runs

  ghost predicate Longer(log: seq<Event>, log': seq<Event>) {
    |log| <= |log'| && log'[..|log|] == log
  }

  lemma LongerStill(a: seq<Event>, b: seq<Event>, c: seq<Event>)
    requires Longer(a, b) && Longer(b, c)
    ensures Longer(a, c)
  {
    assert c[..|b|][..|a|] == c[..|a|];
  }

  lemma BeginAppends(s: Session, mode: int, listener: Option<nat>, flags: int, env: BeginEnv)
    requires Steady(s)
    ensures Longer(s.log, BeginUnchecked(s, mode, listener, flags, env).0.log)
  {
  }

  lemma EndAppends(s: Session, env: EndEnv, yielding: bool)
    requires Steady(s) && s.stack != []
    ensures Longer(s.log, EndUnchecked(s, env, yielding).0.log)
  {
  }

  lemma StepAppends(s: Session, op: Op)
    requires Steady(s)
    ensures Longer(s.log, Step(s, op).0.log)
  {
    hide SqlStatementType, BeginUnchecked, EndUnchecked;
    match op
    case BeginTransaction(mode, listener, flags, begin) => BeginAppends(s, mode, listener, flags, begin);
    case SetTransactionSuccessful =>
    case EndTransaction(end) =>
      if s.stack != [] {
        EndAppends(s, end, false);
      }
    case YieldTransaction(_, _, _, end, begin) =>
      if s.stack != [] {
        var s1 := EndUnchecked(s, end, true).0;
        EndAppends(s, end, true);
        EndSteady(s, end, true);
        BeginAppends(s1, s.stack[0].mode, s.stack[0].listener, s.flags, begin);
        LongerStill(s.log, s1.log, BeginUnchecked(s1, s.stack[0].mode, s.stack[0].listener, s.flags, begin).0.log);
      }
    case Execute(_, flags, _, _, _, begin, end) =>
      BeginAppends(s, 2, None, flags, begin);
      if s.stack != [] {
        var s1 := SetSuccessful(s).0;
        EndAppends(s, end, false);
        EndAppends(s1, end, false);
        LongerStill(s.log, s1.log, EndUnchecked(s1, end, false).0.log);
      }
  }

  lemma {:induction false} RunAppends(s: Session, ops: seq<Op>)
    requires Steady(s)
    ensures Longer(s.log, Run(s, ops).log)
    decreases |ops|
  {
    hide Step, Longer;
    if ops != [] {
      StepSteady(s, ops[0]);
      StepAppends(s, ops[0]);
      RunAppends(Step(s, ops[0]).0, ops[1..]);
      LongerStill(s.log, Step(s, ops[0]).0.log, Run(s, ops).log);
    } else {
      assert Longer(s.log, s.log) by {
        Same(s.log);
      }
    }
  }

  lemma Same(log: seq<Event>)
    ensures Longer(log, log)
  {
  }

  // What the invariant says of the innermost transaction.
  lemma Innermost(s: Session)
    requires Inv(s) && s.stack != []
    ensures var k, b := s.stack[0].serial, s.stack[|s.stack| - 1].serial;
            && b <= k < |s.log| && s.log[k].Opened? && SameSpan(s.log, b, |s.log|)
            && (s.stack[0].marked <==> IsMarked(s.log, k))
  {
  }

  // A transaction ended by an event that is not clean did not end well.
  lemma NotEndedWell(log: seq<Event>, m: nat, i: nat)
    requires EndedOnce(log) && m < |log| && log[m].Ended? && !Clean(log, m) && i <= |log|
    ensures !EndedWell(log, log[m].serial, i)
  {
    if EndedWell(log, log[m].serial, i) {
      var n :| log[m].serial < n < i && Clean(log, n) && log[n].serial == log[m].serial;
    }
  }

  lemma EndedOnceInRuns(s: Session)
    requires Inv(s)
    ensures EndedOnce(s.log) && CommitRule(s.log)
  {
  }

  // The span of the outermost transaction goes on while no other one is opened.
  lemma SpanGoesOn(log: seq<Event>, log': seq<Event>, b: nat, i: nat)
    requires SameSpan(log, b, |log|) && Longer(log, log') && |log| <= i <= |log'|
    requires forall j :: |log| <= j < i ==> log'[j] != Opened(1)
    ensures SameSpan(log', b, i)
  {
    forall j | b <= j < i ensures b < j ==> log'[j] != Opened(1) {
      if j < |log| {
        assert log'[j] == log[j];
      }
    }
    assert log'[b] == log[b];
  }

  // The outermost transaction that is open after the first log is finished by the i-th event of the second.
  ghost predicate FinishesSpan(log: seq<Event>, log': seq<Event>, i: nat) {
    |log| <= i < |log'| && log'[i].Finished? && forall j :: |log| <= j < i ==> log'[j] != Opened(1)
  }

  // A transaction that was open, and not marked, is ended by the next event, which is no yield.
  lemma DoomsSpan(s: Session, t: Session, i: nat)
    requires Inv(s) && Inv(t) && Longer(s.log, t.log) && FinishesSpan(s.log, t.log, i)
    requires s.stack != [] && !s.stack[0].marked
    requires var e := t.log[|s.log|]; e.Ended? && e.serial == s.stack[0].serial && !e.yielding
    ensures !t.log[i].commit
  {
    EndedOnceInRuns(t);
    Innermost(s);
    var k, b, m := s.stack[0].serial, s.stack[|s.stack| - 1].serial, |s.log|;
    hide Inv, Clean, EndedWell, SameSpan, CommitRule, EndedOnce, IsMarked;
    NotClean(s.log, t.log, k);
    NotEndedWell(t.log, m, i);
    SpanGoesOn(s.log, t.log, b, i);
    assert t.log[k] == s.log[k];
    assert !AllEndedWell(t.log, b, i);
    RuleOf(t.log, b, i);
  }

  // The first event of a ROLLBACK.
  lemma RollbackEnds(s: Session, op: Op, log: seq<Event>)
    requires Steady(s) && s.stack != [] && Executes(op, "ROLLBACK") && !op.end.canceled
    requires Longer(Step(s, op).0.log, log)
    ensures Longer(s.log, log) && |s.log| < |log|
    ensures var e := log[|s.log|]; e.Ended? && e.serial == s.stack[0].serial && !e.yielding
  {
    RollbackStatement(s, op);
    hide Step, Executes;
    var log1 := Step(s, op).0.log;
    assert |s.log| < |log1| && log1[..|s.log|] == s.log;
    LongerStill(s.log, log1, log);
    assert log[|s.log|] == log[..|log1|][|s.log|] == log1[|s.log|];
  }

  /**
   At whatever depth a ROLLBACK ends a transaction that was not marked successful, the outermost
   one is rolled back, whatever is done before and after.
   */
  lemma RollbackDooms(ops: seq<Op>, op: Op, rest: seq<Op>, s: Session, t: Session, i: nat)
    requires s == Run(NEW_SESSION, ops) && t == Run(s, [op] + rest)
    requires Executes(op, "ROLLBACK") && !op.end.canceled && s.stack != [] && !s.stack[0].marked
    requires FinishesSpan(s.log, t.log, i)
    ensures !t.log[i].commit
  {
    hide Inv, Step, FinishesSpan, Longer, Executes;
    NewSessionInv();
    RunKeeps(NEW_SESSION, ops);
    StepKeeps(s, op);
    StepSteady(s, op);
    var s1 := Step(s, op).0;
    assert t == Run(s1, rest) by {
      assert ([op] + rest)[1..] == rest;
    }
    RunKeeps(s1, rest);
    RunAppends(s1, rest);
    RollbackEnds(s, op, t.log);
    DoomsSpan(s, t, i);
  }

  lemma RuleOf(log: seq<Event>, b: nat, i: nat)
    requires CommitRule(log) && i < |log| && log[i].Finished? && SameSpan(log, b, i)
    ensures log[i].commit <==> AllEndedWell(log, b, i)
  {
  }

  lemma NotClean(log: seq<Event>, log': seq<Event>, serial: nat)
    requires Longer(log, log') && |log| < |log'| && !IsMarked(log, serial)
    requires log'[|log|].Ended? && log'[|log|].serial == serial && !log'[|log|].yielding
    ensures !Clean(log', |log|)
  {
    forall k | 0 <= k < |log| ensures log'[k] == log[k] {
      assert log'[..|log|][k] == log[k];
    }
  }
}
