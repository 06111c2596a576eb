/**
 Sessions on one pool, with what each of them does to the connection it has: runs of PoolRuns
 in which every session keeps to the runs of SessionSpec. No connection is left to another
 session inside a native transaction unless a COMMIT or ROLLBACK on it threw.
 */
module PoolSessions {
  import opened Wrappers
  import opened Configuration
  import opened PoolSpec
  import opened PoolInvariant
  import opened PoolRuns
  import PoolSteps
  import S = SessionSpec
  import opened SessionRuns

  // The log of every session, and all of their events in the order in which they happened.
  datatype World = World(sys: System, logs: map<nat, seq<S.Event>>, trace: seq<S.Event>)

  datatype WorldStep =
    | PoolStep(step: Step)
    | SessionDoes(session: nat, event: S.Event)     // with the connection it holds

  function LogOf(w: World, s: nat): seq<S.Event> {
    if s in w.logs then w.logs[s] else []
  }

  // The connection a session holds.
  function ConnOf(sys: System, s: nat): Option<nat> {
    if s in sys.clients && sys.clients[s].Holding? then Some(sys.clients[s].id) else None
  }

  // What a step of the pool gives a session, or takes from it.
  function Exchanged(sys: System, sys': System, s: nat): seq<S.Event> {
    if ConnOf(sys, s) == ConnOf(sys', s) then []
    else (if ConnOf(sys, s).Some? then [S.Released(ConnOf(sys, s).value)] else [])
         + (if ConnOf(sys', s).Some? then [S.Acquired(ConnOf(sys', s).value)] else [])
  }

  function Noted(w: World, sys: System, s: nat, events: seq<S.Event>): World {
    World(sys, w.logs[s := LogOf(w, s) + events], w.trace + events)
  }

  // The session whose thread takes the step.
  function Actor(step: Step): Option<nat> {
    match step
    case SessionAcquires(s, _, _, _) => Some(s)
    case SessionWakes(s) => Some(s)
    case SessionIsCanceled(s, _) => Some(s)
    case SessionReleases(s, _) => Some(s)
    case PoolReconfigures(_, _) => None
    case PoolCloses(_) => None
  }

  function NextWorld(w: World, step: WorldStep): World {
    match step
    case PoolStep(step) =>
      var sys := Next(w.sys, step);
      (match Actor(step)
       case Some(s) => Noted(w, sys, s, Exchanged(w.sys, sys, s))
       case None => w.(sys := sys))
    case SessionDoes(s, e) => Noted(w, w.sys, s, [e])
  }

  // The session has done so far what some sequence of its operations does.
  ghost predicate Conforms(log: seq<S.Event>) {
    exists ops :: log <= S.Run(S.NEW_SESSION, ops).log
  }

  ghost predicate Legal(w: World, step: WorldStep) {
    && (step.SessionDoes? ==> !step.event.Acquired? && !step.event.Released?)
    && forall s :: s in NextWorld(w, step).logs ==> Conforms(NextWorld(w, step).logs[s])
  }

  ghost predicate LegalRun(w: World, steps: seq<WorldStep>, w': World)
    decreases |steps|
  {
    if steps == [] then w == w' else Legal(w, steps[0]) && LegalRun(NextWorld(w, steps[0]), steps[1..], w')
  }

  ghost predicate FromStart(config: Config, env: Env, steps: seq<WorldStep>, w: World) {
    OpenPool(config, env).Some? && LegalRun(World(System(OpenPool(config, env).value, map[]), map[], []), steps, w)
  }

  ghost predicate ReachableWorld(w: World) {
    exists config, env, steps :: FromStart(config, env, steps, w)
  }

  /** A COMMIT or ROLLBACK on this connection threw. */
  ghost predicate EverFailed(trace: seq<S.Event>, c: nat) {
    exists e :: e in trace && Failure(e) && e.conn == c
  }

  // ---------------------------------------------------------------- the protocol of a log

  lemma {:induction false} WrongStays(log: seq<S.Event>, n: nat)
    requires n <= |log| && UseAfter(log[..n]) == Wrong
    ensures UseAfter(log) == Wrong
    decreases |log|
  {
    if n == |log| {
      assert log[..n] == log;
    } else {
      assert log[..|log| - 1][..n] == log[..n];
      WrongStays(log[..|log| - 1], n);
    }
  }

  lemma ConformsUses(log: seq<S.Event>)
    requires Conforms(log)
    ensures UseAfter(log) != Wrong
  {
    var ops :| log <= S.Run(S.NEW_SESSION, ops).log;
    ProtocolFollowed(ops);
    if UseAfter(log) == Wrong {
      var all := S.Run(S.NEW_SESSION, ops).log;
      assert all[..|log|] == log;
      WrongStays(all, |log|);
    }
  }

  // ---------------------------------------------------------------- the invariant

  // A session's log agrees with what it has of the pool.
  ghost predicate UseAgrees(w: World, s: nat) {
    match ConnOf(w.sys, s)
    case Some(c) => UseAfter(LogOf(w, s)) in {Outside(c), Inside(c), Stuck(c)}
    case None => UseAfter(LogOf(w, s)) == Nothing
  }

  // What is inside a native transaction is so for its holder, unless something failed.
  ghost predicate InsideIsHeld(w: World, c: nat) {
    InTransaction(w.trace, c) && !EverFailed(w.trace, c) ==>
      exists s :: ConnOf(w.sys, s) == Some(c) && UseAfter(LogOf(w, s)) == Inside(c)
  }

  ghost predicate HeldIsInside(w: World, s: nat) {
    UseAfter(LogOf(w, s)).Inside? ==> InTransaction(w.trace, UseAfter(LogOf(w, s)).conn)
  }

  ghost predicate WorldInv(w: World) {
    && SystemInv(w.sys)
    && (forall s: nat :: UseAgrees(w, s) && HeldIsInside(w, s))
    && (forall c: nat :: InsideIsHeld(w, c))
  }

  lemma OneHolder(sys: System, s: nat, r: nat)
    requires SystemInv(sys) && ConnOf(sys, s).Some? && ConnOf(sys, s) == ConnOf(sys, r)
    ensures s == r
  {
  }

  // Only the session that acts can gain or lose a connection, and never one for another.
  lemma OthersHold(sys: System, step: Step)
    requires SystemInv(sys)
    ensures forall s: nat :: Actor(step) != Some(s) ==> ConnOf(Next(sys, step), s) == ConnOf(sys, s)
    ensures forall s: nat :: ConnOf(sys, s).Some? ==> ConnOf(Next(sys, step), s) in {None, ConnOf(sys, s)}
  {
    hide PoolInvariant.Inv, Owned, PoolSpec.Acquire, Collect, Cancel, Release, Reconfigure, Close;
  }

  // ---------------------------------------------------------------- one event

  lemma OneMore(log: seq<S.Event>, e: S.Event)
    ensures UseAfter(log + [e]) == NextUse(UseAfter(log), e)
    ensures forall c: nat :: EverFailed(log + [e], c) <==> EverFailed(log, c) || (Failure(e) && e.conn == c)
  {
    StuckOn(log, e);
    forall c: nat ensures EverFailed(log + [e], c) <==> EverFailed(log, c) || (Failure(e) && e.conn == c) {
      assert forall f :: f in log + [e] <==> f in log || f == e;
    }
  }

  // The connection of the session after the event.
  predicate Fits(before: Option<nat>, e: S.Event, after: Option<nat>) {
    match e
    case Acquired(c) => after == Some(c)
    case Released(_) => after == None
    case _ => after == before
  }

  // An event that the protocol allows agrees with what the session has afterwards.
  lemma EventAgrees(w: World, sys: System, s: nat, e: S.Event)
    requires UseAgrees(w, s) && HeldIsInside(w, s)
    requires NextUse(UseAfter(LogOf(w, s)), e) != Wrong && Fits(ConnOf(w.sys, s), e, ConnOf(sys, s))
    ensures UseAgrees(Noted(w, sys, s, [e]), s) && HeldIsInside(Noted(w, sys, s, [e]), s)
  {
    OneMore(LogOf(w, s), e);
    Appended(w.trace, e);
    hide UseAfter, InTransaction;
  }

  // The events of a session are about the connection it has.
  lemma OwnConnection(w: World, s: nat, e: S.Event, c: nat)
    requires UseAgrees(w, s) && NextUse(UseAfter(LogOf(w, s)), e) != Wrong
    ensures InTransaction(w.trace + [e], c) != InTransaction(w.trace, c) ==>
              ConnOf(w.sys, s) == Some(c) && (UseAfter(LogOf(w, s)) == Inside(c) || UseAfter(LogOf(w, s)) == Outside(c))
  {
    Appended(w.trace, e);
    hide UseAfter, InTransaction;
  }

  lemma OtherAgrees(w: World, sys: System, s: nat, e: S.Event, r: nat)
    requires SystemInv(w.sys) && UseAgrees(w, s) && UseAgrees(w, r) && HeldIsInside(w, r) && r != s
    requires NextUse(UseAfter(LogOf(w, s)), e) != Wrong && ConnOf(sys, r) == ConnOf(w.sys, r)
    ensures UseAgrees(Noted(w, sys, s, [e]), r) && HeldIsInside(Noted(w, sys, s, [e]), r)
  {
    hide SystemInv, UseAfter, InTransaction;
    if UseAfter(LogOf(w, r)).Inside? {
      OwnConnection(w, s, e, UseAfter(LogOf(w, r)).conn);
      if ConnOf(w.sys, s) == ConnOf(w.sys, r) {
        OneHolder(w.sys, s, r);
      }
    }
  }

  lemma InsideStaysHeld(w: World, sys: System, s: nat, e: S.Event, c: nat)
    requires UseAgrees(w, s) && InsideIsHeld(w, c)
    requires NextUse(UseAfter(LogOf(w, s)), e) != Wrong && Fits(ConnOf(w.sys, s), e, ConnOf(sys, s))
    requires forall r: nat :: r != s ==> ConnOf(sys, r) == ConnOf(w.sys, r)
    ensures InsideIsHeld(Noted(w, sys, s, [e]), c)
  {
    var w' := Noted(w, sys, s, [e]);
    OneMore(LogOf(w, s), e);
    OneMore(w.trace, e);
    Appended(w.trace, e);
    hide UseAfter, InTransaction, EverFailed;
    if InTransaction(w'.trace, c) && !EverFailed(w'.trace, c) {
      if InTransaction(w.trace, c) {
        var r :| ConnOf(w.sys, r) == Some(c) && UseAfter(LogOf(w, r)) == Inside(c);
        assert ConnOf(sys, r) == Some(c) && UseAfter(LogOf(w', r)) == Inside(c);
      } else {
        assert ConnOf(sys, s) == Some(c) && UseAfter(LogOf(w', s)) == Inside(c);
      }
    }
  }

  /** An event of one session that its protocol allows keeps the invariant of all. */
  lemma EventKeeps(w: World, sys: System, s: nat, e: S.Event)
    requires WorldInv(w) && SystemInv(sys)
    requires NextUse(UseAfter(LogOf(w, s)), e) != Wrong && Fits(ConnOf(w.sys, s), e, ConnOf(sys, s))
    requires forall r: nat :: r != s ==> ConnOf(sys, r) == ConnOf(w.sys, r)
    ensures WorldInv(Noted(w, sys, s, [e]))
  {
    hide SystemInv, UseAfter, InTransaction, UseAgrees, HeldIsInside, InsideIsHeld, Noted, Fits;
    forall r: nat ensures UseAgrees(Noted(w, sys, s, [e]), r) && HeldIsInside(Noted(w, sys, s, [e]), r) {
      if r == s {
        EventAgrees(w, sys, s, e);
      } else {
        OtherAgrees(w, sys, s, e, r);
      }
    }
    forall c: nat ensures InsideIsHeld(Noted(w, sys, s, [e]), c) {
      InsideStaysHeld(w, sys, s, e, c);
    }
    assert Noted(w, sys, s, [e]).sys == sys by {
      NotedSystem(w, sys, s, [e]);
    }
  }

  lemma NotedSystem(w: World, sys: System, s: nat, events: seq<S.Event>)
    ensures Noted(w, sys, s, events).sys == sys
  {
  }

  // Nothing changed hands and nothing was noted.
  lemma NothingNoted(w: World, w': World)
    requires WorldInv(w) && SystemInv(w'.sys) && w'.trace == w.trace
    requires forall s: nat :: ConnOf(w'.sys, s) == ConnOf(w.sys, s) && LogOf(w', s) == LogOf(w, s)
    ensures WorldInv(w')
  {
    hide SystemInv, UseAfter, InTransaction, EverFailed;
    forall c: nat ensures InsideIsHeld(w', c) {
      assert InsideIsHeld(w, c);
      if InTransaction(w.trace, c) && !EverFailed(w.trace, c) {
        var s :| ConnOf(w.sys, s) == Some(c) && UseAfter(LogOf(w, s)) == Inside(c);
        assert ConnOf(w'.sys, s) == Some(c) && UseAfter(LogOf(w', s)) == Inside(c);
      }
    }
    forall s: nat ensures UseAgrees(w', s) && HeldIsInside(w', s) {
      assert UseAgrees(w, s) && HeldIsInside(w, s);
    }
  }

  lemma NextWorldKeeps(w: World, step: WorldStep)
    requires WorldInv(w) && Legal(w, step)
    ensures WorldInv(NextWorld(w, step))
  {
    hide SystemInv, Next, UseAfter, UseAgrees, HeldIsInside, InsideIsHeld, Conforms;
    var w' := NextWorld(w, step);
    match step
    case SessionDoes(s, e) =>
      assert w'.logs[s] == LogOf(w, s) + [e];
      ConformsUses(w'.logs[s]);
      OneMore(LogOf(w, s), e);
      EventKeeps(w, w.sys, s, e);
    case PoolStep(step) =>
      NextKeeps(w.sys, step);
      OthersHold(w.sys, step);
      if Actor(step).None? {
        NothingNoted(w, w');
      } else {
        var s := Actor(step).value;
        var events := Exchanged(w.sys, w'.sys, s);
        assert w'.logs[s] == LogOf(w, s) + events;
        if events == [] {
          assert w.trace + [] == w.trace && LogOf(w, s) + [] == LogOf(w, s);
          NothingNoted(w, w');
        } else {
          assert events == [events[0]];
          ConformsUses(w'.logs[s]);
          OneMore(LogOf(w, s), events[0]);
          EventKeeps(w, w'.sys, s, events[0]);
        }
      }
  }

  lemma {:induction false} LegalRunKeeps(w: World, steps: seq<WorldStep>, w': World)
    requires WorldInv(w) && LegalRun(w, steps, w')
    ensures WorldInv(w')
    decreases |steps|
  {
    hide WorldInv, NextWorld, Legal;
    if steps != [] {
      NextWorldKeeps(w, steps[0]);
      LegalRunKeeps(NextWorld(w, steps[0]), steps[1..], w');
    }
  }

  lemma StartInv(config: Config, env: Env)
    requires OpenPool(config, env).Some?
    ensures WorldInv(World(System(OpenPool(config, env).value, map[]), map[], []))
  {
    var w := World(System(OpenPool(config, env).value, map[]), map[], []);
    assert FromOpening(config, env, [], w.sys);
    assert Reachable(w.sys);
    ReachableInv(w.sys);
    hide SystemInv, OpenPool;
    forall s: nat ensures UseAgrees(w, s) && HeldIsInside(w, s) {}
    forall c: nat ensures InsideIsHeld(w, c) {}
  }

  lemma ReachableWorldInv(w: World)
    requires ReachableWorld(w)
    ensures WorldInv(w)
  {
    hide WorldInv, LegalRun, OpenPool;
    var config, env, steps :| FromStart(config, env, steps, w);
    StartInv(config, env);
    LegalRunKeeps(World(System(OpenPool(config, env).value, map[]), map[], []), steps, w);
  }

  // ---------------------------------------------------------------- what it means

  /**
   Whatever the sessions do on one pool: a connection on which no COMMIT or ROLLBACK has thrown
   is inside a native transaction exactly if a session holds it and is inside one.
   */
  lemma InsideExactly(w: World, c: nat)
    requires ReachableWorld(w) && !EverFailed(w.trace, c)
    ensures InTransaction(w.trace, c) <==> exists s :: ConnOf(w.sys, s) == Some(c) && UseAfter(LogOf(w, s)) == Inside(c)
  {
    ReachableWorldInv(w);
    hide SystemInv, UseAfter, InTransaction, EverFailed;
    assert InsideIsHeld(w, c);
    if s :| ConnOf(w.sys, s) == Some(c) && UseAfter(LogOf(w, s)) == Inside(c) {
      assert HeldIsInside(w, s);
    }
  }

  // The connection is in the pool, or assigned to a waiter that has not woken up.
  ghost predicate UpForGrabs(p: Pool, c: nat) {
    || (p.primary.Some? && p.primary.value.id == c)
    || c in Ids(p.idle)
    || (exists t :: t in p.done && p.done[t] == Granted(c))
  }

  lemma GrabsNotHeld(sys: System, c: nat, s: nat)
    requires SystemInv(sys)
    ensures ConnOf(sys, s) == Some(c) ==> !UpForGrabs(sys.pool, c)
  {
    if ConnOf(sys, s) == Some(c) {
      assert c in sys.pool.acquired && PoolSteps.NotGranted(sys.pool, c);
      forall d | d in sys.pool.idle ensures d.id != c {}
    }
  }

  /** So no session is given a connection that is inside a transaction of another. */
  lemma AvailableOutside(w: World, c: nat)
    requires ReachableWorld(w) && UpForGrabs(w.sys.pool, c) && !EverFailed(w.trace, c)
    ensures !InTransaction(w.trace, c)
  {
    ReachableWorldInv(w);
    InsideExactly(w, c);
    hide SystemInv, UseAfter, InTransaction, EverFailed, UpForGrabs;
    forall s ensures ConnOf(w.sys, s) != Some(c) {
      GrabsNotHeld(w.sys, c, s);
    }
  }

  /**
   A session between two operations holds a connection exactly while it has a transaction, and
   that connection is then inside a native transaction.
   */
  lemma BetweenOperations(w: World, s: nat, ops: seq<S.Op>)
    requires ReachableWorld(w) && LogOf(w, s) == S.Run(S.NEW_SESSION, ops).log
    ensures var stack := S.Run(S.NEW_SESSION, ops).stack;
            && (ConnOf(w.sys, s).Some? <==> stack != [])
            && (stack != [] ==> InTransaction(w.trace, ConnOf(w.sys, s).value))
  {
    ReachableWorldInv(w);
    ProtocolFollowed(ops);
    hide SystemInv, UseAfter, InTransaction, S.Run;
    assert UseAgrees(w, s) && HeldIsInside(w, s);
  }

  // ---------------------------------------------------------------- a ROLLBACK that throws

  const ALL_WELL := Env({}, {}, {})
  const FOR_PRIMARY := Request(None, Flags(false, true, false))

  // A session acquires the primary, takes it into a transaction, fails to end that, and releases it.
  ghost function ThrowingStep(n: nat): WorldStep
    requires n < 6
  {
    if n == 0 then PoolStep(SessionAcquires(0, FOR_PRIMARY, false, ALL_WELL))
    else if n == 5 then PoolStep(SessionReleases(0, ALL_WELL))
    else SessionDoes(0, ThrowingEndLog(0)[n])
  }

  ghost function ThrowingWorld(config: Config, n: nat): World
    requires n <= 6 && config.maxSqlCacheSize > 0
  {
    var p := OpenPool(config, ALL_WELL).value;
    var log := ThrowingEndLog(0)[..n];
    World(if n in {0, 6} then System(p, map[])
          else System(p.(primary := None, acquired := map[0 := PoolSpec.Held(Conn(0, true, config, false), NORMAL)]),
                      map[0 := Holding(0, 1)]),
          if n == 0 then map[] else map[0 := log],
          log)
  }

  lemma ThrowingPool(config: Config)
    requires config.maxSqlCacheSize > 0
    ensures Next(ThrowingWorld(config, 0).sys, ThrowingStep(0).step) == ThrowingWorld(config, 1).sys
    ensures Next(ThrowingWorld(config, 5).sys, ThrowingStep(5).step) == ThrowingWorld(config, 6).sys
  {
    var p := ThrowingWorld(config, 1).sys.pool;
    assert p.acquired - {0} == map[] && ThrowingWorld(config, 1).sys.clients - {0} == map[];
  }

  lemma ThrowingExchange(config: Config, n: nat)
    requires config.maxSqlCacheSize > 0
    requires n in {0, 5}
    ensures var w := ThrowingWorld(config, n);
            NextWorld(w, ThrowingStep(n)) == Noted(w, ThrowingWorld(config, n + 1).sys, 0, [ThrowingEndLog(0)[n]])
  {
    ThrowingPool(config);
    hide Next, OpenPool;
    var w, w' := ThrowingWorld(config, n), ThrowingWorld(config, n + 1);
    assert Actor(ThrowingStep(n).step) == Some(0) && Next(w.sys, ThrowingStep(n).step) == w'.sys;
    assert Exchanged(w.sys, w'.sys, 0) == [ThrowingEndLog(0)[n]];
  }

  lemma ThrowingEvent(config: Config, n: nat)
    requires config.maxSqlCacheSize > 0
    requires 0 < n < 5
    ensures var w := ThrowingWorld(config, n);
            NextWorld(w, ThrowingStep(n)) == Noted(w, ThrowingWorld(config, n + 1).sys, 0, [ThrowingEndLog(0)[n]])
  {
    hide OpenPool;
  }

  lemma ThrowingNoted(config: Config, n: nat)
    requires config.maxSqlCacheSize > 0
    requires n < 6
    ensures Noted(ThrowingWorld(config, n), ThrowingWorld(config, n + 1).sys, 0, [ThrowingEndLog(0)[n]]) ==
              ThrowingWorld(config, n + 1)
    ensures ThrowingWorld(config, n + 1).logs == map[0 := ThrowingEndLog(0)[..n + 1]]
  {
    hide OpenPool;
    var log := ThrowingEndLog(0);
    assert log[..n + 1] == log[..n] + [log[n]] && log[..0] == [];
    hide ThrowingEndLog;
  }

  lemma ThrowingConforms(n: nat)
    requires n <= 6
    ensures Conforms(ThrowingEndLog(0)[..n])
  {
    ThrowingEndReleasesInside(0);
    hide S.Run, ReleasesInside, InTransaction;
    assert ThrowingEndLog(0)[..n] <= S.Run(S.NEW_SESSION, ThrowingEnd(0)).log;
  }

  lemma ThrowingWorldNext(config: Config, n: nat)
    requires config.maxSqlCacheSize > 0
    requires n < 6
    ensures Legal(ThrowingWorld(config, n), ThrowingStep(n))
    ensures NextWorld(ThrowingWorld(config, n), ThrowingStep(n)) == ThrowingWorld(config, n + 1)
  {
    if n in {0, 5} {
      ThrowingExchange(config, n);
    } else {
      ThrowingEvent(config, n);
    }
    ThrowingNoted(config, n);
    ThrowingConforms(n + 1);
    hide NextWorld, Conforms, ThrowingWorld, Noted;
  }

  ghost function ThrowingSteps(n: nat): seq<WorldStep>
    requires n <= 6
    decreases 6 - n
  {
    if n == 6 then [] else [ThrowingStep(n)] + ThrowingSteps(n + 1)
  }

  lemma {:induction false} ThrowingRun(config: Config, n: nat)
    requires config.maxSqlCacheSize > 0
    requires n <= 6
    ensures LegalRun(ThrowingWorld(config, n), ThrowingSteps(n), ThrowingWorld(config, 6))
    decreases 6 - n
  {
    hide Legal, NextWorld, ThrowingWorld, ThrowingStep;
    if n < 6 {
      ThrowingWorldNext(config, n);
      ThrowingRun(config, n + 1);
      assert ThrowingSteps(n)[1..] == ThrowingSteps(n + 1);
    }
  }

  lemma ThrowingTrace()
    ensures InTransaction(ThrowingEndLog(0), 0)
  {
    ThrowingEndReleasesInside(0);
    var log := ThrowingEndLog(0);
    assert log == log[..5] + [S.Released(0)];
    Appended(log[..5], S.Released(0));
  }

  /** After a ROLLBACK that threw the primary can be available inside a native transaction. */
  lemma FailedRollbackLeavesInside(config: Config)
    requires config.maxSqlCacheSize > 0
    ensures exists w ::
            ReachableWorld(w) && w.sys.pool.primary.Some? && InTransaction(w.trace, w.sys.pool.primary.value.id)
  {
    var w := ThrowingWorld(config, 6);
    assert w.sys.pool.primary.Some? && w.sys.pool.primary.value.id == 0;
    assert w.trace == ThrowingEndLog(0) && OpenPool(config, ALL_WELL).Some?;
    assert ThrowingWorld(config, 0) == World(System(OpenPool(config, ALL_WELL).value, map[]), map[], []);
    hide LegalRun, InTransaction, ThrowingWorld, OpenPool, ThrowingEndLog;
    ThrowingRun(config, 0);
    ThrowingTrace();
    assert FromStart(config, ALL_WELL, ThrowingSteps(0), w);
  }
}
