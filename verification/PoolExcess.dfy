/**
 Exactly which steps let an open pool pass its maximum. Only opening a primary can do it, and
 a primary is opened beside `max` other connections only by an acquire, or by the waiters
 woken when the last primary was closed on its release.
 */
module PoolExcess {
  import opened Wrappers
  import opened Configuration
  import opened PoolSpec
  import opened PoolInvariant
  import opened PoolWake
  import opened PoolSteps
  import opened PoolRuns
  import opened PoolSizes
  import opened PoolEffects

  // There is no primary at all, so a request for it opens one.
  ghost predicate NoPrimary(p: Pool) {
    p.primary.None? && !HasAcquiredPrimary(p.acquired)
  }

  // The non-primaries, discarded ones aside.
  ghost function NonPrimaries(p: Pool): nat {
    |p.idle| + |Workers(p.acquired)|
  }

  lemma CountParts(p: Pool)
    requires Connections(p)
    ensures ConnectionCount(p) == NonPrimaries(p) + (if HasPrimary(p) then 1 else 0)
    ensures NonPrimaries(p) <= p.max
    ensures NoPrimary(p) ==> !HasPrimary(p)
    ensures ConnectionCount(p) <= p.max && HasPrimary(p) ==> Healthy(p)
  {
    CountSplits(p);
    SubsetSize(Workers(p.acquired), NotDiscarded(p.acquired));
    if !HasAcquiredPrimary(p.acquired) {
      NoPrimaryAcquired(p.acquired);
    }
  }

  // ---------------------------------------------------------------- one request

  lemma TryIdleGrows(p: Pool, request: Request, env: Env)
    requires Connections(p)
    ensures var (p', a) := TryIdle(p, request, env);
            && HasPrimary(p') == HasPrimary(p) && NonPrimaries(p') >= NonPrimaries(p)
            && (a.Got? && p.idle == [] ==> p'.idle == [] && |p'.acquired| == |p.acquired| + 1
                                           && |Workers(p'.acquired)| == |Workers(p.acquired)| + 1)
  {
    var (p', a) := TryIdle(p, request, env);
    TryIdleKeeps(p, request, env);
    if a.Got? {
      IdleTaken(p, p', a.id);
      assert |p'.idle| >= |p.idle| - 1 && (p.idle == [] ==> p'.idle == []);
    }
  }

  lemma TryPrimaryGrows(p: Pool, request: Request, env: Env)
    requires Connections(p)
    ensures var (p', a) := TryPrimary(p, request, env);
            && (HasPrimary(p) || a.Got? ==> HasPrimary(p')) && NonPrimaries(p') == NonPrimaries(p)
            && (!a.Got? ==> HasPrimary(p') == HasPrimary(p))
  {
    var (p', a) := TryPrimary(p, request, env);
    TryPrimaryKeeps(p, request, env);
    if a.Got? {
      var held := p'.acquired[a.id];
      assert held.conn.id == a.id;
      hide Accounted, OnePrimary, ConfigAgrees, Sized;
      WorkersPut(p.acquired, held);
      assert LivePrimary(p'.acquired, a.id);
    }
  }

  lemma ServeGrows(p: Pool, request: Request, env: Env)
    requires Connections(p)
    ensures var p' := Serve(p, request, env).0;
            (HasPrimary(p) ==> HasPrimary(p')) && NonPrimaries(p') >= NonPrimaries(p)
  {
    TryIdleKeeps(p, request, env);
    TryIdleGrows(p, request, env);
    TryPrimaryGrows(p, request, env);
    hide Connections, HasPrimary, NonPrimaries, TryIdle, TryPrimary;
  }

  /**
   One request passes the maximum exactly if the pool is full of non-primaries, has no primary,
   and opens one for it.
   */
  lemma ServePassesExactly(p: Pool, request: Request, env: Env)
    requires Connections(p) && ConnectionCount(p) <= p.max
    ensures ConnectionCount(Serve(p, request, env).0) > p.max <==>
              && NoPrimary(p) && NonPrimaries(p) == p.max
              && WantsPrimary(p, request) && !OpenFails(p.nextId, p.config, env)
  {
    var (p', a) := Serve(p, request, env);
    ServeKeeps(p, request, env);
    CountParts(p);
    CountParts(p');
    if HasPrimary(p) {
      hide Connections;
      ServeHealthy(p, request, env);
    } else {
      TryIdleKeeps(p, request, env);
      TryIdleGrows(p, request, env);
      TryPrimaryKeeps(p, request, env);
      TryPrimaryGrows(p, request, env);
      hide Connections, HasPrimary, NonPrimaries, TryIdle, ConnectionCount, HasAcquiredPrimary;
      if WantsPrimary(p, request) {
        assert Serve(p, request, env) == TryPrimary(p, request, env);
      } else {
        assert Serve(p, request, env) == TryIdle(p, request, env);
      }
    }
  }

  // ---------------------------------------------------------------- a wake-up

  // While there is no primary each waiter has one attempt to open a connection: the one at position `m` this.
  ghost predicate Opens(p: Pool, m: nat, env: Env) {
    !OpenFails(p.nextId + m, p.config, env)
  }

  ghost predicate SomeOpens(p: Pool, from: nat, env: Env) {
    exists m: nat :: from <= m < |p.queue| && Opens(p, m, env)
  }

  // The first waiter for whom a connection opens is at position `m`.
  ghost predicate OpensFirst(p: Pool, m: nat, env: Env) {
    m < |p.queue| && Opens(p, m, env) && forall k: nat :: k < m ==> !Opens(p, k, env)
  }

  ghost predicate NonPrimaryFirst(p: Pool, m: nat, env: Env) {
    m < |p.queue| && OpensFirst(p, m, env) && !p.queue[m].request.flags.primaryAffinity
  }

  // The first connection that opens is a non-primary, and a second one opens after it.
  ghost predicate OpensBoth(p: Pool, env: Env) {
    exists m: nat :: NonPrimaryFirst(p, m, env) && SomeOpens(p, m + 1, env)
  }

  /**
   The guard of a wake-up that passes the maximum: the pool is full of non-primaries and some
   open succeeds, or one short of it, and a non-primary and then the primary are opened.
   */
  ghost predicate WakePasses(p: Pool, env: Env) {
    || (NonPrimaries(p) == p.max && SomeOpens(p, 0, env))
    || (p.idle == [] && |Workers(p.acquired)| == |p.acquired| == p.max - 1 && OpensBoth(p, env))
  }

  // Non-primaries are waited for only while none is idle and there is room for one at most.
  ghost predicate RoomForOne(p: Pool) {
    forall w :: w in p.queue && !w.request.flags.primaryAffinity ==> p.idle == [] && |p.acquired| >= p.max - 1
  }

  lemma {:induction false} PassedStays(p: Pool, i: nat, env: Env)
    requires Base(p) && i <= |p.queue| && HasPrimary(p) && NonPrimaries(p) == p.max
    ensures ConnectionCount(ServeInOrder(p, i, env)) > p.max
    decreases |p.queue| - i
  {
    CountParts(p);
    hide Serve, Connections, Queued, GrantsDistinct, HasPrimary, ConnectionCount;
    if i < |p.queue| {
      var (p1, a) := Serve(p, p.queue[i].request, env);
      TurnBase(p, i, env);
      ServeKeeps(p, p.queue[i].request, env);
      ServeGrows(p, p.queue[i].request, env);
      CountParts(p1);
      if a == Unavailable {
        PassedStays(p1, i + 1, env);
      } else {
        var q := Dequeue(p1, i, if a.Got? then Granted(a.id) else Refused(a.error));
        SameHealth(p1, q);
        SamePrimary(p1, q);
        PassedStays(q, i, env);
      }
    }
  }

  lemma SamePrimary(p: Pool, q: Pool)
    requires p.primary == q.primary && p.acquired == q.acquired && p.idle == q.idle
    ensures HasPrimary(p) == HasPrimary(q) && NoPrimary(p) == NoPrimary(q) && NonPrimaries(p) == NonPrimaries(q)
  {
  }

  // The first waiter could not be served: the positions of the others shift.
  lemma ShiftedOpens(p: Pool, q: Pool, from: nat, env: Env)
    requires p.queue != [] && q.queue == p.queue[1..] && q.nextId == p.nextId + 1 && q.config == p.config
    ensures SomeOpens(p, from + 1, env) <==> SomeOpens(q, from, env)
  {
    if m: nat :| from + 1 <= m < |p.queue| && Opens(p, m, env) {
      assert Opens(q, m - 1, env);
    }
    if m: nat :| from <= m < |q.queue| && Opens(q, m, env) {
      assert Opens(p, m + 1, env);
    }
  }

  lemma ShiftedFirst(p: Pool, q: Pool, m: nat, env: Env)
    requires p.queue != [] && q.queue == p.queue[1..] && q.nextId == p.nextId + 1 && q.config == p.config
    requires !Opens(p, 0, env)
    ensures OpensFirst(p, m + 1, env) <==> OpensFirst(q, m, env)
  {
    assert forall k: nat :: Opens(q, k, env) <==> Opens(p, k + 1, env);
    if OpensFirst(q, m, env) {
      forall k: nat | k < m + 1 ensures !Opens(p, k, env) {
        assert k > 0 ==> !Opens(q, k - 1, env);
      }
    }
    if OpensFirst(p, m + 1, env) {
      forall k: nat | k < m ensures !Opens(q, k, env) {
        assert !Opens(p, k + 1, env);
      }
    }
  }

  lemma ShiftedBoth(p: Pool, q: Pool, env: Env)
    requires p.queue != [] && q.queue == p.queue[1..] && q.nextId == p.nextId + 1 && q.config == p.config
    requires !Opens(p, 0, env)
    ensures OpensBoth(p, env) <==> OpensBoth(q, env)
    ensures SomeOpens(p, 0, env) <==> SomeOpens(q, 0, env)
  {
    hide SomeOpens, OpensFirst;
    if OpensBoth(p, env) {
      var m: nat :| NonPrimaryFirst(p, m, env) && SomeOpens(p, m + 1, env);
      NotFirst(p, m, env);
      ShiftedFirst(p, q, m - 1, env);
      ShiftedOpens(p, q, m, env);
      assert q.queue[m - 1] == p.queue[m] && NonPrimaryFirst(q, m - 1, env);
    }
    if OpensBoth(q, env) {
      var m: nat :| NonPrimaryFirst(q, m, env) && SomeOpens(q, m + 1, env);
      ShiftedFirst(p, q, m, env);
      ShiftedOpens(p, q, m + 1, env);
      assert q.queue[m] == p.queue[m + 1] && NonPrimaryFirst(p, m + 1, env);
    }
    ShiftedOpens(p, q, 0, env);
    LaterOpens(p, env);
  }

  lemma NotFirst(p: Pool, m: nat, env: Env)
    requires OpensFirst(p, m, env)
    ensures (Opens(p, 0, env) <==> m == 0) && m < |p.queue|
  {
  }

  lemma LaterOpens(p: Pool, env: Env)
    requires p.queue != []
    ensures SomeOpens(p, 0, env) <==> Opens(p, 0, env) || SomeOpens(p, 1, env)
  {
    if m: nat :| 0 <= m < |p.queue| && Opens(p, m, env) {
      assert m == 0 || 1 <= m;
    }
  }

  // If a connection opens for the first waiter, whether a second one opens is told by the others.
  lemma FirstOfBoth(p: Pool, q: Pool, env: Env)
    requires p.queue != [] && q.queue == p.queue[1..] && q.nextId == p.nextId + 1 && q.config == p.config
    requires Opens(p, 0, env)
    ensures OpensBoth(p, env) <==> !p.queue[0].request.flags.primaryAffinity && SomeOpens(q, 0, env)
    ensures SomeOpens(p, 0, env)
  {
    ShiftedOpens(p, q, 0, env);
    assert NonPrimaryFirst(p, 0, env) <==> !p.queue[0].request.flags.primaryAffinity;
    hide SomeOpens;
    if m: nat :| NonPrimaryFirst(p, m, env) && SomeOpens(p, m + 1, env) {
      NotFirst(p, m, env);
    }
    LaterOpens(p, env);
  }

  // Without a primary a request for it opens it.
  lemma PrimaryTurn(p: Pool, request: Request, env: Env)
    requires Connections(p) && NoPrimary(p)
    ensures var (p1, a) := TryPrimary(p, request, env);
            && a != Unavailable && p1.nextId == p.nextId + 1 && (a.Got? <==> !OpenFails(p.nextId, p.config, env))
            && (a.Got? ==> HasPrimary(p1) && NonPrimaries(p1) == NonPrimaries(p))
  {
    TryPrimaryGrows(p, request, env);
  }

  // With none idle and no primary, an attempt opens a non-primary if there is room.
  lemma IdleTurn(p: Pool, request: Request, env: Env)
    requires Connections(p) && NoPrimary(p) && p.idle == [] && !IdleBlocked(p)
    ensures var (p1, a) := TryIdle(p, request, env);
            && a != Unavailable && p1.nextId == p.nextId + 1 && (a.Got? <==> !OpenFails(p.nextId, p.config, env))
            && (a.Got? ==> NoPrimary(p1) && p1.idle == [] && |p1.acquired| == |p.acquired| + 1
                           && |Workers(p1.acquired)| == |Workers(p.acquired)| + 1)
  {
    TryIdleGrows(p, request, env);
    hide Connections, HasPrimary;
  }

  // The first turn of a wake-up without a primary: what it opens, and for whom.
  lemma FirstTurn(p: Pool, env: Env)
    requires Base(p) && NoPrimary(p) && RoomForOne(p) && p.queue != []
    ensures var (p1, a) := Serve(p, p.queue[0].request, env);
            && a != Unavailable && p1.nextId == p.nextId + 1 && p1.max == p.max && p1.config == p.config
            && (a.Got? <==> Opens(p, 0, env))
            && (!a.Got? ==> p1.idle == p.idle && p1.acquired == p.acquired && p1.primary == p.primary)
            && (a.Got? && WantsPrimary(p, p.queue[0].request) ==> HasPrimary(p1) && NonPrimaries(p1) == NonPrimaries(p))
            && (a.Got? && !WantsPrimary(p, p.queue[0].request) ==>
                  && NoPrimary(p1) && p.idle == [] && p1.idle == [] && |p1.acquired| == |p.acquired| + 1
                  && |Workers(p1.acquired)| == |Workers(p.acquired)| + 1)
  {
    var request := p.queue[0].request;
    assert p.queue[0] in p.queue;
    ServeKeeps(p, request, env);
    TryIdleKeeps(p, request, env);
    PrimaryTurn(p, request, env);
    if !WantsPrimary(p, request) {
      IdleTurn(p, request, env);
    }
    hide Connections, Queued, GrantsDistinct, HasPrimary, NonPrimaries, TryIdle, TryPrimary, NoPrimary, IdleBlocked;
  }

  lemma {:induction false} WakeFirstExactly(p: Pool, env: Env)
    requires Base(p) && NoPrimary(p) && RoomForOne(p)
    ensures ConnectionCount(ServeInOrder(p, 0, env)) > p.max <==> WakePasses(p, env)
    decreases |p.queue|
  {
    hide Serve, Base, WantsPrimary, ConnectionCount, OpensBoth, SomeOpens, Opens, HasPrimary, NoPrimary, WakePasses,
      NonPrimaries;
    if p.queue == [] {
      NobodyOpens(p, env);
    } else {
      var (p1, a) := Serve(p, p.queue[0].request, env);
      FirstTurn(p, env);
      TurnBase(p, 0, env);
      var q := Dequeue(p1, 0, if a.Got? then Granted(a.id) else Refused(a.error));
      SamePrimary(p1, q);
      assert q.queue == p.queue[1..];
      TurnRoom(p, p1, q, a, env);
      if a.Got? && WantsPrimary(p, p.queue[0].request) {
        PrimaryOpened(p, q, env);
      } else {
        WakeFirstExactly(q, env);
      }
    }
  }

  lemma NobodyOpens(p: Pool, env: Env)
    requires Base(p) && NoPrimary(p) && p.queue == []
    ensures !WakePasses(p, env) && ConnectionCount(p) <= p.max
  {
    CountParts(p);
  }

  // What the first turn leaves of the guard.
  lemma TurnRoom(p: Pool, p1: Pool, q: Pool, a: Attempt, env: Env)
    requires Base(p) && NoPrimary(p) && RoomForOne(p) && p.queue != []
    requires (p1, a) == Serve(p, p.queue[0].request, env)
    requires q.queue == p.queue[1..] && q.nextId == p.nextId + 1 && q.config == p.config && q.max == p.max
    requires q.idle == p1.idle && q.acquired == p1.acquired && q.primary == p1.primary
    ensures var opensPrimary := a.Got? && WantsPrimary(p, p.queue[0].request);
            && (!opensPrimary ==> NoPrimary(q) && RoomForOne(q) && (WakePasses(q, env) <==> WakePasses(p, env)))
            && (opensPrimary ==> (WakePasses(p, env) <==> NonPrimaries(p) == p.max))
  {
    var request := p.queue[0].request;
    FirstTurn(p, env);
    WorkersBounded(p.acquired);
    hide Serve, Base, OpensBoth, SomeOpens, HasPrimary, HasAcquiredPrimary;
    assert forall w :: w in q.queue ==> w in p.queue;
    if !a.Got? {
      ShiftedBoth(p, q, env);
    } else {
      FirstOfBoth(p, q, env);
    }
  }

  lemma PrimaryOpened(p: Pool, q: Pool, env: Env)
    requires Base(q) && HasPrimary(q) && q.max == p.max && NonPrimaries(q) == NonPrimaries(p)
    ensures ConnectionCount(ServeInOrder(q, 0, env)) > p.max <==> NonPrimaries(p) == p.max
  {
    CountParts(q);
    hide Connections, Queued, GrantsDistinct;
    if NonPrimaries(q) == q.max {
      PassedStays(q, 0, env);
    } else {
      ServeInOrderHealthy(q, 0, env);
      ServeInOrderKeeps(q, 0, env);
      ServeInOrderAdvances(q, 0, env);
      CountParts(ServeInOrder(q, 0, env));
    }
  }

  // ---------------------------------------------------------------- whole steps

  /** A wake-up passes the maximum exactly if there is no primary and the guard holds. */
  lemma WakePassesExactly(p: Pool, env: Env)
    requires Base(p) && p.open && ConnectionCount(p) <= p.max
    requires NoPrimary(p) ==> RoomForOne(p)
    ensures ConnectionCount(Wake(p, env)) > p.max <==> NoPrimary(p) && WakePasses(p, env)
  {
    WakeServesInOrder(p, 0, false, false, env);
    CountParts(p);
    if HasPrimary(p) {
      WakeHealthy(p, env);
      WakeKeeps(p, env);
      CountParts(Wake(p, env));
    } else if NoPrimary(p) {
      hide Base, WakePasses, ConnectionCount;
      WakeFirstExactly(p, env);
    } else {
      hide Base, ConnectionCount, HasPrimary;
      DiscardedBlocks(p, 0, env);
    }
  }

  // While a discarded primary is out no other is opened.
  lemma {:induction false} DiscardedBlocks(p: Pool, i: nat, env: Env)
    requires Base(p) && i <= |p.queue| && PrimaryBlocked(p) && !HasPrimary(p)
    ensures ConnectionCount(ServeInOrder(p, i, env)) <= p.max
    decreases |p.queue| - i
  {
    CountParts(p);
    hide Serve, Base, HasPrimary, ConnectionCount, PrimaryBlocked, NonPrimaries;
    if i < |p.queue| {
      var (p1, a) := Serve(p, p.queue[i].request, env);
      TurnBase(p, i, env);
      BlockedTurnKeeps(p, p.queue[i].request, env);
      if a == Unavailable {
        DiscardedBlocks(p1, i + 1, env);
      } else {
        var q := Dequeue(p1, i, if a.Got? then Granted(a.id) else Refused(a.error));
        SamePrimary(p1, q);
        assert PrimaryBlocked(q) by {
          StillBlocked(p1, q);
        }
        DiscardedBlocks(q, i, env);
      }
    }
  }

  lemma StillBlocked(p: Pool, q: Pool)
    requires PrimaryBlocked(p) && q.primary == p.primary && q.acquired == p.acquired
    ensures PrimaryBlocked(q)
  {
  }

  lemma BlockedTurnKeeps(p: Pool, request: Request, env: Env)
    requires Base(p) && PrimaryBlocked(p) && !HasPrimary(p)
    ensures var p1 := Serve(p, request, env).0;
            PrimaryBlocked(p1) && !HasPrimary(p1) && p1.max == p.max
  {
    BlockedStays(p, request, env);
    ServeKeeps(p, request, env);
    TryIdleKeeps(p, request, env);
    TryIdleGrows(p, request, env);
    TryPrimaryKeeps(p, request, env);
    hide Connections, Queued, GrantsDistinct, HasPrimary, TryIdle, TryPrimary;
  }

  // With a primary missing altogether nobody waits in an open pool.
  lemma NobodyWaits(p: Pool)
    requires Inv(p) && p.open && NoPrimary(p)
    ensures p.queue == []
  {
  }

  // Nobody is waiting, so the wake-up does nothing.
  lemma NobodyPasses(p: Pool, env: Env)
    requires p.queue == []
    ensures RoomForOne(p) && !WakePasses(p, env)
  {
  }

  // The last primary is released and closed, and the waiters then woken open one too many.
  ghost predicate ReleasePasses(p: Pool, id: nat, env: Env) {
    && id in p.acquired && p.acquired[id].conn.primary
    && (p.acquired[id].status == DISCARD || (p.acquired[id].status == RECONFIGURE && id in env.reconfigureFails))
    && NoPrimary(Removed(p, id))
    && WakePasses(Removed(p, id), env)
  }

  // A connection given up makes room, but no more than for one.
  lemma RemovedRoom(p: Pool, id: nat)
    requires Inv(p) && p.open && id in p.acquired
    ensures RoomForOne(Removed(p, id))
    ensures ConnectionCount(Removed(p, id)) <= ConnectionCount(p)
  {
    WorkersRemove(p.acquired, id);
    SubsetSize(NotDiscarded(Removed(p, id).acquired), NotDiscarded(p.acquired));
  }

  // Two pools with the same connections and waiters.
  ghost predicate Alike(p: Pool, q: Pool) {
    && p.primary == q.primary && p.idle == q.idle && p.acquired == q.acquired
    && p.queue == q.queue && p.nextId == q.nextId && p.max == q.max && p.config == q.config
  }

  lemma AlikePasses(p: Pool, q: Pool, env: Env)
    requires Alike(p, q)
    ensures WakePasses(p, env) == WakePasses(q, env) && RoomForOne(p) == RoomForOne(q)
    ensures ConnectionCount(p) == ConnectionCount(q) && NoPrimary(p) == NoPrimary(q)
  {
    assert forall m: nat :: Opens(p, m, env) == Opens(q, m, env);
    SomeAlike(p, q, env);
    hide SomeOpens;
    assert forall m: nat :: OpensFirst(p, m, env) == OpensFirst(q, m, env);
    assert forall m: nat :: NonPrimaryFirst(p, m, env) == NonPrimaryFirst(q, m, env);
  }

  lemma SomeAlike(p: Pool, q: Pool, env: Env)
    requires Alike(p, q)
    ensures forall from: nat :: SomeOpens(p, from, env) == SomeOpens(q, from, env)
  {
    assert forall m: nat :: Opens(p, m, env) == Opens(q, m, env);
  }

  // A connection that is put back counts as before.
  lemma PutBackCount(p: Pool, id: nat, conn: Conn)
    requires id in p.acquired && p.acquired[id].status != DISCARD
    requires p.acquired[id].conn.primary ==> p.primary.None?
    ensures var r := Removed(p, id);
            var q := if p.acquired[id].conn.primary then r.(primary := Some(conn)) else r.(idle := r.idle + [conn]);
            ConnectionCount(q) == ConnectionCount(p) && (NoPrimary(q) ==> NoPrimary(p))
  {
    assert NotDiscarded(p.acquired) == NotDiscarded(p.acquired - {id}) + {id};
    assert id !in NotDiscarded(p.acquired - {id});
    hide NotDiscarded;
    if !p.acquired[id].conn.primary && HasAcquiredPrimary(p.acquired) {
      OtherPrimaryStays(p, id);
    }
    hide HasAcquiredPrimary;
  }

  lemma OtherPrimaryStays(p: Pool, id: nat)
    requires id in p.acquired && !p.acquired[id].conn.primary && HasAcquiredPrimary(p.acquired)
    ensures HasAcquiredPrimary(p.acquired - {id})
  {
    var a :| a in p.acquired && p.acquired[a].conn.primary;
    assert a in p.acquired - {id} && (p.acquired - {id})[a].conn.primary;
  }

  lemma PutBackPasses(p: Pool, id: nat, env: Env)
    requires Inv(p) && p.open && id in p.acquired
    ensures var q := PutBack(p, id, env);
            && ConnectionCount(q) <= ConnectionCount(p) && q.max == p.max
            && (NoPrimary(q) ==> RoomForOne(q))
            && (NoPrimary(q) && WakePasses(q, env) <==> ReleasePasses(p, id, env))
  {
    var held := p.acquired[id];
    var q := PutBack(p, id, env);
    if Recycle(Removed(p, id), held, env).1.None? {
      RemovedRoom(p, id);
      hide Inv, ConnectionCount, WakePasses, NoPrimary, RoomForOne;
      AlikePasses(q, Removed(p, id), env);
      if !held.conn.primary {
        WorkerClosed(p, id, env);
      }
    } else {
      if held.conn.primary {
        ReleaseAssertionHolds(p, id, env);
      }
      assert held.conn.id == id;
      hide Inv, ConnectionCount, WakePasses, NoPrimary, RoomForOne;
      PutBackCount(p, id, Recycle(Removed(p, id), held, env).1.value);
      NobodyWaitsIf(p, q, env);
    }
  }

  lemma WorkerClosed(p: Pool, id: nat, env: Env)
    requires Inv(p) && p.open && id in p.acquired && !p.acquired[id].conn.primary
    ensures NoPrimary(Removed(p, id)) ==> !WakePasses(Removed(p, id), env)
  {
    if NoPrimary(Removed(p, id)) {
      if !HasAcquiredPrimary(p.acquired) {
        NobodyWaits(p);
        NobodyPasses(Removed(p, id), env);
      } else {
        OtherPrimaryStays(p, id);
      }
    }
  }

  lemma NobodyWaitsIf(p: Pool, q: Pool, env: Env)
    requires Inv(p) && p.open && p.queue == q.queue && (NoPrimary(q) ==> NoPrimary(p))
    ensures NoPrimary(q) ==> RoomForOne(q) && !WakePasses(q, env)
  {
    if NoPrimary(q) {
      NobodyWaits(p);
      NobodyPasses(q, env);
    }
  }

  lemma CancelFits(p: Pool, ticket: nat, env: Env)
    requires Inv(p) && p.open && !Passed(p)
    ensures !Passed(Cancel(p, ticket, env))
  {
    var k := Position(p.queue, ticket, 0);
    if k < |p.queue| {
      var q := Dequeue(p, k, Refused(OperationCanceled));
      DequeueBase(p, k, Refused(OperationCanceled));
      SamePrimary(p, q);
      hide Base, Wake, HasPrimary, WakePasses;
      if NoPrimary(p) {
        NobodyWaits(p);
      }
      WakePassesExactly(q, env);
      WakeKeeps(q, env);
    }
  }

  // What survives a reconfiguration is no more than there was.
  lemma ReconfiguredCount(p: Pool, config: Config, env: Env)
    requires Accounted(p)
    ensures ConnectionCount(ReconfigureAll(p.(config := config), env)) <= ConnectionCount(p)
  {
    ReconfiguredParts(p.idle, config, env);
    assert NotDiscarded(MarkAcquired(p.acquired, RECONFIGURE)) == NotDiscarded(p.acquired);
    hide Accounted, Reconfigured, MarkAcquired, Ids;
  }

  lemma ReconfiguredNobody(p: Pool, config: Config, env: Env)
    requires NoLostWakeup(p) && NoPrimary(ReconfigureAll(p.(config := config), env))
    ensures p.queue == []
  {
    MarkedWorkers(p.acquired, RECONFIGURE);
    hide MarkAcquired, Reconfigured, Ids, HasAcquiredPrimary, Workers;
  }

  lemma InPlaceFits(p: Pool, config: Config, env: Env)
    requires Inv(p) && p.open && config.openFlags == p.config.openFlags && ConnectionCount(p) <= p.max
    ensures var q := ReconfigureInPlace(p, config, env);
            ConnectionCount(q) <= q.max
  {
    BaseSized(p);
    NoExcess(p, config);
    hide CloseExcess, Wake;
    ReconfiguredFits(p, config, env);
    ReconfiguredBase(p, config, env);
    hide Inv, ReconfigureAll, Base, NoPrimary, WakePasses, RoomForOne, ConnectionCount;
    var q := ReconfigureAll(p.(config := config), env);
    WakePassesExactly(q, env);
    WakeKeeps(q, env);
  }

  lemma ReconfiguredFits(p: Pool, config: Config, env: Env)
    requires Inv(p) && p.open && ConnectionCount(p) <= p.max
    ensures var q := ReconfigureAll(p.(config := config), env);
            q.open && ConnectionCount(q) <= q.max && (NoPrimary(q) ==> RoomForOne(q) && !WakePasses(q, env))
  {
    var q := ReconfigureAll(p.(config := config), env);
    ReconfiguredCount(p, config, env);
    hide Base, NoPrimary, WakePasses, RoomForOne, ConnectionCount, NoLostWakeup, Reconfigured, MarkAcquired;
    if NoPrimary(q) {
      ReconfiguredNobody(p, config, env);
      NobodyPasses(q, env);
    }
  }

  lemma ReopenFits(p: Pool, config: Config, env: Env)
    requires Inv(p) && p.open && ConnectionCount(p) <= p.max
    requires Wal(config) != Wal(p.config) ==> p.acquired == map[]
    ensures var q := Reopen(p, config, env).0;
            ConnectionCount(q) <= q.max
  {
    ReopenKeeps(p, config, env);
    var q := Reopen(p, config, env).0;
    if OpenFails(p.nextId, config, env) {
      hide Inv, Wake;
    } else {
      ReopenHealthy(p, config, env);
      hide Reopen;
      CountParts(q);
    }
  }

  lemma ReconfigureFits(p: Pool, config: Config, env: Env)
    requires Inv(p) && p.open && config.path == p.config.path && !Passed(p)
    ensures !Passed(Reconfigure(p, config, env).0)
  {
    hide Inv, Reopen, ReconfigureInPlace;
    if !(p.acquired != map[] && (Wal(config) != Wal(p.config) || config.foreignKeys != p.config.foreignKeys)) {
      if config.openFlags != p.config.openFlags {
        CloseIdleKeeps(p);
        ReopenFits(if Wal(config) != Wal(p.config) then CloseIdle(p) else p, config, env);
      } else {
        InPlaceFits(p, config, env);
      }
    }
  }

  /**
   The steps after which the pool has more connections than its maximum. A fresh acquire: the
   pool is full of non-primaries, there is no primary, and the request opens one. A release:
   the last primary is closed, and the waiters it wakes do the same, or open both.
   */
  ghost predicate StepPasses(sys: System, step: Step) {
    match step
    case SessionAcquires(s, request, canceled, env) =>
      && sys.pool.open && s !in sys.clients && !canceled
      && NoPrimary(sys.pool) && NonPrimaries(sys.pool) == sys.pool.max
      && WantsPrimary(sys.pool, request) && !OpenFails(sys.pool.nextId, sys.pool.config, env)
    case SessionReleases(s, env) =>
      && sys.pool.open && s in sys.clients && sys.clients[s].Holding? && sys.clients[s].uses == 1
      && ReleasePasses(sys.pool, sys.clients[s].id, env)
    case _ => false
  }

  ghost predicate Passed(p: Pool) {
    ConnectionCount(p) > p.max
  }

  lemma ReleaseMax(p: Pool, id: nat, env: Env)
    requires Inv(p) && p.open && id in p.acquired && NotGranted(p, id)
    ensures Release(p, id, env).0.max == p.max
  {
    var q := ReleaseShape(p, id, env);
    hide Base, Wake, NotGranted;
    if Release(p, id, env).0 != q {
      WakeKeeps(q, env);
    }
  }

  // A release that wakes nobody only makes room.
  lemma SilentReleaseFits(p: Pool, id: nat, env: Env)
    requires Inv(p) && p.open && id in p.acquired && !Passed(p)
    requires !p.acquired[id].conn.primary && |p.idle| >= p.max - 1
    ensures !Passed(Release(p, id, env).0)
  {
    hide Inv, NoPrimary, WakePasses, RoomForOne, Wake, Recycle, ConnectionCount;
    RemovedRoom(p, id);
    AlikePasses(CloseConnection(Removed(p, id), id), Removed(p, id), env);
  }

  lemma ReleaseWakes(p: Pool, id: nat, env: Env)
    requires p.open && id in p.acquired && (p.acquired[id].conn.primary || |p.idle| < p.max - 1)
    ensures Release(p, id, env).0 == Wake(PutBack(p, id, env), env)
  {
    hide Wake;
  }

  /** A release passes the maximum exactly under that guard. */
  lemma ReleasePassesExactly(p: Pool, id: nat, env: Env)
    requires Inv(p) && p.open && id in p.acquired && NotGranted(p, id) && !Passed(p)
    ensures Passed(Release(p, id, env).0) <==> ReleasePasses(p, id, env)
  {
    InvParts(p);
    hide Inv, Base, NotGranted, Wake, Release, Recycle, ConnectionCount, WakePasses, NoPrimary, RoomForOne;
    if !p.acquired[id].conn.primary && |p.idle| >= p.max - 1 {
      SilentReleaseFits(p, id, env);
    } else {
      hide ReleasePasses;
      ReleaseMax(p, id, env);
      ReleaseWakes(p, id, env);
      PutBackPasses(p, id, env);
      PutBackOpen(p, id, env);
      WakePassesExactly(PutBack(p, id, env), env);
    }
  }

  lemma PutBackOpen(p: Pool, id: nat, env: Env)
    requires Base(p) && id in p.acquired && NotGranted(p, id)
    requires !p.acquired[id].conn.primary ==> |p.idle| < p.max - 1
    ensures Base(PutBack(p, id, env)) && PutBack(p, id, env).open == p.open
  {
    hide Base, NotGranted;
    RecycledBase(p, id, env);
  }

  lemma EnqueueFits(p: Pool, request: Request)
    ensures Passed(Enqueue(p, request)) == Passed(p)
  {
  }

  lemma AcquirePassesExactly(p: Pool, request: Request, canceled: bool, env: Env)
    requires Inv(p) && p.open && !Passed(p)
    ensures Passed(Acquire(p, request, canceled, env).0) <==>
              && !canceled && NoPrimary(p) && NonPrimaries(p) == p.max
              && WantsPrimary(p, request) && !OpenFails(p.nextId, p.config, env)
  {
    InvParts(p);
    ServePassesExactly(p, request, env);
    ServeKeeps(p, request, env);
    hide Inv, Connections, Serve, NoPrimary, NonPrimaries, WantsPrimary, Enqueue, ConnectionCount, Blocked;
    EnqueueFits(p, request);
  }

  // A pool that is closed only loses connections.
  lemma ReleaseWhenClosed(p: Pool, id: nat, env: Env)
    requires !p.open && !Passed(p)
    ensures !Passed(Release(p, id, env).0)
  {
    if id in p.acquired {
      SubsetSize(NotDiscarded(p.acquired - {id}), NotDiscarded(p.acquired));
    }
  }

  lemma CloseFits(p: Pool, env: Env)
    requires !Passed(p)
    ensures !Passed(Close(p, env).0)
  {
    hide NotDiscarded, Ids;
  }

  lemma ClosedFits(sys: System, step: Step)
    requires SystemInv(sys) && !Passed(sys.pool) && (!sys.pool.open || step.PoolCloses?)
    ensures !Passed(Next(sys, step).pool)
  {
    hide Owned, Passed, Close, Release;
    match step
    case SessionReleases(s, env) =>
      if s in sys.clients && sys.clients[s].Holding? {
        ReleaseWhenClosed(sys.pool, sys.clients[s].id, env);
      }
    case PoolCloses(env) => CloseFits(sys.pool, env);
    case _ =>
  }

  lemma CollectFits(p: Pool, ticket: nat)
    ensures Passed(Collect(p, ticket).0) == Passed(p)
  {
  }

  // What only a session's wait or the pool's configuration is about.
  lemma OtherStepsFit(sys: System, step: Step)
    requires SystemInv(sys) && sys.pool.open && !Passed(sys.pool)
    requires step.SessionWakes? || step.SessionIsCanceled? || step.PoolReconfigures?
    ensures !Passed(Next(sys, step).pool)
  {
    hide Inv, Owned, Passed, Cancel, Collect, Reconfigure;
    match step
    case SessionWakes(s) =>
      if s in sys.clients && sys.clients[s].Waiting? {
        CollectFits(sys.pool, sys.clients[s].ticket);
      }
    case SessionIsCanceled(s, env) =>
      if s in sys.clients && sys.clients[s].Waiting? {
        CancelFits(sys.pool, sys.clients[s].ticket, env);
      }
    case PoolReconfigures(config, env) =>
      if config.path == sys.pool.config.path {
        ReconfigureFits(sys.pool, config, env);
      }
  }

  lemma ReleaseStepExactly(sys: System, step: Step)
    requires SystemInv(sys) && sys.pool.open && !Passed(sys.pool) && step.SessionReleases?
    ensures Passed(Next(sys, step).pool) <==> StepPasses(sys, step)
  {
    OwnUsed(sys);
    hide Inv, Owned, Passed, ReleasePasses, Release;
    var s := step.session;
    if s in sys.clients && sys.clients[s].Holding? {
      OwnReleased(sys, s);
      ReleasePassesExactly(sys.pool, sys.clients[s].id, step.env);
    }
  }

  lemma OwnUsed(sys: System)
    requires Owned(sys)
    ensures forall s :: s in sys.clients && sys.clients[s].Holding? ==> sys.clients[s].uses >= 1
  {
  }

  lemma AcquireStepExactly(sys: System, step: Step)
    requires SystemInv(sys) && sys.pool.open && !Passed(sys.pool) && step.SessionAcquires?
    ensures Passed(Next(sys, step).pool) <==> StepPasses(sys, step)
  {
    hide Inv, Owned, Passed, Acquire, NoPrimary, NonPrimaries, WantsPrimary;
    AcquirePassesExactly(sys.pool, step.request, step.canceled, step.env);
  }

  /** A step takes the pool past its maximum exactly if it is one of these. */
  lemma NextPassesExactly(sys: System, step: Step)
    requires SystemInv(sys) && !Passed(sys.pool)
    ensures Passed(Next(sys, step).pool) <==> StepPasses(sys, step)
  {
    if !sys.pool.open || step.PoolCloses? {
      hide SystemInv, Next, Passed;
      ClosedFits(sys, step);
    } else if step.SessionAcquires? {
      hide SystemInv, Next, Passed, StepPasses;
      AcquireStepExactly(sys, step);
    } else if step.SessionReleases? {
      hide SystemInv, Next, Passed, StepPasses;
      ReleaseStepExactly(sys, step);
    } else {
      hide SystemInv, Next, Passed;
      OtherStepsFit(sys, step);
    }
  }

  lemma {:induction false} RunLast(sys: System, steps: seq<Step>, step: Step)
    ensures Run(sys, steps + [step]) == Next(Run(sys, steps), step)
    decreases |steps|
  {
    hide Next;
    if steps == [] {
      assert steps + [step] == [step] && [step][1..] == [];
    } else {
      RunLast(Next(sys, steps[0]), steps[1..], step);
      assert (steps + [step])[1..] == steps[1..] + [step];
    }
  }

  // The state before step `n` of a run, and the one after it.
  lemma StepInRun(sys: System, steps: seq<Step>, n: nat)
    requires SystemInv(sys) && n < |steps|
    ensures SystemInv(Run(sys, steps[..n]))
    ensures Run(sys, steps[..n + 1]) == Next(Run(sys, steps[..n]), steps[n])
  {
    hide SystemInv, Next;
    RunKeeps(sys, steps[..n]);
    RunLast(sys, steps[..n], steps[n]);
    assert steps[..n + 1] == steps[..n] + [steps[n]];
  }

  ghost predicate PassesAt(sys: System, steps: seq<Step>, n: nat) {
    n < |steps| && StepPasses(Run(sys, steps[..n]), steps[n])
  }

  lemma {:induction false} FirstPasses(sys: System, steps: seq<Step>, n: nat)
    requires SystemInv(sys) && !Passed(sys.pool) && n <= |steps| && Passed(Run(sys, steps[..n]).pool)
    ensures exists m: nat :: PassesAt(sys, steps, m)
    decreases n
  {
    hide SystemInv, Next, Passed, StepPasses;
    assert steps[..0] == [];
    if n > 0 {
      StepInRun(sys, steps, n - 1);
      if Passed(Run(sys, steps[..n - 1]).pool) {
        FirstPasses(sys, steps, n - 1);
      } else {
        NextPassesExactly(Run(sys, steps[..n - 1]), steps[n - 1]);
        assert PassesAt(sys, steps, n - 1);
      }
    }
  }

  lemma OpenedFits(config: Config, env: Env)
    requires OpenPool(config, env).Some?
    ensures var start := System(OpenPool(config, env).value, map[]);
            SystemInv(start) && !Passed(start.pool)
  {
    OpenPoolKeeps(config, env);
    var p := OpenPool(config, env).value;
    assert p.acquired == map[] && p.done == map[] && p.queue == [] && NotDiscarded(p.acquired) == {} && p.idle == [];
    hide Inv;
    assert Owned(System(p, map[]));
    assert ConnectionCount(p) == 1;
    assert p.max == PoolSize(config);
  }

  /** A run is ever past the maximum exactly if it takes one of these steps. */
  lemma RunPassesExactly(config: Config, env: Env, steps: seq<Step>)
    requires OpenPool(config, env).Some?
    ensures var start := System(OpenPool(config, env).value, map[]);
            (exists n: nat :: n <= |steps| && Passed(Run(start, steps[..n]).pool))
            <==> (exists n: nat :: PassesAt(start, steps, n))
  {
    var start := System(OpenPool(config, env).value, map[]);
    OpenedFits(config, env);
    hide Passed, StepPasses, SystemInv, Next, OpenPool;
    if n: nat :| n <= |steps| && Passed(Run(start, steps[..n]).pool) {
      FirstPasses(start, steps, n);
    }
    if n: nat :| PassesAt(start, steps, n) {
      StepInRun(start, steps, n);
      if !Passed(Run(start, steps[..n]).pool) {
        NextPassesExactly(Run(start, steps[..n]), steps[n]);
        assert Passed(Run(start, steps[..n + 1]).pool);
      }
    }
  }
}
