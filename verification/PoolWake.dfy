/**
 The wake-up loop. Its two flags and its early exit change nothing: it serves every waiter
 in turn. From this follow what the loop keeps, that it leaves nobody it could serve, and
 that nobody is overtaken.
 */
module PoolWake {
  import opened PoolSpec
  import opened PoolInvariant

  /** The loop without flags and without an early exit: every waiter is tried, in order. */
  ghost function ServeInOrder(p: Pool, i: nat, env: Env): Pool
    requires i <= |p.queue|
    decreases |p.queue| - i
  {
    if i == |p.queue| then p
    else
      var (p1, a) := Serve(p, p.queue[i].request, env);
      match a
      case Got(id) => ServeInOrder(Dequeue(p1, i, Granted(id)), i, env)
      case Failed(error) => ServeInOrder(Dequeue(p1, i, Refused(error)), i, env)
      case Unavailable => ServeInOrder(p1, i + 1, env)
  }

  lemma BlockedStays(p: Pool, request: Request, env: Env)
    requires Connections(p)
    ensures var (p', a) := Serve(p, request, env);
            && (PrimaryBlocked(p) ==> PrimaryBlocked(p'))
            && (IdleBlocked(p) ==> IdleBlocked(p'))
  {
    var (p', a) := Serve(p, request, env);
    ServeKeeps(p, request, env);
    TryIdleKeeps(p, request, env);
    TryPrimaryKeeps(p, request, env);
    if a.Got? {
      WorkersPut(p.acquired, p'.acquired[a.id]);
      if PrimaryBlocked(p) {
        var id :| id in p.acquired && p.acquired[id].conn.primary;
        assert p'.acquired[id].conn.primary;
      }
    }
  }

  lemma DequeueConnections(p: Pool, i: nat, outcome: Outcome)
    requires Connections(p) && i < |p.queue|
    ensures Connections(Dequeue(p, i, outcome))
  {
    var p' := Dequeue(p, i, outcome);
    forall id: nat ensures Live(p', id) <==> Live(p, id) {}
  }

  /** A turn with sound flags serves like a turn without flags, and leaves sound flags. */
  lemma FlagsSound(p: Pool, request: Request, noPrimary: bool, noIdle: bool, env: Env)
    requires Connections(p)
    requires noPrimary ==> PrimaryBlocked(p)
    requires noIdle ==> IdleBlocked(p)
    ensures var (p1, a, noPrimary1, noIdle1) := ServeFlagged(p, request, noPrimary, noIdle, env);
            && (p1, a) == Serve(p, request, env)
            && (noPrimary1 ==> PrimaryBlocked(p1))
            && (noIdle1 ==> IdleBlocked(p1))
  {
    TryIdleKeeps(p, request, env);
    TryPrimaryKeeps(p, request, env);
    BlockedStays(p, request, env);
  }

  lemma NobodyServed(p: Pool, i: nat, env: Env)
    requires Connections(p) && i <= |p.queue| && PrimaryBlocked(p) && IdleBlocked(p)
    ensures ServeInOrder(p, i, env) == p
    decreases |p.queue| - i
  {
    if i < |p.queue| {
      ServeKeeps(p, p.queue[i].request, env);
      NobodyServed(p, i + 1, env);
    }
  }

  lemma DequeueBlocks(p: Pool, i: nat)
    requires i < |p.queue|
    ensures forall outcome :: PrimaryBlocked(Dequeue(p, i, outcome)) == PrimaryBlocked(p)
                              && IdleBlocked(Dequeue(p, i, outcome)) == IdleBlocked(p)
  {
  }

  /** The flags and the early exit of the wake-up loop are only an optimization. */
  lemma {:induction false} WakeServesInOrder(p: Pool, i: nat, noPrimary: bool, noIdle: bool, env: Env)
    requires Connections(p) && i <= |p.queue|
    requires noPrimary ==> PrimaryBlocked(p)
    requires noIdle ==> IdleBlocked(p)
    ensures WakeFrom(p, i, noPrimary, noIdle, env) == ServeInOrder(p, i, env)
    decreases |p.queue| - i
  {
    hide Serve, ServeFlagged, Connections, PrimaryBlocked, IdleBlocked;
    if i < |p.queue| {
      var w := p.queue[i];
      var (p1, a, noPrimary1, noIdle1) := ServeFlagged(p, w.request, noPrimary, noIdle, env);
      FlagsSound(p, w.request, noPrimary, noIdle, env);
      ServeKeeps(p, w.request, env);
      DequeueBlocks(p1, i);
      match a
      case Got(id) =>
        DequeueConnections(p1, i, Granted(id));
        WakeServesInOrder(Dequeue(p1, i, Granted(id)), i, noPrimary1, noIdle1, env);
      case Failed(error) =>
        DequeueConnections(p1, i, Refused(error));
        WakeServesInOrder(Dequeue(p1, i, Refused(error)), i, noPrimary1, noIdle1, env);
      case Unavailable =>
        if noPrimary1 && noIdle1 {
          NobodyServed(p, i + 1, env);
        } else {
          WakeServesInOrder(p1, i + 1, noPrimary1, noIdle1, env);
        }
    }
  }

  // ---------------------------------------------------------------- what the loop keeps

  lemma ServeBase(p: Pool, request: Request, env: Env)
    requires Base(p)
    ensures Base(Serve(p, request, env).0)
  {
    ServeKeeps(p, request, env);
  }

  lemma DequeuedAt(queue: seq<Waiter>, i: nat)
    requires i < |queue|
    ensures var q := queue[..i] + queue[i + 1..];
            |q| == |queue| - 1 && forall j :: 0 <= j < |q| ==> q[j] == queue[if j < i then j else j + 1]
  {
  }

  lemma DequeueQueued(p: Pool, i: nat, outcome: Outcome)
    requires Queued(p) && i < |p.queue|
    ensures Queued(Dequeue(p, i, outcome))
  {
    DequeuedAt(p.queue, i);
    hide Before;
  }

  lemma DequeueGrants(p: Pool, i: nat, outcome: Outcome)
    requires GrantsDistinct(p) && i < |p.queue| && p.queue[i].ticket !in p.done
    requires outcome.Granted? ==> outcome.id in p.acquired
    requires outcome.Granted? ==> forall t :: t in p.done && p.done[t].Granted? ==> p.done[t].id != outcome.id
    ensures GrantsDistinct(Dequeue(p, i, outcome))
  {
  }

  lemma DequeueBase(p: Pool, i: nat, outcome: Outcome)
    requires Base(p) && i < |p.queue|
    requires outcome.Granted? ==> outcome.id in p.acquired
    requires outcome.Granted? ==> forall t :: t in p.done && p.done[t].Granted? ==> p.done[t].id != outcome.id
    ensures Base(Dequeue(p, i, outcome))
  {
    assert p.queue[i].ticket !in p.done;
    hide Connections, Queued, GrantsDistinct;
    DequeueConnections(p, i, outcome);
    DequeueQueued(p, i, outcome);
    DequeueGrants(p, i, outcome);
  }

  // One turn of the loop, on the invariant.
  lemma TurnBase(p: Pool, i: nat, env: Env)
    requires Base(p) && i < |p.queue|
    ensures var (p1, a) := Serve(p, p.queue[i].request, env);
            && p1.queue == p.queue && Base(p1) && Queued(p1)
            && (a.Got? ==> Base(Dequeue(p1, i, Granted(a.id))))
            && (a.Failed? ==> Base(Dequeue(p1, i, Refused(a.error))))
            && (a == Unavailable ==> p1 == p)
  {
    var (p1, a) := Serve(p, p.queue[i].request, env);
    ServeKeeps(p, p.queue[i].request, env);
    ServeBase(p, p.queue[i].request, env);
    match a
    case Got(id) => DequeueBase(p1, i, Granted(id));
    case Failed(error) => DequeueBase(p1, i, Refused(error));
    case Unavailable =>
  }

  // The waiters before position `i` have been found blocked.
  ghost predicate PrefixBlocked(p: Pool, i: nat) {
    i <= |p.queue| && forall j :: 0 <= j < i ==> Blocked(p, p.queue[j].request)
  }

  lemma PrefixStays(p: Pool, i: nat, env: Env)
    requires Connections(p) && PrefixBlocked(p, i) && i < |p.queue|
    ensures var (p1, a) := Serve(p, p.queue[i].request, env);
            && p1.queue == p.queue
            && (a.Got? ==> PrefixBlocked(Dequeue(p1, i, Granted(a.id)), i))
            && (a.Failed? ==> PrefixBlocked(Dequeue(p1, i, Refused(a.error)), i))
            && (a == Unavailable ==> PrefixBlocked(p1, i + 1))
  {
    ServeKeeps(p, p.queue[i].request, env);
    BlockedStays(p, p.queue[i].request, env);
    hide Connections, Serve;
  }

  lemma AllBlocked(p: Pool)
    requires PrefixBlocked(p, |p.queue|)
    ensures NoLostWakeup(p)
  {
    forall w | w in p.queue ensures Blocked(p, w.request) {
      var j :| 0 <= j < |p.queue| && p.queue[j] == w;
    }
    if p.queue != [] {
      assert Blocked(p, p.queue[0].request);
    }
  }

  /** The loop keeps the invariant and ends with nobody in the queue that could be served. */
  lemma {:induction false} ServeInOrderKeeps(p: Pool, i: nat, env: Env)
    requires Base(p) && PrefixBlocked(p, i)
    ensures Base(ServeInOrder(p, i, env)) && NoLostWakeup(ServeInOrder(p, i, env))
    decreases |p.queue| - i
  {
    hide Serve, Blocked, Connections, Queued, GrantsDistinct, NoLostWakeup;
    if i == |p.queue| {
      AllBlocked(p);
    } else {
      var (p1, a) := Serve(p, p.queue[i].request, env);
      TurnBase(p, i, env);
      PrefixStays(p, i, env);
      match a
      case Got(id) => ServeInOrderKeeps(Dequeue(p1, i, Granted(id)), i, env);
      case Failed(error) => ServeInOrderKeeps(Dequeue(p1, i, Refused(error)), i, env);
      case Unavailable => ServeInOrderKeeps(p1, i + 1, env);
    }
  }

  /** What the loop leaves alone. */
  ghost predicate Advanced(p: Pool, p': Pool) {
    && p'.open == p.open && p'.config == p.config && p'.max == p.max
    && p'.nextTicket == p.nextTicket && p'.abandoned == p.abandoned
    && (forall id :: id in p.acquired ==> id in p'.acquired && p'.acquired[id] == p.acquired[id])
    && (forall id :: id in p'.acquired && id !in p.acquired ==> p'.acquired[id].status == NORMAL)
    && (forall w :: w in p'.queue ==> w in p.queue)
    && (forall t :: t in p.done ==> t in p'.done && p'.done[t] == p.done[t])
    && (forall w :: w in p.queue ==> w in p'.queue || w.ticket in p'.done)
    && (forall t :: t in p'.done && t !in p.done ==> exists w :: w in p.queue && w.ticket == t)
    // a connection is acquired only to be granted
    && (forall id :: id in p'.acquired && id !in p.acquired ==>
          exists t :: t in p'.done && t !in p.done && p'.done[t] == Granted(id))
    && (forall t :: t in p'.done && t !in p.done && p'.done[t].Granted? ==>
          p'.done[t].id in p'.acquired && p'.done[t].id !in p.acquired)
  }

  lemma AdvancedReflexive(p: Pool)
    ensures Advanced(p, p)
  {
  }

  lemma AdvancedTransitive(p: Pool, q: Pool, r: Pool)
    requires Advanced(p, q) && Advanced(q, r)
    ensures Advanced(p, r)
  {
    forall id | id in r.acquired && id !in p.acquired
      ensures exists t :: t in r.done && t !in p.done && r.done[t] == Granted(id)
    {
      if id in q.acquired {
        var t :| t in q.done && t !in p.done && q.done[t] == Granted(id);
        assert r.done[t] == Granted(id);
      }
    }
  }

  // One waiter left the queue with its outcome, and at most one connection was acquired, for it.
  lemma OneDequeued(p: Pool, p1: Pool, i: nat, outcome: Outcome)
    requires i < |p.queue| && p1.queue == p.queue && p1.done == p.done && p.queue[i].ticket !in p.done
    requires p1.open == p.open && p1.config == p.config && p1.max == p.max
    requires p1.nextTicket == p.nextTicket && p1.abandoned == p.abandoned
    requires outcome.Refused? ==> p1.acquired == p.acquired
    requires outcome.Granted? ==>
               outcome.id !in p.acquired && outcome.id in p1.acquired && p1.acquired[outcome.id].status == NORMAL
                                  && p1.acquired == p.acquired[outcome.id := p1.acquired[outcome.id]]
    ensures Advanced(p, Dequeue(p1, i, outcome))
  {
    var w, p' := p.queue[i], Dequeue(p1, i, outcome);
    assert p.queue == p.queue[..i] + [w] + p.queue[i + 1..];
    assert p'.done[w.ticket] == outcome;
  }

  lemma TurnAdvances(p: Pool, i: nat, env: Env)
    requires Base(p) && i < |p.queue|
    ensures var (p1, a) := Serve(p, p.queue[i].request, env);
            && (a.Got? ==> Advanced(p, Dequeue(p1, i, Granted(a.id))))
            && (a.Failed? ==> Advanced(p, Dequeue(p1, i, Refused(a.error))))
  {
    var (p1, a) := Serve(p, p.queue[i].request, env);
    assert p.queue[i].ticket !in p.done;
    hide Queued, GrantsDistinct, Advanced, Serve;
    ServeKeeps(p, p.queue[i].request, env);
    hide Connections;
    if a.Got? {
      OneDequeued(p, p1, i, Granted(a.id));
    } else if a.Failed? {
      OneDequeued(p, p1, i, Refused(a.error));
    }
  }

  lemma {:induction false} ServeInOrderAdvances(p: Pool, i: nat, env: Env)
    requires Base(p) && i <= |p.queue|
    ensures Advanced(p, ServeInOrder(p, i, env))
    decreases |p.queue| - i
  {
    hide Serve, Base, Advanced;
    if i == |p.queue| {
      AdvancedReflexive(p);
    } else {
      var (p1, a) := Serve(p, p.queue[i].request, env);
      TurnBase(p, i, env);
      TurnAdvances(p, i, env);
      match a
      case Got(id) =>
        var q := Dequeue(p1, i, Granted(id));
        ServeInOrderAdvances(q, i, env);
        AdvancedTransitive(p, q, ServeInOrder(q, i, env));
      case Failed(error) =>
        var q := Dequeue(p1, i, Refused(error));
        ServeInOrderAdvances(q, i, env);
        AdvancedTransitive(p, q, ServeInOrder(q, i, env));
      case Unavailable =>
        ServeInOrderAdvances(p1, i + 1, env);
    }
  }

  /** The wake-up of an open pool: the invariant, nobody left that could be served, and what it changes. */
  lemma WakeKeeps(p: Pool, env: Env)
    requires Base(p) && p.open
    ensures Inv(Wake(p, env)) && Advanced(p, Wake(p, env))
  {
    WakeServesInOrder(p, 0, false, false, env);
    ServeInOrderKeeps(p, 0, env);
    ServeInOrderAdvances(p, 0, env);
  }

  // ---------------------------------------------------------------- overtaking

  // From `p` on, only waiters that could not have used what `w` is waiting for were granted a connection.
  ghost predicate GrantsPassOver(p: Pool, p': Pool, w: Waiter) {
    forall t :: t in p'.done && t !in p.done && p'.done[t].Granted? && p'.done[t].id in p'.acquired ==>
      w.request.flags.primaryAffinity && !p'.acquired[p'.done[t].id].conn.primary
  }

  lemma BlockedTurn(p: Pool, i: nat, w: Waiter, env: Env)
    requires Base(p) && i < |p.queue| && Blocked(p, w.request)
    ensures var (p1, a) := Serve(p, p.queue[i].request, env);
            && Blocked(p1, w.request)
            && (a.Got? ==> GrantsPassOver(p, Dequeue(p1, i, Granted(a.id)), w))
            && (a.Failed? ==> GrantsPassOver(p, Dequeue(p1, i, Refused(a.error)), w))
  {
    var u := p.queue[i];
    ServeKeeps(p, u.request, env);
    BlockedStays(p, u.request, env);
    TryIdleKeeps(p, u.request, env);
    TryPrimaryKeeps(p, u.request, env);
  }

  lemma PassOverTransitive(p: Pool, q: Pool, r: Pool, w: Waiter)
    requires GrantsPassOver(p, q, w) && GrantsPassOver(q, r, w) && Advanced(p, q) && Advanced(q, r)
    requires Base(q)
    ensures GrantsPassOver(p, r, w)
  {
  }

  /** Once `w` has been found blocked, the rest of the loop grants nothing that `w` could have used. */
  lemma {:induction false} BlockedGrants(p: Pool, i: nat, w: Waiter, env: Env)
    requires Base(p) && i <= |p.queue| && Blocked(p, w.request)
    ensures GrantsPassOver(p, ServeInOrder(p, i, env), w)
    decreases |p.queue| - i
  {
    hide Serve, Base, Advanced, Blocked;
    if i < |p.queue| {
      var (p1, a) := Serve(p, p.queue[i].request, env);
      TurnBase(p, i, env);
      TurnAdvances(p, i, env);
      BlockedTurn(p, i, w, env);
      if a == Unavailable {
        BlockedGrants(p1, i + 1, w, env);
      } else {
        var q := Dequeue(p1, i, if a.Got? then Granted(a.id) else Refused(a.error));
        DequeueBlocked(p1, i, if a.Got? then Granted(a.id) else Refused(a.error), w);
        BlockedGrants(q, i, w, env);
        ServeInOrderAdvances(q, i, env);
        PassOverTransitive(p, q, ServeInOrder(q, i, env), w);
      }
    }
  }

  lemma DequeueBlocked(p: Pool, i: nat, outcome: Outcome, w: Waiter)
    requires i < |p.queue| && Blocked(p, w.request)
    ensures Blocked(Dequeue(p, i, outcome), w.request)
  {
  }

  // `w` stays in the queue while the later `v` was granted a connection: only if it could not use it.
  ghost predicate FairGrant(p': Pool, w: Waiter, v: Waiter) {
    w in p'.queue && v.ticket in p'.done && p'.done[v.ticket].Granted? && p'.done[v.ticket].id in p'.acquired ==>
      w.request.flags.primaryAffinity && !p'.acquired[p'.done[v.ticket].id].conn.primary
  }

  lemma LaterNotDone(p: Pool, k: nat, v: Waiter)
    requires Queued(p) && k <= |p.queue| && v in p.queue[k..]
    ensures v.ticket !in p.done
  {
  }

  lemma NotLeftBehind(queue: seq<Waiter>, i: nat)
    requires i < |queue| && forall j, k :: 0 <= j < k < |queue| ==> queue[j].ticket != queue[k].ticket
    ensures queue[i] !in queue[..i] + queue[i + 1..]
  {
    var rest := queue[..i] + queue[i + 1..];
    forall m | 0 <= m < |rest| ensures rest[m] != queue[i] {
      assert rest[m] == queue[if m < i then m else m + 1];
    }
  }

  lemma DequeuedGone(p: Pool, p': Pool, i: nat, outcome: Outcome)
    requires Queued(p) && i < |p.queue| && Advanced(Dequeue(p, i, outcome), p')
    ensures p.queue[i] !in p'.queue
  {
    NotLeftBehind(p.queue, i);
  }

  lemma {:induction false} ServeInOrderFair(p: Pool, i: nat, k: nat, env: Env)
    requires Base(p) && i <= k < |p.queue|
    ensures forall v :: v in p.queue[k + 1..] ==> FairGrant(ServeInOrder(p, i, env), p.queue[k], v)
    decreases |p.queue| - i
  {
    hide Serve, Connections, Advanced, Queued, GrantsDistinct, Blocked;
    var w := p.queue[k];
    var (p1, a) := Serve(p, p.queue[i].request, env);
    var p' := ServeInOrder(p, i, env);
    ServeKeeps(p, p.queue[i].request, env);
    TurnBase(p, i, env);
    forall v | v in p.queue[k + 1..] ensures v.ticket !in p.done {
      LaterNotDone(p, k + 1, v);
    }
    if a == Unavailable {
      if i < k {
        ServeInOrderFair(p, i + 1, k, env);
      } else {
        BlockedGrants(p, i + 1, w, env);
      }
    } else {
      var outcome := if a.Got? then Granted(a.id) else Refused(a.error);
      var q := Dequeue(p1, i, outcome);
      if i < k {
        assert q.queue[k - 1] == w && q.queue[k..] == p.queue[k + 1..];
        ServeInOrderFair(q, i, k - 1, env);
      } else {
        ServeInOrderAdvances(q, i, env);
        DequeuedGone(p1, p', i, outcome);
      }
    }
  }

  /** A waiter left in the queue is passed over only for a non-primary connection it would not accept. */
  lemma WakeOvertakesNobody(p: Pool, k: nat, m: nat, env: Env)
    requires Base(p) && p.open && k < m < |p.queue|
    ensures FairGrant(Wake(p, env), p.queue[k], p.queue[m])
  {
    WakeServesInOrder(p, 0, false, false, env);
    ServeInOrderFair(p, 0, k, env);
    assert p.queue[m] == p.queue[k + 1..][m - k - 1];
  }
}
