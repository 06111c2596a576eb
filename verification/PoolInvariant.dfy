/**
 What every lock-held section keeps: where each connection is, how many there are, which
 configuration they carry, and how the waiters are ordered.
 */
module PoolInvariant {
  import opened Wrappers
  import opened PoolSpec

  ghost predicate Live(p: Pool, id: nat) {
    || id in p.acquired
    || (p.primary.Some? && p.primary.value.id == id)
    || id in Ids(p.idle)
  }

  /**
   Every connection ever numbered is closed or in exactly one of the three places: the
   primary slot, the idle list, the acquired map.
   */
  ghost predicate Accounted(p: Pool) {
    && (forall id :: id in p.acquired ==> p.acquired[id].conn.id == id)
    && (p.primary.Some? ==>
          p.primary.value.primary && p.primary.value.id !in p.acquired && p.primary.value.id !in Ids(p.idle))
    && (forall c :: c in p.idle ==> !c.primary && c.id !in p.acquired)
    && (forall i, j :: 0 <= i < j < |p.idle| ==> p.idle[i].id != p.idle[j].id)
    && (forall id: nat :: id in p.closed ==> !Live(p, id))
    && (forall id: nat :: id < p.nextId <==> id in p.closed || Live(p, id))
  }

  ghost predicate LivePrimary(acquired: map<nat, Held>, id: nat) {
    id in acquired && acquired[id].conn.primary && acquired[id].status != DISCARD
  }

  /** At most one primary is not marked DISCARD. */
  ghost predicate OnePrimary(p: Pool) {
    && (forall a: nat, b: nat :: LivePrimary(p.acquired, a) && LivePrimary(p.acquired, b) ==> a == b)
    && (p.primary.Some? ==> forall id: nat :: !LivePrimary(p.acquired, id))
  }

  /** Available connections and NORMAL acquired ones carry the pool's own configuration. */
  ghost predicate ConfigAgrees(p: Pool) {
    && (p.primary.Some? ==> p.primary.value.config == p.config)
    && (forall c :: c in p.idle ==> c.config == p.config)
    && (forall id :: id in p.acquired && p.acquired[id].status == NORMAL ==>
          p.acquired[id].conn.config == p.config)
    && (forall id :: id in p.acquired && p.acquired[id].status != DISCARD ==>
          p.acquired[id].conn.config.openFlags == p.config.openFlags)
  }

  // The acquired connections that will come back as non-primaries.
  ghost function Workers(acquired: map<nat, Held>): set<nat> {
    set id | id in acquired && !acquired[id].conn.primary && acquired[id].status != DISCARD
  }

  ghost predicate Sized(p: Pool) {
    && p.max == PoolSize(p.config)
    && |p.idle| <= p.max - 1
    && |p.idle| + |Workers(p.acquired)| <= p.max
  }

  /** Requests of the main thread before all others; apart from that, order of arrival. */
  ghost predicate Before(a: Waiter, b: Waiter) {
    || (a.request.flags.interactive && !b.request.flags.interactive)
    || (a.request.flags.interactive == b.request.flags.interactive && a.ticket < b.ticket)
  }

  ghost predicate Ordered(queue: seq<Waiter>) {
    forall i, j :: 0 <= i < j < |queue| ==> Before(queue[i], queue[j])
  }

  ghost predicate Queued(p: Pool) {
    && Ordered(p.queue)
    && (forall i :: 0 <= i < |p.queue| ==> p.queue[i].ticket < p.nextTicket && p.queue[i].ticket !in p.done
                                           && p.queue[i].ticket !in p.abandoned)
    && (forall i, j :: 0 <= i < j < |p.queue| ==> p.queue[i].ticket != p.queue[j].ticket)
    && (forall t :: t in p.done ==> t < p.nextTicket && t !in p.abandoned)
    && (forall t :: t in p.abandoned ==> t < p.nextTicket)
    && (p.open ==> p.abandoned == {})
    && (!p.open ==> p.queue == [])
  }

  /** A connection assigned to a waiter is acquired, and assigned to no other waiter. */
  ghost predicate GrantsDistinct(p: Pool) {
    && (forall t :: t in p.done && p.done[t].Granted? ==> p.done[t].id in p.acquired)
    && (forall t, u | t in p.done && u in p.done && p.done[t].Granted? && p.done[u].Granted? ::
          p.done[t].id == p.done[u].id ==> t == u)
  }

  // An acquire of the primary finds nothing: it is out, even if it is to be discarded.
  ghost predicate PrimaryBlocked(p: Pool) {
    p.primary.None? && HasAcquiredPrimary(p.acquired)
  }

  // An acquire of a non-primary finds nothing and may not open another.
  ghost predicate IdleBlocked(p: Pool) {
    p.idle == [] && |p.acquired| + SlotCount(p) >= p.max
  }

  /** No queued waiter could be served. */
  ghost predicate NoLostWakeup(p: Pool) {
    && (p.queue != [] ==> PrimaryBlocked(p))
    && (forall w :: w in p.queue && !w.request.flags.primaryAffinity ==> IdleBlocked(p))
  }

  ghost predicate Connections(p: Pool) {
    Accounted(p) && OnePrimary(p) && ConfigAgrees(p) && Sized(p)
  }

  // Everything but the absence of servable waiters, which fails in the middle of a step.
  ghost predicate Base(p: Pool) {
    Connections(p) && Queued(p) && GrantsDistinct(p)
  }

  ghost predicate Inv(p: Pool) {
    && Base(p)
    && (p.open ==> NoLostWakeup(p))
    && (!p.open ==> p.primary.None? && p.idle == [])
  }

  // ---------------------------------------------------------------- sets of numbers

  lemma IdsAppend(a: seq<Conn>, b: seq<Conn>)
    ensures Ids(a + b) == Ids(a) + Ids(b)
  {
    forall c | c in a + b ensures c in a || c in b {}
    forall id | id in Ids(a) + Ids(b) ensures id in Ids(a + b) {
      if id in Ids(a) {
        var c :| c in a && c.id == id;
        assert c in a + b;
      } else {
        var c :| c in b && c.id == id;
        assert c in a + b;
      }
    }
  }

  lemma IdsRemove(idle: seq<Conn>, k: nat)
    requires k < |idle|
    ensures Ids(idle) == Ids(idle[..k] + idle[k + 1..]) + {idle[k].id}
    ensures forall c :: c in idle[..k] + idle[k + 1..] ==> c in idle
    ensures (forall i, j :: 0 <= i < j < |idle| ==> idle[i].id != idle[j].id) ==>
              idle[k].id !in Ids(idle[..k] + idle[k + 1..])
  {
    assert idle == idle[..k] + ([idle[k]] + idle[k + 1..]);
    IdsAppend(idle[..k], [idle[k]] + idle[k + 1..]);
    IdsAppend([idle[k]], idle[k + 1..]);
    IdsAppend(idle[..k], idle[k + 1..]);
    assert Ids([idle[k]]) == {idle[k].id};
  }

  lemma SubsetSize(a: set<nat>, b: set<nat>)
    requires a <= b
    ensures |a| <= |b|
  {
    var c := b - a;
    assert b == a + c && a !! c;
  }

  lemma WorkersBounded(acquired: map<nat, Held>)
    ensures |Workers(acquired)| <= |acquired|
  {
    SubsetSize(Workers(acquired), acquired.Keys);
    assert |acquired.Keys| == |acquired|;
  }

  lemma WorkersPut(acquired: map<nat, Held>, held: Held)
    requires held.conn.id !in acquired
    ensures Workers(acquired[held.conn.id := held]) ==
            Workers(acquired) + (if held.conn.primary || held.status == DISCARD then {} else {held.conn.id})
    ensures held.conn.id !in Workers(acquired)
    ensures |acquired[held.conn.id := held]| == |acquired| + 1
  {
    OneMoreKey(acquired, held.conn.id, held);
  }

  lemma OneMoreKey(acquired: map<nat, Held>, id: nat, held: Held)
    requires id !in acquired
    ensures |acquired[id := held]| == |acquired| + 1
  {
    var more := acquired[id := held];
    assert more.Keys == acquired.Keys + {id};
    assert |more| == |more.Keys| && |acquired| == |acquired.Keys|;
  }

  lemma WorkersRemove(acquired: map<nat, Held>, id: nat)
    requires id in acquired
    ensures Workers(acquired - {id}) == Workers(acquired) - {id}
    ensures |acquired - {id}| == |acquired| - 1
  {
    assert (acquired - {id}).Keys == acquired.Keys - {id};
  }

  // ---------------------------------------------------------------- taking a connection

  // What an attempt leaves alone, and what it adds to the acquired connections.
  ghost predicate Took(p: Pool, p': Pool, a: Attempt, request: Request) {
    && p'.open == p.open && p'.config == p.config && p'.max == p.max && p'.queue == p.queue
    && p'.done == p.done && p'.nextTicket == p.nextTicket && p'.abandoned == p.abandoned
    && (a.Got? ==>
          && a.id !in p.acquired && a.id in p'.acquired
          && p'.acquired[a.id].status == NORMAL
          && p'.acquired[a.id].conn.readOnly == request.flags.readOnly
          && p'.acquired == p.acquired[a.id := p'.acquired[a.id]])
    && (!a.Got? ==> p'.acquired == p.acquired && p'.primary == p.primary && p'.idle == p.idle)
    && (a == Unavailable ==> p' == p)
  }

  // The three ways a connection gets acquired, one lemma for each part of the invariant.

  lemma AcquiredNormal(p: Pool, p': Pool, held: Held)
    requires OnePrimary(p) && ConfigAgrees(p)
    requires held.conn.id !in p.acquired && held.status == NORMAL && held.conn.config == p.config
    requires held.conn.primary ==> forall id: nat :: !LivePrimary(p.acquired, id)
    requires p'.acquired == p.acquired[held.conn.id := held] && p'.config == p.config
    requires p'.primary == p.primary || p'.primary == None
    requires held.conn.primary ==> p'.primary == None
    requires forall c :: c in p'.idle ==> c in p.idle
    ensures OnePrimary(p') && ConfigAgrees(p')
  {
    forall id: nat ensures LivePrimary(p'.acquired, id) <==>
                           LivePrimary(p.acquired, id) || (id == held.conn.id && held.conn.primary) {}
  }

  lemma OpenedAccounted(p: Pool, p': Pool, held: Held)
    requires Accounted(p) && held.conn.id == p.nextId
    requires p' == p.(nextId := p.nextId + 1, acquired := p.acquired[held.conn.id := held])
    ensures Accounted(p')
  {
    assert !Live(p, p.nextId) && p.nextId !in p.closed;
    forall id: nat ensures Live(p', id) <==> Live(p, id) || id == p.nextId {}
    forall c | c in p.idle ensures c.id != p.nextId {
      assert c.id in Ids(p.idle);
    }
  }

  lemma FailedAccounted(p: Pool, p': Pool)
    requires Accounted(p)
    requires p' == p.(nextId := p.nextId + 1, closed := p.closed + {p.nextId})
    ensures Accounted(p')
  {
    assert !Live(p, p.nextId);
    forall id: nat ensures Live(p', id) <==> Live(p, id) {}
  }

  lemma OpenedSized(p: Pool, p': Pool, held: Held)
    requires Sized(p) && held.conn.id !in p.acquired
    requires !held.conn.primary ==> p.idle == [] && |p.acquired| + SlotCount(p) < p.max
    requires p' == p.(nextId := p.nextId + 1, acquired := p.acquired[held.conn.id := held])
    ensures Sized(p')
  {
    WorkersPut(p.acquired, held);
    WorkersBounded(p.acquired);
  }

  lemma NextUnused(p: Pool)
    requires Accounted(p)
    ensures p.nextId !in p.acquired
  {
    assert !Live(p, p.nextId);
  }

  lemma OpenKeeps(p: Pool, primary: bool, request: Request, env: Env)
    requires Connections(p)
    requires primary ==> p.primary.None? && !HasAcquiredPrimary(p.acquired)
    requires !primary ==> p.idle == [] && |p.acquired| + SlotCount(p) < p.max
    ensures var (p', a) := OpenAndAcquire(p, primary, request, env);
            Connections(p') && Took(p, p', a, request) && a != Unavailable
            && (a.Got? ==> p'.acquired[a.id].conn.primary == primary && p'.primary == p.primary && p'.idle == p.idle)
  {
    NextUnused(p);
    if primary {
      NoPrimaryAcquired(p.acquired);
    }
    hide Accounted, OnePrimary, ConfigAgrees, Sized, HasAcquiredPrimary, LivePrimary;
    var (p', a) := OpenAndAcquire(p, primary, request, env);
    if a.Got? {
      var held := p'.acquired[p.nextId];
      AcquiredNormal(p, p', held);
      OpenedAccounted(p, p', held);
      OpenedSized(p, p', held);
    } else {
      FailedAccounted(p, p');
      FailedRest(p, p');
    }
  }

  lemma FailedRest(p: Pool, p': Pool)
    requires OnePrimary(p) && ConfigAgrees(p) && Sized(p)
    requires p' == p.(nextId := p.nextId + 1, closed := p.closed + {p.nextId})
    ensures OnePrimary(p') && ConfigAgrees(p') && Sized(p')
  {
  }

  lemma NoPrimaryAcquired(acquired: map<nat, Held>)
    requires !HasAcquiredPrimary(acquired)
    ensures forall id: nat :: !LivePrimary(acquired, id)
  {
  }

  lemma SlotAccounted(p: Pool, p': Pool, held: Held)
    requires Accounted(p) && p.primary.Some? && held.conn.id == p.primary.value.id
    requires p' == p.(primary := None, acquired := p.acquired[held.conn.id := held])
    ensures Accounted(p')
  {
    forall id: nat ensures Live(p', id) <==> Live(p, id) {}
    forall c | c in p.idle ensures c.id != held.conn.id {
      assert c.id in Ids(p.idle);
    }
  }

  lemma TryPrimaryKeeps(p: Pool, request: Request, env: Env)
    requires Connections(p)
    ensures var (p', a) := TryPrimary(p, request, env);
            Connections(p') && Took(p, p', a, request) && (a == Unavailable <==> PrimaryBlocked(p))
            && (a.Got? ==> p'.acquired[a.id].conn.primary && PrimaryBlocked(p') && p'.idle == p.idle
                           && |p'.acquired| + SlotCount(p') >= |p.acquired| + SlotCount(p))
  {
    var (p', a) := TryPrimary(p, request, env);
    if p.primary.Some? {
      var held := p'.acquired[a.id];
      AcquiredNormal(p, p', held);
      SlotAccounted(p, p', held);
      WorkersPut(p.acquired, held);
    } else if !HasAcquiredPrimary(p.acquired) {
      OpenKeeps(p, true, request, env);
      if a.Got? {
        WorkersPut(p.acquired, p'.acquired[a.id]);
      }
    }
  }

  lemma IdleAccounted(p: Pool, p': Pool, k: nat, held: Held)
    requires Accounted(p) && k < |p.idle| && held.conn.id == p.idle[k].id
    requires p' == p.(idle := p.idle[..k] + p.idle[k + 1..], acquired := p.acquired[held.conn.id := held])
    ensures Accounted(p')
  {
    IdsRemove(p.idle, k);
    forall id: nat ensures Live(p', id) <==> Live(p, id) {}
    forall c | c in p'.idle ensures c.id != held.conn.id && c in p.idle {
      assert c.id in Ids(p'.idle);
    }
  }

  lemma TryIdleKeeps(p: Pool, request: Request, env: Env)
    requires Connections(p)
    ensures var (p', a) := TryIdle(p, request, env);
            Connections(p') && Took(p, p', a, request) && (a == Unavailable <==> IdleBlocked(p))
            && (a.Got? ==> !p'.acquired[a.id].conn.primary && p'.primary == p.primary)
  {
    var (p', a) := TryIdle(p, request, env);
    if |p.idle| > 0 {
      var k := PickIdle(p.idle, request.sql, env);
      assert p.idle[k] in p.idle;
      var held := p'.acquired[a.id];
      IdsRemove(p.idle, k);
      AcquiredNormal(p, p', held);
      IdleAccounted(p, p', k, held);
      WorkersPut(p.acquired, held);
    } else if !IdleBlocked(p) {
      OpenKeeps(p, false, request, env);
    }
  }

  // A request finds nothing exactly when the connections it accepts are all blocked.
  ghost predicate Blocked(p: Pool, request: Request) {
    PrimaryBlocked(p) && (request.flags.primaryAffinity || IdleBlocked(p))
  }

  lemma ServeKeeps(p: Pool, request: Request, env: Env)
    requires Connections(p)
    ensures var (p', a) := Serve(p, request, env);
            Connections(p') && Took(p, p', a, request) && (a == Unavailable <==> Blocked(p, request))
            && (a.Got? && request.flags.primaryAffinity ==> p'.acquired[a.id].conn.primary)
  {
    if request.flags.primaryAffinity {
      TryPrimaryKeeps(p, request, env);
    } else {
      TryIdleKeeps(p, request, env);
      TryPrimaryKeeps(p, request, env);
    }
  }
}
