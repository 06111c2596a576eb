/**
 The waiter objects of a pool, the two lists they are linked into, and the tickets given out
 on them. What the objects contain is taken as a value, a map of `Cell`s, so that a change of
 one object is a change of one entry.
 */
module WaiterLists {
  import opened Wrappers
  import opened PoolSpec

  class ConnectionWaiter {
    var next: ConnectionWaiter?
    var priority: int
    var wantPrimary: bool
    var sql: Option<string>
    var flags: Flags
    var assignedConnection: Option<Conn>
    var exception: Option<Error>
    var nonce: int

    constructor ()
      ensures GetCell() == BLANK
    {
      next := null;
      priority, wantPrimary, sql, flags := 0, false, None, Flags(false, false, false);
      assignedConnection, exception := None, None;
      nonce := 0;
    }

    ghost function GetCell(): Cell
      reads this
    {
      Cell(next, priority, wantPrimary, sql, flags, assignedConnection, exception, nonce)
    }
  }

  datatype Cell = Cell(
    next: ConnectionWaiter?,
    priority: int,
    wantPrimary: bool,
    sql: Option<string>,
    flags: Flags,
    assignedConnection: Option<Conn>,
    exception: Option<Error>,
    nonce: int)

  ghost const BLANK := Cell(null, 0, false, None, Flags(false, false, false), None, None, 0)

  // Where a waiter object is: in the queue, on the free list, dequeued with an outcome,
  // dequeued without one by the closing of the pool, or in the hands of a method.
  datatype Place = QUEUED | FREE | DONE | ABANDONED | HELD

  // A ticket was given out on an object, `uses` recyclings into its life.
  datatype Issue = Issue(waiter: ConnectionWaiter, uses: nat)

  /** Where every waiter object is, how often it has been recycled, and which tickets were given out on it. */
  datatype Ledger = Ledger(
    queued: seq<ConnectionWaiter>,
    free: seq<ConnectionWaiter>,
    place: map<ConnectionWaiter, Place>,
    uses: map<ConnectionWaiter, nat>,
    issued: map<nat, Issue>)

  // A 32-bit counter incremented `n` times from 0.
  function Wrap32(n: nat): int {
    (n + 0x8000_0000) % 0x1_0000_0000 - 0x8000_0000
  }

  method Increment32(n: int) returns (m: int)
    ensures forall k: nat :: n == Wrap32(k) ==> m == Wrap32(k + 1)
  {
    m := if n == 0x7fff_ffff then -0x8000_0000 else n + 1;
  }

  // ---------------------------------------------------------------- the tickets

  ghost predicate Distinct(chain: seq<ConnectionWaiter>) {
    forall i, j :: 0 <= i < j < |chain| ==> chain[i] != chain[j]
  }

  ghost predicate AllIn(chain: seq<ConnectionWaiter>, place: map<ConnectionWaiter, Place>, where: Place) {
    forall i :: 0 <= i < |chain| ==> chain[i] in place && place[chain[i]] == where
  }

  // The queue and the free list: no object twice, none in both.
  ghost predicate Placed(l: Ledger) {
    && l.uses.Keys == l.place.Keys
    && AllIn(l.queued, l.place, QUEUED) && Distinct(l.queued)
    && AllIn(l.free, l.place, FREE) && Distinct(l.free)
    && (forall t :: t in l.issued ==> l.issued[t].waiter in l.place)
  }

  // The ticket was given out on the present use of its object.
  ghost predicate Current(l: Ledger, t: nat)
    requires Placed(l)
  {
    t in l.issued && l.issued[t].uses == l.uses[l.issued[t].waiter]
  }

  ghost predicate IssuedOnce(l: Ledger) {
    forall t, u :: t in l.issued && u in l.issued && l.issued[t] == l.issued[u] ==> t == u
  }

  ghost predicate InPool(where: Place, t: nat, p: Pool) {
    match where
    case QUEUED => Position(p.queue, t, 0) < |p.queue|
    case DONE => t in p.done
    case ABANDONED => t in p.abandoned
    case FREE => false
    case HELD => false
  }

  ghost predicate Numbered(l: Ledger, p: Pool)
    requires Placed(l)
  {
    && (forall t: nat :: t in l.issued <==> t < p.nextTicket)
    && (forall t :: t in l.issued ==> l.issued[t].uses <= l.uses[l.issued[t].waiter])
  }

  ghost predicate QueueCurrent(l: Ledger, p: Pool)
    requires Placed(l)
  {
    && |l.queued| == |p.queue|
    && (forall i :: 0 <= i < |p.queue| ==>
          Current(l, p.queue[i].ticket) && l.issued[p.queue[i].ticket].waiter == l.queued[i])
  }

  ghost predicate OutcomesCurrent(l: Ledger, p: Pool)
    requires Placed(l)
  {
    && (forall t :: t in p.done ==> Current(l, t) && l.place[l.issued[t].waiter] == DONE)
    && (forall t :: t in p.abandoned ==> Current(l, t) && l.place[l.issued[t].waiter] == ABANDONED)
  }

  ghost predicate CurrentInPool(l: Ledger, p: Pool)
    requires Placed(l)
  {
    forall t :: Current(l, t) ==> InPool(l.place[l.issued[t].waiter], t, p)
  }

  /** The tickets that are current are exactly those of the waiters in the pool. */
  ghost predicate Accurate(l: Ledger, p: Pool)
    requires Placed(l)
  {
    Numbered(l, p) && QueueCurrent(l, p) && OutcomesCurrent(l, p) && CurrentInPool(l, p)
  }

  // ---------------------------------------------------------------- the links

  ghost function Successor(chain: seq<ConnectionWaiter>, i: nat): ConnectionWaiter? {
    if i + 1 < |chain| then chain[i + 1] else null
  }

  ghost function Head(chain: seq<ConnectionWaiter>): ConnectionWaiter? {
    if |chain| > 0 then chain[0] else null
  }

  ghost predicate Linked(cells: map<ConnectionWaiter, Cell>, chain: seq<ConnectionWaiter>) {
    forall i :: 0 <= i < |chain| ==> chain[i] in cells && cells[chain[i]].next == Successor(chain, i)
  }

  // ---------------------------------------------------------------- the contents

  ghost predicate Describes(cell: Cell, waiter: Waiter) {
    && cell.sql == waiter.request.sql
    && cell.flags == waiter.request.flags
    && cell.priority == Priority(waiter.request)
    && cell.wantPrimary == waiter.request.flags.primaryAffinity
  }

  ghost predicate Holds(cell: Cell, outcome: Outcome) {
    match outcome
    case Granted(id) =>
      cell.assignedConnection.Some? && cell.assignedConnection.value.id == id && cell.exception == None
    case Refused(error) => cell.assignedConnection == None && cell.exception == Some(error)
  }

  ghost predicate QueueDescribed(cells: map<ConnectionWaiter, Cell>, l: Ledger, p: Pool) {
    && |l.queued| == |p.queue|
    && (forall i :: 0 <= i < |p.queue| ==> l.queued[i] in cells && Describes(cells[l.queued[i]], p.queue[i]))
  }

  ghost predicate Unanswered(cell: Cell) {
    cell.assignedConnection == None && cell.exception == None
  }

  ghost predicate OutcomesHeld(cells: map<ConnectionWaiter, Cell>, l: Ledger, p: Pool)
    requires cells.Keys == l.place.Keys
  {
    && (forall w :: w in cells && l.place[w] != DONE ==> Unanswered(cells[w]))
    && (forall t :: t in p.done ==>
          t in l.issued && l.issued[t].waiter in cells && Holds(cells[l.issued[t].waiter], p.done[t]))
  }

  ghost predicate NoncesCount(cells: map<ConnectionWaiter, Cell>, l: Ledger) {
    forall w :: w in cells ==> w in l.uses && cells[w].nonce == Wrap32(l.uses[w])
  }

  /** The waiter objects represent the waiters of the pool. */
  ghost predicate Represents(cells: map<ConnectionWaiter, Cell>, l: Ledger, p: Pool) {
    && Placed(l) && IssuedOnce(l) && Accurate(l, p)
    && cells.Keys == l.place.Keys
    && Linked(cells, l.queued) && Linked(cells, l.free)
    && QueueDescribed(cells, l, p) && OutcomesHeld(cells, l, p) && NoncesCount(cells, l)
  }

  // ---------------------------------------------------------------- the free list

  ghost function Taken(l: Ledger): Ledger
    requires |l.free| > 0
  {
    l.(place := l.place[l.free[0] := HELD], free := l.free[1..])
  }

  lemma TakenAccurate(l: Ledger, p: Pool)
    requires Placed(l) && Accurate(l, p) && |l.free| > 0
    ensures Placed(Taken(l)) && Accurate(Taken(l), p)
  {
    forall t | t in l.issued ensures Current(Taken(l), t) == Current(l, t) {}
  }

  // Only a link of one object on the free list changes.
  ghost predicate Unhooked(cells: map<ConnectionWaiter, Cell>, cells': map<ConnectionWaiter, Cell>, w: ConnectionWaiter)
    requires w in cells
  {
    cells' == cells[w := cells[w].(next := null)]
  }

  lemma TakenLinks(cells: map<ConnectionWaiter, Cell>, cells': map<ConnectionWaiter, Cell>, l: Ledger)
    requires Placed(l) && |l.free| > 0 && l.free[0] in cells && Unhooked(cells, cells', l.free[0])
    requires Linked(cells, l.queued) && Linked(cells, l.free)
    ensures Linked(cells', l.queued) && Linked(cells', l.free[1..])
  {
    forall i | 0 <= i < |l.free| - 1
      ensures l.free[1..][i] in cells' && cells'[l.free[1..][i]].next == Successor(l.free[1..], i)
    {
      assert l.free[1..][i] == l.free[i + 1] && l.free[i + 1] != l.free[0];
    }
    forall i | 0 <= i < |l.queued| ensures l.queued[i] != l.free[0] {
      assert l.place[l.queued[i]] == QUEUED;
    }
  }

  lemma TakenContents(cells: map<ConnectionWaiter, Cell>, cells': map<ConnectionWaiter, Cell>, l: Ledger, p: Pool)
    requires |l.free| > 0 && l.free[0] in cells && Unhooked(cells, cells', l.free[0])
    requires cells.Keys == l.place.Keys && l.place[l.free[0]] == FREE
    requires QueueDescribed(cells, l, p) && OutcomesHeld(cells, l, p) && NoncesCount(cells, l)
    ensures cells'.Keys == Taken(l).place.Keys
    ensures QueueDescribed(cells', Taken(l), p) && OutcomesHeld(cells', Taken(l), p) && NoncesCount(cells', Taken(l))
  {
    assert cells'.Keys == Taken(l).place.Keys;
  }

  lemma FirstFree(l: Ledger)
    requires Placed(l) && |l.free| > 0
    ensures l.free[0] in l.place && l.place[l.free[0]] == FREE
  {
  }

  lemma TakenRepresents(cells: map<ConnectionWaiter, Cell>, l: Ledger, p: Pool)
    requires Represents(cells, l, p) && |l.free| > 0
    ensures l.free[0] in cells
    ensures Represents(cells[l.free[0] := cells[l.free[0]].(next := null)], Taken(l), p)
  {
    FirstFree(l);
    assert IssuedOnce(Taken(l));
    hide Placed, Accurate, IssuedOnce, Linked, QueueDescribed, OutcomesHeld, NoncesCount;
    var cells' := cells[l.free[0] := cells[l.free[0]].(next := null)];
    TakenAccurate(l, p);
    TakenLinks(cells, cells', l);
    TakenContents(cells, cells', l, p);
  }

  lemma NewAccurate(l: Ledger, p: Pool, w: ConnectionWaiter)
    requires Placed(l) && Accurate(l, p) && w !in l.place
    ensures Placed(l.(place := l.place[w := HELD], uses := l.uses[w := 0]))
    ensures Accurate(l.(place := l.place[w := HELD], uses := l.uses[w := 0]), p)
  {
    forall t | t in l.issued
      ensures Current(l.(place := l.place[w := HELD], uses := l.uses[w := 0]), t) == Current(l, t) {}
  }

  lemma NewRepresents(cells: map<ConnectionWaiter, Cell>, l: Ledger, p: Pool, w: ConnectionWaiter)
    requires Represents(cells, l, p) && w !in cells
    ensures Represents(cells[w := BLANK], l.(place := l.place[w := HELD], uses := l.uses[w := 0]), p)
  {
    NewAccurate(l, p, w);
    hide Accurate;
  }

  // An object in the hands of a method may be filled in.
  lemma FilledRepresents(cells: map<ConnectionWaiter, Cell>, l: Ledger, p: Pool, w: ConnectionWaiter, cell: Cell)
    requires Represents(cells, l, p) && w in cells && l.place[w] == HELD
    requires cell.assignedConnection == None && cell.exception == None && cell.nonce == cells[w].nonce
    ensures Represents(cells[w := cell], l, p)
  {
  }

  // ---------------------------------------------------------------- into the queue

  ghost function Inserted(l: Ledger, p: Pool, w: ConnectionWaiter, k: nat): Ledger
    requires k <= |l.queued| && w in l.uses
  {
    l.(queued := l.queued[..k] + [w] + l.queued[k..],
       place := l.place[w := QUEUED],
       issued := l.issued[p.nextTicket := Issue(w, l.uses[w])])
  }

  lemma {:induction false} PositionFinds(queue: seq<Waiter>, ticket: nat, i: nat, k: nat)
    requires i <= k < |queue| && queue[k].ticket == ticket
    ensures Position(queue, ticket, i) <= k
    decreases |queue| - i
  {
    if queue[i].ticket != ticket {
      PositionFinds(queue, ticket, i + 1, k);
    }
  }

  lemma InsertedPositions(p: Pool, request: Request)
    ensures var q := Enqueue(p, request).queue;
            && (forall t :: Position(p.queue, t, 0) < |p.queue| ==> Position(q, t, 0) < |q|)
            && Position(q, p.nextTicket, 0) < |q|
  {
    var q := Enqueue(p, request).queue;
    var k := InsertionPoint(p.queue, Priority(request), 0);
    assert q[k].ticket == p.nextTicket;
    PositionFinds(q, p.nextTicket, 0, k);
    forall t | Position(p.queue, t, 0) < |p.queue| ensures Position(q, t, 0) < |q| {
      var j := Position(p.queue, t, 0);
      assert q[if j < k then j else j + 1] == p.queue[j];
      PositionFinds(q, t, 0, if j < k then j else j + 1);
    }
  }

  lemma InsertedPlaced(l: Ledger, p: Pool, w: ConnectionWaiter, k: nat)
    requires Placed(l) && k <= |l.queued| && w in l.place && l.place[w] == HELD
    ensures Placed(Inserted(l, p, w, k))
  {
    var q := Inserted(l, p, w, k).queued;
    forall i | 0 <= i < |q| && i != k ensures q[i] == l.queued[if i < k then i else i - 1] {}
  }

  lemma InsertedCurrent(l: Ledger, p: Pool, w: ConnectionWaiter, k: nat)
    requires Placed(l) && Numbered(l, p) && CurrentInPool(l, p) && w in l.place && l.place[w] == HELD && k <= |l.queued|
    ensures Placed(Inserted(l, p, w, k))
    ensures forall t :: t != p.nextTicket ==> (Current(Inserted(l, p, w, k), t) <==> Current(l, t))
    ensures forall t :: Current(l, t) ==> l.issued[t].waiter != w
    ensures p.nextTicket !in l.issued
  {
    InsertedPlaced(l, p, w, k);
  }

  lemma InsertedOnce(l: Ledger, p: Pool, w: ConnectionWaiter, k: nat)
    requires Placed(l) && Numbered(l, p) && CurrentInPool(l, p) && IssuedOnce(l)
    requires w in l.place && l.place[w] == HELD && k <= |l.queued|
    ensures IssuedOnce(Inserted(l, p, w, k))
  {
    forall t | t in l.issued ensures l.issued[t] != Issue(w, l.uses[w]) {
      assert Current(l, t) ==> l.issued[t].waiter != w;
    }
  }

  // The queue and the chain are shifted alike.
  lemma InsertedAt(l: Ledger, p: Pool, w: ConnectionWaiter, request: Request, i: nat)
    requires |l.queued| == |p.queue| && w in l.uses && i <= |p.queue|
    ensures var k := InsertionPoint(p.queue, Priority(request), 0);
            var q, chain := Enqueue(p, request).queue, Inserted(l, p, w, k).queued;
            && |q| == |chain| == |p.queue| + 1
            && (if i == k then q[i].ticket == p.nextTicket && chain[i] == w
                else var j := if i < k then i else i - 1;
                     j < |p.queue| && q[i] == p.queue[j] && chain[i] == l.queued[j])
  {
  }

  lemma InsertedQueue(l: Ledger, p: Pool, w: ConnectionWaiter, request: Request)
    requires Placed(l) && Accurate(l, p) && w in l.place && l.place[w] == HELD
    ensures var k := InsertionPoint(p.queue, Priority(request), 0);
            Placed(Inserted(l, p, w, k)) && QueueCurrent(Inserted(l, p, w, k), Enqueue(p, request))
  {
    var k := InsertionPoint(p.queue, Priority(request), 0);
    var l' := Inserted(l, p, w, k);
    var q := Enqueue(p, request).queue;
    InsertedCurrent(l, p, w, k);
    assert Current(l', p.nextTicket) && l'.issued[p.nextTicket].waiter == w;
    assert forall t :: t in l.issued ==> l'.issued[t] == l.issued[t];
    InsertedAt(l, p, w, request, 0);
    hide Placed, Current, Inserted, Enqueue, Numbered, OutcomesCurrent, CurrentInPool, InsertionPoint;
    forall i | 0 <= i < |q| ensures Current(l', q[i].ticket) && l'.issued[q[i].ticket].waiter == l'.queued[i] {
      InsertedAt(l, p, w, request, i);
      if i != k {
        CurrentIssued(l, p.queue[if i < k then i else i - 1].ticket);
      }
    }
  }

  lemma CurrentIssued(l: Ledger, t: nat)
    requires Placed(l) && Current(l, t)
    ensures t in l.issued
  {
  }

  lemma InsertedNumbered(l: Ledger, p: Pool, w: ConnectionWaiter, request: Request, k: nat)
    requires Placed(l) && Accurate(l, p) && w in l.place && l.place[w] == HELD && k <= |l.queued|
    ensures Placed(Inserted(l, p, w, k)) && Numbered(Inserted(l, p, w, k), Enqueue(p, request))
  {
    InsertedPlaced(l, p, w, k);
  }

  lemma InsertedOutcomesCurrent(l: Ledger, p: Pool, w: ConnectionWaiter, request: Request, k: nat)
    requires Placed(l) && Accurate(l, p) && w in l.place && l.place[w] == HELD && k <= |l.queued|
    ensures Placed(Inserted(l, p, w, k)) && OutcomesCurrent(Inserted(l, p, w, k), Enqueue(p, request))
  {
    InsertedCurrent(l, p, w, k);
    hide QueueCurrent, CurrentInPool;
  }

  lemma InsertedInPool(l: Ledger, p: Pool, w: ConnectionWaiter, request: Request, k: nat)
    requires Placed(l) && Accurate(l, p) && w in l.place && l.place[w] == HELD && k <= |l.queued|
    ensures Placed(Inserted(l, p, w, k)) && CurrentInPool(Inserted(l, p, w, k), Enqueue(p, request))
  {
    InsertedCurrent(l, p, w, k);
    InsertedPositions(p, request);
    hide QueueCurrent, OutcomesCurrent, Numbered;
  }

  lemma InsertedAccurate(l: Ledger, p: Pool, w: ConnectionWaiter, request: Request)
    requires Placed(l) && Accurate(l, p) && w in l.place && l.place[w] == HELD
    ensures var k := InsertionPoint(p.queue, Priority(request), 0);
            Placed(Inserted(l, p, w, k)) && Accurate(Inserted(l, p, w, k), Enqueue(p, request))
  {
    var k := InsertionPoint(p.queue, Priority(request), 0);
    SameLength(l, p);
    hide Placed, Numbered, QueueCurrent, OutcomesCurrent, CurrentInPool, Enqueue, Inserted;
    InsertedQueue(l, p, w, request);
    InsertedNumbered(l, p, w, request, k);
    InsertedOutcomesCurrent(l, p, w, request, k);
    InsertedInPool(l, p, w, request, k);
  }

  // The links after `w` was put between the waiters at k - 1 and k.
  lemma InsertedLinked(cells: map<ConnectionWaiter, Cell>, cells': map<ConnectionWaiter, Cell>,
                       chain: seq<ConnectionWaiter>, w: ConnectionWaiter, k: nat)
    requires Linked(cells, chain) && Distinct(chain) && k <= |chain| && w !in chain
    requires forall i :: 0 <= i < |chain| ==> chain[i] in cells' && (i != k - 1 ==> cells'[chain[i]] == cells[chain[i]])
    requires k > 0 ==> cells'[chain[k - 1]].next == w
    requires w in cells' && cells'[w].next == (if k < |chain| then chain[k] else null)
    ensures Linked(cells', chain[..k] + [w] + chain[k..])
  {
    var q := chain[..k] + [w] + chain[k..];
    forall i | 0 <= i < |q| ensures q[i] in cells' && cells'[q[i]].next == Successor(q, i) {
      if i < k {
        assert q[i] == chain[i];
      } else if i > k {
        assert q[i] == chain[i - 1];
      }
    }
  }

  // An object and, if there is one, its predecessor changed; only the link of the latter.
  ghost predicate InsertedCells(cells: map<ConnectionWaiter, Cell>, cells': map<ConnectionWaiter, Cell>,
                                chain: seq<ConnectionWaiter>, w: ConnectionWaiter, k: nat)
    requires k <= |chain|
  {
    && cells'.Keys == cells.Keys && w in cells
    && (forall v :: v in cells && v != w && (k > 0 ==> v != chain[k - 1]) ==> cells'[v] == cells[v])
    && (k > 0 && chain[k - 1] in cells ==> cells'[chain[k - 1]] == cells[chain[k - 1]].(next := w))
    && cells'[w] == cells[w].(next := if k < |chain| then chain[k] else null)
  }

  lemma InsertedDescribed(cells: map<ConnectionWaiter, Cell>, cells': map<ConnectionWaiter, Cell>,
                          l: Ledger, p: Pool, w: ConnectionWaiter, request: Request)
    requires QueueDescribed(cells, l, p) && w in cells && w in l.uses && Describes(cells[w], Waiter(0, request))
    requires InsertedCells(cells, cells', l.queued, w, InsertionPoint(p.queue, Priority(request), 0))
    requires forall i :: 0 <= i < |l.queued| ==> l.queued[i] != w
    ensures QueueDescribed(cells', Inserted(l, p, w, InsertionPoint(p.queue, Priority(request), 0)),
            Enqueue(p, request))
  {
    var k := InsertionPoint(p.queue, Priority(request), 0);
    var l' := Inserted(l, p, w, k);
    var p' := Enqueue(p, request);
    forall j | 0 <= j < |p.queue| ensures l.queued[j] in cells' && Describes(cells'[l.queued[j]], p.queue[j]) {
      assert Describes(cells[l.queued[j]], p.queue[j]);
    }
    forall i | 0 <= i < |p'.queue| ensures l'.queued[i] in cells' && Describes(cells'[l'.queued[i]], p'.queue[i]) {
      if i != k {
        var j := if i < k then i else i - 1;
        assert p'.queue[i] == p.queue[j] && l'.queued[i] == l.queued[j];
      }
    }
  }

  // The places and tickets of the other objects are as before, and so are their contents but for a link.
  ghost predicate OnlyLinks(cells: map<ConnectionWaiter, Cell>, cells': map<ConnectionWaiter, Cell>) {
    && cells'.Keys == cells.Keys
    && (forall v :: v in cells ==> cells'[v].assignedConnection == cells[v].assignedConnection
                                   && cells'[v].exception == cells[v].exception && cells'[v].nonce == cells[v].nonce)
  }

  lemma InsertedOutcomes(cells: map<ConnectionWaiter, Cell>, cells': map<ConnectionWaiter, Cell>,
                         l: Ledger, p: Pool, w: ConnectionWaiter, request: Request, k: nat)
    requires k <= |l.queued| && cells.Keys == l.place.Keys && w in l.uses && w in l.place && l.place[w] == HELD
    requires OutcomesHeld(cells, l, p) && NoncesCount(cells, l) && OnlyLinks(cells, cells')
    requires forall t :: t in p.done ==> t != p.nextTicket
    ensures cells'.Keys == Inserted(l, p, w, k).place.Keys
    ensures OutcomesHeld(cells', Inserted(l, p, w, k), Enqueue(p, request)) && NoncesCount(cells', Inserted(l, p, w, k))
  {
  }

  lemma InsertedLinks(cells: map<ConnectionWaiter, Cell>, cells': map<ConnectionWaiter, Cell>, l: Ledger,
                      w: ConnectionWaiter, k: nat)
    requires Placed(l) && Linked(cells, l.queued) && Linked(cells, l.free) && k <= |l.queued|
    requires w in cells && w in l.place && l.place[w] == HELD && InsertedCells(cells, cells', l.queued, w, k)
    ensures Linked(cells', l.queued[..k] + [w] + l.queued[k..]) && Linked(cells', l.free) && OnlyLinks(cells, cells')
  {
    InsertedLinked(cells, cells', l.queued, w, k);
  }

  lemma InsertedRepresents(cells: map<ConnectionWaiter, Cell>, cells': map<ConnectionWaiter, Cell>,
                           l: Ledger, p: Pool, w: ConnectionWaiter, request: Request)
    requires Represents(cells, l, p) && w in cells && l.place[w] == HELD
    requires Describes(cells[w], Waiter(0, request))
    requires InsertedCells(cells, cells', l.queued, w, InsertionPoint(p.queue, Priority(request), 0))
    ensures Represents(cells', Inserted(l, p, w, InsertionPoint(p.queue, Priority(request), 0)), Enqueue(p, request))
  {
    hide Linked, QueueDescribed, OutcomesHeld, NoncesCount, Describes, IssuedOnce, InsertedCells, Enqueue, OnlyLinks,
         Numbered, QueueCurrent, OutcomesCurrent, CurrentInPool, Distinct, AllIn;
    var k := InsertionPoint(p.queue, Priority(request), 0);
    AllPlaced(l);
    DoneIssued(l, p);
    assert |l.queued| == |p.queue| by {
      SameLength(l, p);
    }
    InsertedLinks(cells, cells', l, w, k);
    InsertedDescribed(cells, cells', l, p, w, request);
    InsertedOutcomes(cells, cells', l, p, w, request, k);
    InsertedAccurate(l, p, w, request);
    InsertedOnce(l, p, w, k);
  }

  lemma SameLength(l: Ledger, p: Pool)
    requires Placed(l) && QueueCurrent(l, p)
    ensures |l.queued| == |p.queue|
  {
  }

  lemma DoneIssued(l: Ledger, p: Pool)
    requires Placed(l) && Accurate(l, p)
    ensures forall t :: t in p.done ==> t < p.nextTicket
  {
  }

  // ---------------------------------------------------------------- out of the queue

  // The waiter at position i leaves the queue, with its outcome or, when the pool closes, without one.
  ghost function Departed(p: Pool, i: nat, outcome: Option<Outcome>): Pool
    requires i < |p.queue|
  {
    if outcome.Some? then Dequeue(p, i, outcome.value)
    else p.(queue := p.queue[..i] + p.queue[i + 1..], abandoned := p.abandoned + {p.queue[i].ticket})
  }

  ghost function Left(l: Ledger, i: nat, outcome: Option<Outcome>): Ledger
    requires i < |l.queued|
  {
    l.(queued := l.queued[..i] + l.queued[i + 1..],
       place := l.place[l.queued[i] := if outcome.Some? then DONE else ABANDONED])
  }

  lemma DepartedPositions(p: Pool, i: nat, outcome: Option<Outcome>)
    requires i < |p.queue|
    ensures var q := Departed(p, i, outcome).queue;
            forall t :: t != p.queue[i].ticket && Position(p.queue, t, 0) < |p.queue| ==> Position(q, t, 0) < |q|
  {
    var q := Departed(p, i, outcome).queue;
    forall t | t != p.queue[i].ticket && Position(p.queue, t, 0) < |p.queue| ensures Position(q, t, 0) < |q| {
      var j := Position(p.queue, t, 0);
      assert q[if j < i then j else j - 1] == p.queue[j];
      PositionFinds(q, t, 0, if j < i then j else j - 1);
    }
  }

  lemma LeftPlaced(l: Ledger, i: nat, outcome: Option<Outcome>)
    requires Placed(l) && i < |l.queued|
    ensures Placed(Left(l, i, outcome))
  {
    var q := Left(l, i, outcome).queued;
    forall j | 0 <= j < |q| ensures q[j] == l.queued[if j < i then j else j + 1] {}
  }

  lemma LeftQueue(l: Ledger, p: Pool, i: nat, outcome: Option<Outcome>)
    requires Placed(l) && QueueCurrent(l, p) && i < |p.queue|
    ensures Placed(Left(l, i, outcome)) && QueueCurrent(Left(l, i, outcome), Departed(p, i, outcome))
    ensures forall t :: Current(Left(l, i, outcome), t) <==> Current(l, t)
  {
    LeftPlaced(l, i, outcome);
    var l' := Left(l, i, outcome);
    var p' := Departed(p, i, outcome);
    forall j | 0 <= j < |p'.queue|
      ensures p'.queue[j] == p.queue[if j < i then j else j + 1] && l'.queued[j] == l.queued[if j < i then j else j + 1]
    {}
  }

  // No other current ticket was given out on the object that leaves.
  lemma SoleTicket(l: Ledger, p: Pool, t: nat)
    requires Placed(l) && IssuedOnce(l) && Current(l, t)
    ensures forall u :: Current(l, u) && l.issued[u].waiter == l.issued[t].waiter ==> u == t
  {
    forall u | Current(l, u) && l.issued[u].waiter == l.issued[t].waiter ensures u == t {
      assert l.issued[u] == l.issued[t];
    }
  }

  lemma LeftAccurate(l: Ledger, p: Pool, i: nat, outcome: Option<Outcome>)
    requires Placed(l) && Accurate(l, p) && IssuedOnce(l) && i < |p.queue|
    ensures Placed(Left(l, i, outcome)) && Accurate(Left(l, i, outcome), Departed(p, i, outcome))
  {
    var l' := Left(l, i, outcome);
    var p' := Departed(p, i, outcome);
    assert Current(l, p.queue[i].ticket) && l.issued[p.queue[i].ticket].waiter == l.queued[i];
    LeftQueue(l, p, i, outcome);
    SoleTicket(l, p, p.queue[i].ticket);
    DepartedPositions(p, i, outcome);
    hide QueueCurrent, IssuedOnce, Distinct;
    assert Numbered(l', p');
    assert OutcomesCurrent(l', p');
    assert CurrentInPool(l', p');
  }

  // The objects after the waiter at position i was unlinked and given its outcome.
  ghost predicate UnlinkedCells(cells: map<ConnectionWaiter, Cell>, cells': map<ConnectionWaiter, Cell>,
                                chain: seq<ConnectionWaiter>, i: nat, outcome: Option<Outcome>)
    requires i < |chain|
  {
    && cells'.Keys == cells.Keys && chain[i] in cells
    && (forall v :: v in cells && v != chain[i] && (i > 0 ==> v != chain[i - 1]) ==> cells'[v] == cells[v])
    && (i > 0 && chain[i - 1] in cells ==> cells'[chain[i - 1]] == cells[chain[i - 1]].(next := Successor(chain, i)))
    && cells'[chain[i]].nonce == cells[chain[i]].nonce
    && (match outcome
        case Some(o) => Holds(cells'[chain[i]], o)
        case None => cells'[chain[i]].assignedConnection == None && cells'[chain[i]].exception == None)
  }

  lemma LeftLinked(cells: map<ConnectionWaiter, Cell>, cells': map<ConnectionWaiter, Cell>,
                   chain: seq<ConnectionWaiter>, i: nat, outcome: Option<Outcome>)
    requires Linked(cells, chain) && Distinct(chain) && i < |chain|
    requires UnlinkedCells(cells, cells', chain, i, outcome)
    ensures Linked(cells', chain[..i] + chain[i + 1..])
  {
    var q := chain[..i] + chain[i + 1..];
    forall j | 0 <= j < |q| ensures q[j] in cells' && cells'[q[j]].next == Successor(q, j) {
      var k := if j < i then j else j + 1;
      assert q[j] == chain[k];
      if j + 1 < |q| {
        assert q[j + 1] == chain[if j + 1 < i then j + 1 else j + 2];
      }
    }
  }

  lemma LeftDescribed(cells: map<ConnectionWaiter, Cell>, cells': map<ConnectionWaiter, Cell>,
                      l: Ledger, p: Pool, i: nat, outcome: Option<Outcome>)
    requires i < |p.queue| && QueueDescribed(cells, l, p) && Distinct(l.queued)
    requires UnlinkedCells(cells, cells', l.queued, i, outcome)
    ensures QueueDescribed(cells', Left(l, i, outcome), Departed(p, i, outcome))
  {
    var l' := Left(l, i, outcome);
    var p' := Departed(p, i, outcome);
    forall j | 0 <= j < |p'.queue| ensures l'.queued[j] in cells' && Describes(cells'[l'.queued[j]], p'.queue[j]) {
      var k := if j < i then j else j + 1;
      assert p'.queue[j] == p.queue[k] && l'.queued[j] == l.queued[k];
      assert Describes(cells[l.queued[k]], p.queue[k]);
    }
  }

  lemma LeftOutcomes(cells: map<ConnectionWaiter, Cell>, cells': map<ConnectionWaiter, Cell>,
                     l: Ledger, p: Pool, i: nat, outcome: Option<Outcome>)
    requires i < |p.queue| && |l.queued| == |p.queue| && cells.Keys == l.place.Keys && l.queued[i] in cells
    requires OutcomesHeld(cells, l, p) && NoncesCount(cells, l)
    requires UnlinkedCells(cells, cells', l.queued, i, outcome)
    requires p.queue[i].ticket in l.issued && l.issued[p.queue[i].ticket].waiter == l.queued[i]
    requires forall t :: t in p.done ==> t in l.issued && l.issued[t].waiter != l.queued[i]
    ensures cells'.Keys == Left(l, i, outcome).place.Keys
    ensures OutcomesHeld(cells', Left(l, i, outcome), Departed(p, i, outcome)) &&
            NoncesCount(cells', Left(l, i, outcome))
  {
    var l' := Left(l, i, outcome);
    forall v | v in cells && v != l.queued[i]
      ensures cells'[v].assignedConnection == cells[v].assignedConnection && cells'[v].exception == cells[v].exception
              && cells'[v].nonce == cells[v].nonce
    {}
    hide UnlinkedCells;
    assert cells'.Keys == l'.place.Keys;
  }

  lemma LeftFreeList(cells: map<ConnectionWaiter, Cell>, cells': map<ConnectionWaiter, Cell>, l: Ledger, i: nat,
                     outcome: Option<Outcome>)
    requires Placed(l) && Linked(cells, l.free) && i < |l.queued| && UnlinkedCells(cells, cells', l.queued, i, outcome)
    ensures Linked(cells', l.free)
  {
  }

  lemma LeftTickets(l: Ledger, p: Pool, i: nat)
    requires Placed(l) && Accurate(l, p) && i < |p.queue|
    ensures |l.queued| == |p.queue| && p.queue[i].ticket in l.issued &&
            l.issued[p.queue[i].ticket].waiter == l.queued[i]
    ensures forall t :: t in p.done ==> t in l.issued && l.place[l.issued[t].waiter] == DONE
  {
    assert Current(l, p.queue[i].ticket);
  }

  lemma LeftRepresents(cells: map<ConnectionWaiter, Cell>, cells': map<ConnectionWaiter, Cell>,
                       l: Ledger, p: Pool, i: nat, outcome: Option<Outcome>)
    requires Represents(cells, l, p) && i < |p.queue|
    requires UnlinkedCells(cells, cells', l.queued, i, outcome)
    ensures Represents(cells', Left(l, i, outcome), Departed(p, i, outcome))
  {
    LeftFreeList(cells, cells', l, i, outcome);
    LeftTickets(l, p, i);
    AllPlaced(l);
    hide Accurate, Linked, QueueDescribed, OutcomesHeld, NoncesCount, UnlinkedCells, Current;
    LeftAccurate(l, p, i, outcome);
    LeftLinked(cells, cells', l.queued, i, outcome);
    LeftDescribed(cells, cells', l, p, i, outcome);
    LeftOutcomes(cells, cells', l, p, i, outcome);
  }

  // ---------------------------------------------------------------- onto the free list

  ghost function Recycled(l: Ledger, w: ConnectionWaiter): Ledger
    requires w in l.uses
  {
    l.(free := [w] + l.free, place := l.place[w := FREE], uses := l.uses[w := l.uses[w] + 1])
  }

  lemma RecycledAccurate(l: Ledger, p: Pool, t: nat)
    requires Placed(l) && Accurate(l, p) && IssuedOnce(l) && t in p.done
    ensures var l' := Recycled(l, l.issued[t].waiter);
            Placed(l') && Accurate(l', p.(done := p.done - {t}))
  {
    var w := l.issued[t].waiter;
    var l' := Recycled(l, w);
    var p' := p.(done := p.done - {t});
    assert Placed(l');
    SoleTicket(l, p, t);
    assert forall u :: Current(l', u) <==> Current(l, u) && u != t;
    hide IssuedOnce, Distinct, AllIn;
    assert Numbered(l', p');
    assert QueueCurrent(l', p') by {
      assert forall i :: 0 <= i < |p.queue| ==> l.place[l.queued[i]] == QUEUED by {
        AllPlaced(l);
      }
    }
    assert OutcomesCurrent(l', p');
    assert CurrentInPool(l', p');
  }

  lemma AllPlaced(l: Ledger)
    requires Placed(l)
    ensures forall i :: 0 <= i < |l.queued| ==> l.queued[i] in l.place && l.place[l.queued[i]] == QUEUED
  {
  }

  // The object's outcome was taken, its nonce counted up, and it was put at the head of the free list.
  ghost predicate RecycledCells(cells: map<ConnectionWaiter, Cell>, cells': map<ConnectionWaiter, Cell>, l: Ledger,
                                w: ConnectionWaiter)
    requires w in l.uses && w in cells
  {
    && cells'.Keys == cells.Keys
    && (forall v :: v in cells && v != w ==> cells'[v] == cells[v])
    && cells'[w].next == Head(l.free) && cells'[w].nonce == Wrap32(l.uses[w] + 1) && Unanswered(cells'[w])
  }

  lemma RecycledLinked(cells: map<ConnectionWaiter, Cell>, cells': map<ConnectionWaiter, Cell>, l: Ledger,
                       w: ConnectionWaiter)
    requires Placed(l) && w in cells && cells.Keys == l.place.Keys && l.place[w] == DONE
    requires Linked(cells, l.queued) && Linked(cells, l.free) && RecycledCells(cells, cells', l, w)
    ensures Linked(cells', l.queued) && Linked(cells', [w] + l.free)
  {
    var chain := [w] + l.free;
    forall i | 0 <= i < |chain| ensures chain[i] in cells' && cells'[chain[i]].next == Successor(chain, i) {
      if i > 0 {
        assert chain[i] == l.free[i - 1];
      }
    }
  }

  lemma RecycledContents(cells: map<ConnectionWaiter, Cell>, cells': map<ConnectionWaiter, Cell>, l: Ledger, p: Pool,
                         t: nat)
    requires t in p.done && cells.Keys == l.place.Keys && OutcomesHeld(cells, l, p) && NoncesCount(cells, l)
    requires QueueDescribed(cells, l, p) && forall i :: 0 <= i < |l.queued| ==> l.queued[i] != l.issued[t].waiter
    requires l.issued[t].waiter in l.uses && RecycledCells(cells, cells', l, l.issued[t].waiter)
    requires forall u :: u in p.done && u != t ==> u in l.issued && l.issued[u].waiter != l.issued[t].waiter
    ensures var l' := Recycled(l, l.issued[t].waiter);
            var p' := p.(done := p.done - {t});
            cells'.Keys == l'.place.Keys && QueueDescribed(cells', l', p') && OutcomesHeld(cells', l', p') &&
              NoncesCount(cells', l')
  {
    var l' := Recycled(l, l.issued[t].waiter);
    assert cells'.Keys == l'.place.Keys;
  }

  lemma RecycledRepresents(cells: map<ConnectionWaiter, Cell>, cells': map<ConnectionWaiter, Cell>, l: Ledger, p: Pool,
                           t: nat)
    requires Represents(cells, l, p) && t in p.done
    requires RecycledCells(cells, cells', l, l.issued[t].waiter)
    ensures Represents(cells', Recycled(l, l.issued[t].waiter), p.(done := p.done - {t}))
  {
    var w := l.issued[t].waiter;
    RecycledAccurate(l, p, t);
    RecycledLinked(cells, cells', l, w);
    SoleTicket(l, p, t);
    assert forall u :: u in p.done ==> Current(l, u);
    assert l.place[w] == DONE;
    AllPlaced(l);
    assert IssuedOnce(Recycled(l, w));
    hide Accurate, Linked, QueueDescribed, OutcomesHeld, NoncesCount, RecycledCells, IssuedOnce;
    RecycledContents(cells, cells', l, p, t);
  }

  // ---------------------------------------------------------------- reading the lists

  lemma QueuedObject(cells: map<ConnectionWaiter, Cell>, l: Ledger, p: Pool, i: nat)
    requires Represents(cells, l, p) && i < |p.queue|
    ensures |l.queued| == |p.queue| && l.queued[i] in cells && cells[l.queued[i]].next == Successor(l.queued, i)
    ensures Describes(cells[l.queued[i]], p.queue[i]) && Unanswered(cells[l.queued[i]])
    ensures forall j :: 0 <= j < |l.queued| && j != i ==> l.queued[j] != l.queued[i]
    ensures p.queue[i].ticket in l.issued && l.issued[p.queue[i].ticket] == Issue(l.queued[i], l.uses[l.queued[i]])
  {
    assert Current(l, p.queue[i].ticket);
  }

  lemma DoneObject(cells: map<ConnectionWaiter, Cell>, l: Ledger, p: Pool, t: nat)
    requires Represents(cells, l, p) && t in p.done
    ensures t in l.issued && l.issued[t].waiter in cells && Holds(cells[l.issued[t].waiter], p.done[t])
    ensures l.issued[t].uses == l.uses[l.issued[t].waiter] &&
            cells[l.issued[t].waiter].nonce == Wrap32(l.uses[l.issued[t].waiter])
  {
    assert Current(l, t);
  }

  /**
   What a cancel callback finds: if its ticket is no longer current, the object has been
   recycled since; if it is current, the object is in the queue, or has its outcome, or was
   abandoned when the pool was closed.
   */
  lemma CallbackObject(cells: map<ConnectionWaiter, Cell>, l: Ledger, p: Pool, t: nat)
    requires Represents(cells, l, p) && t in l.issued
    ensures var w := l.issued[t].waiter;
            && w in cells && w in l.uses && l.issued[t].uses <= l.uses[w] && cells[w].nonce == Wrap32(l.uses[w])
            && (l.issued[t].uses < l.uses[w] ==> Position(p.queue, t, 0) == |p.queue|)
            && (l.issued[t].uses == l.uses[w] ==>
                  && (Unanswered(cells[w]) <==> t !in p.done)
                  && (t !in p.done && t !in p.abandoned ==>
                        var k := Position(p.queue, t, 0);
                        k < |p.queue| && |l.queued| == |p.queue| && l.queued[k] == w)
                  && (t in p.done || t in p.abandoned ==> Position(p.queue, t, 0) == |p.queue|))
  {
    var w := l.issued[t].waiter;
    var k := Position(p.queue, t, 0);
    if k < |p.queue| {
      assert Current(l, p.queue[k].ticket);
    }
    if Current(l, t) {
      assert InPool(l.place[w], t, p);
    }
  }

  // The ticket was given out on the present use of this object.
  ghost predicate OnPresentUse(l: Ledger, w: ConnectionWaiter, t: nat) {
    t in l.issued && w in l.uses && l.issued[t] == Issue(w, l.uses[w])
  }

  // How a cancellation of an object finds the ticket of its present use, or none.
  lemma PresentTicket(cells: map<ConnectionWaiter, Cell>, l: Ledger, p: Pool, w: ConnectionWaiter, t: nat)
    requires Represents(cells, l, p) && OnPresentUse(l, w, t)
    ensures w in cells && (Unanswered(cells[w]) <==> t !in p.done)
    ensures t !in p.done ==> (t in p.abandoned <==> w !in l.queued)
    ensures w !in l.queued ==> Position(p.queue, t, 0) == |p.queue|
    ensures t in p.done ==> w !in l.queued && t !in p.abandoned
    ensures forall i :: 0 <= i < |l.queued| && l.queued[i] == w ==>
              Position(p.queue, t, 0) == i && |l.queued| == |p.queue|
  {
    CallbackObject(cells, l, p, t);
    LengthsAgree(cells, l, p);
    assert t in p.done ==> t !in p.abandoned by {
      assert t in p.done ==> l.place[w] == DONE;
      assert t in p.abandoned ==> l.place[w] == ABANDONED;
    }
    var k := Position(p.queue, t, 0);
    if k < |p.queue| {
      QueuedObject(cells, l, p, k);
    }
    forall i | 0 <= i < |l.queued| && l.queued[i] == w ensures k == i {
      QueuedObject(cells, l, p, i);
      assert l.issued[p.queue[i].ticket] == l.issued[t];
      PositionFinds(p.queue, t, 0, i);
    }
  }

  lemma NoPresentTicket(cells: map<ConnectionWaiter, Cell>, l: Ledger, p: Pool, w: ConnectionWaiter)
    requires Represents(cells, l, p) && w in cells
    ensures w in l.queued ==> exists t :: OnPresentUse(l, w, t)
    ensures l.place[w] == FREE ==> w !in l.queued && Unanswered(cells[w]) && forall t :: !OnPresentUse(l, w, t)
  {
    if i :| 0 <= i < |l.queued| && l.queued[i] == w {
      LengthsAgree(cells, l, p);
      QueuedObject(cells, l, p, i);
      assert OnPresentUse(l, w, p.queue[i].ticket);
    }
    assert forall t :: OnPresentUse(l, w, t) ==> Current(l, t);
  }

  lemma SameQueueRepresents(cells: map<ConnectionWaiter, Cell>, l: Ledger, p: Pool, p': Pool)
    requires Represents(cells, l, p)
    requires p'.queue == p.queue && p'.done == p.done && p'.abandoned == p.abandoned && p'.nextTicket == p.nextTicket
    ensures Represents(cells, l, p')
  {
  }

  lemma LengthsAgree(cells: map<ConnectionWaiter, Cell>, l: Ledger, p: Pool)
    requires Represents(cells, l, p)
    ensures |l.queued| == |p.queue| && cells.Keys == l.place.Keys == l.uses.Keys
    ensures forall i :: 0 <= i < |l.free| ==> l.free[i] in cells && Unanswered(cells[l.free[i]])
    ensures forall i :: 0 <= i < |l.queued| ==> l.queued[i] in cells && l.place[l.queued[i]] == QUEUED
    ensures |l.free| > 0 ==> cells[l.free[0]].next == Head(l.free[1..])
  {
  }

  /** The queue and the free list are acyclic and have no waiter object in common. */
  lemma ListsDisjoint(cells: map<ConnectionWaiter, Cell>, l: Ledger, p: Pool)
    requires Represents(cells, l, p)
    ensures Distinct(l.queued + l.free)
  {
    forall i, j | 0 <= i < |l.queued| && 0 <= j < |l.free| ensures l.queued[i] != l.free[j] {
      assert l.place[l.queued[i]] == QUEUED && l.place[l.free[j]] == FREE;
    }
  }
}
