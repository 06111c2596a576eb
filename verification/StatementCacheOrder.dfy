/**
 The cache of prepared statements is an LRU cache: of all cached statements an acquire evicts
 the one that was used longest ago.
 */
module StatementCacheOrder {
  import opened SqlStatements
  import opened StatementCacheSpec
  import opened StatementCacheRuns

  // What every step keeps, also one that finalizes a statement that is outstanding.
  ghost predicate Sound(s: Statements) {
    s.max >= 1 && Cached(s) && Accounted(s)
  }

  // The cached statement for a text.
  ghost predicate IsFor(s: Statements, p: nat, sql: string) {
    p in s.cache && p in s.alive && s.alive[p].sql == sql
  }

  /** The step uses the statement: it looks it up by its text, or prepares it. */
  ghost predicate Uses(s: Statements, op: Op, p: nat) {
    match op
    case Acquire(sql, _, _) => IsFor(s, p, sql) || p == s.nextPtr
    case Peek(sql) => IsFor(s, p, sql)
    case Release(_, _) => false
    case Dispose => false
  }

  ghost predicate Precedes(cache: seq<nat>, a: nat, b: nat) {
    exists i, j :: 0 <= i < j < |cache| && cache[i] == a && cache[j] == b
  }

  // ---------------------------------------------------------------- the cache after a step

  /**
   Statements may have left the cache, and those that stayed are in the order they had, but for
   the one that was used, which is the last now.
   */
  ghost predicate Moved(s: Statements, op: Op, cache: seq<nat>) {
    && (forall p :: p in cache ==> p in s.cache || Uses(s, op, p))
    && (forall a, b :: Precedes(cache, a, b) ==> !Uses(s, op, a) && (Uses(s, op, b) || Precedes(s.cache, a, b)))
  }

  lemma NextNotCached(s: Statements)
    requires Sound(s)
    ensures s.nextPtr !in s.alive && s.nextPtr !in s.cache && forall p :: p in s.cache ==> p in s.alive
  {
  }

  // Only the statement at position k is for its text.
  lemma OnlyOneFor(s: Statements, k: nat, p: nat)
    requires Cached(s) && k < |s.cache|
    ensures IsFor(s, p, s.alive[s.cache[k]].sql) <==> p == s.cache[k]
  {
    assert s.cache[k] in s.cache;
  }

  lemma MovedToEnd(cache: seq<nat>, k: nat, a: nat, b: nat)
    requires k < |cache| && forall i :: 0 <= i < |cache| && i != k ==> cache[i] != cache[k]
    requires Precedes(cache[..k] + cache[k + 1..] + [cache[k]], a, b)
    ensures a in cache && a != cache[k] && (b == cache[k] || Precedes(cache, a, b))
  {
    TouchedMembers(cache, k);
    var c := cache[..k] + cache[k + 1..] + [cache[k]];
    var i, j :| 0 <= i < j < |c| && c[i] == a && c[j] == b;
    assert cache[if i < k then i else i + 1] == a;
    if j < |c| - 1 {
      assert cache[if j < k then j else j + 1] == b;
    }
  }

  lemma TouchMoves(s: Statements, op: Op, k: nat)
    requires Sound(s) && (op.Acquire? || op.Peek?) && k < |s.cache| && s.cache[k] in s.alive
    requires s.alive[s.cache[k]].sql == op.sql
    ensures Moved(s, op, Touch(s, k).cache)
  {
    NextNotCached(s);
    TouchedMembers(s.cache, k);
    var c := Touch(s, k).cache;
    forall p: nat | p in s.cache ensures Uses(s, op, p) <==> p == s.cache[k] {
      OnlyOneFor(s, k, p);
    }
    Apart(s, k);
    hide Sound, Uses, Touch, Precedes;
    assert s.cache[k] in s.cache;
    forall a, b | Precedes(c, a, b) ensures !Uses(s, op, a) && (Uses(s, op, b) || Precedes(s.cache, a, b)) {
      assert c == s.cache[..k] + s.cache[k + 1..] + [s.cache[k]] by {
        TouchedCache(s, k);
      }
      MovedToEnd(s.cache, k, a, b);
    }
    assert forall p :: p in c ==> p in s.cache by {
      TouchedCache(s, k);
    }
  }

  lemma TouchedCache(s: Statements, k: nat)
    requires k < |s.cache|
    ensures Touch(s, k).cache == s.cache[..k] + s.cache[k + 1..] + [s.cache[k]]
  {
  }

  lemma Apart(s: Statements, k: nat)
    requires Cached(s) && k < |s.cache|
    ensures forall i :: 0 <= i < |s.cache| && i != k ==> s.cache[i] != s.cache[k]
  {
  }

  lemma WithoutMoves(s: Statements, op: Op, k: nat)
    requires k < |s.cache| && forall p :: p in s.cache ==> !Uses(s, op, p)
    ensures Moved(s, op, s.cache[..k] + s.cache[k + 1..])
  {
    hide Uses;
    var c := s.cache[..k] + s.cache[k + 1..];
    assert forall i :: 0 <= i < |c| ==> c[i] == s.cache[if i < k then i else i + 1];
    forall a, b | Precedes(c, a, b) ensures !Uses(s, op, a) && Precedes(s.cache, a, b) {
      var i, j :| 0 <= i < j < |c| && c[i] == a && c[j] == b;
      assert s.cache[if i < k then i else i + 1] == a && s.cache[if j < k then j else j + 1] == b;
    }
  }

  lemma SameMoves(s: Statements, op: Op)
    requires forall p :: p in s.cache ==> !Uses(s, op, p)
    ensures Moved(s, op, s.cache)
  {
    hide Uses;
    forall a, b | Precedes(s.cache, a, b) ensures !Uses(s, op, a) {
      assert a in s.cache;
    }
  }

  // A new statement comes last, and the first one may have had to leave.
  lemma PutMoves(s: Statements, op: Op, from: nat, p: nat)
    requires from <= |s.cache| && p !in s.cache && Uses(s, op, p) && forall q :: q in s.cache ==> !Uses(s, op, q)
    ensures Moved(s, op, s.cache[from..] + [p])
  {
    hide Uses;
    var c := s.cache[from..] + [p];
    forall a, b | Precedes(c, a, b) ensures !Uses(s, op, a) && (Uses(s, op, b) || Precedes(s.cache, a, b)) {
      var i, j :| 0 <= i < j < |c| && c[i] == a && c[j] == b;
      assert s.cache[from + i] == a;
      if j < |c| - 1 {
        assert s.cache[from + j] == b;
      }
    }
  }

  // ---------------------------------------------------------------- acquiring

  // A new statement is prepared: whether it is cached, and which one makes room for it.
  lemma PreparedSound(s: Statements, sql: string, skipCache: bool, inspectFails: bool)
    requires Sound(s) && (skipCache || forall p :: p in s.cache ==> !IsFor(s, p, sql))
    ensures var s' := PrepareStatement(s, sql, skipCache, inspectFails).0;
            && Sound(s')
            && s'.cache == (if inspectFails || skipCache || !IsCacheable(sql) then s.cache
                            else (if |s.cache| == s.max then s.cache[1..] else s.cache) + [s.nextPtr])
  {
    hide IsCacheable;
    NextNotCached(s);
    if inspectFails {
      LeakAccounted(s);
      DropAccounted(s);
    } else if skipCache || !IsCacheable(sql) {
      PreparedAlone(s, sql, skipCache);
      JoinedCached(s, sql, false);
      JoinedAccounted(s, sql, false);
    } else {
      PreparedCached(s, sql);
      PutSound(s, sql);
    }
  }

  lemma PutSound(s: Statements, sql: string)
    requires Sound(s) && forall p :: p in s.cache ==> !IsFor(s, p, sql)
    ensures var r := if |s.cache| == s.max then RemoveEntry(s, 0) else s;
            && Sound(Joined(r, sql, true)) && r.nextPtr == s.nextPtr
            && r.cache == if |s.cache| == s.max then s.cache[1..] else s.cache
  {
    Bounded(s);
    hide Sound, RemoveEntry, Joined, IsFor;
    if |s.cache| == s.max {
      RemovedSound(s, 0);
      assert s.cache[..0] + s.cache[1..] == s.cache[1..];
      assert forall p :: p in s.cache[1..] ==> p in s.cache;
      JoinedSound(RemoveEntry(s, 0), sql);
    } else {
      JoinedSound(s, sql);
    }
  }

  lemma Bounded(s: Statements)
    requires Sound(s)
    ensures |s.cache| <= s.max && s.max >= 1
  {
  }

  lemma RemovedSound(s: Statements, k: nat)
    requires Sound(s) && k < |s.cache|
    ensures var r := RemoveEntry(s, k);
            && Sound(r) && r.cache == s.cache[..k] + s.cache[k + 1..] && r.nextPtr == s.nextPtr && r.max == s.max
            && forall p, sql :: IsFor(r, p, sql) ==> IsFor(s, p, sql)
  {
    RemoveCached(s, k);
    RemoveAccounted(s, k);
    RemovedTexts(s, k);
    hide Cached, Accounted;
  }

  lemma RemovedTexts(s: Statements, k: nat)
    requires k < |s.cache|
    ensures var r := RemoveEntry(s, k);
            && r.cache == s.cache[..k] + s.cache[k + 1..] && r.nextPtr == s.nextPtr && r.max == s.max
            && forall p, sql :: IsFor(r, p, sql) ==> IsFor(s, p, sql)
  {
    assert forall p :: p in s.cache[..k] + s.cache[k + 1..] ==> p in s.cache;
  }

  lemma JoinedSound(s: Statements, sql: string)
    requires Sound(s) && |s.cache| < s.max && forall p :: p in s.cache ==> !IsFor(s, p, sql)
    ensures Sound(Joined(s, sql, true))
  {
    NextNotCached(s);
    assert forall i :: 0 <= i < |s.cache| ==> s.cache[i] in s.cache && s.alive[s.cache[i]].sql != sql;
    JoinedCached(s, sql, true);
    JoinedAccounted(s, sql, true);
    hide Cached, Accounted;
  }

  lemma TouchSound(s: Statements, k: nat)
    requires Sound(s) && k < |s.cache|
    ensures Sound(Touch(s, k)) && Touch(s, k).nextPtr == s.nextPtr
  {
    TouchCached(s, k);
    hide Cached;
  }

  lemma NotCachedFor(s: Statements, sql: string)
    requires Sound(s) && Find(s, sql, 0) == |s.cache|
    ensures forall p :: p in s.cache ==> !IsFor(s, p, sql)
  {
    NotFound(s, sql, 0);
  }

  lemma SoundOutstanding(s: Statements, outstanding: multiset<nat>)
    requires Sound(s)
    ensures Sound(s.(outstanding := outstanding))
  {
  }

  lemma AcquireMoves(s: Statements, op: Op)
    requires Sound(s) && op.Acquire?
    ensures Sound(Step(s, op)) && Moved(s, op, Step(s, op).cache)
  {
    var sql, k := op.sql, Find(s, op.sql, 0);
    NextNotCached(s);
    hide Sound, Moved, Find, PrepareStatement, IsCacheable, Touch;
    if k < |s.cache| {
      var s1 := Touch(s, k);
      TouchSound(s, k);
      TouchMoves(s, op, k);
      SoundOutstanding(s1, s1.outstanding + multiset{s.cache[k]});
      PreparedSound(s1, sql, true, op.inspectFails);
    } else {
      NotCachedFor(s, sql);
      assert Touch(s, k) == s by {
        TouchedNothing(s);
      }
      MissMoves(s, op);
    }
  }

  lemma TouchedNothing(s: Statements)
    ensures Touch(s, |s.cache|) == s
  {
  }

  lemma MissMoves(s: Statements, op: Op)
    requires Sound(s) && op.Acquire? && forall p :: p in s.cache ==> !IsFor(s, p, op.sql)
    ensures Moved(s, op, s.cache)
    ensures var s' := PrepareStatement(s, op.sql, false, op.inspectFails).0;
            Sound(s') && Moved(s, op, s'.cache)
  {
    NextNotCached(s);
    assert forall p :: p in s.cache ==> !Uses(s, op, p);
    assert Uses(s, op, s.nextPtr);
    SameMoves(s, op);
    PreparedSound(s, op.sql, false, op.inspectFails);
    var from := if |s.cache| == s.max then 1 else 0;
    Bounded(s);
    PutMoves(s, op, from, s.nextPtr);
    assert s.cache[0..] == s.cache;
    hide Sound, Moved, Uses, PrepareStatement, IsCacheable;
  }

  // ---------------------------------------------------------------- the other steps

  lemma ReleaseMoves(s: Statements, op: Op)
    requires Sound(s) && op.Release? && Possible(s, op)
    ensures Sound(Step(s, op)) && Moved(s, op, Step(s, op).cache)
  {
    var p, stmt := op.ptr, s.alive[op.ptr];
    var s1 := s.(alive := s.alive[p := stmt.(inUse := false)], outstanding := s.outstanding - multiset{p});
    SameMoves(s, op);
    assert Sound(s1);
    if !stmt.inCache {
      FinalizeKeeps(s1, p);
    } else {
      var k := Find(s1, stmt.sql, 0);
      if op.resetFails && k < |s1.cache| {
        RemovedSound(s1, k);
        WithoutMoves(s, op, k);
      }
    }
    hide Cached, Accounted, Moved;
  }

  lemma {:induction false} TrimSound(s: Statements)
    requires Sound(s)
    ensures Sound(TrimToSize(s, -1)) && TrimToSize(s, -1).cache == []
    decreases |s.cache|
  {
    if s.cache != [] {
      TrimOne(s);
      RemovedSound(s, 0);
      TrimSound(RemoveEntry(s, 0));
    }
  }

  /** What a step does to the cache, and what it keeps. */
  lemma StepMoves(s: Statements, op: Op)
    requires Sound(s) && Possible(s, op)
    ensures Sound(Step(s, op)) && Moved(s, op, Step(s, op).cache)
  {
    hide Sound, Moved, Find, Uses;
    match op
    case Acquire(_, _, _) => AcquireMoves(s, op);
    case Release(_, _) => ReleaseMoves(s, op);
    case Peek(sql) => PeekMoves(s, op);
    case Dispose =>
      TrimSound(s);
      assert Moved(s, op, []) by {
        NothingMoves(s, op);
      }
  }

  lemma NothingMoves(s: Statements, op: Op)
    ensures Moved(s, op, [])
  {
  }

  lemma PeekMoves(s: Statements, op: Op)
    requires Sound(s) && op.Peek?
    ensures Sound(Step(s, op)) && Moved(s, op, Step(s, op).cache)
  {
    var k := Find(s, op.sql, 0);
    hide Sound, Moved, Touch;
    if k < |s.cache| {
      TouchSound(s, k);
      TouchMoves(s, op, k);
    } else {
      NotCachedFor(s, op.sql);
      SameMoves(s, op);
      TouchedNothing(s);
    }
  }

  // ---------------------------------------------------------------- runs

  /** When the statement was last used in a run: the position of that step, -1 if there was none. */
  ghost function LastUse(s: Statements, ops: seq<Op>, p: nat): (t: int)
    requires PossibleRun(s, ops)
    ensures -1 <= t < |ops|
    decreases |ops|
  {
    if ops == [] then -1
    else
      var later := LastUse(Step(s, ops[0]), ops[1..], p);
      if later >= 0 then later + 1 else if Uses(s, ops[0], p) then 0 else -1
  }

  // In the cache after a run the statements used last are the last, and those not used in the order they had.
  ghost predicate InOrder(s: Statements, ops: seq<Op>, cache: seq<nat>)
    requires PossibleRun(s, ops)
  {
    && (forall a, b :: Precedes(cache, a, b) ==>
          || LastUse(s, ops, a) < LastUse(s, ops, b)
          || (LastUse(s, ops, a) == LastUse(s, ops, b) == -1 && Precedes(s.cache, a, b)))
    && (forall p :: p in cache && LastUse(s, ops, p) == -1 ==> p in s.cache)
  }

  lemma {:induction false} RunInOrder(s: Statements, ops: seq<Op>)
    requires Sound(s) && PossibleRun(s, ops)
    ensures Sound(Run(s, ops)) && InOrder(s, ops, Run(s, ops).cache)
    decreases |ops|
  {
    hide Sound, Precedes, Uses, Step;
    if ops != [] {
      var s1, c := Step(s, ops[0]), Run(s, ops).cache;
      StepMoves(s, ops[0]);
      RunInOrder(s1, ops[1..]);
      forall a, b | Precedes(c, a, b)
        ensures || LastUse(s, ops, a) < LastUse(s, ops, b)
                || (LastUse(s, ops, a) == LastUse(s, ops, b) == -1 && Precedes(s.cache, a, b))
      {
        assert || LastUse(s1, ops[1..], a) < LastUse(s1, ops[1..], b)
               || (LastUse(s1, ops[1..], a) == LastUse(s1, ops[1..], b) == -1 && Precedes(s1.cache, a, b));
      }
    }
  }

  lemma NewSound(max: int)
    requires max >= 1
    ensures Sound(NewStatements(max)) && NewStatements(max).cache == []
  {
  }

  /** In every run, also one that finalizes statements in use, the cache is in the order of the last uses. */
  lemma OrderedByUse(max: int, ops: seq<Op>, a: nat, b: nat)
    requires max >= 1 && PossibleRun(NewStatements(max), ops)
    requires Precedes(Run(NewStatements(max), ops).cache, a, b)
    ensures 0 <= LastUse(NewStatements(max), ops, a) < LastUse(NewStatements(max), ops, b)
  {
    var s, c := NewStatements(max), Run(NewStatements(max), ops).cache;
    NewSound(max);
    RunInOrder(s, ops);
    var i, j :| 0 <= i < j < |c| && c[i] == a && c[j] == b;
    assert a in c && b in c;
    hide Sound, LastUse, PossibleRun, Run;
  }

  // What an acquire takes out of the cache.
  lemma AcquireEvicts(s: Statements, op: Op, p: nat)
    requires Sound(s) && op.Acquire? && p in s.cache && p !in Step(s, op).cache
    ensures |s.cache| == s.max && s.cache[0] == p
    ensures forall q :: q in s.cache && q != p ==> Precedes(s.cache, p, q) && q in Step(s, op).cache
  {
    var k := Find(s, op.sql, 0);
    NextNotCached(s);
    Bounded(s);
    hide Sound, Find, PrepareStatement, IsCacheable, Precedes;
    if k < |s.cache| {
      TouchSound(s, k);
      TouchedMembers(s.cache, k);
      PreparedSound(Touch(s, k), op.sql, true, op.inspectFails);
    } else {
      NotCachedFor(s, op.sql);
      PreparedSound(s, op.sql, false, op.inspectFails);
      FirstPrecedes(s.cache, p);
    }
  }

  lemma FirstPrecedes(cache: seq<nat>, p: nat)
    requires p in cache && p !in cache[1..]
    ensures cache[0] == p && forall q :: q in cache && q != p ==> Precedes(cache, p, q) && q in cache[1..]
  {
    assert cache == [cache[0]] + cache[1..];
    forall q | q in cache && q != p ensures Precedes(cache, p, q) {
      var j :| 0 <= j < |cache| && cache[j] == q;
    }
  }

  /**
   A statement leaves the cache on an acquire only if the cache was full, and then it is, of all
   statements in the cache, the one used longest ago; the others stay.
   */
  lemma EvictsLeastRecentlyUsed(max: int, ops: seq<Op>, op: Op, p: nat, q: nat)
    requires max >= 1 && PossibleRun(NewStatements(max), ops) && op.Acquire?
    requires var s := Run(NewStatements(max), ops);
             p in s.cache && p !in Step(s, op).cache && q in s.cache && q != p
    ensures var s := Run(NewStatements(max), ops);
            && |s.cache| == s.max && q in Step(s, op).cache
            && LastUse(NewStatements(max), ops, p) < LastUse(NewStatements(max), ops, q)
  {
    NewSound(max);
    RunInOrder(NewStatements(max), ops);
    AcquireEvicts(Run(NewStatements(max), ops), op, p);
    hide Sound, LastUse, PossibleRun, Run, Step, Precedes;
    OrderedByUse(max, ops, p, q);
  }

  // Whatever else an acquire does once it found the statement, the cache stays as the look-up left it.
  lemma FoundCache(s: Statements, op: Op, k: nat)
    requires Sound(s) && (op.Acquire? || op.Peek?) && k == Find(s, op.sql, 0) < |s.cache|
    ensures Step(s, op).cache == Touch(s, k).cache
  {
    hide Sound, Find, PrepareStatement, IsCacheable, Touch;
    TouchSound(s, k);
    PreparedSound(Touch(s, k), op.sql, true, if op.Acquire? then op.inspectFails else false);
  }

  /**
   A statement that an acquire or a look-up finds in the cache, even if it is in use, is the last
   one then; all stay, and the others in order.
   */
  lemma FoundIsLast(s: Statements, op: Op, p: nat)
    requires Sound(s) && (op.Acquire? || op.Peek?) && IsFor(s, p, op.sql)
    ensures var c := Step(s, op).cache;
            && |c| == |s.cache| && c[|c| - 1] == p && (forall q :: q in c <==> q in s.cache)
            && forall a, b :: Precedes(c, a, b) && b != p ==> Precedes(s.cache, a, b)
  {
    var i :| 0 <= i < |s.cache| && s.cache[i] == p;
    FindsEntry(s, i, 0);
    FoundCache(s, op, i);
    NextNotCached(s);
    Apart(s, i);
    hide Sound, Find, Step, IsFor, Precedes;
    TouchedMembers(s.cache, i);
    var c := Touch(s, i).cache;
    forall a, b | Precedes(c, a, b) && b != p ensures Precedes(s.cache, a, b) {
      MovedToEnd(s.cache, i, a, b);
    }
  }

  ghost predicate LastIfCached(cache: seq<nat>, p: nat) {
    p in cache ==> cache[|cache| - 1] == p
  }

  /** What an acquire hands out of the cache, or has put into it, is the last one in the cache. */
  lemma HandedOutIsLast(s: Statements, sql: string, prepareFails: bool, inspectFails: bool)
    requires Sound(s)
    ensures var (s', r) := AcquireStatement(s, sql, prepareFails, inspectFails);
            r.Prepared? ==> LastIfCached(s'.cache, r.ptr)
  {
    var k := Find(s, sql, 0);
    NextNotCached(s);
    hide Sound, Find, PrepareStatement, IsCacheable;
    PreparesNext(Touch(s, k), sql, k < |s.cache|, inspectFails);
    if k < |s.cache| {
      TouchSound(s, k);
      NextNotCached(Touch(s, k));
      PreparedSound(Touch(s, k), sql, true, inspectFails);
    } else {
      NotCachedFor(s, sql);
      PreparedSound(s, sql, false, inspectFails);
    }
  }

  lemma PreparesNext(s: Statements, sql: string, skipCache: bool, inspectFails: bool)
    ensures PrepareStatement(s, sql, skipCache, inspectFails).1 == if inspectFails then Threw else Prepared(s.nextPtr)
  {
  }

  // ---------------------------------------------------------------- what an acquire hands out

  ghost predicate IsHit(s: Statements, sql: string) {
    exists p :: IsFor(s, p, sql) && !s.alive[p].inUse
  }

  // A statement for the text is handed out: the cached one as it is, or a new one, marked.
  ghost predicate HandsOut(s: Statements, s': Statements, sql: string, p: nat) {
    && s'.outstanding == s.outstanding + multiset{p} && p in s'.alive && s'.alive[p].sql == sql
    && (if IsHit(s, sql) then IsFor(s, p, sql) && s'.alive == s.alive && s'.finalized == s.finalized
        else p == s.nextPtr && s'.nextPtr == p + 1 && s'.alive[p].inUse)
  }

  lemma HitHandsOut(s: Statements, sql: string, k: nat)
    requires Sound(s) && k == Find(s, sql, 0) < |s.cache| && !s.alive[s.cache[k]].inUse
    ensures IsHit(s, sql)
    ensures var s1 := Touch(s, k);
            HandsOut(s, s1.(outstanding := s1.outstanding + multiset{s.cache[k]}), sql, s.cache[k])
  {
    NextNotCached(s);
    assert s.cache[k] in s.cache && IsFor(s, s.cache[k], sql);
  }

  lemma PreparedHandsOut(s: Statements, sql: string, skipCache: bool)
    requires Sound(s) && !IsHit(s, sql) && (skipCache || forall p :: p in s.cache ==> !IsFor(s, p, sql))
    ensures var (s', r) := PrepareStatement(s, sql, skipCache, false);
            r == Prepared(s.nextPtr) && HandsOut(s, s', sql, s.nextPtr)
  {
    NextNotCached(s);
    hide IsCacheable;
    if skipCache || !IsCacheable(sql) {
      PreparedAlone(s, sql, skipCache);
    } else {
      PreparedCached(s, sql);
      hide Cached, Accounted;
      if |s.cache| == s.max {
        assert s.cache != [];
      }
    }
  }

  /**
   An acquire throws exactly if it has to prepare a statement and that, or its inspection, throws.
   Otherwise it hands out one statement for the text, once more: the cached one, if that is not
   marked as in use, or a new one.
   */
  lemma AcquiredExactly(s: Statements, sql: string, prepareFails: bool, inspectFails: bool)
    requires Sound(s)
    ensures var (s', r) := AcquireStatement(s, sql, prepareFails, inspectFails);
            && (r == Threw <==> !IsHit(s, sql) && (prepareFails || inspectFails))
            && (r == Threw ==> s'.outstanding == s.outstanding && s'.alive == s.alive)
            && (r.Prepared? ==> HandsOut(s, s', sql, r.ptr))
  {
    var k := Find(s, sql, 0);
    NextNotCached(s);
    if k < |s.cache| {
      FoundHit(s, sql, k);
      TouchSound(s, k);
      TouchedHit(s, sql, k);
    } else {
      NotCachedFor(s, sql);
    }
    hide Sound, Find, IsFor, IsHit, HandsOut, IsCacheable;
    var s1 := Touch(s, k);
    if k < |s.cache| && !s.alive[s.cache[k]].inUse {
      HitHandsOut(s, sql, k);
    } else if !prepareFails && !inspectFails {
      if k < |s.cache| {
        PreparedHandsOut(s1, sql, true);
        HandsOutTouched(s, sql, k, PrepareStatement(s1, sql, true, false).0);
      } else {
        NotHit(s, sql);
        PreparedHandsOut(s, sql, false);
      }
    } else if k == |s.cache| {
      NotHit(s, sql);
    }
  }

  lemma FoundHit(s: Statements, sql: string, k: nat)
    requires Sound(s) && k == Find(s, sql, 0) < |s.cache|
    ensures IsHit(s, sql) <==> !s.alive[s.cache[k]].inUse
  {
    assert s.cache[k] in s.cache && s.cache[k] in s.alive;
    forall p: nat ensures IsFor(s, p, sql) <==> p == s.cache[k] {
      OnlyOneFor(s, k, p);
    }
  }

  lemma TouchedHit(s: Statements, sql: string, k: nat)
    requires k < |s.cache|
    ensures IsHit(Touch(s, k), sql) <==> IsHit(s, sql)
  {
    TouchedMembers(s.cache, k);
    assert forall p: nat :: IsFor(Touch(s, k), p, sql) <==> IsFor(s, p, sql);
  }

  lemma HandsOutTouched(s: Statements, sql: string, k: nat, s': Statements)
    requires k < |s.cache| && !IsHit(s, sql) && HandsOut(Touch(s, k), s', sql, s.nextPtr)
    requires !IsHit(Touch(s, k), sql)
    ensures HandsOut(s, s', sql, s.nextPtr)
  {
  }

  lemma NotHit(s: Statements, sql: string)
    requires forall p :: p in s.cache ==> !IsFor(s, p, sql)
    ensures !IsHit(s, sql)
  {
  }

  /**
   A released statement is finalized exactly if it is not in the cache, or if resetting it throws,
   and then it leaves the cache; otherwise it is there to be handed out again. No other is touched.
   */
  lemma ReleasedExactly(s: Statements, p: nat, resetFails: bool)
    requires Sound(s) && p in s.alive
    ensures var s' := ReleaseStatement(s, p, resetFails);
            && s'.outstanding == s.outstanding - multiset{p}
            && (forall q :: q in s.alive && q != p ==> q in s'.alive && s'.alive[q] == s.alive[q])
            && (if s.alive[p].inCache && !resetFails then
                  && p in s'.alive && s'.alive[p] == s.alive[p].(inUse := false)
                  && s'.cache == s.cache && s'.finalized == s.finalized
                else
                  && p !in s'.alive && s'.finalized == s.finalized + [p]
                  && (forall q :: q in s'.cache <==> q in s.cache && q != p))
  {
    if !s.alive[p].inCache {
      assert p !in s.cache;
    } else if resetFails {
      ResetFailed(s, p);
    }
    hide Sound, Find, RemoveEntry;
  }

  lemma ResetFailed(s: Statements, p: nat)
    requires Sound(s) && p in s.alive && s.alive[p].inCache
    ensures var s1 := s.(alive := s.alive[p := s.alive[p].(inUse := false)],
                         outstanding := s.outstanding - multiset{p});
            var k := Find(s1, s.alive[p].sql, 0);
            k < |s.cache| && var s' := RemoveEntry(s1, k);
            && s'.outstanding == s1.outstanding && s'.alive == s1.alive - {p}
            && s'.finalized == s.finalized + [p] && (forall q :: q in s'.cache <==> q in s.cache && q != p)
  {
    var s1 := s.(alive := s.alive[p := s.alive[p].(inUse := false)], outstanding := s.outstanding - multiset{p});
    StillCached(s, p);
    var k :| 0 <= k < |s1.cache| && s1.cache[k] == p;
    FindsEntry(s1, k, 0);
    hide Sound, Cached, Find;
    WithoutEntry(s1.cache, k);
  }

  lemma StillCached(s: Statements, p: nat)
    requires Sound(s) && p in s.alive && s.alive[p].inCache
    ensures p in s.cache && forall i, j :: 0 <= i < j < |s.cache| ==> s.cache[i] != s.cache[j]
    ensures Cached(s.(alive := s.alive[p := s.alive[p].(inUse := false)], outstanding := s.outstanding - multiset{p}))
  {
  }

  // ---------------------------------------------------------------- what is cached

  /** A new statement for a text that is not in the cache gets there exactly if it is cacheable. */
  lemma CachedExactly(s: Statements, sql: string)
    requires Sound(s) && forall p :: p in s.cache ==> !IsFor(s, p, sql)
    ensures var (s', r) := PrepareStatement(s, sql, false, false);
            r == Prepared(s.nextPtr) && (s.nextPtr in s'.cache <==> IsCacheable(sql))
  {
    NextNotCached(s);
    PreparedSound(s, sql, false, false);
    PreparesNext(s, sql, false, false);
    hide Sound, PrepareStatement, IsCacheable;
  }

  /** Queries and changes of rows are cacheable, and none of the statements about transactions or the schema. */
  lemma WhatIsCacheable(sql: string)
    ensures Says(sql, "SELECT") || Says(sql, "INSERT") || Says(sql, "UPDATE") || Says(sql, "REPLACE") ||
            Says(sql, "DELETE") ==>
              IsCacheable(sql)
    ensures Says(sql, "BEGIN") || Says(sql, "COMMIT") || Says(sql, "END") || Says(sql, "ROLLBACK") ||
            Says(sql, "SAVEPOINT") || Says(sql, "RELEASE") || Says(sql, "CREATE") || Says(sql, "DROP") ||
            Says(sql, "ALTER") || Says(sql, "ATTACH") || Says(sql, "DETACH") || Says(sql, "PRAGMA") ==>
              !IsCacheable(sql)
  {
    CachedStatements(sql);
    TransactionStatements(sql);
    SchemaStatements(sql);
    DefinitionStatements(sql);
    OtherStatements(sql);
    hide SqlStatementType, Says;
  }
}
