/** Which statements are finalized, when, and whether any is forgotten. */
module StatementCacheRuns {
  import opened StatementCacheSpec

  // The cache holds distinct living statements for distinct texts, and their flags say so.
  ghost predicate Cached(s: Statements) {
    && |s.cache| <= s.max
    && (forall i :: 0 <= i < |s.cache| ==> s.cache[i] in s.alive)
    && (forall i, j :: 0 <= i < j < |s.cache| ==>
          s.cache[i] != s.cache[j] && s.alive[s.cache[i]].sql != s.alive[s.cache[j]].sql)
    && (forall p :: p in s.alive ==> (s.alive[p].inCache <==> p in s.cache))
  }

  /**
   No statement is finalized while it is outstanding; one in use is outstanding once; one that is
   in neither place is in use.
   */
  ghost predicate Tracked(s: Statements) {
    && (forall p :: p in s.outstanding ==> p in s.alive)
    && (forall p :: p in s.alive && s.alive[p].inUse ==> s.outstanding[p] == 1)
    && (forall p :: p in s.alive && !s.alive[p].inCache ==> s.alive[p].inUse)
  }

  /** Every statement ever prepared is alive, finalized once, or leaked. */
  ghost predicate Accounted(s: Statements) {
    && (forall p: nat :: p < s.nextPtr <==> p in s.alive || p in s.finalized || p in s.leaked)
    && (forall p :: p in s.alive ==> p !in s.finalized && p !in s.leaked)
    && (forall p :: p in s.leaked ==> p !in s.finalized)
    && (forall i, j :: 0 <= i < j < |s.finalized| ==> s.finalized[i] != s.finalized[j])
  }

  ghost predicate Inv(s: Statements) {
    s.max >= 1 && Cached(s) && Tracked(s) && Accounted(s)
  }

  // A statement that was handed out of the cache is outstanding and not marked as in use.
  ghost predicate Unmarked(s: Statements, p: nat) {
    p in s.outstanding && p in s.alive && !s.alive[p].inUse
  }

  /**
   The step finalizes a statement that is still outstanding: an acquire that puts a new
   statement into a full cache and evicts one handed out of it, or a release whose reset
   fails while the statement is outstanding a second time.
   */
  ghost predicate Breaks(s: Statements, op: Op) {
    match op
    case Acquire(sql, prepareFails, inspectFails) =>
      && !prepareFails && !inspectFails && IsCacheable(sql)
      && Find(s, sql, 0) == |s.cache| == s.max && |s.cache| > 0 && Unmarked(s, s.cache[0])
    case Release(p, resetFails) => p in s.alive && s.alive[p].inCache && resetFails && s.outstanding[p] >= 2
    case Peek(_) => false
    case Dispose => exists p :: p in s.cache && Unmarked(s, p)
  }

  // ---------------------------------------------------------------- the parts of a step

  lemma TouchedMembers(cache: seq<nat>, k: nat)
    requires k < |cache|
    ensures var c := cache[..k] + cache[k + 1..] + [cache[k]];
            && (forall i :: 0 <= i < |c| ==> c[i] == cache[if i < k then i else if i < |c| - 1 then i + 1 else k])
            && (forall p :: p in c <==> p in cache)
  {
    var c := cache[..k] + cache[k + 1..] + [cache[k]];
    forall p ensures p in c <==> p in cache {
      if i :| 0 <= i < |cache| && cache[i] == p {
        assert c[if i < k then i else if i == k then |c| - 1 else i - 1] == p;
      }
    }
  }

  lemma TouchCached(s: Statements, k: nat)
    requires Cached(s) && k < |s.cache|
    ensures Cached(Touch(s, k)) && forall p :: p in Touch(s, k).cache <==> p in s.cache
  {
    TouchedMembers(s.cache, k);
    var c := Touch(s, k).cache;
    forall i, j | 0 <= i < j < |c| ensures c[i] != c[j] && s.alive[c[i]].sql != s.alive[c[j]].sql {}
  }

  lemma TouchKeeps(s: Statements, k: nat)
    requires Inv(s) && k <= |s.cache|
    ensures Inv(Touch(s, k)) && (forall p :: p in Touch(s, k).cache <==> p in s.cache)
    ensures k < |s.cache| ==> Touch(s, k).cache[|s.cache| - 1] == s.cache[k]
  {
    if k < |s.cache| {
      hide Cached;
      TouchCached(s, k);
      TouchRest(s, k);
      hide Tracked, Accounted;
    }
  }

  lemma TouchRest(s: Statements, k: nat)
    requires Tracked(s) && Accounted(s) && k <= |s.cache|
    ensures Tracked(Touch(s, k)) && Accounted(Touch(s, k)) && Touch(s, k).max == s.max
  {
  }

  lemma FinalizeKeeps(s: Statements, p: nat)
    requires Accounted(s) && p in s.alive
    ensures Accounted(FinalizeStatement(s, p))
  {
  }

  lemma WithoutEntry(cache: seq<nat>, k: nat)
    requires k < |cache| && forall i, j :: 0 <= i < j < |cache| ==> cache[i] != cache[j]
    ensures var c := cache[..k] + cache[k + 1..];
            && (forall i :: 0 <= i < |c| ==> c[i] == cache[if i < k then i else i + 1])
            && (forall q :: q in c <==> q in cache && q != cache[k])
  {
    var c := cache[..k] + cache[k + 1..];
    forall q ensures q in c <==> q in cache && q != cache[k] {
      if i :| 0 <= i < |cache| && cache[i] == q && q != cache[k] {
        assert c[if i < k then i else i - 1] == q;
      }
    }
  }

  lemma RemoveCached(s: Statements, k: nat)
    requires Cached(s) && k < |s.cache|
    ensures Cached(RemoveEntry(s, k))
  {
    WithoutEntry(s.cache, k);
    var c := s.cache[..k] + s.cache[k + 1..];
    assert RemoveEntry(s, k).cache == c;
  }

  lemma RemoveTracked(s: Statements, k: nat)
    requires Cached(s) && Tracked(s) && k < |s.cache|
    ensures !Unmarked(s, s.cache[k]) ==> Tracked(RemoveEntry(s, k))
    ensures Unmarked(s, s.cache[k]) ==>
              s.cache[k] in RemoveEntry(s, k).outstanding && s.cache[k] !in RemoveEntry(s, k).alive
  {
  }

  lemma RemoveAccounted(s: Statements, k: nat)
    requires Cached(s) && Accounted(s) && k < |s.cache|
    ensures Accounted(RemoveEntry(s, k))
  {
    var p := s.cache[k];
    var s1 := s.(cache := s.cache[..k] + s.cache[k + 1..], alive := s.alive[p := s.alive[p].(inCache := false)]);
    assert Accounted(s1);
    if !s.alive[p].inUse {
      FinalizeKeeps(s1, p);
    }
  }

  // The statement at position k leaves the cache; nothing else does, and nothing else is finalized.
  lemma RemoveKeeps(s: Statements, k: nat)
    requires Inv(s) && k < |s.cache|
    ensures var r := RemoveEntry(s, k);
            && r.max == s.max && r.nextPtr == s.nextPtr && r.outstanding == s.outstanding
            && r.cache == s.cache[..k] + s.cache[k + 1..]
            && (forall q :: q in r.alive ==> q in s.alive && r.alive[q].sql == s.alive[q].sql)
            && (!Unmarked(s, s.cache[k]) ==> Inv(r))
            && (Unmarked(s, s.cache[k]) ==>
                  s.cache[k] in r.outstanding && s.cache[k] !in r.alive && s.cache[k] < s.nextPtr)
  {
    RemoveCached(s, k);
    RemoveTracked(s, k);
    RemoveAccounted(s, k);
    assert s.cache[k] in s.alive;
    hide Cached, Tracked;
  }

  // ---------------------------------------------------------------- acquiring

  // A new statement joins, in use and perhaps in the cache.
  ghost function Joined(s: Statements, sql: string, cached: bool): Statements {
    var p := s.nextPtr;
    s.(nextPtr := p + 1,
       alive := s.alive[p := Stmt(sql, cached, true)],
       cache := if cached then s.cache + [p] else s.cache,
       outstanding := s.outstanding + multiset{p})
  }

  // Preparing a statement that is not to be cached.
  lemma PreparedAlone(s: Statements, sql: string, skipCache: bool)
    requires s.nextPtr !in s.alive && (skipCache || !IsCacheable(sql))
    ensures PrepareStatement(s, sql, skipCache, false) == (Joined(s, sql, false), Prepared(s.nextPtr))
  {
    hide IsCacheable;
    var p := s.nextPtr;
    var s2 := s.(nextPtr := p + 1, alive := s.alive[p := Stmt(sql, false, false)]);
    assert MarkInUse(s2, p).alive == s.alive[p := Stmt(sql, false, true)];
  }

  // Preparing one that is comes to making room in the cache and letting it join.
  lemma PreparedCached(s: Statements, sql: string)
    requires Cached(s) && s.max >= 1 && s.nextPtr !in s.alive && IsCacheable(sql)
    ensures PrepareStatement(s, sql, false, false) ==
            (Joined(if |s.cache| == s.max then RemoveEntry(s, 0) else s, sql, true), Prepared(s.nextPtr))
  {
    hide IsCacheable;
    var p := s.nextPtr;
    var s2 := s.(nextPtr := p + 1, alive := s.alive[p := Stmt(sql, false, false)]);
    PutEvicts(s2, p);
    if |s.cache| == s.max {
      EvictionsCommute(s, sql);
      hide EntryRemoved, PutInCache, RemoveEntry, Cached, Joined;
    } else {
      JoinsDirectly(s, sql);
      hide EntryRemoved, PutInCache, RemoveEntry, Cached, Joined;
    }
  }

  lemma JoinsDirectly(s: Statements, sql: string)
    requires s.nextPtr !in s.alive
    ensures var p := s.nextPtr;
            var s2 := s.(nextPtr := p + 1, alive := s.alive[p := Stmt(sql, false, false)]);
            var s3 := SetInCache(s2.(cache := s2.cache + [p]), p);
            MarkInUse(s3, p).(outstanding := s3.outstanding + multiset{p}) == Joined(s, sql, true)
  {
    var p := s.nextPtr;
    var s2 := s.(nextPtr := p + 1, alive := s.alive[p := Stmt(sql, false, false)]);
    assert MarkInUse(SetInCache(s2, p), p).alive == s.alive[p := Stmt(sql, true, true)];
  }

  // Putting a statement into the cache evicts at most the least recently used one.
  lemma PutEvicts(s: Statements, p: nat)
    requires s.max >= 1 && |s.cache| <= s.max
    ensures var s1 := s.(cache := s.cache + [p]);
            PutInCache(s, p) ==
              SetInCache(if |s.cache| == s.max then EntryRemoved(s.(cache := s.cache[1..] + [p]), s.cache[0])
                else s1, p)
  {
    var s1 := s.(cache := s.cache + [p]);
    if |s.cache| == s.max {
      assert s1.cache[1..] == s.cache[1..] + [p];
      var s2 := EntryRemoved(s1.(cache := s1.cache[1..]), s1.cache[0]);
      assert s2.cache == s1.cache[1..];
      assert TrimToSize(s2, s.max) == s2;
    }
  }

  // It does not matter whether the statement joins before or after the eviction.
  lemma EvictionsCommute(s: Statements, sql: string)
    requires Cached(s) && |s.cache| > 0 && s.nextPtr !in s.alive
    ensures var p := s.nextPtr;
            var s2 := s.(nextPtr := p + 1, alive := s.alive[p := Stmt(sql, false, false)], cache := s.cache[1..] + [p]);
            var s3 := SetInCache(EntryRemoved(s2, s.cache[0]), p);
            MarkInUse(s3, p).(outstanding := s3.outstanding + multiset{p}) == Joined(RemoveEntry(s, 0), sql, true)
  {
    var p := s.nextPtr;
    assert s.cache[..0] + s.cache[1..] == s.cache[1..];
    var s2 := s.(nextPtr := p + 1, alive := s.alive[p := Stmt(sql, false, false)], cache := s.cache[1..] + [p]);
    var s3 := SetInCache(EntryRemoved(s2, s.cache[0]), p);
    var r := RemoveEntry(s, 0);
    assert MarkInUse(s3, p).alive == r.alive[p := Stmt(sql, true, true)];
  }

  lemma JoinedCached(s: Statements, sql: string, cached: bool)
    requires Cached(s) && s.nextPtr !in s.alive
    requires cached ==> |s.cache| < s.max && forall i :: 0 <= i < |s.cache| ==> s.alive[s.cache[i]].sql != sql
    ensures Cached(Joined(s, sql, cached))
  {
    var c := Joined(s, sql, cached).cache;
    assert forall q :: q in c <==> q in s.cache || (cached && q == s.nextPtr);
    assert s.nextPtr !in s.cache;
  }

  lemma JoinedTracked(s: Statements, sql: string, cached: bool)
    requires Tracked(s) && s.nextPtr !in s.alive
    ensures Tracked(Joined(s, sql, cached))
  {
    assert s.outstanding[s.nextPtr] == 0;
    assert Joined(s, sql, cached).outstanding[s.nextPtr] == 1;
  }

  lemma JoinedAccounted(s: Statements, sql: string, cached: bool)
    requires Accounted(s)
    ensures Accounted(Joined(s, sql, cached)) && s.nextPtr !in s.alive
  {
  }

  lemma JoinedKeeps(s: Statements, sql: string, cached: bool)
    requires Inv(s)
    requires cached ==> |s.cache| < s.max && forall i :: 0 <= i < |s.cache| ==>
               s.cache[i] in s.alive && s.alive[s.cache[i]].sql != sql
    ensures Inv(Joined(s, sql, cached))
  {
    hide Cached, Tracked, Accounted;
    JoinedAccounted(s, sql, cached);
    JoinedTracked(s, sql, cached);
    JoinedCached(s, sql, cached);
  }

  lemma {:induction false} NotFound(s: Statements, sql: string, i: nat)
    requires Cached(s) && i <= |s.cache| && Find(s, sql, i) == |s.cache|
    ensures forall j :: i <= j < |s.cache| ==> s.alive[s.cache[j]].sql != sql
    decreases |s.cache| - i
  {
  }

  // A statement that is outstanding but finalized stays so when another one joins.
  lemma JoinedBroken(s: Statements, sql: string, cached: bool, p: nat)
    requires p in s.outstanding && p !in s.alive && p != s.nextPtr
    ensures !Inv(Joined(s, sql, cached))
  {
    assert p in Joined(s, sql, cached).outstanding;
  }

  lemma HandedOut(s: Statements, k: nat)
    requires Inv(s) && k < |s.cache| && !s.alive[s.cache[k]].inUse
    ensures Inv(s.(outstanding := s.outstanding + multiset{s.cache[k]}))
  {
  }

  lemma SameCache(s: Statements, s': Statements)
    requires Inv(s) && Accounted(s')
    requires s'.cache == s.cache && s'.alive == s.alive && s'.outstanding == s.outstanding && s'.max == s.max
    ensures Inv(s')
  {
    hide Accounted;
  }

  lemma LeakAccounted(s: Statements)
    requires Accounted(s)
    ensures Accounted(s.(nextPtr := s.nextPtr + 1, leaked := s.leaked + {s.nextPtr}))
  {
  }

  lemma DropAccounted(s: Statements)
    requires Accounted(s)
    ensures Accounted(s.(nextPtr := s.nextPtr + 1, finalized := s.finalized + [s.nextPtr]))
  {
    var f := s.finalized + [s.nextPtr];
    assert s.nextPtr !in s.finalized;
    forall q ensures q in f <==> q in s.finalized || q == s.nextPtr {}
    forall i, j | 0 <= i < j < |f| ensures f[i] != f[j] {
      assert f[i] == s.finalized[i] && f[i] in s.finalized;
    }
  }

  lemma NotPrepared(s: Statements, sql: string, skipCache: bool)
    requires Inv(s)
    ensures Inv(PrepareStatement(s, sql, skipCache, true).0)
  {
    LeakAccounted(s);
    DropAccounted(s);
    SameCache(s, PrepareStatement(s, sql, skipCache, true).0);
  }

  lemma NextUnused(s: Statements)
    requires Inv(s)
    ensures Cached(s) && s.max >= 1 && s.nextPtr !in s.alive
  {
  }

  lemma NotFoundInv(s: Statements, sql: string)
    requires Inv(s) && Find(s, sql, 0) == |s.cache|
    ensures |s.cache| <= s.max && s.max >= 1
    ensures forall j :: 0 <= j < |s.cache| ==> s.cache[j] in s.alive && s.alive[s.cache[j]].sql != sql
  {
    NotFound(s, sql, 0);
  }

  // A statement is prepared for a text that is not in the cache.
  lemma NewKeeps(s: Statements, sql: string)
    requires Inv(s) && Find(s, sql, 0) == |s.cache|
    ensures Inv(PrepareStatement(s, sql, false, false).0) <==>
              !(IsCacheable(sql) && |s.cache| == s.max && |s.cache| > 0 && Unmarked(s, s.cache[0]))
  {
    hide Inv, Cached, IsCacheable, PrepareStatement, RemoveEntry, Joined, Unmarked;
    NextUnused(s);
    NotFoundInv(s, sql);
    if !IsCacheable(sql) {
      PreparedAlone(s, sql, false);
      JoinedKeeps(s, sql, false);
    } else {
      PreparedCached(s, sql);
      if |s.cache| == s.max {
        RemoveKeeps(s, 0);
        if Unmarked(s, s.cache[0]) {
          JoinedBroken(RemoveEntry(s, 0), sql, true, s.cache[0]);
        } else {
          forall i | 0 <= i < |RemoveEntry(s, 0).cache| ensures RemoveEntry(s, 0).cache[i] == s.cache[i + 1] {}
          InCache(RemoveEntry(s, 0));
          JoinedKeeps(RemoveEntry(s, 0), sql, true);
        }
      } else {
        JoinedKeeps(s, sql, true);
      }
    }
  }

  lemma InCache(s: Statements)
    requires Inv(s)
    ensures forall i :: 0 <= i < |s.cache| ==> s.cache[i] in s.alive
  {
  }

  // The cached statement for the text is in use, so another one is prepared beside it.
  lemma SkippedKeeps(s: Statements, sql: string)
    requires Inv(s)
    ensures Inv(PrepareStatement(s, sql, true, false).0)
  {
    NextUnused(s);
    PreparedAlone(s, sql, true);
    JoinedKeeps(s, sql, false);
  }

  lemma AcquireKeeps(s: Statements, sql: string, prepareFails: bool, inspectFails: bool)
    requires Inv(s)
    ensures Inv(AcquireStatement(s, sql, prepareFails, inspectFails).0) <==>
              !Breaks(s, Acquire(sql, prepareFails, inspectFails))
  {
    hide Inv, IsCacheable, PrepareStatement, Find;
    var k := Find(s, sql, 0);
    var s1 := Touch(s, k);
    TouchKeeps(s, k);
    CacheBound(s);
    if k < |s.cache| {
      assert s1.cache[|s1.cache| - 1] == s.cache[k];
      if !s.alive[s.cache[k]].inUse {
        HandedOut(s1, |s1.cache| - 1);
      } else if !prepareFails {
        NotPrepared(s1, sql, true);
        SkippedKeeps(s1, sql);
      }
    } else {
      NotPrepared(s, sql, false);
      NewKeeps(s, sql);
    }
  }

  lemma CacheBound(s: Statements)
    requires Inv(s)
    ensures |s.cache| <= s.max && s.max >= 1
    ensures forall i :: 0 <= i < |s.cache| ==> s.cache[i] in s.alive
  {
  }

  // ---------------------------------------------------------------- releasing and closing

  lemma {:induction false} FindsEntry(s: Statements, k: nat, i: nat)
    requires Cached(s) && i <= k < |s.cache|
    ensures Find(s, s.alive[s.cache[k]].sql, i) == k
    decreases k - i
  {
    if i < k {
      FindsEntry(s, k, i + 1);
    }
  }

  // A statement that is neither in the cache nor outstanding any more is finalized.
  lemma ReleaseUncached(s: Statements, p: nat)
    requires Inv(s) && p in s.outstanding && p in s.alive && !s.alive[p].inCache
    ensures Inv(ReleaseStatement(s, p, false)) && ReleaseStatement(s, p, true) == ReleaseStatement(s, p, false)
  {
    var s1 := s.(alive := s.alive[p := s.alive[p].(inUse := false)], outstanding := s.outstanding - multiset{p});
    assert p !in s1.outstanding;
    FinalizeKeeps(s1, p);
  }

  lemma ReleaseCached(s: Statements, p: nat)
    requires Inv(s) && p in s.outstanding && p in s.alive && s.alive[p].inCache
    ensures var s1 := s.(alive := s.alive[p := s.alive[p].(inUse := false)],
                         outstanding := s.outstanding - multiset{p});
            Inv(s1) && (Unmarked(s1, p) <==> s.outstanding[p] >= 2)
  {
  }

  lemma ReleaseKeeps(s: Statements, p: nat, resetFails: bool)
    requires Inv(s) && Possible(s, Release(p, resetFails))
    ensures Inv(ReleaseStatement(s, p, resetFails)) <==> !Breaks(s, Release(p, resetFails))
  {
    if !s.alive[p].inCache {
      ReleaseUncached(s, p);
    } else {
      ReleaseCached(s, p);
      var s1 := s.(alive := s.alive[p := s.alive[p].(inUse := false)], outstanding := s.outstanding - multiset{p});
      assert p in s1.cache;
      var k :| 0 <= k < |s1.cache| && s1.cache[k] == p;
      FindsEntry(s1, k, 0);
      RemoveKeeps(s1, k);
      if resetFails && s.outstanding[p] >= 2 {
        NotAlive(RemoveEntry(s1, k), p);
      }
    }
  }

  lemma NotAlive(s: Statements, p: nat)
    requires p in s.outstanding && p !in s.alive
    ensures !Inv(s)
  {
  }

  lemma TrimOne(s: Statements)
    requires |s.cache| > 0
    ensures TrimToSize(s, -1) == TrimToSize(RemoveEntry(s, 0), -1)
  {
    assert s.cache[..0] + s.cache[1..] == s.cache[1..];
  }

  lemma {:induction false} StaysBroken(s: Statements, p: nat)
    requires p in s.outstanding && p !in s.alive
    ensures p in TrimToSize(s, -1).outstanding && p !in TrimToSize(s, -1).alive
    decreases |s.cache|
  {
    if s.cache != [] {
      StaysBroken(EntryRemoved(s.(cache := s.cache[1..]), s.cache[0]), p);
    }
  }

  lemma {:induction false} DisposeKeeps(s: Statements)
    requires Inv(s)
    ensures Inv(DisposeStatements(s)) <==> !Breaks(s, Dispose)
    ensures !Breaks(s, Dispose) ==>
              DisposeStatements(s).cache == [] && DisposeStatements(s).outstanding == s.outstanding
    decreases |s.cache|
  {
    if s.cache != [] {
      TrimOne(s);
      RemoveKeeps(s, 0);
      var r := RemoveEntry(s, 0);
      assert r.cache == s.cache[1..];
      if Unmarked(s, s.cache[0]) {
        StaysBroken(r, s.cache[0]);
        NotAlive(DisposeStatements(s), s.cache[0]);
        assert s.cache[0] in s.cache;
      } else {
        StillUnmarked(s);
        DisposeKeeps(r);
      }
    }
  }

  lemma FirstApart(s: Statements)
    requires Inv(s) && s.cache != []
    ensures s.cache[0] in s.alive && s.cache[0] !in s.cache[1..] && (forall p :: p in s.cache ==> p in s.alive)
    ensures forall p :: p in s.cache <==> p == s.cache[0] || p in s.cache[1..]
  {
    assert s.cache == [s.cache[0]] + s.cache[1..];
  }

  lemma StillUnmarked(s: Statements)
    requires Inv(s) && s.cache != [] && !Unmarked(s, s.cache[0])
    ensures Breaks(s, Dispose) <==> Breaks(RemoveEntry(s, 0), Dispose)
  {
    hide Inv, RemoveEntry, Unmarked;
    FirstApart(s);
    RemoveSpares(s);
  }

  lemma RemoveSpares(s: Statements)
    requires s.cache != [] && s.cache[0] in s.alive && s.cache[0] !in s.cache[1..]
    ensures RemoveEntry(s, 0).cache == s.cache[1..]
    ensures forall p :: p in s.cache[1..] ==> (Unmarked(s, p) <==> Unmarked(RemoveEntry(s, 0), p))
  {
    assert s.cache[..0] + s.cache[1..] == s.cache[1..];
  }

  // ---------------------------------------------------------------- the theorems

  /**
   A step keeps every statement from being finalized while it is outstanding, and everything
   else accounted for, exactly if it is not one of the steps told in `Breaks`.
   */
  lemma StepExactly(s: Statements, op: Op)
    requires Inv(s) && Possible(s, op)
    ensures Inv(Step(s, op)) <==> !Breaks(s, op)
  {
    hide Inv, Breaks;
    match op
    case Acquire(sql, prepareFails, inspectFails) => AcquireKeeps(s, sql, prepareFails, inspectFails);
    case Release(p, resetFails) => ReleaseKeeps(s, p, resetFails);
    case Peek(sql) => PeekKeeps(s, sql);
    case Dispose => DisposeKeeps(s);
  }

  lemma PeekKeeps(s: Statements, sql: string)
    requires Inv(s)
    ensures Inv(Touch(s, Find(s, sql, 0))) && !Breaks(s, Peek(sql))
  {
    TouchKeeps(s, Find(s, sql, 0));
  }

  // No statement is outstanding twice.
  ghost predicate Once(s: Statements) {
    forall p :: s.outstanding[p] <= 1
  }

  /** No acquire, and no close, happens while a statement handed out of the cache is outstanding. */
  ghost predicate Disciplined(s: Statements, op: Op) {
    op.Acquire? || op.Dispose? ==> forall p :: p in s.outstanding ==> !Unmarked(s, p)
  }

  lemma DisciplineSuffices(s: Statements, op: Op)
    requires Inv(s) && Once(s) && Possible(s, op) && Disciplined(s, op)
    ensures !Breaks(s, op) && Once(Step(s, op))
  {
    match op
    case Acquire(sql, prepareFails, inspectFails) =>
      AcquiredOnce(s, sql, prepareFails, inspectFails);
    case Release(p, resetFails) =>
      ReleasedOutstanding(s, p, resetFails);
    case Peek(sql) =>
    case Dispose =>
      DisposeKeeps(s);
  }

  lemma ReleasedOutstanding(s: Statements, p: nat, resetFails: bool)
    requires p in s.alive
    ensures ReleaseStatement(s, p, resetFails).outstanding == s.outstanding - multiset{p}
  {
  }

  lemma AcquiredOnce(s: Statements, sql: string, prepareFails: bool, inspectFails: bool)
    requires Inv(s) && Once(s) && forall p :: p in s.outstanding ==> !Unmarked(s, p)
    ensures Once(AcquireStatement(s, sql, prepareFails, inspectFails).0)
  {
    var k := Find(s, sql, 0);
    var s1 := Touch(s, k);
    TouchKeeps(s, k);
    hide IsCacheable;
    if !(k < |s.cache| && !s.alive[s.cache[k]].inUse) && !prepareFails && !inspectFails {
      NextUnused(s1);
      var skipCache := k < |s.cache|;
      if !skipCache && IsCacheable(sql) {
        PreparedCached(s1, sql);
        if |s1.cache| == s1.max {
          RemoveKeeps(s1, 0);
        }
      } else {
        PreparedAlone(s1, sql, skipCache);
      }
      assert s1.nextPtr !in s1.outstanding;
      hide Inv, Find, Touch, PrepareStatement, RemoveEntry;
    }
  }

  ghost predicate PossibleRun(s: Statements, ops: seq<Op>)
    decreases |ops|
  {
    ops == [] || (Possible(s, ops[0]) && PossibleRun(Step(s, ops[0]), ops[1..]))
  }

  function Run(s: Statements, ops: seq<Op>): Statements
    requires PossibleRun(s, ops)
    decreases |ops|
  {
    if ops == [] then s else Run(Step(s, ops[0]), ops[1..])
  }

  /** Some step of the run finalizes a statement that is outstanding. */
  ghost predicate EverBreaks(s: Statements, ops: seq<Op>)
    requires PossibleRun(s, ops)
    decreases |ops|
  {
    ops != [] && (Breaks(s, ops[0]) || EverBreaks(Step(s, ops[0]), ops[1..]))
  }

  // A statement that was handed out and not given back has been finalized.
  ghost predicate Harmed(s: Statements) {
    exists p :: p in s.outstanding && p in s.finalized
  }

  ghost predicate EverHarmed(s: Statements, ops: seq<Op>)
    requires PossibleRun(s, ops)
    decreases |ops|
  {
    Harmed(s) || (ops != [] && EverHarmed(Step(s, ops[0]), ops[1..]))
  }

  lemma {:induction false} RunKeeps(s: Statements, ops: seq<Op>)
    requires Inv(s) && PossibleRun(s, ops) && !EverBreaks(s, ops)
    ensures Inv(Run(s, ops))
    decreases |ops|
  {
    hide Inv, Step, Breaks;
    if ops != [] {
      StepExactly(s, ops[0]);
      RunKeeps(Step(s, ops[0]), ops[1..]);
    }
  }

  // An unmarked statement that leaves the cache is finalized.
  lemma RemovalHarms(s: Statements, k: nat)
    requires k < |s.cache| && Unmarked(s, s.cache[k])
    ensures s.cache[k] in RemoveEntry(s, k).finalized && RemoveEntry(s, k).outstanding == s.outstanding
  {
  }

  lemma {:induction false} StaysFinalized(s: Statements, p: nat)
    requires p in s.finalized
    ensures p in TrimToSize(s, -1).finalized && TrimToSize(s, -1).outstanding == s.outstanding
    decreases |s.cache|
  {
    if s.cache != [] {
      StaysFinalized(EntryRemoved(s.(cache := s.cache[1..]), s.cache[0]), p);
    }
  }

  lemma {:induction false} TrimHarms(s: Statements)
    requires Inv(s) && Breaks(s, Dispose)
    ensures Harmed(TrimToSize(s, -1))
    decreases |s.cache|
  {
    TrimOne(s);
    var r := RemoveEntry(s, 0);
    if Unmarked(s, s.cache[0]) {
      RemovalHarms(s, 0);
      StaysFinalized(r, s.cache[0]);
    } else {
      StillUnmarked(s);
      RemoveKeeps(s, 0);
      assert r.cache == s.cache[1..];
      hide Inv, Breaks, RemoveEntry;
      TrimHarms(r);
    }
  }

  lemma BreaksHarms(s: Statements, op: Op)
    requires Inv(s) && Possible(s, op) && Breaks(s, op)
    ensures Harmed(Step(s, op))
  {
    match op
    case Acquire(sql, prepareFails, inspectFails) =>
      NextUnused(s);
      RemovalHarms(s, 0);
      PreparedCached(s, sql);
      hide Inv, RemoveEntry, PrepareStatement, IsCacheable;
      assert s.cache[0] in AcquireStatement(s, sql, false, false).0.outstanding;
    case Release(p, resetFails) =>
      ReleaseCached(s, p);
      var s1 := s.(alive := s.alive[p := s.alive[p].(inUse := false)], outstanding := s.outstanding - multiset{p});
      var k :| 0 <= k < |s1.cache| && s1.cache[k] == p;
      FindsEntry(s1, k, 0);
      RemovalHarms(s1, k);
      hide Inv, RemoveEntry;
      assert p in ReleaseStatement(s, p, resetFails).outstanding;
    case Dispose =>
      TrimHarms(s);
  }

  lemma InvUnharmed(s: Statements)
    requires Inv(s)
    ensures !Harmed(s)
  {
  }

  lemma {:induction false} HarmedExactly(s: Statements, ops: seq<Op>)
    requires Inv(s) && PossibleRun(s, ops)
    ensures EverHarmed(s, ops) <==> EverBreaks(s, ops)
    decreases |ops|
  {
    hide Inv, Step, Breaks, Harmed;
    InvUnharmed(s);
    if ops != [] {
      StepExactly(s, ops[0]);
      if Breaks(s, ops[0]) {
        BreaksHarms(s, ops[0]);
        assert EverHarmed(Step(s, ops[0]), ops[1..]);
      } else {
        HarmedExactly(Step(s, ops[0]), ops[1..]);
      }
    }
  }

  /** In a run a statement is ever finalized while it is outstanding exactly if it takes one of those steps. */
  lemma RunHarmsExactly(max: int, ops: seq<Op>)
    requires max >= 1 && PossibleRun(NewStatements(max), ops)
    ensures EverHarmed(NewStatements(max), ops) <==> EverBreaks(NewStatements(max), ops)
  {
    NewInv(max);
    HarmedExactly(NewStatements(max), ops);
  }

  // What a run that harms no statement comes to.
  ghost predicate AllAccounted(s: Statements) {
    && (forall i, j :: 0 <= i < j < |s.finalized| ==> s.finalized[i] != s.finalized[j])
    && (forall p :: p in s.outstanding ==> p !in s.finalized)
    && (s.outstanding == multiset{} ==>
          var c := DisposeStatements(s);
          c.alive == map[] && forall p: nat :: p < c.nextPtr <==> p in c.finalized || p in c.leaked)
  }

  /**
   In a run without such a step no statement is finalized twice or while it is outstanding, and
   if none is outstanding at the close, every statement ever prepared has been finalized, but
   for those leaked.
   */
  lemma FinalizedUnlessBroken(max: int, ops: seq<Op>)
    requires max >= 1 && PossibleRun(NewStatements(max), ops) && !EverBreaks(NewStatements(max), ops)
    ensures AllAccounted(Run(NewStatements(max), ops))
  {
    var s := Run(NewStatements(max), ops);
    NewInv(max);
    RunKeeps(NewStatements(max), ops);
    hide Inv, PossibleRun, EverBreaks, DisposeStatements;
    InvMeans(s);
    if s.outstanding == multiset{} {
      DisposeKeeps(s);
      ClosedEmpty(DisposeStatements(s));
      InvMeans(DisposeStatements(s));
    }
  }

  ghost predicate DisciplinedRun(s: Statements, ops: seq<Op>)
    decreases |ops|
  {
    ops == [] || (Possible(s, ops[0]) && Disciplined(s, ops[0]) && DisciplinedRun(Step(s, ops[0]), ops[1..]))
  }

  lemma {:induction false} DisciplinedNeverBreaks(s: Statements, ops: seq<Op>)
    requires Inv(s) && Once(s) && DisciplinedRun(s, ops)
    ensures PossibleRun(s, ops) && !EverBreaks(s, ops)
    decreases |ops|
  {
    hide Inv, Once, Step, Breaks;
    if ops != [] {
      DisciplineSuffices(s, ops[0]);
      StepExactly(s, ops[0]);
      DisciplinedNeverBreaks(Step(s, ops[0]), ops[1..]);
    }
  }

  /** It is enough that no acquire, and no close, happens while a statement handed out of the cache is outstanding. */
  lemma FinalizedExactlyOnce(max: int, ops: seq<Op>)
    requires max >= 1 && DisciplinedRun(NewStatements(max), ops)
    ensures PossibleRun(NewStatements(max), ops) && AllAccounted(Run(NewStatements(max), ops))
  {
    NewInv(max);
    DisciplinedNeverBreaks(NewStatements(max), ops);
    FinalizedUnlessBroken(max, ops);
  }

  lemma NewInv(max: int)
    requires max >= 1
    ensures Inv(NewStatements(max)) && Once(NewStatements(max))
  {
  }

  lemma InvMeans(s: Statements)
    requires Inv(s)
    ensures forall i, j :: 0 <= i < j < |s.finalized| ==> s.finalized[i] != s.finalized[j]
    ensures forall p :: p in s.outstanding ==> p !in s.finalized
    ensures forall p: nat :: p < s.nextPtr <==> p in s.alive || p in s.finalized || p in s.leaked
  {
  }

  lemma ClosedEmpty(s: Statements)
    requires Inv(s) && s.cache == [] && s.outstanding == multiset{}
    ensures s.alive == map[]
  {
    assert forall p :: p in s.alive ==> p !in s.cache && s.outstanding[p] == 0;
    assert s.alive.Keys == {};
  }

  /** A statement leaks exactly if its inspection throws while the cached statement for the same text is in use. */
  lemma LeaksExactly(s: Statements, op: Op)
    requires Inv(s) && Possible(s, op)
    ensures Step(s, op).leaked != s.leaked <==>
              op.Acquire? && !op.prepareFails && op.inspectFails
              && exists p :: p in s.cache && s.alive[p].sql == op.sql && s.alive[p].inUse
  {
    hide Inv, AcquireStatement;
    match op
    case Acquire(sql, prepareFails, inspectFails) =>
      AcquireLeaks(s, sql, prepareFails, inspectFails);
    case Release(p, resetFails) =>
    case Peek(sql) =>
    case Dispose => TrimLeaks(s);
  }

  lemma {:induction false} TrimLeaks(s: Statements)
    ensures TrimToSize(s, -1).leaked == s.leaked
    decreases |s.cache|
  {
    if s.cache != [] {
      TrimLeaks(EntryRemoved(s.(cache := s.cache[1..]), s.cache[0]));
    }
  }

  // Whether the search finds a statement in use is whether there is one.
  lemma FindsInUse(s: Statements, sql: string)
    requires Inv(s)
    ensures var k := Find(s, sql, 0);
            (k < |s.cache| && s.alive[s.cache[k]].inUse) <==>
              exists p :: p in s.cache && s.alive[p].sql == sql && s.alive[p].inUse
  {
    var k := Find(s, sql, 0);
    CacheBound(s);
    if k < |s.cache| {
      assert s.cache[k] in s.cache;
    }
    if p :| p in s.cache && s.alive[p].sql == sql && s.alive[p].inUse {
      var j :| 0 <= j < |s.cache| && s.cache[j] == p;
      FindsEntry(s, j, 0);
    }
  }

  lemma PrepareLeaks(s: Statements, sql: string, skipCache: bool, inspectFails: bool)
    requires Inv(s)
    ensures PrepareStatement(s, sql, skipCache, inspectFails).0.leaked ==
            if inspectFails && skipCache then s.leaked + {s.nextPtr} else s.leaked
    ensures s.nextPtr !in s.leaked
  {
    NextUnused(s);
    hide IsCacheable;
    if !inspectFails {
      if !skipCache && IsCacheable(sql) {
        PreparedCached(s, sql);
      } else {
        PreparedAlone(s, sql, skipCache);
      }
    }
  }

  lemma AcquireLeaks(s: Statements, sql: string, prepareFails: bool, inspectFails: bool)
    requires Inv(s)
    ensures AcquireStatement(s, sql, prepareFails, inspectFails).0.leaked != s.leaked <==>
              !prepareFails && inspectFails && exists p :: p in s.cache && s.alive[p].sql == sql && s.alive[p].inUse
  {
    var k := Find(s, sql, 0);
    var s1 := Touch(s, k);
    TouchKeeps(s, k);
    FindsInUse(s, sql);
    PrepareLeaks(s1, sql, k < |s.cache|, inspectFails);
    assert s1.nextPtr !in s1.leaked;
    hide Inv, Find, PrepareStatement;
  }

  /** A text that is acquired twice over, and whose second inspection throws, leaves a statement behind for good. */
  lemma SecondInspectionLeaks(a: string)
    requires IsCacheable(a)
    ensures var s := Step(NewStatements(1), Acquire(a, false, false));
            var s' := Step(s, Acquire(a, false, true));
            s.outstanding == multiset{0} && s'.leaked == {1} && s'.finalized == [] && s'.alive == s.alive
  {
    hide IsCacheable;
    PreparedCached(NewStatements(1), a);
    var s := OneCached(a, true, multiset{0});
    assert NewStatements(1).cache + [0] == [0];
    assert Step(NewStatements(1), Acquire(a, false, false)) == s;
    assert Find(s, a, 0) == 0 && Touch(s, 0) == s;
  }

  /**
   With a cache for one statement, two texts are enough: the second acquire of the first text is
   not safe from the second text.
   */
  lemma HitThenAcquire(a: string, b: string)
    requires IsCacheable(a) && IsCacheable(b) && a != b
    ensures var s1 := Step(NewStatements(1), Acquire(a, false, false));
            Possible(s1, Release(0, false)) &&
            var s2 := Step(s1, Release(0, false));
            var s3 := Step(s2, Acquire(a, false, false));
            var s4 := Step(s3, Acquire(b, false, false));
            s3.outstanding == multiset{0} && 0 in s4.outstanding && s4.finalized == [0]
  {
    hide IsCacheable;
    PreparedCached(NewStatements(1), a);
    assert Step(NewStatements(1), Acquire(a, false, false)) == Joined(NewStatements(1), a, true);
    HitAfterRelease(a, b);
  }

  // The one statement in the cache: handed out for the first time, given back, handed out again.
  ghost function OneCached(a: string, inUse: bool, outstanding: multiset<nat>): Statements {
    Statements(1, [0], map[0 := Stmt(a, true, inUse)], 1, outstanding, [], {})
  }

  lemma HitAfterRelease(a: string, b: string)
    requires IsCacheable(b) && a != b
    ensures Joined(NewStatements(1), a, true) == OneCached(a, true, multiset{0})
    ensures Step(OneCached(a, true, multiset{0}), Release(0, false)) == OneCached(a, false, multiset{})
    ensures Step(OneCached(a, false, multiset{}), Acquire(a, false, false)) == OneCached(a, false, multiset{0})
    ensures var s := Step(OneCached(a, false, multiset{0}), Acquire(b, false, false));
            0 in s.outstanding && s.finalized == [0]
  {
    hide IsCacheable;
    assert NewStatements(1).cache + [0] == [0];
    var s2, s3 := OneCached(a, false, multiset{}), OneCached(a, false, multiset{0});
    assert Find(s2, a, 0) == 0 && Touch(s2, 0) == s2;
    assert Find(s3, b, 0) == 1;
    PreparedCached(s3, b);
  }
}
