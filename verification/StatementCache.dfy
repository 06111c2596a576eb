/**
 The prepared statements of a SQLiteConnection in place: statement objects whose flags change,
 an LRU cache of them, and a list of objects to be used again. `model` is the same as a value.
 */
module StatementCache {
  import Spec = StatementCacheSpec
  import opened StatementCacheRuns
  import StatementCacheOrder

  class PreparedStatement {
    var poolNext: PreparedStatement?
    var sql: string
    var statementPtr: nat
    var inCache: bool
    var inUse: bool

    constructor ()
      ensures poolNext == null && !inCache && !inUse
    {
      poolNext, sql, statementPtr, inCache, inUse := null, "", 0, false, false;
    }

    ghost function View(): Spec.Stmt
      reads this
    {
      Spec.Stmt(sql, inCache, inUse)
    }
  }

  // A list of distinct objects linked through the pool, from `head` on, none of them in use.
  ghost predicate Linked(head: PreparedStatement?, chain: seq<PreparedStatement>)
    reads chain
  {
    if chain == [] then head == null
    else head == chain[0] && chain[0] !in chain[1..] && !chain[0].inUse && Linked(chain[0].poolNext, chain[1..])
  }

  // What the objects for the living statements say of them.
  ghost function Views(objects: map<nat, PreparedStatement>): map<nat, Spec.Stmt>
    reads objects.Values
  {
    map p | p in objects :: objects[p].View()
  }

  ghost predicate Pointers(objects: map<nat, PreparedStatement>)
    reads objects.Values
  {
    forall p :: p in objects ==> objects[p].statementPtr == p
  }

  class PreparedStatements {
    const max: int
    var cache: seq<PreparedStatement>       // least recently used first; the key is the text of the statement
    var pool: PreparedStatement?
    var nextPtr: nat                        // the native library never gives out a pointer twice

    ghost var model: Spec.Statements
    ghost var objects: map<nat, PreparedStatement>
    ghost var free: seq<PreparedStatement>

    ghost predicate Fields()
      reads this
    {
      && max == model.max && nextPtr == model.nextPtr
      && |cache| == |model.cache|
      && (forall i :: 0 <= i < |cache| ==> model.cache[i] in objects && cache[i] == objects[model.cache[i]])
      && (forall p, q :: p in objects && q in objects && p != q ==> objects[p] != objects[q])
      && (forall p :: p in objects ==> objects[p] !in free)
    }

    ghost predicate Valid()
      reads this, objects.Values, free
    {
      Fields() && Pointers(objects) && Views(objects) == model.alive && Linked(pool, free)
    }

    constructor (max: int)
      requires max >= 1
      ensures Valid() && Inv(model) && model == Spec.NewStatements(max) && objects == map[] && free == []
    {
      this.max := max;
      cache, pool, nextPtr := [], null, 0;
      model, objects, free := Spec.NewStatements(max), map[], [];
    }

    // ---------------------------------------------------------------- statement objects

    // An object off the list, or a new one.
    method TakePreparedStatement() returns (statement: PreparedStatement)
      requires Linked(pool, free)
      modifies this`pool, this`free, free
      ensures Linked(pool, free) && statement !in free && !statement.inCache && !statement.inUse
      ensures fresh(statement) || statement in old(free)
      ensures forall t :: t in free ==> t in old(free)
      ensures forall t :: t in old(free) && t != statement ==> unchanged(t)
    {
      if pool != null {
        statement := pool;
        assert free[0] in free;
        pool := statement.poolNext;
        free := free[1..];
        statement.poolNext := null;
        statement.inCache := false;
      } else {
        statement := new PreparedStatement();
      }
    }

    // Fills an object in for the next native statement.
    method FillPreparedStatement(statement: PreparedStatement, sql: string)
      requires Valid() && nextPtr !in objects && !statement.inCache && !statement.inUse
      requires statement !in free && forall p :: p in objects ==> objects[p] != statement
      modifies this`objects, this`nextPtr, this`model, statement`sql, statement`statementPtr
      ensures Valid() && objects == old(objects)[old(nextPtr) := statement] && statement.statementPtr == old(nextPtr)
      ensures model ==
                old(model).(nextPtr := old(nextPtr) + 1,
                            alive := old(model).alive[old(nextPtr) := Spec.Stmt(sql, false, false)])
    {
      statement.sql := sql;
      statement.statementPtr := nextPtr;
      objects := objects[nextPtr := statement];
      model := model.(nextPtr := nextPtr + 1, alive := model.alive[nextPtr := Spec.Stmt(sql, false, false)]);
      nextPtr := nextPtr + 1;
      assert Views(objects) == model.alive;
    }

    method ObtainPreparedStatement(sql: string) returns (statement: PreparedStatement)
      requires Valid() && nextPtr !in objects
      modifies this`pool, this`free, this`objects, this`nextPtr, this`model, free
      ensures Valid() && objects == old(objects)[old(nextPtr) := statement] &&
              (fresh(statement) || statement in old(free))
      ensures statement.statementPtr == old(nextPtr)
      ensures model ==
                old(model).(nextPtr := old(nextPtr) + 1,
                            alive := old(model).alive[old(nextPtr) := Spec.Stmt(sql, false, false)])
      ensures forall t :: t in free ==> t in old(free)
    {
      statement := TakePreparedStatement();
      assert Views(objects) == model.alive && Pointers(objects);
      FillPreparedStatement(statement, sql);
    }

    // Gives the native statement back and keeps the object for another one.
    method FinalizePreparedStatement(statement: PreparedStatement)
      requires Valid() && statement.statementPtr in objects && objects[statement.statementPtr] == statement
      requires statement.statementPtr !in model.cache && !statement.inUse
      modifies this`pool, this`free, this`objects, this`model, statement
      ensures Valid() && model == Spec.FinalizeStatement(old(model), old(statement.statementPtr))
      ensures objects == old(objects) - {old(statement.statementPtr)} && free == [statement] + old(free)
    {
      var p := statement.statementPtr;
      model := Spec.FinalizeStatement(model, p);
      objects := objects - {p};
      statement.sql := "";
      statement.poolNext := pool;
      pool := statement;
      free := [statement] + free;
      assert free[1..] == old(free);
      assert Views(objects) == model.alive;
    }

    method EntryRemoved(statement: PreparedStatement)
      requires Valid() && statement.statementPtr in objects && objects[statement.statementPtr] == statement
      requires statement.statementPtr !in model.cache
      modifies this`pool, this`free, this`objects, this`model, statement
      ensures Valid() && model == Spec.EntryRemoved(old(model), old(statement.statementPtr))
      ensures objects == old(objects) || objects == old(objects) - {old(statement.statementPtr)}
      ensures free == old(free) || free == [statement] + old(free)
    {
      statement.inCache := false;
      ghost var p := statement.statementPtr;
      model := model.(alive := model.alive[p := model.alive[p].(inCache := false)]);
      assert Views(objects) == model.alive;
      if !statement.inUse {
        FinalizePreparedStatement(statement);
      }
    }

    // ---------------------------------------------------------------- the LRU cache

    // The place of the statement for this text, the size of the cache if there is none.
    method IndexOf(sql: string) returns (i: nat)
      requires Valid()
      ensures i == Spec.Find(model, sql, 0)
    {
      i := 0;
      while i < |cache|
        invariant i <= |cache| && Spec.Find(model, sql, 0) == Spec.Find(model, sql, i)
      {
        assert Views(objects)[model.cache[i]] == cache[i].View();
        if cache[i].sql == sql {
          return;
        }
        i := i + 1;
      }
    }

    // Makes the statement at position i the most recently used one.
    method MoveToEnd(i: nat) returns (statement: PreparedStatement)
      requires Valid() && i < |cache|
      modifies this`cache, this`model
      ensures Valid() && model == Spec.Touch(old(model), i) && statement == objects[old(model).cache[i]]
    {
      statement := cache[i];
      ghost var c := model.cache;
      cache := cache[..i] + cache[i + 1..] + [statement];
      model := Spec.Touch(model, i);
      TouchedMembers(c, i);
      assert forall j :: 0 <= j < |cache| ==>
        cache[j] == old(cache)[if j < i then j else if j < |cache| - 1 then j + 1 else i];
    }

    // LruCache.get: the statement for this text, which becomes the most recently used one.
    method Get(sql: string) returns (statement: PreparedStatement?)
      requires Valid()
      modifies this`cache, this`model
      ensures Valid() && var k := Spec.Find(old(model), sql, 0);
              && model == Spec.Touch(old(model), k)
              && statement == if k < |old(model).cache| then objects[old(model).cache[k]] else null
    {
      hide Spec.Find;
      Counters();
      var i := IndexOf(sql);
      if i == |cache| {
        return null;
      }
      statement := MoveToEnd(i);
    }

    // Takes the entry at position i out of the map.
    method TakeOut(i: nat) returns (statement: PreparedStatement)
      requires Valid() && i < |cache| && forall j, k :: 0 <= j < k < |model.cache| ==> model.cache[j] != model.cache[k]
      modifies this`cache, this`model
      ensures Valid() && model == old(model).(cache := old(model).cache[..i] + old(model).cache[i + 1..])
      ensures statement == objects[old(model).cache[i]] && statement.statementPtr == old(model).cache[i]
      ensures old(model).cache[i] !in model.cache
    {
      statement := cache[i];
      WithoutOne(model.cache, i);
      assert statement.statementPtr == model.cache[i];
      cache := cache[..i] + cache[i + 1..];
      model := model.(cache := model.cache[..i] + model.cache[i + 1..]);
      assert forall j :: 0 <= j < |cache| ==> cache[j] == old(cache)[if j < i then j else j + 1];
    }

    method EvictEldest()
      requires Valid() && cache != [] && forall i, j :: 0 <= i < j < |model.cache| ==> model.cache[i] != model.cache[j]
      modifies this`cache, this`pool, this`free, this`objects, this`model, objects.Values
      ensures Valid() && |cache| == old(|cache|) - 1
      ensures var s := old(model);
              model == Spec.EntryRemoved(s.(cache := s.cache[1..]), s.cache[0]) && model.cache == s.cache[1..]
      ensures forall p :: p in objects ==> p in old(objects) && objects[p] == old(objects)[p]
      ensures forall t :: t in free ==> t in old(free) || t in old(objects.Values)
    {
      hide Spec.EntryRemoved;
      ghost var s := model;
      var eldest := TakeOut(0);
      assert s.cache[..0] + s.cache[1..] == s.cache[1..];
      EntryRemoved(eldest);
      RemovedCache(s.(cache := s.cache[1..]), s.cache[0]);
    }

    // LruCache.trimToSize.
    method TrimToSize(size: int)
      requires Valid() && (forall i, j :: 0 <= i < j < |model.cache| ==> model.cache[i] != model.cache[j])
      modifies this`cache, this`pool, this`free, this`objects, this`model, objects.Values
      ensures Valid() && model == Spec.TrimToSize(old(model), size)
      ensures forall p :: p in objects ==> p in old(objects) && objects[p] == old(objects)[p]
      ensures forall t :: t in free ==> t in old(free) || t in old(objects.Values)
    {
      hide Spec.EntryRemoved, Pointers, Views, Linked;
      while |cache| > size && cache != []
        invariant Valid() && Spec.TrimToSize(model, size) == Spec.TrimToSize(old(model), size)
        invariant forall i, j :: 0 <= i < j < |model.cache| ==> model.cache[i] != model.cache[j]
        invariant forall p :: p in objects ==> p in old(objects) && objects[p] == old(objects)[p]
        invariant forall t :: t in free ==> t in old(free) || t in old(objects.Values)
        decreases |cache|
      {
        EvictEldest();
      }
    }

    // LruCache.remove.
    method Remove(sql: string)
      requires Valid() && Inv(model)
      modifies this`cache, this`pool, this`free, this`objects, this`model, objects.Values
      ensures Valid() && var k := Spec.Find(old(model), sql, 0);
              model == if k < |old(model).cache| then Spec.RemoveEntry(old(model), k) else old(model)
    {
      hide Spec.EntryRemoved, Spec.Find;
      var i := IndexOf(sql);
      if i < |cache| {
        var statement := TakeOut(i);
        hide Inv;
        EntryRemoved(statement);
      }
    }

    // LruCache.put of a statement whose text is not in the cache, and the flag that says so.
    method PutInCache(statement: PreparedStatement)
      requires Valid() && max >= 1 && |cache| <= max
      requires forall j, k :: 0 <= j < k < |model.cache| ==> model.cache[j] != model.cache[k]
      requires statement.statementPtr in objects && objects[statement.statementPtr] == statement
      requires statement.statementPtr !in model.cache
      modifies this`cache, this`pool, this`free, this`objects, this`model, objects.Values
      ensures Valid() && model == Spec.PutInCache(old(model), old(statement.statementPtr))
      ensures statement.statementPtr == old(statement.statementPtr)
      ensures statement.statementPtr in objects && objects[statement.statementPtr] == statement
      ensures statement.inUse == old(statement.inUse)
    {
      ghost var p, s := statement.statementPtr, model;
      cache := cache + [statement];
      model := model.(cache := model.cache + [p]);
      hide Spec.EntryRemoved;
      PutLeaves(s, p);
      TrimToSize(max);
      assert p in Views(objects);
      SetInCache(statement);
    }

    method SetInCache(statement: PreparedStatement)
      requires Valid() && statement.statementPtr in objects && objects[statement.statementPtr] == statement
      modifies this`model, statement`inCache
      ensures Valid() && model == Spec.SetInCache(old(model), statement.statementPtr)
    {
      statement.inCache := true;
      model := Spec.SetInCache(model, statement.statementPtr);
      assert Views(objects) == model.alive;
    }

    // Marks a new statement and hands it out.
    method HandOutNew(statement: PreparedStatement)
      requires Valid() && statement.statementPtr in objects && objects[statement.statementPtr] == statement
      modifies this`model, statement`inUse
      ensures Valid()
      ensures var s := Spec.MarkInUse(old(model), statement.statementPtr);
              model == s.(outstanding := s.outstanding + multiset{statement.statementPtr})
    {
      statement.inUse := true;
      model := Spec.MarkInUse(model, statement.statementPtr);
      model := model.(outstanding := model.outstanding + multiset{statement.statementPtr});
      assert Views(objects) == model.alive;
    }

    // ---------------------------------------------------------------- acquire and release

    // The new native statement is given back, unless a cached one is still at hand.
    method InspectionFailed(sql: string, cached: PreparedStatement?)
      requires Valid() && (cached != null ==> cached.inCache)
      modifies this`nextPtr, this`model
      ensures Valid() && model == Spec.PrepareStatement(old(model), sql, cached != null, true).0
    {
      var ptr := nextPtr;
      nextPtr := nextPtr + 1;
      if cached == null || !cached.inCache {
        model := model.(nextPtr := nextPtr, finalized := model.finalized + [ptr]);
      } else {
        model := model.(nextPtr := nextPtr, leaked := model.leaked + {ptr});
      }
    }

    // Makes an object for a new native statement, and puts it into the cache if it may go there.
    method PrepareStatement(sql: string, skipCache: bool) returns (statement: PreparedStatement)
      requires Valid() && max >= 1 && |cache| <= max && nextPtr == model.nextPtr && nextPtr !in objects &&
               nextPtr !in model.cache
      requires forall j, k :: 0 <= j < k < |model.cache| ==> model.cache[j] != model.cache[k]
      modifies this, objects.Values, free
      ensures Valid() && var (s, r) := Spec.PrepareStatement(old(model), sql, skipCache, false);
              && model == s && IsResult(r, statement)
    {
      hide Spec.PutInCache, Spec.IsCacheable, Valid;
      statement := ObtainPreparedStatement(sql);
      if !skipCache && Spec.IsCacheable(sql) {
        PutInCache(statement);
      }
      HandOutNew(statement);
    }

    // What an acquire returns: the object of the statement, or null when it throws.
    ghost predicate IsResult(r: Spec.Result, statement: PreparedStatement?)
      reads this, objects.Values
    {
      match r
      case Prepared(p) => p in objects && statement == objects[p] && statement.statementPtr == p
      case Threw => statement == null
    }

    lemma ObjectOf(p: nat)
      requires Valid() && p in model.alive
      ensures p in objects && objects[p].View() == model.alive[p] && objects[p].statementPtr == p
    {
      assert p in Views(objects);
    }

    lemma Counters()
      requires Valid()
      ensures max == model.max && nextPtr == model.nextPtr && |cache| == |model.cache| &&
              objects.Keys == model.alive.Keys
    {
      assert Views(objects).Keys == objects.Keys;
    }

    // A statement out of the cache is handed out as it is.
    method HandOutCached(statement: PreparedStatement)
      requires Valid()
      modifies this`model
      ensures Valid() && model == old(model).(outstanding := old(model).outstanding + multiset{statement.statementPtr})
    {
      model := model.(outstanding := model.outstanding + multiset{statement.statementPtr});
    }

    method TakeBack(statement: PreparedStatement)
      requires Valid() && statement.statementPtr in objects && objects[statement.statementPtr] == statement
      requires statement.statementPtr in model.alive
      modifies this`model, statement`inUse
      ensures Valid() && !statement.inUse
      ensures var p, s := statement.statementPtr, old(model);
              model == s.(alive := s.alive[p := s.alive[p].(inUse := false)],
                          outstanding := s.outstanding - multiset{p})
    {
      ghost var p := statement.statementPtr;
      statement.inUse := false;
      model := model.(alive := model.alive[p := model.alive[p].(inUse := false)],
                      outstanding := model.outstanding - multiset{p});
      assert Views(objects) == model.alive;
    }

    lemma BeforeGet(sql: string)
      requires Valid() && Inv(model)
      ensures var k := Spec.Find(model, sql, 0);
              var s := Spec.Touch(model, k);
              && s.max >= 1 && |s.cache| <= s.max && s.nextPtr !in s.alive && s.nextPtr !in s.cache
              && (forall i, j :: 0 <= i < j < |s.cache| ==> s.cache[i] != s.cache[j])
              && (k < |model.cache| ==>
                    var p := model.cache[k];
                    p in objects && objects[p].View() == model.alive[p] && objects[p].statementPtr == p &&
                      objects[p].inCache)
    {
      var k := Spec.Find(model, sql, 0);
      TouchKeeps(model, k);
      ReadyToPrepare(Spec.Touch(model, k));
      if k < |model.cache| {
        FoundIsCached(model, k);
        ObjectOf(model.cache[k]);
      }
    }

    // The cached statement, if there is one, cannot be handed out.
    method PrepareBeside(sql: string, cached: PreparedStatement?, prepareFails: bool, inspectFails: bool)
      returns (statement: PreparedStatement?)
      requires Valid() && (cached != null ==> cached.inCache)
      requires model.max >= 1 && |model.cache| <= model.max && model.nextPtr !in model.alive &&
               model.nextPtr !in model.cache
      requires forall j, k :: 0 <= j < k < |model.cache| ==> model.cache[j] != model.cache[k]
      modifies this, objects.Values, free
      ensures Valid()
      ensures (model, if statement == null then Spec.Threw else Spec.Prepared(statement.statementPtr)) ==
              if prepareFails then (old(model), Spec.Threw)
              else Spec.PrepareStatement(old(model), sql, cached != null, inspectFails)
      ensures statement != null ==> statement.statementPtr in objects && objects[statement.statementPtr] == statement
    {
      hide Valid, Spec.PrepareStatement;
      Counters();
      if prepareFails {
        return null;
      }
      if inspectFails {
        InspectionThrows(model, sql, cached != null);
        InspectionFailed(sql, cached);
        return null;
      }
      statement := PrepareStatement(sql, cached != null);
    }

    /**
     The statement for a text: the cached one, unmarked, or a new one. When the cached one is in
     use, for statements may execute within each other, the new one is not cached.
     */
    method AcquirePreparedStatement(sql: string, prepareFails: bool, inspectFails: bool)
      returns (statement: PreparedStatement?)
      requires Valid() && Inv(model)
      modifies this, objects.Values, free
      ensures Valid()
      ensures (model, if statement == null then Spec.Threw else Spec.Prepared(statement.statementPtr)) ==
              Spec.AcquireStatement(old(model), sql, prepareFails, inspectFails)
      ensures statement != null ==> statement.statementPtr in objects && objects[statement.statementPtr] == statement
      ensures Inv(model) <==> !Breaks(old(model), Spec.Acquire(sql, prepareFails, inspectFails))
      ensures statement != null ==> StatementCacheOrder.LastIfCached(model.cache, statement.statementPtr)
    {
      hide Valid, Inv, Spec.PrepareStatement, Spec.Find, Spec.Touch, Breaks, StatementCacheOrder.LastIfCached;
      HandedOutIsLast(model, sql, prepareFails, inspectFails);
      AcquireKeeps(model, sql, prepareFails, inspectFails);
      BeforeGet(sql);
      statement := Get(sql);
      if statement != null && !statement.inUse {
        HandOutCached(statement);
        return;
      }
      statement := PrepareBeside(sql, statement, prepareFails, inspectFails);
    }

    /** A cached statement is reset, and leaves the cache if that fails; another one is finalized. */
    method ReleasePreparedStatement(statement: PreparedStatement, resetFails: bool)
      requires Valid() && Inv(model)
      requires statement.statementPtr in objects && objects[statement.statementPtr] == statement
      requires Spec.Possible(model, Spec.Release(statement.statementPtr, resetFails))
      modifies this, objects.Values, free
      ensures Valid() && model == Spec.ReleaseStatement(old(model), old(statement.statementPtr), resetFails)
      ensures Inv(model) <==> !Breaks(old(model), Spec.Release(old(statement.statementPtr), resetFails))
    {
      ghost var s, p := model, statement.statementPtr;
      ReleaseKeeps(s, p, resetFails);
      ObjectOf(p);
      if s.alive[p].inCache {
        ReleaseCached(s, p);
      } else {
        UncachedNotInCache(s, p);
      }
      hide Valid, Inv, Breaks, Spec.Find;
      TakeBack(statement);
      if statement.inCache {
        if resetFails {
          Remove(statement.sql);
        }
      } else {
        FinalizePreparedStatement(statement);
      }
    }

    /** The connection is closed: evictAll. */
    method Dispose()
      requires Valid() && Inv(model)
      modifies this, objects.Values, free
      ensures Valid() && model == Spec.DisposeStatements(old(model))
      ensures Inv(model) <==> !Breaks(old(model), Spec.Dispose)
    {
      DisposeKeeps(model);
      TrimToSize(-1);
    }
  }

  lemma HandedOutIsLast(s: Spec.Statements, sql: string, prepareFails: bool, inspectFails: bool)
    requires Inv(s)
    ensures var (s', r) := Spec.AcquireStatement(s, sql, prepareFails, inspectFails);
            r.Prepared? ==> StatementCacheOrder.LastIfCached(s'.cache, r.ptr)
  {
    StatementCacheOrder.HandedOutIsLast(s, sql, prepareFails, inspectFails);
  }

  lemma ReadyToPrepare(s: Spec.Statements)
    requires Inv(s)
    ensures s.max >= 1 && |s.cache| <= s.max && s.nextPtr !in s.alive && s.nextPtr !in s.cache
    ensures forall i, j :: 0 <= i < j < |s.cache| ==> s.cache[i] != s.cache[j]
  {
  }

  lemma FoundIsCached(s: Spec.Statements, k: nat)
    requires Inv(s) && k < |s.cache|
    ensures s.cache[k] in s.alive && s.alive[s.cache[k]].inCache
  {
    assert s.cache[k] in s.cache;
  }

  lemma UncachedNotInCache(s: Spec.Statements, p: nat)
    requires Inv(s) && p in s.alive && !s.alive[p].inCache
    ensures p !in s.cache
  {
  }

  lemma InspectionThrows(s: Spec.Statements, sql: string, skipCache: bool)
    ensures Spec.PrepareStatement(s, sql, skipCache, true).1 == Spec.Threw
  {
  }

  // The statement just put into the cache is not the one evicted.
  lemma PutLeaves(s: Spec.Statements, p: nat)
    requires s.max >= 1 && |s.cache| <= s.max && p !in s.cache && p in s.alive
    ensures var t := Spec.TrimToSize(s.(cache := s.cache + [p]), s.max);
            p in t.alive && t.alive[p].inUse == s.alive[p].inUse
  {
    var s1 := s.(cache := s.cache + [p]);
    if |s.cache| == s.max {
      assert s1.cache[1..] == s.cache[1..] + [p] && s1.cache[0] != p;
      var s2 := Spec.EntryRemoved(s1.(cache := s1.cache[1..]), s1.cache[0]);
      assert s2.cache == s1.cache[1..];
      assert Spec.TrimToSize(s2, s.max) == s2;
    }
  }

  lemma RemovedCache(s: Spec.Statements, p: nat)
    ensures Spec.EntryRemoved(s, p).cache == s.cache && Spec.EntryRemoved(s, p).max == s.max
  {
  }

  lemma WithoutOne(c: seq<nat>, k: nat)
    requires k < |c| && forall i, j :: 0 <= i < j < |c| ==> c[i] != c[j]
    ensures c[k] !in c[..k] + c[k + 1..]
    ensures var d := c[..k] + c[k + 1..];
            forall i :: 0 <= i < |d| ==> d[i] == c[if i < k then i else i + 1]
  {
  }
}
