/**
 The prepared statements of one SQLiteConnection as a value: which of them are alive, which
 are in the LRU cache, and which have been acquired and not released. Statements are known by
 their native pointers; what the native library answers is an argument of each operation.
 */
module StatementCacheSpec {
  import opened SqlStatements

  datatype Stmt = Stmt(sql: string, inCache: bool, inUse: bool)

  datatype Statements = Statements(
    max: int,
    cache: seq<nat>,                // least recently used first
    alive: map<nat, Stmt>,          // prepared and not finalized
    nextPtr: nat,
    outstanding: multiset<nat>,     // acquired and not released
    finalized: seq<nat>,
    leaked: set<nat>)               // prepared, never finalized, and forgotten

  datatype Result = Prepared(ptr: nat) | Threw

  datatype Op =
    | Acquire(sql: string, prepareFails: bool, inspectFails: bool)
    | Release(ptr: nat, resetFails: bool)
    | Peek(sql: string)             // isPreparedStatementInCache, which counts as a use
    | Dispose

  function NewStatements(max: int): Statements {
    Statements(max, [], map[], 0, multiset{}, [], {})
  }

  predicate IsCacheable(sql: string) {
    SqlStatementType(sql) == UPDATE || SqlStatementType(sql) == SELECT
  }

  // ---------------------------------------------------------------- the LRU cache

  // The position of the cached statement for this text from position `i` on, else the length.
  function Find(s: Statements, sql: string, i: nat): (k: nat)
    requires i <= |s.cache|
    ensures i <= k <= |s.cache|
    ensures k < |s.cache| ==> s.cache[k] in s.alive && s.alive[s.cache[k]].sql == sql
    ensures forall j :: i <= j < k && s.cache[j] in s.alive ==> s.alive[s.cache[j]].sql != sql
    decreases |s.cache| - i
  {
    if i == |s.cache| || (s.cache[i] in s.alive && s.alive[s.cache[i]].sql == sql) then i else Find(s, sql, i + 1)
  }

  // A statement that was found becomes the most recently used one.
  function Touch(s: Statements, k: nat): Statements
    requires k <= |s.cache|
  {
    if k == |s.cache| then s else s.(cache := s.cache[..k] + s.cache[k + 1..] + [s.cache[k]])
  }

  function FinalizeStatement(s: Statements, ptr: nat): Statements {
    s.(alive := s.alive - {ptr}, finalized := s.finalized + [ptr])
  }

  /** A statement that leaves the cache is finalized, or when it is released if it is in use. */
  function EntryRemoved(s: Statements, ptr: nat): Statements {
    if ptr !in s.alive then s
    else
      var s1 := s.(alive := s.alive[ptr := s.alive[ptr].(inCache := false)]);
      if s.alive[ptr].inUse then s1 else FinalizeStatement(s1, ptr)
  }

  // Evicts the least recently used statements until at most `size` are left.
  function TrimToSize(s: Statements, size: int): Statements
    decreases |s.cache|
  {
    if |s.cache| <= size || s.cache == [] then s
    else TrimToSize(EntryRemoved(s.(cache := s.cache[1..]), s.cache[0]), size)
  }

  function RemoveEntry(s: Statements, k: nat): Statements
    requires k < |s.cache|
  {
    EntryRemoved(s.(cache := s.cache[..k] + s.cache[k + 1..]), s.cache[k])
  }

  // ---------------------------------------------------------------- acquire and release

  function SetInCache(s: Statements, ptr: nat): Statements {
    if ptr in s.alive then s.(alive := s.alive[ptr := s.alive[ptr].(inCache := true)]) else s
  }

  function PutInCache(s: Statements, ptr: nat): Statements {
    SetInCache(TrimToSize(s.(cache := s.cache + [ptr]), s.max), ptr)
  }

  function MarkInUse(s: Statements, ptr: nat): Statements {
    if ptr in s.alive then s.(alive := s.alive[ptr := s.alive[ptr].(inUse := true)]) else s
  }

  // A new native statement, put into the cache unless the cached one for this text is in use.
  function PrepareStatement(s: Statements, sql: string, skipCache: bool, inspectFails: bool): (Statements, Result) {
    var ptr := s.nextPtr;
    var s1 := s.(nextPtr := ptr + 1);
    if inspectFails then
      (if skipCache then s1.(leaked := s1.leaked + {ptr}) else s1.(finalized := s1.finalized + [ptr]), Threw)
    else
      var s2 := s1.(alive := s1.alive[ptr := Stmt(sql, false, false)]);
      var s3 := if !skipCache && IsCacheable(sql) then PutInCache(s2, ptr) else s2;
      (MarkInUse(s3, ptr).(outstanding := s3.outstanding + multiset{ptr}), Prepared(ptr))
  }

  /** A statement found in the cache and not in use is handed out as it is, without being marked. */
  function AcquireStatement(s: Statements, sql: string, prepareFails: bool, inspectFails: bool): (Statements, Result) {
    var k := Find(s, sql, 0);
    var s1 := Touch(s, k);
    if k < |s.cache| && !s.alive[s.cache[k]].inUse then
      (s1.(outstanding := s1.outstanding + multiset{s.cache[k]}), Prepared(s.cache[k]))
    else if prepareFails then (s1, Threw)
    else PrepareStatement(s1, sql, k < |s.cache|, inspectFails)
  }

  function ReleaseStatement(s: Statements, ptr: nat, resetFails: bool): Statements
    requires ptr in s.alive
  {
    var stmt := s.alive[ptr];
    var s1 := s.(alive := s.alive[ptr := stmt.(inUse := false)], outstanding := s.outstanding - multiset{ptr});
    if !stmt.inCache then FinalizeStatement(s1, ptr)
    else if resetFails && Find(s1, stmt.sql, 0) < |s1.cache| then RemoveEntry(s1, Find(s1, stmt.sql, 0))
    else s1
  }

  function DisposeStatements(s: Statements): Statements {
    TrimToSize(s, -1)
  }

  // Only what has been acquired is released.
  predicate Possible(s: Statements, op: Op) {
    op.Release? ==> op.ptr in s.outstanding && op.ptr in s.alive
  }

  function Step(s: Statements, op: Op): Statements
    requires Possible(s, op)
  {
    match op
    case Acquire(sql, prepareFails, inspectFails) => AcquireStatement(s, sql, prepareFails, inspectFails).0
    case Release(ptr, resetFails) => ReleaseStatement(s, ptr, resetFails)
    case Peek(sql) => Touch(s, Find(s, sql, 0))
    case Dispose => DisposeStatements(s)
  }
}
