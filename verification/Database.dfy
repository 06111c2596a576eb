/**
 SQLiteDatabase's setters: each changes the database's own configuration object, passes it
 to the pool, and undoes the change if the pool throws.
 */
module Database {
  import opened Wrappers
  import opened Configuration
  import opened PoolSpec
  import opened PoolInvariant
  import opened PoolSteps
  import opened PoolWithoutCache
  import opened ConnectionPool

  const MAX_SQL_CACHE_SIZE := 100

  predicate IsReadOnly(openFlags: bv32) {
    openFlags & OPEN_READ_MASK == OPEN_READONLY
  }

  datatype Failure = NotOpen | BadCacheSize | PoolThrew(error: Error)

  function Thrown(exception: Option<Error>): Option<Failure> {
    match exception
    case None => None
    case Some(error) => Some(PoolThrew(error))
  }

  // The list without the first occurrence of an element.
  function Without(list: seq<nat>, x: nat): seq<nat> {
    if list == [] then []
    else if list[0] == x then list[1..]
    else [list[0]] + Without(list[1..], x)
  }

  lemma {:induction false} WithoutLast(list: seq<nat>, x: nat)
    requires x !in list
    ensures Without(list + [x], x) == list
  {
    if list != [] {
      assert (list + [x])[1..] == list[1..] + [x];
      WithoutLast(list[1..], x);
    }
  }

  function Writable(openFlags: bv32): bv32 {
    (openFlags & !OPEN_READ_MASK) | OPEN_READWRITE
  }

  function WithWal(openFlags: bv32): bv32 {
    openFlags | ENABLE_WRITE_AHEAD_LOGGING
  }

  function WithoutWal(openFlags: bv32): bv32 {
    openFlags & !ENABLE_WRITE_AHEAD_LOGGING
  }

  // Turning the write-ahead logging bit on, and off again.
  lemma TurnedOn(openFlags: bv32)
    ensures WalFlag(WithWal(openFlags))
    ensures !WalFlag(openFlags) ==> WithoutWal(WithWal(openFlags)) == openFlags
  {
  }

  lemma TurnedOff(openFlags: bv32)
    ensures !WalFlag(WithoutWal(openFlags))
    ensures WalFlag(openFlags) ==> WithWal(WithoutWal(openFlags)) == openFlags
  {
  }

  lemma MadeWritable(openFlags: bv32)
    ensures WalFlag(Writable(openFlags)) == WalFlag(openFlags)
    ensures !IsReadOnly(Writable(openFlags)) && Writable(openFlags) & 0xffff_fffe == openFlags & 0xffff_fffe
  {
  }

  // No other bit is touched.
  lemma OtherBits(openFlags: bv32)
    ensures WithWal(openFlags) & 0xdfff_ffff == openFlags & 0xdfff_ffff
    ensures WithoutWal(openFlags) & 0xdfff_ffff == openFlags & 0xdfff_ffff
  {
  }

  // The bits themselves.
  lemma ReadOnlyBit(openFlags: bv32)
    ensures IsReadOnly(openFlags) <==> openFlags & 1 == 1
  {
  }

  lemma WalBit(openFlags: bv32)
    ensures WalFlag(openFlags) <==> openFlags & 0x2000_0000 == 0x2000_0000
  {
  }

  class SQLiteDatabase {
    const configuration: SQLiteDatabaseConfiguration
    var pool: SQLiteConnectionPool?
    var hasAttachedDbs: bool
    var nextFunction: nat      // wrapper objects made so far

    /** The configuration of the database is the configuration of its pool. */
    ghost predicate Valid()
      reads this, configuration, pool, if pool != null then {pool.configuration} + pool.nodes else {}
    {
      && (forall f :: f in configuration.customFunctions ==> f < nextFunction)
      && (pool != null ==>
            && pool.configuration != configuration
            && pool.Valid() && Inv(pool.model) && pool.model.open
            && pool.model.config == configuration.View())
    }

    ghost function Objects(): set<object>
      reads this, pool
    {
      {this, configuration} + if pool != null then {pool, pool.configuration} + pool.nodes else {}
    }

    constructor (path: string, openFlags: bv32, defaultLocale: string)
      ensures Valid() && pool == null && configuration.View() == Config(path, openFlags, 25, defaultLocale, false, [])
    {
      configuration := new SQLiteDatabaseConfiguration(path, openFlags, defaultLocale);
      pool, hasAttachedDbs, nextFunction := null, false, 0;
    }

    /** Opens the pool. If its first connection cannot be opened the database stays closed. */
    method OpenInner(env: Env) returns (exception: Option<Error>)
      requires Valid() && pool == null
      modifies this`pool
      ensures Valid() && (exception.None? <==> pool != null)
      ensures pool != null ==>
                Some(pool.model) == OpenPool(configuration.View(), env) && fresh(pool) && fresh(pool.configuration)
    {
      hide Inv, SQLiteConnectionPool.Valid;
      var p := new SQLiteConnectionPool(configuration);
      exception := p.Open(env);
      if exception.None? {
        pool := p;
      }
    }

    // Passes the configuration on to the pool, which keeps its own if it throws.
    method ReconfigurePool(env: Env) returns (exception: Option<Error>)
      requires pool != null && pool.configuration != configuration && pool.Valid() && Inv(pool.model) && pool.model.open
      requires configuration.path == pool.model.config.path
      modifies Objects() - {this, configuration}
      ensures pool.Valid() && Inv(pool.model) && pool.model.open
      ensures (pool.model, exception) == Reconfigure(old(pool.model), configuration.View(), env)
      ensures pool.model.config == if exception == None then configuration.View() else old(pool.model.config)
    {
      hide Inv, SQLiteConnectionPool.Valid;
      pool.SamePath();
      ReconfigureTakesConfig(pool.model, configuration.View(), env);
      exception := pool.Reconfigure(configuration, env);
    }

    /** Throws exactly when the database has to be reopened and the new primary connection cannot be opened. */
    method ReopenReadWrite(env: Env) returns (failure: Option<Failure>)
      requires Valid()
      modifies Objects()
      ensures Valid() && pool == old(pool)
      ensures failure == (if pool == null then Some(NotOpen)
                          else if IsReadOnly(old(configuration.openFlags))
                                  && OpenFails(old(pool.model.nextId), old(configuration.View()), env)
                          then Some(PoolThrew(OpenFailed(old(pool.model.nextId))))
                          else None)
      ensures configuration.View() ==
              (if failure.None? && IsReadOnly(old(configuration.openFlags))
               then old(configuration.View()).(openFlags := Writable(old(configuration.openFlags)))
               else old(configuration.View()))
    {
      hide Inv, SQLiteConnectionPool.Valid, Reconfigure, WalFlag, IsReadOnly, Writable;
      if pool == null {
        return Some(NotOpen);
      }
      if !IsReadOnly(configuration.openFlags) {
        return None;
      }
      var oldOpenFlags := configuration.openFlags;
      MadeWritable(oldOpenFlags);
      configuration.openFlags := Writable(configuration.openFlags);
      ghost var p, config := pool.model, configuration.View();
      var exception := ReconfigurePool(env);
      if exception.Some? {
        configuration.openFlags := oldOpenFlags;
      }
      ReconfigureThrowsOnly(p, config, env);
      failure := Thrown(exception);
    }

    /** Never throws while the database is open: the wrapper is always added. */
    method AddCustomFunction(env: Env) returns (failure: Option<Failure>)
      requires Valid()
      modifies Objects()
      ensures Valid() && pool == old(pool)
      ensures failure == if pool == null then Some(NotOpen) else None
      ensures var config := old(configuration.View());
              && configuration.View() == (if pool == null then config
                                          else config.(customFunctions := config.customFunctions + [old(nextFunction)]))
              && (pool != null ==> pool.model == Reconfigure(old(pool.model), configuration.View(), env).0)
    {
      hide Inv, SQLiteConnectionPool.Valid, Reconfigure, WalFlag;
      var wrapper := nextFunction;
      nextFunction := nextFunction + 1;
      if pool == null {
        return Some(NotOpen);
      }
      configuration.customFunctions := configuration.customFunctions + [wrapper];
      ghost var p, config := pool.model, configuration.View();
      var exception := ReconfigurePool(env);
      if exception.Some? {
        WithoutLast(old(configuration.customFunctions), wrapper);
        configuration.customFunctions := Without(configuration.customFunctions, wrapper);
      }
      ReconfigureThrowsOnly(p, config, env);
      failure := Thrown(exception);
    }

    /** Never throws while the database is open, whatever the connections make of the locale. */
    method SetLocale(locale: string, env: Env) returns (failure: Option<Failure>)
      requires Valid()
      modifies Objects()
      ensures Valid() && pool == old(pool)
      ensures failure == if pool == null then Some(NotOpen) else None
      ensures configuration.View() == if pool == null then old(configuration.View())
              else old(configuration.View()).(locale := locale)
      ensures pool != null ==> pool.model == Reconfigure(old(pool.model), configuration.View(), env).0
    {
      hide Inv, SQLiteConnectionPool.Valid, Reconfigure, WalFlag;
      if pool == null {
        return Some(NotOpen);
      }
      var oldLocale := configuration.locale;
      configuration.locale := locale;
      ghost var p, config := pool.model, configuration.View();
      var exception := ReconfigurePool(env);
      if exception.Some? {
        configuration.locale := oldLocale;
      }
      ReconfigureThrowsOnly(p, config, env);
      failure := Thrown(exception);
    }

    /**
     Any size from 0 to 100 is taken, also a smaller one than before. With 0 the pool has a
     configuration with which no connection can be opened.
     */
    method SetMaxSqlCacheSize(cacheSize: int, env: Env) returns (failure: Option<Failure>)
      requires Valid()
      modifies Objects()
      ensures Valid() && pool == old(pool)
      ensures failure == (if cacheSize > 100 || cacheSize < 0 then Some(BadCacheSize)
                          else if pool == null then Some(NotOpen) else None)
      ensures configuration.View() == if failure.Some? then old(configuration.View())
              else old(configuration.View()).(maxSqlCacheSize := cacheSize)
      ensures failure.None? ==> pool.model == Reconfigure(old(pool.model), configuration.View(), env).0
      ensures failure.None? ==> (CacheLess(pool.model.config) <==> cacheSize == 0)
    {
      hide Inv, SQLiteConnectionPool.Valid, Reconfigure, WalFlag;
      if cacheSize > MAX_SQL_CACHE_SIZE || cacheSize < 0 {
        return Some(BadCacheSize);
      }
      if pool == null {
        return Some(NotOpen);
      }
      var oldMaxSqlCacheSize := configuration.maxSqlCacheSize;
      configuration.maxSqlCacheSize := cacheSize;
      ghost var p, config := pool.model, configuration.View();
      var exception := ReconfigurePool(env);
      if exception.Some? {
        configuration.maxSqlCacheSize := oldMaxSqlCacheSize;
      }
      ReconfigureThrowsOnly(p, config, env);
      failure := Thrown(exception);
    }

    /** Throws exactly when the mode would change while a connection is acquired. */
    method SetForeignKeyConstraintsEnabled(enable: bool, env: Env) returns (failure: Option<Failure>)
      requires Valid()
      modifies Objects()
      ensures Valid() && pool == old(pool)
      ensures failure == (if pool == null then Some(NotOpen)
                          else if old(configuration.foreignKeys) != enable && old(pool.model.acquired) != map[]
                          then Some(PoolThrew(ForeignKeysInUse)) else None)
      ensures configuration.View() == if failure.Some? then old(configuration.View())
              else old(configuration.View()).(foreignKeys := enable)
      ensures failure.None? && old(configuration.foreignKeys) != enable ==>
                pool.model == Reconfigure(old(pool.model), configuration.View(), env).0
    {
      hide Inv, SQLiteConnectionPool.Valid, Reconfigure, WalFlag;
      if pool == null {
        return Some(NotOpen);
      }
      if configuration.foreignKeys == enable {
        return None;
      }
      configuration.foreignKeys := enable;
      ghost var p, config := pool.model, configuration.View();
      var exception := ReconfigurePool(env);
      if exception.Some? {
        configuration.foreignKeys := !enable;
      }
      ReconfigureThrowsOnly(p, config, env);
      failure := Thrown(exception);
    }

    // What a switch of the write-ahead logging mode throws.
    ghost function WhyWalRefused(p: Pool, env: Env): Option<Failure> {
      if p.acquired != map[] then Some(PoolThrew(WalInUse))
      else if OpenFails(p.nextId, p.config, env) then Some(PoolThrew(OpenFailed(p.nextId)))
      else None
    }

    /**
     `enabled` says whether the database is in write-ahead logging mode afterwards. A writable
     database in a file gets there unless others are attached to it or the pool refuses; one in
     memory never does.
     */
    method EnableWriteAheadLogging(env: Env) returns (enabled: bool, failure: Option<Failure>)
      requires Valid()
      modifies Objects()
      ensures Valid() && pool == old(pool)
      ensures var flags := old(configuration.openFlags);
              var changes := pool != null && !WalFlag(flags) && !IsReadOnly(flags) && !IsInMemory(configuration.path) &&
                !hasAttachedDbs;
              && failure ==
                   (if pool == null then Some(NotOpen) else if changes then WhyWalRefused(old(pool.model), env)
                     else None)
              && enabled == (pool != null && Wal(configuration.View()))
              && configuration.View() ==
                   (if changes && failure.None? then old(configuration.View()).(openFlags := WithWal(flags))
                                          else old(configuration.View()))
      ensures old(pool != null && configuration.openFlags & 1 == 0 && !hasAttachedDbs) &&
              (|configuration.path| != 8 || configuration.path[0] == '/') &&
              WhyWalRefused(old(pool.model), env) == None ==>
                enabled && WalFlag(configuration.openFlags) && failure == None
      ensures SpellsMemory(configuration.path) && !WalFlag(old(configuration.openFlags)) ==>
                !enabled && configuration.View() == old(configuration.View())
    {
      hide Inv, SQLiteConnectionPool.Valid, Reconfigure, WalFlag, IsReadOnly, WithWal, WithoutWal, IsInMemory,
           SpellsMemory;
      InMemoryExactly(configuration.path);
      ReadOnlyBit(configuration.openFlags);
      if pool == null {
        return false, Some(NotOpen);
      }
      if WalFlag(configuration.openFlags) {
        return true, None;
      }
      if IsReadOnly(configuration.openFlags) {
        return false, None;
      }
      if IsInMemory(configuration.path) {
        return false, None;
      }
      if hasAttachedDbs {
        return false, None;
      }
      TurnedOn(configuration.openFlags);
      configuration.openFlags := WithWal(configuration.openFlags);
      ghost var p, config := pool.model, configuration.View();
      var exception := ReconfigurePool(env);
      if exception.Some? {
        configuration.openFlags := WithoutWal(configuration.openFlags);
      }
      ReconfigureThrowsOnly(p, config, env);
      enabled, failure := exception.None?, Thrown(exception);
    }

    method DisableWriteAheadLogging(env: Env) returns (failure: Option<Failure>)
      requires Valid()
      modifies Objects()
      ensures Valid() && pool == old(pool) && hasAttachedDbs == old(hasAttachedDbs)
      ensures var flags := old(configuration.openFlags);
              && failure ==
                   (if pool == null then Some(NotOpen) else if WalFlag(flags) then WhyWalRefused(old(pool.model), env)
                     else None)
              && configuration.View() == (if pool != null && WalFlag(flags) && failure.None?
                                          then old(configuration.View()).(openFlags := WithoutWal(flags))
                                          else old(configuration.View()))
      ensures failure.None? ==> !Wal(configuration.View())
    {
      hide Inv, SQLiteConnectionPool.Valid, Reconfigure, WalFlag, WithWal, WithoutWal;
      if pool == null {
        return Some(NotOpen);
      }
      if !WalFlag(configuration.openFlags) {
        return None;
      }
      TurnedOff(configuration.openFlags);
      configuration.openFlags := WithoutWal(configuration.openFlags);
      ghost var p, config := pool.model, configuration.View();
      var exception := ReconfigurePool(env);
      if exception.Some? {
        configuration.openFlags := WithWal(configuration.openFlags);
      }
      ReconfigureThrowsOnly(p, config, env);
      failure := Thrown(exception);
    }

    /**
     Before an ATTACH statement write-ahead logging is disabled, but only before the first one:
     if that throws, the database stays in that mode and a second ATTACH does not try again.
     */
    method BeforeAttach(env: Env) returns (failure: Option<Failure>)
      requires Valid()
      modifies Objects()
      ensures Valid() && pool == old(pool) && hasAttachedDbs
      ensures old(hasAttachedDbs) ==> failure.None? && configuration.View() == old(configuration.View())
      ensures !old(hasAttachedDbs) ==>
                && (Wal(configuration.View()) ==> failure.Some?)
                && (pool != null && failure.Some? ==> Wal(configuration.View()))
    {
      hide Inv, SQLiteConnectionPool.Valid, Reconfigure, WalFlag, WithoutWal;
      failure := None;
      if !hasAttachedDbs {
        hasAttachedDbs := true;
        failure := DisableWriteAheadLogging(env);
      }
    }
  }
}
