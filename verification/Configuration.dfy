/** SQLiteDatabaseConfiguration: the parameters of a database, as a value and as a mutable object. */
module Configuration {
  const OPEN_READONLY: bv32 := 0x0000_0001
  const OPEN_READ_MASK: bv32 := 0x0000_0001
  const OPEN_READWRITE: bv32 := 0x0000_0000
  const ENABLE_WRITE_AHEAD_LOGGING: bv32 := 0x2000_0000

  datatype Config = Config(
    path: string,
    openFlags: bv32,
    maxSqlCacheSize: int,
    locale: string,
    foreignKeys: bool,
    customFunctions: seq<nat>)      // each wrapper object by a number of its own

  predicate WalFlag(openFlags: bv32) {
    openFlags & ENABLE_WRITE_AHEAD_LOGGING != 0
  }

  predicate Wal(config: Config) {
    WalFlag(config.openFlags)
  }

  function Lower(c: char): char {
    if 'A' <= c <= 'Z' then c + 32 as char else c
  }

  // No letter outside ASCII is equal, case apart, to a letter of this path.
  predicate IsInMemory(path: string) {
    |path| == 8 && forall i :: 0 <= i < 8 ==> Lower(path[i]) == ":memory:"[i]
  }

  // One of the spellings of the name, each letter in either case.
  ghost predicate SpellsMemory(path: string) {
    |path| == 8 && forall i :: 0 <= i < 8 ==> path[i] == ":memory:"[i] || path[i] == ":MEMORY:"[i]
  }

  lemma InMemoryExactly(path: string)
    ensures IsInMemory(path) <==> SpellsMemory(path)
    ensures |path| != 8 || path[0] == '/' ==> !IsInMemory(path)
  {
    if |path| == 8 {
      forall i | 0 <= i < 8
        ensures Lower(path[i]) == ":memory:"[i] <==> path[i] == ":memory:"[i] || path[i] == ":MEMORY:"[i]
      {
        assert ":memory:"[i] == [':', 'm', 'e', 'm', 'o', 'r', 'y', ':'][i];
        assert ":MEMORY:"[i] == [':', 'M', 'E', 'M', 'O', 'R', 'Y', ':'][i];
      }
      assert ":memory:"[0] == ':' && ":MEMORY:"[0] == ':';
    }
  }

  class SQLiteDatabaseConfiguration {
    const path: string
    var openFlags: bv32
    var maxSqlCacheSize: int
    var locale: string
    var foreignKeys: bool
    var customFunctions: seq<nat>

    function View(): Config
      reads this
    {
      Config(path, openFlags, maxSqlCacheSize, locale, foreignKeys, customFunctions)
    }

    /** A database configuration with default values for everything but the path and the flags. */
    constructor (path: string, openFlags: bv32, defaultLocale: string)
      ensures View() == Config(path, openFlags, 25, defaultLocale, false, [])
    {
      this.path := path;
      this.openFlags := openFlags;
      maxSqlCacheSize := 25;
      locale := defaultLocale;
      foreignKeys := false;
      customFunctions := [];
    }

    /** A copy shares nothing with the original: changing one later does not change the other. */
    constructor Copy(other: SQLiteDatabaseConfiguration)
      ensures View() == other.View()
    {
      path := other.path;
      openFlags := 0;
      maxSqlCacheSize := 0;
      locale := "";
      foreignKeys := false;
      customFunctions := [];
      new;
      var _ := UpdateParametersFrom(other);
    }

    /**
     Takes over every parameter but the path; refused if the path is a different one. The
     custom functions are cleared before the other's are added, so a configuration updated
     from itself loses them.
     */
    method UpdateParametersFrom(other: SQLiteDatabaseConfiguration) returns (ok: bool)
      modifies this
      ensures ok <==> path == other.path
      ensures ok && other != this ==> View() == old(other.View())
      ensures ok && other == this ==> View() == old(View()).(customFunctions := [])
      ensures !ok ==> View() == old(View())
    {
      if path != other.path {
        return false;
      }
      openFlags := other.openFlags;
      maxSqlCacheSize := other.maxSqlCacheSize;
      locale := other.locale;
      foreignKeys := other.foreignKeys;
      customFunctions := [];
      customFunctions := customFunctions + other.customFunctions;
      return true;
    }
  }
}
