/** The log of recent operations of a connection: a ring of twenty records, known by cookies that carry a generation. */
module OperationLog {
  import opened Wrappers

  const MAX_RECENT_OPERATIONS := 20
  const TWO_24 := 0x100_0000
  const TWO_32 := 0x1_0000_0000

  // After this many operations the cookies repeat.
  const PERIOD := 5 * TWO_24

  // A 32-bit shift to the left by 8, on numbers taken as unsigned.
  function ShiftLeft8(n: int): int {
    (n * 0x100) % TWO_32
  }

  // Or with a number below 256: the lower eight bits are free.
  function WithIndex(shifted: int, index: nat): int
    requires shifted % 0x100 == 0 && index < 0x100
  {
    shifted + index
  }

  lemma ShiftedFree(n: int)
    ensures ShiftLeft8(n) == (n % TWO_24) * 0x100 && ShiftLeft8(n) % 0x100 == 0
  {
    var q, r := n / TWO_24, n % TWO_24;
    assert n * 0x100 == q * TWO_32 + r * 0x100;
    assert 0 <= r * 0x100 < TWO_32;
  }

  // The record and the cookie of the n-th operation, counted from 0.
  function Index(n: nat): nat {
    (n + 1) % MAX_RECENT_OPERATIONS
  }

  function Cookie(n: nat): int {
    ShiftedFree(n % TWO_32);
    WithIndex(ShiftLeft8(n % TWO_32), Index(n))
  }

  lemma CookieParts(n: nat)
    ensures Cookie(n) == (n % TWO_24) * 0x100 + Index(n)
    ensures Cookie(n) % 0x100 == Index(n)
  {
    ShiftedFree(n % TWO_32);
    var q := n / TWO_32;
    assert n == q * TWO_32 + n % TWO_32;
    assert (n % TWO_32) % TWO_24 == n % TWO_24 by {
      assert n == (q * 0x100 + (n % TWO_32) / TWO_24) * TWO_24 + (n % TWO_32) % TWO_24;
    }
  }

  /** Two operations have the same cookie exactly if their numbers agree modulo 5 * 2^24. */
  lemma CookiesEqual(m: nat, n: nat)
    ensures Cookie(m) == Cookie(n) <==> m % PERIOD == n % PERIOD
  {
    CookieParts(m);
    CookieParts(n);
    if m <= n {
      ResiduesAgree(m, n);
    } else {
      ResiduesAgree(n, m);
    }
  }

  lemma ResiduesAgree(m: nat, n: nat)
    requires m <= n
    ensures m % TWO_24 == n % TWO_24 && Index(m) == Index(n) <==> m % PERIOD == n % PERIOD
  {
    if m % PERIOD == n % PERIOD {
      FromPeriod(m, n, n / PERIOD - m / PERIOD);
    }
    if m % TWO_24 == n % TWO_24 && Index(m) == Index(n) {
      ToPeriod(m, n, n / TWO_24 - m / TWO_24, (n + 1) / 20 - (m + 1) / 20);
    }
  }

  lemma FromPeriod(m: nat, n: nat, k: int)
    requires n - m == k * PERIOD
    ensures m % TWO_24 == n % TWO_24 && Index(m) == Index(n)
  {
    SameResidue24(m, n, 5 * k);
    assert n - m == (k * 4194304) * 20;
    SameIndex(m, n, k * 4194304);
  }

  lemma SameResidue24(m: nat, n: nat, k: int)
    requires n - m == k * TWO_24
    ensures m % TWO_24 == n % TWO_24
  {
    assert n == (m / TWO_24 + k) * TWO_24 + m % TWO_24;
  }

  lemma SameIndex(m: nat, n: nat, k: int)
    requires n - m == k * 20
    ensures Index(m) == Index(n)
  {
    assert n + 1 == ((m + 1) / 20 + k) * 20 + (m + 1) % 20;
  }

  lemma ToPeriod(m: nat, n: nat, a: int, b: int)
    requires n - m == a * TWO_24 && n - m == b * 20
    ensures m % PERIOD == n % PERIOD
  {
    assert a % 5 == 0;
    SameResidue(m, n, a / 5);
  }

  lemma SameResidue(m: nat, n: nat, k: int)
    requires n - m == k * PERIOD
    ensures m % PERIOD == n % PERIOD
  {
    assert n == (m / PERIOD + k) * PERIOD + m % PERIOD;
  }

  // ---------------------------------------------------------------- the log

  class Operation {
    var kind: string
    var sql: string
    var finished: bool
    var exception: Option<string>
    var cookie: int
    ghost var number: nat

    constructor ()
      ensures !finished && exception == None
    {
      kind, sql, finished, exception, cookie := "", "", false, None, 0;
    }
  }

  // The last operation before the n-th that was recorded at this index.
  function LastAt(n: nat, index: nat): (m: int)
    requires index < MAX_RECENT_OPERATIONS
    ensures m < n && (m >= 0 ==> Index(m) == index)
    ensures forall k: nat :: m < k < n ==> Index(k) != index
    decreases n
  {
    if n == 0 then -1 else if Index(n - 1) == index then n - 1 else LastAt(n - 1, index)
  }

  // Twenty operations later, and not before, the record is used again.
  lemma LastAtOwn(n: nat, m: nat)
    requires m < n
    ensures LastAt(n, Index(m)) == m <==> n - m <= MAX_RECENT_OPERATIONS
    ensures LastAt(n, Index(m)) >= m
  {
    if n - m <= MAX_RECENT_OPERATIONS {
      forall k: nat | m < k < n ensures Index(k) != Index(m) {
        IndexDiffers(m, k);
      }
    } else {
      assert Index(m + 20) == Index(m);
    }
  }

  lemma LastAtNext(n: nat, next: nat)
    requires next == n + 1
    ensures forall i: nat :: i < MAX_RECENT_OPERATIONS ==> LastAt(next, i) == if i == Index(n) then n else LastAt(n, i)
  {
    forall i: nat | i < MAX_RECENT_OPERATIONS ensures LastAt(next, i) == if i == Index(n) then n else LastAt(n, i) {
      assert LastAt(next, i) == if Index(next - 1) == i then next - 1 else LastAt(next - 1, i);
    }
  }

  lemma IndexDiffers(m: nat, k: nat)
    requires m < k < m + MAX_RECENT_OPERATIONS
    ensures Index(k) != Index(m)
  {
  }

  // The record of this operation, or none if there was no such operation.
  ghost predicate Holds(operation: Operation?, number: int)
    reads operation
  {
    && (operation == null <==> number < 0)
    && (operation != null ==> operation.number == number && operation.cookie == Cookie(number))
  }

  lemma NowHolds(operation: Operation, n: nat)
    requires operation.number == n && operation.cookie == Cookie(n)
    ensures Holds(operation, n)
  {
  }

  class OperationLog {
    const operations: array<Operation?>
    var index: nat
    var generation: int
    ghost var begun: nat        // operations begun so far

    ghost var records: set<Operation>

    // Each record is that of the last operation at its index, and no two are the same object.
    ghost predicate Valid()
      reads this, operations, records
    {
      && operations.Length == MAX_RECENT_OPERATIONS
      && index == begun % MAX_RECENT_OPERATIONS && generation == begun % TWO_32
      && (forall i :: 0 <= i < operations.Length && operations[i] != null ==> operations[i] in records)
      && (forall i :: 0 <= i < operations.Length ==> Holds(operations[i], LastAt(begun, i)))
      && (forall i, j :: 0 <= i < j < operations.Length && operations[i] != null ==> operations[i] != operations[j])
    }

    constructor ()
      ensures Valid() && begun == 0 && records == {}
    {
      operations := new Operation?[MAX_RECENT_OPERATIONS](i => null);
      index, generation := 0, 0;
      begun, records := 0, {};
    }

    method NewOperationCookieLocked(i: nat) returns (cookie: int)
      requires generation == begun % TWO_32 && i == Index(begun)
      modifies this`generation
      ensures cookie == Cookie(begun) && generation == (begun + 1) % TWO_32
    {
      var g := generation;
      generation := if generation == TWO_32 - 1 then 0 else generation + 1;
      ShiftedFree(g);
      cookie := WithIndex(ShiftLeft8(g), i);
    }

    // The record at an index, as good as new.
    method RecordAt(i: nat) returns (operation: Operation)
      requires Valid() && i < MAX_RECENT_OPERATIONS
      modifies this`records, operations, records
      ensures operations[i] == operation && operation in records && old(records) <= records &&
              fresh(records - old(records))
      ensures !operation.finished && operation.exception == None
      ensures operation == old(operations[i]) || fresh(operation)
      ensures forall j :: 0 <= j < MAX_RECENT_OPERATIONS && j != i ==>
                operations[j] == old(operations[j]) && operations[j] != operation &&
                  (operations[j] != null ==> unchanged(operations[j]))
    {
      var recorded := operations[i];
      if recorded == null {
        operation := new Operation();
        operations[i] := operation;
        records := records + {operation};
      } else {
        operation := recorded;
        operation.finished := false;
        operation.exception := None;
      }
    }

    // Fills in the record of the next operation.
    method FillRecord(operation: Operation, i: nat, kind: string, sql: string) returns (cookie: int)
      requires operations.Length == MAX_RECENT_OPERATIONS && generation == begun % TWO_32 && i == Index(begun)
      requires operations[i] == operation && forall j :: 0 <= j < MAX_RECENT_OPERATIONS && j != i ==>
                 operations[j] != operation
      requires forall j :: 0 <= j < MAX_RECENT_OPERATIONS && j != i ==> Holds(operations[j], LastAt(begun, j))
      modifies this`generation, operation
      ensures forall j :: 0 <= j < MAX_RECENT_OPERATIONS ==> Holds(operations[j], LastAt(begun + 1, j))
      ensures generation == (begun + 1) % TWO_32 && cookie == Cookie(begun)
      ensures operation.number == begun && operation.kind == kind && operation.sql == sql
      ensures operation.finished == old(operation.finished) && operation.exception == old(operation.exception)
    {
      LastAtNext(begun, begun + 1);
      hide LastAt, Cookie, Index, Holds;
      operation.kind := kind;
      operation.sql := sql;
      cookie := NewOperationCookieLocked(i);
      operation.cookie := cookie;
      operation.number := begun;
      NowHolds(operation, begun);
    }

    /** Records the next operation, in the record of the one twenty operations before if there is one. */
    method BeginOperation(kind: string, sql: string) returns (cookie: int)
      requires Valid()
      modifies this, operations, records
      ensures fresh(records - old(records))
      ensures Valid() && begun == old(begun) + 1 && cookie == Cookie(old(begun))
      ensures var operation := operations[Index(old(begun))];
              && operation != null && operation.number == old(begun) && operation.kind == kind && operation.sql == sql
              && !operation.finished && operation.exception == None
      ensures forall i :: 0 <= i < MAX_RECENT_OPERATIONS && i != Index(old(begun)) ==>
                operations[i] == old(operations[i]) && (operations[i] != null ==> unchanged(operations[i]))
    {
      var i := (index + 1) % MAX_RECENT_OPERATIONS;
      assert i == Index(begun);
      hide LastAt, Cookie, Index, Holds;
      var operation := RecordAt(i);
      cookie := FillRecord(operation, i, kind, sql);
      index := i;
      begun := begun + 1;
    }

    /**
     The record a cookie stands for, if it is still there: that of the operation itself exactly
     if fewer than twenty have begun since, and none otherwise, unless the cookies have come round.
     */
    method GetOperation(cookie: int, ghost n: nat) returns (operation: Operation?)
      requires Valid() && n < begun && cookie == Cookie(n)
      ensures begun - n <= MAX_RECENT_OPERATIONS ==> operation != null && operation.number == n
      ensures MAX_RECENT_OPERATIONS < begun - n <= PERIOD ==> operation == null
      ensures operation != null ==>
                operation == operations[Index(n)] && operation in records && operation.number % PERIOD == n % PERIOD
    {
      CookieParts(n);
      LastAtOwn(begun, n);
      assert Index(n) < MAX_RECENT_OPERATIONS;
      hide LastAt, Cookie, Index;
      var i := cookie % 0x100;
      operation := operations[i];
      CookiesEqual(operation.number, n);
      if operation.cookie != cookie {
        operation := null;
      } else if begun - n <= PERIOD {
        Younger(operation.number, n, begun);
      }
    }

    method FailOperation(cookie: int, exception: string, ghost n: nat)
      requires Valid() && n < begun && cookie == Cookie(n)
      modifies records
      ensures Valid()
      ensures begun - n <= MAX_RECENT_OPERATIONS ==>
                operations[Index(n)] != null && operations[Index(n)].exception == Some(exception)
      ensures MAX_RECENT_OPERATIONS < begun - n <= PERIOD ==> forall r :: r in records ==> unchanged(r)
      ensures forall r :: r in records && r.number % PERIOD != n % PERIOD ==> unchanged(r)
    {
      hide LastAt, Cookie, Index;
      var operation := GetOperation(cookie, n);
      if operation != null {
        operation.exception := Some(exception);
      }
    }

    method EndOperation(cookie: int, ghost n: nat)
      requires Valid() && n < begun && cookie == Cookie(n)
      modifies records
      ensures Valid()
      ensures begun - n <= MAX_RECENT_OPERATIONS ==> operations[Index(n)] != null && operations[Index(n)].finished
      ensures MAX_RECENT_OPERATIONS < begun - n <= PERIOD ==> forall r :: r in records ==> unchanged(r)
      ensures forall r :: r in records && r.number % PERIOD != n % PERIOD ==> unchanged(r)
    {
      hide LastAt, Cookie, Index;
      var operation := GetOperation(cookie, n);
      if operation != null {
        operation.finished := true;
      }
    }
  }

  // Of two operations with one cookie, both among the last 5 * 2^24, there is only one.
  lemma Younger(m: nat, n: nat, begun: nat)
    requires n <= m < begun <= n + PERIOD && m % PERIOD == n % PERIOD
    ensures m == n
  {
  }
}
