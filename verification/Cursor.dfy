/**
 SQLiteCursor as a cache of a query result, and QueryResults, which reads a cursor to its end.
 The result is stable: every execution of the query yields the same rows.
 */
module Cursor {
  import opened Wrappers
  import opened WindowFill

  const NO_COUNT := -1

  /** A start position such that a third of the window comes before the required row. */
  function CursorPickFillWindowStartPosition(cursorPosition: int, cursorWindowCapacity: int): (start: nat)
    requires cursorWindowCapacity >= 0
    ensures if cursorPosition > cursorWindowCapacity / 3 then cursorPosition - start == cursorWindowCapacity / 3
            else start == 0
  {
    if cursorPosition - cursorWindowCapacity / 3 > 0 then cursorPosition - cursorWindowCapacity / 3 else 0
  }

  // What the cursor does not decide: the size of a new window, and what goes wrong with one
  // execution of the query, before it is executed or during it.
  datatype Env = Env(capacity: nat, slotCost: nat -> nat, cellCost: Cell -> nat, refused: bool, fill: FillEnv)

  ghost predicate ValidEnv(env: Env) {
    forall k: nat :: env.slotCost(0) <= env.slotCost(k)
  }

  /** Executes the query into the window: SQLiteQuery.fillWindow and SQLiteConnection.executeForCursorWindow. */
  method ExecuteForCursorWindow(rows: seq<Row>, columns: nat, window: CursorWindow, startPos: nat, requiredPos: nat,
                                countAllRows: bool, env: Env)
    returns (countedRows: int, threw: bool)
    requires window.Valid() && forall i :: 0 <= i < |rows| ==> |rows[i]| == columns
    modifies window
    ensures !threw ==>
              && window.startPosition >= 0 && Slice(window.rows, rows, window.startPosition)
              && window.Room(window.rows) <= window.capacity
    ensures !threw && env.fill.columnsFail == {} ==>
              FilledFrom(window, rows, startPos, requiredPos, window.rows, window.startPosition)
    ensures !threw && env.fill.columnsFail == {} && countAllRows ==> countedRows == |rows|
    ensures !threw && countAllRows ==> countedRows == |rows| || countedRows == 0
    ensures !env.refused && env.fill.stopsAfter == None ==> !threw
  {
    if env.refused {
      return 0, true;
    }
    var result := NativeExecuteForCursorWindow(rows, columns, window, startPos, requiredPos, countAllRows, env.fill);
    match result
    case Threw => return 0, true;
    case NoColumns => return 0, false;
    case Rows(iStart, nRow) =>
      window.startPosition := iStart;
      return nRow, false;
  }

  // The window is the one there was or, if there was none, of the size that a new one has.
  ghost predicate SizedLike(was: CursorWindow?, window: CursorWindow?, env: Env) {
    && window != null
    && (if was != null then window == was
        else window.capacity == env.capacity && window.slotCost == env.slotCost && window.cellCost == env.cellCost)
  }

  // The rows together have room in this window or, if there is none, in a new one.
  ghost predicate HaveRoom(window: CursorWindow?, held: seq<Row>, env: Env) {
    if window == null then RoomFor(env.slotCost, env.cellCost, held) <= env.capacity
    else window.Room(held) <= window.capacity
  }

  class SQLiteCursor {
    const columns: seq<string>
    const rows: seq<Row>              // the result of the query
    var window: CursorWindow?
    var pos: int
    var count: int
    var cursorWindowCapacity: int

    // The window holds rows of the result, numbered from its start position on.
    ghost predicate Agrees()
      reads this, window
    {
      && window != null && window.Valid() && window.startPosition >= 0
      && Slice(window.rows, rows, window.startPosition) && window.Room(window.rows) <= window.capacity
    }

    ghost predicate Basic()
      reads this
    {
      (forall i :: 0 <= i < |rows| ==> |rows[i]| == |columns|) && -1 <= pos && 0 <= cursorWindowCapacity
    }

    ghost predicate Valid()
      reads this, window
    {
      && Basic()
      && (window != null ==> window.Valid())
      && (count != NO_COUNT ==> Agrees() && (count == |rows| || count == 0))
    }

    predicate Covers(position: int)
      reads this, window
    {
      window != null && window.startPosition <= position < window.startPosition + |window.rows|
    }

    constructor (columns: seq<string>, rows: seq<Row>)
      requires forall i :: 0 <= i < |rows| ==> |rows[i]| == |columns|
      ensures Valid() && window == null && pos == -1 && count == NO_COUNT
      ensures this.columns == columns && this.rows == rows
    {
      this.columns, this.rows := columns, rows;
      window, pos, count, cursorWindowCapacity := null, -1, NO_COUNT, 0;
    }

    /** Whatever the new window holds, it is filled again before anything is read from it. */
    method SetWindow(newWindow: CursorWindow?)
      requires Basic() && (newWindow != null ==> newWindow.Valid())
      modifies this`window, this`count
      ensures Valid() && window == newWindow && count == NO_COUNT
    {
      window := newWindow;
      count := NO_COUNT;
    }

    // An empty window, the one there is or a new one.
    method ClearOrCreateWindow(env: Env)
      requires Valid() && ValidEnv(env)
      modifies this`window, this`count, window
      ensures SizedLike(old(window), window, env) && window.Valid() && window.rows == [] && window.startPosition == 0
      ensures if old(window) == null then fresh(window) && count == NO_COUNT
              else window == old(window) && count == old(count)
    {
      if window == null {
        var newWindow := new CursorWindow(env.capacity, env.slotCost, env.cellCost);
        window := newWindow;
        count := NO_COUNT;
      } else {
        window.Clear();
      }
    }

    /**
     Fills the window so that it holds the required row, counting the rows if that has not been
     done. The row is in the window exactly if all rows from the picked start to it fit into an
     empty one. If the query throws, the window is dropped and the count forgotten.
     */
    method FillWindow(requiredPos: nat, env: Env) returns (threw: bool)
      requires Valid() && ValidEnv(env)
      modifies this`window, this`count, this`cursorWindowCapacity, window
      ensures Valid() && (window == old(window) || window == null || fresh(window))
      ensures threw ==> window == null && count == NO_COUNT
      ensures !threw ==> Agrees() && SizedLike(old(window), window, env) && (count == |rows| || count == 0)
      ensures !threw && old(count) != NO_COUNT && old(window) != null ==>
                count == old(count) && cursorWindowCapacity == old(cursorWindowCapacity)
      ensures !threw && (old(count) == NO_COUNT || old(window) == null) ==> cursorWindowCapacity == |window.rows|
      ensures !threw && env.fill.columnsFail == {} ==>
                && (old(count) == NO_COUNT ==> count == |rows|)
                && (var start := CursorPickFillWindowStartPosition(requiredPos,
                                   if old(count) == NO_COUNT || old(window) == null then 0
                                     else old(cursorWindowCapacity));
                    FilledFrom(window, rows, start, requiredPos, window.rows, window.startPosition))
      ensures !env.refused && env.fill.stopsAfter == None ==> !threw
    {
      hide FilledFrom, CursorPickFillWindowStartPosition, Cost;
      ClearOrCreateWindow(env);
      if count == NO_COUNT {
        var startPos := CursorPickFillWindowStartPosition(requiredPos, 0);
        var counted;
        counted, threw := ExecuteForCursorWindow(rows, |columns|, window, startPos, requiredPos, true, env);
        if !threw {
          count := counted;
          cursorWindowCapacity := |window.rows|;
        }
      } else {
        var startPos := CursorPickFillWindowStartPosition(requiredPos, cursorWindowCapacity);
        var ignored;
        ignored, threw := ExecuteForCursorWindow(rows, |columns|, window, startPos, requiredPos, false, env);
      }
      if threw {
        SetWindow(null);
      }
    }

    method OnMove(newPosition: nat, env: Env) returns (threw: bool)
      requires Valid() && ValidEnv(env) && count != NO_COUNT
      modifies this`window, this`count, this`cursorWindowCapacity, window
      ensures Valid() && (window == old(window) || window == null || fresh(window))
      ensures threw ==> window == null && count == NO_COUNT
      ensures !threw ==> Agrees() && count == old(count) && window == old(window)
      ensures !threw && env.fill.columnsFail == {} && newPosition < |rows| ==>
                (Covers(newPosition) <==>
                   || old(Covers(newPosition))
                   || AllFit(window, rows, CursorPickFillWindowStartPosition(newPosition, old(cursorWindowCapacity)),
                     newPosition))
      ensures !env.refused && env.fill.stopsAfter == None ==> !threw
    {
      hide CursorPickFillWindowStartPosition, Cost, Slice, AllFit;
      threw := false;
      if window == null || newPosition < window.startPosition || newPosition >= window.startPosition + |window.rows| {
        threw := FillWindow(newPosition, env);
      }
    }

    method GetCount(env: Env) returns (n: int, threw: bool)
      requires Valid() && ValidEnv(env)
      modifies this`window, this`count, this`cursorWindowCapacity, window
      ensures Valid() && (window == old(window) || window == null || fresh(window))
      ensures threw ==> window == null && count == NO_COUNT
      ensures !threw ==> n == count && count != NO_COUNT
      ensures old(count) != NO_COUNT ==> !threw && unchanged(this) && unchanged(window)
      ensures !threw ==> SizedLike(old(window), window, env)
      ensures !threw && env.fill.columnsFail == {} && old(count) == NO_COUNT ==>
                count == |rows| && window.startPosition == 0 && FilledFrom(window, rows, 0, 0, window.rows, 0)
      ensures !env.refused && env.fill.stopsAfter == None ==> !threw
    {
      hide Cost, Slice, AllFit;
      threw := false;
      if count == NO_COUNT {
        threw := FillWindow(0, env);
      }
      n := count;
    }

    /**
     AbstractCursor.moveToPosition. A move to the position the cursor is at does not look at the
     window, although counting the rows may just have filled it from the start. Then the row is
     there exactly if there is room for it and all before it together. After any other move it
     is there if all those fit one by one, and only if it does itself.
     */
    method MoveToPosition(position: int, counting: Env, filling: Env) returns (moved: bool, threw: bool)
      requires Valid() && ValidEnv(counting) && ValidEnv(filling)
      modifies this`window, this`count, this`cursorWindowCapacity, this`pos, window
      ensures Valid() && (window == old(window) || window == null || fresh(window))
      ensures threw ==> !moved && pos == old(pos)
      ensures !threw ==> count != NO_COUNT && moved == (0 <= position < count)
                         && pos == if position >= count then count else if position < 0 then -1 else position
      ensures !threw ==> SizedLike(old(window), window, counting)
      ensures !threw && counting.fill.columnsFail == {} && old(count) == NO_COUNT ==> count == |rows|
      ensures old(count) != NO_COUNT && !threw ==> count == old(count)
      ensures moved && position == old(pos) && old(count) == NO_COUNT && counting.fill.columnsFail == {} ==>
                position < |rows| && (Covers(position) <==> HaveRoom(old(window), rows[..position + 1], counting))
      ensures position == old(pos) && old(count) != NO_COUNT ==> !threw
      ensures moved && position == old(pos) && old(count) != NO_COUNT ==> Covers(position) == old(Covers(position))
      ensures moved && Covers(position) ==> position < |rows| && window.Fits(rows[position])
      ensures moved && position != old(pos) && filling.fill.columnsFail == {} && AllFit(window, rows, 0, position) ==>
                Covers(position)
      ensures !counting.refused && counting.fill.stopsAfter == None && !filling.refused &&
              filling.fill.stopsAfter == None ==>
                !threw
    {
      hide Cost, RoomFor, FilledFrom, CursorPickFillWindowStartPosition, HaveRoom, CursorWindow.Room, CursorWindow.Fits;
      moved := false;
      var n;
      n, threw := GetCount(counting);
      if threw {
        return;
      }
      if position >= n {
        pos := n;
        return;
      }
      if position < 0 {
        pos := -1;
        return;
      }
      if position == pos {
        CoveredFits(position);
        if old(count) == NO_COUNT && counting.fill.columnsFail == {} {
          CountedExactly(old(window), position, counting);
        }
        return true, false;
      }
      threw := OnMove(position, filling);
      if !threw {
        moved, pos := true, position;
        CoveredFits(position);
      }
    }

    lemma CoveredFits(position: nat)
      requires Agrees()
      ensures Covers(position) ==> position < |rows| && window.Fits(rows[position])
    {
      if Covers(position) {
        HeldFit(window, window.rows, position - window.startPosition);
      }
    }

    lemma CountedExactly(was: CursorWindow?, position: nat, env: Env)
      requires Agrees() && position < |rows| && SizedLike(was, window, env) && window.startPosition == 0
      requires FilledFrom(window, rows, 0, 0, window.rows, 0)
      ensures Covers(position) <==> HaveRoom(was, rows[..position + 1], env)
    {
      HeldExactly(window, rows, 0, 0, window.rows, position);
      assert rows[0..position + 1] == rows[..position + 1];
    }

    // getType and the getters: the cell at the current position, if the window holds it. What
    // the platform's window answers if it does not is not modelled.
    method GetValue(column: nat) returns (value: Option<Cell>)
      requires Valid() && count != NO_COUNT && column < |columns|
      ensures Covers(pos) ==> pos < |rows| && value == Some(rows[pos][column])
      ensures !Covers(pos) ==> value == None
    {
      if Covers(pos) {
        value := Some(window.rows[pos - window.startPosition][column]);
      } else {
        value := None;
      }
    }
  }

  // ---------------------------------------------------------------- reading everything

  // A row as a map from column names; of two columns with one name the later one counts.
  function RowMap(names: seq<string>, row: Row): map<string, Cell>
    requires |names| == |row|
  {
    if names == [] then map[]
    else RowMap(names[..|names| - 1], row[..|row| - 1])[names[|names| - 1] := row[|row| - 1]]
  }

  // Of equal names this is the last.
  ghost predicate LastOfName(names: seq<string>, i: nat) {
    i < |names| && forall j :: i < j < |names| ==> names[j] != names[i]
  }

  lemma {:induction false} NamesOfMap(names: seq<string>, row: Row)
    requires |names| == |row|
    ensures forall name :: name in RowMap(names, row) <==> name in names
  {
    if names != [] {
      var n := |names| - 1;
      NamesOfMap(names[..n], row[..n]);
      assert RowMap(names, row) == RowMap(names[..n], row[..n])[names[n] := row[n]];
      hide RowMap;
      assert names == names[..n] + [names[n]];
    }
  }

  lemma {:induction false} LastCounts(names: seq<string>, row: Row, i: nat)
    requires |names| == |row| && LastOfName(names, i)
    ensures names[i] in RowMap(names, row) && RowMap(names, row)[names[i]] == row[i]
  {
    var n := |names| - 1;
    assert RowMap(names, row) == RowMap(names[..n], row[..n])[names[n] := row[n]];
    if i < n {
      LastCounts(names[..n], row[..n], i);
    }
  }

  /** Every name is there, and of equal names the last one counts. */
  lemma RowMapExact(names: seq<string>, row: Row)
    requires |names| == |row|
    ensures forall name :: name in RowMap(names, row) <==> name in names
    ensures forall i :: 0 <= i < |names| && LastOfName(names, i) ==>
              names[i] in RowMap(names, row) && RowMap(names, row)[names[i]] == row[i]
  {
    hide RowMap, LastOfName;
    NamesOfMap(names, row);
    forall i | 0 <= i < |names| && LastOfName(names, i)
      ensures names[i] in RowMap(names, row) && RowMap(names, row)[names[i]] == row[i]
    {
      LastCounts(names, row, i);
    }
  }

  // The row at the current position; None if it has cells and the window does not hold them.
  method ReadRow(cursor: SQLiteCursor, columnNames: seq<string>) returns (row: Option<map<string, Cell>>)
    requires cursor.Valid() && cursor.count != NO_COUNT && 0 <= cursor.pos < |cursor.rows| &&
             columnNames == cursor.columns
    ensures row == if !cursor.Covers(cursor.pos) && columnNames != [] then None
                   else Some(RowMap(columnNames, cursor.rows[cursor.pos]))
  {
    var current := map[];
    ghost var cells := cursor.rows[cursor.pos];
    for i := 0 to |columnNames|
      invariant current == RowMap(columnNames[..i], cells[..i])
      invariant cursor.Covers(cursor.pos) || i == 0
    {
      var val := cursor.GetValue(i);
      if val.None? {
        return None;
      }
      assert columnNames[..i + 1][..i] == columnNames[..i] && cells[..i + 1][..i] == cells[..i];
      current := current[columnNames[i] := val.value];
    }
    assert columnNames[..|columnNames|] == columnNames && cells[..|columnNames|] == cells;
    row := Some(current);
  }

  // How the reading of a result ends: the last row was read, the query threw, or the row at
  // hand is not in the window. What the platform's window answers then is not modelled.
  datatype Reading = AllRead | QueryThrew | RowMissing

  // An execution of the query goes through.
  ghost predicate GoesThrough(env: Env) {
    !env.refused && env.fill == FillEnv({}, None)
  }

  // The count is that of the rows, or will be.
  ghost predicate CountsAll(cursor: SQLiteCursor, counting: Env)
    reads cursor
  {
    if cursor.count == NO_COUNT then counting.fill.columnsFail == {} else cursor.count == |cursor.rows|
  }

  // These are the first rows of the result.
  ghost predicate FirstRows(names: seq<string>, rows: seq<Row>, data: seq<map<string, Cell>>) {
    |data| <= |rows| && forall i :: 0 <= i < |data| ==> |rows[i]| == |names| && data[i] == RowMap(names, rows[i])
  }

  lemma OneMoreRow(names: seq<string>, rows: seq<Row>, data: seq<map<string, Cell>>)
    requires FirstRows(names, rows, data) && |data| < |rows| && |rows[|data|]| == |names|
    ensures FirstRows(names, rows, data + [RowMap(names, rows[|data|])])
  {
    hide RowMap;
  }

  lemma OneMoreFits(w: CursorWindow, rows: seq<Row>, n: nat)
    requires AllFit(w, rows, 0, n - 1) && n < |rows| && w.Fits(rows[n])
    ensures AllFit(w, rows, 0, n)
  {
  }

  lemma UpToNextFits(w: CursorWindow, rows: seq<Row>, n: nat)
    requires AllFit(w, rows, 0, n - 1)
    ensures n < |rows| ==> (AllFit(w, rows, 0, n) <==> w.Fits(rows[n]))
  {
  }

  lemma FitsAlone(was: CursorWindow?, w: CursorWindow, row: Row, env: Env)
    requires w.Valid() && SizedLike(was, w, env)
    ensures w.Fits(row) <==> HaveRoom(was, [row], env)
  {
    RoomForOne(w, row);
  }

  // The cursor stands on the first row, without having to count, and the window does not hold
  // that row. A move to it does not change that.
  ghost predicate OnLostRow(cursor: SQLiteCursor)
    reads cursor, cursor.window
  {
    cursor.pos == 0 && cursor.count != NO_COUNT && !cursor.Covers(0)
  }

  // The cursor was moved to the n-th row, or could not be. `all` says that the count is that of
  // the rows, `exact` also that no execution fails.
  ghost predicate At(cursor: SQLiteCursor, was: CursorWindow?, counting: Env, n: nat, all: bool, exact: bool, ok: bool,
                     threw: bool)
    reads cursor, cursor.window
  {
    && (!threw ==> SizedLike(was, cursor.window, counting) && cursor.count != NO_COUNT)
    && (if ok then !threw && cursor.pos == n < cursor.count else !threw ==> n == cursor.count)
    && (all && !threw ==> cursor.count == |cursor.rows|)
    && (exact ==> all && !threw && cursor.columns != [] && AllFit(cursor.window, cursor.rows, 0, n - 1))
    && (exact && ok && n < |cursor.rows| ==> (cursor.Covers(n) <==> cursor.window.Fits(cursor.rows[n])))
  }

  method MoveOn(cursor: SQLiteCursor, n: nat, counting: Env, filling: Env, ghost was: CursorWindow?, ghost all: bool,
                ghost exact: bool)
    returns (ok: bool, threw: bool)
    requires cursor.Valid() && ValidEnv(counting) && ValidEnv(filling)
    requires if n == 0 then
               was == cursor.window && all == CountsAll(cursor, counting) && (exact ==> !OnLostRow(cursor))
             else
               && cursor.pos == n - 1 && At(cursor, was, counting, n - 1, all, exact, true, false)
               && (exact ==> cursor.Covers(n - 1))
    requires exact ==> all && GoesThrough(counting) && GoesThrough(filling) && cursor.columns != []
    modifies cursor`window, cursor`count, cursor`cursorWindowCapacity, cursor`pos, cursor.window
    ensures cursor.Valid() && At(cursor, was, counting, n, all, exact, ok, threw)
    ensures n == 0 && old(OnLostRow(cursor) && 0 < cursor.count) ==> ok && !cursor.Covers(0)
    ensures cursor.window == old(cursor.window) || cursor.window == null || fresh(cursor.window)
  {
    hide FilledFrom, HaveRoom, RoomFor, Cost, CursorWindow.Room, CursorWindow.Fits, Slice, AllFit;
    if exact && n > 0 {
      OneMoreFits(cursor.window, cursor.rows, n - 1);
    }
    ok, threw := cursor.MoveToPosition(n, counting, filling);
    if exact {
      if n == 0 {
        NothingMisfitsYet(cursor.window, cursor.rows);
        if ok {
          FitsAlone(was, cursor.window, cursor.rows[0], counting);
          assert cursor.rows[..1] == [cursor.rows[0]];
        }
      }
      UpToNextFits(cursor.window, cursor.rows, n);
    }
  }

  // What that says about the rows read so far and the one at hand.
  lemma Arrived(cursor: SQLiteCursor, was: CursorWindow?, counting: Env, n: nat, all: bool, exact: bool, ok: bool,
                threw: bool)
    requires cursor.Valid() && At(cursor, was, counting, n, all, exact, ok, threw) && n <= |cursor.rows|
    ensures forall i :: 0 <= i < |cursor.rows| ==> |cursor.rows[i]| == |cursor.columns|
    ensures ok ==> cursor.count != NO_COUNT && cursor.pos == n < |cursor.rows| && !threw
    ensures ok && !cursor.Covers(n) ==> (exact ==> cursor.columns != [] && !HaveRoom(was, [cursor.rows[n]], counting))
    ensures ok && cursor.columns == [] ==> !exact
    ensures !ok && !threw && all ==> n == |cursor.rows|
    ensures exact ==> !threw && forall i :: 0 <= i < n ==> HaveRoom(was, [cursor.rows[i]], counting)
  {
    hide HaveRoom, RoomFor, Cost, CursorWindow.Room, CursorWindow.Fits, Slice, AllFit;
    if exact {
      AllFitAlone(was, cursor.window, cursor.rows, n, counting);
    }
  }

  /**
   Every row of the result is read once, in order, however few of them a window can hold at a
   time, up to the first that does not fit into an empty one; but none if the cursor stands on
   the first row already and that is lost.
   */
  method ReadResults(cursor: SQLiteCursor, counting: Env, filling: nat -> Env)
    returns (columnNames: seq<string>, data: seq<map<string, Cell>>, end: Reading)
    requires cursor.Valid() && ValidEnv(counting) && forall k: nat :: ValidEnv(filling(k))
    modifies cursor`window, cursor`count, cursor`cursorWindowCapacity, cursor`pos, cursor.window
    ensures columnNames == cursor.columns && |data| <= |cursor.rows|
    ensures forall i :: 0 <= i < |data| ==> data[i] == RowMap(columnNames, cursor.rows[i])
    ensures end.AllRead? && old(CountsAll(cursor, counting)) ==> |data| == |cursor.rows|
    ensures old(CountsAll(cursor, counting)) && GoesThrough(counting) && (forall k: nat :: GoesThrough(filling(k))) &&
            columnNames != [] && !old(OnLostRow(cursor)) ==>
              && (forall i :: 0 <= i < |data| ==> HaveRoom(old(cursor.window), [cursor.rows[i]], counting))
              && end == (if |data| < |cursor.rows| then RowMissing else AllRead)
              && (|data| < |cursor.rows| ==> !HaveRoom(old(cursor.window), [cursor.rows[|data|]], counting))
    ensures old(OnLostRow(cursor) && 0 < cursor.count) && columnNames != [] ==> data == [] && end == RowMissing
  {
    hide *;
    columnNames, data := cursor.columns, [];
    ghost var was, all := cursor.window, CountsAll(cursor, counting);
    ghost var lost := OnLostRow(cursor) && 0 < cursor.count && columnNames != [];
    ghost var exact := all && GoesThrough(counting) && (forall k: nat :: GoesThrough(filling(k)))
                       && columnNames != [] && !OnLostRow(cursor);
    NothingRead(columnNames, cursor.rows);
    var ok, threw := MoveOn(cursor, 0, counting, filling(0), was, all, exact);
    while ok
      invariant cursor.Valid() && At(cursor, was, counting, |data|, all, exact, ok, threw)
      invariant cursor.window == was || cursor.window == null || fresh(cursor.window)
      invariant FirstRows(columnNames, cursor.rows, data) && |data| <= |cursor.rows|
      invariant lost ==> ok && data == [] && !cursor.Covers(0)
      decreases |cursor.rows| - |data|, ok
    {
      Arrived(cursor, was, counting, |data|, all, exact, ok, threw);
      var row := ReadRow(cursor, columnNames);
      if row.None? {
        RowsRead(columnNames, cursor.rows, data);
        return columnNames, data, RowMissing;
      }
      OneMoreRow(columnNames, cursor.rows, data);
      data := data + [row.value];
      ok, threw := MoveOn(cursor, |data|, counting, filling(|data|), was, all, exact);
    }
    Arrived(cursor, was, counting, |data|, all, exact, ok, threw);
    end := if threw then QueryThrew else AllRead;
    RowsRead(columnNames, cursor.rows, data);
  }

  lemma NothingRead(names: seq<string>, rows: seq<Row>)
    ensures FirstRows(names, rows, [])
  {
  }

  lemma NothingMisfitsYet(w: CursorWindow, rows: seq<Row>)
    ensures AllFit(w, rows, 0, -1)
  {
  }

  lemma RowsRead(names: seq<string>, rows: seq<Row>, data: seq<map<string, Cell>>)
    requires FirstRows(names, rows, data)
    ensures |data| <= |rows| && forall i :: 0 <= i < |data| ==>
              |rows[i]| == |names| && data[i] == RowMap(names, rows[i])
  {
  }

  lemma AllFitAlone(was: CursorWindow?, w: CursorWindow, rows: seq<Row>, n: nat, env: Env)
    requires w.Valid() && SizedLike(was, w, env) && AllFit(w, rows, 0, n - 1) && n <= |rows|
    ensures forall i :: 0 <= i < n ==> HaveRoom(was, [rows[i]], env)
    ensures n < |rows| ==> (w.Fits(rows[n]) <==> HaveRoom(was, [rows[n]], env))
  {
    forall i | 0 <= i < |rows| ensures w.Fits(rows[i]) <==> HaveRoom(was, [rows[i]], env) {
      FitsAlone(was, w, rows[i], env);
    }
  }

  // ---------------------------------------------------------------- a move to the same place

  lemma ThreeRowsTooMany(w: CursorWindow)
    requires w.Valid() && w.capacity == 2 && (forall k: nat :: w.slotCost(k) == 1) &&
             (forall cell :: w.cellCost(cell) == 0)
    ensures w.Room([[CNull], [CNull], [CNull]]) == 3
  {
    var row: Row := [CNull];
    assert row[..0] == [] && Cost(w.cellCost, row) == 0;
    RoomForOne(w, row);
    RoomForNext(w, [row], row);
    RoomForNext(w, [row, row], row);
    assert [row] + [row] == [row, row] && [row, row] + [row] == [row, row, row];
  }

  // A cursor over three rows in a window for two, at its last row.
  method AtLastRow(env: Env) returns (cursor: SQLiteCursor, moved: bool)
    requires ValidEnv(env) && GoesThrough(env)
    ensures fresh(cursor) && cursor.Valid() && cursor.rows == [[CNull], [CNull], [CNull]] && cursor.pos == 2
  {
    hide FilledFrom, HaveRoom, RoomFor, Slice;
    cursor := new SQLiteCursor(["c"], [[CNull], [CNull], [CNull]]);
    var threw;
    moved, threw := cursor.MoveToPosition(2, env, env);
  }

  /**
   The cursor is given another window of the same size and moved to where it is: the move
   succeeds, and the row is not in the window.
   */
  method MoveToSamePlace() returns (cursor: SQLiteCursor, moved: bool)
    ensures moved && cursor.pos == 2 && !cursor.Covers(2)
  {
    var env := Env(2, k => 1, cell => 0, false, FillEnv({}, None));
    cursor, moved := AtLastRow(env);
    var window := new CursorWindow(env.capacity, env.slotCost, env.cellCost);
    ThreeRowsTooMany(window);
    cursor.SetWindow(window);
    hide FilledFrom, RoomFor, Slice;
    assert cursor.rows[..2 + 1] == cursor.rows;
    var threw;
    moved, threw := cursor.MoveToPosition(2, env, env);
  }
}
