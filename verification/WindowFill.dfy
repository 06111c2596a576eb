/**
 Filling a cursor window from a query: the native loop that copies rows until the window is
 full, starting over when the required row has not been reached by then.
 */
module WindowFill {
  import opened Wrappers

  datatype Cell = CNull | CLong(long: int) | CDouble(bits: int) | CString(text: string) | CBlob(bytes: seq<bv8>)

  type Row = seq<Cell>

  function Cost(cellCost: Cell -> nat, row: Row): nat {
    if row == [] then 0 else Cost(cellCost, row[..|row| - 1]) + cellCost(row[|row| - 1])
  }

  // The room that rows take up from the start of a window on.
  ghost function RoomFor(slotCost: nat -> nat, cellCost: Cell -> nat, held: seq<Row>): nat {
    if held == [] then 0
    else RoomFor(slotCost, cellCost, held[..|held| - 1]) + slotCost(|held| - 1) + Cost(cellCost, held[|held| - 1])
  }

  /**
   The Android window, as far as it is documented: rows and cells take up room in a buffer of
   fixed size, an operation for which there is no room fails, and only `clear` gives room back.
   */
  class CursorWindow {
    const capacity: nat
    const slotCost: nat -> nat      // room taken by the k-th row, before its cells
    const cellCost: Cell -> nat
    var startPosition: int
    var numColumns: nat
    var rows: seq<Row>
    var used: nat

    // The room for an empty row is smallest at the start.
    ghost predicate Valid() {
      forall k: nat :: slotCost(0) <= slotCost(k)
    }

    /** The row fits into the empty window. */
    ghost predicate Fits(row: Row) {
      slotCost(0) + Cost(cellCost, row) <= capacity
    }

    ghost function Room(held: seq<Row>): nat {
      RoomFor(slotCost, cellCost, held)
    }

    constructor (capacity: nat, slotCost: nat -> nat, cellCost: Cell -> nat)
      requires forall k: nat :: slotCost(0) <= slotCost(k)
      ensures Valid() && rows == [] && used == 0 && startPosition == 0
      ensures this.capacity == capacity && this.slotCost == slotCost && this.cellCost == cellCost
    {
      this.capacity, this.slotCost, this.cellCost := capacity, slotCost, cellCost;
      startPosition, numColumns, rows, used := 0, 0, [], 0;
    }

    method Clear()
      modifies this
      ensures rows == [] && used == 0 && startPosition == 0 && numColumns == 0
    {
      startPosition, numColumns, rows, used := 0, 0, [], 0;
    }

    method AllocRow() returns (ok: bool)
      modifies this`rows, this`used
      ensures ok <==> old(used) + slotCost(old(|rows|)) <= capacity
      ensures ok ==> used == old(used) + slotCost(old(|rows|)) && rows == old(rows) + [seq(numColumns, i => CNull)]
      ensures !ok ==> unchanged(this)
    {
      ok := used + slotCost(|rows|) <= capacity;
      if ok {
        used := used + slotCost(|rows|);
        rows := rows + [seq(numColumns, i => CNull)];
      }
    }

    method FreeLastRow()
      modifies this`rows
      ensures rows == if old(rows) == [] then [] else old(rows[..|rows| - 1])
    {
      if |rows| > 0 {
        rows := rows[..|rows| - 1];
      }
    }

    // putNull, putLong, putDouble, putString and putBlob.
    method Put(cell: Cell, row: int, column: int) returns (ok: bool)
      modifies this`rows, this`used
      ensures ok <==> 0 <= row < |old(rows)| && 0 <= column < |old(rows)[row]| && old(used) + cellCost(cell) <= capacity
      ensures ok ==> used == old(used) + cellCost(cell) && rows == old(rows)[row := old(rows)[row][column := cell]]
      ensures !ok ==> unchanged(this)
    {
      ok := 0 <= row < |rows| && 0 <= column < |rows[row]| && used + cellCost(cell) <= capacity;
      if ok {
        used := used + cellCost(cell);
        rows := rows[row := rows[row][column := cell]];
      }
    }
  }

  lemma {:induction false} CostGrows(cellCost: Cell -> nat, row: Row, i: nat)
    requires i <= |row|
    ensures Cost(cellCost, row[..i]) <= Cost(cellCost, row)
    decreases |row| - i
  {
    if i == |row| {
      assert row[..i] == row;
    } else {
      CostOfNext(cellCost, row, i);
      CostGrows(cellCost, row, i + 1);
    }
  }

  lemma CostOfNext(cellCost: Cell -> nat, row: Row, i: nat)
    requires i < |row|
    ensures Cost(cellCost, row[..i + 1]) == Cost(cellCost, row[..i]) + cellCost(row[i])
  {
    assert row[..i + 1][..i] == row[..i];
  }

  // The rows of a window while the last one is being filled in.
  ghost predicate Partly(rows: seq<Row>, before: seq<Row>, row: Row, i: nat) {
    && i <= |row| && |rows| == |before| + 1 && rows[..|before|] == before
    && |rows[|before|]| == |row| && rows[|before|][..i] == row[..i]
  }

  lemma CellPut(rows: seq<Row>, before: seq<Row>, row: Row, i: nat)
    requires Partly(rows, before, row, i) && i < |row|
    ensures |rows| == |before| + 1 && |rows[|before|]| == |row| && rows[..|before|] == before
    ensures Partly(rows[|before| := rows[|before|][i := row[i]]], before, row, i + 1)
  {
    var last := rows[|before|][i := row[i]];
    assert last[..i + 1] == rows[|before|][..i] + [row[i]] && row[..i + 1] == row[..i] + [row[i]];
  }

  lemma RowPut(rows: seq<Row>, before: seq<Row>, row: Row)
    requires Partly(rows, before, row, |row|)
    ensures rows == before + [row]
  {
    assert rows == rows[..|before|] + [rows[|before|]];
    assert rows[|before|][..|row|] == rows[|before|] && row[..|row|] == row;
  }

  /**
   Copies a row behind the others; if there is no room for it, or its number is not the next
   one, the window is left with the rows it had.
   */
  method CopyRowToWindow(window: CursorWindow, iRow: int, row: Row) returns (ok: bool)
    requires iRow >= |window.rows| && |row| == window.numColumns && window.used <= window.capacity
    modifies window
    ensures ok <==> && (iRow == old(|window.rows|) || row == [])
                    && old(window.used) + window.slotCost(old(|window.rows|)) + Cost(window.cellCost,
                          row) <= window.capacity
    ensures ok ==> window.rows == old(window.rows) + [row]
    ensures ok ==> window.used == old(window.used) + window.slotCost(old(|window.rows|)) + Cost(window.cellCost, row)
    ensures !ok ==> window.rows == old(window.rows)
    ensures window.used <= window.capacity
    ensures window.startPosition == old(window.startPosition) && window.numColumns == old(window.numColumns)
  {
    hide Cost, Partly;
    var nCol := |row|;
    ghost var before, spent := window.rows, window.used + window.slotCost(|window.rows|);
    CostGrows(window.cellCost, row, 0);
    NothingYet(window.cellCost, before, row);
    ok := window.AllocRow();
    var i := 0;
    while ok && i < nCol
      invariant 0 <= i <= nCol && window.startPosition == old(window.startPosition) && window.numColumns == nCol
      invariant window.used <= window.capacity
      invariant ok ==> Partly(window.rows, before, row, i) && window.used == spent + Cost(window.cellCost, row[..i])
      invariant ok && i > 0 ==> iRow == |before|
      invariant !ok ==> window.rows == before
      invariant !ok ==> spent + Cost(window.cellCost, row) > window.capacity || (iRow != |before| && nCol > 0)
      decreases nCol - i, ok
    {
      CostOfNext(window.cellCost, row, i);
      CostGrows(window.cellCost, row, i + 1);
      CellPut(window.rows, before, row, i);
      ok := window.Put(row[i], iRow, i);
      if !ok {
        window.FreeLastRow();
      } else {
        i := i + 1;
      }
    }
    if ok {
      assert row[..i] == row;
      RowPut(window.rows, before, row);
    }
  }

  lemma NothingYet(cellCost: Cell -> nat, before: seq<Row>, row: Row)
    ensures Partly(before + [seq(|row|, i => CNull)], before, row, 0) && Cost(cellCost, row[..0]) == 0
  {
  }

  method SetWindowNumColumns(window: CursorWindow, columns: nat, ok: bool) returns (done: bool)
    modifies window
    ensures window.rows == [] && window.used == 0 && window.startPosition == 0
    ensures done == ok && (ok ==> window.numColumns == columns)
  {
    window.Clear();
    if ok {
      window.numColumns := columns;
    }
    return ok;
  }

  // What the native library does: which attempts to set the number of columns fail, and after
  // how many rows, if at all, the statement stops with an error.
  datatype FillEnv = FillEnv(columnsFail: set<nat>, stopsAfter: Option<nat>)

  datatype Filled = Rows(iStart: int, nRow: nat) | NoColumns | Threw

  // The rows of a sequence that a window holds, which are numbered from `start` on.
  ghost predicate Slice(held: seq<Row>, rows: seq<Row>, start: nat) {
    held == [] || (start + |held| <= |rows| && held == rows[start..start + |held|])
  }

  // Every row from one number to another, of those there are, fits into the empty window.
  ghost predicate AllFit(window: CursorWindow, rows: seq<Row>, from: int, to: int) {
    forall r :: from <= r <= to && 0 <= r < |rows| ==> window.Fits(rows[r])
  }

  // The window holds the rows from iStart up to nRow, and nothing it has lost takes up room.
  ghost predicate Filling(window: CursorWindow, rows: seq<Row>, columns: nat, iStart: nat, nRow: nat)
    reads window
  {
    && window.Valid() && window.startPosition == 0 && window.numColumns == columns
    && iStart <= nRow <= |rows| && window.rows == rows[iStart..nRow]
    && window.used == window.Room(window.rows) <= window.capacity
  }

  lemma RoomForOne(window: CursorWindow, row: Row)
    requires window.Valid()
    ensures window.Room([row]) == window.slotCost(0) + Cost(window.cellCost, row) && window.Room([]) == 0
  {
    assert window.Room([]) == 0;
    assert [row][..0] == [];
  }

  lemma RoomForNext(window: CursorWindow, held: seq<Row>, row: Row)
    requires window.Valid()
    ensures window.Room(held + [row]) == window.Room(held) + window.slotCost(|held|) + Cost(window.cellCost, row)
    ensures window.Room(held + [row]) <= window.capacity ==> window.Fits(row)
  {
    assert (held + [row])[..|held|] == held;
  }

  // Before the first row is looked at a negative start position is as good as 0.
  function FirstRow(iStart: int): nat {
    if iStart < 0 then 0 else iStart
  }

  // A window that starts with row `s` has room for the rows up to `n`, and none for that one.
  ghost predicate Overflows(w: CursorWindow, rows: seq<Row>, s: nat, n: nat) {
    s < n < |rows| && w.Room(rows[s..n]) <= w.capacity < w.Room(rows[s..n + 1])
  }

  // From `startPos` on the window starts over, each time with the first row there is no room
  // for, until it starts with row `iStart`; it never starts over after the required row.
  ghost predicate Restarts(w: CursorWindow, rows: seq<Row>, required: int, startPos: nat, iStart: nat)
    decreases iStart
  {
    || iStart == startPos
    || (exists s: nat | startPos <= s < iStart ::
          iStart <= required && Restarts(w, rows, required, startPos, s) && Overflows(w, rows, s, iStart))
  }

  // The window after a row was looked at. It was added; or there is no room for it, after a
  // restart with it if it comes no later than the required one; or it follows a negative start
  // position and no row is required.
  ghost predicate Added(w: CursorWindow, rows: seq<Row>, required: int, nRow: nat, iStart: int,
                        held': seq<Row>, used': nat, iStart': int, bOk': bool)
    requires nRow < |rows|
  {
    && (iStart' == iStart || iStart' == nRow <= required) && w.Room(held') <= w.capacity
    && (0 <= iStart < iStart' ==> w.Room(rows[iStart..nRow + 1]) > w.capacity)
    && (bOk' ==>
          && 0 <= iStart' <= nRow && held' == rows[iStart'..nRow + 1] && used' == w.Room(held')
          && w.Fits(rows[nRow]))
    && (!bOk' && (0 <= iStart || nRow <= required) ==>
          && 0 <= iStart' <= nRow && held' == rows[iStart'..nRow] && w.Room(held' + [rows[nRow]]) > w.capacity
          && (nRow <= required ==> iStart' == nRow && !w.Fits(rows[nRow])))
    && (iStart < 0 && required < nRow ==> !bOk' && iStart' == iStart && held' == [])
    && (iStart < 0 && nRow <= required ==> iStart' == nRow)
  }

  // The row behind the others, if there is room for it, or left out although none is required any more.
  lemma BehindOthers(w: CursorWindow, rows: seq<Row>, required: int, nRow: nat, iStart: int)
    requires w.Valid() && nRow < |rows| && FirstRow(iStart) <= nRow && (iStart < 0 ==> nRow == 0)
    requires w.Room(rows[FirstRow(iStart)..nRow]) <= w.capacity
    ensures var held := rows[FirstRow(iStart)..nRow];
            var used := w.Room(held) + w.slotCost(|held|) + Cost(w.cellCost, rows[nRow]);
            && held + [rows[nRow]] == rows[FirstRow(iStart)..nRow + 1] && w.Room(held + [rows[nRow]]) == used
            && (used <= w.capacity && 0 <= iStart ==>
                  Added(w, rows, required, nRow, iStart, held + [rows[nRow]], used, iStart, true))
            && (required < nRow && (used > w.capacity || iStart < 0) ==>
                  forall any: nat :: Added(w, rows, required, nRow, iStart, held, any, iStart, false))
  {
    var held := rows[FirstRow(iStart)..nRow];
    RoomForNext(w, held, rows[nRow]);
    assert held + [rows[nRow]] == rows[FirstRow(iStart)..nRow + 1];
    hide Cost, RoomFor, CursorWindow.Fits, CursorWindow.Room, CursorWindow.Valid;
  }

  // The row alone in the cleared window, if it fits.
  lemma AtTheStart(w: CursorWindow, rows: seq<Row>, required: int, nRow: nat, iStart: int)
    requires w.Valid() && nRow < |rows| && nRow <= required
    requires 0 <= iStart < nRow ==> w.Room(rows[iStart..nRow + 1]) > w.capacity
    ensures var used := w.slotCost(0) + Cost(w.cellCost, rows[nRow]);
            && (used <= w.capacity ==> Added(w, rows, required, nRow, iStart, [rows[nRow]], used, nRow, true))
            && (used > w.capacity ==> forall any: nat :: Added(w, rows, required, nRow, iStart, [], any, nRow, false))
  {
    RoomForOne(w, rows[nRow]);
    assert rows[nRow..nRow] == [] && [rows[nRow]] == rows[nRow..nRow + 1];
    assert [] + [rows[nRow]] == [rows[nRow]];
    assert w.Fits(rows[nRow]) <==> w.slotCost(0) + Cost(w.cellCost, rows[nRow]) <= w.capacity;
    hide Cost, RoomFor, CursorWindow.Fits, CursorWindow.Room, CursorWindow.Valid;
  }

  /**
   Adds the next row. If there is no room for it although the required row has not been
   reached, the window is cleared and this row put first; then there is no room for it only if
   it does not even fit alone. The same happens to the first row after a negative start
   position, for which there is no place in the window.
   */
  method AddRow(window: CursorWindow, rows: seq<Row>, columns: nat, nRow: nat, iStart: int, iRowRequired: int,
                columnsFail: bool)
    returns (bOk: bool, iStart': int, noColumns: bool)
    requires nRow < |rows| && |rows[nRow]| == columns && (iStart < 0 ==> nRow == 0 && columns > 0)
    requires Filling(window, rows, columns, FirstRow(iStart), nRow)
    modifies window
    ensures window.startPosition == 0
    ensures noColumns ==> columnsFail && window.rows == []
    ensures !noColumns ==> Added(window, rows, iRowRequired, nRow, iStart, window.rows, window.used, iStart', bOk)
    ensures !noColumns ==> window.numColumns == columns && (!bOk && 0 <= iStart' ==> iStart' + |window.rows| == nRow)
  {
    hide Cost, RoomFor, CursorWindow.Fits, CursorWindow.Room, CursorWindow.Valid, Added;
    iStart', noColumns := iStart, false;
    BehindOthers(window, rows, iRowRequired, nRow, iStart);
    RoomForOne(window, rows[nRow]);
    bOk := CopyRowToWindow(window, nRow - iStart, rows[nRow]);
    if !bOk {
      if nRow <= iRowRequired {
        bOk := SetWindowNumColumns(window, columns, !columnsFail);
        if !bOk {
          noColumns := true;
          return;
        }
        iStart' := nRow;
        AtTheStart(window, rows, iRowRequired, nRow, iStart);
        bOk := CopyRowToWindow(window, nRow - iStart', rows[nRow]);
        assert bOk ==> window.rows == [rows[nRow]];
      }
    }
  }

  // How far the loop has come after looking at nRow rows. `misfit` is the first row between
  // startPos and the required one that does not fit alone.
  ghost predicate Progress(w: CursorWindow, rows: seq<Row>, startPos: nat, required: int,
                           held: seq<Row>, iStart: nat, nRow: nat, bOk: bool, misfit: Option<nat>) {
    && nRow <= |rows| && startPos <= iStart && (iStart > startPos ==> iStart <= required && iStart < nRow)
    && w.Room(held) <= w.capacity && Restarts(w, rows, required, startPos, iStart)
    && (bOk ==> held == if nRow < iStart then [] else rows[iStart..nRow])
    && (!bOk ==> iStart + |held| < nRow && held == rows[iStart..iStart + |held|]
                 && w.Room(held + [rows[iStart + |held|]]) > w.capacity)
    && (match misfit
        case None =>
          && (forall r :: startPos <= r < nRow && r <= required ==> w.Fits(rows[r]))
          && (startPos <= required < nRow ==> iStart <= required < iStart + |held|)
          && (!bOk ==> required < nRow)
        case Some(m) => startPos <= m < nRow && m <= required && !w.Fits(rows[m]) && !bOk && held == [])
  }

  lemma RowPassed(w: CursorWindow, rows: seq<Row>, startPos: nat, required: int,
                  held: seq<Row>, iStart: nat, nRow: nat, bOk: bool, misfit: Option<nat>)
    requires Progress(w, rows, startPos, required, held, iStart, nRow, bOk, misfit) && nRow < |rows|
    requires nRow < iStart || !bOk
    ensures Progress(w, rows, startPos, required, held, iStart, nRow + 1, bOk, misfit)
  {
    hide CursorWindow.Fits, CursorWindow.Room, Restarts;
  }

  lemma RowAdded(w: CursorWindow, rows: seq<Row>, startPos: nat, required: int,
                 held: seq<Row>, iStart: nat, nRow: nat, held': seq<Row>, iStart': nat, bOk': bool)
    requires Progress(w, rows, startPos, required, held, iStart, nRow, true, None) && iStart <= nRow < |rows|
    requires iStart' == iStart || iStart' == nRow <= required
    requires w.Room(held') <= w.capacity
    requires iStart < iStart' ==> w.Room(rows[iStart..nRow + 1]) > w.capacity
    requires bOk' ==> held' == rows[iStart'..nRow + 1] && w.Fits(rows[nRow])
    requires !bOk' ==> held' == rows[iStart'..nRow] && w.Room(held' + [rows[nRow]]) > w.capacity
    requires !bOk' && nRow <= required ==> iStart' == nRow && !w.Fits(rows[nRow])
    ensures Progress(w, rows, startPos, required, held', iStart', nRow + 1, bOk',
                     if !bOk' && nRow <= required then Some(nRow) else None)
  {
    hide CursorWindow.Fits, CursorWindow.Room;
    assert Restarts(w, rows, required, startPos, iStart') by {
      assert iStart < iStart' ==> Overflows(w, rows, iStart, iStart');
    }
    hide Restarts;
  }

  /**
   What the window holds in the end: rows from `iStart` on, as many as fit. `iStart` is where
   the restarts lead, and there is no further one: all rows are in the window, or the required
   one has been passed, or the first row of the window does not even fit alone. The required
   row, or the last one if there are not so many, is in the window exactly if all rows from
   `startPos` to it fit one by one.
   */
  ghost predicate FilledFrom(w: CursorWindow, rows: seq<Row>, startPos: nat, required: int, held: seq<Row>,
                             iStart: nat) {
    && startPos <= iStart && (iStart > startPos ==> iStart <= required && iStart < |rows|)
    && Restarts(w, rows, required, startPos, iStart)
    && Slice(held, rows, iStart) && w.Room(held) <= w.capacity
    && (startPos <= required && startPos < |rows| ==>
          (iStart <= LastNeeded(rows, required) < iStart + |held| <==> AllFit(w, rows, startPos, required)))
    && (iStart + |held| < |rows| ==>
          w.Room(held + [rows[iStart + |held|]]) > w.capacity && (held == [] || required < iStart + |held|))
  }

  // The required row, or the last one of the result.
  function LastNeeded(rows: seq<Row>, required: int): int {
    if required < |rows| then required else |rows| - 1
  }

  lemma Concluded(w: CursorWindow, rows: seq<Row>, startPos: nat, required: int,
                  held: seq<Row>, iStart: nat, nRow: nat, bOk: bool, misfit: Option<nat>)
    requires Progress(w, rows, startPos, required, held, iStart, nRow, bOk, misfit) && (nRow == |rows| || !bOk)
    ensures FilledFrom(w, rows, startPos, required, held, iStart)
  {
    hide CursorWindow.Fits, CursorWindow.Room, Restarts;
  }

  lemma Started(w: CursorWindow, rows: seq<Row>, startPos: nat, required: int)
    ensures Progress(w, rows, startPos, required, [], startPos, 0, true, None)
  {
  }

  // The state of the loop, whatever the start position: a negative one lasts only until the
  // first row, unless no row is required.
  ghost predicate Looking(w: CursorWindow, rows: seq<Row>, startPos: int, required: int, held: seq<Row>, used: nat,
                          iStart: int, nRow: nat, bOk: bool, misfit: Option<nat>) {
    && nRow <= |rows| && w.Room(held) <= w.capacity && (bOk ==> used == w.Room(held))
    && (if 0 <= iStart then
          && Progress(w, rows, FirstRow(startPos), required, held, iStart, nRow, bOk, misfit)
          && (startPos < 0 ==> 0 <= required && 0 < nRow)
        else
          && iStart == startPos && held == [] && misfit == None
          && (if bOk then nRow == 0 else required < 0 && 0 < nRow))
  }

  lemma StartsLooking(w: CursorWindow, rows: seq<Row>, startPos: int, required: int)
    requires w.Valid()
    ensures Looking(w, rows, startPos, required, [], 0, startPos, 0, true, None)
  {
    RoomForOne(w, []);
  }

  // The row at hand is to be added.
  lemma ToBeAdded(w: CursorWindow, rows: seq<Row>, startPos: int, required: int, held: seq<Row>, used: nat,
                  iStart: int, nRow: nat, misfit: Option<nat>)
    requires Looking(w, rows, startPos, required, held, used, iStart, nRow, true, misfit) && iStart <= nRow
    ensures held == rows[FirstRow(iStart)..nRow] && used == w.Room(held) <= w.capacity && misfit == None
    ensures iStart < 0 ==> nRow == 0 && startPos < 0
  {
    hide CursorWindow.Fits, CursorWindow.Room;
  }

  lemma LooksOn(w: CursorWindow, rows: seq<Row>, startPos: int, required: int, held: seq<Row>, used: nat,
                iStart: int, nRow: nat, held': seq<Row>, used': nat, iStart': int, bOk': bool)
    requires Looking(w, rows, startPos, required, held, used, iStart, nRow, true, None) && iStart <= nRow < |rows|
    requires Added(w, rows, required, nRow, iStart, held', used', iStart', bOk')
    ensures Looking(w, rows, startPos, required, held', used', iStart', nRow + 1, bOk',
                    if !bOk' && nRow <= required then Some(nRow) else None)
  {
    hide CursorWindow.Fits, CursorWindow.Room;
    if 0 <= iStart {
      hide Progress;
      RowAdded(w, rows, FirstRow(startPos), required, held, iStart, nRow, held', iStart', bOk');
    } else if 0 <= required {
      Started(w, rows, 0, required);
      hide Progress;
      RowAdded(w, rows, 0, required, [], 0, 0, held', iStart', bOk');
    }
  }

  lemma LooksPast(w: CursorWindow, rows: seq<Row>, startPos: int, required: int, held: seq<Row>, used: nat,
                  iStart: int, nRow: nat, bOk: bool, misfit: Option<nat>)
    requires Looking(w, rows, startPos, required, held, used, iStart, nRow, bOk, misfit) && nRow < |rows|
    requires nRow < iStart || !bOk
    ensures Looking(w, rows, startPos, required, held, used, iStart, nRow + 1, bOk, misfit)
  {
    hide Progress;
    if 0 <= iStart {
      RowPassed(w, rows, FirstRow(startPos), required, held, iStart, nRow, bOk, misfit);
    }
  }

  lemma LookedAtAll(w: CursorWindow, rows: seq<Row>, startPos: int, required: int, held: seq<Row>, used: nat,
                    iStart: int, nRow: nat, bOk: bool, misfit: Option<nat>)
    requires Looking(w, rows, startPos, required, held, used, iStart, nRow, bOk, misfit) && (nRow == |rows| || !bOk)
    ensures w.Room(held) <= w.capacity
    ensures 0 <= startPos || (0 <= required && rows != []) ==>
              0 <= iStart && FilledFrom(w, rows, FirstRow(startPos), required, held, iStart)
    ensures startPos < 0 && (required < 0 || rows == []) ==> iStart == startPos && held == []
    ensures bOk ==> |held| == if iStart <= |rows| then |rows| - FirstRow(iStart) else 0
    ensures iStart <= |rows| <==> startPos <= |rows|
  {
    hide CursorWindow.Fits, CursorWindow.Room, RoomFor, FilledFrom, Restarts;
    if 0 <= iStart {
      Concluded(w, rows, FirstRow(startPos), required, held, iStart, nRow, bOk, misfit);
    }
  }

  /**
   Fills the window from row `startPos` on. The window ends up with consecutive rows of the
   result: as many as fit from `startPos` on or, if the required row is not among those, from
   a later row on, as told in `FilledFrom`. From a negative position it fills as from 0 if a
   row is required, and otherwise not at all. The count is one past the last row held, unless
   the start lies past the end of the result.
   */
  method NativeExecuteForCursorWindow(rows: seq<Row>, columns: nat, window: CursorWindow, startPos: int,
                                      iRowRequired: int, countAllRows: bool, env: FillEnv)
    returns (r: Filled)
    requires window.Valid() && forall i :: 0 <= i < |rows| ==> |rows[i]| == columns
    requires startPos < 0 && rows != [] ==> columns > 0     // a row has columns
    modifies window
    ensures window.startPosition == 0
    ensures r.NoColumns? ==> env.columnsFail != {} && window.rows == []
    ensures r.Threw? ==> env.stopsAfter.Some? && env.stopsAfter.value < |rows|
    ensures r.Rows? ==> window.Room(window.rows) <= window.capacity
    ensures r.Rows? && (0 <= startPos || (0 <= iRowRequired && rows != [])) ==>
              0 <= r.iStart && FilledFrom(window, rows, FirstRow(startPos), iRowRequired, window.rows, r.iStart)
    ensures r.Rows? && startPos < 0 && (iRowRequired < 0 || rows == []) ==> r.iStart == startPos && window.rows == []
    ensures r.Rows? && countAllRows ==> r.nRow == |rows|
    ensures r.Rows? && !countAllRows ==>
              r.nRow == if startPos <= |rows| then FirstRow(r.iStart) + |window.rows| else |rows|
  {
    hide Cost, RoomFor, CursorWindow.Fits, CursorWindow.Room, CursorWindow.Valid, Looking, FilledFrom;
    StartsLooking(window, rows, startPos, iRowRequired);
    var bOk := SetWindowNumColumns(window, columns, 0 !in env.columnsFail);
    if !bOk {
      return NoColumns;
    }
    ghost var misfit: Option<nat> := None;
    var nRow, iStart, attempts := 0, startPos, 1;
    var last := if env.stopsAfter.Some? && env.stopsAfter.value < |rows| then env.stopsAfter.value else |rows|;
    while nRow < last
      invariant nRow <= last && window.startPosition == 0 && (bOk ==> window.numColumns == columns)
      invariant Looking(window, rows, startPos, iRowRequired, window.rows, window.used, iStart, nRow, bOk, misfit)
      invariant !bOk ==> countAllRows
    {
      if nRow >= iStart && bOk {
        ToBeAdded(window, rows, startPos, iRowRequired, window.rows, window.used, iStart, nRow, misfit);
        ghost var held, used, iStart0 := window.rows, window.used, iStart;
        var noColumns;
        bOk, iStart, noColumns :=
          AddRow(window, rows, columns, nRow, iStart, iRowRequired, attempts in env.columnsFail);
        attempts := attempts + 1;
        if noColumns {
          return NoColumns;
        }
        LooksOn(window, rows, startPos, iRowRequired, held, used, iStart0, nRow, window.rows, window.used, iStart, bOk);
        misfit := if !bOk && nRow <= iRowRequired then Some(nRow) else None;
        if !bOk && !countAllRows {
          LookedAtAll(window, rows, startPos, iRowRequired, window.rows, window.used, iStart, nRow + 1, bOk, misfit);
          return Rows(iStart, nRow);
        }
      } else {
        LooksPast(window, rows, startPos, iRowRequired, window.rows, window.used, iStart, nRow, bOk, misfit);
      }
      nRow := nRow + 1;
    }
    if nRow < |rows| {
      return Threw;
    }
    LookedAtAll(window, rows, startPos, iRowRequired, window.rows, window.used, iStart, nRow, bOk, misfit);
    r := Rows(iStart, nRow);
  }

  // ---------------------------------------------------------------- what fits

  lemma {:induction false} RoomGrows(w: CursorWindow, held: seq<Row>, n: nat)
    requires n <= |held|
    ensures w.Room(held[..n]) <= w.Room(held)
    decreases |held|
  {
    if n == |held| {
      assert held[..n] == held;
    } else {
      RoomGrows(w, held[..|held| - 1], n);
      assert held[..|held| - 1][..n] == held[..n];
    }
  }

  /** A row in the window fits into the empty one, and so do those of a slice that fits. */
  lemma {:induction false} HeldFit(w: CursorWindow, held: seq<Row>, i: nat)
    requires w.Valid() && w.Room(held) <= w.capacity && i < |held|
    ensures w.Fits(held[i])
  {
    RoomGrows(w, held, i + 1);
    assert held[..i + 1] == held[..i] + [held[i]];
    RoomForNext(w, held[..i], held[i]);
  }

  lemma SliceGrows(w: CursorWindow, rows: seq<Row>, s: nat, m: nat, n: nat)
    requires s <= m <= n <= |rows|
    ensures w.Room(rows[s..m]) <= w.Room(rows[s..n])
  {
    RoomGrows(w, rows[s..n], m - s);
    assert rows[s..n][..m - s] == rows[s..m];
  }

  /** Filled from its start, a window holds a row exactly if there is room for the rows up to it. */
  lemma HeldExactly(w: CursorWindow, rows: seq<Row>, start: nat, required: int, held: seq<Row>, position: nat)
    requires FilledFrom(w, rows, start, required, held, start) && start <= position < |rows|
    ensures position < start + |held| <==> w.Room(rows[start..position + 1]) <= w.capacity
  {
    hide Restarts, AllFit, CursorWindow.Room;
    var m := start + |held|;
    assert held == rows[start..m];
    assert m < |rows| ==> held + [rows[m]] == rows[start..m + 1];
    if position < m {
      SliceGrows(w, rows, start, position + 1, m);
    } else {
      SliceGrows(w, rows, start, m + 1, position + 1);
    }
  }

  // There is one first row without room.
  lemma OneOverflow(w: CursorWindow, rows: seq<Row>, s: nat, m: nat, n: nat)
    requires Overflows(w, rows, s, m) && Overflows(w, rows, s, n)
    ensures m == n
  {
    if m < n {
      SliceGrows(w, rows, s, m + 1, n);
    } else if n < m {
      SliceGrows(w, rows, s, n + 1, m);
    }
  }

  // Between a row and the one the window starts over with next there is no other start.
  lemma {:induction false} NoneBetween(w: CursorWindow, rows: seq<Row>, required: int, start: nat,
                                       s: nat, a: nat, b: nat)
    requires Restarts(w, rows, required, start, s) && Restarts(w, rows, required, start, a) && start <= s < a < b
    ensures !Overflows(w, rows, s, b)
    decreases a
  {
    hide Overflows;
    if Overflows(w, rows, s, b) {
      var t: nat :| start <= t < a && Restarts(w, rows, required, start, t) && Overflows(w, rows, t, a);
      if s < t {
        NoneBetween(w, rows, required, start, s, t, b);
      } else if s == t {
        OneOverflow(w, rows, s, a, b);
      } else {
        NoneBetween(w, rows, required, start, t, s, a);
      }
    }
  }

  // Of two rows the restarts lead to, the earlier one is left.
  lemma {:induction false} RestartsInLine(w: CursorWindow, rows: seq<Row>, required: int, start: nat, a: nat, b: nat)
    requires Restarts(w, rows, required, start, a) && Restarts(w, rows, required, start, b) && start <= a < b
    ensures exists n: nat :: n <= required && Overflows(w, rows, a, n)
    decreases b
  {
    hide Overflows;
    var s: nat :| start <= s < b && b <= required && Restarts(w, rows, required, start, s) && Overflows(w, rows, s, b);
    if a < s {
      RestartsInLine(w, rows, required, start, a, s);
    } else if s < a {
      NoneBetween(w, rows, required, start, s, a, b);
    }
  }

  // Where the filling ends the window does not start over.
  lemma NoFurther(w: CursorWindow, rows: seq<Row>, startPos: nat, required: int, held: seq<Row>, iStart: nat, n: nat)
    requires FilledFrom(w, rows, startPos, required, held, iStart) && n <= required
    ensures !Overflows(w, rows, iStart, n)
  {
    hide Restarts, AllFit, CursorWindow.Room;
    if Overflows(w, rows, iStart, n) {
      var m := iStart + |held|;
      assert m < |rows| ==> held + [rows[m]] == rows[iStart..m + 1];
      if n < m {
        SliceGrows(w, rows, iStart, n + 1, m);
      } else if m < n {
        SliceGrows(w, rows, iStart, m + 1, n);
      }
    }
  }

  /** The start and the contents of the window follow from the rows, the start position and the required row. */
  lemma FillDetermined(w: CursorWindow, rows: seq<Row>, startPos: nat, required: int,
                       held: seq<Row>, iStart: nat, held': seq<Row>, iStart': nat)
    requires FilledFrom(w, rows, startPos, required, held, iStart)
    requires FilledFrom(w, rows, startPos, required, held', iStart')
    ensures iStart == iStart' && held == held'
  {
    if iStart < iStart' {
      RestartsInLine(w, rows, required, startPos, iStart, iStart');
      forall n: nat | n <= required ensures !Overflows(w, rows, iStart, n) {
        NoFurther(w, rows, startPos, required, held, iStart, n);
      }
    } else if iStart' < iStart {
      RestartsInLine(w, rows, required, startPos, iStart', iStart);
      forall n: nat | n <= required ensures !Overflows(w, rows, iStart', n) {
        NoFurther(w, rows, startPos, required, held', iStart', n);
      }
    } else if iStart < |rows| {
      AsManyAsFit(w, rows, held, held', iStart);
      AsManyAsFit(w, rows, held', held, iStart);
    }
  }

  lemma AsManyAsFit(w: CursorWindow, rows: seq<Row>, held: seq<Row>, more: seq<Row>, start: nat)
    requires Slice(held, rows, start) && Slice(more, rows, start) && start < |rows| && w.Room(more) <= w.capacity
    requires start + |held| < |rows| ==> w.Room(held + [rows[start + |held|]]) > w.capacity
    ensures |more| <= |held| && held[..|more|] == more
  {
    var m := start + |held|;
    assert m < |rows| ==> held + [rows[m]] == rows[start..m + 1];
    if |held| < |more| {
      SliceGrows(w, rows, start, m + 1, start + |more|);
    }
  }

  /** From a start past the end nothing is copied, and the count is that of the rows, not one past a row copied. */
  method FillPastTheEnd(window: CursorWindow) returns (r: Filled)
    requires window.Valid()
    modifies window
    ensures r == Rows(3, 1) && window.rows == []
  {
    hide CursorWindow.Valid, Restarts;
    r := NativeExecuteForCursorWindow([[CNull]], 1, window, 3, 5, false, FillEnv({}, None));
  }

  // ---------------------------------------------------------------- the packed result

  const MINUS_ONE: bv64 := 0xffff_ffff_ffff_ffff

  function LowerHalf(x: bv64): bv64 {
    x & 0xffff_ffff
  }

  function UpperHalf(x: bv64): bv64 {
    x >> 32
  }

  predicate IsNegative(x: bv64) {
    x & 0x8000_0000 != 0
  }

  function Signed(low: bv64): bv64 {
    if low & 0x8000_0000 != 0 then low | 0xffff_ffff_0000_0000 else low
  }

  // The cast from long to int: the lower 32 bits, with their sign. The sign of a number
  // shifted right before the cast does not reach those bits.
  function ToInt(x: bv64): bv64 {
    Signed(LowerHalf(x))
  }

  function Pack(iStart: bv64, nRow: bv64): bv64 {
    (iStart << 32) | nRow
  }

  lemma PackedLower(iStart: bv64, nRow: bv64)
    ensures LowerHalf(Pack(iStart, nRow)) == LowerHalf(nRow)
  {
  }

  lemma UpperOfInt(n: bv64)
    requires n == ToInt(n)
    ensures UpperHalf(n) == if IsNegative(n) then 0xffff_ffff else 0
  {
  }

  lemma PackedUpperPositive(iStart: bv64, nRow: bv64)
    requires UpperHalf(nRow) == 0
    ensures LowerHalf(UpperHalf(Pack(iStart, nRow))) == LowerHalf(iStart)
  {
  }

  lemma PackedUpperNegative(iStart: bv64, nRow: bv64)
    requires UpperHalf(nRow) == 0xffff_ffff
    ensures LowerHalf(UpperHalf(Pack(iStart, nRow))) == LowerHalf(MINUS_ONE)
  {
  }

  lemma MinusOne()
    ensures ToInt(MINUS_ONE) == MINUS_ONE
  {
  }

  /**
   Of two ints packed into a long, the lower one always comes out as it went in; the upper one
   does exactly if the lower one is not negative, or if it is -1 anyway.
   */
  lemma PackedExactly(iStart: bv64, nRow: bv64)
    requires iStart == ToInt(iStart) && nRow == ToInt(nRow)
    ensures ToInt(Pack(iStart, nRow)) == nRow
    ensures ToInt(UpperHalf(Pack(iStart, nRow))) == iStart <==> !IsNegative(nRow) || iStart == MINUS_ONE
  {
    PackedLower(iStart, nRow);
    UpperOfInt(nRow);
    MinusOne();
    hide Pack, LowerHalf, UpperHalf, Signed, IsNegative;
    if IsNegative(nRow) {
      PackedUpperNegative(iStart, nRow);
    } else {
      PackedUpperPositive(iStart, nRow);
    }
  }
}
