/** The Google Apps Script host services the synchroniser uses, reduced to
    what it observes of them: the two sheets, the spreadsheet that holds
    them and the document lock.  The clock is a value: `Date.now()` is a
    parameter, and an operation that lets time pass (`Utilities.sleep`, a
    refused `tryLock`) returns the new time.  The lock keeps a log of its
    calls, so that contracts elsewhere can say which calls happened. */
module Gas {
  import opened Wrappers
  import opened Cells

  /** What a settings cell holds at `time`: the script's own write if any,
      otherwise what others have put there. */
  function CellAt(shown: (string, int) -> CellValue, written: map<string, CellValue>, address: string, time: int): (v: CellValue)
    ensures address in written ==> v == written[address]
    ensures address !in written ==> v == shown(address, time)
  {
    if address in written then written[address] else shown(address, time)
  }

  /** The settings sheet, addressed in A1 notation.  Other people edit it
      while the script runs, so what a cell shows is a function of the time
      it is read, until the script itself writes that cell. */
  class SettingsSheet {
    const shown: (string, int) -> CellValue
    /** The values the script has written, by address. */
    var written: map<string, CellValue>

    constructor (shown: (string, int) -> CellValue)
      ensures this.shown == shown && written == map[]
    {
      this.shown := shown;
      written := map[];
    }

    /** `getRange(address).getValue()` at time `time`. */
    function ValueAt(address: string, time: int): (v: CellValue)
      reads this`written
      ensures v == CellAt(shown, written, address, time)
    {
      CellAt(shown, written, address, time)
    }

    /** `getRange(address).setValue(v)`. */
    method SetValue(address: string, v: CellValue)
      modifies this
      ensures written == old(written)[address := v]
    {
      written := written[address := v];
    }
  }

  /** The data sheet, addressed by 1-based row and column.  A cell never
      written holds the empty string. */
  class DataSheet {
    /** `getLastRow()`: the last row with content. */
    const lastRow: int
    var cells: map<(int, int), CellValue>

    constructor (lastRow: int, cells: map<(int, int), CellValue>)
      ensures this.lastRow == lastRow && this.cells == cells
    {
      this.lastRow := lastRow;
      this.cells := cells;
    }

    function ValueAt(row: int, column: int): CellValue
      reads this
    {
      if (row, column) in cells then cells[(row, column)] else Text("")
    }

    /** `getRange(startRow, 1, numRows, numColumns).getValues()`. */
    function Values(startRow: int, numRows: nat, numColumns: nat): (grid: seq<seq<CellValue>>)
      reads this
      ensures |grid| == numRows
      ensures forall i :: 0 <= i < numRows ==> |grid[i]| == numColumns
      ensures forall i, j :: 0 <= i < numRows && 0 <= j < numColumns ==>
                grid[i][j] == ValueAt(startRow + i, 1 + j)
    {
      seq(numRows, i requires 0 <= i < numRows reads this =>
        seq(numColumns, j requires 0 <= j < numColumns reads this => ValueAt(startRow + i, 1 + j)))
    }

    /** `getRange(row, column).setValue(v)`. */
    method SetValue(row: int, column: int, v: CellValue)
      modifies this
      ensures cells == old(cells)[(row, column) := v]
    {
      cells := cells[(row, column) := v];
    }
  }

  /** The active spreadsheet: the sheets `getSheetByName` finds under the
      settings-sheet and data-sheet names. */
  class Spreadsheet {
    const settingsSheet: Option<SettingsSheet>
    const dataSheet: Option<DataSheet>

    constructor (settingsSheet: Option<SettingsSheet>, dataSheet: Option<DataSheet>)
      ensures this.settingsSheet == settingsSheet && this.dataSheet == dataSheet
    {
      this.settingsSheet := settingsSheet;
      this.dataSheet := dataSheet;
    }
  }

  /** `LockService.getDocumentLock()`.  Whether an attempt obtains the lock
      depends on other executions, so it is given per attempt: `grants(n)`
      says whether the n-th `tryLock` (counting from 0) succeeds.  A failing
      attempt waits its whole timeout; a succeeding one returns at once. */
  class DocumentLock {
    const grants: nat -> bool
    /** The timeout of every `tryLock` call, in call order. */
    var attempts: seq<int>
    var held: bool
    /** Number of `releaseLock` calls. */
    var releases: nat

    constructor (grants: nat -> bool)
      ensures this.grants == grants && attempts == [] && !held && releases == 0
    {
      this.grants := grants;
      attempts := [];
      held := false;
      releases := 0;
    }

    /** `tryLock(timeoutMs)` called at time `now`: a granted attempt returns
        at once, a refused one after waiting out its timeout. */
    method TryLock(timeoutMs: nat, now: int) returns (ok: bool, later: int)
      modifies this
      ensures ok == grants(|old(attempts)|)
      ensures attempts == old(attempts) + [timeoutMs]
      ensures held == (old(held) || ok)
      ensures releases == old(releases)
      ensures later == now + (if ok then 0 else timeoutMs)
    {
      ok := grants(|attempts|);
      attempts := attempts + [timeoutMs];
      if ok {
        held := true;
        later := now;
      } else {
        later := now + timeoutMs;
      }
    }

    method HasLock() returns (h: bool)
      ensures h == held
    {
      h := held;
    }

    method ReleaseLock()
      modifies this
      ensures !held
      ensures releases == old(releases) + 1
      ensures attempts == old(attempts)
    {
      held := false;
      releases := releases + 1;
    }
  }
}
