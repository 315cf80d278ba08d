/** The scanning state machine: one pass drives each row high in turn,
    samples every column and reports the cells whose level changed. */
module Scan {
  import opened Keypad

  /** A ROWS x COLS table of switch levels (true = closed / pressed). */
  type Grid = g: seq<seq<bool>> | IsGrid(g)
    witness AllReleased()

  function AllReleased(): seq<seq<bool>>
  {
    seq(ROWS, _ => seq(COLS, _ => false))
  }

  /** The physical keypad as the driver sees it: what gpio_get_value returns
      for a column line (nonzero = high) while the row lines carry the given levels. */
  type ColumnInput = (seq<bool>, nat) -> int

  /** Row levels with exactly `row` high. */
  function OneHot(row: Row): (levels: seq<bool>)
    ensures |levels| == ROWS
  {
    seq(ROWS, i => i == row)
  }

  /** The level of every cell as seen when only its own row is driven high. */
  function Sampled(input: ColumnInput): Grid
  {
    seq(ROWS, r requires 0 <= r < ROWS => seq(COLS, c requires 0 <= c < COLS => input(OneHot(r), c) != 0))
  }

  /** Row-major order on cells: rows ascending, columns ascending within a row. */
  predicate RowMajorBefore(a: Cell, b: Cell)
  {
    a.row < b.row || (a.row == b.row && a.col < b.col)
  }

  /** Cells of row r among its first n columns whose stored flag (in st)
      differs from the sampled level (in lv), in ascending column order. */
  function RowChanges(st: seq<bool>, lv: seq<bool>, r: Row, n: nat): (cs: seq<Cell>)
    requires |st| == |lv| == COLS && n <= COLS
    ensures |cs| <= n
  {
    if n == 0 then []
    else RowChanges(st, lv, r, n - 1)
         + (if st[n - 1] != lv[n - 1] then [Cell(r, n - 1)] else [])
  }

  /** Changed cells of the first n rows, rows ascending. */
  function PassChanges(st: Grid, lv: Grid, n: nat): (cs: seq<Cell>)
    requires n <= ROWS
    ensures |cs| <= n * COLS
  {
    if n == 0 then []
    else PassChanges(st, lv, n - 1) + RowChanges(st[n - 1], lv[n - 1], n - 1, COLS)
  }

  /** Every changed cell of a full pass, in the order the scan visits them. */
  function Changes(st: Grid, lv: Grid): seq<Cell>
  {
    PassChanges(st, lv, ROWS)
  }

  /** The event a changed cell reports: its keycode and its new level. */
  function EventAt(km: Keymap, lv: Grid, x: Cell): KeyEvent
  {
    KeyEvent(km[x.row][x.col], if lv[x.row][x.col] then 1 else 0)
  }

  function EventsFor(km: Keymap, lv: Grid, cs: seq<Cell>): (es: seq<KeyEvent>)
    ensures |es| == |cs|
  {
    seq(|cs|, i requires 0 <= i < |cs| => EventAt(km, lv, cs[i]))
  }

  /** The events one pass reports when the stored flags are st and the
      sampled levels are lv: one per changed cell, in row-major order. */
  function ScanEvents(km: Keymap, st: Grid, lv: Grid): seq<KeyEvent>
  {
    EventsFor(km, lv, Changes(st, lv))
  }

  lemma EventsForAppend(km: Keymap, lv: Grid, a: seq<Cell>, b: seq<Cell>)
    ensures EventsFor(km, lv, a + b) == EventsFor(km, lv, a) + EventsFor(km, lv, b)
  {
    assert forall i :: 0 <= i < |a + b| ==> (a + b)[i] == if i < |a| then a[i] else b[i - |a|];
  }

  /** Appending the report of column n extends the reports of a row's first n columns. */
  lemma RowStep(km: Keymap, lv: Grid, st: seq<bool>, r: Row, n: nat, before: seq<KeyEvent>, prior: seq<KeyEvent>)
    requires |st| == COLS && n < COLS
    requires prior == before + EventsFor(km, lv, RowChanges(st, lv[r], r, n))
    ensures before + EventsFor(km, lv, RowChanges(st, lv[r], r, n + 1))
      == prior + EventsFor(km, lv, if st[n] != lv[r][n] then [Cell(r, n)] else [])
  {
    var done := RowChanges(st, lv[r], r, n);
    var step := if st[n] != lv[r][n] then [Cell(r, n)] else [];
    EventsForAppend(km, lv, done, step);
    assert before + (EventsFor(km, lv, done) + EventsFor(km, lv, step))
      == (before + EventsFor(km, lv, done)) + EventsFor(km, lv, step);
  }

  /** Appending the reports of row n extends the reports of the first n rows. */
  lemma PassStep(km: Keymap, st: Grid, lv: Grid, n: nat, before: seq<KeyEvent>, prior: seq<KeyEvent>)
    requires n < ROWS
    requires prior == before + EventsFor(km, lv, PassChanges(st, lv, n))
    ensures before + EventsFor(km, lv, PassChanges(st, lv, n + 1))
      == prior + EventsFor(km, lv, RowChanges(st[n], lv[n], n, COLS))
  {
    var done := PassChanges(st, lv, n);
    var step := RowChanges(st[n], lv[n], n, COLS);
    EventsForAppend(km, lv, done, step);
    assert before + (EventsFor(km, lv, done) + EventsFor(km, lv, step))
      == (before + EventsFor(km, lv, done)) + EventsFor(km, lv, step);
  }

  /** The scanner: the key_state table, the row output latches and the
      events reported to the input device so far. */
  class ScanEngine {
    const keymap: Keymap
    const keyState: array2<bool>
    const rowLevel: array<bool>
    var reported: seq<KeyEvent>

    ghost predicate Valid()
      reads this
    {
      keyState.Length0 == ROWS && keyState.Length1 == COLS && rowLevel.Length == ROWS
    }

    /** The stored flags of one row. */
    ghost function RowState(row: Row): (flags: seq<bool>)
      reads this, keyState
      requires Valid()
      ensures |flags| == COLS
    {
      seq(COLS, c requires 0 <= c < COLS reads keyState => keyState[row, c])
    }

    /** The stored flags as a grid. */
    ghost function State(): Grid
      reads this, keyState
      requires Valid()
    {
      seq(ROWS, r requires 0 <= r < ROWS reads this, keyState => RowState(r))
    }

    /** The table starts all-released and every row line low. */
    constructor (km: Keymap)
      ensures Valid() && fresh(keyState) && fresh(rowLevel)
      ensures keymap == km && reported == []
      ensures State() == AllReleased()
      ensures forall i :: 0 <= i < ROWS ==> !rowLevel[i]
    {
      keymap := km;
      keyState := new bool[ROWS, COLS]((r, c) => false);
      rowLevel := new bool[ROWS](_ => false);
      reported := [];
      new;
      assert forall r :: 0 <= r < ROWS ==> State()[r] == AllReleased()[r];
    }

    /** Row-selection step of a pass: every row line low, then `row` high. */
    method DriveRow(row: Row)
      requires Valid()
      modifies rowLevel
      ensures rowLevel[..] == OneHot(row)
    {
      var i := 0;
      while i < ROWS
        invariant 0 <= i <= ROWS
        invariant forall k :: 0 <= k < i ==> !rowLevel[k]
      {
        rowLevel[i] := false;
        i := i + 1;
      }
      rowLevel[row] := true;
      assert rowLevel[..] == OneHot(row);
    }

    /** Column sweep of one selected row: compares every sample with its
        stored flag, reports a press or a release for each difference
        and stores the sample. Other rows are left alone. */
    method ScanRow(row: Row, input: ColumnInput)
      requires Valid() && rowLevel[..] == OneHot(row)
      modifies this`reported, keyState
      ensures forall c :: 0 <= c < COLS ==> keyState[row, c] == Sampled(input)[row][c]
      ensures forall r, c :: 0 <= r < ROWS && r != row && 0 <= c < COLS ==> keyState[r, c] == old(keyState[r, c])
      ensures reported == old(reported) + EventsFor(keymap, Sampled(input), RowChanges(old(RowState(row)), Sampled(input)[row], row, COLS))
    {
      ghost var st0 := RowState(row);
      ghost var lv := Sampled(input);
      ghost var reported0 := reported;
      var col := 0;
      while col < COLS
        invariant 0 <= col <= COLS
        invariant forall c :: 0 <= c < col ==> keyState[row, c] == lv[row][c]
        invariant forall c :: col <= c < COLS ==> keyState[row, c] == st0[c]
        invariant forall r, c :: 0 <= r < ROWS && r != row && 0 <= c < COLS ==> keyState[r, c] == old(keyState[r, c])
        invariant reported == reported0 + EventsFor(keymap, lv, RowChanges(st0, lv[row], row, col))
      {
        var val := input(rowLevel[..], col);
        RowStep(keymap, lv, st0, row, col, reported0, reported);
        if val != 0 && !keyState[row, col] {
          reported := reported + [KeyEvent(keymap[row][col], 1)];
          keyState[row, col] := true;
        } else if val == 0 && keyState[row, col] {
          reported := reported + [KeyEvent(keymap[row][col], 0)];
          keyState[row, col] := false;
        }
        col := col + 1;
      }
    }

    /** One full scan pass against the keypad `input`. Afterwards every flag
        equals the level sampled for its cell, exactly the changed cells have
        been reported in row-major order, and the last row is left high. */
    method Scan(input: ColumnInput)
      requires Valid()
      modifies this`reported, keyState, rowLevel
      ensures Valid()
      ensures State() == Sampled(input)
      ensures reported == old(reported) + ScanEvents(keymap, old(State()), Sampled(input))
      ensures rowLevel[..] == OneHot(ROWS - 1)
    {
      ghost var st0 := State();
      ghost var lv := Sampled(input);
      var row := 0;
      while row < ROWS
        invariant 0 <= row <= ROWS
        invariant forall r, c :: 0 <= r < row && 0 <= c < COLS ==> keyState[r, c] == lv[r][c]
        invariant forall r, c :: row <= r < ROWS && 0 <= c < COLS ==> keyState[r, c] == st0[r][c]
        invariant reported == old(reported) + EventsFor(keymap, lv, PassChanges(st0, lv, row))
        invariant row > 0 ==> rowLevel[..] == OneHot(row - 1)
      {
        DriveRow(row);
        assert RowState(row) == st0[row];
        PassStep(keymap, st0, lv, row, old(reported), reported);
        ScanRow(row, input);
        row := row + 1;
      }
      assert forall r :: 0 <= r < ROWS ==> State()[r] == lv[r];
    }
  }
}
