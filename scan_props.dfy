/** What a scan pass promises: which cells report, in what order, with
    which values, and how the reports of one cell line up across passes. */
module ScanProperties {
  import opened Keypad
  import opened Scan

  lemma {:induction false} RowChangesExact(st: seq<bool>, lv: seq<bool>, r: Row, n: nat, x: Cell)
    requires |st| == |lv| == COLS && n <= COLS
    ensures x in RowChanges(st, lv, r, n) <==> x.row == r && x.col < n && st[x.col] != lv[x.col]
  {
    if n > 0 {
      RowChangesExact(st, lv, r, n - 1, x);
    }
  }

  lemma {:induction false} PassChangesExact(st: Grid, lv: Grid, n: nat, x: Cell)
    requires n <= ROWS
    ensures x in PassChanges(st, lv, n) <==> x.row < n && st[x.row][x.col] != lv[x.row][x.col]
  {
    if n > 0 {
      PassChangesExact(st, lv, n - 1, x);
      RowChangesExact(st[n - 1], lv[n - 1], n - 1, COLS, x);
    }
  }

  /** A cell takes part in a pass exactly when its sampled level differs
      from its stored flag. */
  lemma ChangesExact(st: Grid, lv: Grid, x: Cell)
    ensures x in Changes(st, lv) <==> st[x.row][x.col] != lv[x.row][x.col]
  {
    PassChangesExact(st, lv, ROWS, x);
  }

  lemma {:induction false} RowChangesOrdered(st: seq<bool>, lv: seq<bool>, r: Row, n: nat)
    requires |st| == |lv| == COLS && n <= COLS
    ensures forall i :: 0 <= i < |RowChanges(st, lv, r, n)| ==>
      RowChanges(st, lv, r, n)[i].row == r && RowChanges(st, lv, r, n)[i].col < n
    ensures forall i, j :: 0 <= i < j < |RowChanges(st, lv, r, n)| ==>
      RowChanges(st, lv, r, n)[i].col < RowChanges(st, lv, r, n)[j].col
  {
    if n > 0 {
      RowChangesOrdered(st, lv, r, n - 1);
      var a := RowChanges(st, lv, r, n - 1);
      var cs := RowChanges(st, lv, r, n);
      assert cs == a + (if st[n - 1] != lv[n - 1] then [Cell(r, n - 1)] else []);
      forall i | 0 <= i < |cs|
        ensures cs[i].row == r && cs[i].col < n
      {
        if i < |a| {
          assert cs[i] == a[i];
        }
      }
      forall i, j | 0 <= i < j < |cs|
        ensures cs[i].col < cs[j].col
      {
        if j < |a| {
          assert cs[i] == a[i] && cs[j] == a[j];
        } else {
          assert cs[i] == a[i] && cs[j] == Cell(r, n - 1);
        }
      }
    }
  }

  lemma {:induction false} PassChangesOrdered(st: Grid, lv: Grid, n: nat)
    requires n <= ROWS
    ensures forall i :: 0 <= i < |PassChanges(st, lv, n)| ==> PassChanges(st, lv, n)[i].row < n
    ensures forall i, j :: 0 <= i < j < |PassChanges(st, lv, n)| ==>
      RowMajorBefore(PassChanges(st, lv, n)[i], PassChanges(st, lv, n)[j])
  {
    if n > 0 {
      PassChangesOrdered(st, lv, n - 1);
      RowChangesOrdered(st[n - 1], lv[n - 1], n - 1, COLS);
      var a := PassChanges(st, lv, n - 1);
      var b := RowChanges(st[n - 1], lv[n - 1], n - 1, COLS);
      var cs := PassChanges(st, lv, n);
      assert cs == a + b;
      forall i | 0 <= i < |cs|
        ensures cs[i].row < n
      {
        if i < |a| {
          assert cs[i] == a[i];
        } else {
          assert cs[i] == b[i - |a|];
        }
      }
      forall i, j | 0 <= i < j < |cs|
        ensures RowMajorBefore(cs[i], cs[j])
      {
        if j < |a| {
          assert cs[i] == a[i] && cs[j] == a[j];
        } else if i >= |a| {
          assert cs[i] == b[i - |a|] && cs[j] == b[j - |a|];
        } else {
          assert cs[i] == a[i] && cs[j] == b[j - |a|];
        }
      }
    }
  }

  /** Reports within a pass are in ascending row order, then ascending column
      order; hence no cell reports twice in one pass. */
  lemma ChangesRowMajor(st: Grid, lv: Grid)
    ensures forall i, j :: 0 <= i < j < |Changes(st, lv)| ==>
      RowMajorBefore(Changes(st, lv)[i], Changes(st, lv)[j]) && Changes(st, lv)[i] != Changes(st, lv)[j]
  {
    PassChangesOrdered(st, lv, ROWS);
  }

  /** The i-th report of a pass is for the i-th changed cell: its keycode,
      value 1 exactly for a press (high while stored released) and value 0
      exactly for a release (low while stored pressed); so a pass reports
      at most ROWS * COLS events. */
  lemma EventsAreTransitions(km: Keymap, st: Grid, lv: Grid)
    ensures |ScanEvents(km, st, lv)| == |Changes(st, lv)| <= ROWS * COLS
    ensures forall i :: 0 <= i < |Changes(st, lv)| ==>
      var x := Changes(st, lv)[i];
      var e := ScanEvents(km, st, lv)[i];
      e.code == km[x.row][x.col] &&
      (e.value == 1 <==> lv[x.row][x.col] && !st[x.row][x.col]) &&
      (e.value == 0 <==> !lv[x.row][x.col] && st[x.row][x.col])
  {
    var cs := Changes(st, lv);
    forall i | 0 <= i < |cs|
      ensures st[cs[i].row][cs[i].col] != lv[cs[i].row][cs[i].col]
    {
      ChangesExact(st, lv, cs[i]);
    }
  }

  /** Idempotence: a pass whose samples equal the stored flags reports nothing. */
  lemma RescanIsQuiet(km: Keymap, lv: Grid)
    ensures Changes(lv, lv) == []
    ensures ScanEvents(km, lv, lv) == []
  {
    if Changes(lv, lv) != [] {
      ChangesExact(lv, lv, Changes(lv, lv)[0]);
    }
  }

  /** Exposes the first two elements of a sequence as terms, without a
      branch on its length (a branch here would be a dead one). */
  lemma SplitFirstTwo(cs: seq<Cell>)
    ensures |cs| > 1 ==> cs == [cs[0], cs[1]] + cs[2..]
  {
  }

  /** A pass in which exactly one switch moved reports exactly that switch. */
  lemma SingleChange(st: Grid, lv: Grid, x: Cell)
    requires st[x.row][x.col] != lv[x.row][x.col]
    requires forall y: Cell :: y != x ==> st[y.row][y.col] == lv[y.row][y.col]
    ensures Changes(st, lv) == [x]
  {
    var cs := Changes(st, lv);
    forall i | 0 <= i < |cs|
      ensures cs[i] == x
    {
      ChangesExact(st, lv, cs[i]);
    }
    ChangesExact(st, lv, x);
    ChangesRowMajor(st, lv);
    SplitFirstTwo(cs);
    assert |cs| <= 1;
  }

  /** Only the switch at row 3, column 1 ('0') closed. */
  function ZeroHeld(): Grid
  {
    seq(ROWS, r => seq(COLS, c => r == 3 && c == 1))
  }

  /** Idle pass, then the '0' key pressed, then released: nothing, one press
      of KEY_0, one release of KEY_0. */
  lemma ZeroKeyScenario()
    ensures ScanEvents(KEYMAP, AllReleased(), AllReleased()) == []
    ensures ScanEvents(KEYMAP, AllReleased(), ZeroHeld()) == [KeyEvent(KEY_0, 1)]
    ensures ScanEvents(KEYMAP, ZeroHeld(), AllReleased()) == [KeyEvent(KEY_0, 0)]
  {
    RescanIsQuiet(KEYMAP, AllReleased());
    SingleChange(AllReleased(), ZeroHeld(), Cell(3, 1));
    SingleChange(ZeroHeld(), AllReleased(), Cell(3, 1));
  }

  /** A changed cell is reported at exactly one position of the pass, and the
      event there is EventAt of that cell; so the entry CellHistory records
      for a pass is the event Scan appends for x in that pass. */
  lemma ReportOfCell(km: Keymap, st: Grid, lv: Grid, x: Cell)
    ensures x in Changes(st, lv) ==>
      exists i :: 0 <= i < |Changes(st, lv)| && Changes(st, lv)[i] == x && ScanEvents(km, st, lv)[i] == EventAt(km, lv, x)
    ensures forall i, j ::
      (0 <= i < |Changes(st, lv)| && 0 <= j < |Changes(st, lv)| && Changes(st, lv)[i] == x && Changes(st, lv)[j] == x)
      ==> i == j
  {
    ChangesRowMajor(st, lv);
    var cs := Changes(st, lv);
    if x in cs {
      var i :| 0 <= i < |cs| && cs[i] == x;
      assert ScanEvents(km, st, lv)[i] == EventAt(km, lv, x);
    }
  }

  /** Reports of cell x over successive passes, starting from flags st, the
      k-th pass sampling lvs[k] (each pass leaves the flags equal to its samples). */
  function CellHistory(km: Keymap, st: Grid, lvs: seq<Grid>, x: Cell): seq<KeyEvent>
    decreases |lvs|
  {
    if lvs == [] then []
    else (if x in Changes(st, lvs[0]) then [EventAt(km, lvs[0], x)] else [])
         + CellHistory(km, lvs[0], lvs[1..], x)
  }

  /** A cell's reports strictly alternate between press and release, the
      first one undoing the stored flag. */
  lemma {:induction false} HistoryAlternates(km: Keymap, st: Grid, lvs: seq<Grid>, x: Cell)
    ensures forall i :: 0 <= i < |CellHistory(km, st, lvs, x)| ==>
        CellHistory(km, st, lvs, x)[i] == KeyEvent(km[x.row][x.col], if (i % 2 == 0) != st[x.row][x.col] then 1 else 0)
    decreases |lvs|
  {
    if lvs != [] {
      HistoryAlternates(km, lvs[0], lvs[1..], x);
      ChangesExact(st, lvs[0], x);
      var h := CellHistory(km, st, lvs, x);
      var t := CellHistory(km, lvs[0], lvs[1..], x);
      if x in Changes(st, lvs[0]) {
        assert h == [EventAt(km, lvs[0], x)] + t;
        forall i | 0 <= i < |h|
          ensures h[i] == KeyEvent(km[x.row][x.col], if (i % 2 == 0) != st[x.row][x.col] then 1 else 0)
        {
          if i > 0 {
            assert h[i] == t[i - 1];
          }
        }
      } else {
        assert h == t;
      }
    }
  }

  /** From the all-released table the driver starts with, each cell's reports
      are press, release, press, ... */
  lemma HistoryFromResetStartsWithPress(km: Keymap, lvs: seq<Grid>, x: Cell)
    ensures forall i :: 0 <= i < |CellHistory(km, AllReleased(), lvs, x)| ==>
      CellHistory(km, AllReleased(), lvs, x)[i].code == km[x.row][x.col] &&
      CellHistory(km, AllReleased(), lvs, x)[i].value == (if i % 2 == 0 then 1 else 0)
  {
    HistoryAlternates(km, AllReleased(), lvs, x);
  }

  /** Two passes over unchanged input report what one pass reports and leave
      the same table. */
  method ScanTwice(e: ScanEngine, input: ColumnInput)
    requires e.Valid()
    modifies e`reported, e.keyState, e.rowLevel
    ensures e.Valid() && e.State() == Sampled(input)
    ensures e.reported == old(e.reported) + ScanEvents(e.keymap, old(e.State()), Sampled(input))
  {
    e.Scan(input);
    e.Scan(input);
    RescanIsQuiet(e.keymap, Sampled(input));
  }
}
