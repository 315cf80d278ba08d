/** Shared vocabulary of the 4x4 matrix-keypad driver: board geometry,
    the keymap, the GPIO lines it is wired to, and the key events it reports. */
module Keypad {

  /** Number of row lines (driven) and column lines (sampled). */
  const ROWS: nat := 4
  const COLS: nat := 4

  /** A row or column index is bounded by the board geometry. */
  type Row = r: nat | r < ROWS
  type Col = c: nat | c < COLS

  /** One switch of the matrix, at the crossing of a row and a column line. */
  datatype Cell = Cell(row: Row, col: Col)

  /** Linux input-event keycodes. */
  type Keycode = nat

  const KEY_1: Keycode := 2
  const KEY_2: Keycode := 3
  const KEY_3: Keycode := 4
  const KEY_4: Keycode := 5
  const KEY_5: Keycode := 6
  const KEY_6: Keycode := 7
  const KEY_7: Keycode := 8
  const KEY_8: Keycode := 9
  const KEY_9: Keycode := 10
  const KEY_0: Keycode := 11
  const KEY_BACKSPACE: Keycode := 14
  const KEY_A: Keycode := 30
  const KEY_D: Keycode := 32
  const KEY_C: Keycode := 46
  const KEY_B: Keycode := 48
  const KEY_KPENTER: Keycode := 96

  /** A ROWS x COLS table. */
  predicate IsGrid<T>(g: seq<seq<T>>)
  {
    |g| == ROWS && forall r :: 0 <= r < |g| ==> |g[r]| == COLS
  }

  /** Keycode of every cell; two cells may carry the same keycode. */
  type Keymap = km: seq<seq<Keycode>> | IsGrid(km)
    witness [[0, 0, 0, 0], [0, 0, 0, 0], [0, 0, 0, 0], [0, 0, 0, 0]]

  /** The driver's fixed keymap: '*' is reported as backspace, '#' as keypad enter. */
  const KEYMAP: Keymap := [
    [KEY_1, KEY_2, KEY_3, KEY_A],
    [KEY_4, KEY_5, KEY_6, KEY_B],
    [KEY_7, KEY_8, KEY_9, KEY_C],
    [KEY_BACKSPACE, KEY_0, KEY_KPENTER, KEY_D]
  ]

  /** GPIO line numbers of the row and column wires, in index order. */
  const ROW_GPIOS: seq<nat> := [17, 5, 6, 13]
  const COL_GPIOS: seq<nat> := [23, 24, 12, 16]

  /** One input_report_key call: a keycode and 1 (pressed) or 0 (released). */
  datatype KeyEvent = KeyEvent(code: Keycode, value: int)
}
