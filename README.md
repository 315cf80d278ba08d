# Verified model of a 4x4 matrix-keypad kernel driver

This project models, in Dafny, the core of a Linux kernel module that runs a
4x4 matrix keypad on a Raspberry Pi's GPIO lines. It covers four parts, and
the model proves properties of each:

- **The scan pass (`keypad_scan`).** The driver drives one row line high
  (all others low), samples the four column lines, and compares each sample
  with the stored `key_state` flag. It reports press (value 1) or release
  (value 0) for the cell's keymap code, then stores the sample.
- **GPIO setup and teardown (`keypad_gpio_init` / `keypad_gpio_cleanup`).**
  Rows are requested and set as outputs driven low, then columns are
  requested and set as inputs. A refused request unwinds what was taken
  (`err_row`, `err_col`) and returns the refusal's error code. Cleanup frees
  every line.
- **Input-device setup (`keypad_input_init`).** Allocate, declare every
  keymap keycode in `keybit`, register. It has two failure paths: allocation
  (`-ENOMEM`) and registration.
- **Module load and unload (`keypad_driver_init` / `keypad_driver_exit`).**
  GPIO setup, then input setup; if input setup fails, every GPIO line is
  freed (`err_input`).

Files:

- `keypad.dfy` (module `Keypad`): geometry, keymap with the real Linux
  keycodes, row and column GPIO numbers, and the `KeyEvent` record.
- `scan.dfy` (module `Scan`):
  - the `ScanEngine` class: the `key_state` array, the row output latches
    and the list of reported events;
  - its `DriveRow` / `ScanRow` / `Scan` methods, which follow the source's
    loops and branches;
  - the specification functions (`Changes`, `ScanEvents`) that `Scan` is
    proved against.
- `scan_props.dfy` (module `ScanProperties`): exactness, row-major order,
  idempotence and press/release alternation of the reports.
- `gpio.dfy` (module `Gpio`):
  - the `GpioBank` class: the set of lines held and the log of GPIO calls;
  - `KeypadGpioInit` and `KeypadGpioCleanup`, with the source's loops,
    early exits and unwind loops;
  - the call sequences they produce, as functions (`InitTrace`,
    `CleanupTrace`).
- `gpio_props.dfy` (module `GpioProperties`): replays a call sequence
  against a table of held lines. It proves that init takes all eight lines or
  none, never requests a held line, only configures or frees held lines, and
  returns the first refusal.
- `driver.dfy` (module `Driver`): the keybit capability set and its loop,
  input-device setup, module init with its unwind path, and module exit.

Environment:

- The column lines are a function `ColumnInput` from the current row-line
  levels and a column index to the value `gpio_get_value` returns. A sample
  therefore reflects the cell only when the scan has driven exactly that row
  high.
- `gpio_request` is an oracle `RequestReply` giving each line's return
  code.
- Allocation and registration of the input device are parameters of
  `InputInit` / `DriverInit`.

## Model

| member | source | states |
|---|---|---|
| Scan.ScanEngine.DriveRow | keypad_driver.c:89-94 | afterwards exactly the selected row line is high and every other row line low |
| Scan.ScanEngine.ScanRow | keypad_driver.c:96-114 | requires the selected row alone driven high; afterwards that row's flags equal the sampled levels, other rows are untouched, and one event per changed column was appended in column order |
| Scan.ScanEngine.Scan | keypad_driver.c:83-119 | after a pass every flag equals the level sampled for its cell; the events appended are exactly ScanEvents of the old table and the samples (one per changed cell, row-major); the last row is left high |
| Scan.ScanEngine.constructor | keypad_driver.c:34 | the table starts with every key released and nothing reported |
| ScanProperties.ChangesExact | keypad_driver.c:100-113 | a cell is reported in a pass if and only if its sample differs from its stored flag |
| ScanProperties.RowChangesExact | keypad_driver.c:97-113 | within one row, a column is reported if and only if it lies in the swept range and its sample differs from its flag |
| ScanProperties.PassChangesExact | keypad_driver.c:87-115 | after the first n rows, a cell is reported if and only if its row is below n and its sample differs from its flag |
| ScanProperties.RowChangesOrdered | keypad_driver.c:97 | the reports of a row are in strictly ascending column order |
| ScanProperties.PassChangesOrdered | keypad_driver.c:87-97 | the reports of the first n rows are in strictly ascending row-major order |
| ScanProperties.ChangesRowMajor | keypad_driver.c:87-115 | the reports of a pass are in ascending row, then column, order, and no cell is reported twice |
| ScanProperties.EventsAreTransitions | keypad_driver.c:100-112 | one event per changed cell, at most ROWS*COLS; the i-th carries the i-th changed cell's keycode; value 1 exactly for high-while-released, value 0 exactly for low-while-pressed |
| ScanProperties.RescanIsQuiet | keypad_driver.c:100-107 | a pass whose samples equal the stored flags reports nothing |
| ScanProperties.SingleChange | keypad_driver.c:100-113 | when exactly one cell's sample differs from its flag, the pass reports exactly that cell |
| ScanProperties.ZeroKeyScenario | keypad_driver.c:100-113 | idle pass: no event; pressing the '0' key: one press of KEY_0; releasing it: one release of KEY_0 |
| ScanProperties.ReportOfCell | keypad_driver.c:100-113 | a changed cell is reported at exactly one position of the pass, with the event EventAt gives for it, so each CellHistory entry is what Scan reports for that cell |
| ScanProperties.HistoryAlternates | keypad_driver.c:100-113 | across successive passes one cell's reports strictly alternate, the first one undoing its stored flag |
| ScanProperties.HistoryFromResetStartsWithPress | keypad_driver.c:100-113 | from the all-released initial table a cell's reports are press, release, press, ... with the cell's keycode |
| ScanProperties.ScanTwice | keypad_driver.c:83-119 | two passes over unchanged input leave the table equal to the samples and report exactly what one pass reports |
| Gpio.FirstFailure | keypad_driver.c:44-56 | the index where the request loop stops: every earlier line granted, the line at that index refused |
| Gpio.GpioBank.GpioRequest | keypad_driver.c:46 | the line is held afterwards exactly when the request returned 0; the call is logged |
| Gpio.GpioBank.GpioFree | keypad_driver.c:76-79 | the line is no longer held; the call is logged |
| Gpio.GpioBank.GpioDirectionOutput | keypad_driver.c:49 | logs the call and changes nothing else |
| Gpio.GpioBank.GpioDirectionInput | keypad_driver.c:57 | logs the call and changes nothing else |
| Gpio.GpioBank.RequestAll | keypad_driver.c:44-59 | stops at the first refusal and returns its index and code (0 and the full count when none); holds exactly the lines granted |
| Gpio.GpioBank.FreeDescending | keypad_driver.c:68-69 | frees the first n lines in descending index order and no other line |
| Gpio.GpioBank.FreeAscending | keypad_driver.c:76-79 | frees the first n lines in ascending index order and no other line |
| Gpio.GpioBank.UnwindColumns | keypad_driver.c:61-66 | the err_col path: frees the granted columns in reverse, then every row |
| Gpio.GpioBank.KeypadGpioInit | keypad_driver.c:40-71 | returns InitResult; its calls are InitTrace; afterwards all eight lines are held on success and the set of held lines is unchanged on failure |
| Gpio.GpioBank.KeypadGpioCleanup | keypad_driver.c:73-80 | every keypad line is freed, rows first; its calls are CleanupTrace |
| Gpio.PinsDistinct | keypad_driver.c:17-18 | the eight row and column lines are pairwise different |
| GpioProperties.AcquiredReplay | keypad_driver.c:44-50 | the granted prefix of a request loop is replayed correctly; it holds exactly that prefix's lines |
| GpioProperties.RequestTraceReplay | keypad_driver.c:44-57 | a request loop up to its first refusal never requests a held line, and leaves held exactly the lines it granted |
| GpioProperties.FreedDownReplay | keypad_driver.c:68-69 | a descending unwind frees only held lines and releases exactly those it names |
| GpioProperties.FreedUpReplay | keypad_driver.c:76-79 | an ascending free loop frees only held lines and releases exactly those it names |
| GpioProperties.RowPhaseFailureReplay | keypad_driver.c:67-70 | after a refused row request the err_row path leaves the held lines as before the call |
| GpioProperties.RequestBothReplay | keypad_driver.c:44-59 | with all rows granted, the row then column request loops hold every row plus the granted columns |
| GpioProperties.ColumnUnwindReplay | keypad_driver.c:61-66 | the err_col path frees the granted columns and every row, leaving the lines held before init |
| GpioProperties.InitTraceReplay | keypad_driver.c:40-71 | starting from none of its lines held, init never requests a held line and only configures or frees held lines; all eight lines are held on success and none on failure |
| GpioProperties.CleanupTraceReplay | keypad_driver.c:73-80 | cleanup, with all eight lines held, frees each exactly once and leaves none held |
| GpioProperties.RowFailureTouchesNoColumn | keypad_driver.c:44-70 | a refused row request ends init before any call concerns a column line |
| GpioProperties.FirstFailureAppend | keypad_driver.c:44-59 | the first refusal over rows followed by columns is the first row refusal, or else the row count plus the first column refusal |
| GpioProperties.InitResultIsFirstRefusal | keypad_driver.c:47-70 | init returns the code of the first refused request in request order, or 0 when all were granted |
| GpioProperties.InitSucceedsIffAllGranted | keypad_driver.c:44-60 | init returns 0 if and only if all eight requests were granted |
| GpioProperties.InitConfiguresLines | keypad_driver.c:49-57 | on success every row was configured as an output driven low and every column as an input |
| Driver.BuildKeybit | keypad_driver.c:139-141 | the nested keybit loop leaves exactly the set of keycodes in the keymap (duplicates collapse) |
| Driver.KeymapCapabilities | keypad_driver.c:21-26 | the driver's keymap announces exactly its sixteen keys |
| Driver.ReportedKeysDeclared | keypad_driver.c:139-141 | every key a scan pass reports is among the announced capabilities |
| Driver.InitThenCleanupRestores | keypad_driver.c:161-174 | a successful GPIO init followed by cleanup never requests a held line, and gives back every line it took |
| Driver.KeypadDriver.InputInit | keypad_driver.c:127-148 | allocation failure returns -ENOMEM with no device; a registration error is returned with the device freed; otherwise the device is registered with the keymap's capability set |
| Driver.KeypadDriver.DriverInit | keypad_driver.c:156-175 | a GPIO failure is returned as is; an input failure is returned after cleanup; on success the device is registered and all lines are held; on any failure the held lines are as before |
| Driver.KeypadDriver.DriverExit | keypad_driver.c:177-183 | the device is unregistered if one was allocated and every keypad line is freed |
| Driver.LoadThenUnload | keypad_driver.c:156-183 | from a fresh state, with every line granted and registration accepted, load succeeds, announces the keymap's keys and holds all eight lines; unload leaves none held |

## Left out

- Timer, workqueue and mutex (lines 29-31, 86, 116-125, 167-169, 179-180): the periodic re-arming and scheduling of the scan is kernel concurrency. A pass is modelled as one atomic call of `Scan`. The mutex only serialises passes.
- The shutdown order of `del_timer_sync` and `cancel_work_sync` against a pass that re-arms the timer is concurrency and is not modelled.
- `udelay(10)` (line 95): real-time settling delay. The model assumes the sample reflects the driven row.
- `input_sync` after each report (lines 104, 111): every reported event is taken to be followed by a sync. The event list does not hold sync records.
- The device name, phys path, bus type and `EV_KEY` event bit (lines 134-137): constant descriptive fields. Only the key capability set is modelled.
- `input_allocate_device`, `input_register_device`, `input_free_device` and `input_unregister_device`: modelled only as the success or failure parameters of `InputInit` and as the `InputState` of the device.
- The return values of `gpio_direction_output` and `gpio_direction_input`: ignored by the source (lines 49, 57), so they are only logged.
- `gpio_set_value` / `gpio_get_value` cannot fail in the source, which has no abort-mid-scan path, so the model has none.
- `pr_info`, `MODULE_*` macros and `module_init` / `module_exit` registration: logging and boilerplate.
- The row output latches are an array that `DriveRow` writes. Nothing ties them to the board beyond the column-input function passed in.
- Gpio.GpioBank.KeypadGpioInit: requires that the driver holds none of its lines when it starts, which is the state at module load. A line the driver already held would be freed again by the unwind loops.
- The `gpio_request` reply is a function of the line alone. Repeated requests of the same line in one run get the same answer, which holds here because the eight lines are distinct.
