/** Module load and unload: the input device that announces every keymap
    keycode, and the init path that unwinds the GPIO lines when the input
    device cannot be set up. */
module Driver {
  import opened Keypad
  import opened Scan
  import opened Gpio
  import opened GpioProperties

  /** Linux errno for an allocation failure; the driver returns it negated. */
  const ENOMEM: int := 12

  /** The key capabilities the input device announces: every keycode that
      appears somewhere in the keymap. */
  function Capabilities(km: Keymap): set<Keycode>
  {
    set r, c | 0 <= r < ROWS && 0 <= c < COLS :: km[r][c]
  }

  /** Keycodes of the cells before (i, j) in row-major order. */
  ghost function DeclaredBefore(km: Keymap, i: nat, j: nat): set<Keycode>
  {
    set r, c | 0 <= r < ROWS && 0 <= c < COLS && (r < i || (r == i && c < j)) :: km[r][c]
  }

  lemma DeclaredStep(km: Keymap, i: Row, j: Col)
    ensures DeclaredBefore(km, i, j + 1) == DeclaredBefore(km, i, j) + {km[i][j]}
  {
    forall k | k in DeclaredBefore(km, i, j + 1)
      ensures k in DeclaredBefore(km, i, j) + {km[i][j]}
    {
      var r, c :| 0 <= r < ROWS && 0 <= c < COLS && (r < i || (r == i && c < j + 1)) && km[r][c] == k;
      if r == i && c == j {
      } else {
        assert k in DeclaredBefore(km, i, j);
      }
    }
  }

  lemma DeclaredNextRow(km: Keymap, i: Row)
    ensures DeclaredBefore(km, i, COLS) == DeclaredBefore(km, i + 1, 0)
  {
  }

  /** The keybit loop of input device setup: each cell of the keymap, row
      by row, sets its keycode's bit; afterwards the bitmap holds exactly
      the keymap's keycodes. */
  method BuildKeybit(km: Keymap) returns (keybit: set<Keycode>)
    ensures keybit == Capabilities(km)
  {
    keybit := {};
    var i := 0;
    while i < ROWS
      invariant 0 <= i <= ROWS
      invariant keybit == DeclaredBefore(km, i, 0)
    {
      var j := 0;
      while j < COLS
        invariant 0 <= j <= COLS
        invariant keybit == DeclaredBefore(km, i, j)
      {
        DeclaredStep(km, i, j);
        keybit := keybit + {km[i][j]};
        j := j + 1;
      }
      DeclaredNextRow(km, i);
      i := i + 1;
    }
    assert DeclaredBefore(km, ROWS, 0) == Capabilities(km);
  }

  /** The keys the driver's keymap announces. */
  lemma KeymapCapabilities()
    ensures Capabilities(KEYMAP) == {KEY_1, KEY_2, KEY_3, KEY_A, KEY_4, KEY_5, KEY_6, KEY_B,
                                     KEY_7, KEY_8, KEY_9, KEY_C, KEY_BACKSPACE, KEY_0, KEY_KPENTER, KEY_D}
  {
    var expected := {KEY_1, KEY_2, KEY_3, KEY_A, KEY_4, KEY_5, KEY_6, KEY_B,
                     KEY_7, KEY_8, KEY_9, KEY_C, KEY_BACKSPACE, KEY_0, KEY_KPENTER, KEY_D};
    var caps := Capabilities(KEYMAP);
    forall r, c | 0 <= r < ROWS && 0 <= c < COLS
      ensures KEYMAP[r][c] in expected
    {
    }
    assert caps <= expected;
    forall r: Row, c: Col
      ensures KEYMAP[r][c] in caps
    {
    }
    assert expected <= caps by {
      forall k | k in expected
        ensures k in caps
      {
        if k == KEY_1 { assert KEYMAP[0][0] == k; }
        else if k == KEY_2 { assert KEYMAP[0][1] == k; }
        else if k == KEY_3 { assert KEYMAP[0][2] == k; }
        else if k == KEY_A { assert KEYMAP[0][3] == k; }
        else if k == KEY_4 { assert KEYMAP[1][0] == k; }
        else if k == KEY_5 { assert KEYMAP[1][1] == k; }
        else if k == KEY_6 { assert KEYMAP[1][2] == k; }
        else if k == KEY_B { assert KEYMAP[1][3] == k; }
        else if k == KEY_7 { assert KEYMAP[2][0] == k; }
        else if k == KEY_8 { assert KEYMAP[2][1] == k; }
        else if k == KEY_9 { assert KEYMAP[2][2] == k; }
        else if k == KEY_C { assert KEYMAP[2][3] == k; }
        else if k == KEY_BACKSPACE { assert KEYMAP[3][0] == k; }
        else if k == KEY_0 { assert KEYMAP[3][1] == k; }
        else if k == KEY_KPENTER { assert KEYMAP[3][2] == k; }
        else { assert KEYMAP[3][3] == k; }
      }
    }
  }

  /** Every key a scan pass reports was announced by the keybit loop, so the
      input core passes none of them over as an undeclared key. */
  lemma ReportedKeysDeclared(km: Keymap, st: Grid, lv: Grid)
    ensures forall i :: 0 <= i < |ScanEvents(km, st, lv)| ==> ScanEvents(km, st, lv)[i].code in Capabilities(km)
  {
    forall i | 0 <= i < |ScanEvents(km, st, lv)|
      ensures ScanEvents(km, st, lv)[i].code in Capabilities(km)
    {
      var x := Changes(st, lv)[i];
      assert ScanEvents(km, st, lv)[i].code == km[x.row][x.col];
    }
  }

  /** Loading the driver and unloading it again (or a load that fails after
      the GPIO phase and runs keypad_gpio_cleanup) respects the request/free
      discipline and gives back every line it took. */
  lemma InitThenCleanupRestores(held: set<Pin>, reply: RequestReply)
    requires held !! AllPins() && InitResult(reply) == 0
    ensures Disciplined(held, InitTrace(reply) + CleanupTrace())
    ensures HeldAfter(held, InitTrace(reply) + CleanupTrace()) == held
  {
    InitTraceReplay(held, reply);
    CleanupTraceReplay(held + AllPins());
    ReplayAppend(held, InitTrace(reply), CleanupTrace());
    assert held + AllPins() - AllPins() == held;
  }

  /** What the keypad_input pointer refers to. */
  datatype InputState =
    | NoDevice                              // never allocated, or allocation failed
    | Registered(keybit: set<Keycode>)      // allocated and registered with these key bits
    | FreedDevice                           // registration failed and the device was freed
    | Unregistered                          // unregistered at module exit

  /** The module's global state: its GPIO lines and its input device. */
  class KeypadDriver {
    const gpio: GpioBank
    var input: InputState

    constructor ()
      ensures fresh(gpio) && gpio.held == {} && gpio.log == []
      ensures input == NoDevice
    {
      gpio := new GpioBank();
      input := NoDevice;
    }

    /** keypad_input_init: allocation may fail (allocOk false) and
        registration may be refused with a nonzero error (registerErr). */
    method InputInit(allocOk: bool, registerErr: int) returns (err: int)
      modifies this`input
      ensures !allocOk ==> err == -ENOMEM && input == NoDevice
      ensures allocOk && registerErr != 0 ==> err == registerErr && input == FreedDevice
      ensures allocOk && registerErr == 0 ==> err == 0 && input == Registered(Capabilities(KEYMAP))
    {
      if !allocOk {
        input := NoDevice;
        return -ENOMEM;
      }
      var keybit := BuildKeybit(KEYMAP);
      if registerErr != 0 {
        input := FreedDevice;
        return registerErr;
      }
      input := Registered(keybit);
      return 0;
    }

    /** keypad_driver_init: the GPIO phase, then the input phase; when the
        input phase fails every GPIO line is freed again. */
    method DriverInit(reply: RequestReply, allocOk: bool, registerErr: int) returns (err: int)
      requires gpio.held !! AllPins()
      modifies this`input, gpio
      ensures InitResult(reply) != 0 ==>
        err == InitResult(reply) && input == old(input) && gpio.log == old(gpio.log) + InitTrace(reply)
      ensures InitResult(reply) == 0 && !allocOk ==>
        err == -ENOMEM && input == NoDevice && gpio.log == old(gpio.log) + InitTrace(reply) + CleanupTrace()
      ensures InitResult(reply) == 0 && allocOk && registerErr != 0 ==>
        err == registerErr && input == FreedDevice && gpio.log == old(gpio.log) + InitTrace(reply) + CleanupTrace()
      ensures InitResult(reply) == 0 && allocOk && registerErr == 0 ==>
        err == 0 && input == Registered(Capabilities(KEYMAP)) && gpio.log == old(gpio.log) + InitTrace(reply)
      ensures err == 0 ==> gpio.held == old(gpio.held) + AllPins()
      ensures err != 0 ==> gpio.held == old(gpio.held)
    {
      err := gpio.KeypadGpioInit(reply);
      if err != 0 {
        return;
      }
      err := InputInit(allocOk, registerErr);
      if err != 0 {
        // err_input
        gpio.KeypadGpioCleanup();
        assert old(gpio.held) + AllPins() - AllPins() == old(gpio.held);
      }
    }

    /** keypad_driver_exit: the input device is unregistered if one was
        allocated, then every GPIO line is freed. */
    method DriverExit()
      modifies this`input, gpio
      ensures input == if old(input) == NoDevice then NoDevice else Unregistered
      ensures gpio.held == old(gpio.held) - AllPins()
      ensures gpio.log == old(gpio.log) + CleanupTrace()
    {
      if input != NoDevice {
        input := Unregistered;
      }
      gpio.KeypadGpioCleanup();
    }
  }

  /** A full module lifetime from a fresh state: when every line is granted
      and the input device registers, load succeeds, announces the keymap's
      keys and holds every line; unload leaves no line held. */
  method LoadThenUnload(reply: RequestReply) returns (err: int, announced: set<Keycode>, heldAfterLoad: set<Pin>, heldAfterUnload: set<Pin>)
    requires InitResult(reply) == 0
    ensures err == 0
    ensures announced == Capabilities(KEYMAP)
    ensures heldAfterLoad == AllPins() && heldAfterUnload == {}
  {
    var d := new KeypadDriver();
    err := d.DriverInit(reply, true, 0);
    announced := if d.input.Registered? then d.input.keybit else {};
    heldAfterLoad := d.gpio.held;
    d.DriverExit();
    heldAfterUnload := d.gpio.held;
  }
}
