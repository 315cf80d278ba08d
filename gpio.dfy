/** GPIO acquisition and release: requesting the row and column lines in
    order, unwinding on the first refusal, and freeing them all at unload. */
module Gpio {
  import opened Keypad

  type Pin = nat

  /** What gpio_request returns for each line: 0 when granted, an error code
      (a negative errno) when refused. The kernel decides; the driver only reacts. */
  type RequestReply = Pin -> int

  /** The calls the driver makes into the GPIO subsystem, in order. */
  datatype GpioOp =
    | Request(pin: Pin, ret: int)
    | DirectionOutput(pin: Pin, value: int)
    | DirectionInput(pin: Pin)
    | Free(pin: Pin)

  function SetOf(s: seq<Pin>): set<Pin>
  {
    set p | p in s
  }

  /** Every line the driver uses: the rows, then the columns. */
  function RequestOrder(): seq<Pin>
  {
    ROW_GPIOS + COL_GPIOS
  }

  function AllPins(): set<Pin>
  {
    SetOf(RequestOrder())
  }

  /** Index of the first refused line of `pins`, or |pins| when all are granted. */
  function FirstFailure(pins: seq<Pin>, reply: RequestReply): (i: nat)
    ensures i <= |pins|
    ensures forall k :: 0 <= k < i ==> reply(pins[k]) == 0
    ensures i < |pins| ==> reply(pins[i]) != 0
  {
    if pins == [] then 0
    else if reply(pins[0]) != 0 then 0
    else 1 + FirstFailure(pins[1..], reply)
  }

  /** What keypad_gpio_init returns: 0, or the error of the first refused
      row, or (all rows granted) the error of the first refused column. */
  function InitResult(reply: RequestReply): int
  {
    var i := FirstFailure(ROW_GPIOS, reply);
    if i < ROWS then reply(ROW_GPIOS[i])
    else
      var j := FirstFailure(COL_GPIOS, reply);
      if j < COLS then reply(COL_GPIOS[j]) else 0
  }

  /** Granted requests of pins[..n], each followed by its direction call
      (output driven to 0 for rows, input for columns). */
  function Acquired(pins: seq<Pin>, n: nat, asOutput: bool): seq<GpioOp>
    requires n <= |pins|
  {
    if n == 0 then []
    else Acquired(pins, n - 1, asOutput)
         + [Request(pins[n - 1], 0),
            if asOutput then DirectionOutput(pins[n - 1], 0) else DirectionInput(pins[n - 1])]
  }

  /** Frees pins[hi-1], pins[hi-2], ..., pins[lo]: the `while (--i >= 0)` unwinding. */
  function FreedDown(pins: seq<Pin>, hi: nat, lo: nat): seq<GpioOp>
    requires lo <= hi <= |pins|
    decreases hi - lo
  {
    if lo == hi then [] else FreedDown(pins, hi, lo + 1) + [Free(pins[lo])]
  }

  /** Frees pins[0], ..., pins[n-1]: an ascending `for` loop. */
  function FreedUp(pins: seq<Pin>, n: nat): seq<GpioOp>
    requires n <= |pins|
  {
    if n == 0 then [] else FreedUp(pins, n - 1) + [Free(pins[n - 1])]
  }

  /** The calls one request loop makes over `pins`: the granted requests
      with their direction calls, then the refused request, if any. */
  function RequestTrace(pins: seq<Pin>, asOutput: bool, reply: RequestReply): seq<GpioOp>
  {
    var n := FirstFailure(pins, reply);
    Acquired(pins, n, asOutput) + (if n < |pins| then [Request(pins[n], reply(pins[n]))] else [])
  }

  /** The calls keypad_gpio_init makes for a given kernel reply. */
  function InitTrace(reply: RequestReply): seq<GpioOp>
  {
    var i := FirstFailure(ROW_GPIOS, reply);
    if i < ROWS then
      RequestTrace(ROW_GPIOS, true, reply) + FreedDown(ROW_GPIOS, i, 0)
    else
      var j := FirstFailure(COL_GPIOS, reply);
      RequestTrace(ROW_GPIOS, true, reply) + RequestTrace(COL_GPIOS, false, reply)
      + (if j < COLS then FreedDown(COL_GPIOS, j, 0) + FreedUp(ROW_GPIOS, ROWS) else [])
  }

  /** The calls keypad_gpio_cleanup makes. */
  function CleanupTrace(): seq<GpioOp>
  {
    FreedUp(ROW_GPIOS, ROWS) + FreedUp(COL_GPIOS, COLS)
  }

  predicate Distinct(s: seq<Pin>)
  {
    forall i, j :: 0 <= i < j < |s| ==> s[i] != s[j]
  }

  /** The eight wires are eight different lines. */
  lemma PinsDistinct()
    ensures Distinct(RequestOrder())
    ensures Distinct(ROW_GPIOS) && Distinct(COL_GPIOS)
    ensures SetOf(ROW_GPIOS) !! SetOf(COL_GPIOS)
  {
    assert RequestOrder() == [17, 5, 6, 13, 23, 24, 12, 16];
  }

  lemma SetOfTake(s: seq<Pin>, i: nat)
    requires i < |s|
    ensures SetOf(s[..i + 1]) == SetOf(s[..i]) + {s[i]}
  {
    assert s[..i + 1] == s[..i] + [s[i]];
  }

  lemma SetOfDrop(s: seq<Pin>, i: nat, n: nat)
    requires i < n <= |s|
    ensures SetOf(s[i..n]) == {s[i]} + SetOf(s[i + 1..n])
  {
    assert s[i..n] == [s[i]] + s[i + 1..n];
  }

  /** Sequence concatenation regrouped; called where the solver would
      otherwise search for the regrouping among many heap facts. */
  lemma AppendAssoc(a: seq<GpioOp>, b: seq<GpioOp>, c: seq<GpioOp>)
    ensures a + b + c == a + (b + c)
  {
  }

  /** All eight lines are the row lines together with the column lines. */
  lemma AllPinsSplit()
    ensures AllPins() == SetOf(ROW_GPIOS) + SetOf(COL_GPIOS)
  {
  }

  /** The kernel's GPIO table as this driver sees it: the lines it holds
      and the calls it has made. */
  class GpioBank {
    var held: set<Pin>
    var log: seq<GpioOp>

    /** Module load: the driver holds no line yet. */
    constructor ()
      ensures held == {} && log == []
    {
      held, log := {}, [];
    }

    /** gpio_request: the line is held afterwards exactly when it was granted. */
    method GpioRequest(pin: Pin, reply: RequestReply) returns (ret: int)
      modifies this`held, this`log
      ensures ret == reply(pin)
      ensures held == if ret == 0 then old(held) + {pin} else old(held)
      ensures log == old(log) + [Request(pin, ret)]
    {
      ret := reply(pin);
      if ret == 0 {
        held := held + {pin};
      }
      log := log + [Request(pin, ret)];
    }

    /** gpio_direction_output (its return value is ignored by the driver). */
    method GpioDirectionOutput(pin: Pin, value: int)
      modifies this`log
      ensures log == old(log) + [DirectionOutput(pin, value)]
    {
      log := log + [DirectionOutput(pin, value)];
    }

    /** gpio_direction_input (its return value is ignored by the driver). */
    method GpioDirectionInput(pin: Pin)
      modifies this`log
      ensures log == old(log) + [DirectionInput(pin)]
    {
      log := log + [DirectionInput(pin)];
    }

    method GpioFree(pin: Pin)
      modifies this`held, this`log
      ensures held == old(held) - {pin}
      ensures log == old(log) + [Free(pin)]
    {
      held := held - {pin};
      log := log + [Free(pin)];
    }

    /** One request loop of keypad_gpio_init over `pins`: request each line in
        order and configure it; stop at the first refusal, which is returned. */
    method RequestAll(pins: seq<Pin>, asOutput: bool, reply: RequestReply) returns (n: nat, ret: int)
      modifies this`held, this`log
      ensures n == FirstFailure(pins, reply)
      ensures ret == if n < |pins| then reply(pins[n]) else 0
      ensures log == old(log) + RequestTrace(pins, asOutput, reply)
      ensures held == old(held) + SetOf(pins[..n])
    {
      ghost var log0, held0 := log, held;
      n := 0;
      ret := 0;
      while n < |pins|
        invariant 0 <= n <= |pins|
        invariant forall k :: 0 <= k < n ==> reply(pins[k]) == 0
        invariant log == log0 + Acquired(pins, n, asOutput)
        invariant held == held0 + SetOf(pins[..n])
        invariant ret == 0
      {
        SetOfTake(pins, n);
        ret := GpioRequest(pins[n], reply);
        if ret != 0 {
          return;
        }
        if asOutput {
          GpioDirectionOutput(pins[n], 0);
        } else {
          GpioDirectionInput(pins[n]);
        }
        n := n + 1;
      }
      assert pins[..n] == pins;
    }

    /** The `while (--i >= 0) gpio_free(pins[i])` unwinding: pins[n-1] down to pins[0]. */
    method FreeDescending(pins: seq<Pin>, n: nat)
      requires n <= |pins|
      modifies this`held, this`log
      ensures held == old(held) - SetOf(pins[..n])
      ensures log == old(log) + FreedDown(pins, n, 0)
    {
      ghost var log0, held0 := log, held;
      var i := n;
      assert pins[n..n] == [];
      while i > 0
        invariant 0 <= i <= n
        invariant log == log0 + FreedDown(pins, n, i)
        invariant held == held0 - SetOf(pins[i..n])
      {
        i := i - 1;
        SetOfDrop(pins, i, n);
        GpioFree(pins[i]);
      }
      assert pins[0..n] == pins[..n];
    }

    /** A `for` loop freeing pins[0] up to pins[n-1]. */
    method FreeAscending(pins: seq<Pin>, n: nat)
      requires n <= |pins|
      modifies this`held, this`log
      ensures held == old(held) - SetOf(pins[..n])
      ensures log == old(log) + FreedUp(pins, n)
    {
      ghost var log0, held0 := log, held;
      var i := 0;
      while i < n
        invariant 0 <= i <= n
        invariant log == log0 + FreedUp(pins, i)
        invariant held == held0 - SetOf(pins[..i])
      {
        SetOfTake(pins, i);
        GpioFree(pins[i]);
        i := i + 1;
      }
    }

    /** The err_col path: free columns n-1 down to 0, then every row in order. */
    method UnwindColumns(n: nat)
      requires n <= COLS
      modifies this`held, this`log
      ensures held == old(held) - SetOf(COL_GPIOS[..n]) - SetOf(ROW_GPIOS)
      ensures log == old(log) + (FreedDown(COL_GPIOS, n, 0) + FreedUp(ROW_GPIOS, ROWS))
    {
      FreeDescending(COL_GPIOS, n);
      FreeAscending(ROW_GPIOS, ROWS);
      assert ROW_GPIOS[..ROWS] == ROW_GPIOS;
    }

    /** keypad_gpio_init: request the rows (each configured as an output
        driven low), then the columns (each configured as an input). On the
        first refusal, free what this call acquired and return its error. */
    method KeypadGpioInit(reply: RequestReply) returns (ret: int)
      requires held !! AllPins()
      modifies this
      ensures ret == InitResult(reply)
      ensures log == old(log) + InitTrace(reply)
      ensures held == if ret == 0 then old(held) + AllPins() else old(held)
    {
      AllPinsSplit();
      ghost var log0, held0 := log, held;
      ghost var rowPart := RequestTrace(ROW_GPIOS, true, reply);
      var i;
      i, ret := RequestAll(ROW_GPIOS, true, reply);
      if ret != 0 {
        // err_row
        assert SetOf(ROW_GPIOS[..i]) <= SetOf(ROW_GPIOS);
        FreeDescending(ROW_GPIOS, i);
        AppendAssoc(log0, rowPart, FreedDown(ROW_GPIOS, i, 0));
        return;
      }
      assert ROW_GPIOS[..i] == ROW_GPIOS;
      ghost var colPart := RequestTrace(COL_GPIOS, false, reply);
      i, ret := RequestAll(COL_GPIOS, false, reply);
      AppendAssoc(log0, rowPart, colPart);
      if ret != 0 {
        // err_col
        assert SetOf(COL_GPIOS[..i]) <= SetOf(COL_GPIOS);
        UnwindColumns(i);
        AppendAssoc(log0, rowPart + colPart, FreedDown(COL_GPIOS, i, 0) + FreedUp(ROW_GPIOS, ROWS));
        return;
      }
      assert COL_GPIOS[..i] == COL_GPIOS;
      assert rowPart + colPart + [] == rowPart + colPart;
    }

    /** keypad_gpio_cleanup: free every row, then every column. */
    method KeypadGpioCleanup()
      modifies this`held, this`log
      ensures held == old(held) - AllPins()
      ensures log == old(log) + CleanupTrace()
    {
      PinsDistinct();
      FreeAscending(ROW_GPIOS, ROWS);
      FreeAscending(COL_GPIOS, COLS);
      assert ROW_GPIOS[..ROWS] == ROW_GPIOS && COL_GPIOS[..COLS] == COL_GPIOS;
    }
  }
}
