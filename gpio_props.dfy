/** What the GPIO call sequences promise: replayed against the kernel's
    table, keypad_gpio_init leaves every line held or none, never requests a
    line twice, and only configures or frees lines it holds. */
module GpioProperties {
  import opened Keypad
  import opened Gpio

  /** Effect of one call on the set of held lines. */
  function Step(held: set<Pin>, op: GpioOp): set<Pin>
  {
    match op
    case Request(p, ret) => if ret == 0 then held + {p} else held
    case Free(p) => held - {p}
    case DirectionOutput(_, _) => held
    case DirectionInput(_) => held
  }

  /** Lines held after the calls `ops`, starting from `held`. */
  function HeldAfter(held: set<Pin>, ops: seq<GpioOp>): set<Pin>
    decreases |ops|
  {
    if ops == [] then held
    else Step(HeldAfter(held, ops[..|ops| - 1]), ops[|ops| - 1])
  }

  /** A request is only for a line not held; a direction call or a free
      only for a line held. */
  predicate Allowed(held: set<Pin>, op: GpioOp)
  {
    match op
    case Request(p, _) => p !in held
    case DirectionOutput(p, _) => p in held
    case DirectionInput(p) => p in held
    case Free(p) => p in held
  }

  predicate Disciplined(held: set<Pin>, ops: seq<GpioOp>)
    decreases |ops|
  {
    ops == [] ||
    (Disciplined(held, ops[..|ops| - 1]) && Allowed(HeldAfter(held, ops[..|ops| - 1]), ops[|ops| - 1]))
  }

  /** Every call of `ops` is about a line of `s`. */
  predicate OnlyLines(ops: seq<GpioOp>, s: set<Pin>)
  {
    forall k :: 0 <= k < |ops| ==> ops[k].pin in s
  }

  lemma {:induction false} ReplayAppend(held: set<Pin>, a: seq<GpioOp>, b: seq<GpioOp>)
    ensures HeldAfter(held, a + b) == HeldAfter(HeldAfter(held, a), b)
    ensures Disciplined(held, a + b) <==> Disciplined(held, a) && Disciplined(HeldAfter(held, a), b)
    decreases |b|
  {
    if b == [] {
      assert a + b == a;
    } else {
      var b' := b[..|b| - 1];
      assert (a + b)[..|a + b| - 1] == a + b';
      assert (a + b)[|a + b| - 1] == b[|b| - 1];
      ReplayAppend(held, a, b');
    }
  }

  lemma ReplayPair(held: set<Pin>, x: GpioOp, y: GpioOp)
    ensures HeldAfter(held, [x, y]) == Step(Step(held, x), y)
    ensures Disciplined(held, [x, y]) <==> Allowed(held, x) && Allowed(Step(held, x), y)
  {
    assert [x, y][..1] == [x];
    ReplayOne(held, x);
  }

  lemma ReplayOne(held: set<Pin>, x: GpioOp)
    ensures HeldAfter(held, [x]) == Step(held, x)
    ensures Disciplined(held, [x]) <==> Allowed(held, x)
  {
    assert [x][..0] == [];
  }

  /** One granted request of a line not yet held, then its direction call. */
  lemma AcquireOneReplay(held: set<Pin>, p: Pin, asOutput: bool)
    requires p !in held
    ensures Disciplined(held, [Request(p, 0), if asOutput then DirectionOutput(p, 0) else DirectionInput(p)])
    ensures HeldAfter(held, [Request(p, 0), if asOutput then DirectionOutput(p, 0) else DirectionInput(p)]) == held + {p}
  {
    ReplayPair(held, Request(p, 0), if asOutput then DirectionOutput(p, 0) else DirectionInput(p));
  }

  lemma {:induction false} AcquiredLines(pins: seq<Pin>, n: nat, asOutput: bool)
    requires n <= |pins|
    ensures OnlyLines(Acquired(pins, n, asOutput), SetOf(pins))
  {
    if n > 0 {
      AcquiredLines(pins, n - 1, asOutput);
      var a := Acquired(pins, n - 1, asOutput);
      var pair: seq<GpioOp> := [Request(pins[n - 1], 0), if asOutput then DirectionOutput(pins[n - 1], 0) else DirectionInput(pins[n - 1])];
      assert Acquired(pins, n, asOutput) == a + pair;
      forall k | 0 <= k < |a + pair|
        ensures (a + pair)[k].pin in SetOf(pins)
      {
        if k < |a| {
          assert (a + pair)[k] == a[k];
        }
      }
    }
  }

  lemma {:induction false} AcquiredReplay(held: set<Pin>, pins: seq<Pin>, n: nat, asOutput: bool)
    requires n <= |pins| && Distinct(pins) && held !! SetOf(pins)
    ensures Disciplined(held, Acquired(pins, n, asOutput))
    ensures HeldAfter(held, Acquired(pins, n, asOutput)) == held + SetOf(pins[..n])
    ensures OnlyLines(Acquired(pins, n, asOutput), SetOf(pins))
  {
    AcquiredLines(pins, n, asOutput);
    if n > 0 {
      AcquiredReplay(held, pins, n - 1, asOutput);
      var p := pins[n - 1];
      var a := Acquired(pins, n - 1, asOutput);
      var pair: seq<GpioOp> := [Request(p, 0), if asOutput then DirectionOutput(p, 0) else DirectionInput(p)];
      assert Acquired(pins, n, asOutput) == a + pair;
      ReplayAppend(held, a, pair);
      SetOfTake(pins, n - 1);
      assert p !in SetOf(pins[..n - 1]);
      assert p !in held;
      AcquireOneReplay(held + SetOf(pins[..n - 1]), p, asOutput);
    }
  }

  lemma RequestTraceReplay(held: set<Pin>, pins: seq<Pin>, asOutput: bool, reply: RequestReply)
    requires Distinct(pins) && held !! SetOf(pins)
    ensures Disciplined(held, RequestTrace(pins, asOutput, reply))
    ensures HeldAfter(held, RequestTrace(pins, asOutput, reply)) == held + SetOf(pins[..FirstFailure(pins, reply)])
    ensures OnlyLines(RequestTrace(pins, asOutput, reply), SetOf(pins))
  {
    var n := FirstFailure(pins, reply);
    AcquiredReplay(held, pins, n, asOutput);
    var a := Acquired(pins, n, asOutput);
    if n < |pins| {
      ReplayAppend(held, a, [Request(pins[n], reply(pins[n]))]);
      ReplayOne(held + SetOf(pins[..n]), Request(pins[n], reply(pins[n])));
      assert pins[n] !in SetOf(pins[..n]);
    } else {
      assert RequestTrace(pins, asOutput, reply) == a;
    }
  }

  lemma {:induction false} FreedDownReplay(held: set<Pin>, pins: seq<Pin>, hi: nat, lo: nat)
    requires lo <= hi <= |pins| && Distinct(pins) && SetOf(pins[lo..hi]) <= held
    ensures Disciplined(held, FreedDown(pins, hi, lo))
    ensures HeldAfter(held, FreedDown(pins, hi, lo)) == held - SetOf(pins[lo..hi])
    ensures OnlyLines(FreedDown(pins, hi, lo), SetOf(pins))
    decreases hi - lo
  {
    if lo == hi {
      assert pins[lo..hi] == [];
    } else {
      SetOfDrop(pins, lo, hi);
      FreedDownReplay(held, pins, hi, lo + 1);
      ReplayAppend(held, FreedDown(pins, hi, lo + 1), [Free(pins[lo])]);
      ReplayOne(held - SetOf(pins[lo + 1..hi]), Free(pins[lo]));
      assert pins[lo] !in SetOf(pins[lo + 1..hi]);
    }
  }

  lemma {:induction false} FreedUpReplay(held: set<Pin>, pins: seq<Pin>, n: nat)
    requires n <= |pins| && Distinct(pins) && SetOf(pins[..n]) <= held
    ensures Disciplined(held, FreedUp(pins, n))
    ensures HeldAfter(held, FreedUp(pins, n)) == held - SetOf(pins[..n])
    ensures OnlyLines(FreedUp(pins, n), SetOf(pins))
  {
    if n > 0 {
      SetOfTake(pins, n - 1);
      FreedUpReplay(held, pins, n - 1);
      ReplayAppend(held, FreedUp(pins, n - 1), [Free(pins[n - 1])]);
      ReplayOne(held - SetOf(pins[..n - 1]), Free(pins[n - 1]));
    }
  }

  /** The err_row path: the granted rows are given back in reverse. */
  lemma RowPhaseFailureReplay(held: set<Pin>, reply: RequestReply)
    requires held !! AllPins() && FirstFailure(ROW_GPIOS, reply) < ROWS
    ensures Disciplined(held, InitTrace(reply))
    ensures HeldAfter(held, InitTrace(reply)) == held
  {
    PinsDistinct();
    AllPinsSplit();
    var i := FirstFailure(ROW_GPIOS, reply);
    var rows := RequestTrace(ROW_GPIOS, true, reply);
    RequestTraceReplay(held, ROW_GPIOS, true, reply);
    assert ROW_GPIOS[0..i] == ROW_GPIOS[..i];
    FreedDownReplay(held + SetOf(ROW_GPIOS[..i]), ROW_GPIOS, i, 0);
    ReplayAppend(held, rows, FreedDown(ROW_GPIOS, i, 0));
    assert held + SetOf(ROW_GPIOS[..i]) - SetOf(ROW_GPIOS[..i]) == held;
  }

  /** The row phase granted in full, then the column phase up to its first refusal. */
  lemma RequestBothReplay(held: set<Pin>, reply: RequestReply)
    requires held !! AllPins() && FirstFailure(ROW_GPIOS, reply) == ROWS
    ensures Disciplined(held, RequestTrace(ROW_GPIOS, true, reply) + RequestTrace(COL_GPIOS, false, reply))
    ensures HeldAfter(held, RequestTrace(ROW_GPIOS, true, reply) + RequestTrace(COL_GPIOS, false, reply))
      == held + SetOf(ROW_GPIOS) + SetOf(COL_GPIOS[..FirstFailure(COL_GPIOS, reply)])
  {
    PinsDistinct();
    AllPinsSplit();
    assert ROW_GPIOS[..ROWS] == ROW_GPIOS;
    RequestTraceReplay(held, ROW_GPIOS, true, reply);
    RequestTraceReplay(held + SetOf(ROW_GPIOS), COL_GPIOS, false, reply);
    ReplayAppend(held, RequestTrace(ROW_GPIOS, true, reply), RequestTrace(COL_GPIOS, false, reply));
  }

  /** The err_col path: the granted columns are given back in reverse, then
      every row in index order, which leaves the table as it was before init. */
  lemma ColumnUnwindReplay(held: set<Pin>, reply: RequestReply)
    requires held !! AllPins() && FirstFailure(COL_GPIOS, reply) < COLS
    ensures Disciplined(held + SetOf(ROW_GPIOS) + SetOf(COL_GPIOS[..FirstFailure(COL_GPIOS, reply)]),
      FreedDown(COL_GPIOS, FirstFailure(COL_GPIOS, reply), 0) + FreedUp(ROW_GPIOS, ROWS))
    ensures HeldAfter(held + SetOf(ROW_GPIOS) + SetOf(COL_GPIOS[..FirstFailure(COL_GPIOS, reply)]),
      FreedDown(COL_GPIOS, FirstFailure(COL_GPIOS, reply), 0) + FreedUp(ROW_GPIOS, ROWS)) == held
  {
    PinsDistinct();
    AllPinsSplit();
    var j := FirstFailure(COL_GPIOS, reply);
    var cj := SetOf(COL_GPIOS[..j]);
    var h := held + SetOf(ROW_GPIOS) + cj;
    assert COL_GPIOS[0..j] == COL_GPIOS[..j];
    assert ROW_GPIOS[..ROWS] == ROW_GPIOS;
    assert SetOf(COL_GPIOS[..j]) <= SetOf(COL_GPIOS);
    FreedDownReplay(h, COL_GPIOS, j, 0);
    assert h - cj == held + SetOf(ROW_GPIOS);
    FreedUpReplay(h - cj, ROW_GPIOS, ROWS);
    assert held + SetOf(ROW_GPIOS) - SetOf(ROW_GPIOS) == held;
    ReplayAppend(h, FreedDown(COL_GPIOS, j, 0), FreedUp(ROW_GPIOS, ROWS));
  }

  /** keypad_gpio_init, replayed from a table holding none of the keypad's
      lines: it never requests a held line and only configures or frees lines
      it holds; afterwards it holds all eight lines on success, none on failure. */
  lemma InitTraceReplay(held: set<Pin>, reply: RequestReply)
    requires held !! AllPins()
    ensures Disciplined(held, InitTrace(reply))
    ensures HeldAfter(held, InitTrace(reply)) == if InitResult(reply) == 0 then held + AllPins() else held
  {
    if FirstFailure(ROW_GPIOS, reply) < ROWS {
      RowPhaseFailureReplay(held, reply);
    } else {
      var both := RequestTrace(ROW_GPIOS, true, reply) + RequestTrace(COL_GPIOS, false, reply);
      var j := FirstFailure(COL_GPIOS, reply);
      RequestBothReplay(held, reply);
      if j < COLS {
        var unwind := FreedDown(COL_GPIOS, j, 0) + FreedUp(ROW_GPIOS, ROWS);
        ColumnUnwindReplay(held, reply);
        ReplayAppend(held, both, unwind);
        assert InitTrace(reply) == both + unwind;
      } else {
        AllPinsSplit();
        assert COL_GPIOS[..j] == COL_GPIOS;
        assert InitTrace(reply) == both + [];
        assert both + [] == both;
      }
    }
  }

  /** Freeing every line of a, in order, then every line of b. */
  lemma FreeBothReplay(held: set<Pin>, a: seq<Pin>, b: seq<Pin>)
    requires Distinct(a) && Distinct(b) && SetOf(a) !! SetOf(b) && SetOf(a) + SetOf(b) <= held
    ensures Disciplined(held, FreedUp(a, |a|) + FreedUp(b, |b|))
    ensures HeldAfter(held, FreedUp(a, |a|) + FreedUp(b, |b|)) == held - SetOf(a) - SetOf(b)
  {
    assert a[..|a|] == a && b[..|b|] == b;
    FreedUpReplay(held, a, |a|);
    FreedUpReplay(held - SetOf(a), b, |b|);
    ReplayAppend(held, FreedUp(a, |a|), FreedUp(b, |b|));
  }

  /** keypad_gpio_cleanup, replayed from a table holding all eight lines,
      frees each exactly once and leaves none held. */
  lemma CleanupTraceReplay(held: set<Pin>)
    requires AllPins() <= held
    ensures Disciplined(held, CleanupTrace())
    ensures HeldAfter(held, CleanupTrace()) == held - AllPins()
  {
    PinsDistinct();
    FreeBothReplay(held, ROW_GPIOS, COL_GPIOS);
  }

  /** A refused row request ends keypad_gpio_init before any column is touched. */
  lemma RowFailureTouchesNoColumn(reply: RequestReply)
    requires FirstFailure(ROW_GPIOS, reply) < ROWS
    ensures forall k :: 0 <= k < |InitTrace(reply)| ==> InitTrace(reply)[k].pin !in COL_GPIOS
  {
    PinsDistinct();
    var i := FirstFailure(ROW_GPIOS, reply);
    var rows := RequestTrace(ROW_GPIOS, true, reply);
    var unwind := FreedDown(ROW_GPIOS, i, 0);
    RequestTraceReplay({}, ROW_GPIOS, true, reply);
    assert ROW_GPIOS[0..i] == ROW_GPIOS[..i];
    FreedDownReplay(SetOf(ROW_GPIOS[..i]), ROW_GPIOS, i, 0);
    var t := InitTrace(reply);
    assert t == rows + unwind;
    forall k | 0 <= k < |t|
      ensures t[k].pin !in COL_GPIOS
    {
      if k < |rows| {
        assert t[k] == rows[k];
      } else {
        assert t[k] == unwind[k - |rows|];
      }
      assert t[k].pin in SetOf(ROW_GPIOS);
    }
  }

  lemma {:induction false} FirstFailureAppend(a: seq<Pin>, b: seq<Pin>, reply: RequestReply)
    ensures FirstFailure(a + b, reply) ==
      if FirstFailure(a, reply) < |a| then FirstFailure(a, reply) else |a| + FirstFailure(b, reply)
  {
    if a != [] {
      assert (a + b)[1..] == a[1..] + b;
      FirstFailureAppend(a[1..], b, reply);
    } else {
      assert a + b == b;
    }
  }

  /** keypad_gpio_init returns the error of the first refused request in
      request order (rows, then columns), or 0 when every request was granted. */
  lemma InitResultIsFirstRefusal(reply: RequestReply)
    ensures var f := FirstFailure(RequestOrder(), reply);
      InitResult(reply) == if f < |RequestOrder()| then reply(RequestOrder()[f]) else 0
  {
    FirstFailureAppend(ROW_GPIOS, COL_GPIOS, reply);
    var i := FirstFailure(ROW_GPIOS, reply);
    if i < ROWS {
      assert RequestOrder()[i] == ROW_GPIOS[i];
    } else {
      var j := FirstFailure(COL_GPIOS, reply);
      if j < COLS {
        assert RequestOrder()[ROWS + j] == COL_GPIOS[j];
      }
    }
  }

  /** keypad_gpio_init succeeds exactly when every one of the eight requests is granted. */
  lemma InitSucceedsIffAllGranted(reply: RequestReply)
    ensures InitResult(reply) == 0 <==>
      forall k :: 0 <= k < |RequestOrder()| ==> reply(RequestOrder()[k]) == 0
  {
    InitResultIsFirstRefusal(reply);
  }

  lemma SuccessTrace(reply: RequestReply)
    requires InitResult(reply) == 0
    ensures FirstFailure(ROW_GPIOS, reply) == ROWS && FirstFailure(COL_GPIOS, reply) == COLS
    ensures InitTrace(reply) == Acquired(ROW_GPIOS, ROWS, true) + Acquired(COL_GPIOS, COLS, false)
  {
  }

  /** On success every row has been configured as an output driven low and
      every column as an input. */
  lemma InitConfiguresLines(reply: RequestReply)
    requires InitResult(reply) == 0
    ensures forall k :: 0 <= k < ROWS ==> DirectionOutput(ROW_GPIOS[k], 0) in InitTrace(reply)
    ensures forall k :: 0 <= k < COLS ==> DirectionInput(COL_GPIOS[k]) in InitTrace(reply)
  {
    SuccessTrace(reply);
    AcquiredConfigures(ROW_GPIOS, ROWS, true);
    AcquiredConfigures(COL_GPIOS, COLS, false);
  }

  lemma {:induction false} AcquiredConfigures(pins: seq<Pin>, n: nat, asOutput: bool)
    requires n <= |pins|
    ensures forall k :: 0 <= k < n ==>
      (if asOutput then DirectionOutput(pins[k], 0) else DirectionInput(pins[k])) in Acquired(pins, n, asOutput)
  {
    if n > 0 {
      AcquiredConfigures(pins, n - 1, asOutput);
    }
  }
}
