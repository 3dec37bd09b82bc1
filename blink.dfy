/**
 The blink controller and the interrupt service routine of the blink firmware:
 `ToggleLed` inverts one LED output, `BlinkController` runs once per blink tick
 over the first three button/LED tuples, and `Isr` applies the debounce rule
 to the Button it is handed.
 */
module Blink {
  import opened Debouncing
  import opened Board
  import opened Gpio

  /** What one blink tick does to one LED: the toggle flag of its button and its GPIO. */
  datatype Command = Command(pressed: bool, pin: int)

  /** One tuple handled: flip the LED if its button is toggled on, otherwise force it LOW. */
  function BlinkOne(m: map<int, bool>, c: Command): map<int, bool>
  {
    if c.pressed then Toggled(m, c.pin) else Written(m, c.pin, LOW)
  }

  /** The tuples handled in order. */
  function BlinkAll(m: map<int, bool>, cs: seq<Command>): map<int, bool>
    decreases |cs|
  {
    if cs == [] then m else BlinkOne(BlinkAll(m, cs[..|cs| - 1]), cs[|cs| - 1])
  }

  /** No two commands drive the same GPIO. */
  predicate DistinctPins(cs: seq<Command>)
  {
    forall j, k :: 0 <= j < k < |cs| ==> cs[j].pin != cs[k].pin
  }

  /** A pin that no command drives keeps its level. */
  lemma {:induction false} BlinkAllUntouched(m: map<int, bool>, cs: seq<Command>, p: int)
    requires forall k :: 0 <= k < |cs| ==> cs[k].pin != p
    ensures Level(BlinkAll(m, cs), p) == Level(m, p)
    decreases |cs|
  {
    if cs != [] {
      BlinkAllUntouched(m, cs[..|cs| - 1], p);
    }
  }

  /** With distinct pins, each driven LED ends flipped if toggled on and LOW otherwise. */
  lemma {:induction false} BlinkAllAt(m: map<int, bool>, cs: seq<Command>, k: int)
    requires DistinctPins(cs)
    requires 0 <= k < |cs|
    ensures Level(BlinkAll(m, cs), cs[k].pin) == if cs[k].pressed then !Level(m, cs[k].pin) else LOW
    decreases |cs|
  {
    var n := |cs| - 1;
    var init := cs[..n];
    if k == n {
      BlinkAllUntouched(m, init, cs[k].pin);
    } else {
      assert init[k] == cs[k];
      BlinkAllAt(m, init, k);
    }
  }

  /** The level map after `n` blink ticks with the same toggle flags. */
  function Ticks(m: map<int, bool>, cs: seq<Command>, n: nat): map<int, bool>
  {
    if n == 0 then m else BlinkAll(Ticks(m, cs, n - 1), cs)
  }

  /** A toggled-on LED alternates on every tick; a toggled-off LED is LOW from the first tick on. */
  lemma {:induction false} TicksAt(m: map<int, bool>, cs: seq<Command>, n: nat, k: int)
    requires DistinctPins(cs)
    requires 0 <= k < |cs|
    ensures Level(Ticks(m, cs, n), cs[k].pin) ==
      if cs[k].pressed then Flipped(Level(m, cs[k].pin), n)
      else if n == 0 then Level(m, cs[k].pin) else LOW
  {
    if n > 0 {
      TicksAt(m, cs, n - 1, k);
      BlinkAllAt(Ticks(m, cs, n - 1), cs, k);
    }
  }

  /** The command for one tuple, read through its pointers. */
  function TupleCommand(t: BtnLedTuple): Command
    reads t.btn
  {
    Command(t.btn.pressed, LedGpio(t.led.pin))
  }

  /** The commands of the first three tuples, the only ones the controller looks at. */
  function Commands(tuple: array<BtnLedTuple>): (cs: seq<Command>)
    requires tuple.Length >= 3
    reads tuple, tuple[0].btn, tuple[1].btn, tuple[2].btn
    ensures |cs| == 3
  {
    [TupleCommand(tuple[0]), TupleCommand(tuple[1]), TupleCommand(tuple[2])]
  }

  /**
   The three tuples drive distinct GPIOs exactly when they name distinct LEDs;
   with the board's left, hazard and right LEDs they always do.
   */
  lemma DistinctLedsDistinctPins(tuple: array<BtnLedTuple>)
    requires tuple.Length >= 3
    ensures DistinctPins(Commands(tuple)) <==>
      tuple[0].led.pin != tuple[1].led.pin && tuple[0].led.pin != tuple[2].led.pin && tuple[1].led.pin != tuple[2].led.pin
    ensures [tuple[0].led.pin, tuple[1].led.pin, tuple[2].led.pin] == [LeftLed, HazardLed, RightLed] ==>
      DistinctPins(Commands(tuple))
  {
    var cs := Commands(tuple);
    var a, b, c := tuple[0].led.pin, tuple[1].led.pin, tuple[2].led.pin;
    assert cs[0].pin == LedGpio(a) && cs[1].pin == LedGpio(b) && cs[2].pin == LedGpio(c);
    PinsDistinct(a, b, LeftButton, LeftButton);
    PinsDistinct(a, c, LeftButton, LeftButton);
    PinsDistinct(b, c, LeftButton, LeftButton);
    if a != b && a != c && b != c {
      assert forall j, k :: 0 <= j < k < |cs| ==> cs[j].pin != cs[k].pin;
    }
  }

  /** `toggleLED`: HIGH becomes LOW and LOW becomes HIGH; no other pin changes. */
  method ToggleLed(bank: Bank, pin: LedPin)
    modifies bank
    ensures bank.levels == Toggled(old(bank.levels), LedGpio(pin))
    ensures bank.Read(LedGpio(pin)) == !old(bank.Read(LedGpio(pin)))
    ensures forall q :: q != LedGpio(pin) ==> bank.Read(q) == old(bank.Read(q))
  {
    if bank.Read(LedGpio(pin)) == HIGH {
      bank.Write(LedGpio(pin), LOW);
    } else {
      bank.Write(LedGpio(pin), HIGH);
    }
  }

  /**
   `blinkController`: one blink tick over tuples 0, 1 and 2. The `size` argument
   is not consulted; the array must hold at least three tuples.
   */
  method BlinkController(tuple: array<BtnLedTuple>, size: int, bank: Bank)
    requires tuple.Length >= 3
    modifies bank
    ensures bank.levels == BlinkAll(old(bank.levels), old(Commands(tuple)))
    ensures DistinctPins(old(Commands(tuple))) ==>
      forall i :: 0 <= i < 3 ==>
        bank.Read(LedGpio(tuple[i].led.pin)) ==
          if old(tuple[i].btn.pressed) then !old(bank.Read(LedGpio(tuple[i].led.pin))) else LOW
    ensures forall q :: q != LedGpio(tuple[0].led.pin) && q != LedGpio(tuple[1].led.pin) && q != LedGpio(tuple[2].led.pin) ==>
      bank.Read(q) == old(bank.Read(q))
    ensures forall i :: 0 <= i < tuple.Length ==> tuple[i].btn.State() == old(tuple[i].btn.State())
  {
    ghost var cs := Commands(tuple);
    ghost var before := bank.levels;
    for i := 0 to 3
      invariant bank.levels == BlinkAll(before, cs[..i])
    {
      if tuple[i].btn.pressed {
        ToggleLed(bank, tuple[i].led.pin);
      } else {
        bank.Write(LedGpio(tuple[i].led.pin), LOW);
      }
      assert cs[..i + 1][..i] == cs[..i];
    }
    assert cs[..3] == cs;
    if DistinctPins(cs) {
      forall i | 0 <= i < 3
        ensures Level(bank.levels, cs[i].pin) == if cs[i].pressed then !Level(before, cs[i].pin) else LOW
      {
        BlinkAllAt(before, cs, i);
      }
    }
    forall q | q != cs[0].pin && q != cs[1].pin && q != cs[2].pin
      ensures Level(bank.levels, q) == Level(before, q)
    {
      BlinkAllUntouched(before, cs, q);
    }
  }

  /**
   `isr`: act only on an argument tagged as a Button; accept the edge when the
   wrapped time since the last accepted edge exceeds DEBOUNCE_TIME, then store
   the second `millis()` reading and flip the toggle flag.
   */
  method Isr(arg: IsrArg, t1: uint32, t2: uint32)
    modifies if arg.ButtonArg? then {arg.btn} else {}
    ensures arg.ButtonArg? ==> arg.btn.State() == Debounce(old(arg.btn.State()), t1, t2)
  {
    if Tag(arg) == IsrButton {
      var btn := arg.btn;
      if Elapsed(t1, btn.debounceTime) > DEBOUNCE_TIME {
        btn.debounceTime := t2;
        btn.pressed := !btn.pressed;
      }
    }
  }
}
