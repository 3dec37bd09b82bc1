/**
 The steering-wheel board: LED and button pins, the tag that the interrupt
 service routine uses to tell its argument apart, and the Button, LED and
 button/LED tuple records.
 */
module Board {
  import opened Debouncing

  /** The LED outputs on the board. */
  datatype LedPin = LeftLed | HazardLed | RightLed | BatteryLed

  /** The GPIO number of each LED output. */
  function LedGpio(p: LedPin): int
  {
    match p
    case LeftLed => 25
    case HazardLed => 26
    case RightLed => 27
    case BatteryLed => 33
  }

  /** The push-button inputs on the board. */
  datatype ButtonPin = LeftButton | HazardButton | RightButton

  /** The GPIO number of each button input. */
  function ButtonGpio(p: ButtonPin): int
  {
    match p
    case LeftButton => 16
    case HazardButton => 4
    case RightButton => 0
  }

  /** Distinct LEDs sit on distinct GPIOs, and so do distinct buttons. */
  lemma PinsDistinct(a: LedPin, b: LedPin, x: ButtonPin, y: ButtonPin)
    ensures a != b ==> LedGpio(a) != LedGpio(b)
    ensures x != y ==> ButtonGpio(x) != ButtonGpio(y)
  {
  }

  /** The tag at the head of every record passed to the interrupt service routine. */
  datatype IsrId = IsrButton | IsrLed

  /** An LED output; its tag is always IsrLed. */
  class Led {
    const id: IsrId := IsrLed
    const pin: LedPin

    constructor (x: LedPin)
      ensures id == IsrLed && pin == x
    {
      pin := x;
    }
  }

  /** A push-button; `pressed` is the toggle state, not the physical level of the input. */
  class Button {
    const id: IsrId := IsrButton
    var debounceTime: uint32
    const pin: ButtonPin
    var pressed: bool

    /** `now` is the `millis()` reading taken when the button is built. */
    constructor (x: ButtonPin, y: bool, now: uint32)
      ensures id == IsrButton && debounceTime == now && pin == x && pressed == y
    {
      debounceTime := now;
      pin := x;
      pressed := y;
    }

    /** The fields the interrupt service routine changes. */
    function State(): ButtonState
      reads this
    {
      ButtonState(debounceTime, pressed)
    }
  }

  /** A button and the LED whose flashing it switches on and off. */
  datatype BtnLedTuple = BtnLedTuple(btn: Button, led: Led)

  /** The argument handed to the interrupt service routine: a Button or an LED record. */
  datatype IsrArg = ButtonArg(btn: Button) | LedArg(led: Led)

  /** The tag read from the head of the argument's record. */
  function Tag(arg: IsrArg): (id: IsrId)
    ensures id == IsrButton <==> arg.ButtonArg?
  {
    match arg
    case ButtonArg(b) => b.id
    case LedArg(l) => l.id
  }
}
