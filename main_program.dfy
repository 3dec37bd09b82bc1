/**
 The stand-alone firmware program: three global Buttons, all toggled off at
 start, and its own copy of the debouncing interrupt service routine.
 */
module MainProgram {
  import opened Debouncing
  import opened Board

  /**
   The global Button definitions. Each constructor takes its own `millis()`
   reading; every button starts with its toggle flag off.
   */
  method DefineButtons(tLeft: uint32, tHazard: uint32, tRight: uint32)
    returns (left: Button, hazard: Button, right: Button)
    ensures fresh(left) && fresh(hazard) && fresh(right)
    ensures left != hazard && hazard != right && left != right
    ensures left.pin == LeftButton && hazard.pin == HazardButton && right.pin == RightButton
    ensures left.State() == ButtonState(tLeft, false)
    ensures hazard.State() == ButtonState(tHazard, false)
    ensures right.State() == ButtonState(tRight, false)
  {
    left := new Button(LeftButton, false, tLeft);
    hazard := new Button(HazardButton, false, tHazard);
    right := new Button(RightButton, false, tRight);
  }

  /**
   `isr`: only Buttons are attached as arguments here, and the tag they carry
   is the only one this program defines. The edge is accepted when the wrapped
   time since the last accepted edge exceeds DEBOUNCE_TIME.
   */
  method Isr(arg: Button, t1: uint32, t2: uint32)
    modifies arg
    ensures arg.State() == Debounce(old(arg.State()), t1, t2)
    ensures Accepts(t1, old(arg.debounceTime)) ==> arg.debounceTime == t2 && arg.pressed == !old(arg.pressed)
    ensures !Accepts(t1, old(arg.debounceTime)) ==> arg.State() == old(arg.State())
  {
    if arg.id == IsrButton {
      if Elapsed(t1, arg.debounceTime) > DEBOUNCE_TIME {
        arg.debounceTime := t2;
        arg.pressed := !arg.pressed;
      }
    }
  }
}
