/**
 The GPIO output levels, as `digitalRead` and `digitalWrite` see them.
 A pin that has never been written reads LOW.
 */
module Gpio {

  const HIGH: bool := true
  const LOW: bool := false

  /** The level of `pin` in the level map `m`. */
  function Level(m: map<int, bool>, pin: int): bool
  {
    pin in m && m[pin]
  }

  /** The level map after `pin` is set to `v`. */
  function Written(m: map<int, bool>, pin: int, v: bool): (r: map<int, bool>)
    ensures Level(r, pin) == v
    ensures forall q :: q != pin ==> Level(r, q) == Level(m, q)
  {
    m[pin := v]
  }

  /** The level map after `pin` is inverted. */
  function Toggled(m: map<int, bool>, pin: int): map<int, bool>
  {
    Written(m, pin, !Level(m, pin))
  }

  /** Toggling a pin twice gives back every pin's level. */
  lemma ToggledTwice(m: map<int, bool>, pin: int)
    ensures forall q :: Level(Toggled(Toggled(m, pin), pin), q) == Level(m, q)
  {
  }

  /** The GPIO block of the microcontroller. */
  class Bank {
    var levels: map<int, bool>

    constructor ()
      ensures forall q :: Level(levels, q) == LOW
    {
      levels := map[];
    }

    /** `digitalRead(pin)`. */
    function Read(pin: int): bool
      reads this
    {
      Level(levels, pin)
    }

    /** `digitalWrite(pin, v)`. */
    method Write(pin: int, v: bool)
      modifies this
      ensures levels == Written(old(levels), pin, v)
    {
      levels := levels[pin := v];
    }
  }
}
