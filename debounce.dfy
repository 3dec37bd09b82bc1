/**
 The debounce rule shared by both interrupt service routines: a button edge is
 accepted only when more than DEBOUNCE_TIME milliseconds have passed since the
 last accepted edge, measured with unsigned 32-bit wrap-around arithmetic.
 Accepting an edge stores the new timestamp and flips the button's toggle flag.
 */
module Debouncing {

  /** The range of C's uint32_t, the type of `millis()` and of `debounce_time`. */
  newtype uint32 = x: int | 0 <= x < 0x1_0000_0000

  const MODULUS: int := 0x1_0000_0000

  /** Minimum dead time, in milliseconds, after an accepted press. */
  const DEBOUNCE_TIME: uint32 := 150

  /** `now - last` computed as uint32_t: the subtraction wraps modulo 2^32. */
  function Elapsed(now: uint32, last: uint32): (r: uint32)
    ensures (last as int + r as int) % MODULUS == now as int
    ensures last <= now ==> r as int == now as int - last as int
    ensures now < last ==> r as int == MODULUS - (last as int - now as int)
  {
    ((now as int - last as int) % MODULUS) as uint32
  }

  /** The part of a Button that the interrupt service routine updates. */
  datatype ButtonState = ButtonState(debounceTime: uint32, pressed: bool)

  /** An edge at compare time `now` gets past the debounce filter. */
  predicate Accepts(now: uint32, last: uint32)
  {
    Elapsed(now, last) > DEBOUNCE_TIME
  }

  /**
   One button edge: `compare` is the `millis()` reading that is compared with
   the stored timestamp, `store` the second reading that is stored on acceptance.
   The edge flips `pressed` exactly when the wrapped elapsed time exceeds 150 ms;
   an accepted edge stores `store`, a rejected one changes nothing.
   */
  function Debounce(s: ButtonState, compare: uint32, store: uint32): (r: ButtonState)
    ensures r.pressed != s.pressed <==> Elapsed(compare, s.debounceTime) > 150
    ensures r.pressed != s.pressed ==> r.debounceTime == store
    ensures r.pressed == s.pressed ==> r == s
  {
    if Accepts(compare, s.debounceTime) then ButtonState(store, !s.pressed) else s
  }

  /** The reading `delta` ms after `last`, wrapping as uint32_t does. */
  function After(last: uint32, delta: nat): uint32
  {
    ((last as int + delta) % MODULUS) as uint32
  }

  /** An edge exactly DEBOUNCE_TIME after the last accepted one is still a bounce; one more millisecond is not. */
  lemma BoundaryRejected(s: ButtonState, store: uint32)
    ensures Debounce(s, After(s.debounceTime, 150), store) == s
    ensures Debounce(s, After(s.debounceTime, 151), store) == ButtonState(store, !s.pressed)
  {
  }

  /** A timestamp stored just before the counter wraps still gives a small elapsed time. */
  lemma WrapAroundElapsed()
    ensures Elapsed(5, 0xFFFF_FFF0) == 21
    ensures !Accepts(5, 0xFFFF_FFF0)
    ensures Elapsed(200, 0xFFFF_FFF0) == 216
    ensures Accepts(200, 0xFFFF_FFF0)
    ensures Elapsed(0x86, 0xFFFF_FFF0) == 150 && !Accepts(0x86, 0xFFFF_FFF0)
    ensures Elapsed(0x87, 0xFFFF_FFF0) == 151 && Accepts(0x87, 0xFFFF_FFF0)
  {
  }

  /** After an accepted edge, any edge within the dead time of the stored reading is a bounce. */
  lemma AcceptedThenBounce(s: ButtonState, t1: uint32, t2: uint32, u1: uint32, u2: uint32)
    requires Accepts(t1, s.debounceTime)
    requires Elapsed(u1, t2) <= DEBOUNCE_TIME
    ensures Debounce(Debounce(s, t1, t2), u1, u2) == ButtonState(t2, !s.pressed)
  {
  }

  /** The two `millis()` readings of one interrupt. */
  datatype Edge = Edge(compare: uint32, store: uint32)

  /** A button's state after a sequence of edges, handled one at a time. */
  function Edges(s: ButtonState, es: seq<Edge>): ButtonState
    decreases |es|
  {
    if es == [] then s else Edges(Debounce(s, es[0].compare, es[0].store), es[1..])
  }

  /** Each edge comes more than DEBOUNCE_TIME after the reading stored by the previous one. */
  predicate Spaced(last: uint32, es: seq<Edge>)
    decreases |es|
  {
    es == [] || (Accepts(es[0].compare, last) && Spaced(es[0].store, es[1..]))
  }

  /** The timestamp left behind when every edge is accepted. */
  function LastStore(last: uint32, es: seq<Edge>): uint32
  {
    if es == [] then last else es[|es| - 1].store
  }

  /** `b` flipped `n` times. */
  function Flipped(b: bool, n: nat): bool
  {
    if n % 2 == 0 then b else !b
  }

  /** Edges spaced more than the dead time apart are all accepted: each one flips the flag. */
  lemma {:induction false} SpacedEdgesAccepted(s: ButtonState, es: seq<Edge>)
    requires Spaced(s.debounceTime, es)
    ensures Edges(s, es) == ButtonState(LastStore(s.debounceTime, es), Flipped(s.pressed, |es|))
    decreases |es|
  {
    if es != [] {
      var s' := Debounce(s, es[0].compare, es[0].store);
      assert s' == ButtonState(es[0].store, !s.pressed);
      SpacedEdgesAccepted(s', es[1..]);
    }
  }

  /** Edges that all fall within the dead time of the stored timestamp change nothing. */
  lemma {:induction false} BouncesIgnored(s: ButtonState, es: seq<Edge>)
    requires forall k :: 0 <= k < |es| ==> Elapsed(es[k].compare, s.debounceTime) <= DEBOUNCE_TIME
    ensures Edges(s, es) == s
    decreases |es|
  {
    if es != [] {
      assert Debounce(s, es[0].compare, es[0].store) == s;
      forall k | 0 <= k < |es[1..]|
        ensures Elapsed(es[1..][k].compare, s.debounceTime) <= DEBOUNCE_TIME
      {
        assert es[1..][k] == es[k + 1];
      }
      BouncesIgnored(s, es[1..]);
    }
  }

  /** One accepted press followed by its bounces leaves exactly one flip. */
  lemma {:induction false} PressWithBounces(s: ButtonState, press: Edge, bounces: seq<Edge>)
    requires Accepts(press.compare, s.debounceTime)
    requires forall k :: 0 <= k < |bounces| ==> Elapsed(bounces[k].compare, press.store) <= DEBOUNCE_TIME
    ensures Edges(s, [press] + bounces) == ButtonState(press.store, !s.pressed)
  {
    var es := [press] + bounces;
    assert es[0] == press && es[1..] == bounces;
    BouncesIgnored(ButtonState(press.store, !s.pressed), bounces);
  }
}
