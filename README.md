# Steering-wheel indicator blink and debounce model

This project models the indicator logic of an ESP32 steering-wheel module.
Three push-buttons (left, hazard, right) each have a debounced toggle flag.
Their LEDs flash on a blink tick.

- **Debounce step** (`isr`, in both `src/blink.cpp` and `src/main.cpp`). The handler acts only on an argument tagged as a Button. The time since the last accepted press is computed as an unsigned 32-bit `millis()` difference, which wraps modulo 2^32. If that time is strictly greater than `DEBOUNCE_TIME` (150 ms), the press is accepted: the handler stores a fresh `millis()` reading and flips the button's `pressed` flag. Otherwise nothing changes.
- **Blink step** (`blinkController`). It looks at tuples 0, 1 and 2 of the button/LED array, and only those. A toggled-on button flips its LED's level (`toggleLED`). A toggled-off button forces its LED LOW. Several LEDs may flash at once.

Modules:

- `Debouncing` (`debounce.dfy`) holds the pure rule. It has the `uint32` type, the wrapping `Elapsed`, the one-edge step `Debounce`, and edge sequences (`Edges`) with their lemmas.
- `Board` (`board.dfy`) holds the data model of `include/blink.h`. That is the pin enumerations with their GPIO numbers, the `IsrId` tag, the `Button` and `Led` records, the button/LED tuple, and the interrupt argument as a tagged variant `IsrArg`.
- `Gpio` (`gpio.dfy`) holds the pin levels. `digitalRead` is a field read of the class `Bank` and `digitalWrite` is a map update.
- `Blink` (`blink.dfy`) holds `toggleLED`, `blinkController` and `isr` of `src/blink.cpp`. `blinkController` is proved against the specification function `BlinkAll`.
- `MainProgram` (`main_program.dfy`) holds the three global Buttons and the `isr` of `src/main.cpp`.

Each call of `millis()` is a parameter. The ISR reads it twice: `t1` is compared with the stored timestamp and `t2` is stored. A Button's constructor takes its own reading. HIGH is `true` and LOW is `false`. A pin that has never been written reads LOW.

The firmware has no shared request slot and no single active blinker. An accepted edge flips its own button's `pressed` flag, and `blinkController` flashes every LED whose button is toggled on. The exclusive `blinker` is only declared (include/blink.hpp:92).

`main.cpp` declares its own `Button` struct and pin enumerations, with the same fields and numbers as `include/blink.h`. The model reuses `Board.Button` for both. `main.cpp`'s tag enumeration has only `ISR_BUTTON`, and only Buttons are attached to its interrupt, so `MainProgram.Isr` takes a `Button`.

## Model

| member | source | states |
|---|---|---|
| `Debouncing.Elapsed` | src/main.cpp:91 | the uint32 difference `now - last` wraps: adding it to `last` gives `now` modulo 2^32; it is `now - last` when `last <= now` and `2^32 - (last - now)` otherwise |
| `Debouncing.Debounce` | src/blink.cpp:54-57 | the debounce step of both handlers (also src/main.cpp:91-94): one edge flips `pressed` exactly when the wrapped elapsed time exceeds 150; on acceptance the timestamp becomes the second reading; otherwise the state is unchanged |
| `Debouncing.BoundaryRejected` | include/blink.h:21-28 | for every stored timestamp, including those just below 2^32, an edge whose wrapped reading is exactly 150 ms later is rejected and one 151 ms later is accepted (strict greater-than) |
| `Debouncing.WrapAroundElapsed` | src/main.cpp:91 | with the timestamp at 0xFFFFFFF0, readings 5 and 0x86 give elapsed 21 and 150 (rejected); readings 0x87 and 200 give 151 and 216 (accepted) |
| `Debouncing.AcceptedThenBounce` | src/main.cpp:91-92 | after an accepted edge stores `t2`, an edge whose elapsed time from `t2` is at most 150 is rejected and the state stays as the first edge left it |
| `Debouncing.SpacedEdgesAccepted` | src/main.cpp:91-94 | a sequence of edges each more than 150 ms after the previous stored reading is accepted edge by edge: `pressed` is flipped once per edge and the timestamp is the last edge's stored reading |
| `Debouncing.BouncesIgnored` | src/main.cpp:91-95 | edges all within 150 ms of the stored timestamp leave the button state unchanged |
| `Debouncing.PressWithBounces` | src/blink.cpp:54-57 | one accepted press followed by any number of bounces within its dead time flips `pressed` exactly once and leaves the press's stored reading |
| `Board.PinsDistinct` | include/blink.h:31-44 | the four LED GPIOs are pairwise distinct, and so are the three button GPIOs |
| `Board.Led.constructor` | include/blink.h:68 | an LED record is always tagged `ISR_LED` and holds the given pin |
| `Board.Button.constructor` | include/blink.h:78-81 | a Button is tagged `ISR_BUTTON`, its timestamp is the construction-time reading and `pressed` is the given initial value |
| `Board.Tag` | include/blink.h:46-60 | the tag at the head of the interrupt argument is `ISR_BUTTON` exactly when the argument is a Button |
| `Gpio.ToggledTwice` | src/blink.cpp:10-14 | toggling a pin twice restores the level of every pin |
| `Blink.ToggleLed` | src/blink.cpp:9-17 | the pin's level becomes the negation of its previous level (HIGH to LOW, LOW to HIGH) and no other pin changes |
| `Blink.BlinkAllUntouched` | src/blink.cpp:29-35 | a blink tick leaves the level of every pin not driven by one of its tuples unchanged |
| `Blink.BlinkAllAt` | src/blink.cpp:29-35 | with distinct LED pins, after a blink tick each tuple's LED is flipped if its button is toggled on and LOW otherwise, whatever its previous level |
| `Blink.DistinctLedsDistinctPins` | include/blink.h:31-36 | the first three tuples drive distinct GPIOs exactly when they name distinct LEDs, so the left, hazard and right LEDs meet the distinct-pin hypothesis of `BlinkController` |
| `Blink.TicksAt` | include/blink.h:84-92 | over n ticks with unchanged toggle flags, a toggled-on LED has been flipped n times (it flashes) and a toggled-off LED is LOW from the first tick on |
| `Blink.BlinkController` | src/blink.cpp:28-37 | the new levels are `BlinkAll` of the old levels over tuples 0..2 only; with distinct pins each of those LEDs is flipped or forced LOW by its button's flag; every other pin and every Button are unchanged |
| `Blink.Isr` | src/blink.cpp:46-62 | for a Button argument the new (timestamp, pressed) is the debounce step of the old one on readings `t1`, `t2`; an LED argument changes nothing |
| `MainProgram.DefineButtons` | src/main.cpp:51-53 | the three globals are distinct new Buttons on the left, hazard and right pins, each with `pressed == false` and its construction-time timestamp |
| `MainProgram.Isr` | src/main.cpp:84-100 | the button's new state is the debounce step: on acceptance the timestamp is `t2` and `pressed` is negated once; on rejection both are unchanged |

## Left out

- The `Serial.println` in `main.cpp`'s `isr` (src/main.cpp:93) is serial output with no effect on the modelled state, so it is not modelled.
- `setup()` and `loop()` in `src/main.cpp` are left out. They only configure pin modes, attach interrupts, start the serial port and delay.
- Interrupt concurrency is not modelled. Each `isr` call is one atomic step, with no preemption between the handler and the main loop.
- `millis()` is not modelled as a clock. Its readings are free parameters, so nothing ties `t2` to `t1` or to real time.
- `blinkController`'s `size` argument is never read by the code (src/blink.cpp:28-29). The model keeps the parameter unused and requires at least three tuples, because the loop reads indices 0 to 2 unconditionally.
- The `LED` struct of `src/main.cpp:36-39` (pin and `toggle` flag) is not used by any code there, so it is not modelled.
- `include/blink.hpp` is not part of this model. Its `blinker`, `init_blink` and `checkIfBlink` are declarations without bodies, including the single-active-blinker exclusivity and the timer/semaphore tick.
- `src/can.cpp`, `include/CAN.h` and `include/can.h` are not part of this model. They are thin calls into the TWAI driver, type aliases and prototypes.
- `config_and_start_twai` in `src/can.cpp` is not modelled, but one defect in it is noted here. Its success path reaches the end of a function returning `esp_err_t` without a `return` (src/can.cpp:6-23). In C++ that is undefined behaviour.
- Blink.BlinkController: the per-LED postcondition is stated only when the three tuples drive distinct pins. On a shared pin the general postcondition through `BlinkAll` still holds: the tuples act in order 0, 1, 2; forcing LOW sets LOW, and a toggle inverts whatever level the earlier tuples left.
