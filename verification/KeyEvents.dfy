/** Key events and records as they flow through the firmware, and the wrapped
    clock they are stamped with (quantum/keyboard.h, quantum/action.h,
    platforms/timer.h). */
module KeyEvents {

  type uint8 = x: int | 0 <= x < 0x100
  type uint16 = x: int | 0 <= x < 0x1_0000

  datatype KeyPos = KeyPos(row: uint8, col: uint8)

  datatype EventType = TickEvent | KeyEvent | EncoderCwEvent | EncoderCcwEvent | ComboEvent

  datatype Event = Event(key: KeyPos, time: uint16, typ: EventType, pressed: bool) {
    predicate IsTick() { typ.TickEvent? }
  }

  /** The tap state bits: `interrupted` and the 4-bit count. */
  type uint4 = x: int | 0 <= x < 16
  datatype Tap = Tap(interrupted: bool, count: uint4)

  datatype Record = Record(event: Event, tap: Tap) {
    predicate IsPress() { event.pressed }
  }

  const NO_TAP := Tap(false, 0)
  const ZERO_RECORD := Record(Event(KeyPos(0, 0), 0, TickEvent, false), NO_TAP)

  /** TIMER_DIFF_16: the distance from `b` to `a` on the 16-bit clock. */
  function TimerDiff16(a: uint16, b: uint16): uint16 { (a - b) % 0x1_0000 }

  /** The record `action_exec` builds around a fresh event. */
  function Fresh(e: Event): Record { Record(e, NO_TAP) }
}
