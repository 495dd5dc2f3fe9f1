/** The MIDI messages the scenes react to. */
module Midi {
  /** An unsigned byte (u8). */
  type Byte = x: int | 0 <= x < 256

  /** NoteOn and NoteOff carry a key and a velocity, PitchBendChange a bend amount;
      every other kind of message is Other. */
  datatype MidiMessage =
    | NoteOn(key: Byte, vel: Byte)
    | NoteOff(key: Byte, vel: Byte)
    | PitchBendChange(amount: nat)
    | Other
}
