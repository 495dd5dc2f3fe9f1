/**
 * The plotting scene of plot.rs: four parameters w, x, y and z, one of which is the
 * active track. Note-on messages for keys 28 to 31 choose the active track, and a
 * pitch-bend message writes its normalised amount into that track's parameter.
 */
module Plot {
  import opened Midi
  import opened Wrappers

  datatype Track = W | X | Y | Z

  /** The largest 14-bit pitch-bend amount; amounts are divided by it. */
  const MaxBend := 16383

  /** The track a note-on key selects, if any. */
  function TrackForKey(key: Byte): (t: Option<Track>)
    ensures t.Some? <==> 28 <= key <= 31
  {
    if key == 28 then Some(W)
    else if key == 29 then Some(X)
    else if key == 30 then Some(Y)
    else if key == 31 then Some(Z)
    else None
  }

  /** The key that selects a track. */
  function KeyOf(t: Track): Byte {
    match t
    case W => 28
    case X => 29
    case Y => 30
    case Z => 31
  }

  /** Every track has exactly one key, and only that key selects it. */
  lemma TrackKeyRoundTrip(t: Track, key: Byte)
    ensures TrackForKey(KeyOf(t)) == Some(t)
    ensures TrackForKey(key) == Some(t) <==> key == KeyOf(t)
  {
  }

  /** The value a pitch-bend amount is stored as. */
  function BendValue(amount: nat): (v: real)
    ensures 0.0 <= v
    ensures amount <= MaxBend ==> v <= 1.0
    ensures v == 0.0 <==> amount == 0
    ensures v == 1.0 <==> amount == MaxBend
  {
    amount as real / MaxBend as real
  }

  /** Larger amounts give larger values. */
  lemma BendValueMonotone(a: nat, b: nat)
    requires a < b
    ensures BendValue(a) < BendValue(b)
  {
  }

  class Scene {
    var clock: real
    var paused: bool
    var activeTrack: Track
    var w: real
    var x: real
    var y: real
    var z: real

    /** Every parameter lies in [0,1]. */
    predicate InUnit()
      reads this
    {
      0.0 <= w <= 1.0 && 0.0 <= x <= 1.0 && 0.0 <= y <= 1.0 && 0.0 <= z <= 1.0
    }

    /** The parameter a track names. */
    function Value(t: Track): real
      reads this
    {
      match t
      case W => w
      case X => x
      case Y => y
      case Z => z
    }

    /** Scene::new */
    constructor ()
      ensures clock == 0.0 && !paused && activeTrack == W
      ensures w == 1.0 && x == 1.0 && y == 1.0 && z == 1.0
      ensures InUnit()
    {
      clock := 0.0;
      paused := false;
      activeTrack := W;
      w, x, y, z := 1.0, 1.0, 1.0, 1.0;
    }

    /** on_tick: the clock advances by the tick unless the scene is paused; nothing else changes. */
    method OnTick(tick: real)
      modifies this`clock
      ensures clock == if paused then old(clock) else old(clock) + tick
    {
      if !paused {
        clock := clock + tick;
      }
    }

    /**
     * on_midi_message. A note-on for a key from 28 to 31 selects a track and changes
     * nothing else; a pitch bend stores its value in the active track's parameter
     * only; every other message changes nothing.
     */
    method OnMidiMessage(msg: MidiMessage)
      modifies this`activeTrack, this`w, this`x, this`y, this`z
      ensures msg.NoteOn? && TrackForKey(msg.key).Some? ==> activeTrack == TrackForKey(msg.key).value
      ensures !(msg.NoteOn? && TrackForKey(msg.key).Some?) ==> activeTrack == old(activeTrack)
      ensures msg.PitchBendChange? ==> Value(activeTrack) == BendValue(msg.amount)
      ensures forall t :: (msg.PitchBendChange? ==> t != activeTrack) ==> Value(t) == old(Value(t))
      ensures msg.PitchBendChange? && msg.amount <= MaxBend && old(InUnit()) ==> InUnit()
      ensures !msg.PitchBendChange? ==> InUnit() == old(InUnit())
    {
      match msg
      case NoteOn(key, _) =>
        var t := TrackForKey(key);
        if t.Some? {
          activeTrack := t.value;
        }
      case PitchBendChange(amount) =>
        var value := BendValue(amount);
        match activeTrack {
          case W => w := value;
          case X => x := value;
          case Y => y := value;
          case Z => z := value;
        }
      case _ =>
    }
  }
}
