/**
 * The keyboard scene of midi_one.rs: a 128-slot array of key velocities written by
 * note-on and note-off messages, and the renderer's smoothing of the 36 keys from
 * 24 to 59 against the keyboard it showed last.
 */
module MidiOne {
  import opened Midi

  /** Number of slots of the scene's keyboard array. */
  const KeyCount := 128

  /** First key of the window the renderer shows, and the window's width. */
  const WindowStart := 24
  const WindowWidth := 36

  /** Every value is a 7-bit MIDI data byte (at most 127). */
  predicate SevenBit(s: seq<Byte>) {
    forall i :: 0 <= i < |s| ==> s[i] < 128
  }

  class Scene {
    var clock: real
    var paused: bool
    const keyboard: array<Byte>

    predicate Valid()
      reads this
    {
      keyboard.Length == KeyCount
    }

    /** Scene::default: clock at zero, not paused, every key released. */
    constructor ()
      ensures Valid() && fresh(keyboard)
      ensures clock == 0.0 && !paused
      ensures forall i :: 0 <= i < KeyCount ==> keyboard[i] == 0
    {
      clock := 0.0;
      paused := false;
      keyboard := new Byte[KeyCount](_ => 0);
    }

    /** on_tick: the clock advances by the tick unless the scene is paused. */
    method OnTick(tick: real)
      modifies this
      ensures clock == if old(paused) then old(clock) else old(clock) + tick
      ensures paused == old(paused)
    {
      if !paused {
        clock := clock + tick;
      }
    }

    /**
     * on_midi_message. A note-on stores its velocity in the key's slot, a note-off
     * clears the slot, anything else is ignored. A key of 128 or more indexes past
     * the array, which panics in the source: that is `panicked`, with the keyboard
     * left as it was.
     */
    method OnMidiMessage(msg: MidiMessage) returns (panicked: bool)
      requires Valid()
      modifies keyboard
      ensures panicked <==> (msg.NoteOn? || msg.NoteOff?) && msg.key >= KeyCount
      ensures msg.NoteOn? && !panicked ==> keyboard[..] == old(keyboard[..])[msg.key := msg.vel]
      ensures msg.NoteOff? && !panicked ==> keyboard[..] == old(keyboard[..])[msg.key := 0]
      ensures panicked || !(msg.NoteOn? || msg.NoteOff?) ==> keyboard[..] == old(keyboard[..])
      ensures keyboard[..] == Pressed(old(keyboard[..]), msg)
    {
      panicked := false;
      match msg
      case NoteOn(key, vel) =>
        if key < keyboard.Length {
          keyboard[key] := vel;
        } else {
          panicked := true;
        }
      case NoteOff(key, _) =>
        if key < keyboard.Length {
          keyboard[key] := 0;
        } else {
          panicked := true;
        }
      case _ =>
    }
  }

  /** The effect of a message on the keyboard's contents, as a value. */
  function Pressed(kb: seq<Byte>, msg: MidiMessage): seq<Byte> {
    match msg
    case NoteOn(key, vel) => if key < |kb| then kb[key := vel] else kb
    case NoteOff(key, _) => if key < |kb| then kb[key := 0] else kb
    case _ => kb
  }

  /** Messages with 7-bit velocities keep a 7-bit keyboard 7-bit. */
  lemma PressedKeepsSevenBit(kb: seq<Byte>, msg: MidiMessage)
    requires SevenBit(kb)
    requires msg.NoteOn? ==> msg.vel < 128
    ensures SevenBit(Pressed(kb, msg))
    ensures |Pressed(kb, msg)| == |kb|
  {
  }

  /**
   * One smoothed key: the new velocity when it is higher than the old one,
   * otherwise the u8 sum of both halved. The sum wraps at 256 (an unchecked u8
   * addition in a release build).
   */
  function Smooth(n: Byte, o: Byte): Byte {
    if n > o then n else ((n + o) % 256) / 2
  }

  /** interpolate: the two sequences zipped and smoothed pairwise. */
  function Interpolate(current: seq<Byte>, previous: seq<Byte>): (r: seq<Byte>)
    ensures |r| == if |current| < |previous| then |current| else |previous|
    ensures forall i :: 0 <= i < |r| && current[i] as int + previous[i] < 256 ==>
              current[i] <= r[i] && (r[i] <= previous[i] || r[i] == current[i])
    ensures forall i :: 0 <= i < |r| && current[i] <= previous[i] && current[i] as int + previous[i] < 256 ==>
              r[i] == (current[i] + previous[i]) / 2
    ensures forall i :: 0 <= i < |r| && current[i] > previous[i] ==> r[i] == current[i]
  {
    var len := if |current| < |previous| then |current| else |previous|;
    seq(len, i requires 0 <= i < len => Smooth(current[i], previous[i]))
  }

  /**
   * On 7-bit data no sum wraps: every smoothed key lies between the new value and
   * the larger of the two, and stays 7-bit.
   */
  lemma InterpolateSevenBit(current: seq<Byte>, previous: seq<Byte>)
    requires SevenBit(current) && SevenBit(previous)
    ensures SevenBit(Interpolate(current, previous))
    ensures forall i :: 0 <= i < |Interpolate(current, previous)| ==>
              current[i] <= Interpolate(current, previous)[i] &&
              Interpolate(current, previous)[i] <= (if current[i] > previous[i] then current[i] else previous[i])
  {
    var r := Interpolate(current, previous);
    forall i | 0 <= i < |r|
      ensures r[i] < 128
      ensures current[i] <= r[i] <= (if current[i] > previous[i] then current[i] else previous[i])
    {
      assert current[i] as int + previous[i] < 256;
    }
  }

  /** Above 255 the sum wraps and the smoothed key falls below both inputs. */
  lemma InterpolateWrapsOnWideBytes()
    ensures Interpolate([100], [200]) == [22]
  {
    assert Smooth(100, 200) == 22;
  }

  /** Visual::new's starting keyboard: key i of the window holds i. */
  function InitialLastKeyboard(): (s: seq<Byte>)
    ensures |s| == WindowWidth && SevenBit(s)
    ensures forall i :: 0 <= i < WindowWidth ==> s[i] == i
  {
    seq(WindowWidth, i requires 0 <= i < WindowWidth => i)
  }

  /** The renderer's window over a keyboard: skip 24, take 36. */
  function Window(kb: seq<Byte>): (w: seq<Byte>)
    ensures |w| == if |kb| < WindowStart then 0
                   else if |kb| - WindowStart < WindowWidth then |kb| - WindowStart
                   else WindowWidth
    ensures forall i :: 0 <= i < |w| ==> w[i] == kb[WindowStart + i]
  {
    if |kb| <= WindowStart then []
    else if |kb| - WindowStart < WindowWidth then kb[WindowStart..]
    else kb[WindowStart..WindowStart + WindowWidth]
  }

  class Visual {
    var lastKeyboard: seq<Byte>

    /** Visual::new */
    constructor ()
      ensures lastKeyboard == InitialLastKeyboard()
    {
      lastKeyboard := InitialLastKeyboard();
    }

    /**
     * The keyboard bookkeeping of render: the window of the scene's keyboard is
     * smoothed against the last one shown, and the result becomes the last one.
     */
    method Render(scene: Scene) returns (shown: seq<Byte>)
      requires scene.Valid()
      modifies this
      ensures shown == Interpolate(Window(scene.keyboard[..]), old(lastKeyboard))
      ensures lastKeyboard == shown
    {
      shown := Interpolate(Window(scene.keyboard[..]), lastKeyboard);
      lastKeyboard := shown;
    }
  }

  /** A full window smoothed against a full window is a full window again. */
  lemma RenderKeepsWidth(kb: seq<Byte>, last: seq<Byte>)
    requires |kb| == KeyCount && |last| == WindowWidth
    ensures |Interpolate(Window(kb), last)| == WindowWidth
  {
  }

  /**
   * Rendering a 7-bit keyboard keeps the last keyboard 7-bit and 36 keys wide, so
   * the u8 sum in interpolate never wraps from one frame to the next.
   */
  lemma RenderKeepsSevenBit(kb: seq<Byte>, last: seq<Byte>)
    requires |kb| == KeyCount && SevenBit(kb)
    requires |last| == WindowWidth && SevenBit(last)
    ensures |Interpolate(Window(kb), last)| == WindowWidth
    ensures SevenBit(Interpolate(Window(kb), last))
  {
    InterpolateSevenBit(Window(kb), last);
  }
}
