/**
 * Decoding of raw MIDI 1.0 channel-voice messages (src/midi.rs).
 *
 * Byte 0 of a message is a status nibble (high four bits) followed by a
 * channel nibble (low four bits); the data bytes follow. The decoder
 * recognises note-off (0x8), note-on (0x9), control change (0xB) and
 * program change (0xC) and rejects every other status, pitch bend included.
 */
module Midi {
  import opened Wrappers

  type Byte = bv8

  /** Note(channel, key, velocity), the payload of note-on and note-off. */
  datatype Note = Note(channel: Byte, key: Byte, velocity: Byte)

  datatype MidiMessage =
    | NoteOn(note: Note)
    | NoteOff(note: Note)
    | ProgramChange(channel: Byte, program: Byte)
    | ControlChange(channel: Byte, controller: Byte, value: Byte)

  const NOTE_OFF: Byte := 0x8
  const NOTE_ON: Byte := 0x9
  const CONTROL_CHANGE: Byte := 0xB
  const PROGRAM_CHANGE: Byte := 0xC
  const PITCH_BEND: Byte := 0xE

  const UNRECOGNIZED: string := "Unrecognized message"

  /** The channel nibble of a status byte. */
  function Channel(b: Byte): (c: Byte)
    ensures c < 16
    ensures c == b % 16
  {
    b & 0x0F
  }

  /** The status nibble of a status byte. */
  function Status(b: Byte): (s: Byte)
    ensures s < 16
    ensures s == b / 16
  {
    b >> 4
  }

  /** True for the four statuses the decoder turns into a message. */
  predicate Recognized(status: Byte) {
    status == NOTE_OFF || status == NOTE_ON || status == CONTROL_CHANGE || status == PROGRAM_CHANGE
  }

  /** How many bytes a message with this status is read up to. */
  function ReadLength(status: Byte): (n: nat)
    ensures n == 1 <==> !Recognized(status)
    ensures 1 <= n <= 3
  {
    if status == NOTE_OFF || status == NOTE_ON || status == CONTROL_CHANGE then 3
    else if status == PROGRAM_CHANGE then 2
    else 1
  }

  /**
   * The inputs on which the decoder does not panic: byte 0 must exist, and
   * the data bytes that the status' branch reads must exist too.
   */
  predicate Indexable(raw: seq<Byte>) {
    |raw| >= 1 && |raw| >= ReadLength(Status(raw[0]))
  }

  /** MidiMessage::try_new. */
  function TryNew(raw: seq<Byte>): (r: Result<MidiMessage, string>)
    requires Indexable(raw)
    ensures r.Ok? <==> Recognized(Status(raw[0]))
    ensures r.Err? ==> r.error == UNRECOGNIZED
    ensures r.Ok? ==> StatusOf(r.value) == Status(raw[0])
    ensures r.Ok? ==> ChannelOf(r.value) == Channel(raw[0])
    ensures r.Ok? ==> Encode(r.value) == raw[..ReadLength(Status(raw[0]))]
  {
    var channel := raw[0] & 0x0F;
    var status := raw[0] >> 4;
    match status
    case 0x8 => Ok(NoteOff(Note(channel, raw[1], raw[2])))
    case 0x9 => Ok(NoteOn(Note(channel, raw[1], raw[2])))
    case 0xB => Ok(ControlChange(channel, raw[1], raw[2]))
    case 0xC => Ok(ProgramChange(channel, raw[1]))
    case _ => Err(UNRECOGNIZED)
  }

  // The MIDI 1.0 wire layout of a message, used as the reference the
  // decoder is checked against.

  function StatusOf(m: MidiMessage): Byte {
    match m
    case NoteOff(_) => NOTE_OFF
    case NoteOn(_) => NOTE_ON
    case ControlChange(_, _, _) => CONTROL_CHANGE
    case ProgramChange(_, _) => PROGRAM_CHANGE
  }

  function ChannelOf(m: MidiMessage): Byte {
    match m
    case NoteOff(n) => n.channel
    case NoteOn(n) => n.channel
    case ControlChange(c, _, _) => c
    case ProgramChange(c, _) => c
  }

  /** A message that fits the wire format: its channel is one nibble. */
  predicate WellFormed(m: MidiMessage) {
    ChannelOf(m) < 16
  }

  /** Byte 0 of the standard layout: `status << 4 | channel`. */
  function StatusByte(status: Byte, channel: Byte): (b: Byte)
    requires status < 16 && channel < 16
    ensures b as int == status as int * 16 + channel as int
  {
    (status << 4) | channel
  }

  /**
   * The standard layout: the composed status byte, then the data bytes the
   * status carries.
   */
  function Encode(m: MidiMessage): (raw: seq<Byte>)
    requires WellFormed(m)
    ensures |raw| == ReadLength(StatusOf(m))
    ensures Status(raw[0]) == StatusOf(m) && Channel(raw[0]) == ChannelOf(m)
  {
    var b0 := StatusByte(StatusOf(m), ChannelOf(m));
    NibblesRoundTrip(StatusOf(m), ChannelOf(m));
    match m
    case NoteOff(n) => [b0, n.key, n.velocity]
    case NoteOn(n) => [b0, n.key, n.velocity]
    case ControlChange(_, cc, v) => [b0, cc, v]
    case ProgramChange(_, p) => [b0, p]
  }

  /** Splitting the standard status byte gives back its two nibbles. */
  lemma NibblesRoundTrip(status: Byte, channel: Byte)
    requires status < 16 && channel < 16
    ensures Status(StatusByte(status, channel)) == status
    ensures Channel(StatusByte(status, channel)) == channel
  {
  }

  /** Decoding the wire layout of a message gives the message back. */
  lemma DecodeEncode(m: MidiMessage)
    requires WellFormed(m)
    ensures Indexable(Encode(m))
    ensures TryNew(Encode(m)) == Ok(m)
  {
    NibblesRoundTrip(StatusOf(m), ChannelOf(m));
  }

  /**
   * Every decoded message is well formed and is the message whose layout
   * the input starts with; bytes past the last one read are ignored.
   */
  lemma EncodeDecode(raw: seq<Byte>, m: MidiMessage)
    requires Indexable(raw) && TryNew(raw) == Ok(m)
    ensures WellFormed(m)
    ensures Encode(m) == raw[..|Encode(m)|]
    ensures forall extra: seq<Byte> :: TryNew(raw + extra) == Ok(m)
  {
    forall extra: seq<Byte> ensures TryNew(raw + extra) == Ok(m) {
      assert (raw + extra)[..ReadLength(Status(raw[0]))] == raw[..ReadLength(Status(raw[0]))];
      DecodeReadsOnlyPrefix(raw + extra, raw, m);
    }
  }

  /** Two inputs that agree on the bytes read decode alike. */
  lemma DecodeReadsOnlyPrefix(a: seq<Byte>, b: seq<Byte>, m: MidiMessage)
    requires Indexable(a) && Indexable(b) && a[0] == b[0]
    requires a[..ReadLength(Status(a[0]))] == b[..ReadLength(Status(b[0]))]
    requires TryNew(b) == Ok(m)
    ensures TryNew(a) == Ok(m)
  {
    var k := ReadLength(Status(a[0]));
    assert forall i :: 0 <= i < k ==> a[i] == a[..k][i] == b[..k][i] == b[i];
  }

  /** The status byte alone, given its channel, decides acceptance. */
  lemma StatusDecides(raw: seq<Byte>, status: Byte, channel: Byte)
    requires status < 16 && channel < 16
    requires |raw| >= 1 && raw[0] == StatusByte(status, channel) && |raw| >= ReadLength(status)
    ensures Indexable(raw)
    ensures TryNew(raw).Ok? <==> Recognized(status)
    ensures TryNew(raw).Ok? ==> StatusOf(TryNew(raw).value) == status && ChannelOf(TryNew(raw).value) == channel
  {
    NibblesRoundTrip(status, channel);
  }

  /** Pitch bend (status 0xE) is not among the recognised messages. */
  lemma PitchBendUnrecognized(channel: Byte, lsb: Byte, msb: Byte)
    requires channel < 16
    ensures TryNew([StatusByte(PITCH_BEND, channel), lsb, msb]) == Err(UNRECOGNIZED)
  {
    NibblesRoundTrip(PITCH_BEND, channel);
  }

  /** Note-on, channel 3, key 60, velocity 100. */
  lemma NoteOnExample()
    ensures TryNew([0x93, 60, 100]) == Ok(NoteOn(Note(3, 60, 100)))
  {
  }
}
