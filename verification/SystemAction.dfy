/** Typed desktop actions and their 32-byte packets, from src/system_action.rs and src/system_action_protocol.rs. */
module SystemAction {
  import opened Common
  import opened Bytes

  type U16 = x: nat | x < 0x1_0000
  type U32 = x: nat | x < 0x1_0000_0000
  type U64 = x: nat | x < 0x1_0000_0000_0000_0000

  datatype Action =
    | OutputVolumeUp
    | OutputVolumeDown
    | ToggleOutputMute
    | ToggleMicrophoneMute
    | MediaPlayPause
    | MediaPlay
    | MediaPause
    | MediaStop
    | MediaNext
    | MediaPrevious
    | MediaRewind
    | MediaFastForward
    | DisplayBrightnessUp
    | DisplayBrightnessDown
    | KeyboardBrightnessUp
    | KeyboardBrightnessDown
    | ToggleKeyboardBacklight
    | ToggleTouchpad

  function WireCode(action: Action): U16 {
    match action
    case OutputVolumeUp => 0x0101
    case OutputVolumeDown => 0x0102
    case ToggleOutputMute => 0x0103
    case ToggleMicrophoneMute => 0x0104
    case MediaPlayPause => 0x0201
    case MediaPlay => 0x0202
    case MediaPause => 0x0203
    case MediaStop => 0x0204
    case MediaNext => 0x0205
    case MediaPrevious => 0x0206
    case MediaRewind => 0x0207
    case MediaFastForward => 0x0208
    case DisplayBrightnessUp => 0x0301
    case DisplayBrightnessDown => 0x0302
    case KeyboardBrightnessUp => 0x0401
    case KeyboardBrightnessDown => 0x0402
    case ToggleKeyboardBacklight => 0x0403
    case ToggleTouchpad => 0x0501
  }

  /** The action of a code; inverse to WireCode. */
  function FromWireCode(code: U16): (r: Option<Action>)
    ensures forall action :: r == Some(action) <==> code == WireCode(action)
  {
    match code
    case 0x0101 => Some(OutputVolumeUp)
    case 0x0102 => Some(OutputVolumeDown)
    case 0x0103 => Some(ToggleOutputMute)
    case 0x0104 => Some(ToggleMicrophoneMute)
    case 0x0201 => Some(MediaPlayPause)
    case 0x0202 => Some(MediaPlay)
    case 0x0203 => Some(MediaPause)
    case 0x0204 => Some(MediaStop)
    case 0x0205 => Some(MediaNext)
    case 0x0206 => Some(MediaPrevious)
    case 0x0207 => Some(MediaRewind)
    case 0x0208 => Some(MediaFastForward)
    case 0x0301 => Some(DisplayBrightnessUp)
    case 0x0302 => Some(DisplayBrightnessDown)
    case 0x0401 => Some(KeyboardBrightnessUp)
    case 0x0402 => Some(KeyboardBrightnessDown)
    case 0x0403 => Some(ToggleKeyboardBacklight)
    case 0x0501 => Some(ToggleTouchpad)
    case _ => None
  }

  // ----- packets -----

  const MAGIC: seq<Byte> := [0x41, 0x53, 0x54, 0x59]
  const PACKET_SIZE: nat := 32
  const MAJOR: Byte := 1
  const MINOR: Byte := 0
  const KIND_HELLO: Byte := 1
  const KIND_WELCOME: Byte := 2
  const KIND_CAPABILITIES_CHANGED: Byte := 3
  const KIND_ACTION: Byte := 4
  const KIND_REJECT: Byte := 5

  datatype Message =
    | Hello(major: Byte, minor: Byte, capabilities: U64)
    | Welcome(major: Byte, minor: Byte, capabilities: U64)
    | CapabilitiesChanged(capabilities: U64)
    | Act(sequence: U64, action: Action, occurrences: U32)
    | Reject(reason: U16)

  datatype Error =
    | InvalidSize
    | InvalidMagic
    | UnknownMessage
    | InvalidReservedField
    | InvalidVersion
    | InvalidAction
    | InvalidOccurrenceCount

  function Zeros(n: nat): (s: seq<Byte>)
    ensures |s| == n
  {
    seq(n, i => 0)
  }

  predicate AllZero(s: seq<Byte>) { forall i :: 0 <= i < |s| ==> s[i] == 0 }

  function Header(kind: Byte, major: Byte, minor: Byte): (s: seq<Byte>)
    ensures |s| == 8
  {
    MAGIC + [kind, major, minor, 0]
  }

  /** The layout of every packet. */
  function Packet(kind: Byte, major: Byte, minor: Byte, sequence: seq<Byte>, body: seq<Byte>): seq<Byte> {
    Header(kind, major, minor) + sequence + body
  }

  function Encoded(m: Message): (p: seq<Byte>)
    ensures |p| == PACKET_SIZE
  {
    match m
    case Hello(major, minor, capabilities) => Packet(KIND_HELLO, major, minor, Zeros(8), ToLittleEndian(capabilities, 8) + Zeros(8))
    case Welcome(major, minor, capabilities) => Packet(KIND_WELCOME, major, minor, Zeros(8), ToLittleEndian(capabilities, 8) + Zeros(8))
    case CapabilitiesChanged(capabilities) =>
      Packet(KIND_CAPABILITIES_CHANGED, MAJOR, MINOR, Zeros(8), ToLittleEndian(capabilities, 8) + Zeros(8))
    case Act(sequence, action, occurrences) =>
      Packet(KIND_ACTION, MAJOR, MINOR, ToLittleEndian(sequence, 8),
             ToLittleEndian(WireCode(action), 2) + ToLittleEndian(occurrences, 4) + Zeros(10))
    case Reject(reason) => Packet(KIND_REJECT, MAJOR, MINOR, Zeros(8), ToLittleEndian(reason, 2) + Zeros(14))
  }

  /** Copies bytes into the packet at an offset. */
  method CopyInto(packet: array<Byte>, at: nat, bytes: seq<Byte>)
    requires at + |bytes| <= packet.Length
    modifies packet
    ensures packet[..] == old(packet[..at]) + bytes + old(packet[at + |bytes|..])
  {
    for i := 0 to |bytes|
      invariant packet[..at] == old(packet[..at])
      invariant packet[at..at + i] == bytes[..i]
      invariant packet[at + i..] == old(packet[at + i..])
    {
      assert old(packet[at + i..])[1..] == old(packet[at + i + 1..]);
      packet[at + i] := bytes[i];
    }
    assert packet[..] == packet[..at] + packet[at..at + |bytes|] + packet[at + |bytes|..];
  }

  /** A blank packet with its header. */
  method Blank(kind: Byte, major: Byte, minor: Byte) returns (packet: array<Byte>)
    ensures fresh(packet) && packet.Length == PACKET_SIZE && packet[..] == Header(kind, major, minor) + Zeros(24)
  {
    packet := new Byte[PACKET_SIZE](i => 0);
    CopyInto(packet, 0, MAGIC);
    packet[4], packet[5], packet[6] := kind, major, minor;
  }

  /** Writing into the zeros of a packet. */
  lemma Written(head: seq<Byte>, before: nat, bytes: seq<Byte>, after: nat)
    ensures var p := head + Zeros(before + |bytes| + after);
            p[..|head| + before] + bytes + p[|head| + before + |bytes|..] == head + Zeros(before) + bytes + Zeros(after)
  {
  }

  /** Fills a field of a packet that is still blank from the end of its head on. */
  method Fill(packet: array<Byte>, ghost head: seq<Byte>, ghost before: nat, at: nat, bytes: seq<Byte>,
              ghost after: nat)
    requires packet[..] == head + Zeros(before + |bytes| + after) && at == |head| + before
    modifies packet
    ensures packet[..] == head + Zeros(before) + bytes + Zeros(after)
  {
    Written(head, before, bytes, after);
    CopyInto(packet, at, bytes);
  }

  method EncodeCapabilities(kind: Byte, major: Byte, minor: Byte, capabilities: U64) returns (packet: array<Byte>)
    ensures fresh(packet)
              && packet[..] == Packet(kind, major, minor, Zeros(8), ToLittleEndian(capabilities, 8) + Zeros(8))
  {
    hide ToLittleEndian;
    packet := Blank(kind, major, minor);
    Fill(packet, Header(kind, major, minor), 8, 16, ToLittleEndian(capabilities, 8), 8);
  }

  method EncodeAction(sequence: U64, action: Action, occurrences: U32) returns (packet: array<Byte>)
    ensures fresh(packet) && packet[..] == Encoded(Act(sequence, action, occurrences))
  {
    hide ToLittleEndian, WireCode, Zeros, Header;
    packet := Blank(KIND_ACTION, MAJOR, MINOR);
    ghost var head := Header(KIND_ACTION, MAJOR, MINOR);
    Fill(packet, head, 0, 8, ToLittleEndian(sequence, 8), 16);
    head := head + ToLittleEndian(sequence, 8);
    assert packet[..] == head + Zeros(16);
    Fill(packet, head, 0, 16, ToLittleEndian(WireCode(action), 2), 14);
    head := head + ToLittleEndian(WireCode(action), 2);
    assert packet[..] == head + Zeros(14);
    Fill(packet, head, 0, 18, ToLittleEndian(occurrences, 4), 10);
    assert packet[..] == Packet(KIND_ACTION, MAJOR, MINOR, ToLittleEndian(sequence, 8),
                                ToLittleEndian(WireCode(action), 2) + ToLittleEndian(occurrences, 4) + Zeros(10));
  }

  method EncodeReject(reason: U16) returns (packet: array<Byte>)
    ensures fresh(packet) && packet[..] == Encoded(Reject(reason))
  {
    hide ToLittleEndian;
    packet := Blank(KIND_REJECT, MAJOR, MINOR);
    Fill(packet, Header(KIND_REJECT, MAJOR, MINOR), 8, 16, ToLittleEndian(reason, 2), 14);
  }

  /** Fills a fresh packet slice by slice. */
  method Encode(m: Message) returns (packet: array<Byte>)
    ensures fresh(packet) && packet[..] == Encoded(m)
  {
    match m {
      case Hello(major, minor, capabilities) => packet := EncodeCapabilities(KIND_HELLO, major, minor, capabilities);
      case Welcome(major, minor, capabilities) => packet := EncodeCapabilities(KIND_WELCOME, major, minor, capabilities);
      case CapabilitiesChanged(capabilities) => packet := EncodeCapabilities(KIND_CAPABILITIES_CHANGED, MAJOR, MINOR, capabilities);
      case Act(sequence, action, occurrences) => packet := EncodeAction(sequence, action, occurrences);
      case Reject(reason) => packet := EncodeReject(reason);
    }
  }

  function U16At(p: seq<Byte>, i: nat): U16
    requires i + 2 <= |p|
  {
    assert Power256(2) == 256 * Power256(1);
    FromLittleEndian(p[i..i + 2])
  }

  function U32At(p: seq<Byte>, i: nat): U32
    requires i + 4 <= |p|
  {
    assert Power256(4) == 65536 * Power256(2) && Power256(2) == 65536;
    FromLittleEndian(p[i..i + 4])
  }

  function U64At(p: seq<Byte>, i: nat): U64
    requires i + 8 <= |p|
  {
    PowerOf8();
    FromLittleEndian(p[i..i + 8])
  }

  lemma PowerOf8()
    ensures Power256(2) == 0x1_0000 && Power256(4) == 0x1_0000_0000 && Power256(8) == 0x1_0000_0000_0000_0000
  {
    assert Power256(2) == 0x1_0000;
    assert Power256(4) == 0x1_0000 * Power256(2);
    assert Power256(6) == 0x1_0000 * Power256(4);
    assert Power256(8) == 0x1_0000 * Power256(6);
  }

  function DecodeCapabilities(p: seq<Byte>): Result<Message, Error>
    requires |p| == PACKET_SIZE && p[4] in {KIND_HELLO, KIND_WELCOME, KIND_CAPABILITIES_CHANGED}
  {
    if p[4] != KIND_HELLO && (p[5] != MAJOR || p[6] > MINOR) then Err(InvalidVersion)
    else if !AllZero(p[8..16]) || !AllZero(p[24..]) then Err(InvalidReservedField)
    else if p[4] == KIND_HELLO then Ok(Hello(p[5], p[6], U64At(p, 16)))
    else if p[4] == KIND_WELCOME then Ok(Welcome(p[5], p[6], U64At(p, 16)))
    else Ok(CapabilitiesChanged(U64At(p, 16)))
  }

  function DecodeAction(p: seq<Byte>): Result<Message, Error>
    requires |p| == PACKET_SIZE
  {
    if p[5] != MAJOR || p[6] > MINOR then Err(InvalidVersion)
    else if !AllZero(p[22..]) then Err(InvalidReservedField)
    else
      match FromWireCode(U16At(p, 16))
      case None => Err(InvalidAction)
      case Some(action) =>
        if U32At(p, 18) == 0 then Err(InvalidOccurrenceCount) else Ok(Act(U64At(p, 8), action, U32At(p, 18)))
  }

  function DecodeReject(p: seq<Byte>): Result<Message, Error>
    requires |p| == PACKET_SIZE
  {
    if p[5] != MAJOR || p[6] > MINOR then Err(InvalidVersion)
    else if !AllZero(p[8..16]) || !AllZero(p[18..]) then Err(InvalidReservedField)
    else Ok(Reject(U16At(p, 16)))
  }

  function Decode(p: seq<Byte>): Result<Message, Error> {
    if |p| != PACKET_SIZE then Err(InvalidSize)
    else if p[..4] != MAGIC then Err(InvalidMagic)
    else if p[7] != 0 then Err(InvalidReservedField)
    else if p[4] == KIND_HELLO || p[4] == KIND_WELCOME || p[4] == KIND_CAPABILITIES_CHANGED then DecodeCapabilities(p)
    else if p[4] == KIND_ACTION then DecodeAction(p)
    else if p[4] == KIND_REJECT then DecodeReject(p)
    else Err(UnknownMessage)
  }

  // ----- the codec is canonical -----

  /** The messages a packet can carry. */
  predicate Carried(m: Message) {
    (m.Welcome? ==> m.major == MAJOR && m.minor == MINOR) && (m.Act? ==> m.occurrences != 0)
  }

  lemma PacketParts(kind: Byte, major: Byte, minor: Byte, sequence: seq<Byte>, body: seq<Byte>)
    requires |sequence| == 8 && |body| == 16
    ensures var p := Packet(kind, major, minor, sequence, body);
            && |p| == PACKET_SIZE && p[..4] == MAGIC && p[4] == kind && p[5] == major && p[6] == minor && p[7] == 0
            && p[8..16] == sequence && p[16..] == body
  {
  }

  lemma Assembled(p: seq<Byte>)
    requires |p| == PACKET_SIZE && p[..4] == MAGIC && p[7] == 0
    ensures p == Packet(p[4], p[5], p[6], p[8..16], p[16..])
  {
    assert p == p[..4] + [p[4], p[5], p[6], p[7]] + p[8..16] + p[16..];
  }

  lemma ZeroIs(s: seq<Byte>)
    ensures AllZero(s) <==> s == Zeros(|s|)
  {
  }

  lemma CapabilitiesRoundTrip(kind: Byte, major: Byte, minor: Byte, capabilities: U64)
    requires kind == KIND_HELLO || kind == KIND_WELCOME || kind == KIND_CAPABILITIES_CHANGED
    ensures var p := Packet(kind, major, minor, Zeros(8), ToLittleEndian(capabilities, 8) + Zeros(8));
            && |p| == PACKET_SIZE && p[4] == kind && p[5] == major && p[6] == minor
            && AllZero(p[8..16]) && AllZero(p[24..]) && U64At(p, 16) == capabilities
                && Decode(p) == DecodeCapabilities(p)
  {
    var body := ToLittleEndian(capabilities, 8) + Zeros(8);
    PacketParts(kind, major, minor, Zeros(8), body);
    var p := Packet(kind, major, minor, Zeros(8), body);
    assert p[24..] == body[8..] == Zeros(8);
    assert p[16..24] == body[..8] == ToLittleEndian(capabilities, 8);
    PowerOf8();
    DecodesEncoded(capabilities, 8);
  }

  lemma ActionRoundTrip(m: Message)
    requires m.Act?
    ensures Decode(Encoded(m)) == if m.occurrences == 0 then Err(InvalidOccurrenceCount) else Ok(m)
  {
    var sequence := ToLittleEndian(m.sequence, 8);
    var code, count := ToLittleEndian(WireCode(m.action), 2), ToLittleEndian(m.occurrences, 4);
    var body := code + count + Zeros(10);
    PacketParts(KIND_ACTION, MAJOR, MINOR, sequence, body);
    var p := Encoded(m);
    assert p[16..18] == body[..2] == code;
    assert p[18..22] == body[2..6] == count;
    assert p[22..] == body[6..] == Zeros(10);
    PowerOf8();
    DecodesEncoded(m.sequence, 8);
    DecodesEncoded(WireCode(m.action), 2);
    DecodesEncoded(m.occurrences, 4);
    assert FromWireCode(U16At(p, 16)) == Some(m.action);
  }

  lemma RejectRoundTrip(reason: U16)
    ensures Decode(Encoded(Reject(reason))) == Ok(Reject(reason))
  {
    var body := ToLittleEndian(reason, 2) + Zeros(14);
    PacketParts(KIND_REJECT, MAJOR, MINOR, Zeros(8), body);
    var p := Encoded(Reject(reason));
    assert p[16..18] == body[..2] == ToLittleEndian(reason, 2);
    assert p[18..] == body[2..] == Zeros(14);
    PowerOf8();
    DecodesEncoded(reason, 2);
  }

  /** Decoding what was encoded gives the message back exactly for the messages a packet can carry. */
  lemma RoundTrip(m: Message)
    ensures Decode(Encoded(m)) == Ok(m) <==> Carried(m)
  {
    match m
    case Hello(major, minor, capabilities) => CapabilitiesRoundTrip(KIND_HELLO, major, minor, capabilities);
    case Welcome(major, minor, capabilities) => CapabilitiesRoundTrip(KIND_WELCOME, major, minor, capabilities);
    case CapabilitiesChanged(capabilities) => CapabilitiesRoundTrip(KIND_CAPABILITIES_CHANGED, MAJOR, MINOR, capabilities);
    case Act(_, _, _) => ActionRoundTrip(m);
    case Reject(reason) => RejectRoundTrip(reason);
  }

  lemma CapabilitiesCanonical(p: seq<Byte>)
    requires |p| == PACKET_SIZE && AllZero(p[8..16]) && AllZero(p[24..])
    ensures p[8..16] == Zeros(8) && p[16..] == ToLittleEndian(U64At(p, 16), 8) + Zeros(8)
  {
    EncodesDecoded(p[16..24]);
    ZeroIs(p[8..16]);
    ZeroIs(p[24..]);
    assert p[16..] == p[16..24] + p[24..];
  }

  lemma ActionCanonical(p: seq<Byte>)
    requires |p| == PACKET_SIZE && AllZero(p[22..])
    ensures p[8..16] == ToLittleEndian(U64At(p, 8), 8)
    ensures p[16..] == ToLittleEndian(U16At(p, 16), 2) + ToLittleEndian(U32At(p, 18), 4) + Zeros(10)
  {
    EncodesDecoded(p[8..16]);
    EncodesDecoded(p[16..18]);
    EncodesDecoded(p[18..22]);
    ZeroIs(p[22..]);
    assert p[16..] == p[16..18] + p[18..22] + p[22..];
  }

  lemma RejectCanonical(p: seq<Byte>)
    requires |p| == PACKET_SIZE && AllZero(p[8..16]) && AllZero(p[18..])
    ensures p[8..16] == Zeros(8) && p[16..] == ToLittleEndian(U16At(p, 16), 2) + Zeros(14)
  {
    EncodesDecoded(p[16..18]);
    ZeroIs(p[8..16]);
    ZeroIs(p[18..]);
    assert p[16..] == p[16..18] + p[18..];
  }

  /** Every accepted packet is the encoding of the message it decodes to, so no two packets mean the same. */
  lemma DecodeIsCanonical(p: seq<Byte>)
    requires Decode(p).Ok?
    ensures Encoded(Decode(p).value) == p && Carried(Decode(p).value)
  {
    Assembled(p);
    if p[4] == KIND_ACTION {
      ActionCanonical(p);
    } else if p[4] == KIND_REJECT {
      RejectCanonical(p);
    } else {
      CapabilitiesCanonical(p);
    }
  }

  // ----- batches -----

  const BATCH_CAPACITY: nat := 4

  /** A bounded batch of actions. */
  class Batch {
    const actions: array<Option<Action>>
    var len: nat
    var overflowed: bool

    ghost predicate Valid()
      reads this, actions
    {
      && actions.Length == BATCH_CAPACITY && len <= BATCH_CAPACITY
      && (forall i :: 0 <= i < len ==> actions[i].Some?)
    }

    /** The actions an iteration yields. */
    ghost function Contents(): (s: seq<Action>)
      requires Valid()
      reads this, actions
    {
      seq(len, i requires 0 <= i < len reads this, actions requires Valid() => actions[i].value)
    }

    constructor ()
      ensures Valid() && fresh(actions) && Contents() == [] && !overflowed
    {
      actions := new Option<Action>[BATCH_CAPACITY](i => None);
      len, overflowed := 0, false;
    }

    /** Keeps the first four actions in order; the flag tells whether one was lost. */
    method Push(action: Action) returns (kept: bool)
      requires Valid()
      modifies this, actions
      ensures Valid()
      ensures kept <==> |old(Contents())| < BATCH_CAPACITY
      ensures Contents() == old(Contents()) + if kept then [action] else []
      ensures overflowed == (old(overflowed) || !kept)
    {
      if len == actions.Length {
        overflowed := true;
        return false;
      }
      actions[len] := Some(action);
      len := len + 1;
      kept := true;
    }
  }
}
