/** PUBLISH packets: size computation, serializer and deserializer of core_mqtt_serializer.c
    (section 3.3 of MQTT 3.1.1). */
module PublishCodec {
  import opened Types
  import opened RemainingLength
  import Framing

  datatype PublishInfo = PublishInfo(qos: QoS, retain: bool, dup: bool, topic: seq<byte>, payload: seq<byte>)

  const PUBLISH_TYPE := 0x30

  // ----- layout

  function U16(n: nat): (bytes: seq<byte>)
    requires n < 0x1_0000
    ensures |bytes| == 2
  {
    [n / 256, n % 256]
  }

  function FromU16(high: byte, low: byte): (n: nat)
    ensures n < 0x1_0000
  {
    high * 256 + low
  }

  lemma {:induction false} U16RoundTrip(n: nat)
    requires n < 0x1_0000
    ensures FromU16(U16(n)[0], U16(n)[1]) == n
  {
  }

  function PublishFlags(info: PublishInfo): (kind: byte)
    ensures kind / 16 == 3
  {
    PUBLISH_TYPE
    + (if info.qos == QoS1 then 2 else if info.qos == QoS2 then 4 else 0)
    + (if info.retain then 1 else 0)
    + (if info.dup then 8 else 0)
  }

  /** The body of a PUBLISH: topic name, packet id unless QoS 0, payload. */
  function PublishBody(info: PublishInfo, id: nat): seq<byte>
    requires |info.topic| < 0x1_0000 && id < 0x1_0000
  {
    U16(|info.topic|) + info.topic + (if info.qos == QoS0 then [] else U16(id)) + info.payload
  }

  function PublishBytes(info: PublishInfo, id: nat): seq<byte>
    requires |info.topic| < 0x1_0000 && id < 0x1_0000
  {
    [PublishFlags(info)] + Encode(|PublishBody(info, id)|) + PublishBody(info, id)
  }

  // ----- size

  datatype Sizes = TooLarge | Sizes(remainingLength: nat, packetSize: nat)

  /** The two-stage limit check: the payload may take what the header, the type byte and the encoded
      length leave of the maximum. */
  function CalculatePublishPacketSize(info: PublishInfo): Sizes
    requires |info.topic| < 0x1_0000
  {
    var header := |info.topic| + 2 + (if info.qos == QoS0 then 0 else 2);
    var payloadLimit := MAX_REMAINING_LENGTH - header - 1;
    if |info.payload| > payloadLimit then TooLarge
    else
      var remaining := header + |info.payload|;
      if |info.payload| > payloadLimit - EncodedSize(remaining) then TooLarge
      else Sizes(remaining, remaining + 1 + EncodedSize(remaining))
  }

  /** A publish is accepted exactly when its whole packet is at most 268435455 bytes long, and then the
      sizes computed are those of the packet. */
  lemma {:induction false} PublishSizeExact(info: PublishInfo, id: nat)
    requires |info.topic| < 0x1_0000 && id < 0x1_0000
    ensures var sizes := CalculatePublishPacketSize(info);
            && (sizes.Sizes? <==> |PublishBody(info, id)| <= MAX_REMAINING_LENGTH
                                  && |PublishBytes(info, id)| <= MAX_REMAINING_LENGTH)
            && (sizes.Sizes? ==> sizes.remainingLength == |PublishBody(info, id)|
                                 && sizes.packetSize == |PublishBytes(info, id)|)
  {
    if |PublishBody(info, id)| <= MAX_REMAINING_LENGTH {
      EncodeLength(|PublishBody(info, id)|);
    }
  }

  // ----- serializer

  method CopyBytes(dest: array<byte>, at: nat, bytes: seq<byte>) returns (end: nat)
    requires at + |bytes| <= dest.Length
    modifies dest
    ensures end == at + |bytes|
    ensures dest[..end] == old(dest[..at]) + bytes
    ensures forall i :: end <= i < dest.Length ==> dest[i] == old(dest[i])
  {
    end := at;
    ghost var was := dest[..];
    while end < at + |bytes|
      invariant at <= end <= at + |bytes|
      invariant dest[..end] == was[..at] + bytes[..end - at]
      invariant forall i :: end <= i < dest.Length ==> dest[i] == was[i]
    {
      dest[end] := bytes[end - at];
      end := end + 1;
    }
  }

  method EncodeString(dest: array<byte>, at: nat, source: seq<byte>) returns (end: nat)
    requires |source| < 0x1_0000 && at + 2 + |source| <= dest.Length
    modifies dest
    ensures end == at + 2 + |source|
    ensures dest[..end] == old(dest[..at]) + U16(|source|) + source
    ensures forall i :: end <= i < dest.Length ==> dest[i] == old(dest[i])
  {
    ghost var was := dest[..];
    dest[at] := |source| / 256;
    dest[at + 1] := |source| % 256;
    assert dest[..at + 2] == was[..at] + U16(|source|);
    end := CopyBytes(dest, at + 2, source);
  }

  datatype Status = Success | BadParameter | NoMemory | BadResponse

  /** The topic-less header that precedes the caller's own buffers. */
  method SerializePublishHeaderWithoutTopic(info: PublishInfo, remainingLength: nat, buffer: array<byte>)
    returns (headerSize: nat)
    requires |info.topic| < 0x1_0000 && remainingLength <= MAX_REMAINING_LENGTH && buffer.Length >= 7
    modifies buffer
    ensures headerSize <= 7
    ensures buffer[..headerSize] == [PublishFlags(info)] + Encode(remainingLength) + U16(|info.topic|)
    ensures forall i :: headerSize <= i < buffer.Length ==> buffer[i] == old(buffer[i])
  {
    EncodeLength(remainingLength);
    var flags: byte := PUBLISH_TYPE;
    if info.qos == QoS1 { flags := flags + 2; } else if info.qos == QoS2 { flags := flags + 4; }
    if info.retain { flags := flags + 1; }
    if info.dup { flags := flags + 8; }
    buffer[0] := flags;
    assert buffer[..1] == [flags];
    var index := EncodeRemainingLength(buffer, 1, remainingLength);
    ghost var head := buffer[..index];
    buffer[index] := |info.topic| / 256;
    buffer[index + 1] := |info.topic| % 256;
    headerSize := 1 + EncodedSize(remainingLength) + 2;
    assert buffer[..headerSize] == head + U16(|info.topic|);
  }

  /** The packet in the order the serializer writes it. */
  lemma {:induction false} PublishInPieces(info: PublishInfo, id: nat)
    requires |info.topic| < 0x1_0000 && id < 0x1_0000
    ensures [PublishFlags(info)] + Encode(|PublishBody(info, id)|) + U16(|info.topic|) + info.topic
            + (if info.qos == QoS0 then [] else U16(id)) + info.payload
         == PublishBytes(info, id)
  {
    hide Encode, PublishFlags, U16;
    var head := [PublishFlags(info)] + Encode(|PublishBody(info, id)|);
    var packetId := if info.qos == QoS0 then [] else U16(id);
    assert head + U16(|info.topic|) + info.topic == head + (U16(|info.topic|) + info.topic);
    assert head + (U16(|info.topic|) + info.topic) + packetId == head + (U16(|info.topic|) + info.topic + packetId);
  }

  method SerializePublishCommon(info: PublishInfo, packetId: nat, remainingLength: nat, buffer: array<byte>)
    requires |info.topic| < 0x1_0000 && packetId < 0x1_0000
    requires remainingLength == |PublishBody(info, packetId)| && |PublishBytes(info, packetId)| <= buffer.Length
    modifies buffer
    ensures buffer[..] == PublishBytes(info, packetId) + old(buffer[..])[|PublishBytes(info, packetId)|..]
  {
    hide Encode, PublishFlags, U16, PublishBytes, PublishBody;
    ghost var was := buffer[..];
    PublishInPieces(info, packetId);
    buffer[0] := PublishFlags(info);
    assert buffer[..1] == [PublishFlags(info)];
    var index := EncodeRemainingLength(buffer, 1, remainingLength);
    index := EncodeString(buffer, index, info.topic);
    ghost var topicEnd := index;
    if info.qos != QoS0 {
      index := CopyBytes(buffer, index, U16(packetId));
    }
    assert buffer[..index] == buffer[..topicEnd] + (if info.qos == QoS0 then [] else U16(packetId));
    index := CopyBytes(buffer, index, info.payload);
    assert buffer[..] == buffer[..index] + was[index..];
  }

  method SerializePublish(info: PublishInfo, packetId: nat, remainingLength: nat, buffer: array<byte>)
    returns (status: Status)
    requires |info.topic| < 0x1_0000 && packetId < 0x1_0000
    requires CalculatePublishPacketSize(info).Sizes?
    requires remainingLength == CalculatePublishPacketSize(info).remainingLength
    modifies buffer
    ensures status == BadParameter <==>
            info.topic == [] || (info.qos != QoS0 && packetId == 0) || (info.dup && info.qos == QoS0)
    ensures status == NoMemory ==> buffer.Length < |PublishBytes(info, packetId)|
    ensures status == Success ==>
              && |PublishBytes(info, packetId)| <= buffer.Length
              && buffer[..] == PublishBytes(info, packetId) + old(buffer[..])[|PublishBytes(info, packetId)|..]
    ensures status != Success ==> buffer[..] == old(buffer[..])
    ensures status in {Success, BadParameter, NoMemory}
  {
    PublishSizeExact(info, packetId);
    if info.topic == [] || (info.qos != QoS0 && packetId == 0) || (info.dup && info.qos == QoS0) {
      return BadParameter;
    }
    var packetSize := 1 + EncodedSize(remainingLength) + remainingLength;
    if packetSize > buffer.Length {
      return NoMemory;
    }
    SerializePublishCommon(info, packetId, remainingLength, buffer);
    status := Success;
  }

  // ----- deserializer

  datatype Parsed<T> = Ok(value: T) | Rejected

  datatype Incoming = Incoming(id: nat, info: PublishInfo)

  /** QoS, retain and dup from the low four bits of the type byte; both QoS bits set is an error. */
  function ProcessPublishFlags(flags: nat): Parsed<(QoS, bool, bool)>
    requires flags < 16
  {
    var qos1, qos2 := flags / 2 % 2 == 1, flags / 4 % 2 == 1;
    if qos1 && qos2 then Rejected
    else Ok((if qos2 then QoS2 else if qos1 then QoS1 else QoS0, flags % 2 == 1, flags / 8 == 1))
  }

  predicate RemainingLengthOk(remaining: nat, qos: QoS, qos0Minimum: nat) {
    remaining >= if qos == QoS0 then qos0Minimum else qos0Minimum + 2
  }

  function DeserializePublish(kind: byte, body: seq<byte>): Parsed<Incoming>
    requires kind / 16 == 3
  {
    match ProcessPublishFlags(kind % 16)
    case Rejected => Rejected
    case Ok((qos, retain, dup)) =>
      if !RemainingLengthOk(|body|, qos, 3) then Rejected
      else
        var topicLength := FromU16(body[0], body[1]);
        if !RemainingLengthOk(|body|, qos, topicLength + 2) then Rejected
        else
          var topic := body[2..2 + topicLength];
          if qos == QoS0 then
            Ok(Incoming(0, PublishInfo(qos, retain, dup, topic, body[2 + topicLength..])))
          else
            var id := FromU16(body[2 + topicLength], body[3 + topicLength]);
            if id == 0 then Rejected
            else Ok(Incoming(id, PublishInfo(qos, retain, dup, topic, body[4 + topicLength..])))
  }

  lemma {:induction false} FlagsRoundTrip(info: PublishInfo)
    ensures ProcessPublishFlags(PublishFlags(info) % 16) == Ok((info.qos, info.retain, info.dup))
  {
  }

  lemma {:induction false} BodyLayout(info: PublishInfo, id: nat)
    requires |info.topic| < 0x1_0000 && id < 0x1_0000
    ensures var body, n := PublishBody(info, id), |info.topic|;
            && body[0] == U16(n)[0] && body[1] == U16(n)[1] && body[2..2 + n] == info.topic
            && (if info.qos == QoS0 then body[2 + n..] == info.payload
                else body[2 + n] == U16(id)[0] && body[3 + n] == U16(id)[1] && body[4 + n..] == info.payload)
  {
  }

  /** Section 3.3: what a serializer writes for an accepted publish is cut out of the stream as one
      packet and read back as the same publish. */
  lemma {:induction false} PublishRoundTrip(info: PublishInfo, id: nat, size: nat)
    requires 0 < |info.topic| < 0x1_0000 && id < 0x1_0000 && (info.qos == QoS0) == (id == 0)
    requires CalculatePublishPacketSize(info).Sizes?
    requires |PublishBytes(info, id)| <= size
    ensures var packet := Framing.Packet(PublishFlags(info), PublishBody(info, id));
            && Framing.Inspect(PublishBytes(info, id), size) == Framing.Take(packet, [])
            && DeserializePublish(packet.kind, packet.body) == Ok(Incoming(id, info))
  {
    var packet := Framing.Packet(PublishFlags(info), PublishBody(info, id));
    PublishSizeExact(info, id);
    BodyRoundTrip(info, id);
    hide PublishBody, PublishFlags, DeserializePublish, CalculatePublishPacketSize, Framing.Inspect;
    var bytes := PublishBytes(info, id);
    assert bytes == Framing.Bytes(packet);
    assert packet.kind / 16 == 3 && Framing.IncomingPacketValid(packet.kind);
    Framing.InspectFront(packet, bytes, bytes, size);
    assert bytes[|bytes| - |packet.body|..|bytes|] == packet.body && bytes[|bytes|..] == [];
  }

  lemma {:induction false} BodyRoundTrip(info: PublishInfo, id: nat)
    requires 0 < |info.topic| < 0x1_0000 && id < 0x1_0000 && (info.qos == QoS0) == (id == 0)
    ensures DeserializePublish(PublishFlags(info), PublishBody(info, id)) == Ok(Incoming(id, info))
  {
    FlagsRoundTrip(info);
    BodyLayout(info, id);
    U16RoundTrip(|info.topic|);
    U16RoundTrip(id);
    hide PublishFlags, ProcessPublishFlags;
  }

  lemma {:induction false} FlagsUnique(kind: byte, info: PublishInfo)
    requires kind / 16 == 3 && ProcessPublishFlags(kind % 16) == Ok((info.qos, info.retain, info.dup))
    ensures PublishFlags(info) == kind
  {
  }

  /** And back: a PUBLISH that is accepted re-serializes to the bytes it was read from. */
  lemma {:induction false} DeserializedReserializes(kind: byte, body: seq<byte>)
    requires kind / 16 == 3 && DeserializePublish(kind, body).Ok?
    ensures var v := DeserializePublish(kind, body).value;
            && |v.info.topic| < 0x1_0000 && v.id < 0x1_0000
            && PublishBytes(v.info, v.id) == Framing.Bytes(Framing.Packet(kind, body))
  {
    hide ProcessPublishFlags, PublishFlags;
    var v := DeserializePublish(kind, body).value;
    FlagsUnique(kind, v.info);
    BodyFromParts(v.info, v.id, body);
  }

  lemma {:induction false} BodyFromParts(info: PublishInfo, id: nat, body: seq<byte>)
    requires |info.topic| < 0x1_0000 && id < 0x1_0000
    requires |body| >= 2 + |info.topic| + (if info.qos == QoS0 then 0 else 2)
    requires |info.topic| == FromU16(body[0], body[1]) && info.topic == body[2..2 + |info.topic|]
    requires var n := |info.topic|;
             if info.qos == QoS0 then info.payload == body[2 + n..]
             else id == FromU16(body[2 + n], body[3 + n]) && info.payload == body[4 + n..]
    ensures PublishBody(info, id) == body
  {
    var n := |info.topic|;
    assert U16(n) == body[..2] && U16(n) + info.topic == body[..2 + n];
    if info.qos != QoS0 {
      assert U16(id) == body[2 + n..4 + n] && U16(n) + info.topic + U16(id) == body[..4 + n];
    }
  }
}
