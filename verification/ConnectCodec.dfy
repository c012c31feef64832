/** CONNECT and SUBSCRIBE sizes, and the two ways of sending a CONNECT (core_mqtt_serializer.c,
    core_mqtt.c; section 3.1 of MQTT 3.1.1). */
module ConnectCodec {
  import opened Types
  import opened RemainingLength
  import opened PublishCodec
  import opened ZeroCopySend

  datatype Optional = Absent | Present(text: seq<byte>)

  datatype ConnectInfo = ConnectInfo(
    cleanSession: bool, keepAlive: nat, clientId: seq<byte>, userName: Optional, password: Optional)

  datatype Will = NoWill | Will(qos: QoS, retain: bool, topic: seq<byte>, payload: seq<byte>)

  const CONNECT_TYPE := 0x10
  const MAX_CONNECT_PACKET := 327699

  predicate Short(text: seq<byte>) {
    |text| < 0x1_0000
  }

  /** What the C types of the caller's structures guarantee; the length of the will message they do not. */
  predicate Typed(info: ConnectInfo, will: Will) {
    && info.keepAlive < 0x1_0000 && Short(info.clientId)
    && (info.userName.Present? ==> Short(info.userName.text))
    && (info.password.Present? ==> Short(info.password.text))
    && (will.Will? ==> Short(will.topic))
  }

  function Str(text: seq<byte>): seq<byte>
    requires Short(text)
  {
    U16(|text|) + text
  }

  function OptionalStr(o: Optional): seq<byte>
    requires o.Present? ==> Short(o.text)
  {
    match o
    case Absent => []
    case Present(text) => Str(text)
  }

  function WillStr(will: Will): seq<byte>
    requires will.Will? ==> Short(will.topic) && Short(will.payload)
  {
    match will
    case NoWill => []
    case Will(_, _, topic, payload) => Str(topic) + Str(payload)
  }

  function ConnectFlags(info: ConnectInfo, will: Will): byte {
    (if info.cleanSession then 2 else 0)
    + (if info.userName.Present? then 128 else 0)
    + (if info.password.Present? then 64 else 0)
    + (match will
       case NoWill => 0
       case Will(qos, retain, _, _) =>
         4 + (if qos == QoS1 then 8 else if qos == QoS2 then 16 else 0) + (if retain then 32 else 0))
  }

  /** Protocol name and level, flags and keep-alive: always ten bytes. */
  function VariableHeader(info: ConnectInfo, will: Will): (bytes: seq<byte>)
    requires info.keepAlive < 0x1_0000
    ensures |bytes| == 10
  {
    [0, 4, 77, 81, 84, 84, 4, ConnectFlags(info, will)] + U16(info.keepAlive)
  }

  predicate Encodable(info: ConnectInfo, will: Will) {
    Typed(info, will) && info.clientId != [] && (will.Will? ==> Short(will.payload))
  }

  function ConnectBytes(info: ConnectInfo, will: Will, remaining: nat): seq<byte>
    requires Encodable(info, will)
  {
    [CONNECT_TYPE] + Encode(remaining) + VariableHeader(info, will)
    + Str(info.clientId) + WillStr(will) + OptionalStr(info.userName) + OptionalStr(info.password)
  }

  // ----- size

  datatype ConnectSizes = BadSizes | ConnectSizes(remainingLength: nat, packetSize: nat)

  function GetConnectPacketSize(info: ConnectInfo, will: Will): ConnectSizes {
    if info.clientId == [] then BadSizes
    else if will.Will? && |will.payload| > 0xFFFF then BadSizes
    else
      var remaining := 10 + |info.clientId| + 2
        + (if will.Will? then |will.topic| + 2 + |will.payload| + 2 else 0)
        + (if info.userName.Present? then |info.userName.text| + 2 else 0)
        + (if info.password.Present? then |info.password.text| + 2 else 0);
      ConnectSizes(remaining, remaining + 1 + EncodedSize(remaining))
  }

  /** The size computed for a CONNECT is that of the packet written, and never exceeds 327699. */
  lemma {:induction false} ConnectSizeExact(info: ConnectInfo, will: Will)
    requires Typed(info, will)
    ensures var sizes := GetConnectPacketSize(info, will);
            && (sizes.ConnectSizes? <==> Encodable(info, will))
            && (sizes.ConnectSizes? ==>
                  && sizes.packetSize == |ConnectBytes(info, will, sizes.remainingLength)| <= MAX_CONNECT_PACKET
                  && sizes.remainingLength + 1 + |Encode(sizes.remainingLength)| == sizes.packetSize)
  {
    var sizes := GetConnectPacketSize(info, will);
    if sizes.ConnectSizes? {
      EncodeLength(sizes.remainingLength);
      hide Encode, U16;
      assert |Str(info.clientId)| == |info.clientId| + 2;
    }
  }

  /** SUBSCRIBE: the remaining length counts the packet id and the payload; an empty filter or too large
      a packet is refused. */
  method CalculateSubscribePacketSize(list: seq<Subscription>) returns (sizes: ConnectSizes)
    requires EncodableList(list) && list != []
    ensures sizes.BadSizes? <==>
            (exists i :: 0 <= i < |list| && list[i].filter == []) || 2 + |Payload(list)| > MAX_REMAINING_LENGTH
    ensures sizes.ConnectSizes? ==>
              && sizes.remainingLength == 2 + |Payload(list)|
              && forall id :: 0 <= id < 0x1_0000 ==>
                   sizes.packetSize == |SubscribeBytes(list, id, sizes.remainingLength)|
  {
    var packetSize, bad := 2, false;
    assert list[..0] == [];
    for i := 0 to |list|
      invariant packetSize == 2 + |Payload(list[..i])|
      invariant bad <==> exists k :: 0 <= k < i && list[k].filter == []
    {
      PayloadStep(list, i);
      packetSize := packetSize + |list[i].filter| + 2;
      packetSize := packetSize + 1;
      if list[i].filter == [] {
        bad := true;
      }
    }
    assert list[..|list|] == list;
    if packetSize > MAX_REMAINING_LENGTH {
      bad := true;
    }
    if bad {
      sizes := BadSizes;
    } else {
      EncodeLength(packetSize);
      sizes := ConnectSizes(packetSize, packetSize + 1 + EncodedSize(packetSize));
    }
  }

  // ----- the plain serializer

  method SerializeConnectFixedHeader(dest: array<byte>, info: ConnectInfo, will: Will, remaining: nat)
    returns (end: nat)
    requires info.keepAlive < 0x1_0000 && 11 + |Encode(remaining)| <= dest.Length
    modifies dest
    ensures end == 11 + |Encode(remaining)|
    ensures dest[..end] == [CONNECT_TYPE] + Encode(remaining) + VariableHeader(info, will)
    ensures forall i :: end <= i < dest.Length ==> dest[i] == old(dest[i])
  {
    hide Encode, ConnectFlags;
    dest[0] := CONNECT_TYPE;
    assert dest[..1] == [CONNECT_TYPE];
    end := EncodeRemainingLength(dest, 1, remaining);
    end := EncodeString(dest, end, [77, 81, 84, 84]);
    var flags: byte := 0;
    if info.cleanSession { flags := flags + 2; }
    if info.userName.Present? { flags := flags + 128; }
    if info.password.Present? { flags := flags + 64; }
    if will.Will? {
      flags := flags + 4;
      if will.qos == QoS1 { flags := flags + 8; } else if will.qos == QoS2 { flags := flags + 16; }
      if will.retain { flags := flags + 32; }
    }
    assert flags == ConnectFlags(info, will) by { FlagBits(info, will); }
    end := CopyBytes(dest, end, [4, flags]);
    end := CopyBytes(dest, end, U16(info.keepAlive));
    assert U16(4) + [77, 81, 84, 84] + [4, flags] == [0, 4, 77, 81, 84, 84, 4, ConnectFlags(info, will)];
    assert dest[..end] == [CONNECT_TYPE] + Encode(remaining)
                          + (U16(4) + [77, 81, 84, 84] + [4, flags] + U16(info.keepAlive));
  }

  lemma {:induction false} FlagBits(info: ConnectInfo, will: Will)
    ensures ConnectFlags(info, will) ==
            (if info.cleanSession then 2 else 0)
            + (if info.userName.Present? then 128 else 0)
            + (if info.password.Present? then 64 else 0)
            + (if will.NoWill? then 0
               else 4 + (if will.qos == QoS1 then 8 else if will.qos == QoS2 then 16 else 0)
                      + (if will.retain then 32 else 0))
  {
  }

  method SerializeConnectPacket(info: ConnectInfo, will: Will, remaining: nat, dest: array<byte>) returns (end: nat)
    requires Encodable(info, will) && |ConnectBytes(info, will, remaining)| <= dest.Length
    modifies dest
    ensures end == |ConnectBytes(info, will, remaining)|
    ensures dest[..end] == ConnectBytes(info, will, remaining)
    ensures forall i :: end <= i < dest.Length ==> dest[i] == old(dest[i])
  {
    hide Encode, ConnectFlags, VariableHeader, U16, WillStr, OptionalStr;
    end := SerializeConnectFixedHeader(dest, info, will, remaining);
    end := EncodeString(dest, end, info.clientId);
    ghost var head := [CONNECT_TYPE] + Encode(remaining) + VariableHeader(info, will) + Str(info.clientId);
    assert dest[..end] == head;
    end := EncodeWill(dest, end, will);
    end := EncodeOptionalString(dest, end, info.userName);
    end := EncodeOptionalString(dest, end, info.password);
  }

  method EncodeWill(dest: array<byte>, at: nat, will: Will) returns (end: nat)
    requires (will.Will? ==> Short(will.topic) && Short(will.payload)) && at + |WillStr(will)| <= dest.Length
    modifies dest
    ensures end == at + |WillStr(will)|
    ensures dest[..end] == old(dest[..at]) + WillStr(will)
    ensures forall i :: end <= i < dest.Length ==> dest[i] == old(dest[i])
  {
    hide U16;
    end := at;
    if will.Will? {
      end := EncodeString(dest, end, will.topic);
      end := EncodeString(dest, end, will.payload);
    }
  }

  method EncodeOptionalString(dest: array<byte>, at: nat, o: Optional) returns (end: nat)
    requires (o.Present? ==> Short(o.text)) && at + |OptionalStr(o)| <= dest.Length
    modifies dest
    ensures end == at + |OptionalStr(o)|
    ensures dest[..end] == old(dest[..at]) + OptionalStr(o)
    ensures forall i :: end <= i < dest.Length ==> dest[i] == old(dest[i])
  {
    end := at;
    if o.Present? {
      end := EncodeString(dest, at, o.text);
    }
  }

  // ----- the vectored sender

  lemma {:induction false} ConnectInPieces(info: ConnectInfo, will: Will, remaining: nat, header: seq<byte>)
    requires Encodable(info, will)
    requires header == [CONNECT_TYPE] + Encode(remaining) + VariableHeader(info, will)
    ensures header + OptionalStr(Present(info.clientId)) + WillStr(will) + OptionalStr(info.userName)
            + OptionalStr(info.password)
         == ConnectBytes(info, will, remaining)
  {
    hide Encode, VariableHeader, WillStr, Str;
  }

  /** Adds a string to the list, if there is one. */
  method AddOptional(sender: Sender, vectors: array<seq<byte>>, at: nat, o: Optional) returns (added: nat, bytes: nat)
    requires (o.Present? ==> Short(o.text)) && at + 2 <= vectors.Length
    modifies vectors
    ensures added <= 2 && bytes == |OptionalStr(o)|
    ensures Concat(vectors[..at + added]) == old(Concat(vectors[..at])) + OptionalStr(o)
  {
    hide Concat;
    added, bytes := 0, 0;
    if o.Present? {
      added := sender.AddEncodedStringToVector(vectors, at, o.text);
      bytes := 2 + |o.text|;
    }
  }

  /** Adds topic and message of the will, if there is one. */
  method AddWill(sender: Sender, vectors: array<seq<byte>>, at: nat, will: Will) returns (added: nat, bytes: nat)
    requires (will.Will? ==> Short(will.topic) && Short(will.payload)) && at + 4 <= vectors.Length
    modifies vectors
    ensures added <= 4 && bytes == |WillStr(will)|
    ensures Concat(vectors[..at + added]) == old(Concat(vectors[..at])) + WillStr(will)
  {
    hide Concat, U16;
    added, bytes := 0, 0;
    if will.Will? {
      added := sender.AddEncodedStringToVector(vectors, at, will.topic);
      var more := sender.AddEncodedStringToVector(vectors, at + added, will.payload);
      added, bytes := added + more, 2 + |will.topic| + 2 + |will.payload|;
    }
  }

  /** At most eleven buffers: the header and two for each of the five strings. */
  method FillVectors(sender: Sender, info: ConnectInfo, will: Will, remaining: nat, vectors: array<seq<byte>>)
    returns (count: nat, total: nat)
    requires Encodable(info, will) && remaining <= MAX_REMAINING_LENGTH && vectors.Length == 11
    modifies vectors
    ensures 0 < count <= 11 && total == |ConnectBytes(info, will, remaining)|
    ensures Concat(vectors[..count]) == ConnectBytes(info, will, remaining)
  {
    hide Encode, ConnectFlags, VariableHeader, U16, Concat, WillStr, Str, OptionalStr, ConnectBytes;
    EncodeLength(remaining);
    var header := new byte[15](_ => 0);
    var end := SerializeConnectFixedHeader(header, info, will, remaining);
    NothingYet([], vectors[..0]);
    ConnectInPieces(info, will, remaining, header[..end]);
    sender.Push(vectors, 0, header[..end]);
    count, total := 1, end;
    ghost var a := header[..end];
    assert Concat(vectors[..1]) == a;
    var added, bytes := AddOptional(sender, vectors, count, Present(info.clientId));
    count, total := count + added, total + bytes;
    ghost var b := a + OptionalStr(Present(info.clientId));
    assert Concat(vectors[..count]) == b && total == |b|;
    added, bytes := AddWill(sender, vectors, count, will);
    count, total := count + added, total + bytes;
    ghost var c := b + WillStr(will);
    assert Concat(vectors[..count]) == c && total == |c|;
    added, bytes := AddOptional(sender, vectors, count, info.userName);
    count, total := count + added, total + bytes;
    ghost var d := c + OptionalStr(info.userName);
    assert Concat(vectors[..count]) == d && total == |d|;
    added, bytes := AddOptional(sender, vectors, count, info.password);
    count, total := count + added, total + bytes;
  }

  /** Sends a CONNECT from its pieces. */
  method SendConnectWithoutCopy(sender: Sender, info: ConnectInfo, will: Will, remaining: nat)
    returns (status: SendStatus)
    requires Encodable(info, will) && remaining <= MAX_REMAINING_LENGTH
    modifies sender`wire
    ensures status == Delivered <==> sender.wire == old(sender.wire) + ConnectBytes(info, will, remaining)
    ensures sender.willing ==> status == Delivered
    ensures Extends(old(sender.wire), sender.wire, ConnectBytes(info, will, remaining))
  {
    hide Concat, ConnectBytes, Extends;
    var vectors := new seq<byte>[11](_ => []);
    var count, total := FillVectors(sender, info, will, remaining, vectors);
    var result := sender.SendMessageVector(vectors, count);
    status := if result == total then Delivered else SendFailed;
  }
}
