/** What a broker reads: the layouts of sections 1.5, 3.1, 3.3 and 3.8 of MQTT 3.1.1, read from left to right. */
module PacketReader {
  import opened Types
  import opened RemainingLength
  import opened PublishCodec
  import opened ZeroCopySend
  import opened ConnectCodec

  datatype Reading<T> = Bad | Got(value: T, rest: seq<byte>)

  // ----- numbers and strings (sections 1.5.2 and 1.5.3)

  /** Two bytes, the most significant first. */
  function ReadNumber(b: seq<byte>): Reading<nat> {
    if |b| < 2 then Bad else Got(b[0] as nat * 256 + b[1], b[2..])
  }

  /** As many bytes as the number in front of them says. */
  function ReadText(b: seq<byte>): Reading<seq<byte>> {
    match ReadNumber(b)
    case Bad => Bad
    case Got(n, rest) => if |rest| < n then Bad else Got(rest[..n], rest[n..])
  }

  lemma {:induction false} NumberRead(n: nat, rest: seq<byte>)
    requires n < 0x1_0000
    ensures ReadNumber(U16(n) + rest) == Got(n, rest)
  {
    assert (U16(n) + rest)[2..] == rest;
  }

  lemma {:induction false} TextRead(text: seq<byte>, rest: seq<byte>)
    requires Short(text)
    ensures ReadText(Str(text) + rest) == Got(text, rest)
  {
    hide U16, ReadNumber;
    NumberRead(|text|, text + rest);
    assert Str(text) + rest == U16(|text|) + (text + rest);
  }

  /** A packet's type byte, its length, and the body that long. */
  function ReadPacket(b: seq<byte>): Reading<(byte, seq<byte>)> {
    if b == [] then Bad
    else
      match Decode(b[1..])
      case Length(n, at) => if at <= |b| && n <= |b| - at then Got((b[0], b[at..at + n]), b[at + n..]) else Bad
      case _ => Bad
  }

  lemma {:induction false} PacketRead(kind: byte, body: seq<byte>)
    requires |body| <= MAX_REMAINING_LENGTH
    ensures ReadPacket([kind] + Encode(|body|) + body) == Got((kind, body), [])
  {
    hide Decode, Encode;
    var b, at := [kind] + Encode(|body|) + body, 1 + EncodedSize(|body|);
    EncodeLength(|body|);
    DecodeEncoded(|body|, body);
    assert b[1..] == Encode(|body|) + body;
    assert b[at..] == body && b[at..at + |body|] == body && b[at + |body|..] == [];
  }

  // ----- CONNECT (section 3.1)

  function ReadOptional(present: bool, b: seq<byte>): Reading<Optional> {
    if !present then Got(Absent, b)
    else
      match ReadText(b)
      case Bad => Bad
      case Got(text, rest) => Got(Present(text), rest)
  }

  function ReadWill(present: bool, qos: QoS, retain: bool, b: seq<byte>): Reading<Will> {
    if !present then Got(NoWill, b)
    else
      match ReadText(b)
      case Bad => Bad
      case Got(topic, b1) =>
        match ReadText(b1)
        case Bad => Bad
        case Got(message, b2) => Got(Will(qos, retain, topic, message), b2)
  }

  function QosOf(n: nat): QoS {
    if n == 0 then QoS0 else if n == 1 then QoS1 else QoS2
  }

  /** The strings the flags announce, in the order of section 3.1.3. */
  function ReadConnectPayload(flags: byte, keepAlive: nat, b: seq<byte>): Reading<(ConnectInfo, Will)> {
    match ReadText(b)
    case Bad => Bad
    case Got(clientId, b1) =>
      match ReadWill(flags / 4 % 2 == 1, QosOf(flags / 8 % 4), flags / 32 % 2 == 1, b1)
      case Bad => Bad
      case Got(will, b2) =>
        match ReadOptional(flags / 128 % 2 == 1, b2)
        case Bad => Bad
        case Got(userName, b3) =>
          match ReadOptional(flags / 64 % 2 == 1, b3)
          case Bad => Bad
          case Got(password, b4) =>
            Got((ConnectInfo(flags / 2 % 2 == 1, keepAlive, clientId, userName, password), will), b4)
  }

  /** Protocol name MQTT, level 4, flags of which the lowest is reserved, the keep-alive, and the payload. */
  function ReadConnect(body: seq<byte>): Reading<(ConnectInfo, Will)> {
    match ReadText(body)
    case Bad => Bad
    case Got(name, rest) =>
      if name != [77, 81, 84, 84] || |rest| < 2 || rest[0] != 4 then Bad
      else
        var flags := rest[1];
        var willUnused := flags / 4 % 2 == 0 ==> flags / 8 % 4 == 0 && flags / 32 % 2 == 0;
        if flags % 2 == 1 || flags / 8 % 4 == 3 || !willUnused then Bad
        else
          match ReadNumber(rest[2..])
          case Bad => Bad
          case Got(keepAlive, payload) => ReadConnectPayload(flags, keepAlive, payload)
  }

  /** Six fields packed into a byte. */
  lemma {:induction false} Unpacked(c: nat, w: nat, q: nat, r: nat, p: nat, u: nat)
    requires c < 2 && w < 2 && q < 4 && r < 2 && p < 2 && u < 2
    ensures var f := 2 * c + 4 * w + 8 * q + 32 * r + 64 * p + 128 * u;
      && f < 256 && f % 2 == 0 && f / 2 % 2 == c && f / 4 % 2 == w && f / 8 % 4 == q && f / 32 % 2 == r
      && f / 64 % 2 == p && f / 128 % 2 == u
  {
    var f := 2 * c + 4 * w + 8 * q + 32 * r + 64 * p + 128 * u;
    assert f / 2 == c + 2 * (w + 2 * q + 8 * r + 16 * p + 32 * u);
    assert f / 4 == w + 2 * (q + 4 * r + 8 * p + 16 * u);
    assert f / 8 == q + 4 * (r + 2 * p + 4 * u);
    assert f / 32 == r + 2 * (p + 2 * u);
    assert f / 64 == p + 2 * u;
  }

  lemma {:induction false} FlagsRead(info: ConnectInfo, will: Will)
    ensures var flags := ConnectFlags(info, will);
      && flags % 2 == 0 && (flags / 2 % 2 == 1 <==> info.cleanSession)
      && (flags / 4 % 2 == 1 <==> will.Will?)
      && flags / 8 % 4 == (if will.NoWill? || will.qos == QoS0 then 0 else if will.qos == QoS1 then 1 else 2)
      && (flags / 32 % 2 == 1 <==> will.Will? && will.retain)
      && (flags / 64 % 2 == 1 <==> info.password.Present?) && (flags / 128 % 2 == 1 <==> info.userName.Present?)
  {
    var c, p, u := if info.cleanSession then 1 else 0, if info.password.Present? then 1 else 0,
                   if info.userName.Present? then 1 else 0;
    var w, q, r := 0, 0, 0;
    if will.Will? {
      w, q, r := 1, if will.qos == QoS1 then 1 else if will.qos == QoS2 then 2 else 0, if will.retain then 1 else 0;
    }
    Unpacked(c, w, q, r, p, u);
    Packed(info, will, c, w, q, r, p, u);
  }

  lemma {:induction false} Packed(info: ConnectInfo, will: Will, c: nat, w: nat, q: nat, r: nat, p: nat, u: nat)
    requires c == (if info.cleanSession then 1 else 0) && p == (if info.password.Present? then 1 else 0)
    requires u == (if info.userName.Present? then 1 else 0) && w == (if will.Will? then 1 else 0)
    requires q == (if will.NoWill? || will.qos == QoS0 then 0 else if will.qos == QoS1 then 1 else 2)
    requires r == if will.Will? && will.retain then 1 else 0
    ensures ConnectFlags(info, will) == 2 * c + 4 * w + 8 * q + 32 * r + 64 * p + 128 * u
  {
  }

  lemma {:induction false} OptionalRead(o: Optional, rest: seq<byte>)
    requires o.Present? ==> Short(o.text)
    ensures ReadOptional(o.Present?, OptionalStr(o) + rest) == Got(o, rest)
  {
    hide ReadText, Str;
    if o.Present? {
      TextRead(o.text, rest);
    } else {
      assert OptionalStr(o) + rest == rest;
    }
  }

  lemma {:induction false} WillRead(will: Will, qos: QoS, retain: bool, rest: seq<byte>)
    requires will.Will? ==> Short(will.topic) && Short(will.payload) && will.qos == qos && will.retain == retain
    ensures ReadWill(will.Will?, qos, retain, WillStr(will) + rest) == Got(will, rest)
  {
    hide ReadText, Str;
    if will.Will? {
      TextRead(will.topic, Str(will.payload) + rest);
      TextRead(will.payload, rest);
      assert WillStr(will) + rest == Str(will.topic) + (Str(will.payload) + rest);
    } else {
      assert WillStr(will) + rest == rest;
    }
  }

  /** The strings of a CONNECT, behind its ten bytes. */
  function ConnectPayload(info: ConnectInfo, will: Will): seq<byte>
    requires Encodable(info, will)
  {
    Str(info.clientId) + (WillStr(will) + (OptionalStr(info.userName) + OptionalStr(info.password)))
  }

  lemma {:induction false} ConnectPayloadRead(info: ConnectInfo, will: Will)
    requires Encodable(info, will)
    ensures ReadConnectPayload(ConnectFlags(info, will), info.keepAlive, ConnectPayload(info, will))
         == Got((info, will), [])
  {
    hide ReadText, ReadOptional, ReadWill, Str, WillStr, OptionalStr, ConnectFlags;
    FlagsRead(info, will);
    var b3 := OptionalStr(info.password);
    var b2 := OptionalStr(info.userName) + b3;
    assert b3 + [] == b3;
    TextRead(info.clientId, WillStr(will) + b2);
    WillRead(will, QosOf(ConnectFlags(info, will) / 8 % 4), ConnectFlags(info, will) / 32 % 2 == 1, b2);
    OptionalRead(info.userName, b3);
    OptionalRead(info.password, []);
  }

  /** Whatever connection is asked for, a broker reads it from the packet serialized: one packet, with the same clean
      session flag, keep-alive, identifier, will, user name and password. */
  lemma {:induction false} ConnectIsRead(info: ConnectInfo, will: Will)
    requires Encodable(info, will)
    ensures var packet := ConnectBytes(info, will, GetConnectPacketSize(info, will).remainingLength);
      var reading := ReadPacket(packet);
      && reading.Got? && reading.rest == [] && reading.value.0 == 0x10
      && ReadConnect(reading.value.1) == Got((info, will), [])
  {
    hide ReadText, ReadNumber, ReadConnectPayload, ConnectPayload, ConnectFlags, Encode, ReadPacket, WillStr, Str,
      OptionalStr, EncodedSize;
    var flags, payload := ConnectFlags(info, will), ConnectPayload(info, will);
    ConnectSizeExact(info, will);
    ConnectLayout(info, will);
    var body := VariableHeader(info, will) + payload;
    PacketRead(CONNECT_TYPE, body);
    TextRead([77, 81, 84, 84], [4, flags] + (U16(info.keepAlive) + payload));
    NumberRead(info.keepAlive, payload);
    HeaderParts(info, will, payload);
    FlagsRead(info, will);
    ConnectPayloadRead(info, will);
  }

  lemma {:induction false} HeaderParts(info: ConnectInfo, will: Will, payload: seq<byte>)
    requires info.keepAlive < 0x1_0000
    ensures var rest := [4, ConnectFlags(info, will)] + (U16(info.keepAlive) + payload);
      && VariableHeader(info, will) + payload == Str([77, 81, 84, 84]) + rest
      && rest[2..] == U16(info.keepAlive) + payload
  {
    hide ConnectFlags;
    var flags := ConnectFlags(info, will);
    assert Str([77, 81, 84, 84]) == [0, 4, 77, 81, 84, 84];
    assert VariableHeader(info, will) == Str([77, 81, 84, 84]) + [4, flags] + U16(info.keepAlive);
  }

  lemma {:induction false} ConnectLayout(info: ConnectInfo, will: Will)
    requires Encodable(info, will)
    ensures var remaining := GetConnectPacketSize(info, will).remainingLength;
      var body := VariableHeader(info, will) + ConnectPayload(info, will);
      && remaining == |body| <= MAX_REMAINING_LENGTH
      && ConnectBytes(info, will, remaining) == [CONNECT_TYPE] + Encode(remaining) + body
  {
    hide Encode, VariableHeader, EncodedSize;
    var head := [CONNECT_TYPE] + Encode(GetConnectPacketSize(info, will).remainingLength);
    var a, b, c, d := Str(info.clientId), WillStr(will), OptionalStr(info.userName), OptionalStr(info.password);
    Regrouped(head, VariableHeader(info, will), a, b, c, d);
  }

  lemma {:induction false} Regrouped(head: seq<byte>, v: seq<byte>, a: seq<byte>, b: seq<byte>, c: seq<byte>,
                                     d: seq<byte>)
    ensures head + v + a + b + c + d == head + (v + (a + (b + (c + d))))
  {
    assert a + (b + (c + d)) == a + b + c + d;
  }

  // ----- SUBSCRIBE (section 3.8)

  /** Topic filters with the QoS asked for, to the end of the packet. */
  function ReadFilters(b: seq<byte>): Reading<seq<Subscription>>
    decreases |b|
  {
    if b == [] then Got([], [])
    else
      match ReadText(b)
      case Bad => Bad
      case Got(filter, rest) =>
        if rest == [] then Bad
        else
          assert |rest| < |b|;
          match ReadFilters(rest[1..])
          case Bad => Bad
          case Got(more, end) => Got([Subscription(filter, rest[0])] + more, end)
  }

  function ReadSubscribe(body: seq<byte>): Reading<(nat, seq<Subscription>)> {
    match ReadNumber(body)
    case Bad => Bad
    case Got(id, rest) =>
      match ReadFilters(rest)
      case Bad => Bad
      case Got(list, end) => if list == [] then Bad else Got((id, list), end)
  }

  lemma {:induction false} PayloadFirst(s: Subscription, list: seq<Subscription>)
    requires |s.filter| < 0x1_0000 && EncodableList(list)
    ensures EncodableList([s] + list) && Payload([s] + list) == SubscriptionBytes(s) + Payload(list)
    decreases |list|
  {
    hide SubscriptionBytes;
    var all := [s] + list;
    if list == [] {
      assert all == [s] && all[..0] == [] && Payload([]) == [];
      assert Payload(all) == [] + SubscriptionBytes(s);
    } else {
      var n := |list| - 1;
      PayloadFirst(s, list[..n]);
      assert all[..|all| - 1] == [s] + list[..n] && all[|all| - 1] == list[n];
    }
  }

  lemma {:induction false} FiltersRead(list: seq<Subscription>)
    requires EncodableList(list)
    ensures ReadFilters(Payload(list)) == Got(list, [])
    decreases |list|
  {
    hide ReadText, Payload, SubscriptionBytes;
    if list == [] {
      NothingYet([], []);
      assert list[..0] == list;
    } else {
      var s, more := list[0], list[1..];
      assert list == [s] + more;
      PayloadFirst(s, more);
      FilterFirst(s, Payload(more));
      FiltersRead(more);
    }
  }

  lemma {:induction false} FilterFirst(s: Subscription, rest: seq<byte>)
    requires |s.filter| < 0x1_0000
    ensures SubscriptionBytes(s) + rest != []
    ensures ReadText(SubscriptionBytes(s) + rest) == Got(s.filter, [s.qos] + rest) && ([s.qos] + rest)[1..] == rest
  {
    hide ReadText, U16;
    TextRead(s.filter, [s.qos] + rest);
    assert SubscriptionBytes(s) + rest == Str(s.filter) + ([s.qos] + rest);
  }

  /** A broker reads the subscriptions asked for, in order, and the packet id. */
  lemma {:induction false} SubscribeIsRead(list: seq<Subscription>, id: nat, remaining: nat)
    requires EncodableList(list) && list != [] && id < 0x1_0000
    requires remaining == 2 + |Payload(list)| <= MAX_REMAINING_LENGTH
    ensures var reading := ReadPacket(SubscribeBytes(list, id, remaining));
      && reading.Got? && reading.rest == [] && reading.value.0 == 0x82
      && ReadSubscribe(reading.value.1) == Got((id, list), [])
  {
    hide Payload, Encode, ReadPacket, ReadNumber, ReadFilters, U16;
    var body := U16(id) + Payload(list);
    PacketRead(SUBSCRIBE_TYPE, body);
    assert SubscribeBytes(list, id, remaining) == [SUBSCRIBE_TYPE] + Encode(remaining) + body;
    NumberRead(id, Payload(list));
    FiltersRead(list);
  }

  // ----- PUBLISH (section 3.3)

  /** Flags, topic, packet id above QoS 0, and the rest as payload. */
  function ReadPublish(kind: byte, body: seq<byte>): Reading<(nat, PublishInfo)> {
    var qos := kind / 2 % 4;
    if kind / 16 != 3 || qos == 3 then Bad
    else
      match ReadText(body)
      case Bad => Bad
      case Got(topic, b1) =>
        match if qos == 0 then Got(0, b1) else ReadNumber(b1)
        case Bad => Bad
        case Got(id, payload) =>
          Got((id, PublishInfo(QosOf(qos), kind % 2 == 1, kind / 8 % 2 == 1, topic, payload)), [])
  }

  /** A broker reads the publish the application made. */
  lemma {:induction false} PublishIsRead(info: PublishInfo, id: nat)
    requires |info.topic| < 0x1_0000 && id < 0x1_0000 && (info.qos == QoS0 ==> id == 0)
    requires CalculatePublishPacketSize(info).Sizes?
    ensures var reading := ReadPacket(PublishBytes(info, id));
      && reading.Got? && reading.rest == []
      && ReadPublish(reading.value.0, reading.value.1) == Got((id, info), [])
  {
    hide Encode, ReadPacket, ReadText, ReadNumber, U16, Str, PublishFlags, CalculatePublishPacketSize;
    var kind, body := PublishFlags(info), PublishBody(info, id);
    PublishSizeExact(info, id);
    PacketRead(kind, body);
    PublishFlagsRead(info);
    var behind := (if info.qos == QoS0 then [] else U16(id)) + info.payload;
    TextRead(info.topic, behind);
    TopicFirst(info, id);
    if info.qos == QoS0 {
      assert behind == info.payload;
    } else {
      NumberRead(id, info.payload);
    }
  }

  lemma {:induction false} TopicFirst(info: PublishInfo, id: nat)
    requires |info.topic| < 0x1_0000 && id < 0x1_0000
    ensures PublishBody(info, id)
         == Str(info.topic) + ((if info.qos == QoS0 then [] else U16(id)) + info.payload)
  {
    hide U16;
  }

  lemma {:induction false} PublishFlagsRead(info: PublishInfo)
    ensures var kind := PublishFlags(info);
      && kind / 16 == 3 && QosOf(kind / 2 % 4) == info.qos && kind / 2 % 4 < 3
      && (kind / 2 % 4 == 0 <==> info.qos == QoS0)
      && (kind % 2 == 1 <==> info.retain) && (kind / 8 % 2 == 1 <==> info.dup)
  {
  }

  lemma {:induction false} KindBits(kind: byte)
    requires kind / 16 == 3
    ensures var flags, qos := kind % 16, kind / 2 % 4;
      && ProcessPublishFlags(flags)
         == (if qos == 3 then PublishCodec.Rejected else Ok((QosOf(qos), kind % 2 == 1, kind / 8 % 2 == 1)))
      && (QosOf(qos) == QoS0 <==> qos == 0)
  {
    Nibble(kind);
  }

  lemma {:induction false} Nibble(kind: nat)
    requires kind / 16 == 3
    ensures var flags, qos := kind % 16, kind / 2 % 4;
      && flags % 2 == kind % 2 && flags / 8 == kind / 8 % 2
      && flags / 2 % 2 == qos % 2 && flags / 4 % 2 == qos / 2
  {
    var flags := kind % 16;
    assert kind == 48 + flags && kind / 2 == 24 + flags / 2 && kind / 8 == 6 + flags / 8;
    assert flags / 4 == flags / 2 / 2;
  }

  /** A body with a topic of n bytes. */
  lemma {:induction false} BodyParts(body: seq<byte>, n: nat)
    requires 2 + n <= |body|
    ensures body[2..][..n] == body[2..2 + n] && body[2..][n..] == body[2 + n..]
    ensures 4 + n <= |body| ==>
              var id := body[2 + n..];
              id[2..] == body[4 + n..] && id[0] == body[2 + n] && id[1] == body[3 + n]
  {
  }

  /** What the client takes for an incoming publish is what the layout says, and it takes every one but those with
      packet id zero above QoS 0 and those with neither topic nor payload. */
  lemma {:induction false} DeserializeIsReading(kind: byte, body: seq<byte>)
    requires kind / 16 == 3
    ensures DeserializePublish(kind, body) ==
      match ReadPublish(kind, body)
      case Bad => Rejected
      case Got((id, info), _) =>
        if (info.qos != QoS0 && id == 0) || (info.topic == [] && info.payload == []) then Rejected
        else Ok(Incoming(id, info))
  {
    hide ProcessPublishFlags, QosOf;
    KindBits(kind);
    if |body| >= 2 {
      var n := FromU16(body[0], body[1]);
      if 2 + n <= |body| {
        BodyParts(body, n);
      }
    }
  }
}
