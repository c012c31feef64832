/** Vectored sending of core_mqtt.c: packets leave as lists of buffers, in batches and under partial
    writes, yet the wire carries exactly what the plain serializers would write. */
module ZeroCopySend {
  import opened Types
  import opened RemainingLength
  import opened PublishCodec

  function Concat(vectors: seq<seq<byte>>): seq<byte> {
    if vectors == [] then [] else vectors[0] + Concat(vectors[1..])
  }

  lemma {:induction false} ConcatFirst(v: seq<byte>, rest: seq<seq<byte>>)
    ensures Concat([v] + rest) == v + Concat(rest) && Concat([]) == []
  {
    assert ([v] + rest)[1..] == rest;
  }

  lemma {:induction false} ConcatAppend(a: seq<seq<byte>>, b: seq<seq<byte>>)
    ensures Concat(a + b) == Concat(a) + Concat(b)
  {
    hide Concat;
    if a == [] {
      ConcatFirst([], b);
      assert a + b == b;
    } else {
      var rest := a[1..];
      ConcatAppend(rest, b);
      assert a == [a[0]] + rest && a + b == [a[0]] + (rest + b);
      ConcatFirst(a[0], rest);
      ConcatFirst(a[0], rest + b);
    }
  }

  lemma {:induction false} ConcatSnoc(a: seq<seq<byte>>, v: seq<byte>)
    ensures Concat(a + [v]) == Concat(a) + v
  {
    ConcatAppend(a, [v]);
    assert [v][1..] == [];
    assert Concat([v]) == v;
  }

  /** Skipping the first buffer whole. */
  lemma {:induction false} DropFirst(vectors: seq<seq<byte>>, n: nat)
    requires vectors != [] && |vectors[0]| <= n <= |Concat(vectors)|
    ensures n - |vectors[0]| <= |Concat(vectors[1..])|
    ensures Concat(vectors)[n..] == Concat(vectors[1..])[n - |vectors[0]|..]
  {
  }

  lemma {:induction false} NoVectors(vectors: seq<seq<byte>>)
    ensures vectors == [] ==> Concat(vectors) == []
    ensures Concat(vectors)[0..] == Concat(vectors)
  {
  }

  /** Skipping part of the first buffer. */
  lemma {:induction false} TrimFirst(vectors: seq<seq<byte>>, n: nat)
    requires vectors != [] && n <= |vectors[0]|
    ensures Concat([vectors[0][n..]] + vectors[1..]) == Concat(vectors)[n..]
  {
    assert ([vectors[0][n..]] + vectors[1..])[1..] == vectors[1..];
  }

  datatype SendStatus = Delivered | SendFailed

  datatype Subscription = Subscription(filter: seq<byte>, qos: byte)

  const SUBSCRIBE_TYPE := 0x82

  /** One subscription of a SUBSCRIBE payload. */
  function SubscriptionBytes(s: Subscription): seq<byte>
    requires |s.filter| < 0x1_0000
  {
    U16(|s.filter|) + s.filter + [s.qos]
  }

  predicate EncodableList(list: seq<Subscription>) {
    forall i :: 0 <= i < |list| ==> |list[i].filter| < 0x1_0000
  }

  /** The payload of the first subscriptions of a list. */
  function Payload(list: seq<Subscription>): seq<byte>
    requires EncodableList(list)
  {
    if list == [] then []
    else Payload(list[..|list| - 1]) + SubscriptionBytes(list[|list| - 1])
  }

  function SubscribeHeader(id: nat, remaining: nat): seq<byte>
    requires id < 0x1_0000
  {
    [SUBSCRIBE_TYPE] + Encode(remaining) + U16(id)
  }

  /** What MQTT_SerializeSubscribe writes. */
  function SubscribeBytes(list: seq<Subscription>, id: nat, remaining: nat): seq<byte>
    requires EncodableList(list) && id < 0x1_0000
  {
    SubscribeHeader(id, remaining) + Payload(list)
  }

  // ----- the plain serializer

  method SerializeSubscribeHeader(remaining: nat, dest: array<byte>, id: nat) returns (end: nat)
    requires id < 0x1_0000 && 3 + |Encode(remaining)| <= dest.Length
    modifies dest
    ensures end == 3 + |Encode(remaining)|
    ensures dest[..end] == SubscribeHeader(id, remaining)
    ensures forall i :: end <= i < dest.Length ==> dest[i] == old(dest[i])
  {
    hide Encode;
    dest[0] := SUBSCRIBE_TYPE;
    assert dest[..1] == [SUBSCRIBE_TYPE];
    end := EncodeRemainingLength(dest, 1, remaining);
    end := CopyBytes(dest, end, U16(id));
  }

  method SerializeSubscribe(list: seq<Subscription>, id: nat, remaining: nat, dest: array<byte>) returns (end: nat)
    requires EncodableList(list) && id < 0x1_0000
    requires |SubscribeBytes(list, id, remaining)| <= dest.Length
    modifies dest
    ensures end == |SubscribeBytes(list, id, remaining)|
    ensures dest[..end] == SubscribeBytes(list, id, remaining)
    ensures forall i :: end <= i < dest.Length ==> dest[i] == old(dest[i])
  {
    hide Encode, Payload;
    end := SerializeSubscribeHeader(remaining, dest, id);
    var i := 0;
    NothingYet(list, []);
    ghost var header := dest[..end];
    while i < |list|
      invariant i <= |list| && end + |Payload(list)| - |Payload(list[..i])| <= dest.Length
      invariant end <= dest.Length && dest[..end] == header + Payload(list[..i])
      invariant forall k :: end <= k < dest.Length ==> dest[k] == old(dest[k])
    {
      PayloadStep(list, i);
      PayloadGrows(list, i + 1);
      assert Payload(list[..i + 1]) == Payload(list[..i]) + U16(|list[i].filter|) + list[i].filter + [list[i].qos];
      end := EncodeString(dest, end, list[i].filter);
      end := CopyBytes(dest, end, [list[i].qos]);
      i := i + 1;
    }
    assert list[..i] == list;
  }

  lemma {:induction false} PayloadStep(list: seq<Subscription>, i: nat)
    requires EncodableList(list) && i < |list|
    ensures Payload(list[..i + 1]) == Payload(list[..i]) + SubscriptionBytes(list[i])
  {
    assert list[..i + 1][..i] == list[..i];
  }

  lemma {:induction false} PayloadGrows(list: seq<Subscription>, i: nat)
    requires EncodableList(list) && i <= |list|
    ensures Payload(list[..i]) <= Payload(list)
    decreases |list| - i
  {
    if i < |list| {
      PayloadGrows(list, i + 1);
      PayloadStep(list, i);
    } else {
      assert list[..i] == list;
    }
  }

  // ----- the vectored sender

  /** The wire carries what it did and then nothing but a prefix of the packet. */
  ghost predicate Extends(start: seq<byte>, wire: seq<byte>, packet: seq<byte>) {
    start <= wire && wire[|start|..] <= packet
  }

  lemma {:induction false} SentMore(start: seq<byte>, all: seq<byte>, done: nat, n: nat)
    requires done + n <= |all|
    ensures start + all[..done] + all[done..][..n] == start + all[..done + n]
    ensures all[done..][n..] == all[done + n..] && all[0..] == all && start + all[..0] == start
    ensures Extends(start, start + all[..done + n], all)
  {
    assert all[..done] + all[done..][..n] == all[..done + n];
  }

  class Sender {
    /** Everything the transport has accepted so far. */
    var wire: seq<byte>
    /** Whether the transport offers a vectored write; otherwise buffers go out one by one. */
    const vectored: bool
    /** A transport that takes some of whatever bytes it is offered, always before the deadline. */
    const willing: bool

    constructor (vectored: bool, willing: bool)
      ensures wire == [] && this.vectored == vectored && this.willing == willing
    {
      this.vectored := vectored;
      this.willing := willing;
      wire := [];
    }

    /** The transport accepts a prefix of what it is offered, possibly nothing, or fails. */
    method TransportSend(ghost offered: seq<byte>, first: seq<byte>, rest: seq<seq<byte>>) returns (n: int)
      requires offered == Concat([first] + rest)
      modifies this`wire
      ensures n < 0 ==> wire == old(wire)
      ensures n >= 0 ==> n <= |offered| && wire == old(wire) + offered[..n]
      ensures willing ==> n >= 0 && (first != [] ==> n >= 1)
    {
      var bytes := first;
      if vectored {
        for k := 0 to |rest|
          invariant wire == old(wire) && bytes == first + Concat(rest[..k])
        {
          ConcatSnoc(rest[..k], rest[k]);
          assert rest[..k + 1] == rest[..k] + [rest[k]];
          bytes := bytes + rest[k];
        }
        assert rest[..|rest|] == rest;
      }
      assert ([first] + rest)[1..] == rest;
      assert bytes <= offered;
      n := *;
      if willing && n < 1 { n := 1; }
      if n > |bytes| { n := |bytes|; }
      if n > 0 {
        wire := wire + bytes[..n];
        assert bytes[..n] == offered[..n];
      } else if n == 0 {
        assert wire == wire + offered[..0];
      }
    }

    /** How many bytes a list of buffers holds. */
    method BytesToSend(vectors: array<seq<byte>>, count: nat) returns (bytes: nat)
      requires count <= vectors.Length
      ensures bytes == |Concat(vectors[..count])|
    {
      hide Concat;
      bytes := 0;
      NoVectors(vectors[..0]);
      for k := 0 to count
        invariant bytes == |Concat(vectors[..k])|
      {
        ConcatSnoc(vectors[..k], vectors[k]);
        assert vectors[..k + 1] == vectors[..k] + [vectors[k]];
        bytes := bytes + |vectors[k]|;
      }
    }

    /** Sends a list of buffers; the entries are consumed in place. The deadline is an arbitrary number of
        rounds. */
    method SendMessageVector(vectors: array<seq<byte>>, count: nat) returns (bytesSentOrError: int)
      requires 0 < count <= vectors.Length
      modifies this`wire, vectors
      ensures bytesSentOrError <= |old(Concat(vectors[..count]))|
      ensures Extends(old(wire), wire, old(Concat(vectors[..count])))
      ensures bytesSentOrError == |old(Concat(vectors[..count]))| <==>
                wire == old(wire) + old(Concat(vectors[..count]))
      ensures willing ==> bytesSentOrError == |old(Concat(vectors[..count]))|
    {
      hide Concat, Extends;
      ghost var all, start := Concat(vectors[..count]), wire;
      var bytesToSend := BytesToSend(vectors, count);
      var it: nat := 0;
      bytesSentOrError := 0;
      ghost var done: nat := 0;
      var rounds: nat := *;
      assert vectors[0..count] == vectors[..count] == old(vectors[..])[..count];
      SentMore(start, all, 0, 0);
      while 0 <= bytesSentOrError < bytesToSend
        invariant bytesSentOrError <= bytesToSend == |all| && done <= |all|
        invariant wire == start + all[..done] && Extends(start, wire, all)
        invariant if bytesSentOrError < 0 then !willing && done < |all| else done == bytesSentOrError
        invariant bytesSentOrError >= 0 ==> it <= count && Concat(vectors[it..count]) == all[done..]
        decreases if willing then |all| - done + count - it else rounds, bytesSentOrError >= 0
      {
        NoVectors(vectors[it..count]);
        assert it < count;
        assert vectors[it..count] == [vectors[it]] + vectors[it + 1..count];
        var sendResult := TransportSend(all[done..], vectors[it], vectors[it + 1..count]);
        if sendResult >= 0 {
          SentMore(start, all, done, sendResult);
          done := done + sendResult;
          bytesSentOrError := bytesSentOrError + sendResult;
        } else {
          bytesSentOrError := sendResult;
        }
        var timedOut: bool := *;
        if !willing && (timedOut || rounds == 0) {
          break;
        }
        rounds := if rounds == 0 then 0 else rounds - 1;
        if sendResult >= 0 {
          it := Advance(vectors, it, count, sendResult);
        }
      }
      assert all[..|all|] == all;
    }

    /** Moves past the bytes just sent: whole buffers are skipped, a partly sent one is trimmed. */
    method Advance(vectors: array<seq<byte>>, from: nat, count: nat, sent: nat) returns (it: nat)
      requires from <= count <= vectors.Length && sent <= |Concat(vectors[from..count])|
      modifies vectors
      ensures from <= it <= count && Concat(vectors[it..count]) == old(Concat(vectors[from..count]))[sent..]
      ensures from < count && |old(vectors[from])| <= sent ==> from < it
    {
      hide Concat;
      ghost var goal := Concat(vectors[from..count])[sent..];
      var left: nat := sent;
      it := from;
      while it < count && left >= |vectors[it]|
        invariant from <= it <= count && left <= |Concat(vectors[it..count])|
        invariant it == from ==> left == sent && (from < count ==> vectors[from] == old(vectors[from]))
        invariant Concat(vectors[it..count])[left..] == goal
      {
        DropFirst(vectors[it..count], left);
        assert vectors[it..count][1..] == vectors[it + 1..count];
        left := left - |vectors[it]|;
        it := it + 1;
      }
      if left > 0 && it < count {
        ghost var rest := vectors[it + 1..count];
        TrimFirst(vectors[it..count], left);
        assert vectors[it..count][1..] == rest;
        vectors[it] := vectors[it][left..];
        assert vectors[it..count] == [vectors[it]] + rest;
      } else {
        NoVectors(vectors[it..count]);
      }
    }

    /** Fills the next slot of the list. */
    method Push(vectors: array<seq<byte>>, at: nat, v: seq<byte>)
      requires at < vectors.Length
      modifies vectors
      ensures Concat(vectors[..at + 1]) == old(Concat(vectors[..at])) + v
    {
      ghost var was := vectors[..at];
      vectors[at] := v;
      assert vectors[..at + 1] == was + [v];
      ConcatSnoc(was, v);
    }

    /** Fills the next slot if there is something to send in it. */
    method PushIf(needed: bool, vectors: array<seq<byte>>, at: nat, v: seq<byte>) returns (next: nat)
      requires at < vectors.Length
      modifies vectors
      ensures next == if needed then at + 1 else at
      ensures Concat(vectors[..next]) == old(Concat(vectors[..at])) + if needed then v else []
    {
      hide Concat;
      next := at;
      if needed {
        Push(vectors, at, v);
        next := at + 1;
      }
    }

    /** Adds a length-prefixed string to the list: one buffer for the length, one for the text if any. */
    method AddEncodedStringToVector(vectors: array<seq<byte>>, at: nat, text: seq<byte>) returns (added: nat)
      requires |text| < 0x1_0000 && at + 2 <= vectors.Length
      modifies vectors
      ensures added == if text == [] then 1 else 2
      ensures Concat(vectors[..at + added]) == old(Concat(vectors[..at])) + (U16(|text|) + text)
    {
      hide Concat;
      ghost var was := Concat(vectors[..at]);
      Push(vectors, at, [|text| / 256, |text| % 256]);
      added := 1;
      if text != [] {
        Push(vectors, at + 1, text);
        added := 2;
      }
      assert was + U16(|text|) + text == was + (U16(|text|) + text);
    }

    /** Fills the list with as many subscriptions as fit behind what is there already. */
    method QueueSubscriptions(list: seq<Subscription>, vectors: array<seq<byte>>, from: nat, size: nat, first: nat,
                              ghost sent: seq<byte>, ghost header: seq<byte>)
      returns (vectorLength: nat, total: nat, next: nat)
      requires EncodableList(list) && first < |list| && from <= 1 && 3 <= vectors.Length
      requires size == |Concat(vectors[..from])| && sent + Concat(vectors[..from]) == header + Payload(list[..first])
      modifies vectors
      ensures first <= next <= |list| && 0 < vectorLength <= vectors.Length
      ensures total == |Concat(vectors[..vectorLength])| && (first == next ==> from == 1)
      ensures sent + Concat(vectors[..vectorLength]) == header + Payload(list[..next])
    {
      hide Concat, Payload, U16, SubscriptionBytes;
      vectorLength, total, next := from, size, first;
      while vectorLength <= vectors.Length - 3 && next < |list|
        invariant first <= next <= |list| && vectorLength <= vectors.Length
        invariant total == |Concat(vectors[..vectorLength])|
        invariant if next == first then vectorLength == from else vectorLength > 0
        invariant sent + Concat(vectors[..vectorLength]) == header + Payload(list[..next])
      {
        PayloadStep(list, next);
        ghost var batch := Concat(vectors[..vectorLength]);
        var added := AddEncodedStringToVector(vectors, vectorLength, list[next].filter);
        Push(vectors, vectorLength + added, [list[next].qos]);
        Queued(sent, batch, header, Payload(list[..next]), list[next]);
        total := total + 2 + |list[next].filter| + 1;
        vectorLength := vectorLength + added + 1;
        next := next + 1;
      }
    }

    /** Sends a batch of a packet behind what is on the wire of it already. */
    method SendBatch(vectors: array<seq<byte>>, count: nat, total: nat, ghost start: seq<byte>, ghost onWire: seq<byte>,
                     ghost all: seq<byte>)
      returns (status: SendStatus)
      requires 0 < count <= vectors.Length && total == |Concat(vectors[..count])|
      requires wire == start + onWire && onWire + Concat(vectors[..count]) <= all
      modifies this`wire, vectors
      ensures Extends(start, wire, all)
      ensures status == Delivered ==> wire == start + (onWire + old(Concat(vectors[..count])))
      ensures status != Delivered ==> !willing && |wire| < |start| + |all|
    {
      hide Concat, Extends;
      ghost var batch := Concat(vectors[..count]);
      var result := SendMessageVector(vectors, count);
      BatchExtends(start, onWire, batch, all, wire);
      assert start + (onWire + batch) == start + onWire + batch;
      status := Delivered;
      if result != total {
        status := SendFailed;
        ShortOf(start, onWire, batch, all, wire);
      }
    }

    /** Sends a SUBSCRIBE in batches of as many subscriptions as the vector array takes. */
    method SendSubscribeWithoutCopy(list: seq<Subscription>, id: nat, remaining: nat, maxVectors: nat)
      returns (status: SendStatus)
      requires EncodableList(list) && id < 0x1_0000 && remaining <= MAX_REMAINING_LENGTH && list != []
      requires maxVectors >= 3
      modifies this`wire
      ensures status == Delivered <==> wire == old(wire) + SubscribeBytes(list, id, remaining)
      ensures willing ==> status == Delivered
      ensures Extends(old(wire), wire, SubscribeBytes(list, id, remaining))
    {
      hide Concat, Payload, Encode, U16, Extends, SubscribeHeader;
      status := Delivered;
      ghost var start, all, subscribe := wire, SubscribeBytes(list, id, remaining), SubscribeHeader(id, remaining);
      SentMore(start, all, 0, 0);
      var header := new byte[7](_ => 0);
      var vectors := new seq<byte>[maxVectors](_ => []);
      EncodeLength(remaining);
      var end := SerializeSubscribeHeader(remaining, header, id);
      NothingYet(list, vectors[..0]);
      Push(vectors, 0, header[..end]);
      var total, vectorLength, sent := end, 1, 0;
      ghost var onWire: seq<byte> := [];
      assert start + onWire == start;
      while status == Delivered && sent < |list|
        invariant sent <= |list| && 0 <= vectorLength <= 1 && total == |Concat(vectors[..vectorLength])|
        invariant Extends(start, wire, all)
        invariant status != Delivered ==> !willing && |wire| < |start| + |all|
        invariant status == Delivered ==>
                    && wire == start + onWire && (sent == |list| ==> vectorLength == 0)
                    && onWire + Concat(vectors[..vectorLength]) == subscribe + Payload(list[..sent])
        decreases status == Delivered, |list| - sent, vectorLength
      {
        vectorLength, total, sent := QueueSubscriptions(
          list, vectors, vectorLength, total, sent, onWire, subscribe);
        ghost var batch := Concat(vectors[..vectorLength]);
        PayloadPrefix(list, sent, subscribe);
        status := SendBatch(vectors, vectorLength, total, start, onWire, all);
        onWire := onWire + batch;
        vectorLength := 0;
        total := 0;
        NothingYet(list, vectors[..0]);
        assert onWire + [] == onWire;
      }
      PayloadPrefix(list, |list|, subscribe);
    }

    /** Sends a PUBLISH from the header, the topic, the packet id and the caller's payload. */
    method SendPublishWithoutCopy(info: PublishInfo, header: array<byte>, headerSize: nat, packetId: nat)
      returns (status: SendStatus)
      requires |info.topic| < 0x1_0000 && packetId < 0x1_0000 && headerSize <= header.Length
      requires header[..headerSize] ==
               [PublishFlags(info)] + Encode(|PublishBody(info, packetId)|) + U16(|info.topic|)
      modifies this`wire
      ensures status == Delivered <==> wire == old(wire) + PublishBytes(info, packetId)
      ensures willing ==> status == Delivered
      ensures Extends(old(wire), wire, PublishBytes(info, packetId))
    {
      hide Encode, PublishFlags, PublishBytes, PublishBody, Concat, U16;
      PublishInPieces(info, packetId);
      ghost var head := header[..headerSize];
      var vectors := new seq<byte>[4](_ => []);
      NothingYet([], vectors[..0]);
      Push(vectors, 0, header[..headerSize]);
      assert Concat(vectors[..1]) == head;
      Push(vectors, 1, info.topic);
      var total := headerSize + |info.topic|;
      var vectorLength := PushIf(info.qos != QoS0, vectors, 2, U16(packetId));
      total := if info.qos != QoS0 then total + 2 else total;
      vectorLength := PushIf(|info.payload| > 0, vectors, vectorLength, info.payload);
      assert (if |info.payload| > 0 then info.payload else []) == info.payload;
      total := total + |info.payload|;
      assert Concat(vectors[..vectorLength]) == PublishBytes(info, packetId);
      var result := SendMessageVector(vectors, vectorLength);
      status := if result == total then Delivered else SendFailed;
    }
  }

  lemma {:induction false} NothingYet(list: seq<Subscription>, vectors: seq<seq<byte>>)
    requires vectors == [] && EncodableList(list)
    ensures Concat(vectors) == [] && Payload(list[..0]) == []
  {
  }

  /** Queueing one more subscription. */
  lemma {:induction false} Queued(sent: seq<byte>, batch: seq<byte>, header: seq<byte>, payload: seq<byte>,
                                  s: Subscription)
    requires |s.filter| < 0x1_0000 && sent + batch == header + payload
    ensures sent + (batch + (U16(|s.filter|) + s.filter) + [s.qos]) == header + (payload + SubscriptionBytes(s))
  {
    var x := SubscriptionBytes(s);
    assert batch + (U16(|s.filter|) + s.filter) + [s.qos] == batch + x;
    assert sent + (batch + x) == (sent + batch) + x && header + (payload + x) == (header + payload) + x;
  }

  /** A batch of the packet behind what is sent of it already. */
  lemma {:induction false} BatchExtends(start: seq<byte>, sent: seq<byte>, batch: seq<byte>, all: seq<byte>,
                                        wire: seq<byte>)
    requires sent + batch <= all && Extends(start + sent, wire, batch)
    ensures Extends(start, wire, all)
  {
    var tail := wire[|start + sent|..];
    assert wire == start + sent + tail;
    assert wire[|start|..] == sent + tail;
  }

  lemma {:induction false} ShortOf(start: seq<byte>, sent: seq<byte>, batch: seq<byte>, all: seq<byte>, wire: seq<byte>)
    requires sent + batch <= all && Extends(start + sent, wire, batch) && wire != start + sent + batch
    ensures |wire| < |start| + |all|
  {
    var tail := wire[|start + sent|..];
    assert wire == start + sent + tail;
    assert |tail| == |batch| ==> tail == batch;
  }

  lemma {:induction false} PayloadPrefix(list: seq<Subscription>, i: nat, header: seq<byte>)
    requires EncodableList(list) && i <= |list|
    ensures header + Payload(list[..i]) <= header + Payload(list)
    ensures i == |list| ==> Payload(list[..i]) == Payload(list)
  {
    hide Payload;
    PayloadGrows(list, i);
    assert list[..|list|] == list;
  }
}
