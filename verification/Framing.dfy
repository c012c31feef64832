/** Incremental packet framing of core_mqtt.c: packets are cut out of a shifting receive buffer however
    the transport splits the byte stream. */
module Framing {
  import opened Types
  import opened RemainingLength

  datatype Packet = Packet(kind: byte, body: seq<byte>)

  /** Which packet types a client accepts, flags ignored except for PUBREL. */
  predicate IncomingPacketValid(kind: byte) {
    var high := kind / 16;
    high in {2, 3, 4, 5, 7, 9, 11, 13} || (high == 6 && kind / 2 % 2 == 1)
  }

  datatype Status = Success | RecvFailed | BadResponse | NeedMoreBytes | NoDataAvailable | KeepAliveFailed

  datatype Verdict =
    | Keep(status: Status)                     // nothing to cut out yet
    | Take(packet: Packet, rest: seq<byte>)    // a whole packet
    | Skip(total: nat)                         // a packet larger than the buffer

  /** What the bytes in a buffer of the given size call for. */
  function Inspect(buffered: seq<byte>, size: nat): Verdict {
    if buffered == [] then Keep(NoDataAvailable)
    else if !IncomingPacketValid(buffered[0]) then Keep(BadResponse)
    else
      match Decode(buffered[1..])
      case Incomplete => Keep(NeedMoreBytes)
      case Malformed => Keep(BadResponse)
      case Length(value, header) =>
        if value + header > size then Skip(value + header)
        else if value + header > |buffered| then Keep(NeedMoreBytes)
        else Take(Packet(buffered[0], buffered[header..header + value]), buffered[header + value..])
  }

  /** The receiver as the stream sees it. */
  datatype View = View(buffered: seq<byte>, network: seq<byte>, handled: seq<Packet>)

  /** One iteration that receives `got` bytes and meets no failure. */
  predicate StepWith(before: View, after: View, size: nat, got: nat) {
    && got <= |before.network|
    && var b, net := before.buffered + before.network[..got], before.network[got..];
       match Inspect(b, size)
       case Keep(_) => after == View(b, net, before.handled)
       case Take(p, rest) => after == View(rest, net, before.handled + [p])
       case Skip(total) => total <= |b| + |net| && after == View([], (b + net)[total..], before.handled)
  }

  lemma {:induction false} HeaderBounds(bytes: seq<byte>)
    requires Decode(bytes).Length?
    ensures 2 <= Decode(bytes).headerLength <= |bytes| + 1
  {
    DecodedValue(bytes, 0, 0);
  }

  /** What an iteration reports if nothing fails. */
  predicate Reports(before: View, size: nat, got: nat, status: Status) {
    && got <= |before.network|
    && status == match Inspect(before.buffered + before.network[..got], size)
                 case Keep(s) => if s == NoDataAvailable then Success else s
                 case _ => Success
  }

  /** In front of the buffer lies a packet larger than it, and its rest does not come: it is not there, or not offered
      in time. */
  predicate Oversized(v: View, size: nat, got: nat, patient: bool) {
    && got <= |v.network|
    && match Inspect(v.buffered + v.network[..got], size)
       case Skip(total) => patient ==> total > |v.buffered| + |v.network|
       case _ => false
  }

  function Least(a: int, b: int, c: int): int {
    if a <= b && a <= c then a else if b <= c then b else c
  }

  /** How much of an offer an iteration takes: what there is and what there is room for. */
  function Taken(v: View, size: nat, offer: int): (got: nat)
    requires |v.buffered| <= size
  {
    if offer < 0 then 0 else Least(offer, size - |v.buffered|, |v.network|)
  }

  // ----- the implementation

  /** A buffer whose first bytes are those of a stream. */
  ghost function Filled(stream: seq<byte>, was: seq<byte>, at: nat): (held: seq<byte>)
    requires at <= |stream| && at <= |was|
    ensures |held| == |was|
  {
    stream[..at] + was[at..]
  }

  /** A buffer with the first n bytes of a stream in place of its own from `at` on. */
  ghost function Overlaid(was: seq<byte>, stream: seq<byte>, at: nat, n: nat): (held: seq<byte>)
    requires at + n <= |was| && n <= |stream|
    ensures |held| == |was|
  {
    was[..at] + stream[..n] + was[at + n..]
  }

  lemma {:induction false} Overwritten(was: seq<byte>, stream: seq<byte>, at: nat, k: nat)
    requires at + k <= |was| && k <= |stream|
    ensures at + k < |was| && k < |stream| ==>
              Overlaid(was, stream, at, k)[at + k := stream[k]] == Overlaid(was, stream, at, k + 1)
    ensures Overlaid(was, stream, at, 0) == was
    ensures Overlaid(was, stream, at, k)[..at + k] == was[..at] + stream[..k]
  {
  }

  /** The next n bytes of the stream behind the first `at` in a buffer. */
  lemma {:induction false} Received(stream: seq<byte>, was: seq<byte>, at: nat, n: nat)
    requires at + n <= |stream| && at + n <= |was|
    ensures var held := Filled(stream, was, at);
      Overlaid(held, stream[at..], at, n) == Filled(stream, was, at + n)
    ensures stream[at..][n..] == stream[at + n..] && Filled(stream, was, 0) == was
  {
    var held := Filled(stream, was, at);
    assert held[..at] == stream[..at] && held[at + n..] == was[at + n..];
    assert stream[..at] + stream[at..][..n] == stream[..at + n];
  }

  /** Receiving and then cutting out is one step. */
  lemma {:induction false} ReceivedFirst(before: View, after: View, size: nat, got: nat, status: Status)
    requires got <= |before.network|
    requires var between := View(before.buffered + before.network[..got], before.network[got..], before.handled);
      StepWith(between, after, size, 0) && Reports(between, size, 0, status)
    ensures StepWith(before, after, size, got) && Reports(before, size, got, status)
  {
    hide Inspect;
    var b, net := before.buffered + before.network[..got], before.network[got..];
    assert b + net[..0] == b && net[0..] == net;
  }

  lemma {:induction false} OversizedFirst(before: View, between: View, size: nat, got: nat, patient: bool)
    requires got <= |before.network| && Oversized(between, size, 0, patient)
    requires between == View(before.buffered + before.network[..got], before.network[got..], before.handled)
    ensures Oversized(before, size, got, patient)
  {
    hide Inspect;
    assert between.buffered + between.network[..0] == between.buffered;
  }

  lemma {:induction false} Skipped(b: seq<byte>, net: seq<byte>, total: nat)
    ensures |b| <= total <= |b| + |net| ==> (b + net)[total..] == net[total - |b|..]
  {
  }

  class Receiver {
    const buffer: array<byte>
    var index: nat
    var network: seq<byte>      // what the peer sends and the transport has not handed over
    var handled: seq<Packet>    // what reached the packet handlers

    ghost predicate Valid()
      reads this
    {
      index <= buffer.Length
    }

    ghost function Observed(): View
      requires Valid()
      reads this, buffer
    {
      View(buffer[..index], network, handled)
    }

    constructor (size: nat, stream: seq<byte>)
      ensures Valid() && Observed() == View([], stream, []) && buffer.Length == size
    {
      buffer := new byte[size](_ => 0);
      index, network, handled := 0, stream, [];
    }

    /** The transport: offers any number of the bytes it has, possibly none, or fails; `offer` is its choice. */
    method Recv(at: nat, max: nat, offer: int) returns (n: int)
      requires at + max <= buffer.Length
      modifies this`network, buffer
      ensures n == if offer < 0 then offer else Least(offer, max, |old(network)|)
      ensures n < 0 ==> network == old(network) && buffer[..] == old(buffer[..])
      ensures n >= 0 ==>
                && n <= max && n <= |old(network)|
                && network == old(network)[n..]
                && buffer[..] == Overlaid(old(buffer[..]), old(network), at, n)
    {
      hide Overlaid;
      n := offer;
      if n > max { n := max; }
      if n > |network| { n := |network|; }
      if n < 0 { return; }
      ghost var was := buffer[..];
      Overwritten(was, network, at, 0);
      for k := 0 to n
        invariant network == old(network) && buffer[..] == Overlaid(was, network, at, k)
      {
        Overwritten(was, network, at, k);
        buffer[at + k] := network[k];
        assert buffer[..] == Overlaid(was, network, at, k)[at + k := network[k]];
      }
      network := network[n..];
    }

    /** Receives exactly so many bytes into the front of the buffer; a shorter count means the polling timeout, an
        arbitrary number of empty reads in a row, and a negative one a transport failure. The bytes taken lie in
        order at the front of the buffer in any case. A `patient` exchange is one in which the transport keeps offering
        what there is. */
    method RecvExact(bytesToRecv: nat, patient: bool) returns (total: int, ghost taken: nat)
      requires bytesToRecv <= buffer.Length
      modifies this`network, buffer
      ensures taken <= bytesToRecv && taken <= |old(network)| && (total >= 0 ==> total == taken)
      ensures total == bytesToRecv ==> taken == bytesToRecv
      ensures patient && bytesToRecv <= |old(network)| ==> total == bytesToRecv
      ensures network == old(network)[taken..]
      ensures buffer[..] == Filled(old(network), old(buffer[..]), taken)
    {
      hide Filled, Overlaid;
      var remaining, receiveError, at := bytesToRecv, false, 0;
      total := 0;
      taken := 0;
      var polls: nat := *;
      ghost var stream, was := network, buffer[..];
      Received(stream, was, 0, 0);
      while remaining > 0 && !receiveError
        invariant 0 <= remaining && at == taken && at + remaining == bytesToRecv && at <= |stream|
        invariant network == stream[at..] && buffer[..] == Filled(stream, was, at)
        invariant !receiveError ==> total == at
        invariant receiveError ==> total < bytesToRecv && (total < 0 || total == at)
        invariant receiveError && patient ==> bytesToRecv > |stream|
        decreases !receiveError, remaining, polls
      {
        var offer: int := *;
        if patient && offer < 1 { offer := 1; }
        var n := Recv(at, remaining, offer);
        if n >= 0 {
          Received(stream, was, at, n);
        }
        if n < 0 {
          total := n;
          receiveError := true;
        } else if n > 0 {
          remaining := remaining - n;
          total := total + n;
          at := at + n;
          taken := at;
          polls := *;
        } else if polls == 0 {
          receiveError := true;
        } else {
          polls := polls - 1;
        }
      }
    }

    /** Drops a packet that does not fit, of which the buffer holds the first bytes. */
    method DiscardStoredPacket(packetSize: nat, patient: bool) returns (status: Status)
      requires Valid() && packetSize > buffer.Length > 0
      modifies this, buffer
      ensures Valid() && index == 0 && handled == old(handled)
      ensures status in {RecvFailed, NoDataAvailable}
      ensures patient && packetSize - old(index) <= |old(network)| ==> status == NoDataAvailable
      ensures status == NoDataAvailable ==>
                && packetSize - old(index) <= |old(network)|
                && network == old(network)[packetSize - old(index)..]
    {
      status := RecvFailed;
      var bytesToReceive, total, receiveError := buffer.Length, 0, false;
      var remainingLength := packetSize - index;
      while total < remainingLength && !receiveError
        invariant index == old(index) && handled == old(handled)
        invariant total <= remainingLength
        invariant total < remainingLength ==> 0 < bytesToReceive <= buffer.Length
        invariant !receiveError ==> total <= |old(network)| && network == old(network)[total..]
        invariant receiveError ==> total < remainingLength
        invariant receiveError && patient ==> remainingLength > |old(network)|
        decreases !receiveError, remainingLength - total
      {
        if remainingLength - total < bytesToReceive {
          bytesToReceive := remainingLength - total;
        }
        var received, taken := RecvExact(bytesToReceive, patient);
        if received != bytesToReceive {
          receiveError := true;
        } else {
          total := total + received;
        }
      }
      if total == remainingLength {
        status := NoDataAvailable;
      }
      for i := 0 to buffer.Length
        invariant index == old(index) && handled == old(handled)
        invariant status == NoDataAvailable ==> total == remainingLength && !receiveError
                                                && total <= |old(network)| && network == old(network)[total..]
      {
        buffer[i] := 0;
      }
      index := 0;
    }

    /** Looks at the packet type and length at the front of the buffer. */
    method ProcessIncomingPacketTypeAndLength() returns (status: Status, total: nat, header: nat)
      requires Valid()
      ensures status in {Success, NoDataAvailable, NeedMoreBytes, BadResponse}
      ensures status == Success ==> 1 <= header <= index && header <= total
      ensures Inspect(buffer[..index], buffer.Length) ==
              if status != Success then Keep(status)
              else if total > buffer.Length then Skip(total)
              else if total > index then Keep(NeedMoreBytes)
              else Take(Packet(buffer[0], buffer[header..total]), buffer[total..index])
    {
      hide IncomingPacketValid, Decode;
      total, header := 0, 0;
      if index < 1 {
        status := NoDataAvailable;
      } else if !IncomingPacketValid(buffer[0]) {
        status := BadResponse;
      } else {
        var decoded := ProcessRemainingLength(buffer, index);
        ghost var b := buffer[..index];
        assert buffer[1..index] == b[1..];
        match decoded
        case Incomplete => status := NeedMoreBytes;
        case Malformed => status := BadResponse;
        case Length(value, h) =>
          HeaderBounds(b[1..]);
          status, total, header := Success, value + h, h;
          if total <= index {
            assert b[header..total] == buffer[header..total];
            assert b[total..] == buffer[total..index];
          }
      }
    }

    /** Reads what the transport offers and hands over at most one whole packet. */
    method ReceiveSingleIteration(manageKeepAlive: bool, keepAliveOk: bool, offer: int, patient: bool)
      returns (status: Status, ghost got: nat)
      requires Valid() && buffer.Length > 0
      modifies this, buffer
      ensures Valid()
      // it asks for all there is room for
      ensures got == Taken(old(Observed()), buffer.Length, offer) && |old(Observed()).buffered| + got <= buffer.Length
      ensures status == KeepAliveFailed <==> offer >= 0 && got == 0 && manageKeepAlive && !keepAliveOk
      ensures offer < 0 ==> status == RecvFailed
      ensures status == RecvFailed ==> offer < 0 || Oversized(old(Observed()), buffer.Length, got, patient)
      ensures status !in {RecvFailed, KeepAliveFailed} ==>
                && StepWith(old(Observed()), Observed(), buffer.Length, got)
                && Reports(old(Observed()), buffer.Length, got, status)
      ensures status == KeepAliveFailed ==> Observed() == old(Observed())
    {
      hide Inspect, StepWith, Reports, Oversized, Overlaid;
      ghost var before := Observed();
      var recvBytes := Recv(index, buffer.Length - index, offer);
      if recvBytes < 0 {
        return RecvFailed, 0;
      }
      got := recvBytes;
      index := index + recvBytes;
      Overwritten(old(buffer[..]), before.network, old(index), recvBytes);
      assert old(buffer[..])[..old(index)] == before.buffered;
      assert Observed() == View(before.buffered + before.network[..got], before.network[got..], before.handled);
      var total, header;
      status, total, header := ProcessIncomingPacketTypeAndLength();
      if recvBytes == 0 && manageKeepAlive && !keepAliveOk {
        assert before.buffered + before.network[..0] == before.buffered;
        return KeepAliveFailed, 0;
      }
      ghost var between := Observed();
      status := CutOut(status, total, header, patient);
      if status != RecvFailed {
        ReceivedFirst(before, Observed(), buffer.Length, got, status);
      } else {
        OversizedFirst(before, between, buffer.Length, got, patient);
      }
    }

    /** What is done about the front of the buffer. */
    method CutOut(front: Status, total: nat, header: nat, patient: bool) returns (status: Status)
      requires Valid() && buffer.Length > 0
      requires front in {Success, NoDataAvailable, NeedMoreBytes, BadResponse}
      requires front == Success ==> 1 <= header <= index && header <= total
      requires Inspect(buffer[..index], buffer.Length) ==
               if front != Success then Keep(front)
               else if total > buffer.Length then Skip(total)
               else if total > index then Keep(NeedMoreBytes)
               else Take(Packet(buffer[0], buffer[header..total]), buffer[total..index])
      modifies this, buffer
      ensures Valid() && status != KeepAliveFailed
      ensures status == RecvFailed ==> Oversized(old(Observed()), buffer.Length, 0, patient)
      ensures status != RecvFailed ==>
                && StepWith(old(Observed()), Observed(), buffer.Length, 0)
                && Reports(old(Observed()), buffer.Length, 0, status)
    {
      hide Inspect;
      ghost var b, net := buffer[..index], network;
      assert b + net[..0] == b && net[0..] == net;
      status := front;
      if status == Success {
        if total > buffer.Length {
          status := DiscardStoredPacket(total, patient);
          assert buffer[..0] == [];
          Skipped(b, net, total);
        } else if total > index {
          status := NeedMoreBytes;
        } else {
          handled := handled + [Packet(buffer[0], buffer[header..total])];
          MoveToFront(total);
        }
      }
      if status == NoDataAvailable {
        status := Success;
      }
    }

    /** The application's loop around MQTT_ProcessLoop: so many iterations, or fewer if one fails. What it saw is a run
        of the receiver; on a valid stream only the transport or the keep-alive can end it early, and if neither does
        and some byte is offered each time, it hands over every packet that fits. */
    method ProcessLoop(rounds: nat, keepAliveOk: nat -> bool, offers: nat -> int, patient: bool)
      returns (status: Status, ghost run: seq<View>, ghost chunks: seq<nat>)
      requires Valid() && buffer.Length > 0
      modifies this, buffer
      ensures Valid() && IsRun(run, chunks, buffer.Length) && run[0] == old(Observed())
      ensures Greedy(run, chunks, buffer.Length, offers)
      ensures status !in {RecvFailed, KeepAliveFailed} ==> run[|chunks|] == Observed()
      ensures status in {Success, NeedMoreBytes} ==> |chunks| == rounds
      ensures forall ps :: ValidStream(ps) && buffer.Length >= 5 && old(Observed()) == View([], Flatten(ps), []) ==>
                && status in {Success, NeedMoreBytes, RecvFailed, KeepAliveFailed}
                && (patient && Willing(offers, keepAliveOk) ==>
                      && status in {Success, NeedMoreBytes}
                      && (rounds >= |Flatten(ps)| + |ps| ==> Observed() == View([], [], Fitting(ps, buffer.Length))))
    {
      hide Inspect, StepWith, Reports, Oversized, Taken;
      status := Success;
      run, chunks := [Observed()], [];
      ghost var got: nat := 0;
      var round := 0;
      while round < rounds && status in {Success, NeedMoreBytes}
        invariant Valid() && IsRun(run, chunks, buffer.Length) && run[0] == old(Observed())
        invariant Greedy(run, chunks, buffer.Length, offers)
        invariant status !in {RecvFailed, KeepAliveFailed} ==> run[|chunks|] == Observed()
        invariant round <= rounds && (status in {Success, NeedMoreBytes} ==> |chunks| == round)
        invariant status == KeepAliveFailed ==> exists k :: !keepAliveOk(k)
        invariant status == RecvFailed ==>
                    (exists k :: offers(k) < 0)
                    || (|run[|chunks|].buffered| + got <= buffer.Length
                        && Oversized(run[|chunks|], buffer.Length, got, patient))
        invariant status !in {Success, NeedMoreBytes, RecvFailed, KeepAliveFailed} ==>
                    |chunks| > 0 && Reports(run[|chunks| - 1], buffer.Length, chunks[|chunks| - 1], status)
      {
        status, got := ReceiveSingleIteration(true, keepAliveOk(round), offers(round), patient);
        if status !in {RecvFailed, KeepAliveFailed} {
          RunExtends(run, chunks, Observed(), got, buffer.Length);
          GreedyExtends(run, chunks, Observed(), got, buffer.Length, offers);
          run, chunks := run + [Observed()], chunks + [got];
        }
        round := round + 1;
      }
      forall ps | ValidStream(ps) && buffer.Length >= 5 && run[0] == View([], Flatten(ps), [])
        ensures status in {Success, NeedMoreBytes, RecvFailed, KeepAliveFailed}
        ensures patient && Willing(offers, keepAliveOk) ==>
                  && status in {Success, NeedMoreBytes}
                  && (rounds >= |Flatten(ps)| + |ps| ==> Observed() == View([], [], Fitting(ps, buffer.Length)))
      {
        if status !in {Success, NeedMoreBytes, RecvFailed, KeepAliveFailed} {
          LastIsSound(run, chunks, ps, buffer.Length, status);
        }
        if patient && Willing(offers, keepAliveOk) {
          if status == RecvFailed {
            NothingOversized(run, chunks, ps, buffer.Length, got);
          } else if rounds >= |Flatten(ps)| + |ps| {
            GreedyCompletes(run, chunks, ps, buffer.Length, offers);
          }
        }
      }
    }

    /** Shifts the unprocessed bytes to the front of the buffer. */
    method MoveToFront(total: nat)
      requires Valid() && total <= index
      modifies this`index, buffer
      ensures Valid()
      ensures buffer[..index] == old(buffer[total..index])
    {
      ghost var was := buffer[..];
      index := index - total;
      for i := 0 to index
        invariant index == old(index) - total
        invariant buffer[..i] == was[total..total + i] && buffer[i..] == was[i..]
      {
        assert was[total + i] == buffer[i..][total];
        buffer[i] := buffer[total + i];
      }
    }
  }

  // ----- streams of packets

  function Bytes(p: Packet): (bytes: seq<byte>)
    ensures |bytes| >= 2
  {
    [p.kind] + Encode(|p.body|) + p.body
  }

  predicate ValidPacket(p: Packet) {
    IncomingPacketValid(p.kind) && |p.body| <= MAX_REMAINING_LENGTH
  }

  predicate ValidStream(ps: seq<Packet>) {
    forall i :: 0 <= i < |ps| ==> ValidPacket(ps[i])
  }

  function Flatten(ps: seq<Packet>): seq<byte> {
    if ps == [] then [] else Bytes(ps[0]) + Flatten(ps[1..])
  }

  /** The packets that fit a buffer of the given size, in order. */
  function Fitting(ps: seq<Packet>, size: nat): seq<Packet> {
    if ps == [] then []
    else (if |Bytes(ps[0])| <= size then [ps[0]] else []) + Fitting(ps[1..], size)
  }

  lemma {:induction false} BehindKind(kind: byte, code: seq<byte>, body: seq<byte>, rest: seq<byte>)
    ensures ([kind] + code + body + rest)[1..] == code + (body + rest)
  {
  }

  /** Cutting a packet's bytes short leaves its length undecided or decoded, never malformed. */
  lemma {:induction false} DecodePrefix(p: Packet, b: seq<byte>, all: seq<byte>)
    requires ValidPacket(p) && Bytes(p) <= all && b <= all && |b| >= 1
    ensures b[0] == p.kind
    ensures Decode(b[1..]).Incomplete? || Decode(b[1..]) == Length(|p.body|, |Bytes(p)| - |p.body|)
    ensures |b| >= 5 ==> !Decode(b[1..]).Incomplete?
  {
    hide Decode, Encode;
    var code := Encode(|p.body|);
    var rest := all[|Bytes(p)|..];
    assert all == [p.kind] + code + p.body + rest;
    BehindKind(p.kind, code, p.body, rest);
    DecodeEncoded(|p.body|, p.body + rest);
    EncodeLength(|p.body|);
    assert b[0] == all[0];
    assert all[1..] == b[1..] + all[|b|..];
    if !Decode(b[1..]).Incomplete? {
      DecodeIsStable(b[1..], all[|b|..]);
    } else {
      DecodeExactly(b[1..]);
    }
  }

  /** What inspecting the first bytes of a valid packet gives. */
  lemma {:induction false} InspectFront(p: Packet, b: seq<byte>, all: seq<byte>, size: nat)
    requires ValidPacket(p) && Bytes(p) <= all && b <= all && |b| >= 1
    ensures var total := |Bytes(p)|;
            || (Inspect(b, size) == Keep(NeedMoreBytes) && |b| < 5 && |b| < total)
            || Inspect(b, size) == (if total > size then Skip(total)
                                    else if total > |b| then Keep(NeedMoreBytes)
                                    else Take(Packet(p.kind, b[total - |p.body|..total]), b[total..]))
  {
    hide Decode, Encode;
    EncodeLength(|p.body|);
    DecodePrefix(p, b, all);
    var n := |Bytes(p)|;
    if |b| >= n {
      assert b == [p.kind] + Encode(|p.body|) + p.body + b[n..];
      BehindKind(p.kind, Encode(|p.body|), p.body, b[n..]);
      DecodeEncoded(|p.body|, p.body + b[n..]);
    }
  }

  /** On a valid stream the buffer never looks malformed, a packet cut out is the next one of the stream,
      and a packet skipped is a next one too large for the buffer. */
  lemma {:induction false} InspectStream(ps: seq<Packet>, b: seq<byte>, net: seq<byte>, size: nat)
    requires ValidStream(ps) && b + net == Flatten(ps) && |b| <= size && size >= 5
    ensures match Inspect(b, size)
            case Keep(status) => status in {NoDataAvailable, NeedMoreBytes} && |b| < size
                                 && (net == [] ==> b == [] && ps == [])
            case Take(p, rest) => ps != [] && p == ps[0] && |Bytes(p)| <= size && |rest| < |b|
                                  && rest + net == Flatten(ps[1..])
            case Skip(total) => ps != [] && |Bytes(ps[0])| > size && total == |Bytes(ps[0])| <= |b| + |net|
                                && (b + net)[total..] == Flatten(ps[1..])
  {
    if b == [] {
      assert ps != [] ==> |Flatten(ps)| >= 2;
    } else {
      var p := ps[0];
      assert ValidPacket(p) && Flatten(ps) == Bytes(p) + Flatten(ps[1..]);
      hide Inspect, Bytes, Flatten;
      InspectFront(p, b, b + net, size);
      FirstPacket(p, b, net, Flatten(ps[1..]));
      assert |b| + |net| == |Bytes(p)| + |Flatten(ps[1..])|;
    }
  }

  lemma {:induction false} FirstPacket(p: Packet, b: seq<byte>, net: seq<byte>, rest: seq<byte>)
    requires b + net == Bytes(p) + rest
    ensures (b + net)[|Bytes(p)|..] == rest
    ensures |Bytes(p)| <= |b| ==> b[|Bytes(p)| - |p.body|..|Bytes(p)|] == p.body && b[|Bytes(p)|..] + net == rest
  {
    var n := |Bytes(p)|;
    var all := b + net;
    assert all[..n] == Bytes(p) && all[n..] == rest;
    if n <= |b| {
      assert b[..n] == Bytes(p) && b[n..] + net == all[n..];
      assert Bytes(p)[n - |p.body|..] == p.body;
    }
  }

  /** A receiver in step with a stream: what is handled are the fitting packets of a prefix, what is
      buffered or under way is exactly the rest, and there is room to receive. */
  ghost predicate InStep(v: View, ps: seq<Packet>, done: nat, size: nat) {
    && done <= |ps|
    && v.buffered + v.network == Flatten(ps[done..])
    && v.handled == Fitting(ps[..done], size)
    && |v.buffered| < size
  }

  lemma {:induction false} FittingSnoc(ps: seq<Packet>, p: Packet, size: nat)
    ensures Fitting(ps + [p], size) == Fitting(ps, size) + (if |Bytes(p)| <= size then [p] else [])
  {
    if ps == [] {
      assert [] + [p] == [p] && [p][1..] == [];
    } else {
      FittingSnoc(ps[1..], p, size);
      assert (ps + [p])[1..] == ps[1..] + [p];
    }
  }

  /** However many bytes arrive, an iteration keeps the receiver in step. */
  lemma {:induction false} StepKeepsInStep(before: View, after: View, ps: seq<Packet>, done: nat, size: nat, got: nat)
    returns (next: nat)
    requires size >= 5 && ValidStream(ps) && InStep(before, ps, done, size)
    requires StepWith(before, after, size, got) && got <= size - |before.buffered|
    ensures done <= next <= done + 1 && InStep(after, ps, next, size)
    ensures next == done ==> after.buffered + after.network == before.buffered + before.network
    ensures after.network == [] && next == done ==> done == |ps|
  {
    hide Inspect, Flatten, Fitting, Bytes;
    var b, net := before.buffered + before.network[..got], before.network[got..];
    assert b + net == before.buffered + before.network;
    InspectStream(ps[done..], b, net, size);
    if Inspect(b, size).Keep? {
      next := done;
      assert net == [] ==> ps[done..] == [];
    } else {
      next := done + 1;
      assert ps[done..][1..] == ps[next..] && ps[done..][0] == ps[done];
      assert ps[..next] == ps[..done] + [ps[done]];
      FittingSnoc(ps[..done], ps[done], size);
    }
  }

  /** A run: each iteration receives as many bytes as the transport pleases. */
  ghost predicate IsRun(run: seq<View>, chunks: seq<nat>, size: nat) {
    && |run| == |chunks| + 1
    && forall i :: 0 <= i < |chunks| ==>
         |run[i].buffered| + chunks[i] <= size && StepWith(run[i], run[i + 1], size, chunks[i])
  }

  lemma {:induction false} RunExtends(run: seq<View>, chunks: seq<nat>, next: View, got: nat, size: nat)
    requires IsRun(run, chunks, size)
    requires |run[|chunks|].buffered| + got <= size && StepWith(run[|chunks|], next, size, got)
    ensures IsRun(run + [next], chunks + [got], size)
  {
    hide StepWith;
  }

  lemma {:induction false} RunStaysInStep(run: seq<View>, chunks: seq<nat>, ps: seq<Packet>, size: nat)
    returns (done: nat)
    requires size >= 5 && ValidStream(ps) && IsRun(run, chunks, size)
    requires run[0] == View([], Flatten(ps), [])
    ensures InStep(run[|chunks|], ps, done, size)
  {
    if chunks == [] {
      done := 0;
      assert ps[0..] == ps && [] + Flatten(ps) == Flatten(ps);
    } else {
      var n := |chunks| - 1;
      assert IsRun(run[..n + 1], chunks[..n], size);
      var d := RunStaysInStep(run[..n + 1], chunks[..n], ps, size);
      done := StepKeepsInStep(run[n], run[n + 1], ps, d, size, chunks[n]);
    }
  }

  /** On a valid stream no iteration of a run reports a malformed packet. */
  lemma {:induction false} LastIsSound(run: seq<View>, chunks: seq<nat>, ps: seq<Packet>, size: nat, status: Status)
    requires size >= 5 && ValidStream(ps) && IsRun(run, chunks, size) && run[0] == View([], Flatten(ps), [])
    requires chunks != [] && Reports(run[|chunks| - 1], size, chunks[|chunks| - 1], status)
    ensures status in {Success, NeedMoreBytes}
  {
    hide StepWith, Fitting, Flatten, Inspect;
    var n := |chunks| - 1;
    RunParts(run, chunks, size, n);
    var done := RunStaysInStep(run[..n + 1], chunks[..n], ps, size);
    var b, net := run[n].buffered + run[n].network[..chunks[n]], run[n].network[chunks[n]..];
    assert b + net == run[n].buffered + run[n].network;
    InspectStream(ps[done..], b, net, size);
  }

  /** Framing does not depend on chunking: once a run over a valid stream has received everything and
      finds nothing more to cut out, it has handled exactly the packets that fit, in order. */
  lemma {:induction false} ChunkingDoesNotMatter(run: seq<View>, chunks: seq<nat>, ps: seq<Packet>, size: nat)
    requires size >= 5 && ValidStream(ps) && IsRun(run, chunks, size)
    requires run[0] == View([], Flatten(ps), [])
    ensures exists done :: InStep(run[|chunks|], ps, done, size)
    ensures run[|chunks|].network == [] && Inspect(run[|chunks|].buffered, size).Keep? ==>
              run[|chunks|].handled == Fitting(ps, size) && run[|chunks|].buffered == []
  {
    var done := RunStaysInStep(run, chunks, ps, size);
    var last := run[|chunks|];
    InspectStream(ps[done..], last.buffered, last.network, size);
    if last.network == [] && Inspect(last.buffered, size).Keep? {
      assert ps[..done] == ps;
    }
  }

  /** With nothing left under way, each iteration of a receiver in step handles or skips one more packet, until none
      is left. */
  lemma {:induction false} RunDrains(run: seq<View>, chunks: seq<nat>, ps: seq<Packet>, size: nat, done: nat)
    requires size >= 5 && ValidStream(ps) && IsRun(run, chunks, size)
    requires InStep(run[0], ps, done, size) && run[0].network == [] && |chunks| >= |ps| - done
    ensures run[|chunks|].handled == Fitting(ps, size) && run[|chunks|].buffered == run[|chunks|].network == []
    decreases |chunks|
  {
    hide StepWith, Fitting;
    if chunks == [] {
      assert ps[done..] == [] && ps[..done] == ps;
      EmptyRest(run[0], ps, size);
    } else {
      var next := StepKeepsInStep(run[0], run[1], ps, done, size, chunks[0]);
      NothingArrives(run[0], run[1], size, chunks[0]);
      var run', chunks' := run[1..], chunks[1..];
      assert run'[0] == run[1] && run'[|chunks'|] == run[|chunks|];
      RunTail(run, chunks, size);
      RunDrains(run', chunks', ps, size, next);
    }
  }

  lemma {:induction false} EmptyRest(v: View, ps: seq<Packet>, size: nat)
    requires InStep(v, ps, |ps|, size)
    ensures v.handled == Fitting(ps, size) && v.buffered == v.network == []
  {
    assert ps[|ps|..] == [] && ps[..|ps|] == ps;
  }

  lemma {:induction false} RunTail(run: seq<View>, chunks: seq<nat>, size: nat)
    requires IsRun(run, chunks, size) && chunks != []
    ensures IsRun(run[1..], chunks[1..], size)
  {
    hide StepWith;
    forall i | 0 <= i < |chunks| - 1
      ensures |run[1..][i].buffered| + chunks[1..][i] <= size
      ensures StepWith(run[1..][i], run[1..][i + 1], size, chunks[1..][i])
    {
      assert run[1..][i] == run[i + 1] && run[1..][i + 1] == run[i + 2] && chunks[1..][i] == chunks[i + 1];
    }
  }

  lemma {:induction false} NothingArrives(before: View, after: View, size: nat, got: nat)
    requires |before.buffered| + got <= size && StepWith(before, after, size, got) && before.network == []
    ensures after.network == []
  {
    hide Decode, IncomingPacketValid;
  }

  /** Completion: once everything has arrived, as many further iterations as there are packets hand over every packet
      that fits, whatever the splitting before. */
  lemma {:induction false} RunCompletes(run: seq<View>, chunks: seq<nat>, ps: seq<Packet>, size: nat, arrived: nat)
    requires size >= 5 && ValidStream(ps) && IsRun(run, chunks, size) && run[0] == View([], Flatten(ps), [])
    requires arrived + |ps| <= |chunks| && run[arrived].network == []
    ensures run[|chunks|].handled == Fitting(ps, size) && run[|chunks|].buffered == run[|chunks|].network == []
  {
    hide StepWith, Fitting, Flatten, InStep;
    RunParts(run, chunks, size, arrived);
    var done := RunStaysInStep(run[..arrived + 1], chunks[..arrived], ps, size);
    RunDrains(run[arrived..], chunks[arrived..], ps, size, done);
  }

  lemma {:induction false} RunParts(run: seq<View>, chunks: seq<nat>, size: nat, at: nat)
    requires IsRun(run, chunks, size) && at <= |chunks|
    ensures IsRun(run[..at + 1], chunks[..at], size) && IsRun(run[at..], chunks[at..], size)
  {
    hide StepWith;
    forall i | 0 <= i < |chunks| - at
      ensures |run[at..][i].buffered| + chunks[at..][i] <= size
      ensures StepWith(run[at..][i], run[at..][i + 1], size, chunks[at..][i])
    {
      assert run[at..][i] == run[at + i] && run[at..][i + 1] == run[at + i + 1] && chunks[at..][i] == chunks[at + i];
    }
  }

  // ----- runs that take what they are offered

  ghost predicate Greedy(run: seq<View>, chunks: seq<nat>, size: nat, offers: nat -> int) {
    |run| == |chunks| + 1 && forall i :: 0 <= i < |chunks| ==>
      |run[i].buffered| <= size && chunks[i] == Taken(run[i], size, offers(i))
  }

  /** The transport offers something each time, and the keep-alive is never overdue. */
  ghost predicate Willing(offers: nat -> int, keepAliveOk: nat -> bool) {
    forall k :: offers(k) >= 1 && keepAliveOk(k)
  }

  lemma {:induction false} GreedyExtends(run: seq<View>, chunks: seq<nat>, next: View, got: nat, size: nat,
                                         offers: nat -> int)
    requires Greedy(run, chunks, size, offers)
    requires |run[|chunks|].buffered| <= size && got == Taken(run[|chunks|], size, offers(|chunks|))
    ensures Greedy(run + [next], chunks + [got], size, offers)
  {
    hide Taken;
  }

  lemma {:induction false} NothingOversized(run: seq<View>, chunks: seq<nat>, ps: seq<Packet>, size: nat, got: nat)
    requires size >= 5 && ValidStream(ps) && IsRun(run, chunks, size) && run[0] == View([], Flatten(ps), [])
    requires |run[|chunks|].buffered| + got <= size
    ensures !Oversized(run[|chunks|], size, got, true)
  {
    hide StepWith, Fitting, Flatten, Inspect;
    var last := run[|chunks|];
    if got <= |last.network| {
      var done := RunStaysInStep(run, chunks, ps, size);
      assert last.buffered + last.network[..got] + last.network[got..] == last.buffered + last.network;
      InspectStream(ps[done..], last.buffered + last.network[..got], last.network[got..], size);
    }
  }

  /** One byte at least leaves the network each time, until none is left. */
  lemma {:induction false} NetworkDrains(run: seq<View>, chunks: seq<nat>, ps: seq<Packet>, size: nat,
                                         offers: nat -> int, n: nat)
    requires size >= 5 && ValidStream(ps) && IsRun(run, chunks, size) && run[0] == View([], Flatten(ps), [])
    requires Greedy(run, chunks, size, offers) && (forall k :: offers(k) >= 1) && n <= |chunks|
    ensures |run[n].network| <= if n <= |Flatten(ps)| then |Flatten(ps)| - n else 0
    decreases n
  {
    hide StepWith, Fitting, Flatten, InStep, Inspect;
    if n > 0 {
      NetworkDrains(run, chunks, ps, size, offers, n - 1);
      RunParts(run, chunks, size, n - 1);
      var done := RunStaysInStep(run[..n], chunks[..n - 1], ps, size);
      RoomLeft(run[n - 1], ps, done, size);
      NetworkShrinks(run[n - 1], run[n], size, chunks[n - 1]);
      assert offers(n - 1) >= 1;
    }
  }

  lemma {:induction false} RoomLeft(v: View, ps: seq<Packet>, done: nat, size: nat)
    requires InStep(v, ps, done, size)
    ensures |v.buffered| < size
  {
  }

  lemma {:induction false} NetworkShrinks(before: View, after: View, size: nat, got: nat)
    requires |before.buffered| + got <= size && StepWith(before, after, size, got)
    ensures |after.network| <= |before.network| - got
  {
    hide Decode, IncomingPacketValid;
  }

  /** As many iterations as there are bytes and packets hand over every packet that fits. */
  lemma {:induction false} GreedyCompletes(run: seq<View>, chunks: seq<nat>, ps: seq<Packet>, size: nat,
                                           offers: nat -> int)
    requires size >= 5 && ValidStream(ps) && IsRun(run, chunks, size) && run[0] == View([], Flatten(ps), [])
    requires Greedy(run, chunks, size, offers) && (forall k :: offers(k) >= 1)
    requires |chunks| >= |Flatten(ps)| + |ps|
    ensures run[|chunks|] == View([], [], Fitting(ps, size))
  {
    hide StepWith, Fitting, Flatten, InStep, Greedy;
    NetworkDrains(run, chunks, ps, size, offers, |Flatten(ps)|);
    RunCompletes(run, chunks, ps, size, |Flatten(ps)|);
  }

  /** A malformed front blocks the receiver for good: nothing is ever handled again. */
  lemma {:induction false} MalformedFrontBlocks(run: seq<View>, chunks: seq<nat>, size: nat)
    requires IsRun(run, chunks, size) && Inspect(run[0].buffered, size) == Keep(BadResponse)
    ensures run[|chunks|].handled == run[0].handled
    ensures Inspect(run[|chunks|].buffered, size) == Keep(BadResponse)
  {
    hide StepWith, Inspect;
    if chunks != [] {
      var n := |chunks| - 1;
      assert IsRun(run[..n + 1], chunks[..n], size);
      MalformedFrontBlocks(run[..n + 1], chunks[..n], size);
      BlockedStep(run[n], run[n + 1], size, chunks[n]);
    }
  }

  lemma {:induction false} BlockedStep(before: View, after: View, size: nat, got: nat)
    requires StepWith(before, after, size, got) && Inspect(before.buffered, size) == Keep(BadResponse)
    ensures after.handled == before.handled && Inspect(after.buffered, size) == Keep(BadResponse)
  {
    hide Inspect;
    MalformedStays(before.buffered, before.network[..got], size);
  }

  lemma {:induction false} MalformedStays(b: seq<byte>, more: seq<byte>, size: nat)
    requires Inspect(b, size) == Keep(BadResponse)
    ensures Inspect(b + more, size) == Keep(BadResponse)
  {
    hide Decode;
    assert (b + more)[1..] == b[1..] + more;
    if Decode(b[1..]).Malformed? {
      DecodeIsStable(b[1..], more);
    }
  }

  // ----- what a server sends (sections 2.2.1, 2.2.2 and 3 of MQTT 3.1.1)

  /** The control packets a server sends; a `tail` is what the packet's section leaves open. */
  datatype ServerPacket =
    | Connack(sessionPresent: bool, code: byte)
    | Publish(dup: bool, qos: QoS, retain: bool, tail: seq<byte>)
    | Puback(id: uint16)
    | Pubrec(id: uint16)
    | Pubrel(id: uint16)
    | Pubcomp(id: uint16)
    | Suback(id: uint16, tail: seq<byte>)
    | Unsuback(id: uint16)
    | Pingresp

  function IdBytes(id: uint16): seq<byte> {
    [id / 256, id % 256]
  }

  /** Type and flags in the first byte, as tables 2.1 and 2.2 give them, and the body. */
  function OnTheWire(p: ServerPacket): Packet {
    match p
    case Connack(present, code) => Packet(0x20, [if present then 1 else 0, code])
    case Publish(dup, qos, retain, tail) =>
      var q := match qos case QoS0 => 0 case QoS1 => 1 case QoS2 => 2;
      Packet(0x30 + 8 * (if dup then 1 else 0) + 2 * q + (if retain then 1 else 0), tail)
    case Puback(id) => Packet(0x40, IdBytes(id))
    case Pubrec(id) => Packet(0x50, IdBytes(id))
    case Pubrel(id) => Packet(0x62, IdBytes(id))
    case Pubcomp(id) => Packet(0x70, IdBytes(id))
    case Suback(id, tail) => Packet(0x90, IdBytes(id) + tail)
    case Unsuback(id) => Packet(0xB0, IdBytes(id))
    case Pingresp => Packet(0xD0, [])
  }

  function AllOnTheWire(ps: seq<ServerPacket>): seq<Packet> {
    seq(|ps|, i requires 0 <= i < |ps| => OnTheWire(ps[i]))
  }

  /** No packet is larger than the protocol allows. */
  predicate Sendable(ps: seq<ServerPacket>) {
    forall i :: 0 <= i < |ps| ==> |OnTheWire(ps[i]).body| <= MAX_REMAINING_LENGTH
  }

  lemma {:induction false} ServerPacketIsValid(p: ServerPacket)
    ensures IncomingPacketValid(OnTheWire(p).kind)
  {
  }

  lemma {:induction false} SameCount(ps: seq<ServerPacket>)
    ensures |AllOnTheWire(ps)| == |ps|
  {
  }

  /** Every stream of packets a server sends is a valid one. */
  lemma {:induction false} ServerStreamIsValid(ps: seq<ServerPacket>)
    requires Sendable(ps)
    ensures ValidStream(AllOnTheWire(ps))
  {
    hide IncomingPacketValid, OnTheWire;
    forall i | 0 <= i < |ps|
      ensures ValidPacket(AllOnTheWire(ps)[i])
    {
      ServerPacketIsValid(ps[i]);
    }
  }

  /** Whatever a server sends, in whatever chunks it arrives, is handled packet by packet: once everything has arrived,
      as many further iterations as there are packets hand over every one that fits. */
  lemma {:induction false} ServerIsHeard(run: seq<View>, chunks: seq<nat>, ps: seq<ServerPacket>, size: nat,
                                         arrived: nat)
    requires size >= 5 && Sendable(ps) && IsRun(run, chunks, size)
    requires run[0] == View([], Flatten(AllOnTheWire(ps)), [])
    requires arrived + |ps| <= |chunks| && run[arrived].network == []
    ensures run[|chunks|].handled == Fitting(AllOnTheWire(ps), size)
    ensures run[|chunks|].buffered == run[|chunks|].network == []
  {
    hide StepWith, Fitting, Flatten, AllOnTheWire;
    ServerStreamIsValid(ps);
    assert |AllOnTheWire(ps)| == |ps| by { SameCount(ps); }
    RunCompletes(run, chunks, AllOnTheWire(ps), size, arrived);
  }

  /** Types only a client sends, the reserved ones, and a PUBREL without its flag are malformed; the flags of no other
      type but PUBREL are looked at. */
  lemma {:induction false} RefusedExactly(kind: byte, rest: seq<byte>, size: nat)
    ensures kind / 16 in {0, 1, 8, 10, 12, 14, 15} ==> Inspect([kind] + rest, size) == Keep(BadResponse)
    ensures kind / 16 == 6 && kind / 2 % 2 == 0 ==> Inspect([kind] + rest, size) == Keep(BadResponse)
    ensures kind / 16 in {2, 3, 4, 5, 7, 9, 11, 13} || (kind / 16 == 6 && kind / 2 % 2 == 1) ==>
              (Inspect([kind] + rest, size) == Keep(BadResponse) <==> Decode(rest).Malformed?)
  {
    hide Decode;
    assert ([kind] + rest)[1..] == rest;
  }
}
