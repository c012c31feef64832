/** The variable-length integer of section 2.2.3 of MQTT 3.1.1 (core_mqtt_serializer.c). */
module RemainingLength {

  import opened Types

  const MAX_REMAINING_LENGTH := 268435455

  function EncodedSize(length: nat): nat {
    if length < 128 then 1
    else if length < 16384 then 2
    else if length < 2097152 then 3
    else 4
  }

  /** Groups of seven bits, least significant first; the high bit says that more follow. */
  function Encode(length: nat): (bytes: seq<byte>)
    ensures |bytes| > 0
  {
    if length < 128 then [length] else [length % 128 + 128] + Encode(length / 128)
  }

  lemma {:induction false} EncodeLength(length: nat)
    requires length <= MAX_REMAINING_LENGTH
    ensures |Encode(length)| == EncodedSize(length)
  {
    assert length >= 128 ==> |Encode(length)| == 1 + |Encode(length / 128)|;
    assert length >= 16384 ==> |Encode(length / 128)| == 1 + |Encode(length / 128 / 128)|;
    assert length >= 2097152 ==> |Encode(length / 128 / 128)| == 1 + |Encode(length / 128 / 128 / 128)|;
  }

  /** One byte written behind the first `at`. */
  method PutByte(dest: array<byte>, at: nat, b: byte)
    requires at < dest.Length
    modifies dest
    ensures dest[..at + 1] == old(dest[..at]) + [b]
    ensures forall i :: at < i < dest.Length ==> dest[i] == old(dest[i])
  {
    dest[at] := b;
  }

  /** The digit a number ends in and the digits before it. */
  lemma {:induction false} EncodeStep(n: nat)
    ensures if n < 128 then n % 128 == n && n / 128 == 0 && Encode(n) == [n]
            else 0 < n / 128 < n && Encode(n) == [n % 128 + 128] + Encode(n / 128)
  {
  }

  lemma {:induction false} OneMore(a: seq<byte>, b: byte, c: seq<byte>)
    ensures a + [b] + c == a + ([b] + c) && |a + ([b] + c)| == |a| + 1 + |c|
  {
  }

  /** Writes the encoding at `at` and returns the position after it. */
  method EncodeRemainingLength(dest: array<byte>, at: nat, length: nat) returns (end: nat)
    requires at + |Encode(length)| <= dest.Length
    modifies dest
    ensures end == at + |Encode(length)|
    ensures dest[..end] == old(dest[..at]) + Encode(length)
    ensures forall i :: end <= i < dest.Length ==> dest[i] == old(dest[i])
  {
    hide Encode;
    var remaining := length;
    end := at;
    ghost var all := dest[..at] + Encode(length);
    while true
      invariant end <= dest.Length && dest[..end] + Encode(remaining) == all
      invariant forall i :: end <= i < dest.Length ==> dest[i] == old(dest[i])
      decreases remaining
    {
      var lengthByte: byte := remaining % 128;
      ghost var front := dest[..end];
      EncodeStep(remaining);
      remaining := remaining / 128;
      if remaining > 0 {
        lengthByte := lengthByte + 128;
        OneMore(front, lengthByte, Encode(remaining));
      }
      PutByte(dest, end, lengthByte);
      end := end + 1;
      if remaining == 0 {
        break;
      }
    }
  }

  /** What a decoder makes of the bytes after the packet type. */
  datatype Decoded = Length(value: nat, headerLength: nat) | Incomplete | Malformed

  /** 128 to the k, for the four bytes there can be. */
  function Weight(k: nat): nat {
    if k == 0 then 1 else if k == 1 then 128 else if k == 2 then 16384 else if k == 3 then 2097152 else 268435456
  }

  /** The decoding loop after k bytes that all asked for more. */
  function DecodeFrom(bytes: seq<byte>, k: nat, value: nat): Decoded
    requires k <= 4
    decreases 4 - k
  {
    if k == 4 then Malformed
    else if |bytes| <= k then Incomplete
    else
      var sum: nat := value + bytes[k] % 128 * Weight(k);
      if bytes[k] >= 128 then DecodeFrom(bytes, k + 1, sum)
      else if EncodedSize(sum) != k + 1 then Malformed
      else Length(sum, k + 2)
  }

  function Decode(bytes: seq<byte>): Decoded {
    DecodeFrom(bytes, 0, 0)
  }

  /** One round of the decoding loop. */
  lemma {:induction false} DecodeStep(bytes: seq<byte>, k: nat, value: nat, sum: nat)
    requires k < 4 && k < |bytes| && sum == value + bytes[k] % 128 * Weight(k)
    ensures DecodeFrom(bytes, k, value)
         == if bytes[k] >= 128 then DecodeFrom(bytes, k + 1, sum)
            else if EncodedSize(sum) != k + 1 then Malformed
            else Length(sum, k + 2)
  {
    hide Weight, EncodedSize;
  }

  /** Where the decoding loop stops unasked. */
  lemma {:induction false} DecodeStops(bytes: seq<byte>, k: nat, value: nat)
    requires k <= 4
    ensures k == 4 ==> DecodeFrom(bytes, k, value) == Malformed
    ensures k < 4 && |bytes| <= k ==> DecodeFrom(bytes, k, value) == Incomplete
  {
  }

  lemma {:induction false} WeightNext(k: nat)
    requires k <= 4
    ensures Weight(0) == 1 && Weight(k) > 0 && (Weight(k) > 2097152 <==> k == 4)
    ensures k < 4 ==> Weight(k + 1) == Weight(k) * 128
  {
  }

  /** Decodes the length in a receive buffer of which `index` bytes, packet type included, are filled. */
  method ProcessRemainingLength(buffer: array<byte>, index: nat) returns (r: Decoded)
    requires 1 <= index <= buffer.Length
    ensures r == Decode(buffer[1..index])
  {
    hide DecodeFrom, Weight, EncodedSize;
    var remainingLength: nat, multiplier: nat, bytesDecoded: nat := 0, 1, 0;
    ghost var bytes := buffer[1..index];
    WeightNext(0);
    while true
      invariant bytesDecoded <= 4 && multiplier == Weight(bytesDecoded)
      invariant DecodeFrom(bytes, bytesDecoded, remainingLength) == Decode(bytes)
      decreases 4 - bytesDecoded
    {
      WeightNext(bytesDecoded);
      DecodeStops(bytes, bytesDecoded, remainingLength);
      if multiplier > 2097152 {
        return Malformed;
      }
      if index <= bytesDecoded + 1 {
        return Incomplete;
      }
      var encodedByte := buffer[bytesDecoded + 1];
      assert encodedByte == bytes[bytesDecoded];
      ghost var before := remainingLength;
      remainingLength := remainingLength + encodedByte % 128 * multiplier;
      DecodeStep(bytes, bytesDecoded, before, remainingLength);
      multiplier := multiplier * 128;
      bytesDecoded := bytesDecoded + 1;
      if encodedByte < 128 {
        break;
      }
    }
    var expectedSize := EncodedSize(remainingLength);
    if bytesDecoded != expectedSize {
      r := Malformed;
    } else {
      r := Length(remainingLength, bytesDecoded + 1);
    }
  }

  /** The stream decoder: one byte at a time from the transport; `stream` is what it will deliver before
      it comes back empty-handed. Also reports how many bytes it took. */
  method GetRemainingLength(stream: seq<byte>) returns (value: nat, valid: bool, taken: nat)
    ensures taken <= |stream|
    ensures valid <==> Decode(stream).Length?
    ensures valid ==> value == Decode(stream).value && taken + 1 == Decode(stream).headerLength
  {
    hide DecodeFrom, Weight, EncodedSize;
    var multiplier: nat, bytesDecoded: nat := 1, 0;
    value, valid, taken := 0, true, 0;
    WeightNext(0);
    while true
      invariant bytesDecoded == taken <= 4 && taken <= |stream| && multiplier == Weight(bytesDecoded)
      invariant DecodeFrom(stream, bytesDecoded, value) == Decode(stream)
      invariant valid
      decreases 4 - bytesDecoded
    {
      WeightNext(bytesDecoded);
      DecodeStops(stream, bytesDecoded, value);
      if multiplier > 2097152 || taken == |stream| {
        valid := false;
        return;
      }
      var encodedByte := stream[taken];
      taken := taken + 1;
      ghost var before := value;
      value := value + encodedByte % 128 * multiplier;
      DecodeStep(stream, bytesDecoded, before, value);
      multiplier := multiplier * 128;
      bytesDecoded := bytesDecoded + 1;
      if encodedByte < 128 {
        break;
      }
    }
    valid := bytesDecoded == EncodedSize(value);
  }

  // ----- the decoder inverts the encoder, and accepts nothing else

  /** The bytes start with the encoding of a length the protocol allows. */
  predicate Starts(bytes: seq<byte>, value: nat) {
    value <= MAX_REMAINING_LENGTH && Encode(value) <= bytes
  }

  /** Fewer than four bytes, all asking for more. */
  predicate Unfinished(bytes: seq<byte>) {
    |bytes| < 4 && forall i :: 0 <= i < |bytes| ==> bytes[i] >= 128
  }

  lemma {:induction false} DecodeEncoded(value: nat, rest: seq<byte>)
    requires value <= MAX_REMAINING_LENGTH
    ensures Decode(Encode(value) + rest) == Length(value, 1 + EncodedSize(value))
  {
    EncodeLength(value);
    var bytes := Encode(value) + rest;
    assert bytes[0..] == bytes && Encode(value) <= bytes;
    DecodeTail(bytes, 0, 0, value, value);
  }

  /** After k bytes the part q of the value is still to come. */
  lemma {:induction false} DecodeTail(bytes: seq<byte>, k: nat, sum: nat, q: nat, value: nat)
    requires k < 4 && k < |bytes| && sum + q * Weight(k) == value <= MAX_REMAINING_LENGTH
    requires Encode(q) <= bytes[k..] && EncodedSize(value) == k + |Encode(q)|
    ensures DecodeFrom(bytes, k, sum) == Length(value, 1 + EncodedSize(value))
    decreases q
  {
    hide Weight, EncodedSize, Encode, DecodeFrom;
    var low, high := EncodeParts(q);
    DecodeStep(bytes, k, sum, sum + low * Weight(k));
    assert bytes[k] == bytes[k..][0] == Encode(q)[0];
    WeightStep(sum, q, k, low, high);
    if q >= 128 {
      assert bytes[k + 1..] == bytes[k..][1..];
      DecodeTail(bytes, k + 1, sum + low * Weight(k), high, value);
    }
  }

  /** The first byte of an encoding and what the other bytes encode. */
  lemma {:induction false} EncodeParts(q: nat) returns (low: nat, high: nat)
    ensures low < 128 && q == low + 128 * high && low == Encode(q)[0] % 128
    ensures if q < 128 then Encode(q)[0] < 128 && |Encode(q)| == 1
            else Encode(q)[0] >= 128 && Encode(q)[1..] == Encode(high) && high < q
  {
    low, high := q % 128, q / 128;
  }

  lemma {:induction false} WeightStep(sum: nat, q: nat, k: nat, low: nat, high: nat)
    requires k < 4 && sum + q * Weight(k) <= MAX_REMAINING_LENGTH && low < 128 && q == low + 128 * high
    ensures q < 128 ==> low * Weight(k) == q * Weight(k)
    ensures q >= 128 ==> k < 3 && sum + low * Weight(k) + high * Weight(k + 1) == sum + q * Weight(k)
  {
  }

  /** The value of a group of bytes, least significant first. */
  function ValueOf(bytes: seq<byte>): nat {
    if bytes == [] then 0 else bytes[0] % 128 + 128 * ValueOf(bytes[1..])
  }

  /** All bytes but the last ask for more. */
  predicate Chained(bytes: seq<byte>) {
    |bytes| > 0 && bytes[|bytes| - 1] < 128 && forall i :: 0 <= i < |bytes| - 1 ==> bytes[i] >= 128
  }

  lemma {:induction false} DecodedValue(bytes: seq<byte>, k: nat, sum: nat)
    requires k <= 4 && DecodeFrom(bytes, k, sum).Length?
    ensures var d := DecodeFrom(bytes, k, sum);
            && k < d.headerLength - 1 <= |bytes| && Chained(bytes[k..d.headerLength - 1])
            && d.value == sum + Weight(k) * ValueOf(bytes[k..d.headerLength - 1])
            && EncodedSize(d.value) == d.headerLength - 1
    decreases 4 - k
  {
    hide ValueOf, Weight, EncodedSize, Chained, DecodeFrom;
    DecodeStops(bytes, k, sum);
    var next: nat := sum + bytes[k] % 128 * Weight(k);
    DecodeStep(bytes, k, sum, next);
    if bytes[k] >= 128 {
      DecodedValue(bytes, k + 1, next);
      var n := DecodeFrom(bytes, k, sum).headerLength - 1;
      var rest := bytes[k + 1..n];
      assert bytes[k..n] == [bytes[k]] + rest;
      ValueOfCons(bytes[k], rest);
      WeightTimes(k, sum, bytes[k] % 128, ValueOf(rest));
    } else {
      assert bytes[k..k + 1] == [bytes[k]] + [];
      ValueOfCons(bytes[k], []);
    }
  }

  lemma {:induction false} ValueOfCons(b: byte, rest: seq<byte>)
    ensures ValueOf([b] + rest) == b % 128 + 128 * ValueOf(rest)
    ensures rest == [] ==> ValueOf([b] + rest) == b % 128
    ensures (b >= 128 && Chained(rest)) || (b < 128 && rest == []) ==> Chained([b] + rest)
  {
    assert ([b] + rest)[1..] == rest;
  }

  lemma {:induction false} WeightTimes(k: nat, sum: nat, b: nat, v: nat)
    requires k <= 3
    ensures sum + b * Weight(k) + Weight(k + 1) * v == sum + Weight(k) * (b + 128 * v)
  {
  }

  /** A chain that ends in a significant byte is the encoding of its value. */
  lemma {:induction false} ChainIsEncoding(bytes: seq<byte>)
    requires Chained(bytes) && (|bytes| > 1 ==> bytes[|bytes| - 1] > 0)
    ensures Encode(ValueOf(bytes)) == bytes
    ensures |bytes| > 1 ==> ValueOf(bytes) >= 128
    ensures ValueOf(bytes) >= bytes[|bytes| - 1]
  {
    if |bytes| == 1 {
      assert ValueOf(bytes[1..]) == 0;
    } else {
      ChainIsEncoding(bytes[1..]);
      var v := ValueOf(bytes);
      assert v % 128 == bytes[0] % 128 && v / 128 == ValueOf(bytes[1..]);
      assert v >= 128;
    }
  }

  /** A chain that ends in a zero byte is longer than the encoding of its value. */
  lemma {:induction false} PaddedIsShort(bytes: seq<byte>)
    requires Chained(bytes) && 1 < |bytes| <= 4 && bytes[|bytes| - 1] == 0
    ensures ValueOf(bytes) < Weight(|bytes| - 1)
  {
    assert bytes[1..][|bytes| - 2] == 0;
    if |bytes| > 2 {
      PaddedIsShort(bytes[1..]);
    } else {
      assert ValueOf(bytes[1..]) == bytes[1] % 128 + 128 * ValueOf(bytes[1..][1..]);
    }
  }

  /** What is decoded is canonical: re-encoding it gives the bytes that were read. */
  lemma {:induction false} DecodedIsCanonical(bytes: seq<byte>)
    requires Decode(bytes).Length?
    ensures Starts(bytes, Decode(bytes).value)
    ensures Decode(bytes).headerLength == 1 + EncodedSize(Decode(bytes).value)
  {
    DecodedValue(bytes, 0, 0);
    var n := Decode(bytes).headerLength - 1;
    var head := bytes[0..n];
    if n > 1 && head[n - 1] == 0 {
      PaddedIsShort(head);
    }
    ChainIsEncoding(head);
    assert head <= bytes;
    FourBytesFit(head);
  }

  lemma {:induction false} FourBytesFit(bytes: seq<byte>)
    requires |bytes| <= 4
    ensures ValueOf(bytes) < Weight(|bytes|) <= MAX_REMAINING_LENGTH + 1
  {
    if bytes != [] { FourBytesFit(bytes[1..]); }
  }

  /** The decoder succeeds exactly on canonical encodings, asks for more exactly on incomplete ones and
      rejects everything else. */
  lemma {:induction false} DecodeExactly(bytes: seq<byte>)
    ensures Decode(bytes).Length? <==> exists value :: Starts(bytes, value)
    ensures forall value :: Starts(bytes, value) ==> Decode(bytes) == Length(value, 1 + EncodedSize(value))
    ensures Decode(bytes).Incomplete? <==> Unfinished(bytes)
  {
    if Decode(bytes).Length? {
      DecodedIsCanonical(bytes);
    }
    forall value | Starts(bytes, value)
      ensures Decode(bytes) == Length(value, 1 + EncodedSize(value))
    {
      EncodeLength(value);
      assert bytes == Encode(value) + bytes[|Encode(value)|..];
      DecodeEncoded(value, bytes[|Encode(value)|..]);
    }
  }

  /** Bytes that arrive later never change a verdict already given. */
  lemma {:induction false} DecodeIsStable(bytes: seq<byte>, more: seq<byte>)
    requires !Decode(bytes).Incomplete?
    ensures Decode(bytes + more) == Decode(bytes)
  {
    assert forall i :: 0 <= i < |bytes| ==> (bytes + more)[i] == bytes[i];
  }
}
