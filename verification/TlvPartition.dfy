/** The walk over the certificate partition (esp_secure_cert_tlv_read.c) against a list of entries. */
module TlvPartition {

  import opened Types

  /** 0xBA5EBA11, least significant byte first. */
  const MAGIC: seq<byte> := [0x11, 0xBA, 0x5E, 0xBA]
  const HEADER_SIZE := 12
  const FOOTER_SIZE := 4
  const ALIGNMENT := 16
  const TYPE_END: byte := 50
  const SUBTYPE_MAX: byte := 254

  /** What the flash holds for one entry. */
  datatype Entry = Entry(flags: byte, reserved: seq<byte>, kind: byte, subtype: byte,
                         value: seq<byte>, padding: seq<byte>, crc: seq<byte>)

  /** The checksum of the platform, as the four bytes a footer stores. */
  type Checksum = seq<byte> -> seq<byte>

  // ----- lengths

  function PaddingLength(length: uint16): (p: nat) {
    (ALIGNMENT - length % ALIGNMENT) % ALIGNMENT
  }

  /** Computed in sixteen bits, as the source does. */
  function TotalLength(length: uint16): uint16 {
    (HEADER_SIZE + length + PaddingLength(length) + FOOTER_SIZE) % 0x1_0000
  }

  /** The sixteen-bit offset of the next entry. */
  function Advance(offset: uint16, length: uint16): uint16 {
    (offset + TotalLength(length)) % 0x1_0000
  }

  /** The stored length is always aligned; it is the true size exactly up to 65504 bytes of data, and
      it vanishes, so that a walk would not advance, exactly for the sixteen lengths after that. */
  lemma {:induction false} TotalLengthExact(length: uint16)
    ensures TotalLength(length) % ALIGNMENT == 0
    ensures TotalLength(length) == HEADER_SIZE + length + PaddingLength(length) + FOOTER_SIZE <==> length <= 65504
    ensures TotalLength(length) == 0 <==> 65505 <= length <= 65520
    ensures PaddingLength(length) < ALIGNMENT
  {
    var q, r := length / ALIGNMENT, length % ALIGNMENT;
    assert length == ALIGNMENT * q + r && 0 <= r < ALIGNMENT;
    if r == 0 {
      assert PaddingLength(length) == 0;
      assert TotalLength(length) == (ALIGNMENT * (q + 1)) % 0x1_0000;
    } else {
      assert PaddingLength(length) == ALIGNMENT - r;
      assert TotalLength(length) == (ALIGNMENT * (q + 2)) % 0x1_0000;
    }
  }

  /** An entry with that much data holds the walk where it is, for good; no other length does. */
  lemma {:induction false} WalkStandsStill(offset: uint16, length: uint16)
    ensures Advance(offset, length) == offset <==> 65505 <= length <= 65520
  {
    TotalLengthExact(length);
  }

  // ----- entries in flash

  ghost predicate WellFormed(e: Entry) {
    && |e.reserved| == 3 && |e.crc| == FOOTER_SIZE
    && |e.value| < 0x1_0000 && |e.padding| == PaddingLength(|e.value|)
  }

  /** What the checksum covers: header, data and padding. */
  ghost function Body(e: Entry): (s: seq<byte>)
    requires WellFormed(e)
    ensures |s| == HEADER_SIZE + |e.value| + |e.padding|
  {
    [0x11, 0xBA, 0x5E, 0xBA] + [e.flags] + e.reserved + [e.kind, e.subtype, |e.value| % 256, |e.value| / 256]
    + e.value + e.padding
  }

  ghost function Bytes(e: Entry): seq<byte>
    requires WellFormed(e)
  {
    Body(e) + e.crc
  }

  ghost predicate Good(e: Entry, crc32: Checksum)
    requires WellFormed(e)
  {
    crc32(Body(e)) == e.crc
  }

  ghost predicate AllWellFormed(entries: seq<Entry>) {
    forall i :: 0 <= i < |entries| ==> WellFormed(entries[i])
  }

  ghost function Layout(entries: seq<Entry>): seq<byte>
    requires AllWellFormed(entries)
  {
    if entries == [] then [] else Layout(entries[..|entries| - 1]) + Bytes(entries[|entries| - 1])
  }

  /** Where entry i starts; for i = |entries|, the end address. */
  ghost function Offset(entries: seq<Entry>, i: nat): (offset: nat)
    requires AllWellFormed(entries) && i <= |entries|
    ensures offset == |Layout(entries[..i])|
  {
    |Layout(entries[..i])|
  }

  /** A partition: the entries, then a word that is not the magic; short enough for a 16-bit offset. */
  ghost predicate Holds(flash: seq<byte>, entries: seq<Entry>) {
    && AllWellFormed(entries) && |Layout(entries)| < 0x1_0000
    && Layout(entries) <= flash && |Layout(entries)| + 4 <= |flash|
    && flash[|Layout(entries)|..|Layout(entries)| + 4] != MAGIC
  }

  lemma {:induction false} OffsetStep(entries: seq<Entry>, i: nat)
    requires AllWellFormed(entries) && i < |entries|
    ensures Offset(entries, i + 1) == Offset(entries, i) + |Bytes(entries[i])|
    ensures Layout(entries[..i + 1]) == Layout(entries[..i]) + Bytes(entries[i])
  {
    assert entries[..i + 1][..i] == entries[..i];
  }

  lemma {:induction false} LayoutPrefix(entries: seq<Entry>, i: nat)
    requires AllWellFormed(entries) && i <= |entries|
    ensures Layout(entries[..i]) <= Layout(entries)
    decreases |entries| - i
  {
    if i < |entries| {
      OffsetStep(entries, i);
      LayoutPrefix(entries, i + 1);
    } else {
      assert entries[..i] == entries;
    }
  }

  lemma {:induction false} OffsetsAscend(entries: seq<Entry>, i: nat, j: nat)
    requires AllWellFormed(entries) && i <= j <= |entries|
    ensures Offset(entries, i) + HEADER_SIZE * (j - i) <= Offset(entries, j)
  {
    if i < j {
      OffsetStep(entries, j - 1);
      OffsetsAscend(entries, i, j - 1);
    }
  }

  /** The bytes of entry i lie at its offset. */
  lemma {:induction false} EntryInFlash(flash: seq<byte>, entries: seq<Entry>, i: nat)
    requires Holds(flash, entries) && i < |entries|
    ensures Offset(entries, i) + |Bytes(entries[i])| == Offset(entries, i + 1) <= |Layout(entries)|
    ensures flash[Offset(entries, i)..Offset(entries, i + 1)] == Bytes(entries[i])
  {
    hide Bytes, WellFormed, Layout;
    OffsetStep(entries, i);
    LayoutPrefix(entries, i + 1);
    var before, here := Layout(entries[..i]), Bytes(entries[i]);
    assert flash[..|before + here|] == before + here;
    assert flash[|before|..|before + here|] == (before + here)[|before|..];
  }

  lemma {:induction false} Start(entries: seq<Entry>)
    requires AllWellFormed(entries)
    ensures Offset(entries, 0) == 0
  {
    assert entries[..0] == [];
  }

  // ----- reading

  predicate Readable(flash: seq<byte>, at: nat, n: nat) {
    at + n <= |flash|
  }

  function HasMagic(flash: seq<byte>, at: nat): bool
    requires Readable(flash, at, 4)
  {
    flash[at..at + 4] == MAGIC
  }

  function KindAt(flash: seq<byte>, at: nat): byte
    requires Readable(flash, at, HEADER_SIZE)
  {
    flash[at + 8]
  }

  function SubtypeAt(flash: seq<byte>, at: nat): byte
    requires Readable(flash, at, HEADER_SIZE)
  {
    flash[at + 9]
  }

  function LengthAt(flash: seq<byte>, at: nat): uint16
    requires Readable(flash, at, HEADER_SIZE)
  {
    var low: int, high: int := flash[at + 10], flash[at + 11];
    low + 256 * high
  }

  lemma {:induction false} NoWrap(offset: uint16, length: uint16)
    requires offset + TotalLength(length) < 0x1_0000
    ensures Advance(offset, length) == offset + TotalLength(length)
  {
    hide TotalLength;
  }

  lemma {:induction false} ReadHeader(flash: seq<byte>, o: nat, e: Entry)
    requires WellFormed(e) && o + |Bytes(e)| <= |flash| && flash[o..o + |Bytes(e)|] == Bytes(e)
    ensures Readable(flash, o, HEADER_SIZE) && HasMagic(flash, o)
    ensures KindAt(flash, o) == e.kind && SubtypeAt(flash, o) == e.subtype && LengthAt(flash, o) == |e.value|
  {
    BodyFields(e);
    hide Bytes;
    FieldsMove(flash, o, Bytes(e));
  }

  /** A header read at the offset of an entry shows that entry's fields, and its total length leads to the next. */
  lemma {:induction false} HeaderAt(flash: seq<byte>, entries: seq<Entry>, i: nat)
    requires Holds(flash, entries) && i < |entries|
    ensures Readable(flash, Offset(entries, i), HEADER_SIZE) && HasMagic(flash, Offset(entries, i))
    ensures KindAt(flash, Offset(entries, i)) == entries[i].kind
    ensures SubtypeAt(flash, Offset(entries, i)) == entries[i].subtype
    ensures LengthAt(flash, Offset(entries, i)) == |entries[i].value|
    ensures Offset(entries, i) + TotalLength(|entries[i].value|) == Offset(entries, i + 1) < 0x1_0000
    ensures Advance(Offset(entries, i), |entries[i].value|) == Offset(entries, i + 1)
  {
    EntryInFlash(flash, entries, i);
    SizeOfEntry(entries[i]);
    hide Advance, Bytes, Offset, Layout, TotalLength, HasMagic, KindAt, SubtypeAt, LengthAt, WellFormed;
    NoWrap(Offset(entries, i), |entries[i].value|);
    ReadHeader(flash, Offset(entries, i), entries[i]);
  }

  lemma {:induction false} BodyFields(e: Entry)
    requires WellFormed(e)
    ensures |Bytes(e)| >= HEADER_SIZE && Bytes(e)[..4] == MAGIC
    ensures Bytes(e)[8] == e.kind && Bytes(e)[9] == e.subtype
    ensures Bytes(e)[10] == |e.value| % 256 && Bytes(e)[11] == |e.value| / 256
  {
  }

  lemma {:induction false} SizeOfEntry(e: Entry)
    requires WellFormed(e) && |Bytes(e)| < 0x1_0000
    ensures TotalLength(|e.value|) == |Bytes(e)|
  {
    TotalLengthExact(|e.value|);
  }

  lemma {:induction false} FieldsMove(flash: seq<byte>, o: nat, s: seq<byte>)
    requires |s| >= HEADER_SIZE && o + |s| <= |flash| && flash[o..o + |s|] == s
    ensures flash[o..o + 4] == s[..4]
    ensures forall k :: 0 <= k < |s| ==> flash[o + k] == s[k]
  {
    forall k | 0 <= k < |s| ensures flash[o + k] == s[k] {
      assert flash[o..o + |s|][k] == flash[o + k];
    }
    assert flash[o..o + |s|][..4] == flash[o..o + 4];
  }

  /** esp_secure_cert_verify_tlv_integrity: true at an entry iff its checksum holds, false at the end. */
  method VerifyIntegrity(flash: seq<byte>, at: nat, crc32: Checksum, ghost entries: seq<Entry>, ghost i: nat)
    returns (ok: bool)
    requires Holds(flash, entries) && i <= |entries| && at == Offset(entries, i)
    ensures ok <==> i < |entries| && Good(entries[i], crc32)
  {
    Next(flash, entries, i);
    if i < |entries| {
      HeaderAt(flash, entries, i);
      Covered(flash, entries, i);
      GoodIff(entries, i, crc32);
    }
    hide Body, Holds, Offset, Layout, WellFormed, HasMagic, LengthAt, PaddingLength, Good;
    if !HasMagic(flash, at) {
      return false;
    }
    var length := LengthAt(flash, at);
    var covered := HEADER_SIZE + length + PaddingLength(length);
    ok := flash[at + covered..at + covered + FOOTER_SIZE] == crc32(flash[at..at + covered]);
  }

  lemma {:induction false} GoodIff(entries: seq<Entry>, i: nat, crc32: Checksum)
    requires AllWellFormed(entries) && i < |entries|
    ensures Good(entries[i], crc32) <==> crc32(Body(entries[i])) == entries[i].crc
  {
    hide WellFormed, Body;
  }

  /** The checksummed part of an entry and its footer, as they lie in flash. */
  lemma {:induction false} Covered(flash: seq<byte>, entries: seq<Entry>, i: nat)
    requires Holds(flash, entries) && i < |entries|
    ensures |Body(entries[i])| == HEADER_SIZE + |entries[i].value| + PaddingLength(|entries[i].value|)
    ensures Offset(entries, i) + |Body(entries[i])| + FOOTER_SIZE <= |flash|
    ensures flash[Offset(entries, i)..Offset(entries, i) + |Body(entries[i])|] == Body(entries[i])
    ensures flash[Offset(entries, i) + |Body(entries[i])|..Offset(entries, i) + |Body(entries[i])| + FOOTER_SIZE]
         == entries[i].crc
  {
    EntryInFlash(flash, entries, i);
    hide Body, Offset, Layout, PaddingLength;
    SplitFooter(flash, Offset(entries, i), Body(entries[i]), entries[i].crc);
  }

  lemma {:induction false} SplitFooter(flash: seq<byte>, o: nat, body: seq<byte>, crc: seq<byte>)
    requires o + |body| + |crc| <= |flash| && flash[o..o + |body| + |crc|] == body + crc
    ensures flash[o..o + |body|] == body
    ensures flash[o + |body|..o + |body| + |crc|] == crc
  {
    assert (body + crc)[..|body|] == body && (body + crc)[|body|..] == crc;
    assert flash[o..o + |body| + |crc|][..|body|] == flash[o..o + |body|];
    assert flash[o..o + |body| + |crc|][|body|..] == flash[o + |body|..o + |body| + |crc|];
  }

  /** Only the end offset lacks the magic. */
  lemma {:induction false} EndOfWalk(flash: seq<byte>, entries: seq<Entry>)
    requires Holds(flash, entries)
    ensures Offset(entries, |entries|) == |Layout(entries)|
    ensures Readable(flash, |Layout(entries)|, 4) && !HasMagic(flash, |Layout(entries)|)
  {
    assert entries[..|entries|] == entries;
  }

  // ----- finding

  datatype Cursor = Null | Pointer(offset: nat)

  datatype Found = At(offset: nat) | Fail

  /** The entry a query addresses: the last of its type for the highest subtype, else the first match. */
  ghost predicate Addressed(entries: seq<Entry>, kind: byte, subtype: byte, i: nat) {
    && i < |entries| && entries[i].kind == kind
    && if subtype == 254 then forall j :: i < j < |entries| ==> entries[j].kind != kind
       else entries[i].subtype == subtype && NoneBefore(entries, kind, subtype, i)
  }

  ghost predicate NoneBefore(entries: seq<Entry>, kind: byte, subtype: byte, n: nat) {
    forall j :: 0 <= j < n && j < |entries| ==> entries[j].kind != kind || entries[j].subtype != subtype
  }

  ghost predicate Present(entries: seq<Entry>, kind: byte, subtype: byte) {
    exists i ::
      0 <= i < |entries| && entries[i].kind == kind && (subtype == 254 || entries[i].subtype == subtype)
  }

  lemma {:induction false} AddressedIsUnique(entries: seq<Entry>, kind: byte, subtype: byte, i: nat, j: nat)
    requires Addressed(entries, kind, subtype, i) && Addressed(entries, kind, subtype, j)
    ensures i == j
  {
  }

  // ----- the latest entry of a type against the one with the highest subtype

  /** The subtypes of the entries of a type, in flash order. */
  ghost function Subtypes(entries: seq<Entry>, kind: byte): seq<byte> {
    if entries == [] then []
    else
      var last := entries[|entries| - 1];
      Subtypes(entries[..|entries| - 1], kind) + if last.kind == kind then [last.subtype] else []
  }

  ghost predicate LastIsMaximum(xs: seq<byte>) {
    xs != [] && forall k :: 0 <= k < |xs| ==> xs[k] <= xs[|xs| - 1]
  }

  ghost predicate Ascending(xs: seq<byte>) {
    forall j, k :: 0 <= j < k < |xs| ==> xs[j] <= xs[k]
  }

  /** No entry of the type has a higher subtype than entry i. */
  ghost predicate Highest(entries: seq<Entry>, kind: byte, i: nat) {
    && i < |entries| && entries[i].kind == kind
    && forall j :: 0 <= j < |entries| && entries[j].kind == kind ==> entries[j].subtype <= entries[i].subtype
  }

  lemma {:induction false} SubtypesOf(entries: seq<Entry>, kind: byte)
    ensures forall j :: 0 <= j < |entries| && entries[j].kind == kind ==> entries[j].subtype in Subtypes(entries, kind)
    ensures forall x :: x in Subtypes(entries, kind) ==>
              exists j :: 0 <= j < |entries| && entries[j].kind == kind && entries[j].subtype == x
  {
    if entries != [] {
      var n := |entries| - 1;
      var before := entries[..n];
      SubtypesOf(before, kind);
      forall j | 0 <= j < |entries| && entries[j].kind == kind
        ensures entries[j].subtype in Subtypes(entries, kind)
      {
        assert j < n ==> before[j] == entries[j];
      }
      forall x | x in Subtypes(entries, kind)
        ensures exists j :: 0 <= j < |entries| && entries[j].kind == kind && entries[j].subtype == x
      {
        if x in Subtypes(before, kind) {
          var j :| 0 <= j < n && before[j].kind == kind && before[j].subtype == x;
          assert entries[j] == before[j];
        } else {
          assert entries[n].subtype == x;
        }
      }
    }
  }

  lemma {:induction false} LatestSubtype(entries: seq<Entry>, kind: byte, i: nat)
    requires Addressed(entries, kind, SUBTYPE_MAX, i)
    ensures Subtypes(entries, kind) != []
    ensures Subtypes(entries, kind)[|Subtypes(entries, kind)| - 1] == entries[i].subtype
  {
    if i < |entries| - 1 {
      LatestSubtype(entries[..|entries| - 1], kind, i);
    }
  }

  /** Asked for the highest subtype, the walk addresses the last entry of the type; that is the highest if and only if
      the last of the type's subtypes, in flash order, is their maximum. */
  lemma {:induction false} LatestIsHighestIff(entries: seq<Entry>, kind: byte, i: nat)
    requires Addressed(entries, kind, SUBTYPE_MAX, i)
    ensures Highest(entries, kind, i) <==> LastIsMaximum(Subtypes(entries, kind))
  {
    hide Subtypes;
    var xs := Subtypes(entries, kind);
    SubtypesOf(entries, kind);
    LatestSubtype(entries, kind, i);
    if Highest(entries, kind, i) {
      forall k | 0 <= k < |xs| ensures xs[k] <= xs[|xs| - 1] {
        assert xs[k] in xs;
      }
    }
  }

  /** Writing the entries of a type in the order of their subtypes is enough. */
  lemma {:induction false} AscendingIsEnough(entries: seq<Entry>, kind: byte, i: nat)
    requires Addressed(entries, kind, SUBTYPE_MAX, i) && Ascending(Subtypes(entries, kind))
    ensures Highest(entries, kind, i)
  {
    hide Subtypes;
    LatestSubtype(entries, kind, i);
    LatestIsHighestIff(entries, kind, i);
  }

  /** The offset is that of an entry with the highest subtype of its type. */
  ghost predicate HighestAt(entries: seq<Entry>, kind: byte, offset: nat)
    requires AllWellFormed(entries)
  {
    exists i: nat :: Highest(entries, kind, i) && Offset(entries, i) == offset
  }

  lemma {:induction false} SameOffset(entries: seq<Entry>, i: nat, j: nat)
    requires AllWellFormed(entries) && i < |entries| && j < |entries| && Offset(entries, i) == Offset(entries, j)
    ensures i == j
  {
    hide Offset;
    if i < j {
      OffsetsAscend(entries, i, j);
    } else if j < i {
      OffsetsAscend(entries, j, i);
    }
  }

  /** What a search for the highest subtype returns, if it returns an entry. */
  lemma {:induction false} FoundHighestIff(entries: seq<Entry>, kind: byte, i: nat)
    requires AllWellFormed(entries) && Addressed(entries, kind, SUBTYPE_MAX, i)
    ensures HighestAt(entries, kind, Offset(entries, i)) <==> LastIsMaximum(Subtypes(entries, kind))
  {
    hide Offset, Subtypes, LastIsMaximum, WellFormed;
    LatestIsHighestIff(entries, kind, i);
    if HighestAt(entries, kind, Offset(entries, i)) {
      var j: nat :| Highest(entries, kind, j) && Offset(entries, j) == Offset(entries, i);
      SameOffset(entries, i, j);
    }
  }

  /** Two sound entries of one type, the higher subtype first: the search returns the lower one. */
  lemma {:induction false} HighestIsMissed(crc32: Checksum) returns (flash: seq<byte>, entries: seq<Entry>)
    requires forall m :: |crc32(m)| == FOOTER_SIZE
    ensures Holds(flash, entries) && |entries| == 2 && entries[0].kind == entries[1].kind == 3
    ensures entries[0].subtype == 5 && entries[1].subtype == 1
    ensures Good(entries[0], crc32) && Good(entries[1], crc32)
    ensures Present(entries, 3, SUBTYPE_MAX) && Addressed(entries, 3, SUBTYPE_MAX, 1)
    ensures forall i: nat, found :: Addressed(entries, 3, SUBTYPE_MAX, i) && Checked(entries, crc32, i, found) ==>
              found == At(Offset(entries, 1)) && !HighestAt(entries, 3, found.offset)
  {
    hide Offset;
    var a, b := SmallEntry(crc32, 5), SmallEntry(crc32, 1);
    entries := [a, b];
    flash := Layout(entries) + [0, 0, 0, 0];
    TwoEntries(a, b);
    assert flash[|Layout(entries)|..|Layout(entries)| + 4] == [0, 0, 0, 0];
    forall i: nat, found | Addressed(entries, 3, SUBTYPE_MAX, i) && Checked(entries, crc32, i, found)
      ensures found == At(Offset(entries, 1)) && !HighestAt(entries, 3, found.offset)
    {
      AddressedIsUnique(entries, 3, SUBTYPE_MAX, i, 1);
      LatestIsHighestIff(entries, 3, 1);
      FoundHighestIff(entries, 3, 1);
      assert !Highest(entries, 3, 1);
    }
  }

  /** An entry without data. */
  ghost function SmallEntry(crc32: Checksum, subtype: byte): (e: Entry)
    requires forall m :: |crc32(m)| == FOOTER_SIZE
    ensures WellFormed(e) && Good(e, crc32) && e.kind == 3 && e.subtype == subtype && |Bytes(e)| == 16
  {
    var e := Entry(0, [0, 0, 0], 3, subtype, [], [], [0, 0, 0, 0]);
    e.(crc := crc32(Body(e)))
  }

  lemma {:induction false} TwoEntries(a: Entry, b: Entry)
    requires WellFormed(a) && WellFormed(b)
    ensures AllWellFormed([a, b]) && Layout([a, b]) == Bytes(a) + Bytes(b)
  {
    hide WellFormed, Bytes;
    assert [a, b][..1] == [a] && [a][..0] == [];
    assert Layout([a]) == [] + Bytes(a);
  }

  // ----- the search

  /** What the walk knows on reaching entry i: nothing addressed yet, or the latest entry of the type so far. */
  ghost predicate Seen(entries: seq<Entry>, kind: byte, subtype: byte, i: nat, latest: Cursor, last: nat) {
    if subtype != SUBTYPE_MAX then latest == Null && NoneBefore(entries, kind, subtype, i)
    else if latest == Null then forall j :: 0 <= j < i && j < |entries| ==> entries[j].kind != kind
    else
      && last < i && last < |entries| && entries[last].kind == kind
      && AllWellFormed(entries) && latest == Pointer(Offset(entries, last))
      && (forall j :: last < j < i && j < |entries| ==> entries[j].kind != kind)
  }

  lemma {:induction false} SeenStep(entries: seq<Entry>, kind: byte, subtype: byte, i: nat, latest: Cursor, last: nat)
    requires AllWellFormed(entries) && i < |entries| && Seen(entries, kind, subtype, i, latest, last)
    ensures entries[i].kind != kind || (subtype != SUBTYPE_MAX && entries[i].subtype != subtype) ==>
              Seen(entries, kind, subtype, i + 1, latest, last)
    ensures entries[i].kind == kind && subtype == SUBTYPE_MAX ==>
              Seen(entries, kind, subtype, i + 1, Pointer(Offset(entries, i)), i)
  {
  }

  lemma {:induction false} Hit(entries: seq<Entry>, kind: byte, subtype: byte, i: nat, latest: Cursor, last: nat)
    requires i < |entries| && Seen(entries, kind, subtype, i, latest, last)
    requires entries[i].kind == kind && entries[i].subtype == subtype && subtype != SUBTYPE_MAX
    ensures Addressed(entries, kind, subtype, i) && Present(entries, kind, subtype)
  {
  }

  lemma {:induction false} SeenAll(entries: seq<Entry>, kind: byte, subtype: byte, latest: Cursor, last: nat)
    requires AllWellFormed(entries) && Seen(entries, kind, subtype, |entries|, latest, last)
    ensures latest == Null ==> !Present(entries, kind, subtype)
    ensures latest != Null ==>
              subtype == SUBTYPE_MAX && last < |entries| && latest == Pointer(Offset(entries, last))
              && Addressed(entries, kind, subtype, last) && Present(entries, kind, subtype)
  {
  }

  lemma {:induction false} NothingSeen(entries: seq<Entry>, kind: byte, subtype: byte)
    ensures Seen(entries, kind, subtype, 0, Null, 0)
  {
  }

  /** Entry i is the answer iff its checksum holds. */
  ghost predicate Checked(entries: seq<Entry>, crc32: Checksum, i: nat, found: Found)
    requires AllWellFormed(entries) && i < |entries|
  {
    found == if Good(entries[i], crc32) then At(Offset(entries, i)) else Fail
  }

  /** esp_secure_cert_find_tlv. */
  method FindTlv(flash: seq<byte>, kind: byte, subtype: byte, crc32: Checksum, ghost entries: seq<Entry>)
    returns (found: Found)
    requires Holds(flash, entries)
    ensures Present(entries, kind, subtype) ==>
              exists i: nat :: Addressed(entries, kind, subtype, i) && Checked(entries, crc32, i, found)
    ensures !Present(entries, kind, subtype) ==>
              found == if kind == 50 then At(Offset(entries, |entries|)) else Fail
    // the documented promise of the highest subtype, exactly as far as it holds
    ensures subtype == 254 && Present(entries, kind, subtype) && found.At? ==>
              (HighestAt(entries, kind, found.offset) <==> LastIsMaximum(Subtypes(entries, kind)))
  {
    var offset: uint16 := 0;
    var latest: Cursor := Null;
    var readLatest := subtype == SUBTYPE_MAX;
    ghost var i: nat, last: nat := 0, 0;
    EndOfWalk(flash, entries);
    Start(entries);
    Next(flash, entries, 0);
    NothingSeen(entries, kind, subtype);
    hide Advance, KindAt, SubtypeAt, Seen, Present, Addressed, NoneBefore, HighestAt, LastIsMaximum, Subtypes,
      Offset, Layout, AllWellFormed, WellFormed, Holds, Good, TotalLength, PaddingLength, LengthAt, HasMagic;
    while HasMagic(flash, offset)
      invariant i <= |entries| && AllWellFormed(entries) && offset == Offset(entries, i)
      invariant Readable(flash, offset, 4)
      invariant Seen(entries, kind, subtype, i, latest, last)
      decreases |entries| - i
    {
      ghost var latest0, last0 := latest, last;
      HeaderAt(flash, entries, i);
      if KindAt(flash, offset) == kind {
        if readLatest {
          latest, last := Pointer(offset), i;
        } else if SubtypeAt(flash, offset) == subtype {
          var ok := VerifyIntegrity(flash, offset, crc32, entries, i);
          Hit(entries, kind, subtype, i, latest, last);
          return if ok then At(offset) else Fail;
        }
      }
      SeenStep(entries, kind, subtype, i, latest0, last0);
      i := i + 1;
      offset := Advance(offset, LengthAt(flash, offset));
      Next(flash, entries, i);
    }
    AtEnd(flash, entries, i);
    SeenAll(entries, kind, subtype, latest, last);
    if readLatest && latest != Null {
      FoundHighestIff(entries, kind, last);
      var ok := VerifyIntegrity(flash, latest.offset, crc32, entries, last);
      return if ok then At(latest.offset) else Fail;
    }
    found := if kind == TYPE_END then At(offset) else Fail;
  }

  lemma {:induction false} Next(flash: seq<byte>, entries: seq<Entry>, i: nat)
    requires Holds(flash, entries) && i <= |entries|
    ensures AllWellFormed(entries) && Readable(flash, Offset(entries, i), 4)
    ensures HasMagic(flash, Offset(entries, i)) <==> i < |entries|
  {
    if i < |entries| {
      HeaderAt(flash, entries, i);
    } else {
      EndOfWalk(flash, entries);
    }
  }

  lemma {:induction false} AtEnd(flash: seq<byte>, entries: seq<Entry>, i: nat)
    requires Holds(flash, entries) && i <= |entries|
    requires Readable(flash, Offset(entries, i), 4) && !HasMagic(flash, Offset(entries, i))
    ensures i == |entries|
  {
    Next(flash, entries, i);
  }

  // ----- iterating

  /** Entries before the first one whose checksum fails. */
  ghost function GoodPrefix(entries: seq<Entry>, crc32: Checksum, from: nat): (n: nat)
    requires AllWellFormed(entries) && from <= |entries|
    ensures from <= n <= |entries|
    ensures forall j :: from <= j < n ==> Good(entries[j], crc32)
    ensures n < |entries| ==> !Good(entries[n], crc32)
    decreases |entries| - from
  {
    if from < |entries| && Good(entries[from], crc32) then GoodPrefix(entries, crc32, from + 1) else from
  }

  /** esp_secure_cert_tlv_iterator_t over a mapped partition. */
  class Iterator {
    const flash: seq<byte>
    const crc32: Checksum
    var cursor: Cursor

    constructor (flash: seq<byte>, crc32: Checksum)
      ensures this.flash == flash && this.crc32 == crc32 && cursor == Null
    {
      this.flash, this.crc32, cursor := flash, crc32, Null;
    }

    /** Entries passed so far: none before the first call, i + 1 when the cursor stands at entry i. */
    ghost predicate Passed(entries: seq<Entry>, n: nat)
      reads this
      requires Holds(flash, entries)
    {
      && n <= |entries|
      && (if n == 0 then cursor == Null else cursor == Pointer(Offset(entries, n - 1)))
    }

    /** esp_secure_cert_iterate_to_next_tlv: one entry further, or nothing changes and the next one is bad or missing.
        The current entry is checked again first. */
    method Next(ghost entries: seq<Entry>, ghost n: nat) returns (ok: bool)
      requires Holds(flash, entries) && Passed(entries, n)
      modifies this
      ensures ok <==> n < |entries| && Good(entries[n], crc32) && (n == 0 || Good(entries[n - 1], crc32))
      ensures Passed(entries, if ok then n + 1 else n)
    {
      hide Offset, Layout, WellFormed;
      if cursor == Null {
        assert Offset(entries, 0) == 0 by { Start(entries); }
        ok := VerifyIntegrity(flash, 0, crc32, entries, 0);
        if ok {
          cursor := Pointer(0);
        }
        return;
      }
      var at := cursor.offset;
      ok := VerifyIntegrity(flash, at, crc32, entries, n - 1);
      if !ok {
        return;
      }
      HeaderAt(flash, entries, n - 1);
      var next := at + TotalLength(LengthAt(flash, at));
      ok := VerifyIntegrity(flash, next, crc32, entries, n);
      if ok {
        cursor := Pointer(next);
      }
    }

    /** esp_secure_cert_list_tlv_entries: from a zeroed iterator, the entries up to the first bad checksum, in order. */
    method ListEntries(ghost entries: seq<Entry>) returns (visited: seq<nat>)
      requires Holds(flash, entries) && cursor == Null
      modifies this
      ensures |visited| == GoodPrefix(entries, crc32, 0)
      ensures forall j :: 0 <= j < |visited| ==> visited[j] == Offset(entries, j)
    {
      hide Offset, Layout, WellFormed, Good;
      visited := [];
      var ok := Next(entries, 0);
      while ok
        invariant |visited| + (if ok then 1 else 0) <= |entries|
        invariant Passed(entries, |visited| + if ok then 1 else 0)
        invariant forall j :: 0 <= j < |visited| ==> visited[j] == Offset(entries, j)
        invariant forall j :: 0 <= j < |visited| + (if ok then 1 else 0) ==> Good(entries[j], crc32)
        invariant !ok ==> |visited| == |entries| || !Good(entries[|visited|], crc32)
        decreases |entries| - |visited|, ok
      {
        visited := visited + [cursor.offset];
        ok := Next(entries, |visited|);
      }
    }
  }

}
