/** The application's table of unacknowledged publishes (main/aws_iot_handler.c) beside the library's
    publish records. */
module PublishTable {
  import opened Types
  import opened StateRecords
  import opened StateEngine
  import opened QosSession
  import opened StateTable
  import StateRuns

  datatype Entry = Entry(packetId: uint16, topic: string, payload: string, dup: bool)

  const FREE := Entry(0, "", "", false)

  // ----- which packet ids a resend visits

  function IdsOf(records: seq<Record>): seq<uint16> {
    if records == [] then [] else [records[0].packetId] + IdsOf(records[1..])
  }

  /** The ids a resend should visit: those still awaiting PUBACK or PUBREC, in live order. */
  function Awaiting(slots: seq<Record>): seq<uint16> {
    IdsOf(Select(slots, PUBLISH_STATES))
  }

  function FirstAwaiting(slots: seq<Record>): (first: nat)
    ensures first <= |slots|
    ensures forall i :: 0 <= i < first ==> slots[i].publishState !in PUBLISH_STATES
    ensures first < |slots| ==> slots[first].publishState in PUBLISH_STATES
  {
    if slots == [] || slots[0].publishState in PUBLISH_STATES then 0 else 1 + FirstAwaiting(slots[1..])
  }

  /** The ids the resend loop does visit: sending the first one again may close the holes under the
      cursor, which then stands `first + 1` slots into the compacted array. */
  function Visited(slots: seq<Record>): seq<uint16> {
    var first := FirstAwaiting(slots);
    if first == |slots| then []
    else [slots[first].packetId] + Awaiting(MadeRoom(slots)[first + 1..])
  }

  lemma {:induction false} NothingBeforeFirst(slots: seq<Record>, n: nat)
    requires n <= FirstAwaiting(slots)
    ensures Select(slots, PUBLISH_STATES) == Select(slots[n..], PUBLISH_STATES)
  {
    if n > 0 {
      NothingBeforeFirst(slots[1..], n - 1);
      assert slots[1..][n - 1..] == slots[n..];
    } else {
      assert slots[0..] == slots;
    }
  }

  lemma {:induction false} SelectSamePending(a: seq<Record>, b: seq<Record>)
    requires SamePending(a, b)
    ensures Awaiting(a) == Awaiting(b)
  {
    if a != [] {
      assert a[1..] == a[1..] && SamePending(a[1..], b[1..]);
      SelectSamePending(a[1..], b[1..]);
    }
  }

  lemma {:induction false} SelectFree(n: nat)
    ensures Select(seq(n, _ => EMPTY), PUBLISH_STATES) == []
  {
    var free := seq(n, _ => EMPTY);
    LiveOfFree(free);
    SelectLive(free, PUBLISH_STATES);
  }

  /** Closing holes under a compacted array changes nothing, so only the first resend can shift slots. */
  lemma {:induction false} MadeRoomOnce(slots: seq<Record>, a: seq<Record>)
    requires CleanSlots(slots) && CleanSlots(a) && SamePending(a, MadeRoom(slots))
    ensures SamePending(MadeRoom(a), MadeRoom(slots))
  {
    var m := MadeRoom(slots);
    if |a| > 0 && a[|a| - 1].packetId != 0 {
      var n := |Live(slots)|;
      LiveLength(slots);
      assert slots[|slots| - 1].packetId != 0 ==> m[|m| - 1] == Compacted(slots)[|slots| - 1];
      if slots[|slots| - 1].packetId == 0 {
        assert false;
      }
      assert n == |slots|;
      CompactedFull(slots);
      LiveLength(a);
      assert forall i :: 0 <= i < |a| ==> a[i].packetId == m[i].packetId;
      LiveOfLive(a);
    }
  }

  lemma {:induction false} CompactedFull(slots: seq<Record>)
    requires |Live(slots)| == |slots|
    ensures Compacted(slots) == slots
  {
    LiveLength(slots);
    LiveOfLive(slots);
  }

  // ----- the exact condition for a complete resend

  /** How many free slots lie before the first record to resend. */
  function HolesBefore(slots: seq<Record>): (n: nat)
    ensures n <= FirstAwaiting(slots)
  {
    LiveLength(slots[..FirstAwaiting(slots)]);
    FirstAwaiting(slots) - |Live(slots[..FirstAwaiting(slots)])|
  }

  /** The live records that slide under the cursor when the holes before the first record close. */
  function Jumped(slots: seq<Record>): seq<Record> {
    var first, holes := FirstAwaiting(slots), HolesBefore(slots);
    if first == |slots| then []
    else
      var after := Live(slots[first + 1..]);
      after[..if holes < |after| then holes else |after|]
  }

  /** The cursor visits every record awaiting a resend, in order, if and only if the last slot is free
      or none of the records that slide under the cursor awaits one. */
  lemma {:induction false} CursorCompleteIff(slots: seq<Record>)
    requires |slots| > 0 && CleanSlots(slots)
    ensures Visited(slots) == Awaiting(slots) <==>
            slots[|slots| - 1].packetId == 0 || Select(Jumped(slots), PUBLISH_STATES) == []
  {
    hide HolesBefore, Compacted, Live, Select, IdsOf, CleanSlots;
    var first := FirstAwaiting(slots);
    AwaitingSplit(slots);
    if first < |slots| {
      var id, x, y := slots[first].packetId, Awaiting(MadeRoom(slots)[first + 1..]), Awaiting(slots[first + 1..]);
      assert ([id] + x)[1..] == x && ([id] + y)[1..] == y;
      if slots[|slots| - 1].packetId != 0 {
        CompactedTail(slots);
        JumpedPart(slots);
      }
    } else {
      assert Select([], PUBLISH_STATES) == [] by { SelectFree(0); assert seq(0, _ => EMPTY) == []; }
    }
  }

  /** The cursor never visits more than what awaits a resend. */
  lemma {:induction false} VisitedNoLonger(slots: seq<Record>)
    requires |slots| > 0 && CleanSlots(slots)
    ensures |Visited(slots)| <= |Awaiting(slots)|
  {
    hide HolesBefore, Compacted, Live, Select, IdsOf, Jumped;
    var first := FirstAwaiting(slots);
    AwaitingSplit(slots);
    if first < |slots| && slots[|slots| - 1].packetId != 0 {
      var rest, k := slots[first + 1..], |Jumped(slots)|;
      CompactedTail(slots);
      JumpedLength(slots);
      SelectLive(rest, PUBLISH_STATES);
      SuffixNoLonger(Live(rest), k);
    }
  }

  lemma {:induction false} JumpedLength(slots: seq<Record>)
    requires FirstAwaiting(slots) < |slots|
    ensures |Jumped(slots)| <= |Live(slots[FirstAwaiting(slots) + 1..])|
  {
  }

  lemma {:induction false} SuffixNoLonger(records: seq<Record>, k: nat)
    requires k <= |records|
    ensures |Awaiting(records[k..])| <= |Awaiting(records)|
  {
    hide Select, IdsOf;
    assert records == records[..k] + records[k..];
    SelectConcat(records[..k], records[k..], PUBLISH_STATES);
    IdsOfLength(Select(records, PUBLISH_STATES));
    IdsOfLength(Select(records[k..], PUBLISH_STATES));
  }

  lemma {:induction false} AwaitingSplit(slots: seq<Record>)
    ensures var first := FirstAwaiting(slots);
            Awaiting(slots) == if first == |slots| then [] else [slots[first].packetId] + Awaiting(slots[first + 1..])
  {
    if slots != [] && slots[0].publishState !in PUBLISH_STATES {
      AwaitingSplit(slots[1..]);
      var first := FirstAwaiting(slots);
      if first < |slots| {
        assert slots[1..][first..] == slots[first + 1..];
      }
    }
  }

  /** What the loop misses are exactly the records that slide under the cursor. */
  lemma {:induction false} JumpedPart(slots: seq<Record>)
    requires CleanSlots(slots) && FirstAwaiting(slots) < |slots|
    ensures var after := Live(slots[FirstAwaiting(slots) + 1..]);
            Awaiting(after[|Jumped(slots)|..]) == Awaiting(slots[FirstAwaiting(slots) + 1..]) <==>
            Select(Jumped(slots), PUBLISH_STATES) == []
  {
    hide FirstAwaiting, HolesBefore, Live;
    var rest := slots[FirstAwaiting(slots) + 1..];
    SelectLive(rest, PUBLISH_STATES);
    SuffixMisses(Live(rest), |Jumped(slots)|);
  }

  lemma {:induction false} SuffixMisses(records: seq<Record>, k: nat)
    requires k <= |records|
    ensures Awaiting(records[k..]) == Awaiting(records) <==> Select(records[..k], PUBLISH_STATES) == []
  {
    hide Select, IdsOf;
    var head, tail := Select(records[..k], PUBLISH_STATES), Select(records[k..], PUBLISH_STATES);
    assert records == records[..k] + records[k..];
    SelectConcat(records[..k], records[k..], PUBLISH_STATES);
    IdsOfLength(head + tail);
    IdsOfLength(tail);
    if head == [] {
      assert head + tail == tail;
    }
  }

  lemma {:induction false} IdsOfLength(records: seq<Record>)
    ensures |IdsOf(records)| == |records|
  {
    if records != [] { IdsOfLength(records[1..]); }
  }

  /** The live records around the first one to resend. */
  lemma {:induction false} LiveAroundFirst(slots: seq<Record>, first: nat)
    requires first < |slots| && slots[first].packetId != 0
    ensures Live(slots) == Live(slots[..first]) + [slots[first]] + Live(slots[first + 1..])
  {
    assert slots == slots[..first] + ([slots[first]] + slots[first + 1..]);
    LiveConcat(slots[..first], [slots[first]] + slots[first + 1..]);
    LiveConcat([slots[first]], slots[first + 1..]);
  }

  /** After compaction, the slots from the cursor on hold what is left of the live records. */
  lemma {:induction false} CompactedTail(slots: seq<Record>)
    requires CleanSlots(slots) && FirstAwaiting(slots) < |slots|
    ensures var first := FirstAwaiting(slots);
            Select(Compacted(slots)[first + 1..], PUBLISH_STATES) ==
            Select(Live(slots[first + 1..])[|Jumped(slots)|..], PUBLISH_STATES)
  {
    var first, k := FirstAwaiting(slots), |Jumped(slots)|;
    LiveAroundFirst(slots, first);
    LiveLength(slots);
    TailOfPrefix(Live(slots), Live(slots[..first]) + [slots[first]], Live(slots[first + 1..]), first + 1, k,
                 |slots| - |Live(slots)|);
  }

  lemma {:induction false} TailOfPrefix(live: seq<Record>, front: seq<Record>, after: seq<Record>, at: nat, k: nat,
                                        free: nat)
    requires live == front + after && |front| <= at <= |live| + free
    requires k == if at - |front| < |after| then at - |front| else |after|
    ensures Select((live + seq(free, _ => EMPTY))[at..], PUBLISH_STATES) == Select(after[k..], PUBLISH_STATES)
  {
    var all := live + seq(free, _ => EMPTY);
    if at <= |live| {
      assert all[at..] == after[k..] + seq(free, _ => EMPTY);
      SelectConcat(after[k..], seq(free, _ => EMPTY), PUBLISH_STATES);
      SelectFree(free);
    } else {
      assert all[at..] == seq(|all| - at, _ => EMPTY);
      SelectFree(|all| - at);
    }
  }

  /** An array of ten with two records awaiting a PUBACK in its last slots. */
  lemma {:induction false} TwoAtTheEnd(a: Record, b: Record)
    requires a.packetId != 0 && b.packetId != 0
    requires a.publishState in PUBLISH_STATES && b.publishState in PUBLISH_STATES
    ensures var slots := seq(8, _ => EMPTY) + [a, b];
      && Live(slots) == [a, b] && Awaiting(slots) == [a.packetId, b.packetId]
      && FirstAwaiting(slots) == 8 && Awaiting(Compacted(slots)[9..]) == []
  {
    hide Select, Live, IdsOf, FirstAwaiting;
    var free := seq(8, _ => EMPTY);
    var slots := free + [a, b];
    LiveConcat(free, [a, b]);
    LiveOfFree(free);
    LiveOfLive([a, b]);
    SelectConcat(free, [a, b], PUBLISH_STATES);
    SelectFree(8);
    SelectPair(a, b);
    FirstIs(slots, 8);
    assert Compacted(slots)[9..] == seq(1, _ => EMPTY);
    SelectFree(1);
  }

  lemma {:induction false} SelectPair(a: Record, b: Record)
    requires a.publishState in PUBLISH_STATES && b.publishState in PUBLISH_STATES
    ensures Select([a, b], PUBLISH_STATES) == [a, b] && IdsOf([a, b]) == [a.packetId, b.packetId] && IdsOf([]) == []
  {
    assert [a, b][1..] == [b] && [b][1..] == [];
    assert IdsOf([b]) == [b.packetId];
    assert Select([b], PUBLISH_STATES) == [b];
  }

  lemma {:induction false} FirstIs(slots: seq<Record>, n: nat)
    requires n < |slots| && slots[n].publishState in PUBLISH_STATES
    requires forall i :: 0 <= i < n ==> slots[i].publishState !in PUBLISH_STATES
    ensures FirstAwaiting(slots) == n
  {
    var f := FirstAwaiting(slots);
    assert !(f < n) && !(n < f);
  }

  // ----- and a run of calls leads to it

  /** Ten slots; slot i holds publish i + 1, awaiting its PUBACK, exactly for a <= i < b. */
  ghost function Window(a: nat, b: nat): (slots: seq<Record>)
    requires a <= b <= 10
    ensures |slots| == 10
  {
    seq(10, i requires 0 <= i < 10 => if a <= i < b then Record(i + 1, QoS1, PubAckPending) else EMPTY)
  }

  /** Where the next publish of a window is placed. */
  lemma {:induction false} WindowPlaces(a: nat, b: nat, r: Record)
    requires (a < b || b == 0) && b < 10 && a <= b && r.packetId == b + 1
    ensures MadeRoom(Window(a, b)) == Window(a, b) && UsedEnd(Window(a, b)) == b
    ensures CleanSlots(Window(a, b)) && !HasId(Live(Window(a, b)), r.packetId) && |Live(Window(a, b))| < 10
  {
    hide UsedEnd, Live, Compacted;
    UsedEndIs(Window(a, b), b);
    LiveHasId(Window(a, b), r.packetId);
    LiveLength(Window(a, b));
    assert Window(a, b)[9].packetId == 0;
  }

  /** Looking a publish up finds its slot. */
  lemma {:induction false} FoundAt(slots: seq<Record>, at: nat)
    requires at < |slots| && slots[at].packetId == at + 1
    requires forall i :: 0 <= i < at ==> slots[i].packetId != at + 1
    ensures Find(slots, at + 1) == Found(at, slots[at].qos, slots[at].publishState)
    ensures Find(Live(slots), at + 1).Found?
    ensures Find(Live(slots), at + 1).qos == slots[at].qos && Find(Live(slots), at + 1).state == slots[at].publishState
  {
    hide Find, Live;
    FindInLive(slots, at + 1);
    var i := Find(slots, at + 1).index;
    assert slots[at].packetId == at + 1;
    assert !(i < at) && !(at < i);
  }

  /** The next publish is reserved and sent. */
  method PublishNext(c: Context, ghost a: nat, b: nat)
    requires c.Valid() && (a < b || b == 0) && a <= b < 10 && c.outgoing[..] == Window(a, b)
    modifies c.outgoing, c.incoming
    ensures c.Valid() && c.outgoing[..] == Window(a, b + 1)
  {
    hide UsedEnd, Live, MadeRoom, LegalTables, Find, HasId, CleanSlots, SetState, Window;
    ghost var r := Record(b + 1, QoS1, PublishSend);
    WindowPlaces(a, b, r);
    WindowGrows(a, b, r);
    var status := c.ReserveState(b + 1, QoS1);
    FoundAt(c.outgoing[..], b);
    var newState;
    status, newState := c.UpdateStatePublish(b + 1, Send, QoS1);
  }

  /** A record filled in behind a window and then sent. */
  lemma {:induction false} WindowGrows(a: nat, b: nat, r: Record)
    requires a <= b < 10 && r == Record(b + 1, QoS1, PublishSend)
    ensures var reserved := Window(a, b)[b := r];
      && reserved[b] == r && (forall i :: 0 <= i < b ==> reserved[i].packetId != b + 1)
      && reserved[b := reserved[b].(publishState := PubAckPending)] == Window(a, b + 1)
  {
  }

  /** The oldest publish is acknowledged. */
  method AcknowledgeOldest(c: Context, a: nat, ghost b: nat)
    requires c.Valid() && a < b <= 10 && c.outgoing[..] == Window(a, b)
    modifies c.outgoing, c.incoming
    ensures c.Valid() && c.outgoing[..] == Window(a + 1, b)
  {
    hide UsedEnd, Live, MadeRoom, LegalTables, Find, HasId, CleanSlots, SetState, Remove;
    FoundAt(c.outgoing[..], a);
    var status, newState := c.UpdateStateAck(a + 1, Puback, Receive);
    assert c.outgoing[..] == Window(a + 1, b);
  }

  /** Two publishes outstanding at a time march up a library context's ten slots until the resend would skip one. */
  method ReachSkippedRecord() returns (c: Context)
    ensures c.Valid() && fresh(c) && c.outgoing.Length == 10
    ensures Awaiting(c.outgoing[..]) == [9, 10] && Visited(c.outgoing[..]) == [9]
  {
    hide Awaiting, Visited, Select, Live, Find, LegalTables, CleanSlots;
    c := new Context(10, 10);
    EmptyWindow(c.outgoing[..], c.View());
    PublishNext(c, 0, 0);
    var k := 1;
    while k < 9
      invariant 1 <= k <= 9 && fresh(c.outgoing) && fresh(c.incoming) && c.outgoing.Length == 10
      invariant c.Valid() && c.outgoing[..] == Window(k - 1, k)
    {
      PublishNext(c, k - 1, k);
      AcknowledgeOldest(c, k - 1, k + 1);
      k := k + 1;
    }
    PublishNext(c, 8, 9);
    ResendSkipsARecord();
  }

  lemma {:induction false} EmptyWindow(slots: seq<Record>, t: Tables)
    requires |slots| == 10 && CleanSlots(slots) && t.outgoing == Live(slots) == []
    ensures slots == Window(0, 0)
  {
    hide Live;
    forall i | 0 <= i < 10 ensures slots[i] == EMPTY {
      if slots[i].packetId != 0 {
        LiveHasId(slots, slots[i].packetId);
      }
    }
  }

  /** The gap is real: with the last two of ten slots in use, the second publish is skipped. */
  lemma {:induction false} ResendSkipsARecord()
    ensures CleanSlots(Window(8, 10)) && UniqueIds(Live(Window(8, 10)))
    ensures Awaiting(Window(8, 10)) == [9, 10] && Visited(Window(8, 10)) == [9]
  {
    hide Select, Live, Compacted, FirstAwaiting, Awaiting;
    var nine, ten := Record(9, QoS1, PubAckPending), Record(10, QoS1, PubAckPending);
    TwoAtTheEnd(nine, ten);
    assert Window(8, 10) == seq(8, _ => EMPTY) + [nine, ten];
    assert [9] + Awaiting(MadeRoom(Window(8, 10))[9..]) == [9];
  }

  // ----- the table

  /** The library gives the next id and skips zero on wrap-around. */
  function NextId(id: uint16): uint16 {
    if id == 65535 then 1 else id + 1
  }

  /** The id k publishes after this one. */
  function IdAfter(id: uint16, k: nat): uint16 {
    if k == 0 then id else NextId(IdAfter(id, k - 1))
  }

  /** Ids are never zero, and one comes again after exactly 65535 publishes. */
  lemma {:induction false} IdsCycle(id: uint16, k: nat)
    requires id != 0
    ensures IdAfter(id, k) == (id - 1 + k) % 65535 + 1
  {
    if k > 0 {
      IdsCycle(id, k - 1);
      NextInCycle(id - 1 + k - 1);
    }
  }

  lemma {:induction false} NextInCycle(n: nat)
    ensures (n + 1) % 65535 == if n % 65535 == 65534 then 0 else n % 65535 + 1
  {
  }

  ghost predicate DistinctIds(slots: seq<Entry>) {
    forall i, j :: 0 <= i < j < |slots| && slots[i].packetId != 0 ==> slots[i].packetId != slots[j].packetId
  }

  predicate Listed(slots: seq<Entry>, id: uint16) {
    exists i :: 0 <= i < |slots| && slots[i].packetId == id
  }

  // ----- which packet ids a resend publishes again

  /** The ids up to the first one without an entry. */
  function ListedPrefix(slots: seq<Entry>, ids: seq<uint16>): seq<uint16> {
    if ids == [] || !Listed(slots, ids[0]) then [] else [ids[0]] + ListedPrefix(slots, ids[1..])
  }

  ghost predicate AllListed(slots: seq<Entry>, ids: seq<uint16>) {
    forall k :: 0 <= k < |ids| ==> Listed(slots, ids[k])
  }

  lemma {:induction false} ListedPrefixShape(slots: seq<Entry>, ids: seq<uint16>)
    ensures var n := |ListedPrefix(slots, ids)|; n <= |ids| && ListedPrefix(slots, ids) == ids[..n]
    ensures ListedPrefix(slots, ids) == ids <==> AllListed(slots, ids)
  {
    hide Listed;
    if ids != [] && Listed(slots, ids[0]) {
      ListedPrefixShape(slots, ids[1..]);
      assert forall k :: 0 < k < |ids| ==> ids[k] == ids[1..][k - 1];
      assert ids == [ids[0]] + ids[1..];
    }
  }

  /** The listed ids in front of one that is not. */
  lemma {:induction false} ListedPrefixStops(slots: seq<Entry>, front: seq<uint16>, rest: seq<uint16>)
    requires AllListed(slots, front) && (rest == [] || !Listed(slots, rest[0]))
    ensures ListedPrefix(slots, front + rest) == front
  {
    hide Listed;
    if front == [] {
      assert front + rest == rest;
    } else {
      assert (front + rest)[1..] == front[1..] + rest;
      ListedPrefixStops(slots, front[1..], rest);
    }
  }

  /** The resend publishes again every id awaiting it, in order, if and only if the cursor misses none and each of
      them has an entry. */
  lemma {:induction false} ResendCompleteIff(entries: seq<Entry>, slots: seq<Record>)
    requires |slots| > 0 && CleanSlots(slots)
    ensures ListedPrefix(entries, Visited(slots)) == Awaiting(slots) <==>
            && (slots[|slots| - 1].packetId == 0 || Select(Jumped(slots), PUBLISH_STATES) == [])
            && AllListed(entries, Awaiting(slots))
  {
    hide Visited, Awaiting, Jumped, Select, CleanSlots, AllListed;
    CursorCompleteIff(slots);
    VisitedNoLonger(slots);
    ListedPrefixShape(entries, Visited(slots));
  }

  /** Every listed publish has a live QoS 1 record. */
  ghost predicate Backed(slots: seq<Entry>, records: seq<Record>) {
    forall i :: 0 <= i < |slots| && slots[i].packetId != 0 ==>
      Find(records, slots[i].packetId).Found? && Find(records, slots[i].packetId).qos == QoS1
  }

  /** Every live record is listed. */
  ghost predicate Covered(slots: seq<Entry>, records: seq<Record>) {
    forall i :: 0 <= i < |records| ==> Listed(slots, records[i].packetId)
  }

  ghost predicate AllQoS1(records: seq<Record>) {
    forall i :: 0 <= i < |records| ==> records[i].qos == QoS1
  }

  /** The table and the outgoing records agree. */
  ghost predicate Agree(slots: seq<Entry>, records: seq<Record>) {
    DistinctIds(slots) && Backed(slots, records) && AllQoS1(records)
  }

  function IdSet(records: seq<Record>): set<uint16> {
    set i | 0 <= i < |records| :: records[i].packetId
  }

  function ListedIds(slots: seq<Entry>): set<uint16> {
    set i | 0 <= i < |slots| && slots[i].packetId != 0 :: slots[i].packetId
  }

  lemma {:induction false} IdSetSize(records: seq<Record>)
    requires UniqueIds(records)
    ensures |IdSet(records)| == |records|
  {
    if records != [] {
      IdSetSize(records[1..]);
      var id := records[0].packetId;
      assert IdSet(records) == {id} + IdSet(records[1..]) by {
        assert forall i :: 0 <= i < |records[1..]| ==> records[1..][i] == records[i + 1];
        forall x | x in IdSet(records)
          ensures x in {id} + IdSet(records[1..])
        {
          var i :| 0 <= i < |records| && records[i].packetId == x;
          if i > 0 { assert records[1..][i - 1].packetId == x; }
        }
      }
      assert id !in IdSet(records[1..]);
    }
  }

  lemma {:induction false} ListedIdsSize(slots: seq<Entry>)
    ensures |ListedIds(slots)| + (if Listed(slots, 0) then 1 else 0) <= |slots|
  {
    if slots != [] {
      ListedIdsSize(slots[1..]);
      var id := slots[0].packetId;
      assert && ListedIds(slots) <= {id} + ListedIds(slots[1..])
             && (id == 0 ==> ListedIds(slots) <= ListedIds(slots[1..])) by {
        forall x | x in ListedIds(slots)
          ensures x == id || x in ListedIds(slots[1..])
        {
          var i :| 0 <= i < |slots| && slots[i].packetId != 0 && slots[i].packetId == x;
          if i > 0 { assert slots[1..][i - 1].packetId == x; }
        }
      }
      if id == 0 {
        Subset(ListedIds(slots), ListedIds(slots[1..]));
      } else {
        Subset(ListedIds(slots), {id} + ListedIds(slots[1..]));
        if Listed(slots, 0) {
          var i :| 0 <= i < |slots| && slots[i].packetId == 0;
          assert slots[1..][i - 1].packetId == 0;
        }
      }
    }
  }

  /** If every record is listed and the table has a free entry, fewer records are live than it has entries. */
  lemma {:induction false} RecordsFitTable(slots: seq<Entry>, records: seq<Record>)
    requires UniqueIds(records) && Covered(slots, records) && Listed(slots, 0)
    requires forall i :: 0 <= i < |records| ==> records[i].packetId != 0
    ensures |records| < |slots|
  {
    IdSetSize(records);
    ListedIdsSize(slots);
    forall id | id in IdSet(records)
      ensures id in ListedIds(slots)
    {
      var i :| 0 <= i < |records| && records[i].packetId == id;
      assert Listed(slots, records[i].packetId);
    }
    Subset(IdSet(records), ListedIds(slots));
  }

  lemma {:induction false} Subset(a: set<uint16>, b: set<uint16>)
    requires a <= b
    ensures |a| <= |b|
  {
    if a != {} {
      var x :| x in a;
      Subset(a - {x}, b - {x});
    }
  }

  // ----- what the library does to the records

  /** A fresh QoS 1 publish is recorded, if at all, at the back; only a failed send leaves a record that
      was not acknowledged as sent. */
  lemma {:induction false} PublishEffect(c: Client, capacity: nat, id: uint16, sizeOk: bool, sent: bool)
    requires LegalTables(c.tables) && id != 0
    ensures var (status, after) := PublishOutcome(c, capacity, id, QoS1, false, sizeOk, sent);
            var was := c.tables.outgoing;
            && (status == Success <==> sizeOk && sent && !HasId(was, id) && |was| < capacity)
            && (status == NoMemory ==> |was| >= capacity)
            && after.tables.outgoing == was + (if status == Success then [Record(id, QoS1, PubAckPending)]
                                               else if status == SendFailed then [Record(id, QoS1, PublishSend)]
                                               else [])
            && (status == SendFailed <==> sizeOk && !sent && !HasId(was, id) && |was| < capacity)
            && after.log == c.log + if status == Success then [Published(id, QoS1)] else []
  {
    assert c.log + [] == c.log;
    var was := c.tables.outgoing;
    var added := was + [Record(id, QoS1, PublishSend)];
    if !HasId(was, id) {
      StateRuns.FindLast(was, Record(id, QoS1, PublishSend));
      assert added[|was|].packetId == id;
      SetStateShape(added, id, PubAckPending);
      assert added[|was| := Record(id, QoS1, PubAckPending)] == was + [Record(id, QoS1, PubAckPending)];
    }
  }

  /** Filling a free entry for an appended record keeps the agreement. */
  lemma {:induction false} ListKeepsAgreement(slots: seq<Entry>, at: nat, e: Entry, records: seq<Record>, r: Record)
    requires Agree(slots, records) && at < |slots| && slots[at].packetId == 0
    requires r.packetId == e.packetId != 0 && r.qos == QoS1 && !HasId(records, r.packetId)
    ensures Agree(slots[at := e], records + [r])
    ensures (forall i :: 0 <= i < |records| ==> records[i].packetId != 0) && Covered(slots, records) ==>
              Covered(slots[at := e], records + [r])
  {
    StateRuns.FindLast(records, r);
    RecordKeepsBacking(slots, records, r);
    var after := slots[at := e];
    assert forall i :: 0 <= i < |slots| && slots[i].packetId != 0 ==> HasId(records, slots[i].packetId);
    forall k | 0 <= k < |records + [r]| && Covered(slots, records) && (k < |records| ==> records[k].packetId != 0)
      ensures Listed(after, (records + [r])[k].packetId)
    {
      if k == |records| {
        assert after[at].packetId == r.packetId;
      } else {
        RelistedElsewhere(slots, at, e, records[k]);
      }
    }
  }

  lemma {:induction false} RelistedElsewhere(slots: seq<Entry>, at: nat, e: Entry, r: Record)
    requires at < |slots| && slots[at].packetId != r.packetId && Listed(slots, r.packetId)
    ensures Listed(slots[at := e], r.packetId)
  {
    var i :| 0 <= i < |slots| && slots[i].packetId == r.packetId;
    assert slots[at := e][i].packetId == r.packetId;
  }

  lemma {:induction false} RecordKeepsBacking(slots: seq<Entry>, records: seq<Record>, r: Record)
    requires Agree(slots, records) && r.qos == QoS1 && !HasId(records, r.packetId)
    ensures Agree(slots, records + [r])
  {
    forall i | 0 <= i < |slots| && slots[i].packetId != 0
      ensures Find(records + [r], slots[i].packetId) == Find(records, slots[i].packetId)
    {
      StateRuns.AddKeepsOthers(records, r, slots[i].packetId);
    }
  }

  /** Dropping a record together with its entry, if it has one, keeps the agreement. */
  lemma {:induction false} UnlistKeepsAgreement(slots: seq<Entry>, records: seq<Record>, id: uint16, after: seq<Entry>)
    requires Agree(slots, records) && UniqueIds(records) && HasId(records, id) && id != 0
    requires |after| == |slots|
    requires forall i :: 0 <= i < |slots| ==> after[i] == if slots[i].packetId == id then FREE else slots[i]
    ensures Agree(after, Remove(records, id))
    ensures Covered(slots, records) && (forall i :: 0 <= i < |records| ==> records[i].packetId != 0)
            ==> Covered(after, Remove(records, id))
  {
    RemoveShape(records, id);
    var rest := Remove(records, id);
    forall i | 0 <= i < |after| && after[i].packetId != 0
      ensures Find(rest, after[i].packetId).Found? && Find(rest, after[i].packetId).qos == QoS1
    {
      StateRuns.RemoveFind(records, id, after[i].packetId);
    }
    forall k | 0 <= k < |rest|
      ensures rest[k].qos == QoS1
      ensures Covered(slots, records) ==> Listed(after, rest[k].packetId)
    {
      assert rest[k] in records;
      var j :| 0 <= j < |records| && records[j] == rest[k];
      assert rest[k].packetId != id;
      if Covered(slots, records) {
        assert Listed(slots, records[j].packetId);
        var i :| 0 <= i < |slots| && slots[i].packetId == rest[k].packetId;
        assert after[i] == slots[i];
      }
    }
  }

  /** Only a PUBACK touches QoS 1 records: any other acknowledgement leaves the outgoing records alone. */
  lemma {:induction false} OnlyPubackMatters(t: Tables, id: uint16, ack: AckType, op: Operation)
    requires LegalTables(t) && AllQoS1(t.outgoing)
    requires ack != Puback
    ensures Acked(t, id, ack, op).1.outgoing == t.outgoing
  {
  }

  /** Sending a listed publish again reuses its record: at most its state changes. */
  lemma {:induction false} DuplicateEffect(c: Client, capacity: nat, id: uint16, sent: bool)
    requires LegalTables(c.tables) && id != 0
    requires Find(c.tables.outgoing, id).Found? && Find(c.tables.outgoing, id).qos == QoS1
    ensures var (status, after) := PublishOutcome(c, capacity, id, QoS1, true, true, sent);
            && status == (if sent then Success else SendFailed)
            && after.tables.outgoing ==
               (if sent then SetState(c.tables.outgoing, id, PubAckPending) else c.tables.outgoing)
            && after.log == c.log + if sent then [Published(id, QoS1)] else []
  {
    assert c.log + [] == c.log;
    assert OutgoingRecord(c.tables.outgoing[Find(c.tables.outgoing, id).index]);
  }

  lemma {:induction false} StateKeepsAgreement(slots: seq<Entry>, records: seq<Record>, id: uint16, state: State)
    requires Agree(slots, records) && HasId(records, id)
    ensures Agree(slots, SetState(records, id, state))
    ensures Covered(slots, records) ==> Covered(slots, SetState(records, id, state))
  {
    SetStateShape(records, id, state);
    forall i | 0 <= i < |slots| && slots[i].packetId != 0
      ensures Find(SetState(records, id, state), slots[i].packetId).Found?
      ensures Find(SetState(records, id, state), slots[i].packetId).qos == QoS1
    {
      StateRuns.SetStateFind(records, id, state, slots[i].packetId);
    }
  }

  lemma {:induction false} BackedAt(slots: seq<Entry>, records: seq<Record>, at: nat)
    requires Agree(slots, records) && at < |slots| && slots[at].packetId != 0
    ensures Find(records, slots[at].packetId).Found? && Find(records, slots[at].packetId).qos == QoS1
    ensures HasId(records, slots[at].packetId)
    ensures forall i :: at < i < |slots| ==> slots[i].packetId != slots[at].packetId
  {
  }

  /** Two tables that list the same publishes. */
  ghost predicate SameEntries(a: seq<Entry>, b: seq<Entry>) {
    |a| == |b| && forall i :: 0 <= i < |a| ==> a[i].(dup := b[i].dup) == b[i]
  }

  lemma {:induction false} SameEntriesAgree(a: seq<Entry>, b: seq<Entry>, records: seq<Record>)
    requires SameEntries(a, b)
    ensures Agree(a, records) ==> Agree(b, records)
    ensures Covered(a, records) ==> Covered(b, records)
  {
    assert forall i :: 0 <= i < |a| ==> a[i].packetId == b[i].packetId;
    forall k | 0 <= k < |records| && Covered(a, records)
      ensures Listed(b, records[k].packetId)
    {
      assert Listed(a, records[k].packetId);
      var i :| 0 <= i < |a| && a[i].packetId == records[k].packetId;
      assert b[i].packetId == records[k].packetId;
    }
  }

  lemma {:induction false} SamePendingFrom(a: seq<Record>, b: seq<Record>, cursor: nat)
    requires SamePending(a, b) && cursor <= |a|
    ensures Awaiting(a[cursor..]) == Awaiting(b[cursor..])
  {
    SelectSamePending(a[cursor..], b[cursor..]);
  }

  lemma {:induction false} CoveredIsListed(slots: seq<Entry>, records: seq<Record>, id: uint16)
    requires Covered(slots, records) && HasId(records, id)
    ensures Listed(slots, id)
  {
  }

  /** QoS 1 records never wait for a PUBCOMP. */
  lemma {:induction false} NoPubrels(records: seq<Record>)
    requires (forall i :: 0 <= i < |records| ==> OutgoingRecord(records[i])) && AllQoS1(records)
    ensures Select(records, PUBREL_STATES) == []
  {
    if records != [] {
      NoPubrels(records[1..]);
    }
  }

  /** A received PUBACK is reported and drops its record if that waits for it, and changes nothing otherwise. */
  lemma {:induction false} PubackEffect(c: Client, id: uint16)
    requires LegalTables(c.tables)
    ensures var (status, after) := IncomingAck(c, id, Puback, false);
      var waits := id != 0 && HasId(c.tables.outgoing, id) && Find(c.tables.outgoing, id).state == PubAckPending;
      && (status == Success <==> waits)
      && after == if waits then
                    Client(c.tables.(outgoing := Remove(c.tables.outgoing, id)), c.log + [AckReported(id, Puback)])
                  else
                    c
  {
    hide Remove, SetState, Acked, Find, HasId, LegalTables;
    AckedByTable(c.tables, id, Puback, Receive);
  }

  ghost predicate FirstListed(slots: seq<Entry>, id: uint16, at: int) {
    0 <= at < |slots| && slots[at].packetId == id && forall i :: 0 <= i < at ==> slots[i].packetId != id
  }

  /** With distinct ids, clearing the first entry with an id clears all there are. */
  lemma {:induction false} FirstIsOnly(slots: seq<Entry>, id: uint16, at: int)
    requires id != 0 && DistinctIds(slots) && FirstListed(slots, id, at)
    ensures forall i :: 0 <= i < |slots| ==>
              slots[at := FREE][i] == if slots[i].packetId == id then FREE else slots[i]
  {
    assert slots[at].packetId != 0;
  }

  /** The oldest record is that of this packet id, and the table does not list it. */
  ghost predicate StuckOn(entries: seq<Entry>, records: seq<Record>, id: uint16) {
    records != [] && records[0].packetId == id && !Listed(entries, id)
  }

  /** Another publish is added behind the oldest record. */
  lemma {:induction false} StuckStays(entries: seq<Entry>, at: nat, e: Entry, records: seq<Record>, more: seq<Record>)
    requires at < |entries| && (e == FREE || !HasId(records, e.packetId))
    requires forall i :: 0 <= i < |records| ==> records[i].packetId != 0
    ensures forall id :: StuckOn(entries, records, id) ==> StuckOn(entries[at := e], records + more, id)
  {
    forall id | StuckOn(entries, records, id)
      ensures StuckOn(entries[at := e], records + more, id)
    {
      assert HasId(records, id) && id != 0;
      assert forall i :: 0 <= i < |entries| ==> entries[i].packetId != id;
    }
  }

  /** Another publish is acknowledged. */
  lemma {:induction false} StuckWithout(entries: seq<Entry>, records: seq<Record>, id: uint16, after: seq<Entry>)
    requires |after| == |entries| && id != 0 && (records != [] ==> records[0].packetId != 0)
    requires forall i :: 0 <= i < |entries| ==> after[i] == if entries[i].packetId == id then FREE else entries[i]
    ensures forall stuck :: StuckOn(entries, records, stuck) && stuck != id ==>
              StuckOn(after, Remove(records, id), stuck)
  {
    forall stuck | StuckOn(entries, records, stuck) && stuck != id
      ensures StuckOn(after, Remove(records, id), stuck)
    {
      assert forall i :: 0 <= i < |entries| ==> entries[i].packetId != stuck;
    }
  }

  lemma {:induction false} StuckSame(a: seq<Entry>, b: seq<Entry>, records: seq<Record>)
    requires SameEntries(a, b)
    ensures forall id :: StuckOn(a, records, id) ==> StuckOn(b, records, id)
  {
    hide SameEntries, Listed;
    forall id | StuckOn(a, records, id)
      ensures StuckOn(b, records, id)
    {
      SameEntriesListed(a, b, id);
    }
  }

  /** The cursor comes upon the oldest record first. */
  lemma {:induction false} StuckStops(entries: seq<Entry>, slots: seq<Record>, t: Tables)
    requires CleanSlots(slots) && LegalTables(t) && t.outgoing == Live(slots) && Agree(entries, t.outgoing)
    ensures forall id :: StuckOn(entries, t.outgoing, id) ==>
              Visited(slots) != [] && ListedPrefix(entries, Visited(slots)) == []
  {
    hide Listed, CleanSlots, Live, MadeRoom;
    if t.outgoing != [] {
      assert OutgoingRecord(t.outgoing[0]) && t.outgoing[0].publishState in PUBLISH_STATES;
      SelectLive(slots, PUBLISH_STATES);
      AwaitingSplit(slots);
    }
  }

  /** A publish of the application, on the records and the table: what becomes of both. */
  lemma {:induction false} PublishKeeps(slots: seq<Entry>, at: nat, e: Entry, c: Client, capacity: nat, sizeOk: bool,
                                        sent: bool)
    requires LegalTables(c.tables) && Agree(slots, c.tables.outgoing) && |slots| <= capacity
    requires at < |slots| && slots[at].packetId == 0 && e.packetId != 0
    ensures var (status, after) := PublishOutcome(c, capacity, e.packetId, QoS1, false, sizeOk, sent);
      var was, now, entries := c.tables.outgoing, after.tables.outgoing,
                               slots[at := if status == Success then e else FREE];
      && Agree(entries, now)
      && (Covered(slots, was) && sent ==> Covered(entries, now))
      && (Covered(slots, was) ==> status != NoMemory)
      && (forall id :: StuckOn(slots, was, id) ==> StuckOn(entries, now, id))
      && (sizeOk && !HasId(was, e.packetId) && |was| < capacity ==> status == if sent then Success else SendFailed)
      && after.log == c.log + if status == Success then [Published(e.packetId, QoS1)] else []
  {
    hide Agree, Covered, PublishOutcome, StuckOn, HasId, UniqueIds;
    var (status, after) := PublishOutcome(c, capacity, e.packetId, QoS1, false, sizeOk, sent);
    var was := c.tables.outgoing;
    PublishEffect(c, capacity, e.packetId, sizeOk, sent);
    LegalRecordsUsed(c.tables);
    assert Listed(slots, 0);
    if Covered(slots, was) {
      RecordsFitTable(slots, was);
    }
    if status == Success {
      var r := Record(e.packetId, QoS1, PubAckPending);
      ListKeepsAgreement(slots, at, e, was, r);
      StuckStays(slots, at, e, was, [r]);
    } else {
      var r := Record(e.packetId, QoS1, PublishSend);
      var more := if status == SendFailed then [r] else [];
      if status == SendFailed {
        RecordKeepsBacking(slots, was, r);
      }
      assert was + [] == was;
      FreeAgain(slots, at, was + more);
      StuckStays(slots, at, FREE, was, more);
    }
  }

  lemma {:induction false} LegalRecordsUsed(t: Tables)
    requires LegalTables(t)
    ensures UniqueIds(t.outgoing) && forall i :: 0 <= i < |t.outgoing| ==> t.outgoing[i].packetId != 0
  {
    forall i | 0 <= i < |t.outgoing| ensures t.outgoing[i].packetId != 0 {
      assert OutgoingRecord(t.outgoing[i]);
    }
  }

  /** A publish acknowledged leaves records and table together. */
  lemma {:induction false} PubackKeeps(was: seq<Entry>, t: Tables, id: uint16, after: seq<Entry>)
    requires LegalTables(t) && Agree(was, t.outgoing) && HasId(t.outgoing, id) && id != 0
    requires !Listed(was, id) ==> after == was
    requires Listed(was, id) ==> exists i :: 0 <= i < |was| && FirstListed(was, id, i) && after == was[i := FREE]
    ensures var rest := Remove(t.outgoing, id);
      && Agree(after, rest) && (Covered(was, t.outgoing) ==> Covered(after, rest))
      && !Listed(after, id) && !HasId(rest, id)
      && forall stuck :: StuckOn(was, t.outgoing, stuck) && stuck != id ==> StuckOn(after, rest, stuck)
  {
    hide Covered, StuckOn, Remove;
    LegalRecordsUsed(t);
    if Listed(was, id) {
      var at :| 0 <= at < |was| && FirstListed(was, id, at) && after == was[at := FREE];
      FirstIsOnly(was, id, at);
    }
    assert forall i :: 0 <= i < |was| ==> after[i] == if was[i].packetId == id then FREE else was[i];
    RemoveShape(t.outgoing, id);
    UnlistKeepsAgreement(was, t.outgoing, id, after);
    StuckWithout(was, t.outgoing, id, after);
  }

  /** A session of QoS 1 publishes only is resumed without sending anything. */
  lemma {:induction false} ResumeWithoutPubrels(slots: seq<Entry>, c: Client, sent: nat -> bool)
    requires LegalTables(c.tables) && Agree(slots, c.tables.outgoing)
    ensures Select(c.tables.outgoing, PUBREL_STATES) == [] && Resume(c, true, sent) == (Success, c)
    ensures Resume(c, false, sent) == (Success, Client(Tables([], []), c.log + [SessionCleared]))
  {
    NoPubrels(c.tables.outgoing);
  }

  /** With no records left, a table of free entries agrees with them. */
  lemma {:induction false} AgreeWithNothing(slots: seq<Entry>)
    ensures (forall i :: 0 <= i < |slots| ==> slots[i] == FREE) ==> Agree(slots, []) && Covered(slots, [])
  {
  }

  class AppTable {
    const slots: array<Entry>
    const client: MqttClient
    var nextPacketId: uint16

    ghost predicate Valid()
      reads this, slots, client, client.context, client.context.outgoing, client.context.incoming
    {
      && client.Valid()
      && nextPacketId != 0
      && slots.Length <= client.context.outgoing.Length
      && Agree(slots[..], client.View().tables.outgoing)
    }

    /** Every live record has an entry; lost only when a send fails after the reservation. */
    ghost predicate Synced()
      reads this, slots, client, client.context, client.context.outgoing, client.context.incoming
    {
      Covered(slots[..], client.View().tables.outgoing)
    }

    /** The oldest record is that of this packet id, and has no entry. */
    ghost predicate Stuck(id: uint16)
      reads this, slots, client, client.context, client.context.outgoing, client.context.incoming
    {
      StuckOn(slots[..], client.View().tables.outgoing, id)
    }

    constructor (client: MqttClient, count: nat)
      requires client.Valid() && client.View().tables.outgoing == [] && count <= client.context.outgoing.Length
      ensures Valid() && Synced() && this.client == client && slots.Length == count && fresh(slots)
      ensures nextPacketId == 1 && forall i :: 0 <= i < count ==> slots[i] == FREE
    {
      this.client := client;
      slots := new Entry[count](_ => FREE);
      nextPacketId := 1;
    }

    method GetNextFreeIndex() returns (found: bool, index: nat)
      ensures found <==> Listed(slots[..], 0)
      ensures found ==> index < slots.Length && slots[index].packetId == 0
    {
      index := 0;
      while index < slots.Length
        invariant index <= slots.Length
        invariant forall i :: 0 <= i < index ==> slots[i].packetId != 0
      {
        if slots[index].packetId == 0 {
          assert slots[..][index].packetId == 0;
          return true, index;
        }
        index := index + 1;
      }
      found := false;
    }

    /** Clears the first entry with the id, if there is one. */
    method CleanupWithPacketId(packetId: uint16)
      requires packetId != 0
      modifies slots
      ensures !Listed(old(slots[..]), packetId) ==> slots[..] == old(slots[..])
      ensures Listed(old(slots[..]), packetId) ==>
                exists i :: 0 <= i < slots.Length && FirstListed(old(slots[..]), packetId, i)
                            && slots[..] == old(slots[..])[i := FREE]
    {
      var index := 0;
      while index < slots.Length
        invariant index <= slots.Length && slots[..] == old(slots[..])
        invariant forall i :: 0 <= i < index ==> slots[i].packetId != packetId
      {
        if slots[index].packetId == packetId {
          assert FirstListed(slots[..], packetId, index);
          slots[index] := FREE;
          return;
        }
        index := index + 1;
      }
    }

    method PublishToTopic(topic: string, payload: string, sizeOk: bool, sent: bool) returns (status: Status)
      requires Valid()
      modifies this, slots, client, client.context.outgoing, client.context.incoming
      ensures Valid()
      // without a failed send the two stay in step, and then the records never run out
      ensures old(Synced()) && sent ==> Synced()
      ensures forall stuck :: old(Stuck(stuck)) ==> Stuck(stuck)
      ensures old(Synced()) && status == NoMemory ==> !old(Listed(slots[..], 0))
      ensures status == Success ==>
                exists i :: 0 <= i < slots.Length && old(slots[i].packetId) == 0
                            && slots[..] == old(slots[..])[i := Entry(old(nextPacketId), topic, payload, false)]
      ensures status != Success && old(DistinctFree()) ==> slots[..] == old(slots[..])
      ensures !old(Listed(slots[..], 0)) ==>
                && status == NoMemory && nextPacketId == old(nextPacketId)
                && slots[..] == old(slots[..]) && client.View() == old(client.View())
      ensures old(Listed(slots[..], 0)) ==> nextPacketId == NextId(old(nextPacketId))
      ensures client.log == old(client.log) + if status == Success then [Published(old(nextPacketId), QoS1)] else []
      // a reservation outlives a failed send, its entry does not
      ensures old(Listed(slots[..], 0)) && sizeOk && !HasId(old(client.View()).tables.outgoing, old(nextPacketId))
              && |old(client.View()).tables.outgoing| < client.context.outgoing.Length ==>
                && status == (if sent then Success else SendFailed)
                && UsedEnd(MadeRoom(old(client.context.outgoing[..]))) < client.context.outgoing.Length
                && client.context.outgoing[..] ==
                   Placed(old(client.context.outgoing[..]),
                          Record(old(nextPacketId), QoS1, if sent then PubAckPending else PublishSend))
    {
      hide Agree, Covered, Placed, UsedEnd, MadeRoom, Live, Find, CleanSlots, LegalTables, PublishOutcome, StuckOn,
        HasId;
      var found, index := GetNextFreeIndex();
      if !found {
        return NoMemory;
      }
      ghost var was, c := slots[..], client.View();
      assert was[index].packetId == 0;
      var id := nextPacketId;
      nextPacketId := NextId(nextPacketId);
      PublishKeeps(was, index, Entry(id, topic, payload, false), c, client.context.outgoing.Length, sizeOk, sent);
      slots[index] := Entry(id, topic, payload, false);
      status := client.Publish(id, QoS1, false, sizeOk, sent);
      if status != Success {
        slots[index] := FREE;
      }
      assert slots[..] == was[index := if status == Success then Entry(id, topic, payload, false) else FREE];
    }

    /** Every unused entry is entirely cleared. */
    ghost predicate DistinctFree()
      reads slots
    {
      forall i :: 0 <= i < slots.Length && slots[i].packetId == 0 ==> slots[i] == FREE
    }

    /** A PUBACK: the library drops its record and, if it had one, calls back to drop the entry. */
    method PubackArrives(packetId: uint16) returns (status: Status)
      requires Valid()
      modifies slots, client, client.context.outgoing, client.context.incoming
      ensures Valid()
      ensures old(Synced()) ==> Synced()
      ensures forall stuck :: old(Stuck(stuck)) && stuck != packetId ==> Stuck(stuck)
      // it is accepted exactly when its publish went out and was not acknowledged
      ensures status == Success <==>
                && packetId != 0 && HasId(old(client.View()).tables.outgoing, packetId)
                && Find(old(client.View()).tables.outgoing, packetId).state == PubAckPending
      ensures status == Success ==>
                && !Listed(slots[..], packetId) && !HasId(client.View().tables.outgoing, packetId)
                && client.View().tables.outgoing == Remove(old(client.View()).tables.outgoing, packetId)
                && client.log == old(client.log) + [AckReported(packetId, Puback)]
                && forall i :: 0 <= i < slots.Length ==>
                     slots[i] == if old(slots[i]).packetId == packetId then FREE else old(slots[i])
      ensures status != Success ==> slots[..] == old(slots[..]) && client.View() == old(client.View())
    {
      hide Agree, Covered, CleanSlots, Live, Remove, LegalTables, IncomingAck, StuckOn, FirstListed, Find, HasId;
      ghost var was, c := slots[..], client.View();
      PubackEffect(c, packetId);
      status := client.HandlePublishAcks(packetId, Puback, false);
      if status == Success {
        CleanupWithPacketId(packetId);
        PubackKeeps(was, c.tables, packetId, slots[..]);
      }
    }

    /** Publishes a stored entry once more, as a duplicate. */
    method PublishAgain(index: nat, sent: bool) returns (ok: bool)
      requires Valid() && index < slots.Length && slots[index].packetId != 0
      modifies slots, client, client.context.outgoing, client.context.incoming
      ensures Valid() && SameEntries(old(slots[..]), slots[..]) && (old(Synced()) ==> Synced())
      ensures ok == sent
      // the stored publish goes out, once
      ensures client.log == old(client.log) + if sent then [Published(old(slots[index].packetId), QoS1)] else []
      ensures SamePending(client.context.outgoing[..], MadeRoom(old(client.context.outgoing[..])))
    {
      hide Agree, Covered, LegalTables, CleanSlots, SamePending, SetState, PublishOutcome, Find, HasId, MadeRoom, Live;
      ghost var was, records := slots[..], client.View().tables.outgoing;
      var id := slots[index].packetId;
      assert was[index].packetId == id;
      BackedAt(was, records, index);
      DuplicateEffect(client.View(), client.context.outgoing.Length, id, sent);
      StateKeepsAgreement(was, records, id, PubAckPending);
      slots[index] := slots[index].(dup := true);
      var status := client.Publish(id, QoS1, true, true, sent);
      SameEntriesAgree(was, slots[..], client.View().tables.outgoing);
      ok := status == Success;
    }

    /** The body of the resend loop: finds the entry of a packet id and publishes it again. */
    method ResendOne(packetId: uint16, sent: bool) returns (found: bool, ok: bool)
      requires Valid() && packetId != 0
      modifies slots, client, client.context.outgoing, client.context.incoming
      ensures Valid() && SameEntries(old(slots[..]), slots[..]) && (old(Synced()) ==> Synced())
      ensures found <==> old(Listed(slots[..], packetId))
      ensures !found ==> client.View() == old(client.View())
      ensures found ==>
                && ok == sent && SamePending(client.context.outgoing[..], MadeRoom(old(client.context.outgoing[..])))
                && client.log == old(client.log) + if sent then [Published(packetId, QoS1)] else []
    {
      hide Agree, Covered, LegalTables, CleanSlots, SamePending, MadeRoom, Find;
      found, ok := false, true;
      ghost var was, room, synced := slots[..], MadeRoom(client.context.outgoing[..]), Synced();
      var index := 0;
      while index < slots.Length
        invariant index <= slots.Length && Valid() && (synced ==> Synced()) && SameEntries(was, slots[..])
        invariant !found ==> room == MadeRoom(client.context.outgoing[..]) && client.View() == old(client.View())
        invariant !found ==> forall i :: 0 <= i < index ==> was[i].packetId != packetId
        invariant found ==> ok && sent && SamePending(client.context.outgoing[..], room) && Listed(was, packetId)
        invariant found ==> client.log == old(client.log) + [Published(packetId, QoS1)]
        invariant found ==> forall i :: index <= i < slots.Length ==> was[i].packetId != packetId
      {
        assert slots[..][index].packetId == was[index].packetId;
        if slots[index].packetId == packetId {
          found := true;
          BackedAt(slots[..], client.View().tables.outgoing, index);
          assert forall i :: index < i < slots.Length ==> was[i].packetId == slots[..][i].packetId;
          ok := PublishAgain(index, sent);
          if !ok {
            break;
          }
        }
        index := index + 1;
      }
    }

    /** One round of the resend loop: the publish at hand, then the cursor's next packet id. */
    method ResendNext(packetId: uint16, cursor: nat, sent: bool)
      returns (found: bool, ok: bool, nextId: uint16, next: nat)
      requires Valid() && packetId != 0 && cursor <= client.context.outgoing.Length
      modifies slots, client, client.context.outgoing, client.context.incoming
      ensures Valid() && SameEntries(old(slots[..]), slots[..]) && (old(Synced()) ==> Synced())
      ensures found <==> old(Listed(slots[..], packetId))
      ensures !found ==> client.View() == old(client.View())
      ensures cursor <= next <= client.context.outgoing.Length && (found && nextId != 0 ==> cursor < next)
      ensures found ==>
                && ok == sent && SamePending(client.context.outgoing[..], MadeRoom(old(client.context.outgoing[..])))
                && client.log == old(client.log) + (if sent then [Published(packetId, QoS1)] else [])
                && CursorAt(client.context.outgoing[..], cursor, nextId, next)
                && (nextId != 0 ==> HasId(client.View().tables.outgoing, nextId))
    {
      hide Agree, Covered, LegalTables, CleanSlots, SamePending, MadeRoom, Find, Select, HasId, Live, SameEntries;
      nextId, next := packetId, cursor;
      found, ok := ResendOne(packetId, sent);
      if found {
        nextId, next := client.context.PublishToResend(cursor);
        IdIsLive(client.context.outgoing[..], nextId);
      }
    }

    method HandlePublishResend(sent: nat -> bool) returns (ok: bool, resent: seq<uint16>)
      requires Valid()
      modifies slots, client, client.context.outgoing, client.context.incoming
      ensures Valid() && SameEntries(old(slots[..]), slots[..]) && (old(Synced()) ==> Synced())
      // the ids the cursor visits are published again up to the first one without an entry
      ensures resent == ListedPrefix(old(slots[..]), Visited(old(client.context.outgoing[..])))
      ensures ok <==> resent == Visited(old(client.context.outgoing[..])) && AllSent(sent, |resent|)
      // and these publishes go out, in this order, but for failed sends
      ensures client.log == old(client.log) + SentAgain(resent, sent)
      // in step, every id visited has one
      ensures old(Synced()) ==> resent == Visited(old(client.context.outgoing[..]))
      // with no entry for the oldest, nothing is, now or later
      ensures forall stuck :: old(Stuck(stuck)) ==> !ok && resent == [] && Stuck(stuck)
    {
      hide Agree, Covered, LegalTables, CleanSlots, SamePending, MadeRoom, Find, Select, Visited, OnTrack, HasId, Live,
        SameEntries, AllSent, CursorAt, Listed, ListedPrefix, AllListed, Awaiting, SentAgain;
      ok, resent := true, [];
      ghost var was, synced, first := slots[..], Synced(), client.context.outgoing[..];
      var packetId, cursor := FirstToResend();
      StartOnTrack(first, packetId, cursor);
      StuckStops(was, first, client.View().tables);
      AllSentStep(sent, 0);
      AllListedStep(was, [], 0);
      NothingSent(client.log, sent);
      SameEntriesChain(was, was, was);
      while packetId != 0
        invariant Valid() && (synced ==> Synced()) && SameEntries(was, slots[..])
        invariant packetId != 0 ==> HasId(client.View().tables.outgoing, packetId)
        invariant cursor <= client.context.outgoing.Length && (packetId != 0 ==> cursor > 0)
        invariant AllListed(was, resent) && (ok <==> AllSent(sent, |resent|))
        invariant client.log == old(client.log) + SentAgain(resent, sent)
        invariant OnTrack(first, client.context.outgoing[..], resent, packetId, cursor)
        invariant resent == [] ==> client.View() == old(client.View())
        decreases client.context.outgoing.Length - cursor + (if packetId != 0 then 1 else 0)
      {
        ghost var before, entries := client.context.outgoing[..], slots[..];
        if synced {
          CoveredIsListed(slots[..], client.View().tables.outgoing, packetId);
        }
        var found, sentOk, nextId, next := ResendNext(packetId, cursor, sent(|resent|));
        SameEntriesChain(was, entries, slots[..]);
        SameEntriesListed(was, entries, packetId);
        if !found {
          StopTrack(was, first, before, resent, packetId, cursor);
          StuckSame(was, slots[..], client.View().tables.outgoing);
          return false, resent;
        }
        StayOnTrack(first, before, client.context.outgoing[..], resent, packetId, cursor, nextId, next);
        AllListedStep(was, resent, packetId);
        SentNext(old(client.log), resent, packetId, sent);
        AllSentStep(sent, |resent|);
        ok := ok && sentOk;
        resent := resent + [packetId];
        packetId, cursor := nextId, next;
      }
      EndOfTrack(first, client.context.outgoing[..], resent, cursor);
      ListedPrefixShape(was, resent);
    }

    /** The first packet id a resend publishes again. */
    method FirstToResend() returns (packetId: uint16, cursor: nat)
      requires Valid()
      ensures cursor <= client.context.outgoing.Length && (packetId != 0 ==> cursor > 0)
      ensures packetId != 0 ==> HasId(client.View().tables.outgoing, packetId)
      ensures var first := client.context.outgoing[..];
        Visited(first) == if packetId == 0 then [] else [packetId] + Awaiting(MadeRoom(first)[cursor..])
    {
      hide Agree, LegalTables, CleanSlots, MadeRoom, Select, Visited, HasId, Live, Awaiting;
      assert client.context.outgoing[0..] == client.context.outgoing[..];
      packetId, cursor := client.context.PublishToResend(0);
      FirstVisit(client.context.outgoing[..], client.View().tables, packetId, cursor);
      IdIsLive(client.context.outgoing[..], packetId);
    }

    method CleanupAll()
      modifies slots
      ensures forall i :: 0 <= i < slots.Length ==> slots[i] == FREE
    {
      for i := 0 to slots.Length
        invariant forall j :: 0 <= j < i ==> slots[j] == FREE
      {
        slots[i] := FREE;
      }
    }

    /** A connection to the broker: the library resumes or wipes its records, and the application sends the stored
        publishes again or forgets them all, so that both start over together. */
    method Connected(sessionPresent: bool, sent: nat -> bool) returns (ok: bool, resent: seq<uint16>)
      requires Valid()
      modifies slots, client, client.context.outgoing, client.context.incoming
      ensures Valid() && (old(Synced()) ==> Synced())
      ensures sessionPresent ==> SameEntries(old(slots[..]), slots[..])
      ensures sessionPresent ==>
                && resent == ListedPrefix(old(slots[..]), Visited(old(client.context.outgoing[..])))
                && (ok <==> resent == Visited(old(client.context.outgoing[..])) && AllSent(sent, |resent|))
                && client.log == old(client.log) + SentAgain(resent, sent)
      ensures sessionPresent ==> forall stuck :: old(Stuck(stuck)) ==> !ok && Stuck(stuck)
      ensures !sessionPresent ==>
                && ok && resent == [] && Synced()
                && client.View() == Client(Tables([], []), old(client.log) + [SessionCleared])
                && forall i :: 0 <= i < slots.Length ==> slots[i] == FREE
    {
      hide Agree, Covered, CleanSlots, Find, Live, Visited, ListedPrefix, AllSent, SentAgain, StuckOn, Select,
        ResendPubrels, SameEntries;
      ResumeWithoutPubrels(slots[..], client.View(), sent);
      AgreeWithNothing(slots[..]);
      var status := client.HandleSessionResumption(sessionPresent, sent);
      if sessionPresent {
        assert forall stuck :: old(Stuck(stuck)) ==> Stuck(stuck);
        ok, resent := HandlePublishResend(sent);
      } else {
        CleanupAll();
        ok, resent := true, [];
        AgreeWithNothing(slots[..]);
      }
    }
  }

  // ----- a failed send leaves a record without an entry

  /** Ten slots, the first two of them taken: publish 1 was reserved only, publish 2 was sent. */
  ghost function Reserved(n: nat): (slots: seq<Record>)
    requires n <= 2
    ensures |slots| == 10
  {
    seq(10, i requires 0 <= i < 10 =>
      if i >= n then EMPTY else Record(i + 1, QoS1, if i == 0 then PublishSend else PubAckPending))
  }

  lemma {:induction false} ReservedPlaces(n: nat, r: Record)
    requires n < 2 && r.packetId == n + 1
    ensures MadeRoom(Reserved(n)) == Reserved(n) && UsedEnd(Reserved(n)) == n
    ensures CleanSlots(Reserved(n)) && !HasId(Live(Reserved(n)), r.packetId) && |Live(Reserved(n))| < 10
  {
    hide UsedEnd, Live, Compacted;
    UsedEndIs(Reserved(n), n);
    LiveHasId(Reserved(n), r.packetId);
    assert forall i :: 0 <= i < 10 ==> Reserved(n)[i].packetId != n + 1;
    LiveLength(Reserved(n));
    assert Reserved(n)[9].packetId == 0;
  }

  /** Both records await a resend, and the cursor visits both. */
  lemma {:induction false} ReservedAwaiting()
    ensures CleanSlots(Reserved(2)) && Reserved(2)[9].packetId == 0
    ensures Awaiting(Reserved(2)) == Visited(Reserved(2)) == [1, 2]
    ensures Live(Reserved(2)) != [] && Live(Reserved(2))[0].packetId == 1
  {
    hide Select, IdsOf, Visited, Jumped;
    var a, b := Record(1, QoS1, PublishSend), Record(2, QoS1, PubAckPending);
    assert Reserved(2) == [a, b] + seq(8, _ => EMPTY);
    SelectConcat([a, b], seq(8, _ => EMPTY), PUBLISH_STATES);
    SelectFree(8);
    SelectPair(a, b);
    LiveConcat([a, b], seq(8, _ => EMPTY));
    LiveOfLive([a, b]);
    assert [a, b] + [] == [a, b];
    CursorCompleteIff(Reserved(2));
  }

  /** The send of publish 1 fails and that of publish 2 succeeds: both await a resend and the cursor misses neither,
      but the first has no entry, so that no resend of the session publishes anything. */
  method ReachUnlistedRecord() returns (t: AppTable)
    ensures fresh(t) && t.Valid() && t.slots.Length == 5 && t.client.context.outgoing.Length == 10
    ensures var slots := t.client.context.outgoing[..];
      && slots[9].packetId == 0 && Awaiting(slots) == Visited(slots) == [1, 2]
      && t.Stuck(1) && Listed(t.slots[..], 2) && ListedPrefix(t.slots[..], Visited(slots)) == []
  {
    hide Awaiting, Visited, Select, Live, Find, LegalTables, CleanSlots, UsedEnd, MadeRoom, Agree, ListedPrefix;
    var c := new Context(10, 10);
    NothingReserved(c.outgoing[..], c.View());
    var client := new MqttClient(c);
    t := new AppTable(client, 5);
    PublishOne(t, 0, false);
    PublishOne(t, 1, true);
    ReservedAwaiting();
    ListedPrefixStops(t.slots[..], [], [1, 2]);
    assert [] + [1, 2] == [1, 2];
  }

  /** All entries are free, and as many publishes were tried as records are there. */
  ghost predicate Tried(t: AppTable, n: nat)
    reads t, t.slots, t.client, t.client.context, t.client.context.outgoing, t.client.context.incoming
  {
    && t.Valid() && n <= 2 && t.slots.Length == 5 && t.nextPacketId == n + 1
    && t.client.context.outgoing[..] == Reserved(n)
  }

  /** The next publish of the run: what becomes of the record and of the entry. */
  method PublishOne(t: AppTable, ghost n: nat, sent: bool)
    requires n < 2 && Tried(t, n) && sent == (n == 1) && forall i :: 0 <= i < 5 ==> t.slots[i] == FREE
    modifies t, t.slots, t.client, t.client.context.outgoing, t.client.context.incoming
    ensures Tried(t, n + 1)
    ensures !sent ==> forall i :: 0 <= i < 5 ==> t.slots[i] == FREE
    ensures sent ==> !Listed(t.slots[..], 1) && Listed(t.slots[..], 2)
  {
    hide Live, Find, LegalTables, CleanSlots, UsedEnd, MadeRoom, Agree, PublishOutcome;
    ghost var was, records := t.slots[..], t.client.context.outgoing[..];
    assert was[0].packetId == 0;
    ReservedPlaces(n, Record(n + 1, QoS1, if sent then PubAckPending else PublishSend));
    var status := t.PublishToTopic("t", "a", true, sent);
    assert t.client.context.outgoing[..] ==
           Reserved(n)[n := Record(n + 1, QoS1, if sent then PubAckPending else PublishSend)] == Reserved(n + 1);
    if sent {
      ghost var i :| 0 <= i < 5 && t.slots[..] == was[i := Entry(2, "t", "a", false)];
      assert t.slots[..][i].packetId == 2;
    } else {
      assert t.slots[..] == was;
    }
  }

  lemma {:induction false} NothingReserved(slots: seq<Record>, t: Tables)
    requires |slots| == 10 && CleanSlots(slots) && t.outgoing == Live(slots) == []
    ensures slots == Reserved(0)
  {
    EmptyWindow(slots, t);
  }

  /** What goes out when these ids are published again and the transport decides about each. */
  function SentAgain(ids: seq<uint16>, sent: nat -> bool): seq<Effect> {
    if ids == [] then []
    else
      var n := |ids| - 1;
      SentAgain(ids[..n], sent) + if sent(n) then [Published(ids[n], QoS1)] else []
  }

  lemma {:induction false} NothingSent(log: seq<Effect>, sent: nat -> bool)
    ensures log + SentAgain([], sent) == log
  {
  }

  lemma {:induction false} SentNext(log: seq<Effect>, ids: seq<uint16>, id: uint16, sent: nat -> bool)
    ensures log + SentAgain(ids, sent) + (if sent(|ids|) then [Published(id, QoS1)] else [])
         == log + SentAgain(ids + [id], sent)
  {
    assert (ids + [id])[..|ids|] == ids;
  }

  /** With a working transport that is every one of them. */
  lemma {:induction false} AllSentAgain(ids: seq<uint16>, sent: nat -> bool, k: nat)
    requires AllSent(sent, |ids|) && k < |ids|
    ensures |SentAgain(ids, sent)| == |ids| && SentAgain(ids, sent)[k] == Published(ids[k], QoS1)
    decreases |ids|
  {
    var n := |ids| - 1;
    if n > 0 {
      AllSentAgain(ids[..n], sent, if k < n then k else 0);
    } else {
      assert ids[..0] == [];
    }
  }

  /** The first n sends succeed. */
  ghost predicate AllSent(sent: nat -> bool, n: nat) {
    forall k :: 0 <= k < n ==> sent(k)
  }

  lemma {:induction false} AllSentStep(sent: nat -> bool, n: nat)
    ensures AllSent(sent, n + 1) <==> AllSent(sent, n) && sent(n)
    ensures AllSent(sent, 0)
  {
  }

  lemma {:induction false} SameEntriesChain(a: seq<Entry>, b: seq<Entry>, c: seq<Entry>)
    ensures SameEntries(a, b) && SameEntries(b, c) ==> SameEntries(a, c)
    ensures SameEntries(a, a)
  {
  }

  /** A cursor stepped from `cursor` to `next` and came upon this packet id. */
  ghost predicate CursorAt(slots: seq<Record>, cursor: nat, packetId: uint16, next: nat)
    requires cursor <= next <= |slots|
  {
    var selected := Select(slots[cursor..], PUBLISH_STATES);
    if selected == [] then packetId == 0
    else packetId == selected[0].packetId != 0 && Select(slots[next..], PUBLISH_STATES) == selected[1..]
  }

  /** What is published so far, the packet at hand and what the cursor will still find make up the ids
      the resend visits. */
  ghost predicate OnTrack(first: seq<Record>, now: seq<Record>, resent: seq<uint16>, packetId: uint16, cursor: nat) {
    && cursor <= |now| == |first|
    && (if resent == [] then now == first else SamePending(now, MadeRoom(first)))
    && Visited(first) == resent + (if packetId == 0 then [] else [packetId] + Awaiting(MadeRoom(first)[cursor..]))
  }

  lemma {:induction false} StartOnTrack(first: seq<Record>, packetId: uint16, cursor: nat)
    requires cursor <= |first|
    requires Visited(first) == if packetId == 0 then [] else [packetId] + Awaiting(MadeRoom(first)[cursor..])
    ensures OnTrack(first, first, [], packetId, cursor)
  {
  }

  lemma {:induction false} EndOfTrack(first: seq<Record>, now: seq<Record>, resent: seq<uint16>, cursor: nat)
    requires OnTrack(first, now, resent, 0, cursor)
    ensures resent == Visited(first)
  {
  }

  /** An id without an entry ends the resend. */
  lemma {:induction false} StopTrack(entries: seq<Entry>, first: seq<Record>, now: seq<Record>, resent: seq<uint16>,
                                     packetId: uint16, cursor: nat)
    requires packetId != 0 && OnTrack(first, now, resent, packetId, cursor)
    requires AllListed(entries, resent) && !Listed(entries, packetId)
    ensures ListedPrefix(entries, Visited(first)) == resent != Visited(first)
  {
    hide Visited, Awaiting, MadeRoom, SamePending, ListedPrefix, Listed, AllListed;
    ListedPrefixStops(entries, resent, [packetId] + Awaiting(MadeRoom(first)[cursor..]));
  }

  lemma {:induction false} AllListedStep(entries: seq<Entry>, ids: seq<uint16>, id: uint16)
    ensures AllListed(entries, ids) && Listed(entries, id) ==> AllListed(entries, ids + [id])
    ensures AllListed(entries, [])
  {
    hide Listed;
  }

  lemma {:induction false} SameEntriesListed(a: seq<Entry>, b: seq<Entry>, id: uint16)
    requires SameEntries(a, b)
    ensures Listed(a, id) <==> Listed(b, id)
  {
    if i :| 0 <= i < |a| && a[i].packetId == id {
      assert b[i].packetId == id;
    }
    if i :| 0 <= i < |b| && b[i].packetId == id {
      assert a[i].packetId == id;
    }
  }

  lemma {:induction false} StayOnTrack(first: seq<Record>, before: seq<Record>, now: seq<Record>, resent: seq<uint16>,
                    packetId: uint16, cursor: nat, nextId: uint16, next: nat)
    requires CleanSlots(first) && CleanSlots(before)
    requires packetId != 0 && OnTrack(first, before, resent, packetId, cursor)
    requires SamePending(now, MadeRoom(before)) && cursor <= next <= |now|
    requires CursorAt(now, cursor, nextId, next)
    ensures OnTrack(first, now, resent + [packetId], nextId, next)
  {
    hide Visited, Select, CleanSlots, MadeRoom, Awaiting;
    if resent != [] {
      MadeRoomOnce(first, before);
    }
    SamePendingChain(now, MadeRoom(before), MadeRoom(first));
    NextVisit(now, MadeRoom(first), cursor, next, nextId);
    assert resent + ([packetId] + Awaiting(MadeRoom(first)[cursor..])) ==
           resent + [packetId] + Awaiting(MadeRoom(first)[cursor..]);
  }

  lemma {:induction false} SamePendingChain(a: seq<Record>, b: seq<Record>, c: seq<Record>)
    requires SamePending(a, b) && SamePending(b, c)
    ensures SamePending(a, c)
  {
  }

  /** The first step of the cursor finds the first record to resend. */
  lemma {:induction false} FirstVisit(slots: seq<Record>, t: Tables, packetId: uint16, next: nat)
    requires CleanSlots(slots) && LegalTables(t) && t.outgoing == Live(slots) && next <= |slots|
    requires var selected := Select(slots, PUBLISH_STATES);
             if selected == [] then packetId == 0
             else next > 0 && slots[next - 1] == selected[0] && packetId == selected[0].packetId != 0
    ensures packetId == 0 ==> Visited(slots) == []
    ensures packetId != 0 ==> Visited(slots) == [packetId] + Awaiting(MadeRoom(slots)[next..])
  {
    hide Select, Live, Find, CleanSlots, MadeRoom, Awaiting, FirstAwaiting;
    var first := FirstAwaiting(slots);
    FirstSelected(slots);
    if first < |slots| {
      SlotOfId(slots, first);
      SlotOfId(slots, next - 1);
    }
  }

  lemma {:induction false} FirstSelected(slots: seq<Record>)
    ensures var first, selected := FirstAwaiting(slots), Select(slots, PUBLISH_STATES);
            if first == |slots| then selected == [] else selected != [] && selected[0] == slots[first]
  {
    hide FirstAwaiting;
    var first := FirstAwaiting(slots);
    NothingBeforeFirst(slots, first);
    if first < |slots| {
      assert slots[first..][0] == slots[first];
    }
  }

  /** A later step of the cursor continues in the compacted array. */
  lemma {:induction false} NextVisit(slots: seq<Record>, room: seq<Record>, cursor: nat, next: nat, packetId: uint16)
    requires SamePending(slots, room) && cursor <= next <= |slots| && CursorAt(slots, cursor, packetId, next)
    ensures Awaiting(room[cursor..]) == if packetId == 0 then [] else [packetId] + Awaiting(room[next..])
  {
    SamePendingFrom(slots, room, cursor);
    SamePendingFrom(slots, room, next);
  }

  lemma {:induction false} IdIsLive(slots: seq<Record>, packetId: uint16)
    requires packetId != 0 ==> HasId(slots, packetId)
    ensures packetId != 0 ==> HasId(Live(slots), packetId)
  {
    if packetId != 0 { LiveHasId(slots, packetId); }
  }

  lemma {:induction false} FreeAgain(slots: seq<Entry>, at: nat, records: seq<Record>)
    requires Agree(slots, records) && at < |slots| && slots[at].packetId == 0
    ensures Agree(slots[at := FREE], records)
    ensures (forall i :: 0 <= i < |records| ==> records[i].packetId != 0) && Covered(slots, records) ==>
              Covered(slots[at := FREE], records)
  {
    forall k | 0 <= k < |records| && Covered(slots, records) && records[k].packetId != 0
      ensures Listed(slots[at := FREE], records[k].packetId)
    {
      RelistedElsewhere(slots, at, FREE, records[k]);
    }
  }
}
