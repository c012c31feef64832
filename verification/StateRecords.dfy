/** The publish state records of core_mqtt_state.c: two fixed arrays with holes,
    compacted in place, proved against ordered sequences of live records. */
module StateRecords {

  import opened Types

  datatype State =
    | StateNull
    | PublishSend
    | PubAckSend
    | PubRecSend
    | PubRelSend
    | PubCompSend
    | PubAckPending
    | PubRecPending
    | PubRelPending
    | PubCompPending
    | PublishDone

  datatype AckType = Puback | Pubrec | Pubrel | Pubcomp

  datatype Operation = Send | Receive

  datatype Status =
    | Success
    | BadParameter
    | NoMemory
    | SendFailed
    | BadResponse
    | IllegalState
    | StateCollision

  datatype Record = Record(packetId: uint16, qos: QoS, publishState: State)

  const EMPTY := Record(0, QoS0, StateNull)

  /** A lookup result; the source returns an all-ones index when nothing is found. */
  datatype Lookup = Missing | Found(index: nat, qos: QoS, state: State)

  // ----- sequences of live records

  /** The live records of an array, in order: the queue the array stands for. */
  function Live(slots: seq<Record>): seq<Record> {
    if slots == [] then []
    else if slots[0].packetId != 0 then [slots[0]] + Live(slots[1..])
    else Live(slots[1..])
  }

  lemma {:induction false} LiveFirst(r: Record, rest: seq<Record>)
    ensures Live([r] + rest) == (if r.packetId != 0 then [r] + Live(rest) else Live(rest)) && Live([]) == []
  {
    assert ([r] + rest)[1..] == rest;
  }

  lemma {:induction false} LiveConcat(a: seq<Record>, b: seq<Record>)
    ensures Live(a + b) == Live(a) + Live(b)
  {
    hide Live;
    if a == [] {
      LiveFirst(EMPTY, b);
      assert a + b == b;
    } else {
      var rest := a[1..];
      LiveConcat(rest, b);
      assert a == [a[0]] + rest && a + b == [a[0]] + (rest + b);
      LiveFirst(a[0], rest);
      LiveFirst(a[0], rest + b);
    }
  }

  lemma {:induction false} LiveOfFree(slots: seq<Record>)
    requires forall i :: 0 <= i < |slots| ==> slots[i].packetId == 0
    ensures Live(slots) == []
  {
    if slots != [] { LiveOfFree(slots[1..]); }
  }

  lemma {:induction false} LiveOfLive(slots: seq<Record>)
    requires forall i :: 0 <= i < |slots| ==> slots[i].packetId != 0
    ensures Live(slots) == slots
  {
    if slots != [] { LiveOfLive(slots[1..]); }
  }

  lemma {:induction false} LiveStep(slots: seq<Record>, n: nat)
    requires n < |slots|
    ensures Live(slots[..n + 1]) == Live(slots[..n]) + (if slots[n].packetId == 0 then [] else [slots[n]])
  {
    LiveConcat(slots[..n], [slots[n]]);
    assert slots[..n + 1] == slots[..n] + [slots[n]];
  }

  lemma {:induction false} LiveLength(slots: seq<Record>)
    ensures |Live(slots)| <= |slots|
    ensures |Live(slots)| == |slots| <==> forall i :: 0 <= i < |slots| ==> slots[i].packetId != 0
  {
    if slots != [] {
      LiveLength(slots[1..]);
      if forall i :: 0 <= i < |slots| ==> slots[i].packetId != 0 {
        assert forall i :: 0 <= i < |slots[1..]| ==> slots[1..][i] == slots[i + 1];
      }
      if forall i :: 0 <= i < |slots[1..]| ==> slots[1..][i].packetId != 0 {
        assert forall i :: 1 <= i < |slots| ==> slots[i] == slots[1..][i - 1];
      }
    }
  }

  predicate HasId(records: seq<Record>, id: uint16) {
    exists i :: 0 <= i < |records| && records[i].packetId == id
  }

  lemma {:induction false} LiveHasId(slots: seq<Record>, id: uint16)
    requires id != 0
    ensures HasId(Live(slots), id) <==> HasId(slots, id)
  {
    if slots != [] {
      LiveHasId(slots[1..], id);
      var l, r := Live(slots), Live(slots[1..]);
      if HasId(slots, id) && slots[0].packetId != id {
        var i :| 0 <= i < |slots| && slots[i].packetId == id;
        assert slots[1..][i - 1].packetId == id;
      }
      if HasId(slots[1..], id) {
        var i :| 0 <= i < |slots[1..]| && slots[1..][i].packetId == id;
        assert slots[i + 1].packetId == id;
      }
      if HasId(r, id) {
        var i :| 0 <= i < |r| && r[i].packetId == id;
        assert l[|l| - |r| + i].packetId == id;
      }
      if slots[0].packetId == id {
        assert l[0].packetId == id;
      }
    }
  }

  /** Drops the first record with the given id. */
  function Remove(records: seq<Record>, id: uint16): seq<Record> {
    if records == [] then []
    else if records[0].packetId == id then records[1..]
    else [records[0]] + Remove(records[1..], id)
  }

  /** Changes the state of the first record with the given id, in place. */
  function SetState(records: seq<Record>, id: uint16, state: State): seq<Record> {
    if records == [] then []
    else if records[0].packetId == id then [records[0].(publishState := state)] + records[1..]
    else [records[0]] + SetState(records[1..], id, state)
  }

  function Find(records: seq<Record>, id: uint16): (found: Lookup)
    ensures found.Missing? <==> !HasId(records, id)
    ensures found.Found? ==> found.index < |records|
                             && records[found.index] == Record(id, found.qos, found.state)
                             && forall i :: 0 <= i < found.index ==> records[i].packetId != id
  {
    if records == [] then Missing
    else if records[0].packetId == id then Found(0, records[0].qos, records[0].publishState)
    else
      match Find(records[1..], id)
      case Missing =>
        assert forall i :: 0 < i < |records| ==> records[i] == records[1..][i - 1];
        Missing
      case Found(i, q, s) => Found(i + 1, q, s)
  }

  /** The lookup in the array and in the queue agree on everything but the index. */
  lemma {:induction false} FindInLive(slots: seq<Record>, id: uint16)
    requires id != 0
    ensures Find(slots, id).Missing? == Find(Live(slots), id).Missing?
    ensures Find(slots, id).Found? ==>
              && Find(slots, id).qos == Find(Live(slots), id).qos
              && Find(slots, id).state == Find(Live(slots), id).state
  {
    if slots != [] {
      FindInLive(slots[1..], id);
      if slots[0].packetId != 0 {
        assert Live(slots)[1..] == Live(slots[1..]);
      }
    }
  }

  /** Writing a slot writes that place of the queue. */
  lemma {:induction false} WriteInLive(slots: seq<Record>, i: nat, r: Record)
    requires i < |slots|
    ensures Live(slots[i := r]) == Live(slots[..i]) + (if r.packetId != 0 then [r] else []) + Live(slots[i + 1..])
  {
    hide Live;
    var a, b := slots[..i], slots[i + 1..];
    assert slots[i := r] == a + ([r] + b);
    LiveConcat(a, [r] + b);
    LiveFirst(r, b);
    if r.packetId == 0 {
      assert Live(a) + [] + Live(b) == Live(a) + Live(b);
    } else {
      assert Live(a) + [r] + Live(b) == Live(a) + ([r] + Live(b));
    }
  }

  /** Where the record with an id stands, removing and restating it are plain updates. */
  lemma {:induction false} UpdateBehind(a: seq<Record>, r: Record, b: seq<Record>, state: State)
    requires !HasId(a, r.packetId)
    ensures Remove(a + [r] + b, r.packetId) == a + b
    ensures SetState(a + [r] + b, r.packetId, state) == a + [r.(publishState := state)] + b
  {
    hide Remove, SetState;
    if a == [] {
      assert [] + [r] + b == [r] + b && [] + b == b;
      UpdateFirst(r, b, r.packetId, state);
    } else {
      var x, rest := a[0], a[1..];
      assert x.packetId != r.packetId && forall k :: 0 <= k < |rest| ==> rest[k] == a[k + 1];
      UpdateBehind(rest, r, b, state);
      assert a == [x] + rest;
      UpdateFirst(x, rest + [r] + b, r.packetId, state);
      Regroup([x], rest, [r], b);
      Regroup([x], rest, [r.(publishState := state)], b);
    }
  }

  lemma {:induction false} Regroup(x: seq<Record>, rest: seq<Record>, m: seq<Record>, b: seq<Record>)
    ensures (x + rest) + m + b == x + (rest + m + b) && (x + rest) + b == x + (rest + b)
  {
  }

  lemma {:induction false} UpdateFirst(x: Record, rest: seq<Record>, id: uint16, state: State)
    ensures Remove([x] + rest, id) == if x.packetId == id then rest else [x] + Remove(rest, id)
    ensures SetState([x] + rest, id, state)
         == if x.packetId == id then [x.(publishState := state)] + rest else [x] + SetState(rest, id, state)
  {
    assert ([x] + rest)[1..] == rest;
  }

  /** Clearing, or re-stating, the slot a lookup found does the same to the queue. */
  lemma {:induction false} UpdateInLive(slots: seq<Record>, id: uint16, state: State)
    requires id != 0 && Find(slots, id).Found?
    ensures var i := Find(slots, id).index;
            && Live(slots[i := EMPTY]) == Remove(Live(slots), id)
            && Live(slots[i := slots[i].(publishState := state)]) == SetState(Live(slots), id, state)
  {
    hide Live, Remove, SetState, HasId;
    var i := Find(slots, id).index;
    var a, b, r := Live(slots[..i]), Live(slots[i + 1..]), slots[i];
    WriteInLive(slots, i, EMPTY);
    WriteInLive(slots, i, r);
    WriteInLive(slots, i, r.(publishState := state));
    assert slots[i := r] == slots && a + [] + b == a + b;
    NoneInFront(slots, i, id);
    LiveHasId(slots[..i], id);
    UpdateBehind(a, r, b, state);
  }

  lemma {:induction false} NoneInFront(slots: seq<Record>, i: nat, id: uint16)
    requires i <= |slots| && forall k :: 0 <= k < i ==> slots[k].packetId != id
    ensures !HasId(slots[..i], id)
  {
  }

  // ----- transition rules

  /** Which state a PUBLISH may move a record to. */
  predicate ValidTransitionPublish(current: State, next: State, op: Operation, qos: QoS) {
    match current
    case StateNull => op == Receive && (next == PubAckSend || next == PubRecSend)
    case PublishSend =>
      (match qos
       case QoS1 => next == PubAckPending
       case QoS2 => next == PubRecPending
       case QoS0 => false)
    case PubAckPending => next == PubAckPending
    case PubRecPending => next == PubRecPending
    case _ => false
  }

  /** Which state an acknowledgement may move a record to. */
  predicate ValidTransitionAck(current: State, next: State) {
    match current
    case PubAckSend => next == PublishDone
    case PubAckPending => next == PublishDone
    case PubRecSend => next == PubRelPending
    case PubRelPending => next == PubCompSend || next == PubRelPending
    case PubCompSend => next == PublishDone || next == PubCompSend
    case PubRecPending => next == PubRelSend
    case PubRelSend => next == PubCompPending
    case PubCompPending => next == PublishDone || next == PubCompPending
    case _ => false
  }

  predicate IsPublishOutgoing(ack: AckType, op: Operation) {
    match ack
    case Pubrel => op == Send
    case _ => op == Receive
  }

  function CalculateStateAck(ack: AckType, op: Operation, qos: QoS): State {
    var qosValid := if ack == Puback then qos == QoS1 else qos == QoS2;
    var calculated :=
      match ack
      case Puback => PublishDone
      case Pubrec => if op == Send then PubRelPending else PubRelSend
      case Pubrel => if op == Send then PubCompPending else PubCompSend
      case Pubcomp => PublishDone;
    if qosValid then calculated else StateNull
  }

  function CalculateStatePublish(op: Operation, qos: QoS): State {
    match qos
    case QoS0 => PublishDone
    case QoS1 => if op == Send then PubAckPending else PubAckSend
    case QoS2 => if op == Send then PubRecPending else PubRecSend
  }

  // ----- the queue a context stands for, and what every entry point does to it

  datatype Tables = Tables(outgoing: seq<Record>, incoming: seq<Record>)

  /** Adding to a bounded queue with unique ids. */
  function Enqueue(records: seq<Record>, capacity: nat, r: Record): (Status, seq<Record>) {
    if HasId(records, r.packetId) then (StateCollision, records)
    else if |records| >= capacity then (NoMemory, records)
    else (Success, records + [r])
  }

  function Reserve(t: Tables, capacity: nat, id: uint16, qos: QoS): (Status, Tables) {
    if qos == QoS0 then (Success, t)
    else if id == 0 then (BadParameter, t)
    else
      var (status, out) := Enqueue(t.outgoing, capacity, Record(id, qos, PublishSend));
      (status, t.(outgoing := out))
  }

  function PublishSent(t: Tables, id: uint16, qos: QoS): (Status, Tables) {
    if qos == QoS0 then (Success, t)
    else if id == 0 then (BadParameter, t)
    else
      match Find(t.outgoing, id)
      case Missing => (BadParameter, t)
      case Found(_, q, state) =>
        var next := CalculateStatePublish(Send, qos);
        if q != qos then (BadParameter, t)
        else if !ValidTransitionPublish(state, next, Send, qos) then (IllegalState, t)
        else (Success, t.(outgoing := SetState(t.outgoing, id, next)))
  }

  function PublishReceived(t: Tables, capacity: nat, id: uint16, qos: QoS): (Status, Tables) {
    if qos == QoS0 then (Success, t)
    else if id == 0 then (BadParameter, t)
    else
      var (status, inc) := Enqueue(t.incoming, capacity, Record(id, qos, CalculateStatePublish(Receive, qos)));
      (status, t.(incoming := inc))
  }

  /** What an acknowledgement does to the queue it belongs to: a finished record leaves, a record
      that got its PUBREC goes to the back, any other record changes state where it is. */
  function AckRecords(records: seq<Record>, id: uint16, ack: AckType, op: Operation): (Status, seq<Record>) {
    match Find(records, id)
    case Missing => (BadResponse, records)
    case Found(_, qos, state) =>
      var next := CalculateStateAck(ack, op, qos);
      if !ValidTransitionAck(state, next) then (IllegalState, records)
      else if next == PublishDone then (Success, Remove(records, id))
      else if next == PubRelSend then (Success, Remove(records, id) + [Record(id, QoS2, PubRelSend)])
      else (Success, SetState(records, id, next))
  }

  function Acked(t: Tables, id: uint16, ack: AckType, op: Operation): (Status, Tables) {
    if id == 0 then (BadParameter, t)
    else if IsPublishOutgoing(ack, op) then
      var (status, out) := AckRecords(t.outgoing, id, ack, op);
      (status, t.(outgoing := out))
    else
      var (status, inc) := AckRecords(t.incoming, id, ack, op);
      (status, t.(incoming := inc))
  }

  function Cancelled(t: Tables, id: uint16): (Status, Tables) {
    match Find(t.outgoing, id)
    case Missing => (BadParameter, t)
    case Found(_, qos, state) =>
      if state == StateNull || qos == QoS0 then (BadParameter, t)
      else (Success, t.(outgoing := Remove(t.outgoing, id)))
  }

  // ----- what every table satisfies

  predicate UniqueIds(records: seq<Record>) {
    forall i, j :: 0 <= i < j < |records| ==> records[i].packetId != records[j].packetId
  }

  predicate OutgoingRecord(r: Record) {
    && r.packetId != 0
    && match r.qos
       case QoS0 => false
       case QoS1 => r.publishState in {PublishSend, PubAckPending}
       case QoS2 => r.publishState in {PublishSend, PubRecPending, PubRelSend, PubCompPending}
  }

  predicate IncomingRecord(r: Record) {
    && r.packetId != 0
    && match r.qos
       case QoS0 => false
       case QoS1 => r.publishState == PubAckSend
       case QoS2 => r.publishState in {PubRecSend, PubRelPending, PubCompSend}
  }

  /** Unique ids, and every record in a state its QoS and direction allow. */
  predicate LegalTables(t: Tables) {
    && UniqueIds(t.outgoing)
    && UniqueIds(t.incoming)
    && (forall i :: 0 <= i < |t.outgoing| ==> OutgoingRecord(t.outgoing[i]))
    && (forall i :: 0 <= i < |t.incoming| ==> IncomingRecord(t.incoming[i]))
  }

  // ----- the arrays

  /** An unused slot is entirely cleared. */
  ghost predicate CleanSlots(slots: seq<Record>) {
    forall i :: 0 <= i < |slots| && slots[i].packetId == 0 ==> slots[i] == EMPTY
  }

  /** The array with its holes closed. */
  function Compacted(slots: seq<Record>): (packed: seq<Record>)
    ensures |packed| == |slots|
  {
    LiveLength(slots);
    Live(slots) + seq(|slots| - |Live(slots)|, _ => EMPTY)
  }

  /** What adding first does to the array: it closes the holes when the last slot is taken. */
  function MadeRoom(slots: seq<Record>): (room: seq<Record>)
    ensures |room| == |slots|
  {
    if |slots| > 0 && slots[|slots| - 1].packetId != 0 then Compacted(slots) else slots
  }

  /** The slot behind the last used one. */
  function UsedEnd(slots: seq<Record>): (end: nat)
    ensures end <= |slots| && (end > 0 ==> slots[end - 1].packetId != 0)
    ensures forall i :: end <= i < |slots| ==> slots[i].packetId == 0
  {
    if slots == [] then 0
    else if slots[|slots| - 1].packetId != 0 then |slots|
    else UsedEnd(slots[..|slots| - 1])
  }

  lemma {:induction false} UsedEndIs(slots: seq<Record>, end: nat)
    requires end <= |slots| && (end > 0 ==> slots[end - 1].packetId != 0)
    requires forall i :: end <= i < |slots| ==> slots[i].packetId == 0
    ensures UsedEnd(slots) == end
  {
    hide UsedEnd;
    var e := UsedEnd(slots);
    assert !(e < end) && !(end < e);
  }

  /** The array after adding a record: room is made, and the slot behind the last used one is filled. */
  function Placed(slots: seq<Record>, r: Record): seq<Record>
    requires UsedEnd(MadeRoom(slots)) < |slots|
  {
    MadeRoom(slots)[UsedEnd(MadeRoom(slots)) := r]
  }

  /** Closes the holes, keeping the order of the live records. */
  method CompactRecords(records: array<Record>)
    modifies records
    ensures Live(records[..]) == old(Live(records[..]))
    ensures forall i :: 0 <= i < records.Length ==> (records[i].packetId != 0 <==> i < |Live(records[..])|)
    ensures old(CleanSlots(records[..])) ==> CleanSlots(records[..])
  {
    hide Live;
    ghost var was := records[..];
    LiveOfFree([]);
    assert was[..0] == [];
    var emptyIndex := records.Length;
    var index := 0;
    ghost var e := 0;  // the length of the compacted prefix
    while index < records.Length
      invariant 0 <= e <= index <= records.Length
      invariant emptyIndex == if e == index then records.Length else e
      invariant forall i :: 0 <= i < e ==> records[i].packetId != 0
      invariant forall i :: e <= i < index ==> records[i].packetId == 0
      invariant forall i :: index <= i < records.Length ==> records[i] == was[i]
      invariant e == |Live(was[..index])| && forall i :: 0 <= i < e ==> records[i] == Live(was[..index])[i]
      invariant CleanSlots(was) ==> forall i :: e <= i < index ==> records[i] == EMPTY
    {
      LiveStep(was, index);
      if records[index].packetId == 0 {
        if emptyIndex == records.Length {
          emptyIndex := index;
        }
      } else {
        if emptyIndex != records.Length {
          records[emptyIndex] := records[index];
          records[index] := EMPTY;
          emptyIndex := emptyIndex + 1;
        }
        e := e + 1;
      }
      index := index + 1;
    }
    assert was[..index] == was && records[..e] == Live(was) && records[..] == records[..e] + records[e..];
    LiveConcat(records[..e], records[e..]);
    LiveOfLive(records[..e]);
    LiveOfFree(records[e..]);
  }

  /** The array CompactRecords leaves is determined by its live records. */
  lemma {:induction false} PackedIsCompacted(slots: seq<Record>)
    requires forall i :: 0 <= i < |slots| ==> (slots[i].packetId != 0 <==> i < |Live(slots)|)
    ensures CleanSlots(slots) ==> slots == Compacted(slots)
  {
    LiveLength(slots);
    var n := |Live(slots)|;
    assert slots == slots[..n] + slots[n..];
    LiveConcat(slots[..n], slots[n..]);
    LiveOfLive(slots[..n]);
    LiveOfFree(slots[n..]);
  }

  /** The first step of adding: compaction, when the last slot is taken. */
  method MakeRoom(records: array<Record>)
    requires records.Length > 0
    modifies records
    ensures Live(records[..]) == old(Live(records[..])) && Packed(records[..])
    ensures old(CleanSlots(records[..])) ==> CleanSlots(records[..]) && records[..] == MadeRoom(old(records[..]))
  {
    if records[records.Length - 1].packetId != 0 {
      CompactRecords(records);
      PackedIsCompacted(records[..]);
    }
  }

  /** The backward scan of adding: the slot behind the last used one, unless the id is in use. */
  method AvailableSlot(records: array<Record>, packetId: uint16) returns (status: Status, availableIndex: nat)
    requires records.Length > 0 && packetId != 0
    ensures status == if HasId(records[..], packetId) then StateCollision else NoMemory
    ensures status == StateCollision ==> availableIndex == records.Length
    ensures status == NoMemory ==>
              && availableIndex <= records.Length
              && (availableIndex > 0 ==> records[availableIndex - 1].packetId != 0)
              && forall i :: availableIndex <= i < records.Length ==> records[i].packetId == 0
  {
    status := NoMemory;
    var recordCount := records.Length;
    availableIndex := recordCount;
    var validEntryFound := false;
    var index := recordCount - 1;
    while index >= 0
      invariant -1 <= index < recordCount && status == NoMemory
      invariant forall i :: index < i < recordCount ==> records[i].packetId != packetId
      invariant index < availableIndex <= recordCount
      invariant forall i :: availableIndex <= i < recordCount ==> records[i].packetId == 0
      invariant if validEntryFound then availableIndex > 0 && records[availableIndex - 1].packetId != 0
                else availableIndex == index + 1
    {
      if records[index].packetId == 0 {
        if !validEntryFound {
          availableIndex := index;
        }
      } else {
        validEntryFound := true;
        if records[index].packetId == packetId {
          assert records[..][index].packetId == packetId;
          return StateCollision, recordCount;
        }
      }
      index := index - 1;
    }
  }

  /** Appends a record after the last live one. */
  method AddRecord(records: array<Record>, packetId: uint16, qos: QoS, publishState: State) returns (status: Status)
    requires records.Length > 0
    requires packetId != 0 && qos != QoS0
    modifies records
    ensures (status, Live(records[..])) ==
            Enqueue(old(Live(records[..])), records.Length, Record(packetId, qos, publishState))
    ensures old(CleanSlots(records[..])) ==> CleanSlots(records[..])
    ensures old(CleanSlots(records[..])) && status == StateCollision ==> records[..] == MadeRoom(old(records[..]))
    ensures old(CleanSlots(records[..])) && status == Success ==>
              && UsedEnd(MadeRoom(old(records[..]))) < records.Length
              && records[..] == Placed(old(records[..]), Record(packetId, qos, publishState))
  {
    hide Live, Compacted, UsedEnd, HasId, Packed;
    MakeRoom(records);
    ghost var slots := records[..];
    var availableIndex;
    status, availableIndex := AvailableSlot(records, packetId);
    LiveHasId(slots, packetId);
    if availableIndex < records.Length {
      AppendedSlot(slots, availableIndex, Record(packetId, qos, publishState));
      UsedEndIs(slots, availableIndex);
      records[availableIndex] := Record(packetId, qos, publishState);
      assert records[..] == slots[availableIndex := Record(packetId, qos, publishState)];
      status := Success;
    } else if status == NoMemory {
      NoFreeSlot(slots, packetId);
    }
  }

  /** When the last slot is taken, the live records come first and the free slots last. */
  ghost predicate Packed(slots: seq<Record>) {
    |slots| > 0 && slots[|slots| - 1].packetId != 0 ==>
      forall i :: 0 <= i < |slots| ==> (slots[i].packetId != 0 <==> i < |Live(slots)|)
  }

  /** Filling the slot after the last live one appends to the queue. */
  lemma {:induction false} AppendedSlot(slots: seq<Record>, at: nat, r: Record)
    requires at < |slots| && r.packetId != 0
    requires forall i :: at <= i < |slots| ==> slots[i].packetId == 0
    requires !HasId(slots, r.packetId)
    ensures Live(slots[at := r]) == Live(slots) + [r]
    ensures !HasId(Live(slots), r.packetId) && |Live(slots)| < |slots|
  {
    LiveHasId(slots, r.packetId);
    LiveLength(slots);
    assert slots == slots[..at] + slots[at..];
    LiveConcat(slots[..at], slots[at..]);
    LiveOfFree(slots[at..]);
    assert slots[at := r] == slots[..at] + ([r] + slots[at + 1..]);
    LiveConcat(slots[..at], [r] + slots[at + 1..]);
    LiveConcat([r], slots[at + 1..]);
    LiveOfFree(slots[at + 1..]);
  }

  /** A taken last slot after compaction means that every slot is live. */
  lemma {:induction false} NoFreeSlot(slots: seq<Record>, id: uint16)
    requires |slots| > 0 && id != 0 && !HasId(slots, id)
    requires slots[|slots| - 1].packetId != 0 && Packed(slots)
    ensures !HasId(Live(slots), id) && |Live(slots)| == |slots|
  {
    LiveHasId(slots, id);
    LiveLength(slots);
  }

  method UpdateRecord(records: array<Record>, recordIndex: nat, newState: State, shouldDelete: bool)
    requires recordIndex < records.Length
    modifies records
    ensures records[..] == old(records[..])[recordIndex := if shouldDelete then EMPTY
                                                           else old(records[recordIndex]).(publishState := newState)]
  {
    if shouldDelete {
      records[recordIndex] := EMPTY;
    } else {
      records[recordIndex] := records[recordIndex].(publishState := newState);
    }
  }

  method FindInRecord(records: array<Record>, packetId: uint16) returns (found: Lookup)
    requires packetId != 0
    ensures found == Find(records[..], packetId)
  {
    var index := 0;
    while index < records.Length
      invariant 0 <= index <= records.Length
      invariant forall i :: 0 <= i < index ==> records[i].packetId != packetId
    {
      if records[index].packetId == packetId {
        assert records[..][index].packetId == packetId;
        return Found(index, records[index].qos, records[index].publishState);
      }
      index := index + 1;
    }
    return Missing;
  }
}
