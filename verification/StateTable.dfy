/** The exchanges of section 4.3 of MQTT 3.1.1 as tables: which packet a record waits for, and what becomes of it. */
module StateTable {
  import opened Types
  import opened StateRecords
  import opened StateEngine
  import StateRuns

  /** What an acknowledgement leaves of the record it is for. */
  datatype Fate = Refused | Gone | Restated(state: State) | MovedBack(state: State)

  /** Acknowledgements of publishes the client sent: it receives PUBACK, PUBREC and PUBCOMP and sends the PUBREL. */
  function OutgoingFate(ack: AckType, state: State): Fate {
    match (ack, state)
    case (Puback, PubAckPending) => Gone
    case (Pubrec, PubRecPending) => MovedBack(PubRelSend)
    case (Pubrel, PubRelSend) => Restated(PubCompPending)
    case (Pubrel, PubCompPending) => Restated(PubCompPending)
    case (Pubcomp, PubCompPending) => Gone
    case _ => Refused
  }

  /** Acknowledgements of publishes the client received: it sends PUBACK, PUBREC and PUBCOMP and receives the PUBREL. */
  function IncomingFate(ack: AckType, state: State): Fate {
    match (ack, state)
    case (Puback, PubAckSend) => Gone
    case (Pubrec, PubRecSend) => Restated(PubRelPending)
    case (Pubrec, PubRelPending) => Restated(PubRelPending)
    case (Pubrel, PubRelPending) => Restated(PubCompSend)
    case (Pubrel, PubCompSend) => Restated(PubCompSend)
    case (Pubcomp, PubCompSend) => Gone
    case _ => Refused
  }

  predicate ForOutgoing(ack: AckType, op: Operation) {
    (ack, op) in {(Puback, Receive), (Pubrec, Receive), (Pubrel, Send), (Pubcomp, Receive)}
  }

  function Queued(t: Tables, outgoing: bool): seq<Record> {
    if outgoing then t.outgoing else t.incoming
  }

  function FateOf(t: Tables, id: uint16, ack: AckType, op: Operation): Fate
    requires HasId(Queued(t, ForOutgoing(ack, op)), id)
  {
    var state := Find(Queued(t, ForOutgoing(ack, op)), id).state;
    if ForOutgoing(ack, op) then OutgoingFate(ack, state) else IncomingFate(ack, state)
  }

  function Left(records: seq<Record>, id: uint16, fate: Fate): seq<Record> {
    match fate
    case Refused => records
    case Gone => Remove(records, id)
    case Restated(state) => SetState(records, id, state)
    case MovedBack(state) => Remove(records, id) + [Record(id, QoS2, state)]
  }

  /** An acknowledgement is accepted exactly when the table expects it, and then does what the table says. */
  lemma {:induction false} AckedByTable(t: Tables, id: uint16, ack: AckType, op: Operation)
    requires LegalTables(t)
    ensures var (status, after) := Acked(t, id, ack, op);
      var outgoing := ForOutgoing(ack, op);
      var known := id != 0 && HasId(Queued(t, outgoing), id);
      && (status == Success <==> known && FateOf(t, id, ack, op) != Refused)
      && Queued(after, !outgoing) == Queued(t, !outgoing)
      && Queued(after, outgoing)
         == if known then Left(Queued(t, outgoing), id, FateOf(t, id, ack, op)) else Queued(t, outgoing)
  {
    hide AckRecords, OutgoingFate, IncomingFate, Left, Find, HasId;
    var outgoing := ForOutgoing(ack, op);
    var records := Queued(t, outgoing);
    RecordsByTable(records, id, ack, op);
  }

  lemma {:induction false} RecordsByTable(records: seq<Record>, id: uint16, ack: AckType, op: Operation)
    requires forall i :: 0 <= i < |records| ==>
               if ForOutgoing(ack, op) then OutgoingRecord(records[i]) else IncomingRecord(records[i])
    ensures IsPublishOutgoing(ack, op) == ForOutgoing(ack, op)
    ensures var (status, after) := AckRecords(records, id, ack, op);
      if HasId(records, id) then
        var state := Find(records, id).state;
        var fate := if ForOutgoing(ack, op) then OutgoingFate(ack, state) else IncomingFate(ack, state);
        (status == Success <==> fate != Refused) && after == Left(records, id, fate)
      else
        status != Success && after == records
  {
    hide Remove, SetState, HasId;
    var found := Find(records, id);
    if found.Found? {
      var r := records[found.index];
      assert if ForOutgoing(ack, op) then OutgoingRecord(r) else IncomingRecord(r);
    }
  }

  /** A PUBLISH going out: recorded as reserved first, then as waiting for its acknowledgement, however often it goes
      out again; beyond its PUBREC it may not. */
  lemma {:induction false} SentByTable(t: Tables, id: uint16, qos: QoS)
    requires LegalTables(t) && id != 0 && qos != QoS0
    ensures var (status, after) := PublishSent(t, id, qos);
      var waits := if qos == QoS1 then PubAckPending else PubRecPending;
      && (status == Success <==>
            && HasId(t.outgoing, id) && Find(t.outgoing, id).qos == qos
            && Find(t.outgoing, id).state in {PublishSend, waits})
      && after == if status == Success then t.(outgoing := SetState(t.outgoing, id, waits)) else t
  {
    if HasId(t.outgoing, id) {
      assert OutgoingRecord(t.outgoing[Find(t.outgoing, id).index]);
    }
  }

  /** A PUBLISH coming in, or one reserved to go out, is added at the back in the state its QoS calls for. */
  lemma {:induction false} AddedByTable(t: Tables, capacity: nat, id: uint16, qos: QoS)
    requires id != 0 && qos != QoS0
    ensures PublishReceived(t, capacity, id, qos)
         == if HasId(t.incoming, id) then (StateCollision, t)
            else if |t.incoming| >= capacity then (NoMemory, t)
            else (Success,
                  t.(incoming := t.incoming + [Record(id, qos, if qos == QoS1 then PubAckSend else PubRecSend)]))
    ensures Reserve(t, capacity, id, qos)
         == if HasId(t.outgoing, id) then (StateCollision, t)
            else if |t.outgoing| >= capacity then (NoMemory, t)
            else (Success, t.(outgoing := t.outgoing + [Record(id, qos, PublishSend)]))
  {
  }

  /** Cancelling a publish lets its record go, in whatever state, and nothing else. */
  lemma {:induction false} CancelledExactly(t: Tables, id: uint16)
    requires LegalTables(t)
    ensures var (status, after) := Cancelled(t, id);
      && (status == Success <==> HasId(t.outgoing, id))
      && after.incoming == t.incoming && !HasId(after.outgoing, id)
      && forall other: uint16 :: other != id ==> SameRecord(t.outgoing, after.outgoing, other)
  {
    if HasId(t.outgoing, id) {
      assert OutgoingRecord(t.outgoing[Find(t.outgoing, id).index]);
      RemoveShape(t.outgoing, id);
      forall other: uint16 | other != id
        ensures SameRecord(t.outgoing, Remove(t.outgoing, id), other)
      {
        StateRuns.RemoveFind(t.outgoing, id, other);
      }
    }
  }

  /** Both queues hold this id in the same state, or neither does. */
  predicate SameRecord(a: seq<Record>, b: seq<Record>, id: uint16) {
    var x, y := Find(a, id), Find(b, id);
    if x.Missing? then y.Missing? else y.Found? && y.qos == x.qos && y.state == x.state
  }

  // ----- what the cursors look for

  /** Records whose PUBLISH is to be sent again when a session is resumed, and records whose PUBREL is. */
  predicate WaitsForPublish(r: Record) {
    r.publishState == PublishSend || r.publishState == PubAckPending || r.publishState == PubRecPending
  }

  predicate WaitsForPubrel(r: Record) {
    r.publishState == PubRelSend || r.publishState == PubCompPending
  }

  function Waiting(records: seq<Record>, pubrel: bool): seq<Record> {
    if records == [] then []
    else if (if pubrel then WaitsForPubrel(records[0]) else WaitsForPublish(records[0])) then
      [records[0]] + Waiting(records[1..], pubrel)
    else
      Waiting(records[1..], pubrel)
  }

  lemma {:induction false} SelectsWaiting(records: seq<Record>)
    ensures Select(records, PUBLISH_STATES) == Waiting(records, false)
    ensures Select(records, PUBREL_STATES) == Waiting(records, true)
  {
    if records != [] {
      SelectsWaiting(records[1..]);
    }
  }

  /** Every live outgoing record waits for one of the two. */
  lemma {:induction false} EveryRecordWaits(t: Tables, i: nat)
    requires LegalTables(t) && i < |t.outgoing|
    ensures WaitsForPublish(t.outgoing[i]) != WaitsForPubrel(t.outgoing[i])
  {
    assert OutgoingRecord(t.outgoing[i]);
  }
}
