/** The entry points of core_mqtt_state.c over a context's two record arrays. Each one is proved to
    do to the live records exactly what the queue operation of the same name does. */
module StateEngine {
  import opened Types
  import opened StateRecords

  // ----- every operation keeps the tables legal

  lemma {:induction false} RemoveSplit(records: seq<Record>, id: uint16)
    requires Find(records, id).Found?
    ensures var i := Find(records, id).index;
            Remove(records, id) == records[..i] + records[i + 1..]
  {
    var k := Find(records, id).index;
    if k > 0 {
      var tail := records[1..];
      RemoveSplit(tail, id);
      assert Remove(records, id) == [records[0]] + Remove(tail, id);
      hide Remove, Find;
      assert tail[k..] == records[k + 1..] && [records[0]] + tail[..k - 1] == records[..k];
    }
  }

  lemma {:induction false} RemoveShape(records: seq<Record>, id: uint16)
    requires UniqueIds(records) && HasId(records, id)
    ensures UniqueIds(Remove(records, id)) && !HasId(Remove(records, id), id)
    ensures |Remove(records, id)| == |records| - 1
    ensures forall i :: 0 <= i < |Remove(records, id)| ==> Remove(records, id)[i] in records
  {
    RemoveSplit(records, id);
    WithoutSlot(records, Find(records, id).index);
  }

  lemma {:induction false} WithoutSlot(records: seq<Record>, k: nat)
    requires UniqueIds(records) && k < |records|
    ensures var rest := records[..k] + records[k + 1..];
            && UniqueIds(rest) && !HasId(rest, records[k].packetId)
            && forall i :: 0 <= i < |rest| ==> rest[i] in records
  {
    var rest := records[..k] + records[k + 1..];
    assert forall i :: 0 <= i < k ==> rest[i] == records[i];
    assert forall i :: k <= i < |rest| ==> rest[i] == records[i + 1];
  }

  lemma {:induction false} SetStateShape(records: seq<Record>, id: uint16, state: State)
    requires HasId(records, id)
    ensures var i := Find(records, id).index;
            SetState(records, id, state) == records[i := records[i].(publishState := state)]
  {
    if records[0].packetId != id {
      var i :| 0 <= i < |records| && records[i].packetId == id;
      assert records[1..][i - 1].packetId == id;
      SetStateShape(records[1..], id, state);
    }
  }

  lemma {:induction false} ReserveKeepsLegal(t: Tables, capacity: nat, id: uint16, qos: QoS)
    requires LegalTables(t)
    ensures LegalTables(Reserve(t, capacity, id, qos).1)
  {
  }

  lemma {:induction false} ReceiveKeepsLegal(t: Tables, capacity: nat, id: uint16, qos: QoS)
    requires LegalTables(t)
    ensures LegalTables(PublishReceived(t, capacity, id, qos).1)
  {
  }

  lemma {:induction false} SentKeepsLegal(t: Tables, id: uint16, qos: QoS)
    requires LegalTables(t)
    ensures LegalTables(PublishSent(t, id, qos).1)
  {
    if HasId(t.outgoing, id) {
      SetStateShape(t.outgoing, id, CalculateStatePublish(Send, qos));
    }
  }

  lemma {:induction false} AckKeepsLegal(t: Tables, id: uint16, ack: AckType, op: Operation)
    requires LegalTables(t)
    ensures LegalTables(Acked(t, id, ack, op).1)
  {
    var outgoing := IsPublishOutgoing(ack, op);
    AckedRecordsLegal(if outgoing then t.outgoing else t.incoming, id, ack, op, outgoing);
  }

  predicate LegalRecord(r: Record, outgoing: bool) {
    if outgoing then OutgoingRecord(r) else IncomingRecord(r)
  }

  lemma {:induction false} AckedRecordsLegal(records: seq<Record>, id: uint16, ack: AckType, op: Operation,
                                             outgoing: bool)
    requires UniqueIds(records) && forall i :: 0 <= i < |records| ==> LegalRecord(records[i], outgoing)
    requires outgoing == IsPublishOutgoing(ack, op)
    ensures var after := AckRecords(records, id, ack, op).1;
            UniqueIds(after) && forall i :: 0 <= i < |after| ==> LegalRecord(after[i], outgoing)
  {
    if HasId(records, id) {
      var next := CalculateStateAck(ack, op, Find(records, id).qos);
      assert LegalRecord(records[Find(records, id).index], outgoing);
      SetStateShape(records, id, next);
      RemoveShape(records, id);
    }
  }

  lemma {:induction false} CancelKeepsLegal(t: Tables, id: uint16)
    requires LegalTables(t)
    ensures LegalTables(Cancelled(t, id).1)
  {
    if HasId(t.outgoing, id) {
      RemoveShape(t.outgoing, id);
    }
  }

  // ----- the resend cursors

  /** The records whose state is one of the given ones, in order. */
  function Select(records: seq<Record>, states: set<State>): seq<Record> {
    if records == [] then []
    else if records[0].publishState in states then [records[0]] + Select(records[1..], states)
    else Select(records[1..], states)
  }

  const OUTGOING_STATES := {PublishSend, PubAckPending, PubRecPending, PubRelSend, PubCompPending}
  const PUBREL_STATES := {PubCompPending, PubRelSend}
  const PUBLISH_STATES := {PublishSend, PubAckPending, PubRecPending}

  /** Selecting among the slots of an array is selecting among its live records. */
  lemma {:induction false} SelectLive(slots: seq<Record>, states: set<State>)
    requires CleanSlots(slots) && StateNull !in states
    ensures Select(slots, states) == Select(Live(slots), states)
  {
    if slots != [] {
      SelectLive(slots[1..], states);
      if slots[0].packetId != 0 {
        assert Live(slots)[1..] == Live(slots[1..]);
      }
    }
  }

  lemma {:induction false} SelectFirst(r: Record, rest: seq<Record>, states: set<State>)
    ensures Select([r] + rest, states)
         == if r.publishState in states then [r] + Select(rest, states) else Select(rest, states)
    ensures Select([], states) == []
  {
    assert ([r] + rest)[1..] == rest;
  }

  lemma {:induction false} SelectConcat(a: seq<Record>, b: seq<Record>, states: set<State>)
    ensures Select(a + b, states) == Select(a, states) + Select(b, states)
  {
    hide Select;
    if a == [] {
      SelectFirst(EMPTY, b, states);
      assert a + b == b;
    } else {
      var rest := a[1..];
      SelectConcat(rest, b, states);
      assert a == [a[0]] + rest && a + b == [a[0]] + (rest + b);
      SelectFirst(a[0], rest, states);
      SelectFirst(a[0], rest + b, states);
    }
  }

  /** Two arrays with the same ids in the same slots, the same ones among them awaiting a resend. */
  predicate SamePending(a: seq<Record>, b: seq<Record>) {
    && |a| == |b|
    && forall i :: 0 <= i < |a| ==>
         && a[i].packetId == b[i].packetId
         && (a[i].publishState in PUBLISH_STATES <==> b[i].publishState in PUBLISH_STATES)
  }

  lemma {:induction false} NothingBecomesNull(current: State)
    ensures !ValidTransitionAck(current, StateNull)
  {
  }

  class Context {
    const outgoing: array<Record>
    const incoming: array<Record>

    ghost predicate Valid()
      reads this, outgoing, incoming
    {
      && outgoing != incoming
      && outgoing.Length > 0 && incoming.Length > 0
      && CleanSlots(outgoing[..]) && CleanSlots(incoming[..])
      && LegalTables(View())
    }

    ghost function View(): Tables
      reads outgoing, incoming
    {
      Tables(Live(outgoing[..]), Live(incoming[..]))
    }

    constructor (outgoingCount: nat, incomingCount: nat)
      requires outgoingCount > 0 && incomingCount > 0
      ensures Valid() && fresh(outgoing) && fresh(incoming)
      ensures View() == Tables([], [])
      ensures outgoing.Length == outgoingCount && incoming.Length == incomingCount
    {
      outgoing := new Record[outgoingCount](_ => EMPTY);
      incoming := new Record[incomingCount](_ => EMPTY);
      new;
      LiveOfFree(outgoing[..]);
      LiveOfFree(incoming[..]);
    }

    /** Wipes both arrays, as a new session does. */
    method Clear()
      requires Valid()
      modifies outgoing, incoming
      ensures Valid() && View() == Tables([], [])
    {
      for i := 0 to outgoing.Length
        invariant forall j :: 0 <= j < i ==> outgoing[j] == EMPTY
      {
        outgoing[i] := EMPTY;
      }
      for i := 0 to incoming.Length
        invariant forall j :: 0 <= j < i ==> incoming[j] == EMPTY
        invariant forall j :: 0 <= j < outgoing.Length ==> outgoing[j] == EMPTY
      {
        incoming[i] := EMPTY;
      }
      LiveOfFree(outgoing[..]);
      LiveOfFree(incoming[..]);
    }

    method ReserveState(packetId: uint16, qos: QoS) returns (status: Status)
      requires Valid()
      modifies outgoing
      ensures Valid()
      ensures (status, View()) == Reserve(old(View()), outgoing.Length, packetId, qos)
      ensures status == StateCollision ==> outgoing[..] == MadeRoom(old(outgoing[..]))
      ensures status == Success && qos != QoS0 ==>
                && UsedEnd(MadeRoom(old(outgoing[..]))) < outgoing.Length
                && outgoing[..] == Placed(old(outgoing[..]), Record(packetId, qos, PublishSend))
    {
      ReserveKeepsLegal(View(), outgoing.Length, packetId, qos);
      if qos == QoS0 {
        status := Success;
      } else if packetId == 0 {
        status := BadParameter;
      } else {
        status := AddRecord(outgoing, packetId, qos, PublishSend);
      }
    }

    /** The transition check and the update behind UpdateStatePublish. */
    method UpdateStatePublishRecord(
        found: Lookup, packetId: uint16, op: Operation, qos: QoS, current: State, newState: State)
      returns (status: Status)
      requires Valid() && packetId != 0 && qos != QoS0
      requires newState == CalculateStatePublish(op, qos)
      requires op == Receive ==> current == StateNull
      requires op == Send ==>
                 found.Found? && found == Find(outgoing[..], packetId) && found.qos == qos && current == found.state
      modifies outgoing, incoming
      ensures Valid()
      ensures (status, View()) ==
              if op == Send then PublishSent(old(View()), packetId, qos)
              else PublishReceived(old(View()), incoming.Length, packetId, qos)
      ensures SamePending(outgoing[..], old(outgoing[..]))
      ensures op == Send && status == Success ==>
                outgoing[..] ==
                old(outgoing[..])[found.index := old(outgoing[..])[found.index].(publishState := newState)]
    {
      SentKeepsLegal(View(), packetId, qos);
      ReceiveKeepsLegal(View(), incoming.Length, packetId, qos);
      status := Success;
      if ValidTransitionPublish(current, newState, op, qos) {
        if op == Receive {
          status := AddRecord(incoming, packetId, qos, newState);
        } else {
          FindInLive(outgoing[..], packetId);
          UpdateInLive(outgoing[..], packetId, newState);
          if current != newState {
            UpdateRecord(outgoing, found.index, newState, false);
          } else {
            assert outgoing[..][found.index := outgoing[found.index].(publishState := newState)] == outgoing[..];
          }
        }
      } else {
        FindInLive(outgoing[..], packetId);
        status := IllegalState;
      }
    }

    method UpdateStatePublish(packetId: uint16, op: Operation, qos: QoS) returns (status: Status, newState: State)
      requires Valid()
      modifies outgoing, incoming
      ensures Valid()
      ensures (status, View()) ==
              if op == Send then PublishSent(old(View()), packetId, qos)
              else PublishReceived(old(View()), incoming.Length, packetId, qos)
      ensures SamePending(outgoing[..], old(outgoing[..]))
      ensures status == Success ==> newState == CalculateStatePublish(op, qos)
      // a sent publish moves no record
      ensures op == Send && qos != QoS0 && status == Success ==>
                Find(old(outgoing[..]), packetId).Found?
                && var i := Find(old(outgoing[..]), packetId).index;
                outgoing[..] == old(outgoing[..])[i := old(outgoing[..])[i].(publishState := newState)]
    {
      newState := StateNull;
      status := Success;
      var found := Missing;
      var current := StateNull;
      if qos == QoS0 {
        newState := PublishDone;
      } else if packetId == 0 {
        status := BadParameter;
      } else if op == Send {
        found := FindInRecord(outgoing, packetId);
        FindInLive(outgoing[..], packetId);
        if found.Missing? || found.qos != qos {
          status := BadParameter;
        } else {
          current := found.state;
        }
      }
      if qos != QoS0 && status == Success {
        var next := CalculateStatePublish(op, qos);
        status := UpdateStatePublishRecord(found, packetId, op, qos, current, next);
        if status == Success {
          newState := next;
        }
      }
    }

    /** The transition check and the update behind UpdateStateAck. */
    method UpdateStateAckRecord(
        records: array<Record>, recordIndex: nat, packetId: uint16, current: State, newState: State)
      returns (status: Status)
      requires records.Length > 0 && CleanSlots(records[..])
      requires UniqueIds(Live(records[..]))
      requires packetId != 0 && Find(records[..], packetId).Found?
      requires Find(records[..], packetId).index == recordIndex && Find(records[..], packetId).state == current
      modifies records
      ensures CleanSlots(records[..])
      ensures
        var was := old(Live(records[..]));
        if !ValidTransitionAck(current, newState) then
          status == IllegalState && Live(records[..]) == was
        else
          && status == Success
          && Live(records[..]) ==
             if newState == PublishDone then Remove(was, packetId)
             else if newState == PubRelSend then Remove(was, packetId) + [Record(packetId, QoS2, PubRelSend)]
             else SetState(was, packetId, newState)
      ensures newState !in {PublishDone, PubRelSend} && status == Success ==>
                records[..] == old(records[..])[recordIndex := old(records[recordIndex]).(publishState := newState)]
      ensures newState == PublishDone && status == Success ==> records[..] == old(records[..])[recordIndex := EMPTY]
    {
      status := IllegalState;
      var shouldDeleteRecord := newState == PublishDone || newState == PubRelSend;
      if ValidTransitionAck(current, newState) {
        status := Success;
        ghost var was := records[..];
        FindInLive(was, packetId);
        UpdateInLive(was, packetId, newState);
        RemoveShape(Live(was), packetId);
        LiveLength(was);
        if current != newState {
          UpdateRecord(records, recordIndex, newState, shouldDeleteRecord);
          if newState == PubRelSend {
            status := AddRecord(records, packetId, QoS2, PubRelSend);
          }
        } else {
          assert was[recordIndex := was[recordIndex].(publishState := newState)] == was;
        }
      }
    }

    method UpdateStateAck(packetId: uint16, packetType: AckType, op: Operation)
      returns (status: Status, newState: State)
      requires Valid()
      modifies outgoing, incoming
      ensures Valid()
      ensures (status, View()) == Acked(old(View()), packetId, packetType, op)
      ensures status == Success ==> newState == AckOutcome(old(View()), packetId, packetType, op)
      // sending a PUBREL moves no record
      ensures packetType == Pubrel && op == Send && status == Success ==>
                Find(old(outgoing[..]), packetId).Found?
                && var i := Find(old(outgoing[..]), packetId).index;
                outgoing[..] == old(outgoing[..])[i := old(outgoing[..])[i].(publishState := PubCompPending)]
      // a PUBACK clears its slot and no other
      ensures packetType == Puback && op == Receive && status == Success ==>
                Find(old(outgoing[..]), packetId).Found?
                && outgoing[..] == old(outgoing[..])[Find(old(outgoing[..]), packetId).index := EMPTY]
    {
      hide Live, Find, Remove, SetState, CleanSlots, ValidTransitionAck;
      newState := StateNull;
      status := BadResponse;
      if packetId == 0 {
        status := BadParameter;
      } else {
        var records := if IsPublishOutgoing(packetType, op) then outgoing else incoming;
        var found := FindInRecord(records, packetId);
        FindInLive(records[..], packetId);
        AckKeepsLegal(View(), packetId, packetType, op);
        if found.Found? {
          var next := CalculateStateAck(packetType, op, found.qos);
          NothingBecomesNull(found.state);
          status := UpdateStateAckRecord(records, found.index, packetId, found.state, next);
          if status == Success {
            newState := next;
          }
        }
      }
    }

    method RemoveStateRecord(packetId: uint16) returns (status: Status)
      requires Valid() && packetId != 0
      modifies outgoing
      ensures Valid()
      ensures (status, View()) == Cancelled(old(View()), packetId)
    {
      status := Success;
      CancelKeepsLegal(View(), packetId);
      var found := FindInRecord(outgoing, packetId);
      FindInLive(outgoing[..], packetId);
      if found.Missing? || found.state == StateNull {
        status := BadParameter;
      } else if found.qos != QoS1 && found.qos != QoS2 {
        status := BadParameter;
      } else {
        UpdateInLive(outgoing[..], packetId, StateNull);
        UpdateRecord(outgoing, found.index, StateNull, true);
      }
    }

    /** Finds the next outgoing record in one of the given states, from the cursor on. */
    method StateSelect(searchStates: set<State>, cursor: nat) returns (packetId: uint16, next: nat)
      requires Valid() && searchStates <= OUTGOING_STATES && cursor <= outgoing.Length
      ensures cursor <= next <= outgoing.Length
      ensures Select(outgoing[cursor..], searchStates) == [] ==> packetId == 0 && next == outgoing.Length
      ensures Select(outgoing[cursor..], searchStates) != [] ==>
                && cursor < next
                && outgoing[next - 1] == Select(outgoing[cursor..], searchStates)[0]
                && packetId == outgoing[next - 1].packetId != 0
                && Select(outgoing[next..], searchStates) == Select(outgoing[cursor..], searchStates)[1..]
    {
      packetId := 0;
      next := cursor;
      while next < outgoing.Length
        invariant cursor <= next <= outgoing.Length
        invariant packetId == 0
        invariant Select(outgoing[next..], searchStates) == Select(outgoing[cursor..], searchStates)
      {
        assert outgoing[next..][1..] == outgoing[next + 1..];
        if outgoing[next].publishState in searchStates {
          packetId := outgoing[next].packetId;
          assert outgoing[..][next] == outgoing[next];
          next := next + 1;
          break;
        }
        next := next + 1;
      }
    }

    /** The next packet whose PUBREL has to go out again; its PUBREL is sent from state PubRelSend. */
    method PubrelToResend(cursor: nat) returns (packetId: uint16, next: nat, state: State)
      requires Valid() && cursor <= outgoing.Length
      ensures cursor <= next <= outgoing.Length
      ensures Select(outgoing[cursor..], PUBREL_STATES) == [] ==> packetId == 0 && next == outgoing.Length
      ensures Select(outgoing[cursor..], PUBREL_STATES) != [] ==>
                && cursor < next && state == PubRelSend
                && outgoing[next - 1] == Select(outgoing[cursor..], PUBREL_STATES)[0]
                && packetId == outgoing[next - 1].packetId != 0
                && Select(outgoing[next..], PUBREL_STATES) == Select(outgoing[cursor..], PUBREL_STATES)[1..]
    {
      packetId, next := StateSelect(PUBREL_STATES, cursor);
      state := if packetId != 0 then PubRelSend else StateNull;
    }

    /** The next packet whose PUBLISH has to go out again. */
    method PublishToResend(cursor: nat) returns (packetId: uint16, next: nat)
      requires Valid() && cursor <= outgoing.Length
      ensures cursor <= next <= outgoing.Length
      ensures Select(outgoing[cursor..], PUBLISH_STATES) == [] ==> packetId == 0 && next == outgoing.Length
      ensures Select(outgoing[cursor..], PUBLISH_STATES) != [] ==>
                && cursor < next
                && outgoing[next - 1] == Select(outgoing[cursor..], PUBLISH_STATES)[0]
                && packetId == outgoing[next - 1].packetId != 0
                && Select(outgoing[next..], PUBLISH_STATES) == Select(outgoing[cursor..], PUBLISH_STATES)[1..]
    {
      packetId, next := StateSelect(PUBLISH_STATES, cursor);
    }
  }

  /** The state an accepted acknowledgement leads to. */
  function AckOutcome(t: Tables, id: uint16, ack: AckType, op: Operation): State {
    match Find(if IsPublishOutgoing(ack, op) then t.outgoing else t.incoming, id)
    case Missing => StateNull
    case Found(_, qos, _) => CalculateStateAck(ack, op, qos)
  }
}
