/** What holds of the record tables over every sequence of calls into the state engine. */
module StateRuns {
  import opened Types
  import opened StateRecords
  import opened StateEngine

  datatype Call =
    | CallReserve(id: uint16, qos: QoS)
    | CallSent(id: uint16, qos: QoS)
    | CallReceived(id: uint16, qos: QoS)
    | CallAck(id: uint16, ack: AckType, op: Operation)
    | CallCancel(id: uint16)
    | CallClear  // a new session wipes both arrays

  datatype Capacity = Capacity(outgoing: nat, incoming: nat)

  const NO_RECORDS := Tables([], [])

  function Apply(t: Tables, cap: Capacity, call: Call): (Status, Tables) {
    match call
    case CallReserve(id, qos) => Reserve(t, cap.outgoing, id, qos)
    case CallSent(id, qos) => PublishSent(t, id, qos)
    case CallReceived(id, qos) => PublishReceived(t, cap.incoming, id, qos)
    case CallAck(id, ack, op) => Acked(t, id, ack, op)
    case CallCancel(id) => Cancelled(t, id)
    case CallClear => (Success, NO_RECORDS)
  }

  function Run(cap: Capacity, calls: seq<Call>): Tables {
    if calls == [] then NO_RECORDS
    else Apply(Run(cap, calls[..|calls| - 1]), cap, calls[|calls| - 1]).1
  }

  // ----- the invariant

  lemma {:induction false} ApplyKeepsLegal(t: Tables, cap: Capacity, call: Call)
    requires LegalTables(t)
    ensures LegalTables(Apply(t, cap, call).1)
  {
    match call
    case CallReserve(id, qos) => ReserveKeepsLegal(t, cap.outgoing, id, qos);
    case CallSent(id, qos) => SentKeepsLegal(t, id, qos);
    case CallReceived(id, qos) => ReceiveKeepsLegal(t, cap.incoming, id, qos);
    case CallAck(id, ack, op) => AckKeepsLegal(t, id, ack, op);
    case CallCancel(id) => CancelKeepsLegal(t, id);
    case CallClear =>
  }

  lemma {:induction false} ApplyKeepsBounds(t: Tables, cap: Capacity, call: Call)
    requires LegalTables(t)
    requires |t.outgoing| <= cap.outgoing && |t.incoming| <= cap.incoming
    ensures var after := Apply(t, cap, call).1;
            |after.outgoing| <= cap.outgoing && |after.incoming| <= cap.incoming
  {
    match call
    case CallSent(id, qos) =>
      if HasId(t.outgoing, id) { SetStateShape(t.outgoing, id, CalculateStatePublish(Send, qos)); }
    case CallAck(id, ack, op) =>
      var records := if IsPublishOutgoing(ack, op) then t.outgoing else t.incoming;
      if HasId(records, id) {
        RemoveShape(records, id);
        SetStateShape(records, id, CalculateStateAck(ack, op, Find(records, id).qos));
      }
    case CallCancel(id) =>
      if HasId(t.outgoing, id) { RemoveShape(t.outgoing, id); }
    case _ =>
  }

  /** In every reachable table ids are unique and non-zero, each record's state is legal for its QoS
      and direction, and no more records are live than there are slots. */
  lemma {:induction false} EveryRunIsLegal(cap: Capacity, calls: seq<Call>)
    ensures LegalTables(Run(cap, calls))
    ensures |Run(cap, calls).outgoing| <= cap.outgoing && |Run(cap, calls).incoming| <= cap.incoming
  {
    if calls != [] {
      var before := calls[..|calls| - 1];
      EveryRunIsLegal(cap, before);
      ApplyKeepsLegal(Run(cap, before), cap, calls[|calls| - 1]);
      ApplyKeepsBounds(Run(cap, before), cap, calls[|calls| - 1]);
    }
  }

  /** A call that does not succeed changes nothing. */
  lemma {:induction false} FailureChangesNothing(t: Tables, cap: Capacity, call: Call)
    ensures Apply(t, cap, call).0 != Success ==> Apply(t, cap, call).1 == t
  {
  }

  /** In a legal table a PUBREC is either refused or accepted; it never runs out of memory and never
      collides, although its record is deleted and added again. */
  lemma {:induction false} PubrecNeverFailsForSpace(t: Tables, id: uint16)
    requires LegalTables(t)
    ensures Acked(t, id, Pubrec, Receive).0 in {Success, IllegalState, BadResponse, BadParameter}
    ensures Acked(t, id, Pubrec, Receive).0 == Success <==>
            HasId(t.outgoing, id) && Find(t.outgoing, id).qos == QoS2 && Find(t.outgoing, id).state == PubRecPending
  {
    if HasId(t.outgoing, id) {
      assert OutgoingRecord(t.outgoing[Find(t.outgoing, id).index]);
    }
  }

  // ----- progress

  /** How many steps a record still has to go before it is removed. */
  function Rank(state: State): nat {
    match state
    case PublishSend => 4
    case PubRecPending => 3
    case PubRecSend => 3
    case PubRelSend => 2
    case PubRelPending => 2
    case PubCompPending => 1
    case PubCompSend => 1
    case PubAckPending => 1
    case PubAckSend => 1
    case StateNull => 0
    case PublishDone => 0
  }

  /** The record is as before, or closer to completion, or gone. */
  predicate Advances(before: seq<Record>, after: seq<Record>, id: uint16) {
    var b, a := Find(before, id), Find(after, id);
    b.Found? && a.Found? ==>
      a.qos == b.qos && (a.state == b.state || Rank(a.state) < Rank(b.state))
  }

  lemma {:induction false} AddKeepsOthers(records: seq<Record>, r: Record, id: uint16)
    requires HasId(records, id)
    ensures Find(records + [r], id) == Find(records, id)
  {
    var all := records + [r];
    var i := Find(records, id).index;
    assert all[i] == records[i];
    var j := Find(all, id).index;
    assert forall k :: 0 <= k < i ==> all[k] == records[k];
  }

  lemma {:induction false} SetStateFind(records: seq<Record>, id: uint16, state: State, other: uint16)
    ensures Find(SetState(records, id, state), other) ==
            match Find(records, other)
            case Missing => Missing
            case Found(i, q, s) => Found(i, q, if other == id then state else s)
  {
    if records != [] && records[0].packetId != id {
      SetStateFind(records[1..], id, state, other);
    }
  }

  lemma {:induction false} RemoveFind(records: seq<Record>, id: uint16, other: uint16)
    requires other != id
    ensures Find(Remove(records, id), other).Missing? == Find(records, other).Missing?
    ensures var a, b := Find(Remove(records, id), other), Find(records, other);
            b.Found? ==> a.qos == b.qos && a.state == b.state
  {
    if records != [] && records[0].packetId != id {
      RemoveFind(records[1..], id, other);
    }
  }

  /** No call moves a record backwards, changes its QoS, or touches a record it is not about. */
  lemma {:induction false} EveryCallAdvances(t: Tables, cap: Capacity, call: Call, id: uint16)
    requires LegalTables(t)
    ensures var after := Apply(t, cap, call).1;
            Advances(t.outgoing, after.outgoing, id) && Advances(t.incoming, after.incoming, id)
  {
    hide Find, AckRecords, Remove, SetState;
    match call
    case CallReserve(added, qos) =>
      EnqueueAdvances(t.outgoing, cap.outgoing, Record(added, qos, PublishSend), id);
    case CallReceived(added, qos) =>
      EnqueueAdvances(t.incoming, cap.incoming, Record(added, qos, CalculateStatePublish(Receive, qos)), id);
    case CallSent(sent, qos) =>
      SentAdvances(t, sent, qos, id);
    case CallAck(acked, ack, op) =>
      hide ValidTransitionAck, CalculateStateAck;
      AckAdvances(if IsPublishOutgoing(ack, op) then t.outgoing else t.incoming, acked, ack, op, id);
    case CallCancel(gone) =>
      RemoveAdvances(t.outgoing, gone, id);
    case CallClear =>
      assert !HasId([], id);
  }

  lemma {:induction false} EnqueueAdvances(records: seq<Record>, capacity: nat, r: Record, id: uint16)
    ensures Advances(records, Enqueue(records, capacity, r).1, id)
  {
    if HasId(records, id) {
      AddKeepsOthers(records, r, id);
    }
  }

  lemma {:induction false} SentAdvances(t: Tables, sent: uint16, qos: QoS, id: uint16)
    requires LegalTables(t)
    ensures Advances(t.outgoing, PublishSent(t, sent, qos).1.outgoing, id)
  {
    hide Find, SetState;
    if HasId(t.outgoing, sent) {
      SetStateFind(t.outgoing, sent, CalculateStatePublish(Send, qos), id);
    }
  }

  lemma {:induction false} RemoveAdvances(records: seq<Record>, gone: uint16, id: uint16)
    requires UniqueIds(records)
    ensures HasId(records, gone) ==> Advances(records, Remove(records, gone), id)
  {
    if id != gone {
      RemoveFind(records, gone, id);
    } else if HasId(records, gone) {
      RemoveShape(records, gone);
    }
  }

  lemma {:induction false} AckAdvances(records: seq<Record>, acked: uint16, ack: AckType, op: Operation, id: uint16)
    requires UniqueIds(records)
    requires forall i :: 0 <= i < |records| ==> LegalRecord(records[i], IsPublishOutgoing(ack, op))
    ensures Advances(records, AckRecords(records, acked, ack, op).1, id)
  {
    if HasId(records, acked) {
      var found := Find(records, acked);
      assert LegalRecord(records[found.index], IsPublishOutgoing(ack, op));
      var next := CalculateStateAck(ack, op, found.qos);
      if ValidTransitionAck(found.state, next) {
        if next == PublishDone {
          RemoveAdvances(records, acked, id);
        } else if next == PubRelSend {
          MoveAdvances(records, acked, id);
        } else {
          AckLowersRank(found.state, next);
          SetStateFind(records, acked, next, id);
        }
      }
    }
  }

  lemma {:induction false} AckLowersRank(current: State, next: State)
    requires ValidTransitionAck(current, next)
    ensures next == current || Rank(next) < Rank(current)
  {
  }

  /** Moving a record from PubRecPending to the back as PubRelSend leaves the others alone. */
  lemma {:induction false} MoveAdvances(records: seq<Record>, moved: uint16, id: uint16)
    requires UniqueIds(records) && HasId(records, moved)
    requires Find(records, moved).qos == QoS2 && Find(records, moved).state == PubRecPending
    ensures Advances(records, Remove(records, moved) + [Record(moved, QoS2, PubRelSend)], id)
  {
    RemoveShape(records, moved);
    var rest := Remove(records, moved);
    if id == moved {
      FindLast(rest, Record(moved, QoS2, PubRelSend));
    } else {
      RemoveFind(records, moved, id);
      if HasId(records, id) {
        AddKeepsOthers(rest, Record(moved, QoS2, PubRelSend), id);
      }
    }
  }

  lemma {:induction false} FindLast(records: seq<Record>, r: Record)
    requires !HasId(records, r.packetId)
    ensures Find(records + [r], r.packetId) == Found(|records|, r.qos, r.publishState)
  {
    var all := records + [r];
    assert all[|records|] == r;
    assert forall i :: 0 <= i < |records| ==> all[i] == records[i];
  }

  /** One of the two queues. */
  function Queue(t: Tables, outgoing: bool): seq<Record> {
    if outgoing then t.outgoing else t.incoming
  }

  /** How often the state of a record changes while the calls are made. */
  function Changes(cap: Capacity, calls: seq<Call>, from: nat, id: uint16, outgoing: bool): nat
    requires from <= |calls|
    decreases |calls| - from
  {
    if from == |calls| then 0
    else
      var b := Find(Queue(Run(cap, calls[..from]), outgoing), id);
      var a := Find(Queue(Run(cap, calls[..from + 1]), outgoing), id);
      (if b.Found? && a.Found? && a.state != b.state then 1 else 0) + Changes(cap, calls, from + 1, id, outgoing)
  }

  /** The record is live all through the calls. */
  ghost predicate StaysLive(cap: Capacity, calls: seq<Call>, from: nat, id: uint16, outgoing: bool) {
    forall k :: from <= k <= |calls| ==> HasId(Queue(Run(cap, calls[..k]), outgoing), id)
  }

  /** As long as a record stays live it changes state at most three times, an incoming one at most twice. */
  lemma {:induction false} AtMostThreeChanges(cap: Capacity, calls: seq<Call>, from: nat, id: uint16, outgoing: bool)
    requires from <= |calls| && StaysLive(cap, calls, from, id, outgoing)
    ensures Changes(cap, calls, from, id, outgoing) <= if outgoing then 3 else 2
  {
    ChangesBoundedByRank(cap, calls, from, id, outgoing);
    LiveRank(cap, calls[..from], id, outgoing);
    LiveRank(cap, calls[..|calls|], id, outgoing);
  }

  /** The ranks of live records. */
  lemma {:induction false} LiveRank(cap: Capacity, calls: seq<Call>, id: uint16, outgoing: bool)
    requires HasId(Queue(Run(cap, calls), outgoing), id)
    ensures 1 <= Rank(Find(Queue(Run(cap, calls), outgoing), id).state) <= if outgoing then 4 else 3
  {
    EveryRunIsLegal(cap, calls);
    var records := Queue(Run(cap, calls), outgoing);
    assert LegalRecord(records[Find(records, id).index], outgoing);
  }

  lemma {:induction false} ChangesBoundedByRank(cap: Capacity, calls: seq<Call>, from: nat, id: uint16, outgoing: bool)
    requires from <= |calls| && StaysLive(cap, calls, from, id, outgoing)
    ensures Changes(cap, calls, from, id, outgoing) + Rank(Find(Queue(Run(cap, calls[..|calls|]), outgoing), id).state)
            <= Rank(Find(Queue(Run(cap, calls[..from]), outgoing), id).state)
    decreases |calls| - from
  {
    if from < |calls| {
      ChangesBoundedByRank(cap, calls, from + 1, id, outgoing);
      EveryRunIsLegal(cap, calls[..from]);
      assert calls[..from + 1][..from] == calls[..from];
      EveryCallAdvances(Run(cap, calls[..from]), cap, calls[from], id);
    }
  }

  // ----- ordering (section 4.6 of MQTT 3.1.1)

  datatype Event = Reserved(id: uint16) | PubrecArrived(id: uint16) | Other

  /** What an accepted call adds to the history that ordering is about. */
  function EventOf(t: Tables, cap: Capacity, call: Call): Event {
    if Apply(t, cap, call).0 != Success then Other
    else
      match call
      case CallReserve(id, qos) => if qos == QoS0 then Other else Reserved(id)
      case CallAck(id, ack, op) => if ack == Pubrec && op == Receive then PubrecArrived(id) else Other
      case _ => Other
  }

  function History(cap: Capacity, calls: seq<Call>): (h: seq<Event>)
    ensures |h| == |calls|
  {
    if calls == [] then []
    else
      var before := calls[..|calls| - 1];
      History(cap, before) + [EventOf(Run(cap, before), cap, calls[|calls| - 1])]
  }

  /** The last time an event happened, -1 if never. */
  function LastTime(h: seq<Event>, e: Event): (at: int)
    ensures -1 <= at < |h| && (at >= 0 ==> h[at] == e)
  {
    if h == [] then -1
    else if h[|h| - 1] == e then |h| - 1
    else LastTime(h[..|h| - 1], e)
  }

  lemma {:induction false} LastTimeExtends(h: seq<Event>, e: Event, x: Event)
    ensures LastTime(h + [x], e) == if x == e then |h| else LastTime(h, e)
  {
    assert (h + [x])[..|h|] == h;
  }

  /** The two phases of an outgoing record: waiting for PUBACK or PUBREC, and after PUBREC. */
  function PhaseStates(released: bool): set<State> {
    if released then PUBREL_STATES else PUBLISH_STATES
  }

  /** When a record entered its phase. */
  function Entered(h: seq<Event>, released: bool, id: uint16): int {
    LastTime(h, if released then PubrecArrived(id) else Reserved(id))
  }

  /** The records of a phase stand in the order in which they entered it. */
  ghost predicate InOrder(records: seq<Record>, h: seq<Event>, released: bool) {
    && (forall i :: 0 <= i < |records| && records[i].publishState in PhaseStates(released) ==>
          Entered(h, released, records[i].packetId) >= 0)
    && (forall i, j ::
          (0 <= i < j < |records|
           && records[i].publishState in PhaseStates(released)
           && records[j].publishState in PhaseStates(released)) ==>
          Entered(h, released, records[i].packetId) < Entered(h, released, records[j].packetId))
  }

  lemma {:induction false} IrrelevantEvent(records: seq<Record>, h: seq<Event>, x: Event, released: bool)
    requires InOrder(records, h, released)
    requires x != Other ==> !HasId(records, x.id) || x.Reserved? == released
    ensures InOrder(records, h + [x], released)
  {
    forall i | 0 <= i < |records|
      ensures Entered(h + [x], released, records[i].packetId) == Entered(h, released, records[i].packetId)
    {
      var id := records[i].packetId;
      LastTimeExtends(h, if released then PubrecArrived(id) else Reserved(id), x);
    }
  }

  lemma {:induction false} RemoveInOrder(records: seq<Record>, h: seq<Event>, released: bool, id: uint16)
    requires InOrder(records, h, released) && HasId(records, id)
    ensures InOrder(Remove(records, id), h, released)
  {
    hide Find, Remove, Entered;
    RemoveSplit(records, id);
    var k := Find(records, id).index;
    var rest := records[..k] + records[k + 1..];
    assert forall i :: 0 <= i < k ==> rest[i] == records[i];
    assert forall i :: k <= i < |rest| ==> rest[i] == records[i + 1];
  }

  lemma {:induction false} SetStateInOrder(records: seq<Record>, h: seq<Event>, released: bool, id: uint16,
                                           state: State)
    requires InOrder(records, h, released) && HasId(records, id)
    requires Find(records, id).state in PhaseStates(released) || state !in PhaseStates(released)
    ensures InOrder(SetState(records, id, state), h, released)
  {
    SetStateShape(records, id, state);
  }

  lemma {:induction false} AppendInOrder(records: seq<Record>, h: seq<Event>, released: bool, r: Record)
    requires InOrder(records, h, released) && !HasId(records, r.packetId)
    requires r.publishState in PhaseStates(released)
    ensures InOrder(records + [r], h + [if released then PubrecArrived(r.packetId) else Reserved(r.packetId)], released)
  {
    var e := if released then PubrecArrived(r.packetId) else Reserved(r.packetId);
    LastTimeExtends(h, e, e);
    forall i | 0 <= i < |records|
      ensures Entered(h + [e], released, records[i].packetId) == Entered(h, released, records[i].packetId)
    {
      var id := records[i].packetId;
      LastTimeExtends(h, if released then PubrecArrived(id) else Reserved(id), e);
    }
  }

  lemma {:induction false} AppendElsewhere(records: seq<Record>, h: seq<Event>, x: Event, released: bool, r: Record)
    requires InOrder(records, h, released)
    requires r.publishState !in PhaseStates(released)
    requires x != Other ==> x.Reserved? == released
    ensures InOrder(records + [r], h + [x], released)
  {
    IrrelevantEvent(records, h, x, released);
  }

  lemma {:induction false} CallKeepsOrder(t: Tables, cap: Capacity, call: Call, h: seq<Event>, released: bool)
    requires LegalTables(t) && InOrder(t.outgoing, h, released)
    ensures InOrder(Apply(t, cap, call).1.outgoing, h + [EventOf(t, cap, call)], released)
  {
    var x := EventOf(t, cap, call);
    if Apply(t, cap, call).0 != Success {
      FailureChangesNothing(t, cap, call);
      IrrelevantEvent(t.outgoing, h, x, released);
      return;
    }
    match call
    case CallReserve(id, qos) =>
      if qos == QoS0 { IrrelevantEvent(t.outgoing, h, x, released); }
      else if released { AppendElsewhere(t.outgoing, h, x, true, Record(id, qos, PublishSend)); }
      else { AppendInOrder(t.outgoing, h, false, Record(id, qos, PublishSend)); }
    case CallSent(id, qos) =>
      if qos != QoS0 {
        SetStateInOrder(t.outgoing, h, released, id, CalculateStatePublish(Send, qos));
      }
      IrrelevantEvent(Apply(t, cap, call).1.outgoing, h, x, released);
    case CallAck(id, ack, op) =>
      if IsPublishOutgoing(ack, op) {
        AckKeepsOrder(t.outgoing, id, ack, op, h, released);
      } else {
        IrrelevantEvent(t.outgoing, h, x, released);
      }
    case CallCancel(id) =>
      RemoveInOrder(t.outgoing, h, released, id);
      IrrelevantEvent(Remove(t.outgoing, id), h, x, released);
    case _ =>
      IrrelevantEvent(Apply(t, cap, call).1.outgoing, h, x, released);
  }

  lemma {:induction false} AckKeepsOrder(records: seq<Record>, id: uint16, ack: AckType, op: Operation, h: seq<Event>,
                                         released: bool)
    requires UniqueIds(records) && (forall i :: 0 <= i < |records| ==> OutgoingRecord(records[i]))
    requires InOrder(records, h, released) && IsPublishOutgoing(ack, op)
    requires AckRecords(records, id, ack, op).0 == Success
    ensures var x := if ack == Pubrec then PubrecArrived(id) else Other;
            InOrder(AckRecords(records, id, ack, op).1, h + [x], released)
  {
    var found := Find(records, id);
    var next := CalculateStateAck(ack, op, found.qos);
    assert OutgoingRecord(records[found.index]);
    RemoveInOrder(records, h, released, id);
    RemoveShape(records, id);
    if ack == Pubrec {
      var r := Record(id, QoS2, PubRelSend);
      if released {
        AppendInOrder(Remove(records, id), h, true, r);
      } else {
        AppendElsewhere(Remove(records, id), h, PubrecArrived(id), false, r);
      }
    } else if next == PublishDone {
      IrrelevantEvent(Remove(records, id), h, Other, released);
    } else {
      SetStateInOrder(records, h, released, id, next);
      IrrelevantEvent(SetState(records, id, next), h, Other, released);
    }
  }

  lemma {:induction false} EveryRunIsInOrder(cap: Capacity, calls: seq<Call>, released: bool)
    ensures InOrder(Run(cap, calls).outgoing, History(cap, calls), released)
  {
    if calls != [] {
      var before := calls[..|calls| - 1];
      EveryRunIsInOrder(cap, before, released);
      EveryRunIsLegal(cap, before);
      CallKeepsOrder(Run(cap, before), cap, calls[|calls| - 1], History(cap, before), released);
    }
  }

  /** Section 4.6: whatever mix of calls was made, the records a resend cursor enumerates come in the
      order of their reservation, respectively of the arrival of their PUBREC. */
  lemma {:induction false} ResendFollowsOrder(cap: Capacity, calls: seq<Call>, released: bool, i: nat, j: nat)
    requires i < j < |Select(Run(cap, calls).outgoing, PhaseStates(released))|
    ensures var resend := Select(Run(cap, calls).outgoing, PhaseStates(released));
            0 <= Entered(History(cap, calls), released, resend[i].packetId)
               < Entered(History(cap, calls), released, resend[j].packetId)
  {
    EveryRunIsInOrder(cap, calls, released);
    SelectInOrder(Run(cap, calls).outgoing, History(cap, calls), released);
    SelectedInStates(Run(cap, calls).outgoing, PhaseStates(released));
  }

  lemma {:induction false} SelectedInStates(records: seq<Record>, states: set<State>)
    ensures forall i :: 0 <= i < |Select(records, states)| ==> Select(records, states)[i].publishState in states
  {
    if records != [] { SelectedInStates(records[1..], states); }
  }

  lemma {:induction false} SelectInOrder(records: seq<Record>, h: seq<Event>, released: bool)
    requires InOrder(records, h, released)
    ensures InOrder(Select(records, PhaseStates(released)), h, released)
  {
    if records != [] {
      TailInOrder(records, h, released);
      SelectInOrder(records[1..], h, released);
      if records[0].publishState in PhaseStates(released) {
        SelectedAreLater(records[0].packetId, records[1..], h, released);
        HeadInOrder(records[0], Select(records[1..], PhaseStates(released)), h, released);
      }
    }
  }

  lemma {:induction false} TailInOrder(records: seq<Record>, h: seq<Event>, released: bool)
    requires records != [] && InOrder(records, h, released)
    ensures InOrder(records[1..], h, released)
    ensures records[0].publishState in PhaseStates(released) ==>
              Later(records[0].packetId, records[1..], h, released) && Entered(h, released, records[0].packetId) >= 0
  {
    hide Entered;
    assert forall i :: 0 <= i < |records[1..]| ==> records[1..][i] == records[i + 1];
  }

  /** Every record of the phase entered it after the given id. */
  ghost predicate Later(id: uint16, records: seq<Record>, h: seq<Event>, released: bool) {
    forall i :: 0 <= i < |records| && records[i].publishState in PhaseStates(released) ==>
      Entered(h, released, id) < Entered(h, released, records[i].packetId)
  }

  lemma {:induction false} SelectedAreLater(id: uint16, records: seq<Record>, h: seq<Event>, released: bool)
    requires Later(id, records, h, released)
    ensures Later(id, Select(records, PhaseStates(released)), h, released)
  {
    if records != [] {
      assert forall i :: 0 <= i < |records[1..]| ==> records[1..][i] == records[i + 1];
      SelectedAreLater(id, records[1..], h, released);
    }
  }

  lemma {:induction false} HeadInOrder(r: Record, rest: seq<Record>, h: seq<Event>, released: bool)
    requires InOrder(rest, h, released) && Later(r.packetId, rest, h, released)
    requires Entered(h, released, r.packetId) >= 0
    ensures InOrder([r] + rest, h, released)
  {
    hide Entered;
  }
}
