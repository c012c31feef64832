/** Delivery guarantees over every run of a client, and what resuming a session sends. */
module SessionRuns {
  import opened Types
  import opened StateRecords
  import opened StateEngine
  import opened QosSession
  import opened StateTable
  import StateRuns

  /** Everything that can happen to a client; `sent` is what the transport does with the reply. */
  datatype Input =
    | PublishArrives(id: uint16, qos: QoS, sent: bool)
    | AckArrives(id: uint16, ack: AckType, sent: bool)
    | AppPublishes(id: uint16, qos: QoS, dup: bool, sizeOk: bool, sent: bool)
    | AppCancels(id: uint16)
    | Reconnects(sessionPresent: bool, fates: seq<bool>)

  datatype Limits = Limits(outgoing: nat, incoming: nat)

  function Step(c: Client, lim: Limits, input: Input): Client {
    match input
    case PublishArrives(id, qos, sent) => IncomingPublish(c, lim.incoming, id, qos, sent).1
    case AckArrives(id, ack, sent) => IncomingAck(c, id, ack, sent).1
    case AppPublishes(id, qos, dup, sizeOk, sent) => PublishOutcome(c, lim.outgoing, id, qos, dup, sizeOk, sent).1
    case AppCancels(id) => c.(tables := Cancelled(c.tables, id).1)
    case Reconnects(present, fates) => Resume(c, present, (k: nat) => k < |fates| && fates[k]).1
  }

  const FRESH_CLIENT := Client(Tables([], []), [])

  function Run(lim: Limits, inputs: seq<Input>): Client {
    if inputs == [] then FRESH_CLIENT
    else Step(Run(lim, inputs[..|inputs| - 1]), lim, inputs[|inputs| - 1])
  }

  // ----- at most once (section 4.3.3 of MQTT 3.1.1)

  /** What ends the exchange about an incoming QoS 2 id. */
  predicate Closes(e: Effect, id: uint16) {
    e == Sent(id, Pubcomp) || e == SessionCleared
  }

  /** A QoS 2 message with this id was delivered and its exchange has not ended since. */
  predicate Open(log: seq<Effect>, id: uint16) {
    log != [] &&
    var last := log[|log| - 1];
    if last == Delivered(id, QoS2) then true
    else if Closes(last, id) then false
    else Open(log[..|log| - 1], id)
  }

  /** Between two deliveries of one QoS 2 id the exchange ended. */
  ghost predicate DeliveredOnce(log: seq<Effect>, id: uint16) {
    forall i, j :: 0 <= i < j < |log| && log[i] == log[j] == Delivered(id, QoS2) ==>
      exists k :: i < k < j && Closes(log[k], id)
  }

  /** The id of an open exchange is still held, as QoS 2, by an incoming record. */
  ghost predicate Guarded(c: Client) {
    forall id: uint16 :: Open(c.log, id) ==>
      Holds(c.tables.incoming, id)
  }

  predicate Holds(records: seq<Record>, id: uint16) {
    Find(records, id).Found? && Find(records, id).qos == QoS2
  }

  ghost predicate Safe(c: Client) {
    LegalTables(c.tables) && Guarded(c) && forall id: uint16 :: DeliveredOnce(c.log, id)
  }

  lemma {:induction false} ClosedSince(log: seq<Effect>, id: uint16, i: nat)
    requires i < |log| && log[i] == Delivered(id, QoS2) && !Open(log, id)
    ensures exists k :: i < k < |log| && Closes(log[k], id)
  {
    var n := |log| - 1;
    if !Closes(log[n], id) {
      assert log[..n][i] == log[i];
      ClosedSince(log[..n], id, i);
      var k :| i < k < |log[..n]| && Closes(log[..n][k], id);
      assert Closes(log[k], id);
    }
  }

  /** Extending the log keeps deliveries apart unless it delivers on an open exchange. */
  lemma {:induction false} LogExtends(log: seq<Effect>, e: Effect, id: uint16)
    requires DeliveredOnce(log, id)
    requires e == Delivered(id, QoS2) ==> !Open(log, id)
    ensures DeliveredOnce(log + [e], id)
    ensures Open(log + [e], id) <==> e == Delivered(id, QoS2) || (Open(log, id) && !Closes(e, id))
  {
    var all := log + [e];
    assert all[..|log|] == log;
    forall i, j | 0 <= i < j < |all| && all[i] == all[j] == Delivered(id, QoS2)
      ensures exists k :: i < k < j && Closes(all[k], id)
    {
      if j == |log| {
        ClosedSince(log, id, i);
      }
      var k :| i < k < j && Closes(log[k], id);
      assert Closes(all[k], id);
    }
  }

  /** A logged step of the tables is safe when it delivers no id that is held, and lets go of a held id
      only if `e` ends its exchange. */
  lemma {:induction false} Extend(c: Client, tables: Tables, e: Effect)
    requires Safe(c) && LegalTables(tables)
    requires e.Delivered? && e.qos == QoS2 ==> !HasId(c.tables.incoming, e.id) && Holds(tables.incoming, e.id)
    requires forall id: uint16 :: Holds(c.tables.incoming, id) && !Closes(e, id) ==> Holds(tables.incoming, id)
    ensures Safe(Client(tables, c.log + [e]))
  {
    forall id: uint16
      ensures DeliveredOnce(c.log + [e], id)
      ensures Open(c.log + [e], id) ==> Holds(tables.incoming, id)
    {
      LogExtends(c.log, e, id);
    }
  }

  /** Only a PUBCOMP of ours lets go of a held QoS 2 id. */
  lemma {:induction false} AckKeepsHold(t: Tables, id: uint16, ack: AckType, op: Operation, held: uint16)
    requires LegalTables(t) && Holds(t.incoming, held)
    requires !(ack == Pubcomp && op == Send && id == held)
    ensures Holds(Acked(t, id, ack, op).1.incoming, held)
  {
    if !IsPublishOutgoing(ack, op) && HasId(t.incoming, id) {
      var found := Find(t.incoming, id);
      var next := CalculateStateAck(ack, op, found.qos);
      assert IncomingRecord(t.incoming[found.index]);
      if ValidTransitionAck(found.state, next) {
        if next == PublishDone {
          StateRuns.RemoveFind(t.incoming, id, held);
        } else {
          StateRuns.SetStateFind(t.incoming, id, next, held);
        }
      }
    }
  }

  lemma {:induction false} AckStepSafe(c: Client, id: uint16, ack: AckType, op: Operation, e: Effect)
    requires Safe(c)
    requires e == if op == Send then Sent(id, ack) else AckReported(id, ack)
    ensures Safe(Client(Acked(c.tables, id, ack, op).1, c.log + [e]))
  {
    AckKeepsLegal(c.tables, id, ack, op);
    forall held: uint16 | Holds(c.tables.incoming, held) && !Closes(e, held)
      ensures Holds(Acked(c.tables, id, ack, op).1.incoming, held)
    {
      AckKeepsHold(c.tables, id, ack, op, held);
    }
    Extend(c, Acked(c.tables, id, ack, op).1, e);
  }

  lemma {:induction false} SendAckSafe(c: Client, id: uint16, state: State, sent: bool)
    requires Safe(c)
    ensures Safe(SendAck(c, id, state, sent).1)
  {
    match GetAckTypeToSend(state)
    case Nothing =>
    case Packet(ack) => AckStepSafe(c, id, ack, Send, Sent(id, ack));
  }

  lemma {:induction false} IncomingPublishSafe(c: Client, capacity: nat, id: uint16, qos: QoS, sent: bool)
    requires Safe(c)
    ensures Safe(IncomingPublish(c, capacity, id, qos, sent).1)
  {
    var (status, tables) := PublishReceived(c.tables, capacity, id, qos);
    var state := CalculateStatePublish(Receive, qos);
    if status == Success {
      ReceiveKeepsLegal(c.tables, capacity, id, qos);
      if qos != QoS0 {
        StateRuns.FindLast(c.tables.incoming, Record(id, qos, state));
        forall held: uint16 | Holds(c.tables.incoming, held)
          ensures Holds(tables.incoming, held)
        {
          StateRuns.AddKeepsOthers(c.tables.incoming, Record(id, qos, state), held);
        }
      }
      Extend(c, tables, Delivered(id, qos));
      SendAckSafe(Client(tables, c.log + [Delivered(id, qos)]), id, state, sent);
    } else if status == StateCollision {
      SendAckSafe(c, id, state, sent);
    }
  }

  lemma {:induction false} IncomingAckSafe(c: Client, id: uint16, ack: AckType, sent: bool)
    requires Safe(c)
    ensures Safe(IncomingAck(c, id, ack, sent).1)
  {
    var (status, tables) := Acked(c.tables, id, ack, Receive);
    AckStepSafe(c, id, ack, Receive, AckReported(id, ack));
    if status == Success {
      SendAckSafe(Client(tables, c.log + [AckReported(id, ack)]), id, AckOutcome(c.tables, id, ack, Receive), sent);
    }
  }

  lemma {:induction false} PublishSafe(c: Client, capacity: nat, id: uint16, qos: QoS, dup: bool,
                                       sizeOk: bool, sent: bool)
    requires Safe(c)
    ensures Safe(PublishOutcome(c, capacity, id, qos, dup, sizeOk, sent).1)
  {
    var tables := Reserve(c.tables, capacity, id, qos).1;
    ReserveKeepsLegal(c.tables, capacity, id, qos);
    SentKeepsLegal(tables, id, qos);
    Extend(c, PublishSent(tables, id, qos).1, Published(id, qos));
  }

  lemma {:induction false} ResendSafe(c: Client, pending: seq<Record>, sent: nat -> bool, k: nat)
    requires Safe(c)
    ensures Safe(ResendPubrels(c, pending, sent, k).1)
    decreases pending
  {
    if pending != [] {
      var (status, next) := SendAck(c, pending[0].packetId, PubRelSend, sent(k));
      SendAckSafe(c, pending[0].packetId, PubRelSend, sent(k));
      if status == Success {
        ResendSafe(next, pending[1..], sent, k + 1);
      }
    }
  }

  lemma {:induction false} StepSafe(c: Client, lim: Limits, input: Input)
    requires Safe(c)
    ensures Safe(Step(c, lim, input))
  {
    match input
    case PublishArrives(id, qos, sent) => IncomingPublishSafe(c, lim.incoming, id, qos, sent);
    case AckArrives(id, ack, sent) => IncomingAckSafe(c, id, ack, sent);
    case AppPublishes(id, qos, dup, sizeOk, sent) => PublishSafe(c, lim.outgoing, id, qos, dup, sizeOk, sent);
    case AppCancels(id) => CancelKeepsLegal(c.tables, id);
    case Reconnects(present, fates) =>
      if present {
        ResendSafe(c, Select(c.tables.outgoing, PUBREL_STATES), (k: nat) => k < |fates| && fates[k], 0);
      } else {
        Extend(c, Tables([], []), SessionCleared);
      }
  }

  lemma {:induction false} EveryRunIsSafe(lim: Limits, inputs: seq<Input>)
    ensures Safe(Run(lim, inputs))
  {
    if inputs != [] {
      EveryRunIsSafe(lim, inputs[..|inputs| - 1]);
      StepSafe(Run(lim, inputs[..|inputs| - 1]), lim, inputs[|inputs| - 1]);
    }
  }

  /** Section 4.3.3: in any run, whatever duplicates, wrong-QoS repeats and failed sends occur, two
      deliveries of QoS 2 messages with one id have a completely sent PUBCOMP for that id, or the
      loss of the session, between them. */
  lemma {:induction false} AtMostOnceDelivery(lim: Limits, inputs: seq<Input>, id: uint16, i: nat, j: nat)
    requires i < j < |Run(lim, inputs).log|
    requires Run(lim, inputs).log[i] == Run(lim, inputs).log[j] == Delivered(id, QoS2)
    ensures exists k :: i < k < j && Closes(Run(lim, inputs).log[k], id)
  {
    EveryRunIsSafe(lim, inputs);
    assert DeliveredOnce(Run(lim, inputs).log, id);
  }

  // ----- resuming a session

  function PubrelsFor(pending: seq<Record>): seq<Effect> {
    if pending == [] then [] else [Sent(pending[0].packetId, Pubrel)] + PubrelsFor(pending[1..])
  }

  /** The first m records waiting for a PUBCOMP, or for their PUBREL to go out, now wait for a PUBCOMP. */
  function FirstReleased(records: seq<Record>, m: nat): seq<Record> {
    if records == [] then []
    else if m > 0 && WaitsForPubrel(records[0]) then [Released(records[0])] + FirstReleased(records[1..], m - 1)
    else [records[0]] + FirstReleased(records[1..], m)
  }

  function Released(r: Record): Record {
    r.(publishState := PubCompPending)
  }

  /** Of the sends from the k-th on, m succeed, and the one after them, if there are more to make, does not. */
  ghost predicate Succeed(sent: nat -> bool, k: nat, m: nat, total: nat) {
    m <= total && (forall j :: k <= j < k + m ==> sent(j)) && (m < total ==> !sent(k + m))
  }

  lemma {:induction false} ReleasedSplice(out: seq<Record>, n: nat, m: nat)
    requires n < |out|
    ensures var next := if m > 0 && WaitsForPubrel(out[n]) then Released(out[n]) else out[n];
            var left := if m > 0 && WaitsForPubrel(out[n]) then m - 1 else m;
            && out[n := next][..n + 1] + FirstReleased(out[n + 1..], left) == out[..n] + FirstReleased(out[n..], m)
            && out[n := next][n + 1..] == out[n + 1..]
    ensures Waiting(out[n..], true) == (if WaitsForPubrel(out[n]) then [out[n]] else []) + Waiting(out[n + 1..], true)
  {
    assert out[n..][1..] == out[n + 1..];
  }

  /** Resuming a session sends one PUBREL after the other, for the records in PubRelSend or PubCompPending in live
      order, until one fails; the records whose PUBREL went out end in PubCompPending, and nothing else is touched. */
  lemma {:induction false} ResumeSendsPubrels(c: Client, sent: nat -> bool, m: nat)
    requires LegalTables(c.tables) && Succeed(sent, 0, m, |Waiting(c.tables.outgoing, true)|)
    ensures var pending := Waiting(c.tables.outgoing, true);
            Resume(c, true, sent) ==
            (if m == |pending| then Success else SendFailed,
             Client(c.tables.(outgoing := FirstReleased(c.tables.outgoing, m)), c.log + PubrelsFor(pending[..m])))
  {
    hide Waiting, ResendPubrels, FirstReleased;
    var out := c.tables.outgoing;
    assert out[0..] == out && out[..0] + FirstReleased(out, m) == FirstReleased(out, m);
    SelectsWaiting(out);
    ResumeFrom(c, 0, sent, 0, m);
  }

  /** With a working transport that is every one of them. */
  lemma {:induction false} ResumeSendsEveryPubrel(c: Client, sent: nat -> bool)
    requires LegalTables(c.tables) && forall k: nat :: sent(k)
    ensures var pending := Waiting(c.tables.outgoing, true);
            Resume(c, true, sent) ==
            (Success,
             Client(c.tables.(outgoing := FirstReleased(c.tables.outgoing, |pending|)), c.log + PubrelsFor(pending)))
    ensures forall i :: 0 <= i < |FirstReleased(c.tables.outgoing, |Waiting(c.tables.outgoing, true)|)| ==>
              FirstReleased(c.tables.outgoing, |Waiting(c.tables.outgoing, true)|)[i].publishState != PubRelSend
  {
    hide Resume;
    var pending := Waiting(c.tables.outgoing, true);
    assert pending[..|pending|] == pending;
    ResumeSendsPubrels(c, sent, |pending|);
    NoneUnsent(c.tables.outgoing);
  }

  lemma {:induction false} NoneUnsent(records: seq<Record>)
    ensures var after := FirstReleased(records, |Waiting(records, true)|);
      |after| == |records| && forall i :: 0 <= i < |after| ==> after[i].publishState != PubRelSend
  {
    if records != [] {
      NoneUnsent(records[1..]);
    }
  }

  lemma {:induction false} ResumeFrom(c: Client, n: nat, sent: nat -> bool, k: nat, m: nat)
    requires n <= |c.tables.outgoing| && LegalTables(c.tables)
    requires Succeed(sent, k, m, |Waiting(c.tables.outgoing[n..], true)|)
    ensures var out := c.tables.outgoing;
            var pending := Waiting(out[n..], true);
            ResendPubrels(c, pending, sent, k) ==
            (if m == |pending| then Success else SendFailed,
             Client(c.tables.(outgoing := out[..n] + FirstReleased(out[n..], m)), c.log + PubrelsFor(pending[..m])))
    decreases |c.tables.outgoing| - n
  {
    hide SendAck, LegalTables, Released;
    var out := c.tables.outgoing;
    if n == |out| {
      assert out[..n] + [] == out && c.log + [] == c.log;
    } else {
      ReleasedSplice(out, n, m);
      var pending, rest := Waiting(out[n..], true), Waiting(out[n + 1..], true);
      if !WaitsForPubrel(out[n]) {
        assert pending == rest && out[n := out[n]] == out;
        ResumeFrom(c, n + 1, sent, k, m);
      } else if m == 0 {
        ReleasedNone(out[n..]);
        assert out[..n] + out[n..] == out && c.log + [] == c.log;
        PubrelFails(c, out[n].packetId);
      } else {
        var next := PubrelSent(c, n);
        assert pending[1..] == rest;
        ResumeFrom(next, n + 1, sent, k + 1, m - 1);
        LogStep(c.log, pending, m);
      }
    }
  }

  lemma {:induction false} ReleasedNone(records: seq<Record>)
    ensures FirstReleased(records, 0) == records
  {
    if records != [] {
      ReleasedNone(records[1..]);
    }
  }

  lemma {:induction false} PubrelFails(c: Client, id: uint16)
    ensures SendAck(c, id, PubRelSend, false) == (SendFailed, c)
  {
  }

  lemma {:induction false} LogStep(log: seq<Effect>, pending: seq<Record>, m: nat)
    requires 0 < m <= |pending|
    ensures log + [Sent(pending[0].packetId, Pubrel)] + PubrelsFor(pending[1..][..m - 1])
         == log + PubrelsFor(pending[..m])
  {
    assert pending[..m][1..] == pending[1..][..m - 1];
  }

  lemma {:induction false} FoundWhereItIs(t: Tables, n: nat)
    requires LegalTables(t) && n < |t.outgoing|
    ensures var r := t.outgoing[n];
      && r.packetId != 0 && HasId(t.outgoing, r.packetId)
      && Find(t.outgoing, r.packetId) == Found(n, r.qos, r.publishState)
  {
    assert OutgoingRecord(t.outgoing[n]);
    assert Find(t.outgoing, t.outgoing[n].packetId).index == n;
  }

  lemma {:induction false} PubrelSent(c: Client, n: nat) returns (next: Client)
    requires LegalTables(c.tables) && n < |c.tables.outgoing| && WaitsForPubrel(c.tables.outgoing[n])
    ensures var out := c.tables.outgoing;
            && next.tables == c.tables.(outgoing := out[n := Released(out[n])])
            && next.log == c.log + [Sent(out[n].packetId, Pubrel)]
            && SendAck(c, out[n].packetId, PubRelSend, true) == (Success, next) && LegalTables(next.tables)
  {
    hide Acked, Find, HasId, LegalTables, SetState;
    var out := c.tables.outgoing;
    FoundWhereItIs(c.tables, n);
    AckedByTable(c.tables, out[n].packetId, Pubrel, Send);
    SetStateShape(out, out[n].packetId, PubCompPending);
    SendAckKeepsLegal(c, out[n].packetId, PubRelSend, true);
    next := SendAck(c, out[n].packetId, PubRelSend, true).1;
  }
}
