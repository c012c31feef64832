/** Complete message exchanges between a client and its broker when nothing fails (section 4.3 of MQTT 3.1.1). */
module Exchanges {
  import opened Types
  import opened StateRecords
  import opened StateEngine
  import opened QosSession
  import opened StateTable
  import StateRuns

  // ----- a record at the end of its queue

  lemma {:induction false} LastFound(records: seq<Record>, r: Record)
    requires !HasId(records, r.packetId)
    ensures HasId(records + [r], r.packetId)
    ensures Find(records + [r], r.packetId) == Found(|records|, r.qos, r.publishState)
  {
    StateRuns.FindLast(records, r);
    assert (records + [r])[|records|] == r;
  }

  lemma {:induction false} LastRemoved(records: seq<Record>, r: Record)
    requires !HasId(records, r.packetId)
    ensures Remove(records + [r], r.packetId) == records
  {
    if records == [] {
      assert records + [r] == [r];
    } else {
      NotInTail(records, r.packetId);
      assert (records + [r])[1..] == records[1..] + [r];
      LastRemoved(records[1..], r);
    }
  }

  lemma {:induction false} LastRestated(records: seq<Record>, r: Record, state: State)
    requires !HasId(records, r.packetId)
    ensures SetState(records + [r], r.packetId, state) == records + [r.(publishState := state)]
  {
    if records == [] {
      assert records + [r] == [r];
    } else {
      NotInTail(records, r.packetId);
      assert (records + [r])[1..] == records[1..] + [r];
      LastRestated(records[1..], r, state);
    }
  }

  lemma {:induction false} NotInTail(records: seq<Record>, id: uint16)
    requires records != [] && !HasId(records, id)
    ensures records[0].packetId != id && !HasId(records[1..], id)
  {
    assert forall i :: 0 <= i < |records[1..]| ==> records[1..][i] == records[i + 1];
    assert records[0].packetId != id;
  }

  /** What an accepted acknowledgement does to the last record of its queue. */
  lemma {:induction false} AckLast(records: seq<Record>, r: Record, ack: AckType, op: Operation)
    requires !HasId(records, r.packetId)
    requires ValidTransitionAck(r.publishState, CalculateStateAck(ack, op, r.qos))
    ensures var next := CalculateStateAck(ack, op, r.qos);
      AckRecords(records + [r], r.packetId, ack, op)
      == (Success,
          if next == PublishDone then records
          else if next == PubRelSend then records + [Record(r.packetId, QoS2, PubRelSend)]
          else records + [r.(publishState := next)])
  {
    LastFound(records, r);
    LastRemoved(records, r);
    LastRestated(records, r, CalculateStateAck(ack, op, r.qos));
  }

  /** A client with one more outgoing or incoming record and more history. */
  function With(c: Client, out: seq<Record>, inc: seq<Record>, more: seq<Effect>): Client {
    Client(Tables(c.tables.outgoing + out, c.tables.incoming + inc), c.log + more)
  }

  lemma {:induction false} Appended(log: seq<Effect>, a: seq<Effect>, b: seq<Effect>)
    ensures (log + a) + b == log + (a + b)
  {
  }

  lemma {:induction false} AppendedTwo(log: seq<Effect>, a: Effect, b: Effect)
    ensures (log + [a]) + [b] == log + [a, b]
  {
  }

  // ----- receiving

  /** QoS 1: delivered, answered with a PUBACK, and no record is left. */
  lemma {:induction false} ReceivedAtLeastOnce(c: Client, capacity: nat, id: uint16)
    requires id != 0 && !HasId(c.tables.incoming, id) && |c.tables.incoming| < capacity
    ensures IncomingPublish(c, capacity, id, QoS1, true)
         == (Success, Client(c.tables, c.log + [Delivered(id, QoS1), Sent(id, Puback)]))
  {
    hide AckRecords, HasId;
    AckLast(c.tables.incoming, Record(id, QoS1, PubAckSend), Puback, Send);
    AppendedTwo(c.log, Delivered(id, QoS1), Sent(id, Puback));
  }

  /** QoS 2, first half: delivered, answered with a PUBREC, and the id is held. */
  lemma {:induction false} ReceivedFirstTime(c: Client, capacity: nat, id: uint16)
    requires id != 0 && !HasId(c.tables.incoming, id) && |c.tables.incoming| < capacity
    ensures IncomingPublish(c, capacity, id, QoS2, true)
         == (Success, With(c, [], [Record(id, QoS2, PubRelPending)], [Delivered(id, QoS2), Sent(id, Pubrec)]))
  {
    hide AckRecords, HasId;
    AckLast(c.tables.incoming, Record(id, QoS2, PubRecSend), Pubrec, Send);
    AppendedTwo(c.log, Delivered(id, QoS2), Sent(id, Pubrec));
    assert c.tables.outgoing + [] == c.tables.outgoing;
  }

  /** The same PUBLISH again: answered again, not delivered again. */
  lemma {:induction false} ReceivedAgain(c: Client, capacity: nat, id: uint16, more: seq<Effect>)
    requires id != 0 && !HasId(c.tables.incoming, id)
    ensures IncomingPublish(With(c, [], [Record(id, QoS2, PubRelPending)], more), capacity, id, QoS2, true)
         == (Success, With(c, [], [Record(id, QoS2, PubRelPending)], more + [Sent(id, Pubrec)]))
  {
    hide AckRecords, HasId;
    var r := Record(id, QoS2, PubRelPending);
    LastFound(c.tables.incoming, r);
    AckLast(c.tables.incoming, r, Pubrec, Send);
    Appended(c.log, more, [Sent(id, Pubrec)]);
  }

  /** QoS 2, second half: a PUBREL is answered with a PUBCOMP and the id is let go. */
  lemma {:induction false} Released(c: Client, id: uint16, more: seq<Effect>)
    requires id != 0 && !HasId(c.tables.incoming, id)
    ensures IncomingAck(With(c, [], [Record(id, QoS2, PubRelPending)], more), id, Pubrel, true)
         == (Success, Client(c.tables, c.log + (more + [AckReported(id, Pubrel), Sent(id, Pubcomp)])))
  {
    hide AckRecords, HasId;
    var r := Record(id, QoS2, PubRelPending);
    LastFound(c.tables.incoming, r);
    AckLast(c.tables.incoming, r, Pubrel, Receive);
    AckLast(c.tables.incoming, Record(id, QoS2, PubCompSend), Pubcomp, Send);
    AppendedTwo(c.log + more, AckReported(id, Pubrel), Sent(id, Pubcomp));
    Appended(c.log, more, [AckReported(id, Pubrel), Sent(id, Pubcomp)]);
    assert c.tables.outgoing + [] == c.tables.outgoing;
  }

  /** n copies of one effect. */
  function Times(n: nat, e: Effect): (effects: seq<Effect>)
    ensures |effects| == n && forall k :: 0 <= k < n ==> effects[k] == e
  {
    seq(n, _ => e)
  }

  /** The client after the same PUBLISH arrived n + 1 times. */
  function AfterPublishes(c: Client, capacity: nat, id: uint16, n: nat): Client {
    if n == 0 then IncomingPublish(c, capacity, id, QoS2, true).1
    else IncomingPublish(AfterPublishes(c, capacity, id, n - 1), capacity, id, QoS2, true).1
  }

  lemma {:induction false} DuplicatesAnswered(c: Client, capacity: nat, id: uint16, n: nat)
    requires id != 0 && !HasId(c.tables.incoming, id) && |c.tables.incoming| < capacity
    ensures AfterPublishes(c, capacity, id, n)
         == With(c, [], [Record(id, QoS2, PubRelPending)], [Delivered(id, QoS2)] + Times(n + 1, Sent(id, Pubrec)))
    decreases n
  {
    hide IncomingPublish, HasId;
    var e := Sent(id, Pubrec);
    if n == 0 {
      ReceivedFirstTime(c, capacity, id);
      assert [Delivered(id, QoS2)] + Times(1, e) == [Delivered(id, QoS2), e];
    } else {
      DuplicatesAnswered(c, capacity, id, n - 1);
      ReceivedAgain(c, capacity, id, [Delivered(id, QoS2)] + Times(n, e));
      assert [Delivered(id, QoS2)] + Times(n, e) + [e] == [Delivered(id, QoS2)] + Times(n + 1, e);
    }
  }

  /** Exactly once: however often the broker repeats the PUBLISH before its PUBREL, the application sees it once,
      each copy is answered with a PUBREC and the PUBREL with a PUBCOMP, and no record is left. */
  lemma {:induction false} ReceivedExactlyOnce(c: Client, capacity: nat, id: uint16, n: nat)
    requires id != 0 && !HasId(c.tables.incoming, id) && |c.tables.incoming| < capacity
    ensures IncomingAck(AfterPublishes(c, capacity, id, n), id, Pubrel, true)
         == (Success,
             Client(c.tables,
                    c.log + ([Delivered(id, QoS2)] + Times(n + 1, Sent(id, Pubrec))
                             + [AckReported(id, Pubrel), Sent(id, Pubcomp)])))
  {
    hide IncomingAck, AfterPublishes, HasId;
    DuplicatesAnswered(c, capacity, id, n);
    Released(c, id, [Delivered(id, QoS2)] + Times(n + 1, Sent(id, Pubrec)));
  }

  // ----- what else may arrive

  /** QoS 0: delivered, and nothing else. */
  lemma {:induction false} ReceivedAtMostOnce(c: Client, capacity: nat, id: uint16, sent: bool)
    ensures IncomingPublish(c, capacity, id, QoS0, sent) == (Success, Client(c.tables, c.log + [Delivered(id, QoS0)]))
  {
  }

  /** QoS 1 with a failed PUBACK: delivered, and the id is held. */
  lemma {:induction false} ReceivedUnanswered(c: Client, capacity: nat, id: uint16)
    requires id != 0 && !HasId(c.tables.incoming, id) && |c.tables.incoming| < capacity
    ensures IncomingPublish(c, capacity, id, QoS1, false)
         == (SendFailed, With(c, [], [Record(id, QoS1, PubAckSend)], [Delivered(id, QoS1)]))
  {
    hide HasId;
    assert c.tables.outgoing + [] == c.tables.outgoing;
  }

  /** A QoS 1 PUBLISH repeated while its PUBACK is owed: answered, not delivered again, and let go once answered. */
  lemma {:induction false} OwedPuback(c: Client, capacity: nat, id: uint16, sent: bool)
    requires LegalTables(c.tables) && HasId(c.tables.incoming, id) && Find(c.tables.incoming, id).state == PubAckSend
    ensures IncomingPublish(c, capacity, id, QoS1, sent)
         == if sent then
              (Success, Client(c.tables.(incoming := Remove(c.tables.incoming, id)), c.log + [Sent(id, Puback)]))
            else
              (SendFailed, c)
  {
    hide AckRecords, HasId, Find;
    HeldId(c.tables, id);
    AckedByTable(c.tables, id, Puback, Send);
  }

  /** A PUBREL repeated while its PUBCOMP is owed: reported and answered again, and let go once answered. */
  lemma {:induction false} OwedPubcomp(c: Client, id: uint16, sent: bool)
    requires LegalTables(c.tables) && HasId(c.tables.incoming, id) && Find(c.tables.incoming, id).state == PubCompSend
    ensures IncomingAck(c, id, Pubrel, sent)
         == if sent then
              (Success, Client(c.tables.(incoming := Remove(c.tables.incoming, id)),
                               c.log + [AckReported(id, Pubrel), Sent(id, Pubcomp)]))
            else
              (SendFailed, Client(c.tables, c.log + [AckReported(id, Pubrel)]))
  {
    hide Acked, HasId, Find, SetState, Remove, LegalTables;
    HeldId(c.tables, id);
    RestatedInPlace(c.tables, id);
    AckedByTable(c.tables, id, Pubrel, Receive);
    AckedByTable(c.tables, id, Pubcomp, Send);
    AppendedTwo(c.log, AckReported(id, Pubrel), Sent(id, Pubcomp));
  }

  /** The application hears of an acknowledgement if and only if its table expects it, and a PUBREC or PUBREL is then
      answered with the next packet of its exchange. */
  lemma {:induction false} AckReportedExactly(c: Client, id: uint16, ack: AckType, sent: bool)
    requires LegalTables(c.tables)
    ensures var log := IncomingAck(c, id, ack, sent).1.log;
      var records := if ack == Pubrel then c.tables.incoming else c.tables.outgoing;
      var expected := id != 0 && HasId(records, id)
        && var state := Find(records, id).state;
           match ack
           case Puback => state == PubAckPending
           case Pubrec => state == PubRecPending
           case Pubrel => state == PubRelPending || state == PubCompSend
           case Pubcomp => state == PubCompPending;
      var reported := c.log + [AckReported(id, ack)];
      log == if !expected then c.log
             else if sent && ack == Pubrec then reported + [Sent(id, Pubrel)]
             else if sent && ack == Pubrel then reported + [Sent(id, Pubcomp)]
             else reported
  {
    hide Acked, HasId, Find, SetState, Remove, LegalTables;
    AckedByTable(c.tables, id, ack, Receive);
    QosByState(c.tables, id);
  }

  lemma {:induction false} QosByState(t: Tables, id: uint16)
    requires LegalTables(t)
    ensures HasId(t.incoming, id) ==> Find(t.incoming, id).qos != QoS0
    ensures HasId(t.incoming, id) && Find(t.incoming, id).qos == QoS1 ==> Find(t.incoming, id).state == PubAckSend
    ensures HasId(t.outgoing, id) && Find(t.outgoing, id).state == PubAckPending ==> Find(t.outgoing, id).qos == QoS1
    ensures HasId(t.outgoing, id) && Find(t.outgoing, id).state in {PubRecPending, PubCompPending} ==>
              Find(t.outgoing, id).qos == QoS2
  {
    if HasId(t.incoming, id) {
      assert IncomingRecord(t.incoming[Find(t.incoming, id).index]);
    }
    if HasId(t.outgoing, id) {
      assert OutgoingRecord(t.outgoing[Find(t.outgoing, id).index]);
    }
  }

  lemma {:induction false} HeldId(t: Tables, id: uint16)
    requires LegalTables(t) && HasId(t.incoming, id)
    ensures id != 0 && Find(t.incoming, id).Found? && Find(t.incoming, id).qos != QoS0
    ensures Find(t.incoming, id).state == PubAckSend <==> Find(t.incoming, id).qos == QoS1
  {
    assert IncomingRecord(t.incoming[Find(t.incoming, id).index]);
  }

  lemma {:induction false} RestatedInPlace(t: Tables, id: uint16)
    requires LegalTables(t) && HasId(t.incoming, id)
    ensures SetState(t.incoming, id, Find(t.incoming, id).state) == t.incoming
  {
    SetStateShape(t.incoming, id, Find(t.incoming, id).state);
  }

  /** The application sees a publish if and only if it is QoS 0, or carries an id not held and finds room. */
  lemma {:induction false} DeliveredExactly(c: Client, capacity: nat, id: uint16, qos: QoS, sent: bool)
    ensures var log := IncomingPublish(c, capacity, id, qos, sent).1.log;
      var seen := qos == QoS0 || (id != 0 && !HasId(c.tables.incoming, id) && |c.tables.incoming| < capacity);
      var before := c.log + if seen then [Delivered(id, qos)] else [];
      log == before || (qos != QoS0 && sent && log == before + [Sent(id, if qos == QoS1 then Puback else Pubrec)])
  {
    assert c.log + [] == c.log;
  }

  // ----- sending

  /** QoS 0: sent once, with no record; a failed send changes nothing. */
  lemma {:induction false} SentAtMostOnce(c: Client, capacity: nat, id: uint16, dup: bool, sent: bool)
    ensures PublishOutcome(c, capacity, id, QoS0, dup, true, sent)
         == if sent then (Success, Client(c.tables, c.log + [Published(id, QoS0)])) else (SendFailed, c)
  {
  }

  /** A publish goes out if and only if the transport takes it and it is QoS 0, or carries an id that is new and finds
      room, or known and repeated as a duplicate. */
  lemma {:induction false} PublishedExactly(c: Client, capacity: nat, id: uint16, qos: QoS, dup: bool, sizeOk: bool,
                                            sent: bool)
    ensures var log := PublishOutcome(c, capacity, id, qos, dup, sizeOk, sent).1.log;
      var admitted := sizeOk
        && (qos == QoS0 || (id != 0 && if HasId(c.tables.outgoing, id) then dup else |c.tables.outgoing| < capacity));
      log == if admitted && sent then c.log + [Published(id, qos)] else c.log
  {
  }

  /** A publish goes out and waits for its acknowledgement. */
  lemma {:induction false} SentFirstTime(c: Client, capacity: nat, id: uint16, qos: QoS)
    requires id != 0 && qos != QoS0 && !HasId(c.tables.outgoing, id) && |c.tables.outgoing| < capacity
    ensures PublishOutcome(c, capacity, id, qos, false, true, true)
         == (Success,
             With(c, [Record(id, qos, if qos == QoS1 then PubAckPending else PubRecPending)], [],
                  [Published(id, qos)]))
  {
    hide HasId;
    var r := Record(id, qos, PublishSend);
    LastFound(c.tables.outgoing, r);
    LastRestated(c.tables.outgoing, r, CalculateStatePublish(Send, qos));
    assert c.tables.incoming + [] == c.tables.incoming;
  }

  /** An acknowledgement for the last outgoing record. */
  lemma {:induction false} Acknowledged(c: Client, r: Record, ack: AckType, more: seq<Effect>)
    requires r.packetId != 0 && !HasId(c.tables.outgoing, r.packetId)
    requires (r.publishState, ack) in {(PubAckPending, Puback), (PubRecPending, Pubrec), (PubCompPending, Pubcomp)}
    requires r.qos == if ack == Puback then QoS1 else QoS2
    ensures IncomingAck(With(c, [r], [], more), r.packetId, ack, true)
         == (Success,
             if ack == Pubrec then
               With(c, [Record(r.packetId, QoS2, PubCompPending)], [],
                    more + [AckReported(r.packetId, Pubrec), Sent(r.packetId, Pubrel)])
             else
               Client(c.tables, c.log + (more + [AckReported(r.packetId, ack)])))
  {
    hide AckRecords, HasId;
    var id := r.packetId;
    LastFound(c.tables.outgoing, r);
    AckLast(c.tables.outgoing, r, ack, Receive);
    Appended(c.log, more, [AckReported(id, ack)]);
    if ack == Pubrec {
      AckLast(c.tables.outgoing, Record(id, QoS2, PubRelSend), Pubrel, Send);
      AppendedTwo(c.log + more, AckReported(id, Pubrec), Sent(id, Pubrel));
      Appended(c.log, more, [AckReported(id, Pubrec), Sent(id, Pubrel)]);
    }
    assert c.tables.incoming + [] == c.tables.incoming;
  }

  /** QoS 1: a publish and its PUBACK leave no record. */
  lemma {:induction false} SentAtLeastOnce(c: Client, capacity: nat, id: uint16)
    requires id != 0 && !HasId(c.tables.outgoing, id) && |c.tables.outgoing| < capacity
    ensures var c1 := PublishOutcome(c, capacity, id, QoS1, false, true, true).1;
      IncomingAck(c1, id, Puback, true)
      == (Success, Client(c.tables, c.log + [Published(id, QoS1), AckReported(id, Puback)]))
  {
    hide PublishOutcome, IncomingAck, HasId;
    SentFirstTime(c, capacity, id, QoS1);
    Acknowledged(c, Record(id, QoS1, PubAckPending), Puback, [Published(id, QoS1)]);
    assert [Published(id, QoS1)] + [AckReported(id, Puback)] == [Published(id, QoS1), AckReported(id, Puback)];
  }

  /** QoS 2: a publish, its PUBREC answered with a PUBREL, and the PUBCOMP leave no record. */
  lemma {:induction false} SentExactlyOnce(c: Client, capacity: nat, id: uint16)
    requires id != 0 && !HasId(c.tables.outgoing, id) && |c.tables.outgoing| < capacity
    ensures var c1 := PublishOutcome(c, capacity, id, QoS2, false, true, true).1;
      var c2 := IncomingAck(c1, id, Pubrec, true).1;
      IncomingAck(c2, id, Pubcomp, true)
      == (Success,
          Client(c.tables,
                 c.log + [Published(id, QoS2), AckReported(id, Pubrec), Sent(id, Pubrel),
                          AckReported(id, Pubcomp)]))
  {
    hide PublishOutcome, IncomingAck, HasId;
    SentFirstTime(c, capacity, id, QoS2);
    var first := [Published(id, QoS2)];
    Acknowledged(c, Record(id, QoS2, PubRecPending), Pubrec, first);
    Acknowledged(c, Record(id, QoS2, PubCompPending), Pubcomp, first + [AckReported(id, Pubrec), Sent(id, Pubrel)]);
    assert first + [AckReported(id, Pubrec), Sent(id, Pubrel)] + [AckReported(id, Pubcomp)]
        == [Published(id, QoS2), AckReported(id, Pubrec), Sent(id, Pubrel), AckReported(id, Pubcomp)];
  }
}
