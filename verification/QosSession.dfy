/** Acknowledgement handling of core_mqtt.c: what a client does on an incoming PUBLISH or
    acknowledgement, and when a session is resumed. */
module QosSession {
  import opened Types
  import opened StateRecords
  import opened StateEngine

  /** What the outside sees of a client. */
  datatype Effect =
    | Delivered(id: uint16, qos: QoS)      // the application callback for a PUBLISH
    | AckReported(id: uint16, ack: AckType) // the application callback for an acknowledgement
    | Sent(id: uint16, ack: AckType)       // all four bytes of an acknowledgement went out
    | Published(id: uint16, qos: QoS)      // a PUBLISH of ours went out whole
    | SessionCleared                       // the broker kept no session: records wiped

  datatype Client = Client(tables: Tables, log: seq<Effect>)

  datatype AckToSend = Nothing | Packet(ack: AckType)

  function GetAckTypeToSend(state: State): AckToSend {
    match state
    case PubAckSend => Packet(Puback)
    case PubRecSend => Packet(Pubrec)
    case PubRelSend => Packet(Pubrel)
    case PubCompSend => Packet(Pubcomp)
    case _ => Nothing
  }

  /** Sends the acknowledgement a state asks for; `sent` says whether the transport took all of it. */
  function SendAck(c: Client, id: uint16, state: State, sent: bool): (Status, Client) {
    match GetAckTypeToSend(state)
    case Nothing => (Success, c)
    case Packet(ack) =>
      if id != 0 && sent then
        var (status, tables) := Acked(c.tables, id, ack, Send);
        (status, Client(tables, c.log + [Sent(id, ack)]))
      else
        (SendFailed, c)
  }

  function IncomingPublish(c: Client, capacity: nat, id: uint16, qos: QoS, sent: bool): (Status, Client) {
    var (status, tables) := PublishReceived(c.tables, capacity, id, qos);
    match status
    case Success =>
      SendAck(Client(tables, c.log + [Delivered(id, qos)]), id, CalculateStatePublish(Receive, qos), sent)
    case StateCollision =>
      SendAck(c, id, CalculateStatePublish(Receive, qos), sent)
    case _ => (status, c)
  }

  function IncomingAck(c: Client, id: uint16, ack: AckType, sent: bool): (Status, Client) {
    var (status, tables) := Acked(c.tables, id, ack, Receive);
    if status == Success then
      SendAck(Client(tables, c.log + [AckReported(id, ack)]), id, AckOutcome(c.tables, id, ack, Receive), sent)
    else
      (status, c)
  }

  /** An application publish: reserve, send, update; a duplicate may reuse its reservation. `sizeOk` is
      the verdict of the packet size computation. */
  function PublishOutcome(c: Client, capacity: nat, id: uint16, qos: QoS, dup: bool, sizeOk: bool,
                          sent: bool): (Status, Client)
  {
    if (qos != QoS0 && id == 0) || !sizeOk then (BadParameter, c)
    else
      var (reserved, tables) := Reserve(c.tables, capacity, id, qos);
      if reserved != Success && !(reserved == StateCollision && dup) then (reserved, c)
      else if !sent then (SendFailed, c.(tables := tables))
      else
        var (status, after) := PublishSent(tables, id, qos);
        (status, Client(after, c.log + [Published(id, qos)]))
  }

  /** Sends one PUBREL after the other until one fails; `sent(k)` is the fate of the k-th. */
  function ResendPubrels(c: Client, pending: seq<Record>, sent: nat -> bool, k: nat): (Status, Client)
    decreases pending
  {
    if pending == [] then (Success, c)
    else
      var (status, next) := SendAck(c, pending[0].packetId, PubRelSend, sent(k));
      if status == Success then ResendPubrels(next, pending[1..], sent, k + 1) else (status, next)
  }

  function Resume(c: Client, sessionPresent: bool, sent: nat -> bool): (Status, Client) {
    if sessionPresent then ResendPubrels(c, Select(c.tables.outgoing, PUBREL_STATES), sent, 0)
    else (Success, Client(Tables([], []), c.log + [SessionCleared]))
  }

  lemma {:induction false} SendAckKeepsLegal(c: Client, id: uint16, state: State, sent: bool)
    requires LegalTables(c.tables)
    ensures LegalTables(SendAck(c, id, state, sent).1.tables)
  {
    match GetAckTypeToSend(state)
    case Nothing =>
    case Packet(ack) => AckKeepsLegal(c.tables, id, ack, Send);
  }

  lemma {:induction false} NoSendFailure(t: Tables, id: uint16, ack: AckType, op: Operation)
    ensures Acked(t, id, ack, op).0 != SendFailed
  {
  }

  // ----- the implementation

  class MqttClient {
    const context: Context
    var log: seq<Effect>

    ghost predicate Valid()
      reads this, context, context.outgoing, context.incoming
    {
      context.Valid()
    }

    ghost function View(): Client
      reads this, context.outgoing, context.incoming
    {
      Client(context.View(), log)
    }

    constructor (context: Context)
      requires context.Valid()
      ensures Valid() && this.context == context && log == []
    {
      this.context := context;
      log := [];
    }

    method SendPublishAcks(packetId: uint16, state: State, sent: bool) returns (status: Status)
      requires Valid()
      modifies this`log, context.outgoing, context.incoming
      ensures Valid()
      ensures (status, View()) == SendAck(old(View()), packetId, state, sent)
      ensures state == PubRelSend && status == Success ==>
                var slots := old(context.outgoing[..]);
                && Find(slots, packetId).Found?
                && var i := Find(slots, packetId).index;
                   context.outgoing[..] == slots[i := slots[i].(publishState := PubCompPending)]
      ensures state == PubRelSend && status == SendFailed ==> context.outgoing[..] == old(context.outgoing[..])
    {
      hide Acked, Find, Live, LegalTables, CleanSlots;
      status := Success;
      var packet := GetAckTypeToSend(state);
      if packet.Packet? {
        if packetId != 0 && sent {
          log := log + [Sent(packetId, packet.ack)];
          var newState;
          NoSendFailure(context.View(), packetId, packet.ack, Send);
          status, newState := context.UpdateStateAck(packetId, packet.ack, Send);
        } else {
          status := SendFailed;
        }
      }
    }

    method HandleIncomingPublish(packetId: uint16, qos: QoS, sent: bool) returns (status: Status)
      requires Valid()
      modifies this`log, context.outgoing, context.incoming
      ensures Valid()
      ensures (status, View()) == IncomingPublish(old(View()), context.incoming.Length, packetId, qos, sent)
    {
      var duplicatePublish := false;
      var recordState;
      status, recordState := context.UpdateStatePublish(packetId, Receive, qos);
      if status == StateCollision {
        status := Success;
        duplicatePublish := true;
        recordState := CalculateStatePublish(Receive, qos);
      }
      if status == Success {
        if !duplicatePublish {
          log := log + [Delivered(packetId, qos)];
        }
        status := SendPublishAcks(packetId, recordState, sent);
      }
    }

    method HandlePublishAcks(packetId: uint16, ack: AckType, sent: bool) returns (status: Status)
      requires Valid()
      modifies this`log, context.outgoing, context.incoming
      ensures Valid()
      ensures (status, View()) == IncomingAck(old(View()), packetId, ack, sent)
    {
      var recordState;
      status, recordState := context.UpdateStateAck(packetId, ack, Receive);
      if status == Success {
        log := log + [AckReported(packetId, ack)];
        status := SendPublishAcks(packetId, recordState, sent);
      }
    }

    method Publish(packetId: uint16, qos: QoS, dup: bool, sizeOk: bool, sent: bool) returns (status: Status)
      requires Valid()
      modifies this`log, context.outgoing, context.incoming
      ensures Valid()
      ensures (status, View()) ==
              PublishOutcome(old(View()), context.outgoing.Length, packetId, qos, dup, sizeOk, sent)
      // sending again keeps every record, but may close the holes between them
      ensures qos != QoS0 && dup && sizeOk && HasId(old(View()).tables.outgoing, packetId) ==>
                SamePending(context.outgoing[..], MadeRoom(old(context.outgoing[..])))
      // a fresh one fills the slot behind the last used one, whether or not it goes out
      ensures qos != QoS0 && packetId != 0 && sizeOk && !HasId(old(View()).tables.outgoing, packetId)
              && |old(View()).tables.outgoing| < context.outgoing.Length ==>
                && UsedEnd(MadeRoom(old(context.outgoing[..]))) < context.outgoing.Length
                && var state := if sent then CalculateStatePublish(Send, qos) else PublishSend;
                   context.outgoing[..] == Placed(old(context.outgoing[..]), Record(packetId, qos, state))
    {
      hide UsedEnd, MadeRoom, Live, Placed, SetState, CleanSlots;
      status := if (qos != QoS0 && packetId == 0) || !sizeOk then BadParameter else Success;
      if status == Success && qos != QoS0 {
        status := context.ReserveState(packetId, qos);
        if status == StateCollision && dup {
          status := Success;
        } else if status == Success {
          FreshIsFound(old(context.outgoing[..]), Record(packetId, qos, PublishSend));
        }
      }
      if status == Success {
        if sent {
          log := log + [Published(packetId, qos)];
        } else {
          status := SendFailed;
        }
      }
      if status == Success && qos != QoS0 {
        var publishState;
        status, publishState := context.UpdateStatePublish(packetId, Send, qos);
      }
    }

    method HandleSessionResumption(sessionPresent: bool, sent: nat -> bool) returns (status: Status)
      requires Valid()
      modifies this`log, context.outgoing, context.incoming
      ensures Valid()
      ensures (status, View()) == Resume(old(View()), sessionPresent, sent)
      // without a PUBREL to send no record moves
      ensures sessionPresent && Select(old(View()).tables.outgoing, PUBREL_STATES) == [] ==>
                context.outgoing[..] == old(context.outgoing[..])
    {
      hide SendAck, Find, Select, Live, CleanSlots;
      status := Success;
      ghost var c := View();
      if sessionPresent {
        ghost var states := PUBREL_STATES;
        var k := 0;
        var packetId, cursor, state := context.PubrelToResend(0);
        SelectLive(context.outgoing[..], states);
        assert context.outgoing[0..] == context.outgoing[..];
        ghost var pending := Select(context.outgoing[..], states);
        while packetId != 0 && status == Success
          invariant Valid() && cursor <= context.outgoing.Length
          invariant k == 0 ==> context.outgoing[..] == old(context.outgoing[..])
          invariant k > 0 ==> Select(c.tables.outgoing, states) != []
          invariant packetId == 0 && status == Success ==> pending == [] && View() == Resume(c, true, sent).1
                                                           && Resume(c, true, sent).0 == Success
          invariant packetId != 0 && status == Success ==>
                      && state == PubRelSend && pending != [] && cursor > 0
                      && context.outgoing[cursor - 1] == pending[0] && pending[0].packetId == packetId
                      && Select(context.outgoing[cursor..], states) == pending[1..]
                      && ResendPubrels(View(), pending, sent, k) == Resume(c, true, sent)
          invariant status != Success ==> (status, View()) == Resume(c, true, sent)
          decreases context.outgoing.Length - cursor + (if packetId != 0 then 1 else 0), status == Success
        {
          ghost var slots := context.outgoing[..];
          SlotOfId(slots, cursor - 1);
          status := SendPublishAcks(packetId, state, sent(k));
          assert status == Success ==> context.outgoing[cursor..] == slots[cursor..];
          k := k + 1;
          pending := pending[1..];
          packetId, cursor, state := context.PubrelToResend(cursor);
        }
      } else {
        context.Clear();
        log := log + [SessionCleared];
      }
    }
  }

  /** A record just placed is found in its slot, and restating it places the restated record. */
  lemma {:induction false} FreshIsFound(slots: seq<Record>, r: Record)
    requires r.packetId != 0 && UsedEnd(MadeRoom(slots)) < |slots| && UniqueIds(Live(Placed(slots, r)))
    ensures var at, placed := UsedEnd(MadeRoom(slots)), Placed(slots, r);
      && Find(placed, r.packetId) == Found(at, r.qos, r.publishState)
      && Find(Live(placed), r.packetId).Found? && Find(Live(placed), r.packetId).qos == r.qos
      && Find(Live(placed), r.packetId).state == r.publishState
      && forall state :: placed[at := placed[at].(publishState := state)] == Placed(slots, r.(publishState := state))
  {
    hide UsedEnd, MadeRoom, Live, Find;
    SlotOfId(Placed(slots, r), UsedEnd(MadeRoom(slots)));
    FindInLive(Placed(slots, r), r.packetId);
  }

  /** With unique live ids, looking up the id in a used slot finds that slot. */
  lemma {:induction false} SlotOfId(slots: seq<Record>, at: nat)
    requires at < |slots| && slots[at].packetId != 0 && UniqueIds(Live(slots))
    ensures Find(slots, slots[at].packetId) == Found(at, slots[at].qos, slots[at].publishState)
  {
    var id := slots[at].packetId;
    var i := Find(slots, id).index;
    if i < at {
      assert slots == slots[..at] + slots[at..];
      LiveConcat(slots[..at], slots[at..]);
      LiveHasId(slots[..at], id);
      LiveHasId(slots[at..], id);
      var a, b := Live(slots[..at]), Live(slots[at..]);
      assert slots[..at][i].packetId == id && slots[at..][0].packetId == id;
      TwoCopies(a, b, id);
    }
  }

  lemma {:induction false} TwoCopies(a: seq<Record>, b: seq<Record>, id: uint16)
    requires HasId(a, id) && HasId(b, id)
    ensures !UniqueIds(a + b)
  {
    var j, k := Find(a, id).index, Find(b, id).index;
    assert (a + b)[j] == a[j] && (a + b)[|a| + k] == b[k];
  }
}
