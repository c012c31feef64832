# Verified models of the device's protocol cores

The firmware speaks MQTT 3.1.1 through coreMQTT, reads JSON with coreJSON, keeps an application table of
unacknowledged publishes, derives a key with PBKDF2 and walks a flash partition of TLV entries. This project models
those cores in the form the C code has them (record arrays with holes, a shifting receive buffer, io-vector lists,
moving indices, an explicit bracket stack) and proves them against independent definitions: ordered queues, a
stream of packets, a level-by-level matcher, JSON trees, lists of entries.

`dafny verify dfyconfig.toml` checks everything.

| file | subject | main results |
|---|---|---|
| `StateRecords`, `StateEngine`, `StateTable`, `StateRuns` | publish records (core_mqtt_state.c) | the arrays are bounded queues; the transitions are those of section 4.3; every run keeps the tables legal, in the order of section 4.6, and moves records forward only |
| `QosSession`, `SessionRuns`, `Exchanges` | acknowledgements and session resumption (core_mqtt.c) | at-most-once delivery of QoS 2, exactly once when nothing fails; every PUBREL is sent again |
| `PublishTable` | application table (aws_iot_handler.c) | table and records agree; which ids a resend publishes, and the exact condition for a complete one |
| `TopicMatch` | topic filters (core_mqtt.c) | correct for all names exactly when the filter has no blind tail and no NUL trap |
| `RemainingLength`, `Framing` | variable-length integers and packet framing | the decoder accepts canonical encodings only; chunking does not matter, and every packet is handled once all bytes are in |
| `PublishCodec`, `ConnectCodec`, `ZeroCopySend`, `PacketReader` | packet layouts and vectored sends | exact sizes, what a broker reads from each packet, sends that refine the serializers |
| `JsonScanner`, `JsonText`, `JsonValidator`, `JsonSoundness`, `JsonEscapes`, `JsonBrackets`, `JsonSearch` | coreJSON | the language accepted, exactly; which of it is RFC 8259; bracket discipline; path search |
| `Pbkdf2` | key derivation | equals section 5.2 of RFC 8018 |
| `TlvPartition` | certificate partition | the walk agrees with the list of entries; when the entry returned is the highest |
| `Types` | bytes, 16-bit integers, QoS | |

Four things the proofs show about the code that its own documentation does not say:

- `MQTT_MatchTopic` misses names for filters whose last levels are `+/+`, `+/#` or `+//#`. It also reports false matches
  for filters in which a NUL, not in last place, comes before any wildcard, because its test for equal texts is `strncmp`.
  `TopicMatch.MatchTopicExactIff` says it is right for every name for all other well-formed filters and for none of these;
  MQTT forbids NUL in both texts, and `NoNulNoTrap` says a filter without one has no such trap.
- `handlePublishResend` can miss publishes in two ways. `addRecord` closes the holes of the record array even when it then
  reports a collision (core_mqtt_state.c:538-541), and the resend cursor is an index into that array. And a publish whose
  send fails keeps its record but loses its table entry (aws_iot_handler.c:902), while the resend stops at the first
  record without an entry (aws_iot_handler.c:469-475). `PublishTable.ResendCompleteIff` says that a resend is complete if and
  only if neither happens. `ReachSkippedRecord` and `ReachUnlistedRecord` are runs of calls, one for each way; in the second
  no resend of the session publishes anything, because a record that stops the resend as the oldest one stays where it is
  (`AppTable.Stuck`).
- `JSON_Validate` accepts more than RFC 8259 (section 2 on commas and keys, section 7 on escapes):
  no comma is needed before or behind a nested collection, a nested
  collection in an object needs no key, and a backslash may stand before a control character other than NUL.
  `JsonSoundness.AcceptedExactly` says this is all: it accepts exactly the texts of such loose trees nested at most 32
  deep. `JsonSoundness.AcceptedIsJsonTextIff` tells the JSON texts among them by a scan, and one lemma for each kind of
  looseness gives a family of inputs. In the other direction `JsonEscapes.RfcTextAcceptedIff` says which texts of
  RFC 8259 it accepts: those nested at most 32 deep in which no `\u` escape is zero or a lone surrogate.
- `esp_secure_cert_find_tlv` is documented to return the entry with the highest subtype when asked for the maximal one
  (esp_secure_cert_tlv_read.c:199); the code returns the last entry of the type in flash order.
  `TlvPartition.LatestIsHighestIff` says when that is the same, `TlvPartition.HighestIsMissed` gives a partition where it
  is not.

## Model

| member | source | states |
|---|---|---|
| StateRecords.CompactRecords | libraries/coreMQTT/coreMQTT/source/core_mqtt_state.c:480-518 | compaction is stable: the sequence of live records is unchanged and fills the front of the array; cleared slots stay cleared |
| StateRecords.AddRecord | libraries/coreMQTT/coreMQTT/source/core_mqtt_state.c:522-585 | adding appends to the live sequence and fills the slot behind the last one used, after closing the holes if the last slot was taken; collision iff the id is live, no memory iff all slots are live and there is no collision; both failures leave the live sequence alone |
| StateRecords.MakeRoom | libraries/coreMQTT/coreMQTT/source/core_mqtt_state.c:534-541 | the array is compacted exactly when its last slot is taken |
| StateRecords.UpdateRecord | libraries/coreMQTT/coreMQTT/source/core_mqtt_state.c:589-607 | one slot is cleared or changes state, all others stay |
| StateRecords.FindInRecord | libraries/coreMQTT/coreMQTT/source/core_mqtt_state.c:448-476 | the first slot with the id, with its QoS and state, or nothing iff no slot has it |
| StateRecords.LiveConcat | libraries/coreMQTT/coreMQTT/source/core_mqtt_state.c:480-518 | the live records of two stretches of an array are those of the whole, in order |
| StateRecords.FindInLive | libraries/coreMQTT/coreMQTT/source/core_mqtt_state.c:448-476 | looking an id up in the array with holes and in the queue give the same QoS and state |
| StateRecords.UpdateInLive | libraries/coreMQTT/coreMQTT/source/core_mqtt_state.c:589-607 | clearing or restating the slot found does the same to the queue, holes or not |
| StateEngine.AckKeepsLegal | libraries/coreMQTT/coreMQTT/source/core_mqtt_state.c:312-417 | the acknowledgement transition table keeps ids unique and every state legal for its QoS and direction |
| StateTable.AckedByTable | libraries/coreMQTT/coreMQTT/source/core_mqtt_state.c:1007-1085 | for every record, acknowledgement and direction: accepted iff the table of section 4.3 expects it, and then the record leaves, is restated or goes to the back as the table says; the other queue is untouched |
| StateTable.SentByTable | libraries/coreMQTT/coreMQTT/source/core_mqtt_state.c:236-311 | a publish may go out while its record is reserved or waits for the acknowledgement of its QoS, and waits for that one afterwards |
| StateTable.AddedByTable | libraries/coreMQTT/coreMQTT/source/core_mqtt_state.c:856-881 | a received or reserved publish is added at the back in the state its QoS calls for; collision before no memory |
| StateTable.CancelledExactly | libraries/coreMQTT/coreMQTT/source/core_mqtt_state.c:959-1003 | cancelling succeeds iff the id is outgoing; its record is gone and every other one is as it was |
| StateTable.SelectsWaiting | libraries/coreMQTT/coreMQTT/source/core_mqtt_state.c:1089-1151 | the cursors look for PublishSend, PubAckPending and PubRecPending, and for PubRelSend and PubCompPending |
| StateEngine.SelectLive | libraries/coreMQTT/coreMQTT/source/core_mqtt_state.c:611-655 | selecting records among the slots is selecting among the live records |
| StateEngine.Context.Clear | libraries/coreMQTT/coreMQTT/source/core_mqtt.c:2404-2423 | a new session leaves no record |
| StateEngine.Context.ReserveState | libraries/coreMQTT/coreMQTT/source/core_mqtt_state.c:827-852 | reserving is adding to the bounded outgoing queue in state PublishSend |
| StateEngine.Context.UpdateStatePublishRecord | libraries/coreMQTT/coreMQTT/source/core_mqtt_state.c:769-823 | a legal transition adds an incoming record or restates an outgoing one; an illegal one changes nothing |
| StateEngine.Context.UpdateStatePublish | libraries/coreMQTT/coreMQTT/source/core_mqtt_state.c:885-955 | the whole new state of both queues and the status, for sent and received publishes and every QoS |
| StateEngine.Context.UpdateStateAckRecord | libraries/coreMQTT/coreMQTT/source/core_mqtt_state.c:708-765 | a finished record leaves the queue, a PUBREC moves its record to the back, anything else restates it in place; delete-then-add always succeeds |
| StateEngine.Context.UpdateStateAck | libraries/coreMQTT/coreMQTT/source/core_mqtt_state.c:1007-1085 | the whole new state of both queues and the status, for every acknowledgement and direction |
| StateEngine.Context.RemoveStateRecord | libraries/coreMQTT/coreMQTT/source/core_mqtt_state.c:959-1003 | cancelling removes the outgoing record with the id or reports that there is none |
| StateEngine.Context.StateSelect | libraries/coreMQTT/coreMQTT/source/core_mqtt_state.c:611-655 | a cursor step returns the first remaining record in a searched state and leaves exactly the later ones |
| StateEngine.Context.PubrelToResend | libraries/coreMQTT/coreMQTT/source/core_mqtt_state.c:1089-1121 | successive calls enumerate the records in PubRelSend or PubCompPending in order |
| StateEngine.Context.PublishToResend | libraries/coreMQTT/coreMQTT/source/core_mqtt_state.c:1125-1151 | successive calls enumerate the records still awaiting PUBACK or PUBREC in order |
| StateRuns.EveryRunIsLegal | libraries/coreMQTT/coreMQTT/source/core_mqtt_state.c:236-417 | in every reachable table ids are unique and non-zero, each state is legal for its QoS and direction, and no more records are live than there are slots |
| StateRuns.FailureChangesNothing | libraries/coreMQTT/coreMQTT/source/core_mqtt_state.c:827-1085 | a call that does not succeed leaves both queues as they were |
| StateRuns.PubrecNeverFailsForSpace | libraries/coreMQTT/coreMQTT/source/core_mqtt_state.c:721-754 | a PUBREC succeeds iff its record is a QoS 2 one waiting for it, and never yields no memory or a collision |
| StateRuns.EveryCallAdvances | libraries/coreMQTT/coreMQTT/source/core_mqtt_state.c:236-417 | each call leaves each record as it is or strictly lowers its rank, and never changes its QoS |
| StateRuns.ChangesBoundedByRank | libraries/coreMQTT/coreMQTT/source/core_mqtt_state.c:236-417 | in either queue, the state changes of a live record over a run plus its remaining rank never exceed its rank at the start |
| StateRuns.AtMostThreeChanges | libraries/coreMQTT/coreMQTT/source/core_mqtt_state.c:236-417 | while it stays live, an outgoing record changes state at most three times and an incoming one at most twice |
| StateRuns.EveryRunIsInOrder | libraries/coreMQTT/coreMQTT/source/core_mqtt_state.c:480-585 | section 4.6 of MQTT 3.1.1: after any run, records before PUBREC stand in reservation order and records after it in PUBREC order |
| StateRuns.ResendFollowsOrder | libraries/coreMQTT/coreMQTT/source/core_mqtt_state.c:1089-1151 | the records a resend cursor enumerates come in the order of section 4.6 |
| QosSession.MqttClient.SendPublishAcks | libraries/coreMQTT/coreMQTT/source/core_mqtt.c:1248-1319 | the acknowledgement a state calls for is sent whole and then recorded, or nothing is recorded |
| QosSession.MqttClient.HandleIncomingPublish | libraries/coreMQTT/coreMQTT/source/core_mqtt.c:1373-1501 | the application sees a publish iff its id is new; duplicates are acknowledged again only |
| QosSession.MqttClient.HandlePublishAcks | libraries/coreMQTT/coreMQTT/source/core_mqtt.c:1505-1573 | an accepted acknowledgement is reported and answered with the next packet of its exchange |
| QosSession.MqttClient.Publish | libraries/coreMQTT/coreMQTT/source/core_mqtt.c:2752-2856 | reserve, send, update; a duplicate reuses its reservation; sending again may close the holes between records; a fresh record fills the slot behind the last used one, sent or not |
| QosSession.MqttClient.HandleSessionResumption | libraries/coreMQTT/coreMQTT/source/core_mqtt.c:2383-2430 | a kept session sends PUBRELs until one fails, a lost one wipes the records |
| QosSession.SlotOfId | libraries/coreMQTT/coreMQTT/source/core_mqtt_state.c:448-476 | with unique live ids, looking an id up finds the slot it was read from |
| SessionRuns.AtMostOnceDelivery | libraries/coreMQTT/coreMQTT/source/core_mqtt.c:1373-1573 | section 4.3.3 of MQTT 3.1.1: in any run, between two deliveries of one QoS 2 id a PUBCOMP for it was sent whole or the session was lost |
| SessionRuns.EveryRunIsSafe | libraries/coreMQTT/coreMQTT/source/core_mqtt.c:1248-1573 | the invariant behind it: an id delivered and not completed is still held by an incoming QoS 2 record |
| SessionRuns.AckKeepsHold | libraries/coreMQTT/coreMQTT/source/core_mqtt_state.c:312-417 | only a PUBCOMP of the client's own lets go of a held id |
| SessionRuns.ResumeSendsPubrels | libraries/coreMQTT/coreMQTT/source/core_mqtt.c:2383-2430 | PUBRELs for the records in PubRelSend or PubCompPending, in live order, until one fails; exactly the records whose PUBREL went out end in PubCompPending |
| SessionRuns.ResumeSendsEveryPubrel | libraries/coreMQTT/coreMQTT/source/core_mqtt.c:2383-2430 | with all sends succeeding, one PUBREL per record in PubRelSend or PubCompPending in live order; those records end in PubCompPending, all others are untouched |
| Exchanges.ReceivedAtLeastOnce | libraries/coreMQTT/coreMQTT/source/core_mqtt.c:1373-1501 | a QoS 1 publish is delivered, answered with a PUBACK and leaves no record |
| Exchanges.ReceivedExactlyOnce | libraries/coreMQTT/coreMQTT/source/core_mqtt.c:1373-1573 | however often a QoS 2 publish is repeated before its PUBREL, it is delivered once, each copy answered with a PUBREC, the PUBREL with a PUBCOMP, and no record is left |
| Exchanges.ReceivedAtMostOnce | libraries/coreMQTT/coreMQTT/source/core_mqtt.c:1373-1501 | a QoS 0 publish is delivered, and nothing else happens |
| Exchanges.DeliveredExactly | libraries/coreMQTT/coreMQTT/source/core_mqtt.c:1373-1501 | a publish reaches the application iff it is QoS 0 or carries an id not held and finds room, and at most its own acknowledgement is sent |
| Exchanges.OwedPuback | libraries/coreMQTT/coreMQTT/source/core_mqtt.c:1373-1501 | a QoS 1 publish repeated while its PUBACK is owed is answered and not delivered; its record goes once the PUBACK is out |
| Exchanges.OwedPubcomp | libraries/coreMQTT/coreMQTT/source/core_mqtt.c:1505-1573 | a PUBREL repeated while its PUBCOMP is owed is reported and answered; its record goes once the PUBCOMP is out |
| Exchanges.AckReportedExactly | libraries/coreMQTT/coreMQTT/source/core_mqtt.c:1505-1573 | the application hears of an acknowledgement iff its record waits for it, and a PUBREC or PUBREL is answered with PUBREL or PUBCOMP |
| Exchanges.SentAtLeastOnce | libraries/coreMQTT/coreMQTT/source/core_mqtt.c:2752-2856 | a QoS 1 publish and its PUBACK leave the records as they were |
| Exchanges.SentExactlyOnce | libraries/coreMQTT/coreMQTT/source/core_mqtt.c:1505-1573 | publish, PUBREC, PUBREL, PUBCOMP: the PUBREL goes out once and the records are as they were |
| Exchanges.SentAtMostOnce | libraries/coreMQTT/coreMQTT/source/core_mqtt.c:2752-2856 | a QoS 0 publish is sent once, without a record; a failed send changes nothing |
| Exchanges.PublishedExactly | libraries/coreMQTT/coreMQTT/source/core_mqtt.c:2752-2856 | a publish goes out iff the transport takes it and it is QoS 0, or carries an id that is new and finds room, or known and repeated as a duplicate |
| PublishTable.ResendCompleteIff | main/aws_iot_handler.c:416-487 | the resend publishes exactly the ids awaiting it, in order, iff (the last slot is free or no record sliding under the cursor awaits one) and every id awaiting it has a table entry |
| PublishTable.CursorCompleteIff | libraries/coreMQTT/coreMQTT/source/core_mqtt_state.c:534-541 | the cursor visits every record awaiting a resend, in order, iff the last slot is free or no record sliding under the cursor awaits one |
| PublishTable.StuckStops | main/aws_iot_handler.c:469-475 | with no entry for the oldest record, a resend publishes nothing although records await it |
| PublishTable.ResendSkipsARecord | main/aws_iot_handler.c:416-487 | ten slots with the records 9 and 10 in the last two: both await a resend, 9 alone is visited |
| PublishTable.ReachSkippedRecord | main/aws_iot_handler.c:416-487 | such an array is reachable: a fresh context of ten slots, driven by reservations, sends and PUBACKs alone, ends with two records awaiting a resend of which the cursor visits one |
| PublishTable.ReachUnlistedRecord | main/aws_iot_handler.c:859-921 | a failed send followed by a successful one: both records await a resend and the cursor visits both, but the first has no entry and the resend publishes neither |
| PublishTable.RecordsFitTable | main/aws_iot_handler.c:859-921 | with every record listed and a free entry left, fewer records are live than the table has entries, so reservation has room |
| PublishTable.PublishEffect | libraries/coreMQTT/coreMQTT/source/core_mqtt.c:2752-2856 | exactly when a fresh QoS 1 publish succeeds, what goes out, and what it leaves behind when it does not |
| PublishTable.DuplicateEffect | libraries/coreMQTT/coreMQTT/source/core_mqtt.c:2752-2856 | sending a listed publish again never fails but for the transport, at most restates its record, and puts exactly that publish on the wire |
| PublishTable.PubackEffect | libraries/coreMQTT/coreMQTT/source/core_mqtt.c:1505-1573 | a PUBACK is accepted iff its record is in PubAckPending, and then reported and the record dropped; else nothing changes |
| PublishTable.OnlyPubackMatters | main/aws_iot_handler.c:646-654 | with QoS 1 publishes only, no other acknowledgement touches the outgoing records |
| PublishTable.IdsCycle | libraries/coreMQTT/coreMQTT/source/core_mqtt.c:3109-3134 | packet ids are never zero, and one comes again after exactly 65535 publishes |
| PublishTable.AppTable.GetNextFreeIndex | main/aws_iot_handler.c:342-364 | a free entry iff there is one |
| PublishTable.AppTable.CleanupWithPacketId | main/aws_iot_handler.c:393-412 | the first entry with the id is cleared and nothing else; a table without the id is left alone |
| PublishTable.AppTable.CleanupAll | main/aws_iot_handler.c:382-389 | every entry is cleared |
| PublishTable.AppTable.PublishToTopic | main/aws_iot_handler.c:859-921 | distinct ids with live QoS 1 records are kept; without a failed send the id sets stay equal and reservation never runs out; with room, the record is placed whether or not the send succeeds, the entry kept only if it does; with no free entry nothing changes; exactly a successful publish goes out; an oldest record without an entry stays so |
| PublishTable.AppTable.PubackArrives | main/aws_iot_handler.c:646-654 | accepted iff its publish is in PubAckPending; then record and entry are dropped together, the PUBACK is reported and nothing else changes; otherwise nothing does; an oldest record of another id without an entry stays so |
| PublishTable.AppTable.PublishAgain | main/aws_iot_handler.c:446-470 | a stored publish is sent as a duplicate, exactly once if the transport takes it; table and records keep agreeing |
| PublishTable.AppTable.ResendOne | main/aws_iot_handler.c:442-470 | the entry of a packet id is found iff it is listed, and its publish goes out once if the transport takes it |
| PublishTable.AppTable.HandlePublishResend | main/aws_iot_handler.c:416-487 | the ids published again are those the cursor visits up to the first without an entry, and exactly these publishes go out, in order, but for failed sends; success means that was all of them and every send succeeded; in step none is without; with no entry for the oldest record nothing is published, nor in any later resend |
| PublishTable.AllSentAgain | main/aws_iot_handler.c:416-487 | when every send succeeds, one publish goes out for each id, in order |
| PublishTable.AppTable.Connected | main/aws_iot_handler.c:1198-1218 | whether the broker kept the session or not, table and records agree afterwards; a kept one is resumed by the resend above and leaves an oldest record without an entry where it is, a lost one empties both and sends nothing |
| TopicMatch.MatchEndWildcardsSpecialCases | libraries/coreMQTT/coreMQTT/source/core_mqtt.c:535-572 | true exactly at the endings that may match nothing |
| TopicMatch.MatchWildcards | libraries/coreMQTT/coreMQTT/source/core_mqtt.c:576-676 | both indices stay in range and the rest of the scan is unchanged or decided |
| TopicMatch.MatchTopicFilter | libraries/coreMQTT/coreMQTT/source/core_mqtt.c:680-742 | the two-index loop ends and equals the recursive scan |
| TopicMatch.MatchTopic | libraries/coreMQTT/coreMQTT/source/core_mqtt.c:3138-3203 | empty arguments are refused; otherwise equal texts, the `$` rule and the scan decide |
| TopicMatch.MatchTopicAgrees | libraries/coreMQTT/coreMQTT/source/core_mqtt.c:535-742 | section 4.7 of MQTT 3.1.1: without a NUL trap a reported match is a match level by level, and without a blind tail the reverse holds too |
| TopicMatch.MissedIsMissed | libraries/coreMQTT/coreMQTT/source/core_mqtt.c:535-742 | every filter with a blind tail loses a name it should match |
| TopicMatch.MatchTopicExactIff | libraries/coreMQTT/coreMQTT/source/core_mqtt.c:3138-3203 | a well-formed filter is decided correctly for all wildcard-free names iff its last levels are not `+/+`, `+/#` or `+//#` and it has no NUL, other than in last place, before its first wildcard |
| TopicMatch.StrnEqualIsEqual | libraries/coreMQTT/coreMQTT/source/core_mqtt.c:3173-3176 | for a wildcard-free name and a filter without a NUL trap, strncmp over equal lengths is equality of the whole texts |
| TopicMatch.TrappedIsWrong | libraries/coreMQTT/coreMQTT/source/core_mqtt.c:3173-3176 | every filter with a NUL trap reports a match for a name of equal length that does not match it |
| TopicMatch.NoNulNoTrap | libraries/coreMQTT/coreMQTT/source/core_mqtt.c:3173-3176 | a filter without a NUL has no NUL trap |
| RemainingLength.EncodeRemainingLength | libraries/coreMQTT/coreMQTT/source/core_mqtt_serializer.c:492-521 | the encoding of section 2.2.3 is written in place, nothing else changes |
| RemainingLength.ProcessRemainingLength | libraries/coreMQTT/coreMQTT/source/core_mqtt_serializer.c:855-922 | the buffered decoder computes the decoding of the bytes after the type |
| RemainingLength.GetRemainingLength | libraries/coreMQTT/coreMQTT/source/core_mqtt_serializer.c:803-851 | the byte-at-a-time decoder agrees with the buffered one and takes only the length's bytes |
| RemainingLength.DecodeEncoded | libraries/coreMQTT/coreMQTT/source/core_mqtt_serializer.c:855-922 | decoding inverts encoding, whatever follows |
| RemainingLength.DecodedIsCanonical | libraries/coreMQTT/coreMQTT/source/core_mqtt_serializer.c:905-918 | what is decoded re-encodes to the bytes read |
| RemainingLength.DecodedValue | libraries/coreMQTT/coreMQTT/source/core_mqtt_serializer.c:855-922 | the value decoded is the sum of the bytes' low seven bits, least significant group first, of bytes of which all but the last have the high bit set |
| RemainingLength.DecodeExactly | libraries/coreMQTT/coreMQTT/source/core_mqtt_serializer.c:855-922 | success exactly on canonical encodings up to 268435455, more bytes wanted exactly on short all-continuation prefixes, all else refused |
| RemainingLength.DecodeIsStable | libraries/coreMQTT/coreMQTT/source/core_mqtt_serializer.c:855-922 | bytes that arrive later never change a verdict |
| Framing.Receiver.RecvExact | libraries/coreMQTT/coreMQTT/source/core_mqtt.c:948-1021 | the bytes taken are the front of the network, in order, at the front of the buffer; the rest of both is untouched; a non-negative result counts them, and the full count means all asked for were taken; with a transport that keeps offering, all asked for are taken if they are there |
| Framing.Receiver.DiscardStoredPacket | libraries/coreMQTT/coreMQTT/source/core_mqtt.c:1091-1157 | on success exactly the rest of the packet is drawn from the stream and the buffer is empty; it succeeds if the rest is there and keeps being offered |
| Framing.Receiver.ProcessIncomingPacketTypeAndLength | libraries/coreMQTT/coreMQTT/source/core_mqtt_serializer.c:2630-2684 | classifies the front of the buffer as packet, oversized packet, prefix or garbage |
| Framing.Receiver.ReceiveSingleIteration | libraries/coreMQTT/coreMQTT/source/core_mqtt.c:1655-1785 | it takes all that is offered and fits; one step of the packet stream: at most one whole packet is handed over and the rest shifted down, and the status is what the front of the buffer calls for; keep-alive failure iff nothing came and it was overdue; receive failure iff the transport failed, or failed to deliver the rest of an oversized packet |
| Framing.Receiver.ProcessLoop | main/aws_iot_handler.c:1028-1058 | calling the process loop while it succeeds or wants more bytes is a run of steps that takes what is offered; on a valid stream only the transport or the keep-alive can end it early, and if neither does and bytes are offered each time, as many rounds as there are bytes and packets hand over exactly the packets that fit, in order |
| Framing.LastIsSound | libraries/coreMQTT/coreMQTT/source/core_mqtt.c:1655-1785 | no iteration of a run over a valid stream reports a malformed packet |
| Framing.InspectStream | libraries/coreMQTT/coreMQTT/source/core_mqtt_serializer.c:2630-2684 | what the front of a buffered valid stream calls for is its first packet |
| Framing.StepKeepsInStep | libraries/coreMQTT/coreMQTT/source/core_mqtt.c:1655-1785 | however many bytes arrive, the receiver stays in step with the stream and below the buffer size |
| Framing.ChunkingDoesNotMatter | libraries/coreMQTT/coreMQTT/source/core_mqtt.c:1655-1785 | for any splitting of a valid stream and a buffer of at least 5 bytes, the packets handled are exactly those that fit, in order |
| Framing.RunCompletes | libraries/coreMQTT/coreMQTT/source/core_mqtt.c:1655-1785 | once the network is empty, as many further iterations as there are packets leave exactly the fitting packets handled, in order, and nothing buffered |
| Framing.GreedyCompletes | libraries/coreMQTT/coreMQTT/source/core_mqtt.c:1655-1785 | a run that takes at least a byte of what is left each time has handled every fitting packet after as many steps as there are bytes and packets |
| Framing.ServerIsHeard | libraries/coreMQTT/coreMQTT/source/core_mqtt_serializer.c:926-962 | every stream of the nine packets a server sends (tables 2.1 and 2.2 of MQTT 3.1.1) is handled whole, in order, however it is cut |
| Framing.ServerStreamIsValid | libraries/coreMQTT/coreMQTT/source/core_mqtt_serializer.c:926-962 | every packet a server sends passes the type filter, so that its streams are valid ones |
| Framing.RefusedExactly | libraries/coreMQTT/coreMQTT/source/core_mqtt_serializer.c:926-962 | client-only and reserved types and a PUBREL without its flag are malformed; any other type is malformed iff its length is |
| Framing.MalformedFrontBlocks | libraries/coreMQTT/coreMQTT/source/core_mqtt.c:1655-1785 | behind a malformed front nothing is ever handled again |
| PublishCodec.PublishSizeExact | libraries/coreMQTT/coreMQTT/source/core_mqtt_serializer.c:561-636 | a publish is accepted iff its whole packet is at most 268435455 bytes, and the sizes computed are those of the packet |
| PublishCodec.EncodeString | libraries/coreMQTT/coreMQTT/source/core_mqtt_serializer.c:525-557 | a length-prefixed string is written in place, nothing else changes |
| PublishCodec.SerializePublishHeaderWithoutTopic | libraries/coreMQTT/coreMQTT/source/core_mqtt_serializer.c:640-704 | the header before a caller-held topic: flags, remaining length, topic length |
| PublishCodec.SerializePublishCommon | libraries/coreMQTT/coreMQTT/source/core_mqtt_serializer.c:708-801 | the buffer starts with exactly the packet of section 3.3 and is otherwise unchanged |
| PublishCodec.SerializePublish | libraries/coreMQTT/coreMQTT/source/core_mqtt_serializer.c:2102-2183 | which arguments are refused, and on success the exact packet and nothing beyond it |
| PublishCodec.PublishRoundTrip | libraries/coreMQTT/coreMQTT/source/core_mqtt_serializer.c:1408-1498 | framing and deserializing a serialized publish gives topic, payload, QoS, retain, dup and id back |
| PublishCodec.DeserializedReserializes | libraries/coreMQTT/coreMQTT/source/core_mqtt_serializer.c:1408-1498 | whatever is accepted is the body of the publish it was read as |
| ConnectCodec.ConnectSizeExact | libraries/coreMQTT/coreMQTT/source/core_mqtt_serializer.c:1694-1790 | a CONNECT's computed sizes are those of its packet and never exceed 327699 |
| ConnectCodec.CalculateSubscribePacketSize | libraries/coreMQTT/coreMQTT/source/core_mqtt_serializer.c:1172-1246 | the loop computes the size of the SUBSCRIBE packet, or refuses it iff it is too large |
| ConnectCodec.SerializeConnectFixedHeader | libraries/coreMQTT/coreMQTT/source/core_mqtt_serializer.c:1557-1632 | type, length, protocol name, level, flags and keep-alive, byte for byte |
| ConnectCodec.SerializeConnectPacket | libraries/coreMQTT/coreMQTT/source/core_mqtt_serializer.c:1636-1690 | the whole packet of section 3.1 is written and nothing else |
| ConnectCodec.SendConnectWithoutCopy | libraries/coreMQTT/coreMQTT/source/core_mqtt.c:2129-2254 | at most eleven buffers; delivered iff exactly the serialized CONNECT went out, always so with a willing transport, and never anything but a prefix of it |
| ZeroCopySend.SerializeSubscribe | libraries/coreMQTT/coreMQTT/source/core_mqtt_serializer.c:1936-1978 | the SUBSCRIBE packet of section 3.8 is written and nothing else |
| ZeroCopySend.TrimFirst | libraries/coreMQTT/coreMQTT/source/core_mqtt.c:808-836 | trimming the first buffer by what was sent trims the concatenation by the same bytes |
| ZeroCopySend.Sender.SendMessageVector | libraries/coreMQTT/coreMQTT/source/core_mqtt.c:746-843 | under any partial writes the bytes on the wire are a prefix of the buffers' concatenation; the count says all iff all of it is there, as it is with a willing transport |
| ZeroCopySend.Sender.Advance | libraries/coreMQTT/coreMQTT/source/core_mqtt.c:808-836 | consuming n bytes leaves the concatenation without its first n bytes |
| ZeroCopySend.Sender.AddEncodedStringToVector | libraries/coreMQTT/coreMQTT/source/core_mqtt.c:1840-1878 | the list grows by the length-prefixed string, by one buffer if it is empty and two otherwise |
| ZeroCopySend.Sender.SendSubscribeWithoutCopy | libraries/coreMQTT/coreMQTT/source/core_mqtt.c:1882-1978 | the batches never overrun the list; delivered iff together they put exactly the serialized SUBSCRIBE on the wire, always so with a willing transport; else a prefix of it |
| ZeroCopySend.Sender.SendPublishWithoutCopy | libraries/coreMQTT/coreMQTT/source/core_mqtt.c:2069-2125 | delivered iff exactly the serialized PUBLISH went out, always so with a willing transport, and never anything but a prefix of it |
| PacketReader.ConnectIsRead | libraries/coreMQTT/coreMQTT/source/core_mqtt_serializer.c:1557-1690 | section 3.1 of MQTT 3.1.1: a reader of the layout gets clean session, keep-alive, identifier, will, user name and password back from every serialized CONNECT |
| PacketReader.SubscribeIsRead | libraries/coreMQTT/coreMQTT/source/core_mqtt_serializer.c:1936-1978 | section 3.8: a reader gets the packet id and the subscriptions back, in order |
| PacketReader.PublishIsRead | libraries/coreMQTT/coreMQTT/source/core_mqtt_serializer.c:640-801 | section 3.3: a reader gets flags, topic, packet id and payload back |
| PacketReader.DeserializeIsReading | libraries/coreMQTT/coreMQTT/source/core_mqtt_serializer.c:1408-1498 | an incoming publish is taken for what the layout says, and refused iff it breaks the layout, has packet id zero above QoS 0, or has neither topic nor payload |
| JsonScanner.SkipSpace | libraries/coreJSON/coreJSON/source/core_json.c:72-90 | stops at the first character that is not white space |
| JsonScanner.CountHighBits | libraries/coreJSON/coreJSON/source/core_json.c:99-111 | the shifting loop counts the bytes of a legal lead byte's sequence |
| JsonScanner.SkipUtf8MultiByte | libraries/coreJSON/coreJSON/source/core_json.c:188-240 | skips exactly one sequence of a legal lead byte and trailing bytes in shortest form |
| JsonText.Utf8Accepted | libraries/coreJSON/coreJSON/source/core_json.c:130-240 | the UTF-8 encoding of every scalar value (RFC 3629) is skipped whole |
| JsonText.Utf8Sound | libraries/coreJSON/coreJSON/source/core_json.c:130-240 | whatever is skipped as a code point is the UTF-8 encoding of a scalar value |
| JsonScanner.SkipOneHexEscape | libraries/coreJSON/coreJSON/source/core_json.c:326-368 | four hex digits with their value, never zero, with a byte to follow |
| JsonText.HexDigitsExact | libraries/coreJSON/coreJSON/source/core_json.c:284-308 | digits of either case have their value, and nothing else is a hex digit |
| JsonScanner.SkipHexEscape | libraries/coreJSON/coreJSON/source/core_json.c:390-428 | surrogates only in pairs |
| JsonScanner.SkipEscape | libraries/coreJSON/coreJSON/source/core_json.c:442-497 | which escapes pass |
| JsonScanner.SkipString | libraries/coreJSON/coreJSON/source/core_json.c:509-562 | the loop finds the closing quote behind well-formed characters, or fails without moving |
| JsonScanner.SkipDigits | libraries/coreJSON/coreJSON/source/core_json.c:672-719 | the run of digits, and its value clipped to -1 above 2147483639 without overflow on the way |
| JsonScanner.SkipNumber | libraries/coreJSON/coreJSON/source/core_json.c:792-837 | where a number ends, fraction and exponent included if complete |
| JsonScanner.SkipAnyScalar | libraries/coreJSON/coreJSON/source/core_json.c:848-862 | where a string, literal or number ends |
| JsonScanner.SkipSpaceAndComma | libraries/coreJSON/coreJSON/source/core_json.c:878-902 | a comma counts only when no closing bracket follows; white space is passed either way |
| JsonScanner.SkipArrayScalars | libraries/coreJSON/coreJSON/source/core_json.c:914-937 | the loop equals the recursive run of comma-separated scalars |
| JsonScanner.SkipObjectScalars | libraries/coreJSON/coreJSON/source/core_json.c:955-1000 | the loop equals the recursive run of scalar members and stops at the bracket of a nested value |
| JsonText.CharacterAccepted | libraries/coreJSON/coreJSON/source/core_json.c:442-562 | every character form of section 7 of RFC 8259 is passed exactly |
| JsonText.NumberAccepted | libraries/coreJSON/coreJSON/source/core_json.c:728-837 | every number of section 6 of RFC 8259 is passed exactly when nothing can prolong it |
| JsonText.ScalarAccepted | libraries/coreJSON/coreJSON/source/core_json.c:848-862 | every scalar text in front of a delimiter is passed exactly |
| JsonValidator.SkipCollection | libraries/coreJSON/coreJSON/source/core_json.c:1049-1119 | the loop over an array stack of 32 equals the recursive stack machine, indices in range |
| JsonValidator.NodeConsumed | libraries/coreJSON/coreJSON/source/core_json.c:1049-1119 | simulation: the stack machine consumes the text of a nested collection, loose or not, and leaves its stack as it was |
| JsonValidator.NodeTooDeep | libraries/coreJSON/coreJSON/source/core_json.c:1070-1076 | with more nesting than the stack has room for, it stops with the depth error |
| JsonValidator.Validate | libraries/coreJSON/coreJSON/source/core_json.c:1129-1172 | one scalar or collection in white space, nothing behind it |
| JsonValidator.EveryTextIsAccepted | libraries/coreJSON/coreJSON/source/core_json.c:1129-1172 | the text of any JSON tree whose escapes name characters, with any white space, is accepted iff it nests at most 32 deep, and gets the depth error otherwise |
| JsonValidator.TrailingIsIllegal | libraries/coreJSON/coreJSON/source/core_json.c:1129-1172 | anything but white space behind a collection makes the document illegal; an empty buffer is a bad parameter |
| JsonValidator.EveryLooseTextIsAccepted | libraries/coreJSON/coreJSON/source/core_json.c:1129-1172 | the same for trees of the loose grammar the code takes |
| JsonSoundness.ScalarPassed | libraries/coreJSON/coreJSON/source/core_json.c:848-862 | whatever is passed as a scalar is the text of a string, number or literal of the loose grammar |
| JsonSoundness.NodeParsed | libraries/coreJSON/coreJSON/source/core_json.c:1049-1119 | a run of the stack machine that succeeds reads the text of a loose nested collection first, no deeper than the stack has room for |
| JsonSoundness.AcceptedExactly | libraries/coreJSON/coreJSON/source/core_json.c:1129-1172 | success exactly on the texts of loose trees nested at most 32 deep, in any white space |
| JsonSoundness.AcceptedIsJsonTextIff | libraries/coreJSON/coreJSON/source/core_json.c:1129-1172 | an accepted buffer is a JSON text whose escapes name characters iff a scan finds every nested bracket where one may stand and no control character in a string |
| JsonSoundness.TidyDocument | libraries/coreJSON/coreJSON/source/core_json.c:1129-1172 | on the text of any loose tree the scan decides whether the tree is one of RFC 8259 |
| JsonSoundness.MissingCommaBehindBracket | libraries/coreJSON/coreJSON/source/core_json.c:1086-1096 | any two collections side by side in an array, without a comma, are accepted and are no JSON text |
| JsonSoundness.MissingCommaBehindScalar | libraries/coreJSON/coreJSON/source/core_json.c:914-937 | so are a scalar and a collection |
| JsonSoundness.KeylessMember | libraries/coreJSON/coreJSON/source/core_json.c:955-1000 | an object holding a collection without a key is accepted and is no JSON text |
| JsonSoundness.EscapedControl | libraries/coreJSON/coreJSON/source/core_json.c:479-486 | a string of a backslash and any control character but NUL is accepted and is no JSON text |
| JsonEscapes.RfcTextAcceptedIff | libraries/coreJSON/coreJSON/source/core_json.c:1129-1172 | a text of the full grammar of RFC 8259 is accepted iff it nests at most 32 deep and a scan finds no `\u` escape that is zero or a lone surrogate; the scan finds none iff the tree has none |
| JsonEscapes.AcceptedIsRfcTextIff | libraries/coreJSON/coreJSON/source/core_json.c:1129-1172 | an accepted buffer is a text of RFC 8259 in full iff nothing in it is loose |
| JsonEscapes.HighPaired | libraries/coreJSON/coreJSON/source/core_json.c:390-428 | an escaped high surrogate is passed exactly in front of an escaped low one |
| JsonEscapes.MergedIsValid | libraries/coreJSON/coreJSON/source/core_json.c:390-428 | a tree of the full grammar whose surrogates pair up has the text and depth of one the code takes |
| JsonBrackets.SkippedCollectionIsBalanced | libraries/coreJSON/coreJSON/source/core_json.c:1049-1119 | on success the brackets of the consumed slice outside strings are balanced, first close at the returned index, and never nest beyond 32 |
| JsonBrackets.CollectedIsBalanced | libraries/coreJSON/coreJSON/source/core_json.c:1049-1119 | the same from any point on with any brackets already open |
| JsonSearch.NextValue | libraries/coreJSON/coreJSON/source/core_json.c:1192-1224 | the slice of the next value, scalar or collection |
| JsonSearch.NextKeyValuePair | libraries/coreJSON/coreJSON/source/core_json.c:1243-1296 | the slices of the next key, without quotes, and its value |
| JsonSearch.ObjectSearch | libraries/coreJSON/coreJSON/source/core_json.c:1316-1366 | the loop finds the first member with the key |
| JsonSearch.ArraySearch | libraries/coreJSON/coreJSON/source/core_json.c:1384-1433 | the loop finds the value at the index |
| JsonSearch.SkipQueryPart | libraries/coreJSON/coreJSON/source/core_json.c:1453-1479 | a query part ends at the first dot or bracket |
| JsonSearch.SearchPart | libraries/coreJSON/coreJSON/source/core_json.c:1517-1562 | one part of a query: refused when malformed, searched in the current value otherwise |
| JsonSearch.MultiSearch | libraries/coreJSON/coreJSON/source/core_json.c:1500-1574 | the loop narrows the slice part by part |
| JsonSearch.SearchConst | libraries/coreJSON/coreJSON/source/core_json.c:1627-1672 | the answer, the slice with quotes stripped from strings, and the type |
| JsonSearch.MembersFound | libraries/coreJSON/coreJSON/source/core_json.c:1316-1366 | on the text of an object the search returns the slice of the first member of the tree with that key, or nothing |
| JsonSearch.ElementsFound | libraries/coreJSON/coreJSON/source/core_json.c:1384-1433 | on the text of an array the search returns the slice of the element of the tree, or nothing |
| JsonSearch.StepFound | libraries/coreJSON/coreJSON/source/core_json.c:1517-1562 | a step of a rendered path is read back and lands where the tree step lands |
| JsonSearch.PathFollowed | libraries/coreJSON/coreJSON/source/core_json.c:1500-1574 | following a rendered path through nested slices equals following it down the tree |
| JsonSearch.FollowMerged | libraries/coreJSON/coreJSON/source/core_json.c:1500-1574 | following a path down a tree of the full grammar and down the tree with its surrogates put together ends at the same place |
| JsonSearch.SearchFindsTheValue | libraries/coreJSON/coreJSON/source/core_json.c:1627-1672 | on a text of the full grammar of RFC 8259 nested at most 32 deep, with no `\u` escape that is zero or a lone surrogate, a path of keys and indexes returns exactly the slice and type of the addressed value, or JSONNotFound when the path is absent |
| JsonSearch.BadQueryRefused | libraries/coreJSON/coreJSON/source/core_json.c:1627-1672 | an empty buffer or query, and a query that starts with an empty key, an unclosed or too large index or a key with a trailing separator, is a bad parameter |
| Pbkdf2.HmacCalculate | managed_components/espressif__esp_secure_cert_mgr/srcs/esp_secure_cert_crypto.c:47-52 | the output holds the HMAC of the message iff the peripheral works |
| Pbkdf2.Increment | managed_components/espressif__esp_secure_cert_mgr/srcs/esp_secure_cert_crypto.c:77-81 | the carry loop adds one to the four-octet block index |
| Pbkdf2.XorInto | managed_components/espressif__esp_secure_cert_mgr/srcs/esp_secure_cert_crypto.c:66-68 | the accumulator becomes its exclusive or with the digest |
| Pbkdf2.Block | managed_components/espressif__esp_secure_cert_mgr/srcs/esp_secure_cert_crypto.c:41-69 | on success the accumulator holds F(P, S, c, i); it succeeds iff every HMAC of the iterations works; an iteration count of zero is taken for one |
| Pbkdf2.Pbkdf2HmacSha256 | managed_components/espressif__esp_secure_cert_mgr/srcs/esp_secure_cert_crypto.c:17-92 | section 5.2 of RFC 8018: it succeeds iff there is memory and every HMAC of every block needed works; then the output is the first key-length octets of the blocks, and nothing else is written in any case |
| Pbkdf2.DerivedOctet | managed_components/espressif__esp_secure_cert_mgr/srcs/esp_secure_cert_crypto.c:71-75 | octet p of the key is octet p mod 32 of block p / 32 + 1, whatever the key length |
| TlvPartition.TotalLengthExact | managed_components/espressif__esp_secure_cert_mgr/srcs/esp_secure_cert_tlv_read.c:130-154 | the 16-bit total length is aligned, is the true size iff the data has at most 65504 bytes, and is zero exactly for the next sixteen lengths |
| TlvPartition.WalkStandsStill | managed_components/espressif__esp_secure_cert_mgr/srcs/esp_secure_cert_tlv_read.c:150-154 | a step of the walk stays where it is exactly when the data has 65505 to 65520 bytes |
| TlvPartition.HeaderAt | managed_components/espressif__esp_secure_cert_mgr/srcs/esp_secure_cert_tlv_read.c:204-269 | at the offset of an entry its header is read, and the total length leads to the next entry |
| TlvPartition.VerifyIntegrity | managed_components/espressif__esp_secure_cert_mgr/srcs/esp_secure_cert_tlv_read.c:170-189 | true at an entry iff its checksum over header, data and padding holds; false at the end |
| TlvPartition.FindTlv | managed_components/espressif__esp_secure_cert_mgr/srcs/esp_secure_cert_tlv_read.c:204-269 | terminates and returns the addressed entry iff its checksum holds; the end address for the end type when no entry answers; failure otherwise; asked for the maximal subtype, what it returns is the highest iff the last subtype of the type in flash order is their maximum |
| TlvPartition.AddressedIsUnique | managed_components/espressif__esp_secure_cert_mgr/srcs/esp_secure_cert_tlv_read.c:204-269 | a query addresses at most one entry: the last of its type for the maximal subtype, else the first match |
| TlvPartition.LatestIsHighestIff | managed_components/espressif__esp_secure_cert_mgr/srcs/esp_secure_cert_tlv_read.c:204-269 | the entry addressed for the maximal subtype carries the highest subtype of its type iff the last of the type's subtypes, in flash order, is their maximum |
| TlvPartition.AscendingIsEnough | managed_components/espressif__esp_secure_cert_mgr/srcs/esp_secure_cert_tlv_read.c:204-269 | subtypes written in ascending order are enough |
| TlvPartition.HighestIsMissed | managed_components/espressif__esp_secure_cert_mgr/srcs/esp_secure_cert_tlv_read.c:204-269 | a partition of two sound entries of one type, subtypes 5 then 1, where the search returns the lower |
| TlvPartition.Iterator.Next | managed_components/espressif__esp_secure_cert_mgr/srcs/esp_secure_cert_tlv_read.c:417-456 | moves one entry further iff the current and the next checksum hold, else stays |
| TlvPartition.Iterator.ListEntries | managed_components/espressif__esp_secure_cert_mgr/srcs/esp_secure_cert_tlv_read.c:483-496 | from a zeroed iterator the entries up to the first bad checksum are visited, in order |

## Left out

- Transport, clocks and keep-alive: a read or write delivers any number of bytes, a deadline is an arbitrary number of rounds unless the transport is said to be willing or patient, and what is offered, the keep-alive verdict and the outcome of each acknowledgement's send are parameters.
- Cryptography: HMAC and the platform checksum are arbitrary functions; decryption of TLV values and the clearing of key material are not modelled.
- Callback re-entrancy: an application callback that calls the library again while a packet is being handled; the log records when callbacks happen.
- Contexts without stateful QoS (no record arrays) and NULL arguments.
- What the packet handlers return during framing: a handler's failure is reported to the caller after the buffer was shifted, and does not change what is cut out.
- Io-vectors hold byte values, not pointers: that the two-byte length buffers stay alive and distinct while a batch is pending is not modelled.
- UNSUBSCRIBE, PINGREQ, DISCONNECT, CONNACK, SUBACK and the simple acknowledgements' own layouts: the same patterns with fewer fields.
- `MQTT_SerializePublishHeader`, the copying variant with topic but without payload.
- Pre-checked arguments: `sizeOk` stands for the size computation inside a publish, `memoryOk` for the allocation in the key derivation.
- StateEngine.Context.RemoveStateRecord: the id is not zero, as its caller guarantees; for zero the source would find a free slot first.
- ConnectCodec.SendConnectWithoutCopy: a user name, password or will topic that is present but empty; the source asserts that a zero length goes with no string (core_mqtt.c:1853), the model sends its two length bytes.
- Framing.Receiver.RecvExact: how many polls without data it takes before giving up is arbitrary.
- PublishTable.AppTable.PubackArrives: the application runs no other library call inside the callback.
- JSON_Iterate, and when an unaccepted buffer is called partial rather than illegal.
- JsonScanner.SkipOneHexEscape: index sums do not wrap, so buffers near the top of the address space are not modelled; a character beyond 255 stands for an illegal byte.
- JsonSearch.SearchConst: pointers into the buffer are index and length.
- TlvPartition.FindTlv: a partition whose entries reach 65536 bytes, where the 16-bit offset wraps to bytes read before; whether the walk then ends depends on them (by TlvPartition.WalkStandsStill it never does behind an entry of 65505 to 65520 bytes of another type).
- Sockets, TLS, Wi-Fi, flash writes, tasks, the over-the-air updater and the provisioning tools: input and output around these cores.
