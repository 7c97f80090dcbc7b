# RLib control and data path: a verified model

RLib wraps RDMA verbs. This project models the parts of it whose correctness is a
matter of whole runs, and proves what those runs keep.

- `Bytes`, `MultiMsg`: little-endian fields, packed structs, and the MultiMsg codec
  with its 33-byte header and 16-bit offsets.
- `SRpc`, `RpcRuns`: the bootstrap RPC over UDP (RFC 768). `SRpc` holds the client and
  the server event loop as objects; `RpcRuns` is the system of many clients, one server
  and a network, at the level of the bytes on the wire. The network is the set of
  datagrams ever sent, any of which may be delivered any number of times or never;
  strangers may send the server anything. Handlers are functions of the server state and
  of an environment choice (random numbers, device failures).
- `Qp`, `Proto`, `Registry`, `Connect`, `MsgConnect`: RC queue pairs in the states RESET, INIT, RTR and
  RTS (InfiniBand Architecture Specification Volume 1, section 10.3.1), the packed
  requests, the name registry with its handlers, and the connect manager. `CcRcSafety`
  puts the codec, the RPC runs, the registry and the connect transitions together, and
  `CcRcMsgSafety` the receive rings as well.
- `RecvRing`, `RecvRuns`, `RecvFactory`, `RecvManager`, `Doorbell`: the receive ring, its
  reader, its construction over a bump allocator, the handler that posts it, and the
  doorbell chain. Pointers into the arrays are indices; the device is two FIFO queues.
- `Bits`, `SendAccounting`, `SendRuns`, `FlowControl`: watermarks packed into work request
  ids, signal counting, and the flow-control loops of three benchmark clients.
- `FastRandom`: the 48-bit generator of the benchmarks and its full period.

Objects that the original updates in place are classes here; each method is tied to a
function on values, and the statements about runs are lemmas about those functions.

Where code and comments disagree the model follows the code:

- `core/bootstrap/proto.hh:66` calls `whether_create == 0` a query; `core/rctrl.hh:208-210`
  rejects it, and any value above 1 acts as the query.
- `core/bootstrap/srpc.hh:58` reserves one byte for a header of nine, so parameters of 4055
  to 4062 bytes pass the size test and then abort instead of being refused.
- `core/bootstrap/multi_msg.hh:71-86` adds sizes in 16 bits; the reading "all slices are
  inside the buffer" holds exactly when they do not wrap (`SaneInBoundsIffNoWrap`).
- `core/qps/op.hh:157-159` counts the flag of a batch's first request only, while
  `benchs/db_bench/client.cc:130` signals its last one (`SignalsConservedIff`, `DbBatchUnderflows`).
- The doorbell benchmark divides the send queue as if it posted single requests; its exact
  peak can exceed the queue (`DbFitsIff`, `DefaultQueueOverflows`).
- `core/qps/recv_helper.hh:76-77` takes the 64-bit buffer size of a request as a 32-bit word,
  so a size of 2^32 builds a ring of empty buffers (`RequestedSizeIff`).
- `core/rctrl.hh:121-140` deletes a queue pair and keeps its ring, so its name cannot be used
  for messages again (`AnsweredIff`, `NameWorksOnce`).
- `core/qps/op.hh:149-167` gives a batch's requests no watermark, while `core/qps/rc.hh:249-261`
  reads one from every completion (`PollKeepsCountIff`, `BatchPollMiscounts`).
- `core/qps/doorbell_helper.hh:45-47` tests the range of its 8-bit index against the default
  capacity only; larger helpers work up to 128 requests (`IndexStaysIff`).

## Model

| member | source | states |
|---|---|---|
| `MultiMsgs.SanityCheck` | core/bootstrap/multi_msg.hh:71-86 | the loop accepts exactly the headers whose count is at most 8, whose every offset is 33 plus the preceding sizes modulo 2^16, and whose final modular offset is within the buffer |
| `MultiMsgs.SaneIsTiling` | core/bootstrap/multi_msg.hh:71-86 | while 33 plus all sizes stays below 65536, acceptance is equivalent to the entries tiling one range of the buffer in order and without gaps |
| `MultiMsgs.SaneInBoundsIffNoWrap` | core/bootstrap/multi_msg.hh:71-86 | an accepted header keeps every slice inside the buffer if and only if the sizes do not wrap the 16-bit accumulator |
| `MultiMsgs.SaneSlicesDisjoint` | core/bootstrap/multi_msg.hh:71-86 | without wrap-around all accepted slices lie in the buffer and are pairwise disjoint |
| `MultiMsgs.WrappingHeaderAccepted` | core/bootstrap/multi_msg.hh:77-85 | the plain reading of the check is false: a concrete header is accepted although its second slice leaves every buffer |
| `MultiMsgs.CreateFrom` | core/bootstrap/multi_msg.hh:115-127 | a buffer is handed out as a message, unchanged, exactly when it is not too long and its header passes the sanity check |
| `MultiMsgs.RefusedIff` | core/bootstrap/multi_msg.hh:71-127 | a buffer is refused if and only if it is too long, counts more than eight segments, has one that does not begin where the one before ends, or ends behind the buffer |
| `MultiMsgs.HeaderLayout` | core/bootstrap/multi_msg.hh:40-51 | the count is byte 0; offset and size of entry i are the low-byte-first words at 1 + 4i and 3 + 4i |
| `MultiMsgs.QueryExact` | core/bootstrap/multi_msg.hh:165-170 | what each query finds, from the header bytes: nothing from the count on, a read outside the buffer, or the slice |
| `Bytes.FromLEAppend` | core/utils/marshal.hh:60-72 | in every multi-byte field the later byte is the more significant one |
| `MultiMsgs.DecodeEncode` | core/bootstrap/multi_msg.hh:115-170 | round trip under arbitrary trailing bytes: the encoding is accepted, has as many segments as were written, each query returns the written segment, and every further query is absent |
| `MultiMsgs.EncodeInjective` | core/bootstrap/multi_msg.hh:148-156 | different segment lists have different encodings |
| `MultiMsgs.MultiMsg.constructor` | core/bootstrap/multi_msg.hh:102-105 | a fresh message is the encoding of no segments |
| `MultiMsgs.MultiMsg.AppendOne` | core/bootstrap/multi_msg.hh:56-68 | the new entry continues the previous one in 16-bit arithmetic; with eight entries taken nothing changes |
| `MultiMsgs.MultiMsg.Append` | core/bootstrap/multi_msg.hh:148-156 | an append succeeds exactly while capacity and a free entry remain, then extends the encoded list by one segment; a refusal leaves every byte as it was |
| `MultiMsgs.MultiMsg.CreateExact` | core/bootstrap/multi_msg.hh:133-137 | fails exactly when the payload cannot fit beside the header |
| `MultiMsgs.AppendAll` | core/bootstrap/multi_msg.hh:148-156 | after any sequence of attempts the bytes are the encoding of exactly those segments that still fitted when they were tried |
| `MultiMsgs.Iterate` | core/bootstrap/multi_msg_iter.hh:33-65 | the iterator yields what the queries yield, once each and in order |
| `MultiMsgs.RoundTrip` | core/bootstrap/multi_msg.hh:115-170 | append, place before arbitrary bytes, decode, iterate: exactly the accepted segments come out |
| `SRpcs.RequestRoundTrip` | core/bootstrap/srpc.hh:182-216 | a request is decoded as it was sent, whatever an earlier datagram left behind it in the reused buffer |
| `SRpcs.RequestIff` | core/bootstrap/srpc.hh:182-216 | for every buffer: it decodes to a request if and only if its header is well formed, its first segment has the id and the checksum in its first nine bytes, and its second is the parameter |
| `SRpcs.UndecodableServed` | core/bootstrap/srpc.hh:188-210 | for every buffer: a malformed header, no segment or a short first one is what makes a buffer undecodable, and it is answered with status 4 and checksum 0, with nothing called and the state as it was; the client refuses such a datagram too |
| `SRpcs.NoParameterServed` | core/bootstrap/srpc.hh:213-244 | a request without a parameter segment is answered with Nop under its own checksum |
| `SRpcs.RequestOutOfBoundsIff` | core/bootstrap/srpc.hh:182-216 | for every buffer: exactly when the server reads outside it |
| `SRpcs.ReplyIff` | core/bootstrap/srpc.hh:81-109 | for every buffer: what it decodes to as a reply |
| `SRpcs.ReplyRoundTrip` | core/bootstrap/srpc.hh:81-109 | a reply is decoded as it was sent |
| `SRpcs.SRpc.Call` | core/bootstrap/srpc.hh:57-69 | the datagram sent is the request under the current checksum; the exact parameter sizes that are sent, refused as too large, or (4055 to 4062 bytes) abort |
| `SRpcs.SRpc.ReceiveReply` | core/bootstrap/srpc.hh:75-119 | outside heartbeat mode exactly the leading run of heartbeat replies is dropped with the checksum untouched, the next event decides (a failed receive, one that expires, or a datagram by its decoded reply); the retry loop terminates; outside heartbeat mode the result is Ok with a payload if and only if the deciding datagram is the Ok reply with that payload to a request under the current checksum, which then moves |
| `SRpcs.HeartbeatOkIff` | core/bootstrap/srpc.hh:91-104 | in heartbeat mode the result is Ok if and only if the datagram is a heartbeat reply (empty payload, checksum unchanged) or the Ok reply to an ordinary call under the current checksum, which is consumed: its payload is returned and the checksum moves |
| `SRpcs.OrdinaryOkIff` | core/bootstrap/srpc.hh:99-110 | outside heartbeat mode a datagram is returned as Ok if and only if it is the Ok reply under the current checksum, and the checksum moves by one: no stale reply is taken for an answer |
| `SRpcs.DecisionIs` | core/bootstrap/srpc.hh:91-110 | a reply is dropped exactly when it is a heartbeat reply outside heartbeat mode; the checksum moves exactly on an ordinary reply that carries it, whatever its status, and then by one |
| `SRpcs.FailureIs` | core/bootstrap/srpc.hh:99-114 | the error each refused or failing reply is reported as |
| `SRpcs.HeartbeatReplyIff` | core/bootstrap/srpc.hh:91-96 | what is dropped are the replies marked as heartbeat replies, and only those |
| `SRpcs.LeadingHeartbeatsMaximal` | core/bootstrap/srpc.hh:91-96 | a number is the length of the dropped run if and only if all events before it are heartbeat replies and the one there is not |
| `SRpcs.ChecksumAdvance` | core/bootstrap/srpc.hh:99-110 | the checksum moves, by one, only on a non-heartbeat reply that carries it |
| `SRpcs.DecideEncoded` | core/bootstrap/srpc.hh:84-110 | receiving an encoded reply has the outcome that the reply itself prescribes |
| `SRpcs.SRpcHandler.constructor` | core/bootstrap/srpc.hh:134-138 | a new server knows the heartbeat handler and no other |
| `SRpcs.SRpcHandler.RegisterHandler` | core/bootstrap/srpc.hh:141-148 | the first handler registered for an id stays; later ones are refused |
| `SRpcs.SRpcHandler.Start` | core/bootstrap/channel.hh:296-304 | a current message is kept; otherwise the next datagram overwrites the front of the reused buffer and the rest stays |
| `SRpcs.SRpcHandler.BuildReply` | core/bootstrap/srpc.hh:201-244 | the reply bytes are the encoded reply; a payload that does not fit is left out |
| `SRpcs.SRpcHandler.HandleCur` | core/bootstrap/srpc.hh:181-244 | one iteration changes the state and produces the reply that serving the buffer prescribes, or crashes where the code is undefined |
| `SRpcs.SRpcHandler.Turn` | core/bootstrap/srpc.hh:179-245 | one turn of the loop serves the current datagram, replies to its sender and makes the next one current |
| `SRpcs.SRpcHandler.RunOneEventLoop` | core/bootstrap/srpc.hh:177-248 | the event loop runs through one state per datagram until the queue is empty or it crashes; its count is the number of datagrams, and what it has sent is the right answer to each, to its sender, in order |
| `SRpcs.OneReplyPerDatagram` | core/bootstrap/srpc.hh:177-248 | at every uncrashed state of an event loop: one reply per datagram consumed so far, in order, each to its own sender and within one datagram |
| `SRpcs.StepCrashesIff` | core/bootstrap/srpc.hh:182-216 | one turn is undefined exactly when the decoded buffer reads out of bounds, names an unregistered id, or its handler aborts |
| `SRpcs.LoopCompletesIff` | core/bootstrap/srpc.hh:177-248 | over every event loop: it answers its whole inbox, one reply per datagram each to its sender, if and only if no turn meets such a buffer |
| `SRpcs.ClientRequestsAllServed` | core/bootstrap/srpc.hh:177-248 | from the inbox alone: encoded requests for registered ids whose handlers never abort are all answered, whatever stale bytes lie behind them |
| `SRpcs.LoopAnswersRight` | core/bootstrap/srpc.hh:177-248 | over every event loop each reply sent parses as the right answer to its datagram over whatever was in the buffer: the handler outcome for a request, Nop without a parameter, FatalErr for the undecodable |
| `SRpcs.ClientRequestsAnswered` | core/bootstrap/srpc.hh:177-248 | from the inbox alone: reply i parses as what the registered handler of request i made of it in the state that the earlier requests had left |
| `SRpcs.SentRequestOutcome` | core/bootstrap/srpc.hh:188-244 | a sent request delivered over stale bytes: Ok under its checksum with the handler output if that has at most 4053 bytes, Nop for a raise or a larger output (below 2^32 - 10 bytes) |
| `SRpcs.HeartbeatServed` | core/bootstrap/srpc.hh:134-138 | a heartbeat request is answered with a marked Ok reply |
| `RpcRuns.RunInv` | core/bootstrap/srpc.hh:43-248 | the invariant of every run over a network that loses, duplicates and reorders: every request of a client on the wire is one it made, every reply to it belongs to a logged handler execution on one of its requests |
| `RpcRuns.AcceptedReplyAnswers` | core/bootstrap/srpc.hh:75-119 | an accepted Ok payload is the registered handler's output for a non-heartbeat request this very client sent under its current checksum |
| `RpcRuns.ReplyAnswersTheCall` | core/bootstrap/srpc.hh:57-119 | over every run: with one non-heartbeat call in the epoch, the accepted payload answers exactly that call |
| `RpcRuns.LogIsHistory` | core/bootstrap/srpc.hh:177-248 | every log entry was made by an earlier step of the run that served this request of this peer, found the recorded server state, left the recorded one, and found exactly the earlier entries logged |
| `RpcRuns.AnyCallOfTheEpochCanBeAnswered` | core/bootstrap/srpc.hh:99-100 | why that condition is needed: a timed-out call leaves the checksum alone, so from any reachable state any call of the current epoch can be the one answered |
| `RpcRuns.NoReplyAcceptedTwice` | core/bootstrap/srpc.hh:99-110 | over every run no reply datagram is accepted twice by the same client, however often it is delivered |
| `RpcRuns.NoReplyReturnedTwice` | core/bootstrap/srpc.hh:99-110 | over every run no reply datagram is returned as Ok twice to the same client |
| `RpcRuns.OkIsAccepted` | core/bootstrap/srpc.hh:99-110 | every Ok outside heartbeat mode is an accepted reply |
| `RpcRuns.ServeIsTurn` | core/bootstrap/srpc.hh:177-248 | a server step of a run is one turn of the event loop, and is possible exactly when that turn is defined |
| `RpcRuns.NetworkKeeps` | core/bootstrap/srpc.hh:57-248 | whatever was sent once can be delivered again at any later step |
| `RpcRuns.InvokeIsCall` | core/bootstrap/srpc.hh:57-69 | a client can call in a run exactly when call sends, and puts the same datagram on the wire |
| `RpcRuns.ReceiveIsPass` | core/bootstrap/srpc.hh:75-119 | a receive step leaves the checksum that one pass of receive_reply leaves |
| `RpcRuns.FatalReplyNeverMatches` | core/bootstrap/srpc.hh:197-210 | over every run the reply to an undecodable request never matches a client checksum |
| `RpcRuns.InvServe` | core/bootstrap/srpc.hh:177-248 | serving any datagram, also a stranger's over stale bytes, keeps the invariant |
| `RpcRuns.InvReceive` | core/bootstrap/srpc.hh:75-119 | receiving any reply keeps the invariant |
| `RpcRuns.EpochMonotone` | core/bootstrap/srpc.hh:99-100 | the number of accepted replies never decreases along a run |
| `Qps.RC.Connect` | core/qps/rc.hh:144-172 | the queue pair and the result are those of the connect function |
| `Qps.ConnectOutcome` | core/qps/rc.hh:144-172 | connecting succeeds exactly from RTS or from INIT with both transitions accepted; then it aims at the number, lid and gid of the attribute, with both sequence numbers as configured; a refused connect leaves it as it was or in RTR |
| `Qps.ConnectAims` | core/qps/rc.hh:121-172 | connecting to what a queue pair offers makes the sender aim at that queue pair's own number modulo 2^32, lid modulo 2^16 and gid |
| `Qps.OfferedAttr` | core/qps/rc.hh:121-128 | what a queue pair offers, field by field; the offered PSN is the receive PSN in 32 bits |
| `Qps.ReconnectKeepsPeer` | core/qps/rc.hh:148-150 | connecting a connected queue pair to another peer reports success and keeps the old peer |
| `Qps.HalfConnectedIsStuck` | core/qps/rc.hh:152-165 | a connect that failed after RTR leaves a queue pair that no later connect completes |
| `Proto.RCReqRoundTrip` | core/bootstrap/proto.hh:57-75 | the creation request is 246 bytes and reads back unchanged, whatever follows it |
| `Proto.RCReqLayout` | core/bootstrap/proto.hh:57-75 | every field of a creation request at its place in the packed struct |
| `Proto.RCReplyLayout` | core/bootstrap/proto.hh:77-81 | every field of a creation reply at its place |
| `Proto.DelReqLayout` | core/bootstrap/proto.hh:89-94 | name and key of a deletion request at their places |
| `Proto.RCReplyRoundTrip` | core/bootstrap/proto.hh:77-81 | the creation reply is 69 bytes and reads back unchanged |
| `Proto.DelReqRoundTrip` | core/bootstrap/proto.hh:89-94 | the deletion request reads back unchanged |
| `Proto.PaddedNameReadsBack` | core/lib.hh:149-150 | a name of at most 63 bytes reaches the server unchanged if and only if it holds no NUL |
| `Registry.Factory.GenerateKey` | core/utils/abs_factory.hh:105-110 | the key is a draw that is not zero and all draws before it are |
| `Registry.Factory.Reg` | core/utils/abs_factory.hh:46-55 | a taken name is refused and nothing changes; a fresh one is bound under a nonzero key |
| `Registry.Factory.Dereg` | core/utils/abs_factory.hh:73-86 | only the matching key removes a binding, and only that one |
| `Registry.RcHandleStep` | core/rctrl.hh:199-256 | each step adds exactly one binding (fresh name, RTS queue pair towards the requester, both reported in the reply; the queue pair is the one the device created, on the requested NIC with the requested configuration, its key the first nonzero draw) or leaves the registry as it was |
| `Registry.RcHandleSucceedsIff` | core/rctrl.hh:207-244 | the exact condition under which a binding is added |
| `Registry.RcHandleRefusal` | core/rctrl.hh:199-256 | the exact answer to every request that adds no binding, queries included |
| `Registry.RcHandlerBytes` | core/rctrl.hh:199-256 | the handler on bytes: too few are a wrong argument, and the reply bytes read back as the answer |
| `Registry.DeleteRcBytes` | core/rctrl.hh:121-140 | for every buffer: bytes 0-63 name the binding and 64-71 its key; the reply bytes read back as status 0 and the binding is gone, or as status 3 and nothing changed |
| `Registry.DeleteStep` | core/rctrl.hh:121-140 | deletion is confirmed iff the binding with the given key was there and is gone, the others untouched |
| `Registry.CreateThenDelete` | core/rctrl.hh:121-256 | creating and then deleting with the returned key restores the registry |
| `Registry.RegistryRuns` | core/rctrl.hh:121-256 | over every sequence of creations and deletions all bindings stay usable: RTS, with a peer, under a nonzero key |
| `Registry.RCtrl.Bind` | core/rctrl.hh:228-243 | taking the name and connecting: on failure the name is given back and the registry is as before |
| `Registry.RCtrl.HandleRc` | core/rctrl.hh:199-256 | the daemon object moves and answers as the handler on values does |
| `Registry.RCtrl.HandleDelete` | core/rctrl.hh:121-140 | the daemon object moves and answers as the deletion on values does |
| `Registry.RCtrl.FetchAttr` | core/rctrl.hh:167-177 | the reply carries the attribute of the queue pair bound to the name, or not-found |
| `Connect.RegistryUsableInRuns` | core/rctrl.hh:121-256 | over every run of the RPC layer, whatever arrives from whom, all registered queue pairs are in RTS with a peer and a nonzero key |
| `RpcRuns.ServeMoves` | core/bootstrap/srpc.hh:213-244 | serving a datagram moves the server state by one registered handler or not at all |
| `Connect.CcRcLinks` | core/lib.hh:134-198 | if the remote handler ran on this request and its reply makes the call succeed, the name is freshly bound, both queue pairs are in RTS targeting each other, the returned key is the binding's, and with equal configured PSNs each side expects the other's send PSN |
| `Connect.AnsweredByStep` | core/bootstrap/srpc.hh:57-248 | over every run: the answer accepted for the one call of its epoch is what the handler returned at an earlier step that served this request |
| `Connect.CcRcSafety` | core/lib.hh:134-198 | over every run of the RPC layer, for one call in its checksum epoch: success means that an earlier step of the run served that very request and bound the name to a queue pair linked with the local one; the key is the binding's; and the binding has stayed ever since if and only if no DeleteRC with that name and key was served in between |
| `MsgConnect.CcRcMsgLinks` | core/lib.hh:200-262 | the same as for CcRcLinks, and the name freshly has a ring over buffers of the requested size with all entries posted |
| `MsgConnect.CcRcMsgSafety` | core/lib.hh:200-262 | over every run with the message handler in the table, for one call in its epoch: success means that an earlier step served the request, bound the name to a linked queue pair and equipped it with a fully posted ring of the requested buffer size, which is there in every later state, while the binding stays exactly as long as no DeleteRC with its key is served |
| `MsgConnect.RingStays` | core/qps/rc_recv_manager.hh:53-120 | over every run a ring, once there, is there unchanged in every later state |
| `MsgConnect.MsgDaemonTable` | core/qps/rc_recv_manager.hh:40-45 | the daemon's table with the message handler added meets what is asked of one |
| `Connect.BindingStays` | core/rctrl.hh:121-140 | over every run of the daemon a binding is there in every state of an interval if and only if no step of it serves a DeleteRC with its name and key |
| `Connect.DaemonTable` | core/rctrl.hh:40-60 | the table of the heartbeat, creation, deletion and three fetch handlers meets what is asked of a handler table in the results about runs, whatever the fetches of other registries answer |
| `Connect.CcRcOnConnectedQp` | core/lib.hh:171-180 | a queue pair already in RTS keeps its old peer although the call reports success |
| `Connect.ConnectManager.CcRc` | core/lib.hh:134-198 | too long a name sends nothing; otherwise it succeeds if and only if the send does, the first reply that is no heartbeat's is the Ok reply under the current checksum, and its payload is an Ok reply to which the local queue pair connects; failure never moves a queue pair into or out of RTS |
| `Connect.CcRcAsks` | core/lib.hh:146-160 | the bytes that cc_rc sends reach the server, over whatever is in its buffer, as a creation request with this name, NIC, configuration and attribute |
| `Connect.CcRcMsgAsks` | core/lib.hh:212-232 | the same for cc_rc_msg, with the channel and the buffer size |
| `Connect.FinishIs` | core/lib.hh:166-198 | an accepted payload leads to success if and only if it reads as an Ok reply and the local queue pair connects; the key is the one in it |
| `Connect.FinishFailure` | core/lib.hh:166-198 | the error each other payload leads to |
| `Connect.SuccessIsAccepted` | core/lib.hh:162-198 | the reply that makes cc_rc succeed is an accepted one, so the result over runs applies |
| `Connect.FetchQpServed` | core/rctrl.hh:142-177 | a fetch of an attribute is answered with that of the bound queue pair, with not-found, or with wrong argument |
| `Connect.ConnectManager.CcRcMsg` | core/lib.hh:200-262 | the same with the channel and the buffer size in the request |
| `Connect.ConnectManager.WaitReady` | core/lib.hh:71-86 | one heartbeat per round under an unchanged checksum; it goes on while sends succeed and receives expire, times out only after all rounds, and otherwise ends with the first send that fails or with what the first other receive ends with; Ok means a heartbeat reply, or an accepted late reply that moved the checksum |
| `RecvRing.PostRecvs` | core/qps/mod.hh:168-188 | the device is handed exactly the entries header, ..., header+num-1 around the ring; on success the cycle is restored and the header advanced, on failure only the tail link is cut |
| `RecvRing.CutRingIsChain` | core/qps/mod.hh:171-178 | cutting the intact ring leaves a null-terminated chain of exactly those entries, also for num = N and around the end |
| `RecvRing.ChainUnique` | core/qps/mod.hh:176-178 | the links determine what the device meets |
| `RecvRing.RecvQp.PostRecv` | core/qps/mod.hh:176-181 | the device walks the chain and keeps what it has room for |
| `RecvRing.CircRotate` | core/qps/mod.hh:184-185 | posting a run from the header turns the ring by its length |
| `RecvRuns.RunInv` | core/qps/recv_iter.hh:36-84 | over every run: held, then completed, then posted entries are all N entries in ring order from the header |
| `RecvRuns.OwnershipIsExclusive` | core/qps/recv_iter.hh:36-84 | hence no entry is both with the reader and with the device, none is lost and none appears twice |
| `RecvRuns.RepostsTheHeld` | core/qps/recv_iter.hh:72-78 | the run that is reposted is exactly what was held |
| `RecvRuns.DeliveredInRingOrder` | core/qps/recv_iter.hh:59-70 | over every run the reader is handed the entries in ring order |
| `RecvRuns.RecvIter.constructor` | core/qps/recv_iter.hh:42-44 | over a ring posted whole, with nothing polled yet |
| `RecvRuns.RecvIter.Begin` | core/qps/recv_iter.hh:52-55 | polling moves the oldest completions to the reader; what was still held is then neither with the reader nor in a queue |
| `RecvRuns.PollOverHeldMisposts` | core/qps/recv_iter.hh:52-79 | why a poll must follow a repost: over held entries, the next repost hands the device one that was held before and keeps back one that is held now |
| `RecvRuns.RecvIter.CurMsg` | core/qps/recv_iter.hh:60-67 | the current buffer is that of the entry idx places behind the header |
| `RecvRuns.RecvIter.Clear` | core/qps/recv_iter.hh:72-79 | reposts exactly what was polled; a refused post leaves the ring cut and forgets the buffers |
| `RecvFactory.SimpleAllocator.AllocOne` | examples/rc_overflow/server.cc:28-35 | hands out the next bytes, or refuses and keeps everything |
| `RecvFactory.CreateRing` | core/qps/recv_helper.hh:76-98 | a ring exactly when all N buffers of the 32-bit size fit: one N-cycle, each request with its own scatter entry and buffer, its id the buffer address, the buffers disjoint and inside the region |
| `RecvFactory.BuffersDisjoint` | core/qps/recv_helper.hh:79-96 | the buffers of a built ring are pairwise disjoint and inside the region, and each request is named by its own |
| `RecvManagers.RecvManager.HandleMsg` | core/qps/rc_recv_manager.hh:53-120 | the object moves and answers as the handler on values does, from the bytes on |
| `RecvManagers.RecvManager.HandleMsgReq` | core/qps/rc_recv_manager.hh:58-111 | the same on a decoded request: the registry as in the plain handler; an exception without channel or memory for the narrowed size, an abort on a leftover ring or refused post (the binding stays in all of these), and otherwise the name also has a fresh ring with all R entries posted, over buffers of the narrowed size |
| `RecvManagers.RequestedSizeIff` | core/qps/rc_recv_manager.hh:102 | an answered creation gets buffers of the requested size if and only if that is below 2^32; a request for 2^32 bytes gets empty buffers |
| `RecvManagers.MsgOutcome` | core/qps/rc_recv_manager.hh:58-111 | everything a message creation can end in, each exactly when: the registry always moves as for the plain one, and a binding once added stays whatever becomes of the ring |
| `RecvManagers.MsgHandlerBytes` | core/qps/rc_recv_manager.hh:53-120 | the handler on bytes, each outcome passed on as such |
| `RecvManagers.RecvManager.BuildRing` | core/qps/rc_recv_manager.hh:99-102 | a ring exactly when the channel named in the request is registered and has room for R buffers of the size modulo 2^32 |
| `RecvManagers.BuffersSizedIff` | core/qps/recv_helper.hh:76-98 | the same on the scatter entries of the ring |
| `RecvManagers.RingsStay` | core/rctrl.hh:121-140 | over every sequence of calls no ring is ever removed or replaced, deletions included |
| `RecvManagers.HasRingIff` | core/qps/rc_recv_manager.hh:99-107 | after any calls a name has a ring if and only if it had one or an earlier message creation bound it and could build |
| `RecvManagers.AnsweredIff` | core/qps/rc_recv_manager.hh:99-111 | after any calls, a message creation that binds its name is answered if and only if its ring can be built and posted and no such call came before |
| `RecvManagers.NameWorksOnce` | core/qps/rc_recv_manager.hh:99-107 | after a creation that posted a ring and any further calls, another creation under that name that binds it ends in an abort or, without channel or memory, an exception |
| `RecvManagers.RecreateAborts` | core/qps/rc_recv_manager.hh:99-107 | create, delete with the returned key, create again: the registry is back where it was and the daemon aborts |
| `RecvManagers.RecvManager.AddRing` | core/qps/rc_recv_manager.hh:99-107 | building the ring over buffers of the size narrowed to 32 bits, registering and posting it, with every failure told apart |
| `Doorbell.IndexStaysIff` | core/qps/doorbell_helper.hh:43-75 | the 8-bit index counts the claimed requests and stays inside the array, however often next is called, if and only if the capacity is at most 128 |
| `Doorbell.NeverFull` | core/qps/doorbell_helper.hh:70-77 | above that (and below 2^32 - 127) next never refuses |
| `Doorbell.DoorbellHelper.constructor` | core/qps/doorbell_helper.hh:50-61 | for any capacity the links run through the array and back to the start |
| `Doorbell.DoorbellHelper.Next` | core/qps/doorbell_helper.hh:70-75 | claims one more request unless all are claimed; the 129th claim of a larger helper wraps the index before the array |
| `Doorbell.DoorbellHelper.Freeze` | core/qps/doorbell_helper.hh:83-86 | from the first request the device meets exactly the claimed ones and then null |
| `Doorbell.DoorbellHelper.FreezeDone` | core/qps/doorbell_helper.hh:100-103 | mends the cut link towards the next position, also past the array |
| `Doorbell.DoorbellHelper.Clear` | core/qps/doorbell_helper.hh:105-108 | ready for reuse; a full batch leaves the last link past the array |
| `Doorbell.DoorbellHelper.SanityCheckSz` | core/qps/doorbell_helper.hh:134-146 | counts the claimed requests on a frozen chain, 0 on an empty one, N+1 otherwise |
| `Doorbell.ChainVisits` | core/qps/doorbell_helper.hh:83-86 | following k links of the frozen chain reaches request k, and null behind the last |
| `Doorbell.Reuse` | core/qps/doorbell_helper.hh:50-146 | over any number of batches, full ones included, of at most 128 claims each where the capacity is larger, every posting shows the device exactly the claimed requests |
| `Bits.BitmaskIsOnes` | core/utils/mod.hh:15-18 | the mask expression is n ones |
| `SendAccounting.PendingIsDistance` | core/qps/mod.hh:33-38 | watermarks of unbounded counters report their distance modulo 2^16 |
| `SendAccounting.WrRoundTrip` | core/qps/rc.hh:204-257 | an encoded id gives back the user id modulo 2^48 and the watermark unchanged |
| `SendAccounting.MarkMaskIsBitmask` | core/qps/rc.hh:256-257 | the mask applied to a completion id is the expression for 16 ones |
| `SendAccounting.ShiftUpIsShl` | core/qps/rc.hh:205 | the shift of the user id is the 64-bit shift by the watermark width |
| `SendRuns.PendingExactIff` | core/qps/rc.hh:204-261 | over every run of single and batched posts, taken or refused: the pending count is the 16-bit distance from what poll_rc_comp read last to the single posts tried, and it is the number of tries after the last one taken if and only if that number is below 65536 and what was read last agrees with that post in its low 16 bits |
| `SendRuns.PendingRefinesCounters` | core/qps/rc.hh:204-261 | over every run whose batches are unsignaled, single posts alone included: the pending count is the number of tries after the last one taken if and only if that is below 65536, and the number of posts the device took after it if and only if that is below 65536 and the refused ones are a multiple of 65536 |
| `SendRuns.PollKeepsCountIff` | core/qps/rc.hh:249-261 | over every run: after a poll_rc_comp the count is right, while it fits, if and only if the poll took a single post or a batch request whose id agrees in its low 16 bits with the last single post taken |
| `SendRuns.BatchPollMiscounts` | core/qps/rc.hh:249-261 | a run that miscounts: a single post and a batch of one, both completed and taken; with the batch id 5 and nothing outstanding, 65532 requests are reported pending |
| `SendRuns.PolledUserId` | core/qps/rc.hh:249-261 | over every run a poll returns the user id of a single post modulo 2^48, and of a batch request its id without the low 16 bits |
| `SendRuns.SignalsConservedIff` | core/qps/op.hh:149-183 | over every run, refused posts included, the counter is signaled requests minus polled completions modulo 2^32 if and only if uncounted signals and refused signaled posts are equally many modulo 2^32; from the steps: with nothing signaled refused, exactly when no posted batch signals behind its first request, and with no such batch, exactly when nothing signaled is refused |
| `SendRuns.BatchCountedIff` | core/qps/op.hh:149-167 | a batch is counted in full if and only if no request behind its first is signaled |
| `SendRuns.NothingBehindIff` | core/qps/op.hh:149-167 | over every run no signal went uncounted if and only if every posted batch is signaled at its first request only |
| `SendRuns.NothingRefusedIff` | core/qps/op.hh:149-183 | over every run nothing was counted in vain if and only if no signaled post is refused |
| `SendRuns.NoUnderflow` | core/qps/mod.hh:115-121 | over every run whose batches signal at their first request only, a poll finds the counter positive |
| `SendRuns.DrainedCounter` | core/qps/op.hh:149-183 | over every run, with nothing outstanding the counter is the refused signals minus the uncounted ones, in 32 bits |
| `SendRuns.DbBatchUnderflows` | benchs/db_bench/client.cc:125-137 | a batch signaled at its last request, posted, completed and polled once: a run that ends with the counter at 2^32 - 1 |
| `SendRuns.SendQp.Execute` | core/qps/op.hh:169-183 | a post is one step of the run, taken or refused; a refused one moves watermark and counter all the same |
| `SendRuns.SendQp.ExecuteBatch` | core/qps/op.hh:149-167 | a batch is one step of the run, taken or refused; a refused one counts the first flag all the same |
| `SendRuns.SendQp.PollSendComp` | core/qps/mod.hh:115-121 | takes the oldest completion and lowers the counter |
| `SendRuns.SendQp.PollRcComp` | core/qps/rc.hh:249-261 | additionally moves the low watermark and returns the user id |
| `SendRuns.SendQp.PendingReqs` | core/qps/mod.hh:33-38 | at every state of the object: the 16-bit distance from what was read last to the single posts tried |
| `FlowControl.RoundStep` | benchs/or_bench/client.cc:106-123 | what one pass of the loop does to the queue; a wait always finds a signaled request |
| `FlowControl.RoundEnd` | benchs/or_bench/client.cc:124-125 | the final wait finds a signaled request and leaves only unsignaled leftovers |
| `FlowControl.PeakClosed` | benchs/or_bench/client.cc:104-127 | closed form of the longest queue of a round |
| `FlowControl.PeakBound` | benchs/or_bench/client.cc:102-127 | it is at most twice the signal distance, and reached by every round longer than that |
| `FlowControl.OrBench` | benchs/or_bench/client.cc:102-127 | over any number of rounds the peak of unreclaimed requests is exact and within the send queue |
| `FlowControl.DbBench` | benchs/db_bench/client.cc:99-142 | for any batch size d, the peak of the batched loop is exact, d times that of the loop in batches, and at most twice half the queue rounded up to whole batches |
| `FlowControl.ReclaimBatches` | benchs/db_bench/client.cc:130-137 | a completion reclaims whole batches |
| `FlowControl.DbFitsIff` | benchs/db_bench/client.cc:99-142 | for any batch size and any number of rounds from one on, the send queue holds out if and only if a closed form does |
| `FlowControl.DefaultQueueOverflows` | benchs/db_bench/client.cc:114-142 | with the default queue of 128, rounds of 70 requests need 130 places |
| `FlowControl.DefaultFactorFits` | benchs/db_bench/client.cc:23-142 | the benchmark's own default of 50 requests a round fits |
| `FlowControl.FlyBench` | benchs/fly_bench/client.cc:101-126 | in every round neither unsigned subtraction wraps, posting refills the window exactly, polling takes the smaller of what it finds and what is in flight, and the next round starts from the difference; nothing is ever in flight beyond the window and the drain receives everything posted |
| `FastRandoms.UpdateIsStep` | tests/random.hh:94 | the masked 64-bit update is multiplication and addition modulo 2^48 |
| `FastRandoms.FastRandom.NextBits` | tests/random.hh:91-96 | one step of the generator; the result is its top bits |
| `FastRandoms.FullPeriod` | tests/random.hh:91-96 | a state comes back after n steps if and only if n is a multiple of 2^48 |
| `FastRandoms.NoEarlyRepeat` | tests/random.hh:91-96 | no state repeats within 2^48 steps |
| `FastRandoms.EveryStateReached` | tests/random.hh:91-96 | from any state every state is reached within one period |
| `FastRandoms.StepInjective` | tests/random.hh:91-96 | the step is a permutation: equal successors come from equal states |
| `FastRandoms.StepSurjective` | tests/random.hh:91-96 | every state has a predecessor |
| `FastRandoms.GeoDivisible` | tests/random.hh:91-96 | for every multiplier that is 1 modulo 4 the sum of its first n powers is divisible by 2^k exactly when n is |
| `FastRandoms.LinReturns` | tests/random.hh:91-96 | for every such multiplier, every odd increment and every k, the state returns modulo 2^k exactly at the multiples of 2^k |

## Left out

- Sockets, select, name lookup and the host cache: a channel is the list of how its receives end (a datagram, a failure, an expired timeout), and further ones expire; timeouts carry no duration.
- The buffer header is read through a pointer into the string; reallocation of the string behind that pointer, and messages shorter than the 33-byte header, are not modelled (every receive buffer holds 4096 bytes).
- Reads past the buffer (`OutOfBounds`), an unregistered id and a failed assertion are states in which the model stops: nothing is stated about what the original does there.
- libibverbs: a device transition succeeds only from the state before it and may fail; a failed one leaves the state unchanged. Path attributes other than target, lid, gid and PSNs are not recorded.
- A request name without any NUL in its 64 bytes is taken to end with the field.
- `RpcRuns.AcceptedReplyAnswers`: asks that the client has accepted fewer than 2^64 - 1 replies, because the checksum wraps after that.
- `MultiMsgs.MultiMsg.Append`: is stated for a capacity below 65536, the limit the format itself documents.
- `Connect.ConnectManager.WaitReady`: a send either succeeds or fails; a send that times out, which the original follows by a receive, is not told apart.
- `FlowControl.OrBench`: asks for at least one request a round and a send queue of at least 2, because otherwise the final wait never ends or half the queue is nothing; the loop ends after a given number of rounds instead of at a signal from outside.
- `FlowControl.FlyBench`: completions of the drain arrive after finitely many empty polls each; the polls of the loop succeed as an arbitrary predicate says.
- `RecvManagers.RecvManager.HandleMsgReq`: takes the plain creation step as a call where the original repeats its statements; the receive completion queue is not modelled.
- `Connect.ConnectManager.CcRcMsg`: asks for a channel name of at most 63 bytes, because the original copies a longer one past its field.
- `Doorbell.Reuse`: asks for at least one claim per batch, which the original asserts.
- `RecvRuns.RecvIter.Begin`: a poll while entries are held is not a step of a run; its contract says what becomes of them and `RecvRuns.PollOverHeldMisposts` what the next repost then does.
- `fetch_mr_handler`, `fetch_dc_attr`, `fetch_remote_mr`, `create_then_reg`: the same call, parse and lookup shapes again.
- `delete_remote_rc` falls off its end and `query_or_default` has an empty `if`: what they return is not settled by the code.
- DC and UD queue pairs, memory registration, configuration setters, timers, reporting, threads, logging and scripts: attribute filling or input and output.
- `rand_number` and `next_uniform` use floating point.
