# Trust0: a verified model of its session bookkeeping, event loops and relays

Trust0 relays user connections through a gateway. What makes it work is a set of hand-kept indexes and
event loops that have to agree under every interleaving of accepts, closes and shutdowns. This project
models those parts in Dafny and proves what holds in every run, for every outcome of sends, reads,
writes and connects. `dafny verify dfyconfig.toml` checks everything.

**The gateway registry.** Each service visitor keeps three coupled maps (user by address pair, address
pair by key, keys by user), and all visitors share a fourth (service by key). `Registry` holds the maps
as values and proves when each update keeps them coupled. `GatewayVisitor` and `GatewayManager` are the
classes that update them. `GatewayState` is the plain machine those classes refine: a set of sessions
and a set of accepted-but-unregistered pairs per service, the shared index and the task queue, with one
event per mutex-protected operation. Every manager method proves that the gateway's value afterwards is
what `Apply` says for an event that was `Enabled`; `GatewayRuns` proves the theorems about all sequences
of such events, and `GatewayDriver` proves that any sequence of calls to the manager and the stores that
the network delivers is such a run. The one assumption about the network is in `Enabled`: the address pair and the key of a
new connection do not belong to a session that is still registered. The methods do not require it: they
say what the maps become in any case, and that they refine the machine if it holds.
`Registry.AddedCoupledIff` and `Registry.AcceptedCoupledIff` show that it is not only sufficient but needed,
and `Registry.SecondKeyLosesUser` what becomes of it otherwise: a later removal panics.

**The connection loop.** `ConnectionState` is the event queue of a TLS connection as a machine that other
threads append to at any time. `ControlConnection` is the connection object on a control-plane user,
proved to follow the machine, with a terminating loop for the part of a poll cycle that closes.

**The relays.** `Streams`, `Relay` and `ChannelRelay` are the chunked reader and the copy threads,
`Flows` what a direction of them delivers, put together from its transfers,
`Executor` the task loop that opens and disconnects them, `UdpDemux` the client's demultiplexer of
datagrams to per-peer channels.

**The client's bookkeeping.** `ClientState` is the machine, `ClientManager` the visitor and manager
classes that refine it.

**Authorization and codecs.** `Repositories`, `Authorization`, `ControlPlane`, `Ports`, `Alpn`,
`ProxyKeys`, `ServiceAddress`, `Decimal`.

Some expected properties do not hold of the code as it is. The model keeps the code and states exactly
when they hold:

- Distinct services get distinct ports if and only if the range ends below 65535
  (`Ports.DistinctPortsIff`), and ports of the range if and only if it ends there or holds all ports
  (`Ports.InRangeIff`).
- The shared index is the union of all sessions exactly in the runs that send no Open for a connection
  whose address pair is not recorded (`GatewayRuns.RunKeepsIndex`). In every run it holds the sessions'
  keys and the keys so leaked (`GatewayRuns.RunIndex`); `GatewayRuns.LeakIsReachable` is such a run.
- `services` and `start` agree on a service if and only if no later service of the snapshot has its name
  (`ControlPlane.AlwaysAgreeIff`).
- Parsing an ALPN name panics on some inputs, all of them described by `Alpn.ParsePanicsIff`.
- On the client, index and visitors stop agreeing if and only if a Close cannot be sent, or two services
  get the same key (`ClientState.StaysExactIff`); over whole runs `ClientState.RunIndexIff` says which held
  keys the index has, and `ClientState.FailedCloseStrandsKeys` is a run that loses some.
- A response service turned back into a model service is the original only for the hosts and ports of
  `ServiceAddress.RoundTripIff`.
- A relay delivers everything if and only if no transfer is cut, that is, wrote less than it read, and a
  prefix, whatever the bytes are, if and only if nothing is written after a cut transfer
  (`Relay.CopyIsFaithful`, `ChannelRelay.DatagramsFaithful`). A write that would block cuts and lets the
  relay go on (`Relay.BlockedWriteLeavesGap`).

## Model

| member | source | states |
|---|---|---|
| `Registry.AcceptedCoupledIff` | crates/gateway/src/service/proxy/tcp_proxy.rs:116-133 | recording an accepted pair keeps the three maps coupled if and only if it does not rename the user of a registered pair |
| `Registry.AcceptedEffect` | crates/gateway/src/service/proxy/tcp_proxy.rs:123-130 | accepting a pair without a session leaves the sessions alone and makes the pair pending for the user, re-accepting a pending pair included |
| `Registry.AddedCoupledIff` | crates/gateway/src/service/proxy/tcp_proxy.rs:242-265 | registering keeps the maps coupled if and only if neither key nor pair belongs to a registered session |
| `Registry.SecondKeyLosesUser` | crates/gateway/src/service/proxy/tcp_proxy.rs:334-353 | a second key for a registered pair loses its user when the first key is removed, so the lookup that its own removal unwraps fails |
| `Registry.AddedEffect` | crates/gateway/src/service/proxy/udp_proxy.rs:251-274 | registering turns exactly the pending pair into a session of the user it was accepted for |
| `Registry.RemovedEffect` | crates/gateway/src/service/proxy/tcp_proxy.rs:334-353 | removal keeps the maps coupled, drops exactly the one session, and leaves pending pairs alone |
| `Registry.ListedIff` | crates/gateway/src/service/proxy/tcp_proxy.rs:284-295 | a pair is filed under a user if and only if it is that user's session or that user's pending pair |
| `Registry.CoupledLists` | crates/gateway/src/service/proxy/tcp_proxy.rs:66-69 | in coupled maps each user's list holds exactly the keys of that user's sessions, each once |
| `GatewayVisitor.ConnectToService` | crates/gateway/src/service/proxy/tcp_proxy.rs:139-189 | the attempt loop takes the first resolved address that connects, and none if none does |
| `GatewayVisitor.RequestKeyIff` | crates/gateway/src/service/proxy/udp_proxy.rs:142-278 | there is a key if and only if every step up to the request succeeds, and it is made of the client's (TCP) or the reply socket's (UDP) address and that of the service at the first address that connects |
| `GatewayVisitor.AddrsNameEnds` | crates/gateway/src/service/proxy/tcp_proxy.rs:101-113 | the recorded pair is the client's address and the gateway's own, and two connections have the same pair only if they have the same ends |
| `GatewayVisitor.ServiceVisitor.CreateClientConn` | crates/gateway/src/service/proxy/tcp_proxy.rs:116-133 | the decision is the authorization function's for this service; a denied connection changes nothing, an authorized one is recorded under the authorized user's id, and becomes pending if its pair is of no registered session |
| `GatewayVisitor.ServiceVisitor.ReachService` | crates/gateway/src/service/proxy/tcp_proxy.rs:139-199 | the key is the one of the first address that connects, or none if resolution, the reply socket, connecting or cloning fails |
| `GatewayVisitor.ServiceVisitor.OnConnAccepted` | crates/gateway/src/service/proxy/udp_proxy.rs:142-278 | nothing is sent only if there is no key or the Open was refused, and then nothing changes; otherwise one Open and one index entry are made and, when the pair is recorded, the map entries; if pair and key are of no registered session this adds exactly one session, when the pair was pending |
| `GatewayVisitor.ServiceVisitor.SetUpMaps` | crates/gateway/src/service/proxy/tcp_proxy.rs:242-265 | what the maps become for any key and pair; for a new key and pair this refines adding one session to the visitor's plain state |
| `GatewayVisitor.ServiceVisitor.GetProxyAddrsForUser` | crates/gateway/src/service/proxy/tcp_proxy.rs:284-295 | lists the pairs of the user's sessions and the user's pending pairs, each once, and no others |
| `GatewayVisitor.ServiceVisitor.RemoveProxyForKey` | crates/gateway/src/service/proxy/tcp_proxy.rs:334-353 | removes the session of a registered key and its index entry, else nothing; the lookup of the user cannot fail |
| `GatewayVisitor.ServiceVisitor.ShutdownConnections` | crates/gateway/src/service/proxy/tcp_proxy.rs:297-332 | for any send failures, exactly the keys whose Close was sent are gone, each closed once; without failures these are all keys of the matching users, with one the refused keys are of one user and the keys of any other are all closed or all kept |
| `GatewayVisitor.ServiceVisitor.CloseList` | crates/gateway/src/service/proxy/tcp_proxy.rs:310-322 | one user's list splits into the keys closed and removed and the keys refused and kept |
| `GatewayVisitor.ServiceVisitor.CloseLists` | crates/gateway/src/service/proxy/udp_proxy.rs:306-341 | the outer loop stops after the first list with a failure: refused keys are of one user, and every other user's keys are all closed or all kept |
| `GatewayManager.GatewayServiceMgr.constructor` | crates/gateway/src/service/manager.rs:77-109 | an empty gateway, with the configured range or the shared server port |
| `GatewayManager.GatewayServiceMgr.Startup` | crates/gateway/src/service/manager.rs:157-263 | a started service keeps its port and changes nothing; a new one gets one visitor and one port under the same id; an exhausted range changes nothing; without a shared port the counter and the ports follow the allocator, for every range |
| `GatewayManager.GatewayServiceMgr.AllocatePort` | crates/gateway/src/service/manager.rs:168-181 | the shared port, or the counter's value with the counter bumped; none exactly when there is no shared port and the counter has passed the range |
| `GatewayManager.GatewayServiceMgr.RangeExhaustedIff` | crates/gateway/src/service/manager.rs:82-94 | in every valid manager with a range below 65535 ports are distinct and in range, and used up exactly when as many services as ports have started |
| `GatewayManager.GatewayServiceMgr.HasProxyForUserAndService` | crates/gateway/src/service/manager.rs:264-272 | true exactly when the service runs and lists a pair, of a session or pending, for the user |
| `GatewayManager.GatewayServiceMgr.OnClosedProxy` | crates/gateway/src/service/manager.rs:304-314 | the gateway afterwards is the closed-proxy event's effect, unknown keys and the fallback id included |
| `GatewayManager.GatewayServiceMgr.CreateClientConn` | crates/gateway/src/gateway.rs:69-107 | unknown services are refused without effect; otherwise the visitor records the pair, and if it is of no registered session the gateway afterwards is the connection-created event's effect |
| `GatewayManager.GatewayServiceMgr.OnConnAccepted` | crates/gateway/src/gateway.rs:113-122 | nothing is sent only if the service is not started, there is no key, or the Open was refused; otherwise one Open and one index entry are made, and if pair and key are of no registered session the gateway afterwards is the connection-accepted event's effect |
| `GatewayManager.GatewayServiceMgr.ShutdownConnections` | crates/gateway/src/service/manager.rs:274-302 | over all visitors in any order and any send failures, the gateway afterwards is the shutdown event's effect; it goes on past services that fail, so a service that refused nothing is closed as far as asked; it reports success exactly when no send was refused |
| `GatewayState.ApplyKeepsConsistent` | crates/gateway/src/service/manager.rs:274-314 | every event keeps sessions filed under their own key and service and the index pointing each session's key to its service |
| `GatewayState.RouteFindsSession` | crates/gateway/src/service/manager.rs:304-314 | if a key has a session anywhere, the service its key is routed to is the one that has it |
| `GatewayRuns.RunKeepsConsistent` | crates/gateway/src/service/proxy/tcp_proxy.rs:116-353 | every run keeps the gateway consistent and users keyed by their own id |
| `GatewayRuns.RunExtends` | crates/gateway/src/service/manager.rs:157-314 | any enabled event prolongs a run |
| `GatewayRuns.IndexIsUnionIff` | crates/gateway/src/service/proxy/tcp_proxy.rs:242-265 | an event keeps the index the disjoint union of the services' sessions if and only if it does not send an Open for a connection whose pair is not pending |
| `GatewayRuns.RunIndex` | crates/gateway/src/service/proxy/tcp_proxy.rs:242-265 | in every run a key is in the index if and only if it has a session or the last Open sent for it was for an unrecorded pair, and never both |
| `GatewayRuns.RunKeepsIndex` | crates/gateway/src/service/proxy/udp_proxy.rs:251-362 | after a run the index is the union of all sessions if and only if no key is leaked |
| `GatewayRuns.LeakIsReachable` | crates/common/src/net/tls_server/server_std.rs:274-281 | from any initial gateway, a run of an authorized connection whose recorded pair is not the one named at registration leaks its key and breaks the union |
| `GatewayRuns.PendingUntilRegistered` | crates/gateway/src/service/proxy/tcp_proxy.rs:123-130 | an event takes a pending pair away if and only if it registers it |
| `GatewayRuns.PendingStays` | crates/gateway/src/service/proxy/tcp_proxy.rs:139-265 | in every run, until a pending pair is registered, its user is taken to have a proxy with the service, whatever else happens |
| `GatewayRuns.OthersUntouched` | crates/gateway/src/service/manager.rs:274-314 | an event leaves every service it does not concern exactly as it was |
| `GatewayRuns.ShutDownDropsClosed` | crates/gateway/src/service/proxy/tcp_proxy.rs:297-332 | the sessions gone after a shutdown are exactly those whose Close was sent, once each; refused ones and pending pairs stay |
| `GatewayRuns.ShutDownComplete` | crates/gateway/src/service/manager.rs:274-302 | if no send is refused, a session is left if and only if it was not asked for, and it is left unchanged |
| `GatewayRuns.ListedAfterShutDown` | crates/gateway/src/service/proxy/tcp_proxy.rs:284-332 | after such a shutdown a matching user is shown exactly the pending pairs, everyone else what was shown before |
| `GatewayRuns.ClosedRemovesOnce` | crates/gateway/src/service/manager.rs:304-314 | the first Closed for a key removes its session and no other, a second changes nothing, also when a service has the id `u64::MAX` |
| `GatewayRuns.RunAccounts` | crates/gateway/src/service/proxy/tcp_proxy.rs:233-321 | in every run the Closes of a key plus its live session are at most its registrations, and those at most its Opens |
| `GatewayRuns.RunBalanced` | crates/common/src/proxy/executor.rs:92-241 | in every run every prefix of the executor's queue has at least as many Opens of a key as Closes |
| `GatewayRuns.UnknownOnlyAfterFailedOpens` | crates/common/src/proxy/executor.rs:219-240 | in every run the executor's unknown-key branch is reached only for keys with earlier Opens, all of which failed |
| `GatewayRuns.RunGrants` | crates/gateway/src/client/connection.rs:76-157 | every session and pending pair of every run goes back to a connection accepted when its user was known and active, the ALPN name was the service's and the access record existed |
| `GatewayDriver.Make` | crates/gateway/src/service/manager.rs:157-314 | every call adds its own event, a start unless no port is left and a registration unless nothing was sent; connections whose pair or key is of a registered session are not delivered |
| `GatewayDriver.Drive` | crates/gateway/src/service/manager.rs:157-314 | any sequence of calls to manager and stores, less the connections the network does not deliver, is a run of the machine, made of the calls' events one after the other |
| `GatewayDriver.Serve` | crates/gateway/src/service/manager.rs:77-314 | a new gateway, through any such calls, has a balanced task queue, an index of sessions and leaked keys, and only sessions and pending pairs that were granted |
| `Executor.ProxyExecutor.PollNewTasks` | crates/common/src/proxy/executor.rs:81-244 | streams, Closed events, disconnections and unknown keys are those the task history determines |
| `Executor.StreamOfIff` | crates/common/src/proxy/executor.rs:94-217 | the stream filed under a key is that of the last Open of the key that connected |
| `Executor.DisconnectedIff` | crates/common/src/proxy/executor.rs:219-231 | a stream is told to disconnect if and only if a Close has it as the last Open of its key before it that connected |
| `Executor.ClosesAccounted` | crates/common/src/proxy/executor.rs:219-241 | every Close either disconnects a stream or is unknown |
| `Executor.NeverConstructedCount` | crates/common/src/proxy/executor.rs:123-132 | a Closed is sent for each Open whose stream could not be constructed, and for nothing else |
| `Executor.BalancedOpensFirst` | crates/common/src/proxy/executor.rs:219-240 | in a balanced queue every Close has an Open of its key before it |
| `Executor.UnknownMeansAllFailed` | crates/common/src/proxy/executor.rs:92-241 | in a queue whose Closes follow Opens a Close is unknown if and only if there were earlier Opens of its key and none connected |
| `ConnectionState.RunSound` | crates/common/src/net/tls_server/conn_std.rs:118-261 | in every run `on_shutdown` runs at most once, exactly when closed; Closed is never queued on an open connection; the loop has returned only if closed |
| `ConnectionState.ReturnsAfterClosed` | crates/common/src/net/tls_server/conn_std.rs:118-168 | once closed, whatever is sent meanwhile, the loop returns after exactly the events ahead of Closed |
| `ConnectionState.ClosingIsReached` | crates/common/src/net/tls_server/conn_std.rs:131-161 | a queued Closing is handled in the same poll cycle, after exactly the events ahead of it, if the socket shuts down |
| `ConnectionState.RunConserves` | crates/common/src/net/tls_server/conn_std.rs:208-339 | in every run the payloads asked for are, as a multiset, those handled plus those queued, in order while none blocked |
| `ConnectionState.RunRequested` | crates/common/src/net/tls_server/conn_std.rs:118-206 | the payloads accounted for are those that senders, the visitor's replies to data and its ticks ask to write, in order |
| `ConnectionState.RunFailures` | crates/common/src/net/tls_server/conn_std.rs:208-233 | the payloads counted as failed are exactly the passes over a Write whose write fails |
| `ConnectionState.RunClosesFailures` | crates/common/src/net/tls_server/conn_std.rs:208-233 | in every run the Closings taken and queued are those callers, visitor, ends of stream and failed reads ask for plus exactly one for every write that fails |
| `ConnectionState.TakeDecides` | crates/common/src/net/tls_server/conn_std.rs:131-168 | for every queue and outcome, whether the pass goes on draining, returns, closes the connection or puts a blocked payload last |
| `ControlConnection.Connection.Send` | crates/common/src/net/tls_server/conn_std.rs:113-116 | an event sent by anyone is the machine's step |
| `ControlConnection.Connection.ReadAndTick` | crates/common/src/net/tls_server/conn_std.rs:118-206 | reading, the visitor's replies and the tick are the machine's step, with Closing queued on end of stream and on errors |
| `ControlConnection.Connection.HandleOther` | crates/common/src/net/tls_server/conn_std.rs:131-233 | a pass over a Write, a Closed or an empty queue is the machine's step; it ends the drain exactly when the machine leaves it |
| `ControlConnection.Connection.HandleClosing` | crates/common/src/net/tls_server/conn_std.rs:235-261 | the pass over a Closing is the machine's step and ends the user's sessions exactly when it counts a shutdown |
| `ControlConnection.Connection.DrainClosing` | crates/common/src/net/tls_server/conn_std.rs:118-168 | with a Closing queued the drain terminates, returned and closed, with one shutdown, for any writes and whatever other threads queue and call at the manager meanwhile |
| `ControlConnection.Connection.ServeQuit` | crates/gateway/src/client/controller.rs:318-331 | a `quit` makes the loop return in the same poll cycle with one `on_shutdown`, whose effect is the user's shutdown event among the calls of other threads; if no send is refused that step leaves the user no session in any service |
| `ControlConnection.NoSessionLeft` | crates/gateway/src/client/connection.rs:232-237 | a user's shutdown without refusals leaves no session of that user anywhere |
| `Streams.ReadTcpStream` | crates/common/src/net/stream_utils.rs:18-52 | the buffering loop equals the recursive reading of the call outcomes, in what it consumes and what it returns |
| `Streams.ReadReturnsConsumed` | crates/common/src/net/stream_utils.rs:18-52 | a successful read returns exactly what it consumed, a prefix of the stream; a read never fails with WouldBlock |
| `Streams.ReadsWholeBlocks` | crates/common/src/net/stream_utils.rs:18-52 | reading goes on over whole blocks and ends with the first call that got less, returning all it got, or failing with end of stream or another error as that call did |
| `Flows.JoinedSubsequence` | crates/common/src/proxy/proxy_tcp_and_tcp.rs:176-260 | transfers that each write a first part of what they read deliver an in-order part of it all |
| `Flows.NothingLostIff` | crates/common/src/proxy/proxy_tcp_and_tcp.rs:176-260 | everything is delivered if and only if no transfer is cut |
| `Flows.KeptLocates` | crates/common/src/proxy/proxy_tcp_and_tcp.rs:176-260 | every byte delivered is the byte at its kept position of those read, and kept positions increase |
| `Flows.KeptFirstIff` | crates/common/src/proxy/proxy_tcp_and_tcp.rs:176-260 | the kept positions are the first ones if and only if nothing is written after a cut transfer |
| `Flows.PrefixForAllBytesIff` | crates/common/src/proxy/proxy_tcp_and_tcp.rs:176-260 | transfers of these sizes deliver a prefix of what they read, whatever the bytes, if and only if nothing is written after a cut |
| `Flows.TransfersDeliver` | crates/common/src/proxy/proxy_tcp_and_tcp.rs:176-260 | all of this together, for any transfers |
| `Relay.CopyThread` | crates/common/src/proxy/proxy_tcp_and_tcp.rs:97-276 | the thread follows the turn function from its start, and emits one Closed on every way out and none before |
| `Relay.CopyReady` | crates/common/src/proxy/proxy_tcp_and_tcp.rs:176-260 | the loop over ready events, with its ways out, follows the event function |
| `Relay.EndsIff` | crates/common/src/proxy/proxy_tcp_and_tcp.rs:159-261 | the loop ends if and only if a turn disconnects, fails to poll or has an event whose read fails, whose write fails otherwise than by blocking or which cannot be registered again; its error is that of the first such turn, none for a disconnect or a side that has gone |
| `Relay.HandlesAll` | crates/common/src/proxy/proxy_tcp_and_tcp.rs:159-261 | until the loop ends every event that gets ready is handled |
| `Relay.TurnsJoin` | crates/common/src/proxy/proxy_tcp_and_tcp.rs:159-261 | each direction is the transfers of the events up to the one that ends the loop, one after the other |
| `Relay.TurnsInStep` | crates/common/src/proxy/proxy_tcp_and_tcp.rs:159-261 | without blocked writes what is written is a prefix of what was consumed, and all of it while the loop runs |
| `Relay.CopyIsFaithful` | crates/common/src/proxy/proxy_tcp_and_tcp.rs:97-276 | for the whole thread and each direction, over the events up to the one that ends it: written is an in-order part of consumed, all of it if and only if no transfer is cut, and the first of it for all bytes if and only if nothing is written after a cut; without blocked writes a prefix, all of it while running |
| `Relay.BlockedWriteLeavesGap` | crates/common/src/proxy/proxy_tcp_and_tcp.rs:186-188 | a run in which a blocked write is cut and a later one is not, so the first byte read is missing |
| `ChannelRelay.ChannelToTcp` | crates/common/src/proxy/proxy_channel_and_tcp.rs:91-137 | the thread follows the datagram function and emits one Closed exactly when it has ended |
| `ChannelRelay.DatagramsEndIff` | crates/common/src/proxy/proxy_channel_and_tcp.rs:95-128 | the loop ends if and only if it is told to, the senders are gone or a write fails otherwise than by blocking |
| `ChannelRelay.HandlesAllDatagrams` | crates/common/src/proxy/proxy_channel_and_tcp.rs:95-128 | until then every datagram is handled |
| `ChannelRelay.DatagramsFaithful` | crates/common/src/proxy/proxy_channel_and_tcp.rs:91-137 | what reaches the gateway is an in-order part of the peer's datagrams, all of them if and only if no write is cut, the first of them for all bytes if and only if nothing is written after a cut, which holds if no write would block |
| `ChannelRelay.TcpToChannel` | crates/common/src/proxy/proxy_channel_and_tcp.rs:153-259 | the thread follows the reply function and emits one Closed exactly when it has ended, a failed set-up included |
| `ChannelRelay.RepliesEndIff` | crates/common/src/proxy/proxy_channel_and_tcp.rs:189-250 | the loop ends if and only if it is told to, polling fails, a read fails, a reply cannot be sent or the stream cannot be registered again |
| `ChannelRelay.RepliesSent` | crates/common/src/proxy/proxy_channel_and_tcp.rs:206-227 | by then one reply has been sent for each event up to there that read data and could send it |
| `ChannelRelay.ReplyTurnsOk` | crates/common/src/proxy/proxy_channel_and_tcp.rs:206-227 | replies all carry the one key and peer address, are never empty, and are together a prefix of what the stream gave |
| `UdpDemux.Channels.KeyOfInjective` | crates/client/src/service/proxy/udp_proxy.rs:146-150 | two peers never share a key |
| `UdpDemux.Channels.KeysOfVisitorsDiffer` | crates/client/src/service/proxy/udp_proxy.rs:146-150 | visitors that listen on different addresses never share a key |
| `UdpDemux.Channels.OpenedSeparate` | crates/client/src/service/proxy/udp_proxy.rs:212-219 | opening a peer's channel keeps channels separate and changes nothing delivered |
| `UdpDemux.Channels.SentSeparate` | crates/client/src/service/proxy/udp_proxy.rs:224-241 | sending a datagram adds it to its own peer's channel and to no other |
| `UdpDemux.UdpVisitor.OpenChannel` | crates/client/src/service/proxy/udp_proxy.rs:154-220 | a new peer gets one Open and one channel, unless the gateway is out of reach or the Open is refused, and then nothing changes |
| `UdpDemux.UdpVisitor.OnMessageReceived` | crates/client/src/service/proxy/udp_proxy.rs:140-243 | a known peer is never opened again; the datagram is delivered to its peer, at the end and nowhere else, exactly when the call returns Ok |
| `UdpDemux.UdpVisitor.ShutdownConnections` | crates/client/src/service/proxy/udp_proxy.rs:271-296 | Closes are sent for keys held, all of them exactly on success; all keys leave the index, the visitor forgets them only on success; channels and opened keys stay |
| `UdpDemux.UdpVisitor.RemoveProxyForKey` | crates/client/src/service/proxy/udp_proxy.rs:298-313 | a held key leaves the key set and the index, any other changes nothing; channels stay, so the key is not opened again |
| `UdpDemux.UdpVisitor.Serve` | crates/client/src/service/proxy/udp_proxy.rs:140-313 | over a visitor's whole life no key is opened twice, and if all calls return Ok, which they do when the gateway is reached, readers listen and no task is refused, each peer's channel gets exactly that peer's datagrams in arrival order |
| `UdpDemux.UdpVisitor.RepliesReachSender` | crates/common/src/proxy/proxy_channel_and_tcp.rs:206-227 | replies relayed for a key carry the address of the peer whose datagrams its channel holds |
| `ClientState.StaysExactIff` | crates/client/src/service/proxy/tcp_proxy.rs:174-253 | an event keeps index and visitors in exact agreement if and only if a new key is held nowhere else and no Close fails to be sent |
| `ClientState.ClosedRemoves` | crates/client/src/service/manager.rs:116-147 | a closed proxy's key leaves the index and the service it is indexed under, and nothing else changes |
| `ClientState.OpenedAndShutDown` | crates/client/src/service/proxy/tcp_proxy.rs:174-236 | an opened key is held and indexed; a shutdown leaves keys only with services whose Closes failed |
| `ClientState.RunInside` | crates/client/src/service/manager.rs:116-300 | in every run each index entry is a key its service's visitor holds, with equality while every Close could be sent and new keys are held nowhere else |
| `ClientState.RunIndexIff` | crates/client/src/service/proxy/tcp_proxy.rs:174-253 | in every run a key a visitor holds is in the index under it if and only if the last Open of the key was by that service and no shutdown came after |
| `ClientState.RunAccounted` | crates/client/src/service/proxy/tcp_proxy.rs:165-236 | in every run every prefix of the client's queue has at least as many Opens of a key as Closes, every key held was opened, and while sends succeed each holder of a key has an Open not yet closed |
| `ClientState.UnknownOnlyAfterFailedOpens` | crates/common/src/proxy/executor.rs:219-240 | in every run of the client the unknown-key branch is reached only for keys with earlier Opens, all of which failed |
| `ClientState.FailedCloseStrandsKeys` | crates/client/src/service/proxy/tcp_proxy.rs:211-236 | a run in which the executor goes away between two Closes: the visitor keeps both keys and the index has neither |
| `ClientManager.ClientVisitor.OnConnAccepted` | crates/client/src/service/proxy/tcp_proxy.rs:165-180 | the key is recorded in both places exactly when its Open was sent |
| `ClientManager.ClientVisitor.ShutdownConnections` | crates/client/src/service/proxy/tcp_proxy.rs:211-236 | every key is closed or refused, once; all leave the index, but the visitor forgets them only if none was refused |
| `ClientManager.ClientVisitor.RemoveProxyForKey` | crates/client/src/service/proxy/tcp_proxy.rs:238-253 | a held key leaves both places, any other changes nothing |
| `ClientManager.ClientServiceMgr.Startup` | crates/client/src/service/manager.rs:174-271 | a started service keeps its endpoint; an error, possible only for a new UDP service, leaves every map unchanged |
| `ClientManager.ClientServiceMgr.OnConnAccepted` | crates/client/src/service/proxy/tcp_proxy.rs:104-183 | the client afterwards is the opened event's effect, or unchanged |
| `ClientManager.ClientServiceMgr.ProcessClosed` | crates/client/src/service/manager.rs:116-147 | the client afterwards is the closed-proxy event's effect, unknown keys included |
| `ClientManager.ClientServiceMgr.Shutdown` | crates/client/src/service/manager.rs:273-300 | over all visitors in any order the client afterwards is the shutdown event's effect, the index is empty, and all visitors are told to stop |
| `Repositories.UserRepo.Put` | crates/gateway/src/repository/user_repo/in_memory_repo.rs:56-59 | records stay keyed by their own id; the previous record is returned |
| `Repositories.UserRepo.Get` | crates/gateway/src/repository/user_repo/in_memory_repo.rs:61-64 | a record found under an id has that id |
| `Repositories.UserRepo.Load` | crates/gateway/src/repository/user_repo/in_memory_repo.rs:35-54 | a load leaves under each id the last record of the file with that id, else what was there |
| `Repositories.AccessRepo.Put` | crates/gateway/src/repository/access_repo/in_memory_repo.rs:62-65 | records stay keyed by their own user and service |
| `Repositories.AccessRepo.Get` | crates/gateway/src/repository/access_repo/in_memory_repo.rs:67-70 | a record found for a user and a service is of that user and that service |
| `Repositories.AccessRepo.GetAllForUser` | crates/gateway/src/repository/access_repo/in_memory_repo.rs:72-80 | the user's records, each once, and no others |
| `Authorization.AuthorizedIff` | crates/gateway/src/client/connection.rs:58-159 | a service connection is authorized for a user if and only if the user is known and active, the ALPN name is the service's and access is granted (and the stores can be read); the id handed on is the id checked |
| `Authorization.ControlAuthorizedIff` | crates/gateway/src/client/connection.rs:58-159 | a control-plane connection is authorized if and only if the user is known and active and the ALPN name parses, to that protocol |
| `Authorization.UnidentifiedIff` | crates/gateway/src/client/connection.rs:64-112 | which attempts are refused before the ALPN name is looked at, and with which error each |
| `Authorization.RefusedIff` | crates/gateway/src/client/connection.rs:114-157 | which attempts of known active users are refused, and with which error each |
| `Authorization.ClientConnVisitor.ProcessAuthorization` | crates/gateway/src/client/connection.rs:58-159 | the chain of checks decides as the authorization function, and remembers a user exactly on success |
| `ControlPlane.ByNameFindsIff` | crates/gateway/src/client/controller.rs:355-375 | a service's name leads to it if and only if no later service of the snapshot has that name |
| `ControlPlane.StartVerdictIff` | crates/gateway/src/client/controller.rs:217-240 | `start` is not found if and only if no service has the name; else it is about the last service that has, permitted with access to it and forbidden without |
| `ControlPlane.AlwaysAgreeIff` | crates/gateway/src/client/controller.rs:186-240 | whatever a user has access to, a service is listed exactly when starting it by name passes both checks, if and only if its name leads to it |
| `ControlPlane.ListedIffStartable` | README.md:214 | listing and starting agree on the whole snapshot for every user if and only if service names are unique |
| `ControlPlane.StartIsAboutListed` | crates/gateway/src/client/controller.rs:217-240 | with unique names the service that `start` permits is the very one listed |
| `ControlPlane.ControlPlane.Services` | crates/gateway/src/client/controller.rs:186-208 | shows exactly the services listed for the user, each id once, in response form, masked as configured |
| `ControlPlane.ControlPlane.Start` | crates/gateway/src/client/controller.rs:211-269 | a denial is the verdict of the two checks and changes nothing; a permitted start, after whatever other threads do before it reaches the manager, has the started event's effect and answers with the service's port, failing if and only if no port is left |
| `ControlPlane.ControlPlane.Stop` | crates/gateway/src/client/controller.rs:272-315 | refuses unknown names and services without a pair for the user, without effect; else, after whatever other threads do between its two uses of the manager, it has the shutdown event's effect, and success means no session of the user with that service is left |
| `Ports.StartAllInOrder` | crates/gateway/src/service/manager.rs:157-181 | any sequence of starts gives out the first ports of the range, in range and distinct, counted by the next port |
| `Ports.StartedKeepsPort` | crates/gateway/src/service/manager.rs:157-166 | a started service keeps its first port whatever is started later |
| `Ports.ExhaustionIff` | crates/gateway/src/service/manager.rs:168-181 | one more service can start if and only if fewer than end - start + 1 have |
| `Ports.DistinctPortsIff` | crates/gateway/src/service/manager.rs:168-181 | services never share a port if and only if the range ends below 65535 |
| `Ports.InRangeIff` | crates/gateway/src/service/manager.rs:168-181 | ports stay within the range if and only if it ends below 65535 or starts at 0 |
| `Ports.FullRangeGoesRound` | crates/gateway/src/service/manager.rs:168-181 | with 65535 as the last port the ports go round, for any number of services |
| `Alpn.ParsePrintRoundTrips` | crates/common/src/crypto/alpn.rs:18-50 | parsing a printed protocol returns it, for the control plane and every 64-bit service id |
| `Alpn.PrintInjective` | crates/common/src/crypto/alpn.rs:36-50 | different protocols have different names |
| `Alpn.PrintFitsProtocolName` | crates/common/src/crypto/alpn.rs:36-50 | names are 4 to 25 ASCII characters, within the bound of section 3.1 of RFC 7301 |
| `Alpn.ParsedServiceIff` | crates/common/src/crypto/alpn.rs:18-33 | a name selects a service if and only if it is the prefix followed by ASCII digits of the service's id |
| `Alpn.ParsedControlPlaneIff` | crates/common/src/crypto/alpn.rs:18-21 | a name selects the control plane if and only if it is `T0CP` |
| `Alpn.ParsePanicsIff` | crates/common/src/crypto/alpn.rs:23-30 | parsing panics if and only if the name matches but its digits are not all ASCII or exceed 64 bits |
| `Alpn.OtherDigitPanics` | crates/common/src/crypto/alpn.rs:23-30 | a name with a digit of another script panics |
| `ProxyKeys.KeyValueInjective` | crates/common/src/proxy/event.rs:12-32 | two keys are equal if and only if type and both optional addresses are |
| `ProxyKeys.KeysLookLike` | crates/common/src/proxy/event.rs:12-32 | a key is the type's letters, then the client's and the server's address in quotes |
| `ServiceAddress.RoundTripIff` | crates/common/src/control/response.rs:279-308 | id, name and transport always survive; the round trip is the identity if and only if the host is non-empty without a colon, or empty with port 0 |
| `ServiceAddress.AddressRead` | crates/common/src/control/response.rs:279-308 | an address with exactly one colon is read as host and port, any other as no host and port 0 |
| `ServiceAddress.ColonLosesAddress` | crates/common/src/control/response.rs:279-308 | a host with a colon comes back as the same service without host and port |
| `ServiceAddress.MaskedHidesAddress` | crates/gateway/src/client/controller.rs:334-344 | a masked service shows no address and comes back as the same service without one |

## Left out

- rustls, mio, sockets, name resolution and thread spawning: their results are inputs (data, would block, end of stream, error), and any of them may occur.
- X.509, ASN.1 and PEM handling, the CRL file, command-line parsing, JSON, console, logging and configuration: library and I/O plumbing; the certificate's user id and the parsed request are inputs.
- crates/common/src/net/tcp_server/conn_std.rs and crates/common/src/net/tls_client/conn_std.rs: the same event loop as the one modelled.
- crates/common/src/proxy/proxy_tcp_and_udp.rs: the same loop shape as the TCP relay with datagram writes.
- The `about`, `connections`, `proxies` and `ping` commands and the listener flags: they would only add easy members.
- The network assumption of `GatewayState.Enabled` is not derived from the operating system: that a new connection's address pair and key do not belong to a registered session is an assumption. Where sockets cannot name their ends, the "(NA)" and "_addr_NA" placeholders make equal pairs and keys possible.
- Each mutex-protected method is one step, and so is the manager's shutdown. The gateway's `on_conn_accepted` sends its Open before it makes the index entry and does not hold the manager's lock, so a Closed for the key can arrive in between; it finds no entry and is dropped, which in the model is a Closed before the registration. That the session then stays until a shutdown is not prevented by the code.
- The client's lookup of a closed key's service and the removal that follows, two lock acquisitions, are one step. Poisoned locks are modelled only where a store is read for authorization.
- `poll_connection` has no bound on its cycles and is modelled as runs of steps; only its closing part is a Dafny loop. The copy threads are given the turns that take place.
- Writes to a connection are delivered, failed or blocked as whole payloads; the bytes a TLS session may already hold when it would block are not modelled.
- Ports.Bump: models the 16-bit counter as wrapping, as optimized builds do; debug builds panic at the same point.
- Alpn.Parse: takes the protocol name as text, after the lossy decoding of its bytes, which is not modelled.
- The TCP and UDP visitors of the gateway are one class, told apart by the service's transport; so is the key bookkeeping of the client's TCP and UDP visitors.
- Liveness of the blocking channel receive, lossless relaying when writes block, and delivery of the reply to `quit` are not claimed: the code does not promise them.
