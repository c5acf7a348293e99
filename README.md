# WireGuard receive path, peer timers and peer registry — a Dafny model

This project models three pieces of the WireGuard Linux kernel module:

- **The receive pipeline** (`src/receive.c`). This covers:
  - framing checks on an inbound UDP datagram;
  - the bounded handshake backlog, and the burst-limited worker that drains it;
  - the load-dependent cookie rule;
  - the handshake handler;
  - the post-decryption admission of data packets.
- **The per-peer timer state machine** (`src/timers.c`). There are four timers per peer. Each is `Disabled`, `Idle` or `Pending(deadline)`. The machine also keeps a handshake-attempt counter, a need-another-keepalive flag and whether the key-clearing work is queued.
- **The peer registry** (`src/peer.c`). This covers:
  - a device's peer list, with its capacity limit and a global id counter;
  - get-unless-zero and put reference counting;
  - removal, and removal of every peer;
  - the for-each walk that skips dying peers;
  - the count of peers.

`enum cookie_mac_state` (`src/cookie.h`) becomes the datatype `Cookie.CookieMacState`.

Files:

- `messages.dfy`: the datagram, the message kinds, header sizes and limits. It also holds `Effect`, the record of each call into code outside the model.
- `cookie.dfy`: the MAC-check outcome.
- `wg.dfy`: the `Peer` and `Device` classes and the `Timer` datatype.
- `peer.dfy`: the peer registry.
- `timers.dfy`: the timers.
- `receive.dfy`: the receive pipeline.

How the model is built:

- **Classes.** Peers and devices are updated in place, so they are classes.
- **Effect traces.** The receive methods other than `RxStatsUpdate`, and the timer handlers that call out of the model (`ExpiredRetransmitHandshake`, `ExpiredSendKeepalive`, `ExpiredNewHandshake`, `QueuedExpiredKillEphemerals`), return the sequence of collaborator calls they made: sends, frees, deliveries, the `peer_put` of the reference the decryption or handshake step held, and the timer notifications the receive path raises. Each contract equates that sequence with a pure function, and lemmas state exactly-once accounting over that function. The timer notifications themselves (`timers_*`), `ExpiredKillEphemerals` and the peer registry return no trace: their contracts state the new peer and device state instead. The get and put of the routing lookup in `receive_data_packet` are not in the trace either; `Receive.ProcessPlaintext` states that they leave the reference count unchanged.
- **Limits.** `MAX_QUEUED_HANDSHAKES`, `MAX_BURST_HANDSHAKES`, `MAX_PEERS_PER_DEVICE`, `HZ`, `REKEY_TIMEOUT` and `REJECT_AFTER_TIME` are defined in headers outside the model. They are declared as arbitrary positive constants, so every proof holds for any positive value.
- **Header sizes** follow the protocols: IPv4 20 bytes (RFC 791), IPv6 40 bytes (RFC 8200), UDP 8 bytes (RFC 768), and a 4-byte message header.

Points where the code's behaviour is not what a name in it suggests; the model follows the code:

- **Backlog bound.** `packet_receive` refuses a handshake only when the backlog holds *more than* `MAX_QUEUED_HANDSHAKES` entries (`src/receive.c:278`). So the backlog can reach `MAX_QUEUED_HANDSHAKES + 1`, one more than the constant's name suggests. `Receive.BacklogAfterValid` proves the bound of N + 1 and shows that N + 1 is reached.
- **MAC check outcomes.** Besides invalid, valid without cookie and valid with cookie, `enum cookie_mac_state` (`src/cookie.h:38-43`) has a fourth member: a valid cookie that is rate-limited. The handler drops that case always, under any load.
- **Valid cookie without load.** The handler proceeds on a valid MAC with cookie only when under load (`src/receive.c:98-105`); a valid MAC with cookie while not under load falls through to the drop. `Receive.CookieDecisionDrops` proves this. The MAC check itself receives the load flag (`src/receive.c:96-97`), so whether it can ever report a valid cookie while not under load depends on that collaborator, which is not part of this model; the model lets it answer freely.
- **Endpoint update on an initiation.** An accepted initiation updates the peer's endpoint twice: once before answering and once in the final accounting. The trace records both as `SetAddr`.

## Model

| member | source | states |
|---|---|---|
| Receive.DataOffset | src/receive.c:41-68 | The datagram is rejected exactly when one of the seven framing conditions holds. These are: shorter than an IPv4 header; version neither 4 nor 6; IPv6 but shorter than an IPv6 header; the UDP header passes the end; UDP length below 8; UDP length beyond the bytes after the UDP header's offset; message header not pullable. Otherwise the payload starts right after the UDP header, its length is the UDP length minus 8, and payload and message header both lie inside the datagram. |
| Receive.CookieDecision | src/receive.c:96-105 | Proceed iff (under load and valid MAC with cookie) or (not under load and valid MAC without cookie). Send a cookie iff under load and valid MAC without cookie. Every other combination drops. |
| Receive.CookieDecisionDrops | src/receive.c:98-105 | An invalid or rate-limited MAC always drops, whatever the load. A valid cookie without load also drops. |
| Receive.HandshakeAccounting | src/receive.c:114-152 | A handshake that passes the cookie rule and yields a peer gets exactly one `rx_stats`, one authorized-packet notification and one `peer_put` for that peer. A cookie reply, a dropped message, a cookie-challenged message or a rejected consume gets none of them. |
| Receive.HandshakeKindEffects | src/receive.c:107-140 | An accepted initiation sends a response, and never flushes the queue, creates an ephemeral key or completes a handshake. An accepted response sends no response. It fires `timers_ephemeral_key_created`, `timers_handshake_complete` and `packet_send_queue` iff the session begins. |
| Receive.HandshakeRx | src/receive.c:149 | A handshake reaches `rx_stats` exactly once, for the payload length, when it goes through; otherwise never. |
| Receive.HandshakeEffectsFreeNothing | src/receive.c:73-153 | The handshake handler never frees the datagram and never schedules the worker; the caller does both. |
| Receive.RxStatsUpdate | src/receive.c:13-22 | Device received bytes and packets grow by the length and by one; the peer's received bytes grow by the length. |
| Receive.ReceiveHandshakePacket | src/receive.c:73-153 | The handler's calls equal `HandshakeEffects` for the cookie decision at the current backlog length. It holds a peer iff the message is not a cookie reply, the decision is proceed and the matched peer is live. The peer's reference count ends where it started. When no peer was held, device and peer are untouched. Otherwise: stats grow by the length; the endpoint becomes the datagram's source; the new-handshake timer is stopped. A response that begins a session also re-arms the ephemeral-key timer, records the wall time, stops retransmission and resets the attempt count. |
| Receive.BacklogAfterValid | src/receive.c:278-288 | Receiving keeps the backlog at most `MAX_QUEUED_HANDSHAKES + 1` long, holding only handshake-kind datagrams that frame correctly. A backlog of exactly `MAX_QUEUED_HANDSHAKES` entries still accepts one more. |
| Receive.PacketReceive | src/receive.c:262-301 | The backlog becomes `BacklogAfter`: a handshake-kind datagram that frames correctly is appended at the tail, linearized, when the backlog holds at most `MAX_QUEUED_HANDSHAKES` and linearizing succeeds. A framing failure or unknown kind is freed. A data datagram goes to decryption and is not queued. A handshake datagram is either queued, with the worker scheduled, or freed with the backlog unchanged. |
| Receive.HandleDequeued | src/receive.c:163-164 | A dequeued datagram that no longer frames is left alone: no calls, no counter or peer changes. One that frames gets exactly the calls of `receive_handshake_packet`, with the cookie decision taken at the backlog length left after the dequeue and the peer acquired iff the matched peer was live. The device's packet and byte counters grow by the `rx_stats` calls in that trace. Only the matched peer may change, and only in the fields the handler writes. Its reference count ends as it was. When the handshake goes through, its stats grow by the payload length, its endpoint becomes the source, and its new-handshake timer stops. A response that begins a session also re-arms the ephemeral-key timer, records the wall time, stops retransmission and resets the attempt count; otherwise those four fields are unchanged. When it does not go through, the peer is untouched. |
| Receive.WorkerFrees | src/receive.c:162-165 | Over any prefix of the backlog, the worker's calls free exactly the datagrams it took, once each, in order, and never reschedule the worker. |
| Receive.HandleBurst | src/receive.c:162-170 | The loop takes min(backlog length, `MAX_BURST_HANDSHAKES`) datagrams from the head. The backlog becomes the rest. Its calls equal `WorkerEffects` of the taken prefix: for each datagram in order, the handler's calls at the backlog length left after its dequeue, then its free. The device's packet and byte counters grow by the `rx_stats` calls in those calls. Peers change only in the fields the handshake handler writes, and reference counts are unchanged. |
| Receive.ProcessQueuedHandshakePackets | src/receive.c:155-171 | Let n = min(backlog length, `MAX_BURST_HANDSHAKES`). The backlog loses exactly its first n entries, in FIFO order. The calls are `WorkerEffects` of those n entries, each handled as `HandleDequeued` states, followed by one worker reschedule when n is the burst limit. Exactly those n datagrams are freed, once each, in order, whether or not they framed or were accepted. The worker is rescheduled iff n reached the burst limit, even if the backlog is now empty. The device's packet and byte counters grow by exactly the `rx_stats` calls made. Peers change only in the fields the handshake handler writes, and their reference counts are unchanged. A valid backlog stays valid. |
| Receive.CheckPlaintext | src/receive.c:190-227 | A decrypted packet is a keepalive iff it is empty. It is well-formed iff it holds a whole IPv4 or IPv6 header of its version and its first byte can be pulled. |
| Receive.DataPacketAccounting | src/receive.c:179-259 | For a packet from a known peer and address, exactly one of free or delivery happens. There is exactly one put of the reference the decryption step held, one authorized-packet notification and one endpoint update for the peer. |
| Receive.DataPacketDelivery | src/receive.c:187-251 | The packet is delivered iff well-formed and the routing lookup of its source yields the decrypting peer. It is handed over as IPv4 (`ETH_P_IP`) iff its version is 4 and as IPv6 (`ETH_P_IPV6`) iff its version is 6. The timers hear of data iff it is well-formed. Bytes are counted iff it is delivered and the stack accepts it. |
| Receive.ProcessPlaintext | src/receive.c:190-251 | The calls equal `PlaintextEffects`. Length errors and total errors grow by one for a malformed packet. Frame errors and total errors grow by one for a well-formed packet whose routing lookup yields anything but the sender, including `NULL` for a dying match. Drops grow by one when the stack refuses. Received stats grow by the length when it accepts. The last-received time is set on delivery. The routing lookup's reference is returned. The keepalive timer reacts only to well-formed packets. |
| Receive.ReceiveDataPacket | src/receive.c:173-260 | A decryption error, a missing peer or a missing address only frees the packet and changes nothing. Otherwise: the calls equal `DataPacketEffects`, with `packet_send_queue` first when a new key was used; the counters and keepalive timer change as `ProcessPlaintext` states; the peer's endpoint becomes the address; its new-handshake timer stops; it loses exactly one reference, and a different routed peer none. No liveness of the routed peer is demanded: a dying match is a frame error. |
| Timers.ExpiredRetransmitHandshake | src/timers.c:20-34 | Past `MAX_TIMER_HANDSHAKES` attempts it sends nothing: it stops the keepalive timer, empties the transmit queue and keeps the count. Otherwise it sends one initiation and counts it. |
| Timers.ExpiredSendKeepalive | src/timers.c:36-46 | It always sends one keepalive. If another was requested, it clears the request and re-arms at now + `KEEPALIVE`; otherwise the timer stays idle. |
| Timers.ExpiredNewHandshake | src/timers.c:48-54 | It sends one initiation. |
| Timers.ExpiredKillEphemerals | src/timers.c:56-68 | A dying peer is left alone. If the clearing work is already queued, the reference just taken is returned, so the count is unchanged. Otherwise the work is queued holding one more reference. |
| Timers.QueuedExpiredKillEphemerals | src/timers.c:69-77 | The work clears the keys and returns the reference taken for it; it reports release iff that was the last. |
| Timers.TimersDataSent | src/timers.c:79-86 | Stops the keepalive timer. Arms the new-handshake timer at now + `KEEPALIVE` + `REKEY_TIMEOUT` only when it is idle, so a pending deadline never moves. |
| Timers.TimersDataReceived | src/timers.c:88-94 | Arms the keepalive timer when it is idle. Otherwise it leaves the timer and asks for another keepalive. |
| Timers.TimersAnyAuthorizedPacketReceived | src/timers.c:96-100 | Stops the new-handshake timer and nothing else. |
| Timers.TimersHandshakeInitiated | src/timers.c:102-108 | Stops the keepalive timer. Re-arms retransmission at now + `REKEY_TIMEOUT` unless it is disabled. |
| Timers.TimersHandshakeComplete | src/timers.c:110-115 | Stops retransmission and resets the attempt count to zero. |
| Timers.TimersEphemeralKeyCreated | src/timers.c:117-122 | Re-arms the key-zeroing timer at now + 3·`REJECT_AFTER_TIME` unless it is disabled. Records the wall time. |
| Timers.TimersInitPeer | src/timers.c:124-143 | Every timer is initialised and idle, and the clearing work is not queued. |
| Timers.TimersUninitPeer | src/timers.c:145-163 | Every timer is disabled. |
| Timers.NotificationsAfterUninit | src/timers.c:79-122 | On a peer whose timers are disabled, the six notifications run in turn leave them all disabled. The claim for every order rests on each notification's own ensures, which maps `Disabled` to `Disabled`. |
| Wg.Del | src/timers.c:81-82 | `del_timer` leaves nothing pending and never enables or disables a timer. An idle or disabled timer is unchanged. |
| Wg.PeerCounter.constructor | src/peer.c:14 | The global id counter starts at zero. |
| Wg.Peer.constructor | src/peer.c:24-36 | A zeroed peer holding one reference, with every timer disabled and an empty transmit queue. |
| Peers.IdsIncreasingDistinct | src/peer.c:14-28 | Since ids increase along the list, no two listed peers are the same peer. |
| Peers.Without | src/peer.c:63 | `list_del` removes the peer and keeps every other entry. It changes nothing when the peer is absent. |
| Peers.WithoutKeepsOrder | src/peer.c:63 | Unlinking keeps the list ordered by id. |
| Peers.PeerTotalCount | src/peer.c:136-144 | The count equals the length of the peer list. |
| Peers.PeerCreate | src/peer.c:16-41 | Returns null, leaving list and counter alone, iff the list already holds `MAX_PEERS_PER_DEVICE` peers or allocation fails. Otherwise: a fresh peer is appended at the tail, holding one reference, with every timer disabled; its id is one more than the last id handed out; the list stays ordered by increasing, hence distinct, ids. |
| Peers.PeerGet | src/peer.c:43-55 | Null for a null or dying peer, with nothing changed. Otherwise the same peer, with one more reference. |
| Peers.PeerPut | src/peer.c:92-97 | Does nothing for null. Otherwise drops one reference and reports release iff it was the last. |
| Peers.PeerRemove | src/peer.c:57-72 | Does nothing for null. Otherwise: unlinks the peer, keeping the others in order; empties its transmit queue; drops exactly one reference. |
| Peers.PeerRemoveAll | src/peer.c:128-134 | The list ends empty. Every peer that was listed lost exactly one reference and has an empty transmit queue. |
| Peers.PeerForEachUnlocked | src/peer.c:99-117 | Returns `ForEachResult` of the list. Every reference taken is given back. |
| Peers.ForEachStopsAtFirstError | src/peer.c:105-116 | The walk returns a negative value iff some live peer's callback fails. That value comes from the first live peer whose callback fails. |
| Peers.ForEachReturnsLastResult | src/peer.c:102-116 | With no failing callback, the walk returns the last live peer's result, or its starting value 0 when no peer is live. |

## Left out

- Logging, and the debug-only extraction of source addresses, are not modelled; they are diagnostics.
- Per-CPU statistics and their sequence counters are plain counters. The counters are unbounded, so 64-bit wrap-around is not modelled.
- `peer_total_count` returns an `unsigned int`; the model uses an unbounded count.
- Concurrency is not modelled: the RCU read lock, `lockdep` assertions, mutexes, and concurrent timer firing.
- Receive.BacklogAfterValid: the bound of `MAX_QUEUED_HANDSHAKES + 1` holds for receives that run one after another. `packet_receive` can run on several CPUs at once, and its length test and append (`src/receive.c:278-286`) are not one atomic step, so concurrent receives can overshoot it.
- The workqueue is not modelled. Scheduling the handshake worker is an effect. The key-clearing work is a per-peer "queued" flag, and `queue_work` failing means "already queued".
- Peers.PeerPut: reports the moment of release but does not model the deferred free (`kref_release`, `call_rcu`, `rcu_release`). It therefore leaves out that path's `timers_uninit_peer`, transmit-queue purge and memory wipe.
- Crypto and external subsystems are parameters of the model:
  - the MAC and cookie checks;
  - the Noise consume and begin-session steps;
  - the key-clearing calls;
  - decryption (`packet_consume_data`);
  - the routing lookup;
  - `netif_rx`;
  - the peer hashtable.
  Each of their answers is a parameter. Only some of the calls are recorded as an `Effect`: handing a datagram to decryption (`ConsumeData`), `cookie_message_consume` (`ConsumeCookie`), the key-clearing work (`ClearKeys`), `netif_rx` (`Deliver`) and the sends. The MAC check, the Noise consume and begin-session steps, the routing lookup and the hashtable are not in the trace.
- Peers.PeerRemove: does not model the Noise key clearing, the routing-table and hashtable removals, or the workqueue flush.
- `skb` memory operations are not modelled byte by byte:
  - `pskb_may_pull` is the `MayPull` predicate over an explicit linear-area length and a pull-success flag;
  - linearizing is a success flag;
  - the IP and UDP headers are explicit fields of the datagram;
  - classification by `message_determine_type` is a field.
- Real time and wall time are parameters `now` and `walltime`. `mod_timer` and `del_timer` are transitions of the `Timer` datatype, and a timer's handler runs only when that timer is pending.
- Receive.ReceiveHandshakePacket: assumes the source address of a framed datagram can always be extracted, so the endpoint update always happens.
- Receive.ProcessQueuedHandshakePackets: the collaborators' answers for each datagram are a function of its id. `peers` must contain every peer those answers can name.
- Receive.ProcessPlaintext: of the three fields set on the packet before `netif_rx` (`src/receive.c:210-221`), only `skb->protocol` is modelled, as the protocol carried by the delivery effect. `skb->dev` and `skb->ip_summed = CHECKSUM_UNNECESSARY` are not modelled.
- Receive.ProcessQueuedHandshakePackets: each handled entry's changes to the matched peer (stats, endpoint, timers) are stated per entry by `Receive.HandleDequeued` and are not composed over the burst. The burst's contract states the device counters and the trace, and confines peer changes to the fields the handler writes.
- Receive.ProcessPlaintext: the routing lookup's `peer_get` and `peer_put` (`src/receive.c:231-232`) are not recorded in the returned trace; the contract states only that they leave the matched peer's reference count unchanged.
- Peers.PeerForEachUnlocked: the callback is a pure function of the peer. Its opaque context argument and its side effects on the peer are not modelled.
- `peer_for_each` is not modelled: it only takes the device mutex around `peer_for_each_unlocked`.
- `timers_uninit_peer_wait` is not modelled: it adds a workqueue flush to `timers_uninit_peer`.
- `MAX_TIMER_HANDSHAKES` is `(90 · HZ) / REKEY_TIMEOUT`, using the source's integer division on positive values.
