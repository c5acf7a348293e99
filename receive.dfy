/** The receive pipeline (receive.c): framing of an inbound UDP datagram,
    the bounded handshake backlog and its burst-limited worker, the
    load-dependent cookie rule, the handshake handler, and the admission of
    a decrypted data packet. Cryptography, decryption, routing lookups and
    the kernel's packet delivery are collaborators: their answers arrive as
    parameters, and the calls made to them are returned as an `Effect` trace. */
module Receive {
  import opened Messages
  import opened Cookie
  import opened Wg
  import Peers
  import Timers

  // ---------------------------------------------------------------- framing

  /** Where the message starts in the datagram and how long it is. */
  datatype Payload = Payload(offset: nat, len: nat)

  /** `skb_data_offset`: rejects a datagram too short for its IP header, of
      an unknown IP version, whose UDP header or declared UDP length does not
      fit, or whose message header cannot be pulled; otherwise the payload
      follows the UDP header and lies inside the datagram. */
  function DataOffset(skb: Skb): (r: Option<Payload>)
    ensures r.None? <==>
      || skb.len < IpV4HeaderLen
      || (skb.version != 4 && skb.version != 6)
      || (skb.version == 6 && skb.len < IpV6HeaderLen)
      || skb.udpOffset + UdpHeaderLen > skb.len
      || skb.udpLen < UdpHeaderLen
      || skb.udpLen > skb.len - skb.udpOffset
      || !MayPull(skb, skb.udpOffset + UdpHeaderLen + MessageHeaderLen)
    ensures r.Some? ==>
      && r.value.offset == skb.udpOffset + UdpHeaderLen
      && r.value.len == skb.udpLen - UdpHeaderLen
      && r.value.offset + r.value.len <= skb.len
      && r.value.offset + MessageHeaderLen <= skb.len
  {
    if skb.len < IpV4HeaderLen then None
    else if skb.version != 4 && skb.version != 6 then None
    else if skb.version == 6 && skb.len < IpV6HeaderLen then None
    else if skb.udpOffset + UdpHeaderLen > skb.len then None
    else if skb.udpLen < UdpHeaderLen then None
    else if skb.udpLen > skb.len - skb.udpOffset then None
    else if !MayPull(skb, skb.udpOffset + UdpHeaderLen + MessageHeaderLen) then None
    else Some(Payload(skb.udpOffset + UdpHeaderLen, skb.udpLen - UdpHeaderLen))
  }

  // ------------------------------------------------------- the cookie rule

  datatype MacVerdict = Proceed | NeedsCookie | Drop

  /** The device is under load when the backlog is at least half full. */
  predicate UnderLoad(backlog: nat) {
    backlog >= MaxQueuedHandshakes / 2
  }

  /** The decision of `receive_handshake_packet` on a MAC check's outcome:
      proceed on a valid MAC with the cookie the load calls for, ask for a
      cookie when loaded and none came, drop everything else. */
  function CookieDecision(underLoad: bool, mac: CookieMacState): (d: MacVerdict)
    ensures d == Proceed <==>
      (underLoad && mac == ValidMacWithCookie) || (!underLoad && mac == ValidMacButNoCookie)
    ensures d == NeedsCookie <==> underLoad && mac == ValidMacButNoCookie
  {
    if (underLoad && mac == ValidMacWithCookie) || (!underLoad && mac == ValidMacButNoCookie) then Proceed
    else if underLoad && mac == ValidMacButNoCookie then NeedsCookie
    else Drop
  }

  /** An invalid or rate-limited MAC is never acted on, whatever the load,
      and without load a valid cookie does not make a message acceptable. */
  lemma CookieDecisionDrops(underLoad: bool, mac: CookieMacState)
    ensures mac == InvalidMac || mac == ValidMacWithCookieButRatelimited ==>
      CookieDecision(underLoad, mac) == Drop
    ensures !underLoad && mac == ValidMacWithCookie ==> CookieDecision(underLoad, mac) == Drop
  {
  }

  // ---------------------------------------------------- the handshake handler

  /** What the collaborators answer for one handshake message: the MAC check,
      the peer the Noise consume step matched (before it takes its reference),
      and whether a session can begin from a response. */
  datatype HandshakeReplies = HandshakeReplies(mac: CookieMacState, consumed: Peer?, sessionOk: bool)

  /** The calls `receive_handshake_packet` makes, given the cookie decision and
      the id of the peer it holds a reference to, if any. */
  function HandshakeEffects(skb: Skb, len: nat, d: MacVerdict, acquired: Option<nat>, sessionOk: bool): seq<Effect>
  {
    if skb.kind == HandshakeCookie then [ConsumeCookie(skb.id)]
    else if d == Drop then []
    else if d == NeedsCookie then [SendCookie(skb.id, skb.senderIndex)]
    else if acquired.None? then []
    else KindEffects(skb.kind, acquired.value, sessionOk) + AccountEffects(acquired.value, len)
  }

  /** What an accepted message of `kind` triggers before it is accounted for:
      an initiation is answered, a response that begins a session starts it. */
  function KindEffects(kind: MessageType, id: nat, sessionOk: bool): seq<Effect>
  {
    if kind == HandshakeInitiation then [SetAddr(id), SendResponse(id)]
    else if sessionOk then [EphemeralKeyCreated(id), HandshakeComplete(id), SendQueue(id)]
    else []
  }

  /** The accounting that closes every accepted handshake. */
  function AccountEffects(id: nat, len: nat): seq<Effect>
  {
    [RxStats(id, len), AuthorizedPacket(id), SetAddr(id), Put(id)]
  }

  /** A handshake that goes through is accounted for exactly once (one
      `rx_stats`, one authorized-packet notification, one `peer_put`, all for
      the peer it holds); one that does not go through touches no peer. */
  lemma HandshakeAccounting(skb: Skb, len: nat, d: MacVerdict, acquired: Option<nat>, sessionOk: bool, id: nat)
    ensures
      var es := HandshakeEffects(skb, len, d, acquired, sessionOk);
      var accepted := skb.kind != HandshakeCookie && d == Proceed && acquired == Some(id);
      && Count(es, Put(id)) == (if accepted then 1 else 0)
      && Count(es, AuthorizedPacket(id)) == (if accepted then 1 else 0)
      && Count(es, RxStats(id, len)) == (if accepted then 1 else 0)
  {
    if skb.kind != HandshakeCookie && d == Proceed && acquired.Some? {
      AccountingAccepted(skb.kind, acquired.value, len, sessionOk, id);
    }
  }

  lemma AccountingAccepted(kind: MessageType, a: nat, len: nat, sessionOk: bool, id: nat)
    ensures
      var es := KindEffects(kind, a, sessionOk) + AccountEffects(a, len);
      && Count(es, Put(id)) == (if a == id then 1 else 0)
      && Count(es, AuthorizedPacket(id)) == (if a == id then 1 else 0)
      && Count(es, RxStats(id, len)) == (if a == id then 1 else 0)
  {
    var head := KindEffects(kind, a, sessionOk);
    AccountingTail(a, len, id);
    KindEffectsAccountNothing(kind, a, sessionOk, id, len);
    CountAppend(head, AccountEffects(a, len), Put(id));
    CountAppend(head, AccountEffects(a, len), AuthorizedPacket(id));
    CountAppend(head, AccountEffects(a, len), RxStats(id, len));
  }

  lemma KindEffectsAccountNothing(kind: MessageType, a: nat, sessionOk: bool, id: nat, len: nat)
    ensures
      var head := KindEffects(kind, a, sessionOk);
      Put(id) !in head && AuthorizedPacket(id) !in head && RxStats(id, len) !in head
  {
  }

  lemma AccountingTail(a: nat, len: nat, id: nat)
    ensures
      var tail := AccountEffects(a, len);
      && Count(tail, Put(id)) == (if a == id then 1 else 0)
      && Count(tail, AuthorizedPacket(id)) == (if a == id then 1 else 0)
      && Count(tail, RxStats(id, len)) == (if a == id then 1 else 0)
  {
    CountOne(RxStats(a, len), Put(id));
    CountOne(AuthorizedPacket(a), Put(id));
    CountOne(SetAddr(a), Put(id));
    CountOne(Put(a), Put(id));
    CountOne(RxStats(a, len), AuthorizedPacket(id));
    CountOne(AuthorizedPacket(a), AuthorizedPacket(id));
    CountOne(SetAddr(a), AuthorizedPacket(id));
    CountOne(Put(a), AuthorizedPacket(id));
    CountOne(RxStats(a, len), RxStats(id, len));
    CountOne(AuthorizedPacket(a), RxStats(id, len));
    CountOne(SetAddr(a), RxStats(id, len));
    CountOne(Put(a), RxStats(id, len));
    forall e ensures Count([RxStats(a, len), AuthorizedPacket(a), SetAddr(a), Put(a)], e) ==
      Count([RxStats(a, len)], e) + Count([AuthorizedPacket(a)], e) + Count([SetAddr(a)], e) + Count([Put(a)], e)
    {
      CountAppend([RxStats(a, len)], [AuthorizedPacket(a), SetAddr(a), Put(a)], e);
      CountAppend([AuthorizedPacket(a)], [SetAddr(a), Put(a)], e);
      CountAppend([SetAddr(a)], [Put(a)], e);
      assert [RxStats(a, len)] + [AuthorizedPacket(a), SetAddr(a), Put(a)] == [RxStats(a, len), AuthorizedPacket(a), SetAddr(a), Put(a)];
      assert [AuthorizedPacket(a)] + [SetAddr(a), Put(a)] == [AuthorizedPacket(a), SetAddr(a), Put(a)];
      assert [SetAddr(a)] + [Put(a)] == [SetAddr(a), Put(a)];
    }
  }

  lemma CountOne(x: Effect, e: Effect)
    ensures Count([x], e) == if x == e then 1 else 0
  {
  }

  /** A response that goes through fires the session notifications and flushes
      the peer's queue exactly when the session begins; an initiation that goes
      through always answers with a response. */
  lemma HandshakeKindEffects(skb: Skb, len: nat, acquired: nat, sessionOk: bool)
    requires skb.kind == HandshakeResponse || skb.kind == HandshakeInitiation
    ensures
      var es := HandshakeEffects(skb, len, Proceed, Some(acquired), sessionOk);
      && (skb.kind == HandshakeInitiation ==>
           && SendResponse(acquired) in es
           && SendQueue(acquired) !in es
           && EphemeralKeyCreated(acquired) !in es
           && HandshakeComplete(acquired) !in es)
      && (skb.kind == HandshakeResponse ==>
           && (EphemeralKeyCreated(acquired) in es <==> sessionOk)
           && (HandshakeComplete(acquired) in es <==> sessionOk)
           && (SendQueue(acquired) in es <==> sessionOk)
           && SendResponse(acquired) !in es)
  {
  }

  /** `rx_stats`: counts a received packet of `len` bytes for the device and the peer. */
  method RxStatsUpdate(wg: Device, peer: Peer, len: nat)
    modifies wg`rxBytes, wg`rxPackets, peer`rxBytes
    ensures wg.rxBytes == old(wg.rxBytes) + len && wg.rxPackets == old(wg.rxPackets) + 1
    ensures peer.rxBytes == old(peer.rxBytes) + len
  {
    wg.rxBytes := wg.rxBytes + len;
    wg.rxPackets := wg.rxPackets + 1;
    peer.rxBytes := peer.rxBytes + len;
  }

  /** `receive_handshake_packet`: a cookie reply is consumed at once; any other
      handshake message passes the cookie rule, then the Noise step, and a
      peer it yields is accounted for and released. `peer` is the reference
      the handler held, or null when it held none. */
  method ReceiveHandshakePacket(wg: Device, skb: Skb, len: nat, replies: HandshakeReplies, now: int, walltime: int)
    returns (effects: seq<Effect>, peer: Peer?)
    requires skb.kind.IsHandshake()
    modifies wg`rxBytes, wg`rxPackets
    modifies Opt(replies.consumed)`refcount, Opt(replies.consumed)`rxBytes, Opt(replies.consumed)`endpoint
    modifies Opt(replies.consumed)`newHandshake, Opt(replies.consumed)`killEphemerals
    modifies Opt(replies.consumed)`walltimeLastHandshake, Opt(replies.consumed)`retransmitHandshake
    modifies Opt(replies.consumed)`handshakeAttempts
    ensures peer != null <==>
      && skb.kind != HandshakeCookie
      && CookieDecision(UnderLoad(|wg.incomingHandshakes|), replies.mac) == Proceed
      && replies.consumed != null && old(replies.consumed.refcount) > 0
    ensures peer != null ==> peer == replies.consumed
    ensures effects == HandshakeEffects(skb, len, CookieDecision(UnderLoad(|wg.incomingHandshakes|), replies.mac),
      if peer == null then None else Some(peer.internalId), replies.sessionOk)
    ensures replies.consumed != null ==> replies.consumed.refcount == old(replies.consumed.refcount)
    ensures peer == null ==> unchanged(wg) && unchanged(Opt(replies.consumed))
    ensures peer != null ==>
      && wg.rxBytes == old(wg.rxBytes) + len && wg.rxPackets == old(wg.rxPackets) + 1
      && peer.rxBytes == old(peer.rxBytes) + len
      && peer.endpoint == Some(skb.source)
      && peer.newHandshake == Del(old(peer.newHandshake))
    ensures peer != null && skb.kind == HandshakeResponse && replies.sessionOk ==>
      && peer.killEphemerals == (if old(peer.killEphemerals).Disabled? then Disabled else Pending(now + RejectAfterTime * 3))
      && peer.walltimeLastHandshake == walltime
      && peer.retransmitHandshake == Del(old(peer.retransmitHandshake))
      && peer.handshakeAttempts == 0
    ensures peer != null && !(skb.kind == HandshakeResponse && replies.sessionOk) ==>
      && peer.killEphemerals == old(peer.killEphemerals)
      && peer.walltimeLastHandshake == old(peer.walltimeLastHandshake)
      && peer.retransmitHandshake == old(peer.retransmitHandshake)
      && peer.handshakeAttempts == old(peer.handshakeAttempts)
  {
    peer := null;
    if skb.kind == HandshakeCookie {
      return [ConsumeCookie(skb.id)], null;
    }
    var underLoad := UnderLoad(|wg.incomingHandshakes|);
    var decision := CookieDecision(underLoad, replies.mac);
    if decision == Drop {
      return [], null;
    }
    if decision == NeedsCookie {
      return [SendCookie(skb.id, skb.senderIndex)], null;
    }
    peer := Peers.PeerGet(replies.consumed);
    if peer == null {
      return [], null;
    }
    var id := peer.internalId;
    if skb.kind == HandshakeInitiation {
      peer.endpoint := Some(skb.source);
      effects := [SetAddr(id), SendResponse(id)];
    } else {
      effects := [];
      if replies.sessionOk {
        Timers.TimersEphemeralKeyCreated(peer, now, walltime);
        Timers.TimersHandshakeComplete(peer);
        effects := [EphemeralKeyCreated(id), HandshakeComplete(id), SendQueue(id)];
      }
    }
    RxStatsUpdate(wg, peer, len);
    Timers.TimersAnyAuthorizedPacketReceived(peer);
    peer.endpoint := Some(skb.source);
    var _ := Peers.PeerPut(peer);
    effects := effects + [RxStats(id, len), AuthorizedPacket(id), SetAddr(id), Put(id)];
  }

  // ------------------------------------------------------------- the backlog

  /** The backlog as `packet_receive` keeps it: at most one entry beyond
      `MAX_QUEUED_HANDSHAKES`, and only handshake-class datagrams that passed
      framing. */
  ghost predicate BacklogValid(q: seq<Skb>) {
    && |q| <= MaxQueuedHandshakes + 1
    && forall i :: 0 <= i < |q| ==> q[i].kind.IsHandshake() && DataOffset(q[i]).Some?
  }

  /** The backlog after `packet_receive` has seen `skb`: a handshake-class
      datagram that frames correctly is appended, linearized, while the
      backlog holds no more than `MAX_QUEUED_HANDSHAKES` entries; nothing
      else changes it. */
  function BacklogAfter(q: seq<Skb>, skb: Skb, linearizeOk: bool): seq<Skb>
  {
    if DataOffset(skb).Some? && skb.kind.IsHandshake() && |q| <= MaxQueuedHandshakes && linearizeOk
    then q + [skb.(headLen := skb.len)]
    else q
  }

  /** Receiving keeps the backlog valid, and the bound is reached: a backlog
      of exactly `MAX_QUEUED_HANDSHAKES` entries still takes one more. */
  lemma {:induction false} BacklogAfterValid(q: seq<Skb>, skb: Skb, linearizeOk: bool)
    requires BacklogValid(q)
    ensures BacklogValid(BacklogAfter(q, skb, linearizeOk))
    ensures |q| == MaxQueuedHandshakes && DataOffset(skb).Some? && skb.kind.IsHandshake() && linearizeOk ==>
      |BacklogAfter(q, skb, linearizeOk)| == MaxQueuedHandshakes + 1
  {
    var r := BacklogAfter(q, skb, linearizeOk);
    if r != q {
      var s := skb.(headLen := skb.len);
      assert DataOffset(s).Some? by {
        assert DataOffset(skb).Some?;
        assert MayPull(s, s.udpOffset + UdpHeaderLen + MessageHeaderLen);
      }
      assert forall i :: 0 <= i < |q| ==> r[i] == q[i];
      assert r[|q|] == s;
    }
  }

  /** `packet_receive`: frames the datagram and classifies it; handshake-class
      ones join the backlog (and the worker is scheduled) unless it is over
      capacity or linearizing fails; data goes to decryption; anything else
      is freed. */
  method PacketReceive(wg: Device, skb: Skb, linearizeOk: bool) returns (effects: seq<Effect>)
    requires BacklogValid(wg.incomingHandshakes)
    modifies wg`incomingHandshakes
    ensures BacklogValid(wg.incomingHandshakes)
    ensures wg.incomingHandshakes == BacklogAfter(old(wg.incomingHandshakes), skb, linearizeOk)
    ensures DataOffset(skb).None? || skb.kind == Invalid ==> effects == [Free(skb.id)]
    ensures DataOffset(skb).Some? && skb.kind == Data ==> effects == [ConsumeData(skb.id)]
    ensures DataOffset(skb).Some? && skb.kind.IsHandshake() ==>
      effects == (if wg.incomingHandshakes == old(wg.incomingHandshakes) then [Free(skb.id)]
                  else [ScheduleHandshakeWork])
  {
    BacklogAfterValid(wg.incomingHandshakes, skb, linearizeOk);
    var framing := DataOffset(skb);
    if framing.None? {
      return [Free(skb.id)];
    }
    match skb.kind
    case HandshakeInitiation | HandshakeResponse | HandshakeCookie =>
      if |wg.incomingHandshakes| > MaxQueuedHandshakes {
        return [Free(skb.id)];
      }
      if !linearizeOk {
        return [Free(skb.id)];
      }
      wg.incomingHandshakes := wg.incomingHandshakes + [skb.(headLen := skb.len)];
      effects := [ScheduleHandshakeWork];
    case Data =>
      effects := [ConsumeData(skb.id)];
    case Invalid =>
      effects := [Free(skb.id)];
  }

  /** The handshake handler never frees a datagram nor schedules the worker. */
  lemma HandshakeEffectsFreeNothing(skb: Skb, len: nat, d: MacVerdict, acquired: Option<nat>, sessionOk: bool)
    ensures Frees(HandshakeEffects(skb, len, d, acquired, sessionOk)) == []
    ensures ScheduleHandshakeWork !in HandshakeEffects(skb, len, d, acquired, sessionOk)
  {
    var es := HandshakeEffects(skb, len, d, acquired, sessionOk);
    NoFrees(es);
  }

  /** Only a handshake that goes through reaches `rx_stats`: once, for the
      payload's length. */
  lemma HandshakeRx(skb: Skb, len: nat, d: MacVerdict, acquired: Option<nat>, sessionOk: bool)
    ensures
      var es := HandshakeEffects(skb, len, d, acquired, sessionOk);
      var accepted := skb.kind != HandshakeCookie && d == Proceed && acquired.Some?;
      && RxPackets(es) == (if accepted then 1 else 0)
      && RxBytes(es) == (if accepted then len else 0)
  {
    if skb.kind != HandshakeCookie && d == Proceed && acquired.Some? {
      var id := acquired.value;
      var k := KindEffects(skb.kind, id, sessionOk);
      var tail: seq<Effect> := [AuthorizedPacket(id), SetAddr(id), Put(id)];
      NoRx(tail);
      NoRx(k);
      assert AccountEffects(id, len) == [RxStats(id, len)] + tail;
      RxAppend([RxStats(id, len)], tail);
      RxAppend(k, AccountEffects(id, len));
    }
  }

  lemma {:induction false} NoRx(es: seq<Effect>)
    requires forall i :: 0 <= i < |es| ==> !es[i].RxStats?
    ensures RxPackets(es) == 0 && RxBytes(es) == 0
  {
    if es != [] {
      NoRx(es[1..]);
    }
  }

  lemma {:induction false} NoFrees(es: seq<Effect>)
    requires forall i :: 0 <= i < |es| ==> !es[i].Free?
    ensures Frees(es) == []
  {
    if es != [] {
      NoFrees(es[1..]);
    }
  }

  /** The peers among `peers` that are still live (hold a reference). */
  ghost function Live(peers: set<Peer>): set<Peer>
    reads peers`refcount
  {
    set p | p in peers && p.refcount > 0
  }

  /** The id of the peer the handler takes a reference to: the one the Noise
      step matched, when it is live. */
  function Acquired(r: HandshakeReplies, live: set<Peer>): Option<nat>
  {
    if r.consumed != null && r.consumed in live then Some(r.consumed.internalId) else None
  }

  /** Whether handling a dequeued datagram goes through to a peer: it still
      frames, is not a cookie reply, passes the cookie rule at backlog length
      `after`, and names a live peer. */
  predicate Held(skb: Skb, after: nat, r: HandshakeReplies, live: set<Peer>) {
    && DataOffset(skb).Some?
    && skb.kind != HandshakeCookie
    && CookieDecision(UnderLoad(after), r.mac) == Proceed
    && Acquired(r, live).Some?
  }

  /** What handling one dequeued datagram calls, `after` being the backlog
      length once it was dequeued: nothing when it no longer frames, else the
      handler's calls. */
  function EntryEffects(skb: Skb, after: nat, r: HandshakeReplies, live: set<Peer>): seq<Effect>
  {
    match DataOffset(skb)
    case None => []
    case Some(payload) =>
      HandshakeEffects(skb, payload.len, CookieDecision(UnderLoad(after), r.mac), Acquired(r, live), r.sessionOk)
  }

  /** The calls the worker makes for the first `k` entries of the backlog
      `q`: each entry, in order, is handled under the load left after its
      dequeue (entry `i` leaves `|q| - i - 1`) and then freed. */
  function WorkerEffects(q: seq<Skb>, k: nat, replies: nat -> HandshakeReplies, live: set<Peer>): seq<Effect>
    requires k <= |q|
  {
    if k == 0 then []
    else
      WorkerEffects(q, k - 1, replies, live)
      + EntryEffects(q[k - 1], |q| - k, replies(q[k - 1].id), live) + [Free(q[k - 1].id)]
  }

  /** The worker frees exactly the entries it takes, in order, and never
      reschedules itself in the middle of a burst. */
  lemma {:induction false} WorkerFrees(q: seq<Skb>, k: nat, replies: nat -> HandshakeReplies, live: set<Peer>)
    requires k <= |q|
    ensures Frees(WorkerEffects(q, k, replies, live)) == Ids(q[..k])
    ensures ScheduleHandshakeWork !in WorkerEffects(q, k, replies, live)
  {
    if k > 0 {
      WorkerFrees(q, k - 1, replies, live);
      EntryFreesNothing(q[k - 1], |q| - k, replies(q[k - 1].id), live);
      SnocFrees(WorkerEffects(q, k - 1, replies, live), EntryEffects(q[k - 1], |q| - k, replies(q[k - 1].id), live),
        q[..k - 1], q[k - 1]);
      assert q[..k - 1] + [q[k - 1]] == q[..k];
    }
  }

  lemma SnocFrees(w: seq<Effect>, entry: seq<Effect>, init: seq<Skb>, last: Skb)
    requires Frees(w) == Ids(init) && ScheduleHandshakeWork !in w
    requires Frees(entry) == [] && ScheduleHandshakeWork !in entry
    ensures Frees(w + entry + [Free(last.id)]) == Ids(init + [last])
    ensures ScheduleHandshakeWork !in w + entry + [Free(last.id)]
  {
    FreesStep(w, entry, last.id);
    IdsSnoc(init, last);
  }

  lemma EntryFreesNothing(skb: Skb, after: nat, r: HandshakeReplies, live: set<Peer>)
    ensures Frees(EntryEffects(skb, after, r, live)) == []
    ensures ScheduleHandshakeWork !in EntryEffects(skb, after, r, live)
  {
    if DataOffset(skb).Some? {
      HandshakeEffectsFreeNothing(skb, DataOffset(skb).value.len,
        CookieDecision(UnderLoad(after), r.mac), Acquired(r, live), r.sessionOk);
    }
  }

  lemma RxStep(es: seq<Effect>, handled: seq<Effect>, id: nat)
    ensures RxPackets(es + handled + [Free(id)]) == RxPackets(es) + RxPackets(handled)
    ensures RxBytes(es + handled + [Free(id)]) == RxBytes(es) + RxBytes(handled)
  {
    RxAppend(es, handled);
    RxAppend(es + handled, [Free(id)]);
  }

  lemma IdsSnoc(q: seq<Skb>, x: Skb)
    ensures Ids(q + [x]) == Ids(q) + [x.id]
  {
  }

  /** One dequeued datagram: handled as `receive_handshake_packet` handles it
      when it still frames correctly, left alone otherwise. `live` is the set
      of live peers among `peers`. Nothing it does frees a datagram or changes
      a reference count. */
  method HandleDequeued(wg: Device, skb: Skb, replies: HandshakeReplies, peers: set<Peer>, ghost live: set<Peer>,
                        now: int, walltime: int)
    returns (handled: seq<Effect>)
    requires skb.kind.IsHandshake()
    requires replies.consumed != null ==> replies.consumed in peers
    requires forall p :: p in peers ==> (p in live <==> p.refcount > 0)
    modifies wg`rxBytes, wg`rxPackets
    modifies Opt(replies.consumed)`refcount, Opt(replies.consumed)`rxBytes, Opt(replies.consumed)`endpoint
    modifies Opt(replies.consumed)`newHandshake, Opt(replies.consumed)`killEphemerals
    modifies Opt(replies.consumed)`walltimeLastHandshake, Opt(replies.consumed)`retransmitHandshake
    modifies Opt(replies.consumed)`handshakeAttempts
    ensures DataOffset(skb).None? ==> handled == []
    ensures DataOffset(skb).Some? ==> handled == HandshakeEffects(skb, DataOffset(skb).value.len,
      CookieDecision(UnderLoad(|wg.incomingHandshakes|), replies.mac), Acquired(replies, live), replies.sessionOk)
    ensures wg.rxPackets == old(wg.rxPackets) + RxPackets(handled)
    ensures wg.rxBytes == old(wg.rxBytes) + RxBytes(handled)
    ensures replies.consumed != null ==> replies.consumed.refcount == old(replies.consumed.refcount)
    ensures !Held(skb, |wg.incomingHandshakes|, replies, live) ==> unchanged(Opt(replies.consumed))
    ensures Held(skb, |wg.incomingHandshakes|, replies, live) ==>
      var c := replies.consumed;
      && c.rxBytes == old(c.rxBytes) + DataOffset(skb).value.len
      && c.endpoint == Some(skb.source)
      && c.newHandshake == Del(old(c.newHandshake))
    ensures Held(skb, |wg.incomingHandshakes|, replies, live) && skb.kind == HandshakeResponse && replies.sessionOk ==>
      var c := replies.consumed;
      && c.killEphemerals == (if old(c.killEphemerals).Disabled? then Disabled else Pending(now + RejectAfterTime * 3))
      && c.walltimeLastHandshake == walltime
      && c.retransmitHandshake == Del(old(c.retransmitHandshake))
      && c.handshakeAttempts == 0
    ensures Held(skb, |wg.incomingHandshakes|, replies, live) && !(skb.kind == HandshakeResponse && replies.sessionOk) ==>
      var c := replies.consumed;
      && c.killEphemerals == old(c.killEphemerals)
      && c.walltimeLastHandshake == old(c.walltimeLastHandshake)
      && c.retransmitHandshake == old(c.retransmitHandshake)
      && c.handshakeAttempts == old(c.handshakeAttempts)
  {
    handled := [];
    var framing := DataOffset(skb);
    if framing.Some? {
      var held;
      handled, held := ReceiveHandshakePacket(wg, skb, framing.value.len, replies, now, walltime);
      HandshakeRx(skb, framing.value.len, CookieDecision(UnderLoad(|wg.incomingHandshakes|), replies.mac),
        Acquired(replies, live), replies.sessionOk);
    }
  }

  /** `packet_process_queued_handshake_packets`: takes datagrams from the head
      of the backlog, hands those that still frame correctly to the handshake
      handler, frees every one it takes, and after `MAX_BURST_HANDSHAKES` of
      them schedules itself again and stops, even if the backlog is now empty.
      `replies` gives the collaborators' answers for each datagram id; `peers`
      holds every peer they may name. */
  method ProcessQueuedHandshakePackets(wg: Device, replies: nat -> HandshakeReplies, peers: set<Peer>, now: int, walltime: int)
    returns (effects: seq<Effect>)
    requires forall i :: 0 <= i < |wg.incomingHandshakes| ==> wg.incomingHandshakes[i].kind.IsHandshake()
    requires forall id :: replies(id).consumed != null ==> replies(id).consumed in peers
    modifies wg`incomingHandshakes, wg`rxBytes, wg`rxPackets
    modifies peers`refcount, peers`rxBytes, peers`endpoint, peers`newHandshake, peers`killEphemerals
    modifies peers`walltimeLastHandshake, peers`retransmitHandshake, peers`handshakeAttempts
    ensures
      var q := old(wg.incomingHandshakes);
      var n := if |q| < MaxBurstHandshakes then |q| else MaxBurstHandshakes;
      && wg.incomingHandshakes == q[n..]
      && effects == WorkerEffects(q, n, replies, old(Live(peers)))
                    + (if n == MaxBurstHandshakes then [ScheduleHandshakeWork] else [])
      && Frees(effects) == Ids(q[..n])
      && (ScheduleHandshakeWork in effects <==> n == MaxBurstHandshakes)
    ensures BacklogValid(old(wg.incomingHandshakes)) ==> BacklogValid(wg.incomingHandshakes)
    ensures wg.rxPackets == old(wg.rxPackets) + RxPackets(effects)
    ensures wg.rxBytes == old(wg.rxBytes) + RxBytes(effects)
    ensures forall p :: p in peers ==> p.refcount == old(p.refcount)
  {
    ghost var q0 := wg.incomingHandshakes;
    ghost var live := Live(peers);
    var processed;
    effects, processed := HandleBurst(wg, replies, peers, live, now, walltime);
    WorkerFrees(q0, processed, replies, live);
    SuffixValid(q0, processed);
    if processed == MaxBurstHandshakes {
      FreesAppend(effects, [ScheduleHandshakeWork]);
      RxAppend(effects, [ScheduleHandshakeWork]);
      effects := effects + [ScheduleHandshakeWork];
    } else {
      assert effects == effects + [];
    }
  }

  /** The loop of `packet_process_queued_handshake_packets`, up to the point
      where the burst limit is reached or the backlog is empty. */
  method HandleBurst(wg: Device, replies: nat -> HandshakeReplies, peers: set<Peer>, ghost live: set<Peer>,
                     now: int, walltime: int)
    returns (effects: seq<Effect>, processed: nat)
    requires forall i :: 0 <= i < |wg.incomingHandshakes| ==> wg.incomingHandshakes[i].kind.IsHandshake()
    requires forall id :: replies(id).consumed != null ==> replies(id).consumed in peers
    requires forall p :: p in peers ==> (p in live <==> p.refcount > 0)
    modifies wg`incomingHandshakes, wg`rxBytes, wg`rxPackets
    modifies peers`refcount, peers`rxBytes, peers`endpoint, peers`newHandshake, peers`killEphemerals
    modifies peers`walltimeLastHandshake, peers`retransmitHandshake, peers`handshakeAttempts
    ensures processed == if |old(wg.incomingHandshakes)| < MaxBurstHandshakes
      then |old(wg.incomingHandshakes)| else MaxBurstHandshakes
    ensures wg.incomingHandshakes == old(wg.incomingHandshakes)[processed..]
    ensures effects == WorkerEffects(old(wg.incomingHandshakes), processed, replies, live)
    ensures wg.rxPackets == old(wg.rxPackets) + RxPackets(effects)
    ensures wg.rxBytes == old(wg.rxBytes) + RxBytes(effects)
    ensures forall p :: p in peers ==> p.refcount == old(p.refcount)
  {
    ghost var q0 := wg.incomingHandshakes;
    processed := 0;
    effects := [];
    while wg.incomingHandshakes != []
      invariant processed < MaxBurstHandshakes && processed <= |q0|
      invariant wg.incomingHandshakes == q0[processed..]
      invariant forall p :: p in peers ==> p.refcount == old(p.refcount)
      invariant effects == WorkerEffects(q0, processed, replies, live)
      invariant wg.rxPackets == old(wg.rxPackets) + RxPackets(effects)
      invariant wg.rxBytes == old(wg.rxBytes) + RxBytes(effects)
      decreases |wg.incomingHandshakes|
    {
      effects := TakeOne(wg, replies, peers, live, now, walltime, q0, processed, effects);
      processed := processed + 1;
      if processed == MaxBurstHandshakes {
        return;
      }
    }
  }

  /** One iteration of the worker's loop: dequeue the head, handle it, free
      it. */
  method TakeOne(wg: Device, replies: nat -> HandshakeReplies, peers: set<Peer>, ghost live: set<Peer>,
                 now: int, walltime: int, ghost q0: seq<Skb>, ghost processed: nat, effects: seq<Effect>)
    returns (effects': seq<Effect>)
    requires processed < |q0| && wg.incomingHandshakes == q0[processed..]
    requires forall i :: 0 <= i < |wg.incomingHandshakes| ==> wg.incomingHandshakes[i].kind.IsHandshake()
    requires forall id :: replies(id).consumed != null ==> replies(id).consumed in peers
    requires forall p :: p in peers ==> (p in live <==> p.refcount > 0)
    requires effects == WorkerEffects(q0, processed, replies, live)
    modifies wg`incomingHandshakes, wg`rxBytes, wg`rxPackets
    modifies peers`refcount, peers`rxBytes, peers`endpoint, peers`newHandshake, peers`killEphemerals
    modifies peers`walltimeLastHandshake, peers`retransmitHandshake, peers`handshakeAttempts
    ensures wg.incomingHandshakes == q0[processed + 1..]
    ensures effects' == WorkerEffects(q0, processed + 1, replies, live)
    ensures wg.rxPackets - old(wg.rxPackets) == RxPackets(effects') - RxPackets(effects)
    ensures wg.rxBytes - old(wg.rxBytes) == RxBytes(effects') - RxBytes(effects)
    ensures forall p :: p in peers ==> p.refcount == old(p.refcount)
  {
    var skb := wg.incomingHandshakes[0];
    wg.incomingHandshakes := wg.incomingHandshakes[1..];
    assert skb == q0[processed] && wg.incomingHandshakes == q0[processed + 1..];
    var handled := HandleDequeued(wg, skb, replies(skb.id), peers, live, now, walltime);
    RxStep(effects, handled, skb.id);
    effects' := effects + handled + [Free(skb.id)];
  }

  lemma FreesStep(effects: seq<Effect>, handled: seq<Effect>, id: nat)
    requires Frees(handled) == []
    ensures Frees(effects + handled + [Free(id)]) == Frees(effects) + [id]
  {
    FreesAppend(effects, handled);
    FreesAppend(effects + handled, [Free(id)]);
    assert [Free(id)][1..] == [];
  }

  lemma SuffixValid(q: seq<Skb>, k: nat)
    requires k <= |q|
    ensures BacklogValid(q) ==> BacklogValid(q[k..])
  {
  }

  // ------------------------------------------------------------- data packets

  /** What `receive_data_packet` makes of a decrypted packet: an empty one is
      a keepalive; one without a complete IPv4 or IPv6 header is malformed. */
  datatype PlaintextCheck = Keepalive | Malformed | WellFormed

  /** The reference: a packet carries a whole IP header of a known version. */
  predicate IpHeaderFits(skb: Skb) {
    (skb.version == 4 && skb.len >= IpV4HeaderLen) || (skb.version == 6 && skb.len >= IpV6HeaderLen)
  }

  /** The `skb->protocol` that `receive_data_packet` sets on a packet whose
      version it accepted. */
  function Protocol(skb: Skb): uint16 {
    if skb.version == 4 then EthPIp else EthPIpv6
  }

  /** The length and version checks of `receive_data_packet`, in its order. */
  function CheckPlaintext(skb: Skb): (c: PlaintextCheck)
    ensures c == Keepalive <==> skb.len == 0
    ensures c == WellFormed <==> IpHeaderFits(skb) && MayPull(skb, 1)
  {
    if skb.len == 0 then Keepalive
    else if skb.len < IpV4HeaderLen then Malformed
    else if !MayPull(skb, 1) then Malformed
    else if skb.version == 4 then WellFormed
    else if skb.version == 6 then (if skb.len < IpV6HeaderLen then Malformed else WellFormed)
    else Malformed
  }

  /** The calls `receive_data_packet` makes for a decrypted packet from a
      known peer and address, given whether the packet used a new key, whether
      its inner source address routes to another peer, and whether the stack
      accepted it. */
  function DataPacketEffects(skb: Skb, id: nat, usedNewKey: bool, spoofed: bool, netifOk: bool): seq<Effect>
  {
    (if usedNewKey then [SendQueue(id)] else [])
    + PlaintextEffects(skb, id, spoofed, netifOk)
    + [AuthorizedPacket(id), SetAddr(id), Put(id)]
  }

  /** The part that depends on the plaintext: a keepalive or malformed packet
      is freed; a well-formed one is noted by the timers and then freed when
      spoofed, else handed to the stack and counted when the stack takes it. */
  function PlaintextEffects(skb: Skb, id: nat, spoofed: bool, netifOk: bool): seq<Effect>
  {
    if CheckPlaintext(skb) != WellFormed then [Free(skb.id)]
    else if spoofed then [DataReceived(id), Free(skb.id)]
    else if netifOk then [DataReceived(id), Deliver(skb.id, Protocol(skb)), RxStats(id, skb.len)]
    else [DataReceived(id), Deliver(skb.id, Protocol(skb))]
  }

  /** A data packet from a known peer ends in exactly one of being freed or
      handed to the stack, and the peer's reference is released, its
      authorized-packet notification made and its endpoint updated, each
      exactly once. */
  lemma DataPacketAccounting(skb: Skb, id: nat, usedNewKey: bool, spoofed: bool, netifOk: bool)
    ensures
      var es := DataPacketEffects(skb, id, usedNewKey, spoofed, netifOk);
      && Count(es, Free(skb.id)) + Count(es, Deliver(skb.id, Protocol(skb))) == 1
      && Count(es, Put(id)) == 1
      && Count(es, AuthorizedPacket(id)) == 1
      && Count(es, SetAddr(id)) == 1
  {
    var pre: seq<Effect> := if usedNewKey then [SendQueue(id)] else [];
    var mid := PlaintextEffects(skb, id, spoofed, netifOk);
    var post: seq<Effect> := [AuthorizedPacket(id), SetAddr(id), Put(id)];
    var deliver := Deliver(skb.id, Protocol(skb));
    assert DataPacketEffects(skb, id, usedNewKey, spoofed, netifOk) == pre + mid + post;
    assert Free(skb.id) !in pre && deliver !in pre && Put(id) !in pre && AuthorizedPacket(id) !in pre && SetAddr(id) !in pre;
    assert Free(skb.id) !in post && deliver !in post;
    MidFate(skb, id, spoofed, netifOk);
    PostCount(id);
    Accounted(pre, mid, post, Free(skb.id), deliver, Put(id), AuthorizedPacket(id), SetAddr(id));
  }

  /** Exactly-once accounting of a trace assembled from three parts. */
  lemma Accounted(pre: seq<Effect>, mid: seq<Effect>, post: seq<Effect>,
                  free: Effect, deliver: Effect, put: Effect, auth: Effect, addr: Effect)
    requires free !in pre && deliver !in pre && put !in pre && auth !in pre && addr !in pre
    requires free !in post && deliver !in post
    requires Count(mid, free) + Count(mid, deliver) == 1 && put !in mid && auth !in mid && addr !in mid
    requires Count(post, put) == 1 && Count(post, auth) == 1 && Count(post, addr) == 1
    ensures Count(pre + mid + post, free) + Count(pre + mid + post, deliver) == 1
    ensures Count(pre + mid + post, put) == 1 && Count(pre + mid + post, auth) == 1
    ensures Count(pre + mid + post, addr) == 1
  {
    Count3(pre, mid, post, free);
    Count3(pre, mid, post, deliver);
    Count3(pre, mid, post, put);
    Count3(pre, mid, post, auth);
    Count3(pre, mid, post, addr);
  }

  /** A data packet is handed to the stack exactly when it is a well-formed
      IP packet whose inner source belongs to the peer that sent it, marked
      as IPv4 or IPv6 after its header's version; the
      timers hear of data exactly when it is well-formed; the bytes are
      counted exactly when the stack takes it. */
  lemma DataPacketDelivery(skb: Skb, id: nat, usedNewKey: bool, spoofed: bool, netifOk: bool)
    ensures
      var es := DataPacketEffects(skb, id, usedNewKey, spoofed, netifOk);
      var wellFormed := IpHeaderFits(skb) && MayPull(skb, 1);
      && (Deliver(skb.id, Protocol(skb)) in es <==> wellFormed && !spoofed)
      && (Deliver(skb.id, EthPIp) in es <==> wellFormed && !spoofed && skb.version == 4)
      && (Deliver(skb.id, EthPIpv6) in es <==> wellFormed && !spoofed && skb.version == 6)
      && (DataReceived(id) in es <==> wellFormed)
      && (RxStats(id, skb.len) in es <==> wellFormed && !spoofed && netifOk)
  {
    var pre: seq<Effect> := if usedNewKey then [SendQueue(id)] else [];
    var mid := PlaintextEffects(skb, id, spoofed, netifOk);
    var post: seq<Effect> := [AuthorizedPacket(id), SetAddr(id), Put(id)];
    assert DataPacketEffects(skb, id, usedNewKey, spoofed, netifOk) == pre + mid + post;
    assert forall e :: e in pre + mid + post <==> e in pre || e in mid || e in post;
  }

  lemma Count3(a: seq<Effect>, b: seq<Effect>, c: seq<Effect>, e: Effect)
    ensures Count(a + b + c, e) == Count(a, e) + Count(b, e) + Count(c, e)
  {
    CountAppend(a + b, c, e);
    CountAppend(a, b, e);
  }

  lemma MidFate(skb: Skb, id: nat, spoofed: bool, netifOk: bool)
    ensures
      var mid := PlaintextEffects(skb, id, spoofed, netifOk);
      && Count(mid, Free(skb.id)) + Count(mid, Deliver(skb.id, Protocol(skb))) == 1
      && Put(id) !in mid && AuthorizedPacket(id) !in mid && SetAddr(id) !in mid
  {
  }

  lemma PostCount(id: nat)
    ensures Count([AuthorizedPacket(id), SetAddr(id), Put(id)], Put(id)) == 1
    ensures Count([AuthorizedPacket(id), SetAddr(id), Put(id)], AuthorizedPacket(id)) == 1
    ensures Count([AuthorizedPacket(id), SetAddr(id), Put(id)], SetAddr(id)) == 1
  {
  }

  /** What the routing table's source lookup returns: the peer owning the
      inner source address, `routed`, when a reference can still be taken on
      it, and `NULL` when there is none or it is already being released. */
  function RoutedLookup(routed: Peer?): Peer?
    reads Opt(routed)`refcount
  {
    if routed != null && routed.refcount > 0 then routed else null
  }

  /** The checks of `receive_data_packet` between the key notification and the
      final accounting, as its `goto`s lay them out: each failed check counts
      its error and frees the packet; a well-formed packet notifies the
      timers, drops the reference of the routing lookup and is freed as a
      frame error when that lookup yields anything but the sender; otherwise
      it is handed to the stack and counted as received or dropped. */
  method ProcessPlaintext(wg: Device, skb: Skb, peer: Peer, routed: Peer?, netifOk: bool, now: int)
    returns (effects: seq<Effect>)
    modifies wg`rxErrors, wg`rxLengthErrors, wg`rxFrameErrors, wg`rxDropped, wg`rxBytes, wg`rxPackets, wg`lastRx
    modifies peer`rxBytes, peer`sendKeepalive, peer`needAnotherKeepalive, Opt(routed)`refcount
    ensures
      var c := CheckPlaintext(skb);
      var spoofed := old(RoutedLookup(routed)) != peer;
      && effects == PlaintextEffects(skb, peer.internalId, spoofed, netifOk)
      && (routed != null ==> routed.refcount == old(routed.refcount))
      && wg.rxLengthErrors == old(wg.rxLengthErrors) + (if c == Malformed then 1 else 0)
      && wg.rxFrameErrors == old(wg.rxFrameErrors) + (if c == WellFormed && spoofed then 1 else 0)
      && wg.rxErrors == old(wg.rxErrors) + (if c == Malformed || (c == WellFormed && spoofed) then 1 else 0)
      && wg.rxDropped == old(wg.rxDropped) + (if c == WellFormed && !spoofed && !netifOk then 1 else 0)
      && wg.rxPackets == old(wg.rxPackets) + (if c == WellFormed && !spoofed && netifOk then 1 else 0)
      && wg.rxBytes == old(wg.rxBytes) + (if c == WellFormed && !spoofed && netifOk then skb.len else 0)
      && peer.rxBytes == old(peer.rxBytes) + (if c == WellFormed && !spoofed && netifOk then skb.len else 0)
      && wg.lastRx == (if c == WellFormed && !spoofed then now else old(wg.lastRx))
    ensures CheckPlaintext(skb) == WellFormed ==>
      && (old(peer.sendKeepalive) == Idle ==>
            peer.sendKeepalive == Pending(now + Timers.Keepalive) &&
            peer.needAnotherKeepalive == old(peer.needAnotherKeepalive))
      && (old(peer.sendKeepalive) != Idle ==>
            peer.sendKeepalive == old(peer.sendKeepalive) && peer.needAnotherKeepalive)
    ensures CheckPlaintext(skb) != WellFormed ==>
      peer.sendKeepalive == old(peer.sendKeepalive) && peer.needAnotherKeepalive == old(peer.needAnotherKeepalive)
  {
    if skb.len == 0 {
      return [Free(skb.id)];
    }
    if skb.len < IpV4HeaderLen || !MayPull(skb, 1) {
      wg.rxErrors := wg.rxErrors + 1;
      wg.rxLengthErrors := wg.rxLengthErrors + 1;
      return [Free(skb.id)];
    }
    var protocol: uint16;
    if skb.version == 4 {
      protocol := EthPIp;
    } else if skb.version == 6 {
      if skb.len < IpV6HeaderLen {
        wg.rxErrors := wg.rxErrors + 1;
        wg.rxLengthErrors := wg.rxLengthErrors + 1;
        return [Free(skb.id)];
      }
      protocol := EthPIpv6;
    } else {
      wg.rxErrors := wg.rxErrors + 1;
      wg.rxLengthErrors := wg.rxLengthErrors + 1;
      return [Free(skb.id)];
    }
    Timers.TimersDataReceived(peer, now);
    var lookup := Peers.PeerGet(routed);
    var _ := Peers.PeerPut(lookup);
    var id := peer.internalId;
    if lookup != peer {
      wg.rxErrors := wg.rxErrors + 1;
      wg.rxFrameErrors := wg.rxFrameErrors + 1;
      return [DataReceived(id), Free(skb.id)];
    }
    wg.lastRx := now;
    if netifOk {
      RxStatsUpdate(wg, peer, skb.len);
      effects := [DataReceived(id), Deliver(skb.id, protocol), RxStats(id, skb.len)];
    } else {
      wg.rxDropped := wg.rxDropped + 1;
      effects := [DataReceived(id), Deliver(skb.id, protocol)];
    }
  }

  /** `receive_data_packet`: a failed decryption, or a packet without a peer
      or address, is only freed. Otherwise the peer's queue is flushed when a
      new key was used, the plaintext is checked and delivered or freed, and
      then the peer's timers learn of an authorized packet, its endpoint
      becomes `addr`, and the reference the decryption step held is released.
      `routed` is the routing table's match for the inner source address
      before the lookup tries to take a reference on it; a dying match counts
      as a frame error like a foreign one, since the sender itself is held. */
  method ReceiveDataPacket(wg: Device, skb: Skb, peer: Peer?, addr: Option<Addr>, usedNewKey: bool, err: int,
                           routed: Peer?, netifOk: bool, now: int)
    returns (effects: seq<Effect>)
    requires err >= 0 && peer != null && addr.Some? ==> peer.refcount > 0
    modifies wg`rxErrors, wg`rxLengthErrors, wg`rxFrameErrors, wg`rxDropped, wg`rxBytes, wg`rxPackets, wg`lastRx
    modifies Opt(peer)`refcount, Opt(peer)`rxBytes, Opt(peer)`endpoint, Opt(peer)`newHandshake
    modifies Opt(peer)`sendKeepalive, Opt(peer)`needAnotherKeepalive, Opt(routed)`refcount
    ensures err < 0 || peer == null || addr.None? ==>
      effects == [Free(skb.id)] && unchanged(wg) && unchanged(Opt(peer)) && unchanged(Opt(routed))
    ensures err >= 0 && peer != null && addr.Some? ==>
      && effects == DataPacketEffects(skb, peer.internalId, usedNewKey, routed != peer, netifOk)
      && peer.refcount == old(peer.refcount) - 1
      && (routed != null && routed != peer ==> routed.refcount == old(routed.refcount))
      && peer.endpoint == addr
      && peer.newHandshake == Del(old(peer.newHandshake))
    ensures err >= 0 && peer != null && addr.Some? ==>
      var c := CheckPlaintext(skb);
      var spoofed := routed != peer;
      && wg.rxLengthErrors == old(wg.rxLengthErrors) + (if c == Malformed then 1 else 0)
      && wg.rxFrameErrors == old(wg.rxFrameErrors) + (if c == WellFormed && spoofed then 1 else 0)
      && wg.rxErrors == old(wg.rxErrors) + (if c == Malformed || (c == WellFormed && spoofed) then 1 else 0)
      && wg.rxDropped == old(wg.rxDropped) + (if c == WellFormed && !spoofed && !netifOk then 1 else 0)
      && wg.rxPackets == old(wg.rxPackets) + (if c == WellFormed && !spoofed && netifOk then 1 else 0)
      && wg.rxBytes == old(wg.rxBytes) + (if c == WellFormed && !spoofed && netifOk then skb.len else 0)
      && peer.rxBytes == old(peer.rxBytes) + (if c == WellFormed && !spoofed && netifOk then skb.len else 0)
      && wg.lastRx == (if c == WellFormed && !spoofed then now else old(wg.lastRx))
      && (c == WellFormed && old(peer.sendKeepalive) == Idle ==>
            peer.sendKeepalive == Pending(now + Timers.Keepalive) &&
            peer.needAnotherKeepalive == old(peer.needAnotherKeepalive))
      && (c == WellFormed && old(peer.sendKeepalive) != Idle ==>
            peer.sendKeepalive == old(peer.sendKeepalive) && peer.needAnotherKeepalive)
      && (c != WellFormed ==>
            peer.sendKeepalive == old(peer.sendKeepalive) &&
            peer.needAnotherKeepalive == old(peer.needAnotherKeepalive))
  {
    if err < 0 || peer == null || addr.None? {
      return [Free(skb.id)];
    }
    var id := peer.internalId;
    var pre: seq<Effect> := [];
    if usedNewKey {
      pre := [SendQueue(id)];
    }
    var mid := ProcessPlaintext(wg, skb, peer, routed, netifOk, now);
    Timers.TimersAnyAuthorizedPacketReceived(peer);
    peer.endpoint := addr;
    var _ := Peers.PeerPut(peer);
    effects := pre + mid + [AuthorizedPacket(id), SetAddr(id), Put(id)];
  }
}
