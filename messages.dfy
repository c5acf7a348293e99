/** Values shared by the receive path, the per-peer timers and the peer list:
    the datagram as the pipeline sees it, the message kinds, header sizes,
    the device limits, and the record of calls made into collaborators that
    this model does not contain (sending, freeing, decrypting, delivering). */
module Messages {

  type Pos = x: int | x > 0 witness 1
  type uint16 = x: int | 0 <= x < 0x1_0000
  type uint32 = x: int | 0 <= x < 0x1_0000_0000

  /** An endpoint address as `struct sockaddr_storage` holds it; its bytes do not matter here. */
  type Addr = nat

  datatype Option<T> = None | Some(value: T)

  // Header sizes: IPv4 (RFC 791), IPv6 (RFC 8200), UDP (RFC 768), and the
  // 4-byte little-endian type word that opens every WireGuard message.
  const IpV4HeaderLen: nat := 20
  const IpV6HeaderLen: nat := 40
  const UdpHeaderLen: nat := 8
  const MessageHeaderLen: nat := 4

  /** EtherType values for `skb->protocol` (IEEE 802 numbering). */
  const EthPIp: uint16 := 0x0800
  const EthPIpv6: uint16 := 0x86DD

  // Limits defined in headers that are not part of this model: every
  // proof holds for any positive value of each.
  const MaxQueuedHandshakes: Pos
  const MaxBurstHandshakes: Pos
  const MaxPeersPerDevice: Pos
  const HZ: Pos
  const RekeyTimeout: Pos
  const RejectAfterTime: Pos

  /** `enum message_type`, as `message_determine_type` classifies a payload. */
  datatype MessageType = Invalid | HandshakeInitiation | HandshakeResponse | HandshakeCookie | Data {
    predicate IsHandshake() {
      HandshakeInitiation? || HandshakeResponse? || HandshakeCookie?
    }
  }

  /** A socket buffer, reduced to what the receive path inspects.
      `len` is `skb->len`; `version` is the IP header's version nibble;
      `headLen` is how many bytes are already in the linear area and
      `pullOk` whether pulling more into it would succeed (memory);
      `udpOffset` is `udp_hdr(skb) - skb->data`; `udpLen` is the UDP
      header's length field; `kind` is what `message_determine_type`
      answers for the payload; `senderIndex` is the handshake message's
      sender index; `source` is the address the datagram came from. */
  datatype Skb = Skb(
    id: nat,
    len: nat,
    version: nat,
    headLen: nat,
    pullOk: bool,
    udpOffset: nat,
    udpLen: uint16,
    kind: MessageType,
    senderIndex: uint32,
    source: Addr)

  /** `pskb_may_pull(skb, n)`: at least `n` bytes exist and they are, or can be
      brought, into the linear area. */
  predicate MayPull(skb: Skb, n: nat) {
    n <= skb.len && (n <= skb.headLen || skb.pullOk)
  }

  /** One call into a collaborator, named after the function called. Peers
      are named by their `internal_id`, datagrams by their id. */
  datatype Effect =
    | Free(skb: nat)                         // dev_kfree_skb
    | ConsumeData(skb: nat)                  // packet_consume_data: hand to decryption
    | ConsumeCookie(skb: nat)                // cookie_message_consume
    | SendCookie(skb: nat, index: uint32)    // packet_send_handshake_cookie
    | SendResponse(peer: nat)                // packet_send_handshake_response
    | SendQueue(peer: nat)                   // packet_send_queue
    | SendInitiation(peer: nat)              // packet_queue_send_handshake_initiation
    | SendKeepalive(peer: nat)               // packet_send_keepalive
    | ClearKeys(peer: nat)                   // noise_handshake_clear and noise_keypairs_clear
    | Deliver(skb: nat, protocol: uint16)    // netif_rx, with skb->protocol set
    | ScheduleHandshakeWork                  // queue_work(incoming_handshakes_work)
    | RxStats(peer: nat, bytes: nat)         // rx_stats
    | SetAddr(peer: nat)                     // update_latest_addr / socket_set_peer_addr
    | AuthorizedPacket(peer: nat)            // timers_any_authorized_packet_received
    | DataReceived(peer: nat)                // timers_data_received
    | EphemeralKeyCreated(peer: nat)         // timers_ephemeral_key_created
    | HandshakeComplete(peer: nat)           // timers_handshake_complete
    | Put(peer: nat)                         // peer_put

  /** The datagrams a trace frees, in the order it frees them. */
  function Frees(es: seq<Effect>): (r: seq<nat>)
    ensures |r| <= |es|
  {
    if es == [] then []
    else (if es[0].Free? then [es[0].skb] else []) + Frees(es[1..])
  }

  lemma {:induction false} FreesAppend(a: seq<Effect>, b: seq<Effect>)
    ensures Frees(a + b) == Frees(a) + Frees(b)
  {
    if a == [] {
      assert a + b == b;
    } else {
      var head := if a[0].Free? then [a[0].skb] else [];
      assert (a + b)[0] == a[0];
      assert (a + b)[1..] == a[1..] + b;
      assert Frees(a + b) == head + Frees(a[1..] + b);
      FreesAppend(a[1..], b);
      assert Frees(a) == head + Frees(a[1..]);
    }
  }

  /** How many times `e` occurs in a trace. */
  function Count(es: seq<Effect>, e: Effect): (n: nat)
    ensures n <= |es|
    ensures n == 0 <==> e !in es
  {
    if es == [] then 0
    else (if es[0] == e then 1 else 0) + Count(es[1..], e)
  }

  lemma {:induction false} CountAppend(a: seq<Effect>, b: seq<Effect>, e: Effect)
    ensures Count(a + b, e) == Count(a, e) + Count(b, e)
  {
    if a == [] {
      assert a + b == b;
    } else {
      assert (a + b)[0] == a[0];
      assert (a + b)[1..] == a[1..] + b;
      CountAppend(a[1..], b, e);
    }
  }

  /** How many `rx_stats` calls a trace makes, and how many bytes they add. */
  function RxPackets(es: seq<Effect>): (n: nat)
    ensures n <= |es|
  {
    if es == [] then 0
    else (if es[0].RxStats? then 1 else 0) + RxPackets(es[1..])
  }

  function RxBytes(es: seq<Effect>): nat
  {
    if es == [] then 0
    else (if es[0].RxStats? then es[0].bytes else 0) + RxBytes(es[1..])
  }

  lemma {:induction false} RxAppend(a: seq<Effect>, b: seq<Effect>)
    ensures RxPackets(a + b) == RxPackets(a) + RxPackets(b)
    ensures RxBytes(a + b) == RxBytes(a) + RxBytes(b)
  {
    if a == [] {
      assert a + b == b;
    } else {
      assert (a + b)[0] == a[0];
      assert (a + b)[1..] == a[1..] + b;
      RxAppend(a[1..], b);
    }
  }

  function Ids(q: seq<Skb>): (r: seq<nat>)
    ensures |r| == |q|
    ensures forall i :: 0 <= i < |q| ==> r[i] == q[i].id
  {
    if q == [] then [] else [q[0].id] + Ids(q[1..])
  }
}
