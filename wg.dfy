/** The two objects the core updates in place: a peer (`struct wireguard_peer`)
    and a device (`struct wireguard_device`), reduced to the fields that
    the receive path, the timers and the peer list read or write, and the
    global counter peer ids are drawn from. */
module Wg {
  import opened Messages

  /** One kernel timer of a peer. `Disabled` is a timer whose `.data` is 0
      (never initialised, or torn down): the guarded call sites leave it
      alone. `Idle` is initialised and not pending; `Pending` will fire at
      `deadline` (in jiffies). */
  datatype Timer = Disabled | Idle | Pending(deadline: int)

  /** `del_timer`: a pending timer stops; an idle or disabled one is unchanged. */
  function Del(t: Timer): (r: Timer)
    ensures !r.Pending?
    ensures r.Disabled? == t.Disabled?
    ensures !t.Pending? ==> r == t
  {
    if t.Pending? then Idle else t
  }

  /** `peer_counter`, the source of `internal_id`s; holds the last id handed out. */
  class PeerCounter {
    var last: nat

    constructor ()
      ensures last == 0
    {
      last := 0;
    }
  }

  class Peer {
    const internalId: nat
    var refcount: nat
    var rxBytes: nat
    var endpoint: Option<Addr>
    var txPacketQueue: seq<nat>
    var retransmitHandshake: Timer
    var sendKeepalive: Timer
    var newHandshake: Timer
    var killEphemerals: Timer
    var handshakeAttempts: nat
    var needAnotherKeepalive: bool
    var clearWorkQueued: bool
    var walltimeLastHandshake: int

    /** A zero-filled allocation with its reference count initialised to one. */
    constructor (id: nat)
      ensures internalId == id && refcount == 1
      ensures rxBytes == 0 && endpoint == None && txPacketQueue == []
      ensures retransmitHandshake == Disabled && sendKeepalive == Disabled
      ensures newHandshake == Disabled && killEphemerals == Disabled
      ensures handshakeAttempts == 0 && !needAnotherKeepalive && !clearWorkQueued
      ensures walltimeLastHandshake == 0
    {
      internalId := id;
      refcount := 1;
      rxBytes := 0;
      endpoint := None;
      txPacketQueue := [];
      retransmitHandshake, sendKeepalive := Disabled, Disabled;
      newHandshake, killEphemerals := Disabled, Disabled;
      handshakeAttempts := 0;
      needAnotherKeepalive := false;
      clearWorkQueued := false;
      walltimeLastHandshake := 0;
    }

    ghost predicate TimersDisabled()
      reads this
    {
      retransmitHandshake.Disabled? && sendKeepalive.Disabled? &&
      newHandshake.Disabled? && killEphemerals.Disabled?
    }
  }

  /** The set holding `p`, or nothing for a null peer: frames of the calls
      that, like the source's, accept NULL. */
  function Opt(p: Peer?): (s: set<Peer>)
    ensures p != null <==> p in s
    ensures |s| <= 1
  {
    if p == null then {} else {p}
  }

  class Device {
    var peers: seq<Peer>                 // peer_list, in list order
    var incomingHandshakes: seq<Skb>     // incoming_handshakes, head first
    var rxErrors: nat
    var rxLengthErrors: nat
    var rxFrameErrors: nat
    var rxDropped: nat
    var rxBytes: nat                     // tstats, summed over CPUs
    var rxPackets: nat
    var lastRx: int
  }
}
