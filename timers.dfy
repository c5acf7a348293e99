/** The per-peer timer state machine (timers.c). Time is the jiffies value
    `now`, passed in; each timer is `Disabled`, `Idle` or `Pending(deadline)`.
    The four expiry handlers run only when their own timer fires, so each
    requires its timer pending and begins with the transition to idle that
    the kernel makes before calling it. Every other handler is a call-site
    notification whose `.data` guards leave a disabled timer disabled. */
module Timers {
  import opened Messages
  import opened Wg
  import Peers

  const Keepalive: int := 10 * HZ
  const MaxTimerHandshakes: int := (90 * HZ) / RekeyTimeout

  /** `expired_retransmit_handshake`: after too many attempts, gives up:
      stops the keepalive timer and drops every queued packet; otherwise
      sends another initiation and counts the attempt. */
  method ExpiredRetransmitHandshake(peer: Peer) returns (effects: seq<Effect>)
    requires peer.retransmitHandshake.Pending?
    modifies peer`retransmitHandshake, peer`sendKeepalive, peer`txPacketQueue, peer`handshakeAttempts
    ensures peer.retransmitHandshake == Idle
    ensures old(peer.handshakeAttempts) > MaxTimerHandshakes ==>
      && effects == []
      && peer.sendKeepalive == Del(old(peer.sendKeepalive))
      && peer.txPacketQueue == []
      && peer.handshakeAttempts == old(peer.handshakeAttempts)
    ensures old(peer.handshakeAttempts) <= MaxTimerHandshakes ==>
      && effects == [SendInitiation(peer.internalId)]
      && peer.handshakeAttempts == old(peer.handshakeAttempts) + 1
      && peer.sendKeepalive == old(peer.sendKeepalive)
      && peer.txPacketQueue == old(peer.txPacketQueue)
  {
    peer.retransmitHandshake := Idle;
    if peer.handshakeAttempts > MaxTimerHandshakes {
      peer.sendKeepalive := Del(peer.sendKeepalive);
      peer.txPacketQueue := [];
      return [];
    }
    effects := [SendInitiation(peer.internalId)];
    peer.handshakeAttempts := peer.handshakeAttempts + 1;
  }

  /** `expired_send_keepalive`: always sends a keepalive; when another one was
      asked for meanwhile, clears that request and re-arms the timer. */
  method ExpiredSendKeepalive(peer: Peer, now: int) returns (effects: seq<Effect>)
    requires peer.sendKeepalive.Pending?
    modifies peer`sendKeepalive, peer`needAnotherKeepalive
    ensures effects == [SendKeepalive(peer.internalId)]
    ensures old(peer.needAnotherKeepalive) ==>
      !peer.needAnotherKeepalive && peer.sendKeepalive == Pending(now + Keepalive)
    ensures !old(peer.needAnotherKeepalive) ==>
      !peer.needAnotherKeepalive && peer.sendKeepalive == Idle
  {
    peer.sendKeepalive := Idle;
    effects := [SendKeepalive(peer.internalId)];
    if peer.needAnotherKeepalive {
      peer.needAnotherKeepalive := false;
      peer.sendKeepalive := Pending(now + Keepalive);
    }
  }

  /** `expired_new_handshake`: nothing was heard back after sending data,
      so a new handshake is started. */
  method ExpiredNewHandshake(peer: Peer) returns (effects: seq<Effect>)
    requires peer.newHandshake.Pending?
    modifies peer`newHandshake
    ensures peer.newHandshake == Idle
    ensures effects == [SendInitiation(peer.internalId)]
  {
    peer.newHandshake := Idle;
    effects := [SendInitiation(peer.internalId)];
  }

  /** `expired_kill_ephemerals`: takes a reference for the key-clearing work;
      a dying peer is left alone, and when the work is already queued the
      new reference is given back at once. */
  method ExpiredKillEphemerals(peer: Peer)
    requires peer.killEphemerals.Pending?
    modifies peer`killEphemerals, peer`refcount, peer`clearWorkQueued
    ensures peer.killEphemerals == Idle
    ensures old(peer.refcount) == 0 ==>
      peer.refcount == 0 && peer.clearWorkQueued == old(peer.clearWorkQueued)
    ensures old(peer.refcount) > 0 && old(peer.clearWorkQueued) ==>
      peer.refcount == old(peer.refcount) && peer.clearWorkQueued
    ensures old(peer.refcount) > 0 && !old(peer.clearWorkQueued) ==>
      peer.refcount == old(peer.refcount) + 1 && peer.clearWorkQueued
  {
    peer.killEphemerals := Idle;
    var held := Peers.PeerGet(peer);
    if held == null {
      return;
    }
    if held.clearWorkQueued {
      var _ := Peers.PeerPut(held);
    } else {
      held.clearWorkQueued := true;
    }
  }

  /** `queued_expired_kill_ephemerals`: the queued work clears every key and
      drops the reference `ExpiredKillEphemerals` took for it. */
  method QueuedExpiredKillEphemerals(peer: Peer) returns (effects: seq<Effect>, released: bool)
    requires peer.clearWorkQueued && peer.refcount > 0
    modifies peer`clearWorkQueued, peer`refcount
    ensures !peer.clearWorkQueued
    ensures effects == [ClearKeys(peer.internalId)]
    ensures peer.refcount == old(peer.refcount) - 1
    ensures released <==> peer.refcount == 0
  {
    peer.clearWorkQueued := false;
    effects := [ClearKeys(peer.internalId)];
    released := Peers.PeerPut(peer);
  }

  /** `timers_data_sent`: stops the keepalive timer and arms the new-handshake
      timer unless it is already pending, so its deadline never moves later. */
  method TimersDataSent(peer: Peer, now: int)
    modifies peer`sendKeepalive, peer`newHandshake
    ensures peer.sendKeepalive == Del(old(peer.sendKeepalive))
    ensures old(peer.newHandshake) == Idle ==>
      peer.newHandshake == Pending(now + Keepalive + RekeyTimeout)
    ensures old(peer.newHandshake) != Idle ==> peer.newHandshake == old(peer.newHandshake)
  {
    if !peer.sendKeepalive.Disabled? {
      peer.sendKeepalive := Del(peer.sendKeepalive);
    }
    if !peer.newHandshake.Disabled? && !peer.newHandshake.Pending? {
      peer.newHandshake := Pending(now + Keepalive + RekeyTimeout);
    }
  }

  /** `timers_data_received`: arms the keepalive timer when it is idle;
      otherwise asks for one more keepalive after the pending one. */
  method TimersDataReceived(peer: Peer, now: int)
    modifies peer`sendKeepalive, peer`needAnotherKeepalive
    ensures old(peer.sendKeepalive) == Idle ==>
      peer.sendKeepalive == Pending(now + Keepalive) &&
      peer.needAnotherKeepalive == old(peer.needAnotherKeepalive)
    ensures old(peer.sendKeepalive) != Idle ==>
      peer.sendKeepalive == old(peer.sendKeepalive) && peer.needAnotherKeepalive
  {
    if !peer.sendKeepalive.Disabled? && !peer.sendKeepalive.Pending? {
      peer.sendKeepalive := Pending(now + Keepalive);
    } else {
      peer.needAnotherKeepalive := true;
    }
  }

  /** `timers_any_authorized_packet_received`: stops only the new-handshake timer. */
  method TimersAnyAuthorizedPacketReceived(peer: Peer)
    modifies peer`newHandshake
    ensures peer.newHandshake == Del(old(peer.newHandshake))
  {
    if !peer.newHandshake.Disabled? {
      peer.newHandshake := Del(peer.newHandshake);
    }
  }

  /** `timers_handshake_initiated`: stops the keepalive timer and (re-)arms the
      retransmission timer. */
  method TimersHandshakeInitiated(peer: Peer, now: int)
    modifies peer`sendKeepalive, peer`retransmitHandshake
    ensures peer.sendKeepalive == Del(old(peer.sendKeepalive))
    ensures old(peer.retransmitHandshake).Disabled? ==> peer.retransmitHandshake == Disabled
    ensures !old(peer.retransmitHandshake).Disabled? ==>
      peer.retransmitHandshake == Pending(now + RekeyTimeout)
  {
    if !peer.sendKeepalive.Disabled? {
      peer.sendKeepalive := Del(peer.sendKeepalive);
    }
    if !peer.retransmitHandshake.Disabled? {
      peer.retransmitHandshake := Pending(now + RekeyTimeout);
    }
  }

  /** `timers_handshake_complete`: stops retransmitting and resets the attempt count. */
  method TimersHandshakeComplete(peer: Peer)
    modifies peer`retransmitHandshake, peer`handshakeAttempts
    ensures peer.retransmitHandshake == Del(old(peer.retransmitHandshake))
    ensures peer.handshakeAttempts == 0
  {
    if !peer.retransmitHandshake.Disabled? {
      peer.retransmitHandshake := Del(peer.retransmitHandshake);
    }
    peer.handshakeAttempts := 0;
  }

  /** `timers_ephemeral_key_created`: (re-)arms the key-zeroing timer and
      records the wall-clock time of the handshake. */
  method TimersEphemeralKeyCreated(peer: Peer, now: int, walltime: int)
    modifies peer`killEphemerals, peer`walltimeLastHandshake
    ensures old(peer.killEphemerals).Disabled? ==> peer.killEphemerals == Disabled
    ensures !old(peer.killEphemerals).Disabled? ==>
      peer.killEphemerals == Pending(now + RejectAfterTime * 3)
    ensures peer.walltimeLastHandshake == walltime
  {
    if !peer.killEphemerals.Disabled? {
      peer.killEphemerals := Pending(now + RejectAfterTime * 3);
    }
    peer.walltimeLastHandshake := walltime;
  }

  /** `timers_init_peer`: every timer initialised, none pending, and the
      key-clearing work not queued. */
  method TimersInitPeer(peer: Peer)
    modifies peer`retransmitHandshake, peer`sendKeepalive, peer`newHandshake,
      peer`killEphemerals, peer`clearWorkQueued
    ensures peer.retransmitHandshake == Idle && peer.sendKeepalive == Idle
    ensures peer.newHandshake == Idle && peer.killEphemerals == Idle
    ensures !peer.clearWorkQueued
  {
    peer.retransmitHandshake := Idle;
    peer.sendKeepalive := Idle;
    peer.newHandshake := Idle;
    peer.killEphemerals := Idle;
    peer.clearWorkQueued := false;
  }

  /** `timers_uninit_peer`: every timer stopped and disabled. */
  method TimersUninitPeer(peer: Peer)
    modifies peer`retransmitHandshake, peer`sendKeepalive, peer`newHandshake, peer`killEphemerals
    ensures peer.TimersDisabled()
  {
    if !peer.retransmitHandshake.Disabled? {
      peer.retransmitHandshake := Disabled;
    }
    if !peer.sendKeepalive.Disabled? {
      peer.sendKeepalive := Disabled;
    }
    if !peer.newHandshake.Disabled? {
      peer.newHandshake := Disabled;
    }
    if !peer.killEphemerals.Disabled? {
      peer.killEphemerals := Disabled;
    }
  }

  /** Once torn down, a peer's timers stay down. The claim for any order and
      any number of notifications rests on the ensures clause of each
      notification above, which maps `Disabled` to `Disabled` one call at a
      time; this method exercises that per-call contract on one sequence of
      all six. */
  method NotificationsAfterUninit(peer: Peer, now: int, walltime: int)
    requires peer.TimersDisabled()
    modifies peer`sendKeepalive, peer`newHandshake, peer`retransmitHandshake,
      peer`handshakeAttempts, peer`needAnotherKeepalive, peer`killEphemerals,
      peer`walltimeLastHandshake
    ensures peer.TimersDisabled()
  {
    TimersDataSent(peer, now);
    TimersDataReceived(peer, now);
    TimersAnyAuthorizedPacketReceived(peer);
    TimersHandshakeInitiated(peer, now);
    TimersHandshakeComplete(peer);
    TimersEphemeralKeyCreated(peer, now, walltime);
  }
}
