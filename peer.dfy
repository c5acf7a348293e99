/** The peer list of a device and peer reference counting (peer.c):
    creation with a capacity limit and a global id counter, get-unless-zero
    and put, removal, the for-each walk that skips dying peers, removal of
    every peer, and the count. */
module Peers {
  import opened Messages
  import opened Wg

  /** Ids strictly increase along the list: each peer is appended with an
      id newer than every other, and removal keeps the order. */
  ghost predicate IdsIncreasing(ps: seq<Peer>) {
    forall i, j :: 0 <= i < j < |ps| ==> ps[i].internalId < ps[j].internalId
  }

  /** The device's list as peer.c keeps it: ordered by id, and no id newer
      than the last one the global counter handed out. */
  ghost predicate ListValid(wg: Device, counter: PeerCounter)
    reads wg, counter
  {
    IdsIncreasing(wg.peers) &&
    forall p :: p in wg.peers ==> p.internalId <= counter.last
  }

  lemma IdsIncreasingDistinct(ps: seq<Peer>, i: nat)
    requires IdsIncreasing(ps) && i < |ps|
    ensures forall k :: 0 <= k < |ps| && k != i ==> ps[k] != ps[i]
    ensures ps[i] !in ps[i + 1..]
  {
    forall k | 0 <= k < |ps| && k != i ensures ps[k] != ps[i] {
      assert ps[k].internalId != ps[i].internalId;
    }
  }

  /** `list_del`: the list without `p`, the others in their order. */
  function Without(ps: seq<Peer>, p: Peer): (r: seq<Peer>)
    ensures p !in r
    ensures forall i :: 0 <= i < |r| ==> r[i] in ps
    ensures forall i :: 0 <= i < |ps| && ps[i] != p ==> ps[i] in r
    ensures p !in ps ==> r == ps
  {
    if ps == [] then []
    else if ps[0] == p then Without(ps[1..], p)
    else [ps[0]] + Without(ps[1..], p)
  }

  lemma {:induction false} WithoutKeepsOrder(ps: seq<Peer>, p: Peer)
    requires IdsIncreasing(ps)
    ensures IdsIncreasing(Without(ps, p))
  {
    if ps != [] {
      assert IdsIncreasing(ps[1..]);
      WithoutKeepsOrder(ps[1..], p);
      if ps[0] != p {
        var w := Without(ps[1..], p);
        forall i | 0 <= i < |w| ensures ps[0].internalId < w[i].internalId {
          var j :| 0 <= j < |ps[1..]| && ps[1..][j] == w[i];
          assert ps[j + 1] == w[i];
        }
        assert Without(ps, p) == [ps[0]] + w;
      }
    }
  }

  /** `peer_total_count`: walks the list and counts its entries. */
  method PeerTotalCount(wg: Device) returns (n: nat)
    ensures n == |wg.peers|
  {
    n := 0;
    var rest := wg.peers;
    while rest != []
      invariant n + |rest| == |wg.peers|
    {
      n := n + 1;
      rest := rest[1..];
    }
  }

  /** `peer_create`: refuses when the device already holds the maximum number
      of peers or the allocation fails; otherwise takes the next id from
      the global counter and appends the new peer, holding one reference. */
  method PeerCreate(wg: Device, counter: PeerCounter, allocOk: bool) returns (peer: Peer?)
    requires ListValid(wg, counter)
    modifies wg`peers, counter
    ensures ListValid(wg, counter)
    ensures peer == null <==> old(|wg.peers|) >= MaxPeersPerDevice || !allocOk
    ensures peer == null ==> wg.peers == old(wg.peers) && counter.last == old(counter.last)
    ensures peer != null ==>
      && fresh(peer)
      && wg.peers == old(wg.peers) + [peer]
      && peer.refcount == 1
      && peer.internalId == old(counter.last) + 1 == counter.last
      && peer.TimersDisabled()
      && peer.txPacketQueue == []
  {
    var count := PeerTotalCount(wg);
    if count >= MaxPeersPerDevice {
      return null;
    }
    if !allocOk {
      return null;
    }
    counter.last := counter.last + 1;
    peer := new Peer(counter.last);
    wg.peers := wg.peers + [peer];
  }

  /** `peer_get`: a reference to a live peer, or NULL for a NULL or dying one. */
  method PeerGet(peer: Peer?) returns (r: Peer?)
    modifies Opt(peer)`refcount
    ensures r == null <==> peer == null || old(peer.refcount) == 0
    ensures r != null ==> r == peer && peer.refcount == old(peer.refcount) + 1
    ensures r == null && peer != null ==> peer.refcount == old(peer.refcount)
  {
    if peer == null {
      return null;
    }
    if peer.refcount == 0 {
      return null;
    }
    peer.refcount := peer.refcount + 1;
    r := peer;
  }

  /** `peer_put`: drops one reference; `released` reports that it was the last
      one, the moment the peer is handed to `kref_release`. */
  method PeerPut(peer: Peer?) returns (released: bool)
    requires peer != null ==> peer.refcount > 0
    modifies Opt(peer)`refcount
    ensures peer == null ==> !released
    ensures peer != null ==> peer.refcount == old(peer.refcount) - 1
    ensures peer != null ==> (released <==> old(peer.refcount) == 1)
  {
    if peer == null {
      return false;
    }
    peer.refcount := peer.refcount - 1;
    released := peer.refcount == 0;
  }

  /** `peer_remove`: unlinks the peer, drops its pending transmit queue and
      the reference the list held. */
  method PeerRemove(wg: Device, peer: Peer?)
    requires peer != null ==> peer in wg.peers && peer.refcount > 0
    requires IdsIncreasing(wg.peers)
    modifies wg`peers, Opt(peer)`txPacketQueue, Opt(peer)`refcount
    ensures IdsIncreasing(wg.peers)
    ensures peer == null ==> wg.peers == old(wg.peers)
    ensures peer != null ==>
      && wg.peers == Without(old(wg.peers), peer)
      && peer !in wg.peers
      && peer.txPacketQueue == []
      && peer.refcount == old(peer.refcount) - 1
  {
    if peer == null {
      return;
    }
    WithoutKeepsOrder(wg.peers, peer);
    wg.peers := Without(wg.peers, peer);
    peer.txPacketQueue := [];
    var _ := PeerPut(peer);
  }

  /** `peer_remove_all`: removes every peer, walking the list as it was. */
  method PeerRemoveAll(wg: Device)
    requires IdsIncreasing(wg.peers)
    requires forall p :: p in wg.peers ==> p.refcount > 0
    modifies wg`peers, wg.peers`txPacketQueue, wg.peers`refcount
    ensures wg.peers == []
    ensures forall p :: p in old(wg.peers) ==>
      p.refcount == old(p.refcount) - 1 && p.txPacketQueue == []
  {
    var ps := wg.peers;
    var i := 0;
    while i < |ps|
      invariant 0 <= i <= |ps|
      invariant wg.peers == ps[i..]
      invariant IdsIncreasing(ps)
      invariant forall k :: 0 <= k < i ==>
        ps[k].refcount == old(ps[k].refcount) - 1 && ps[k].txPacketQueue == []
      invariant forall k :: i <= k < |ps| ==> ps[k].refcount == old(ps[k].refcount)
    {
      var p := ps[i];
      IdsIncreasingDistinct(ps, i);
      assert ps[i..][0] == p && ps[i..][1..] == ps[i + 1..];
      assert Without(ps[i..], p) == ps[i + 1..];
      PeerRemove(wg, p);
      i := i + 1;
    }
    forall q | q in old(wg.peers) ensures q.refcount == old(q.refcount) - 1 && q.txPacketQueue == [] {
      var k :| 0 <= k < |ps| && ps[k] == q;
    }
  }

  /** What `peer_for_each_unlocked` returns for `ps`, starting from `ret`:
      dying peers are skipped, the first negative callback result stops the
      walk, otherwise the last result stands. */
  ghost function ForEachResult(ps: seq<Peer>, fn: Peer -> int, ret: int): int
    reads ps
  {
    if ps == [] then ret
    else if ps[0].refcount == 0 then ForEachResult(ps[1..], fn, ret)
    else if fn(ps[0]) < 0 then fn(ps[0])
    else ForEachResult(ps[1..], fn, fn(ps[0]))
  }

  /** `peer_for_each_unlocked`, for a callback whose result depends on the
      peer alone: every reference it takes it gives back. */
  method PeerForEachUnlocked(wg: Device, fn: Peer -> int) returns (ret: int)
    modifies wg.peers`refcount
    ensures ret == ForEachResult(wg.peers, fn, 0)
    ensures forall p :: p in wg.peers ==> p.refcount == old(p.refcount)
  {
    var ps := wg.peers;
    ret := 0;
    var i := 0;
    while i < |ps|
      invariant 0 <= i <= |ps|
      invariant forall p :: p in ps ==> p.refcount == old(p.refcount)
      invariant ForEachResult(ps, fn, 0) == ForEachResult(ps[i..], fn, ret)
    {
      assert ps[i..][1..] == ps[i + 1..];
      var peer := PeerGet(ps[i]);
      if peer == null {
        i := i + 1;
        continue;
      }
      ret := fn(peer);
      var _ := PeerPut(peer);
      if ret < 0 {
        return;
      }
      i := i + 1;
    }
  }

  /** The walk returns a negative value exactly when some live peer's callback
      fails, and then it is the first such failure. */
  lemma {:induction false} ForEachStopsAtFirstError(ps: seq<Peer>, fn: Peer -> int, ret: int)
    requires ret >= 0
    ensures ForEachResult(ps, fn, ret) < 0 <==>
      exists k :: 0 <= k < |ps| && ps[k].refcount > 0 && fn(ps[k]) < 0
    ensures ForEachResult(ps, fn, ret) < 0 ==>
      exists k :: 0 <= k < |ps| && ps[k].refcount > 0 && fn(ps[k]) == ForEachResult(ps, fn, ret) &&
        forall j :: 0 <= j < k && ps[j].refcount > 0 ==> fn(ps[j]) >= 0
  {
    if ps != [] {
      var next := if ps[0].refcount == 0 || fn(ps[0]) < 0 then ret else fn(ps[0]);
      ForEachStopsAtFirstError(ps[1..], fn, next);
      if ForEachResult(ps, fn, ret) < 0 && !(ps[0].refcount > 0 && fn(ps[0]) < 0) {
        var k :| 0 <= k < |ps[1..]| && ps[1..][k].refcount > 0 && fn(ps[1..][k]) == ForEachResult(ps[1..], fn, next) &&
          forall j :: 0 <= j < k && ps[1..][j].refcount > 0 ==> fn(ps[1..][j]) >= 0;
        assert ps[k + 1] == ps[1..][k];
        forall j | 0 <= j < k + 1 && ps[j].refcount > 0 ensures fn(ps[j]) >= 0 {
          if j > 0 { assert ps[j] == ps[1..][j - 1]; }
        }
      }
      if exists k :: 0 <= k < |ps| && ps[k].refcount > 0 && fn(ps[k]) < 0 {
        var k :| 0 <= k < |ps| && ps[k].refcount > 0 && fn(ps[k]) < 0;
        if k > 0 && !(ps[0].refcount > 0 && fn(ps[0]) < 0) {
          assert ps[1..][k - 1] == ps[k];
        }
      }
    }
  }

  /** When no live peer's callback fails, the walk returns the result of the
      last live peer, or its starting value when no peer is live. */
  lemma {:induction false} ForEachReturnsLastResult(ps: seq<Peer>, fn: Peer -> int, ret: int)
    requires forall k :: 0 <= k < |ps| && ps[k].refcount > 0 ==> fn(ps[k]) >= 0
    ensures (forall k :: 0 <= k < |ps| ==> ps[k].refcount == 0) ==> ForEachResult(ps, fn, ret) == ret
    ensures forall k :: (0 <= k < |ps| && ps[k].refcount > 0 &&
      (forall j :: k < j < |ps| ==> ps[j].refcount == 0)) ==> ForEachResult(ps, fn, ret) == fn(ps[k])
  {
    if ps != [] {
      var next := if ps[0].refcount == 0 then ret else fn(ps[0]);
      assert forall k :: 0 <= k < |ps[1..]| ==> ps[1..][k] == ps[k + 1];
      ForEachReturnsLastResult(ps[1..], fn, next);
    }
  }
}
