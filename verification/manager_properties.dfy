/** Properties of the peer manager that relate several calls: feeding a batch
    of commands through the sink, admitting peers up to capacity, the order of
    queued sends, and the wake-up after a peer leaves. */
module ManagerProperties {
  import opened Wrappers
  import opened Manager

  /** Hand `cmds` to the manager one after the other, collecting the results. */
  function Run(m: PeerManager, cmds: seq<Command>, current: TaskHandle): (out: (PeerManager, seq<StartSendResult>))
    ensures |out.1| == |cmds|
    ensures out.0.build == m.build
    decreases |cmds|
  {
    if |cmds| == 0 then (m, [])
    else
      var (m1, r) := StartSend(m, cmds[0], current);
      var (m2, rs) := Run(m1, cmds[1..], current);
      (m2, [r] + rs)
  }

  /** No batch of commands takes the manager over its capacity. */
  lemma {:induction false} RunKeepsCapacity(m: PeerManager, cmds: seq<Command>, current: TaskHandle)
    requires m.WithinCapacity()
    ensures Run(m, cmds, current).0.WithinCapacity()
    decreases |cmds|
  {
    if |cmds| > 0 {
      var m1 := StartSend(m, cmds[0], current).0;
      RunKeepsCapacity(m1, cmds[1..], current);
    }
  }

  /** One `AddPeer` per peer of `infos`, all over the same kind of connection. */
  function AddAll(infos: seq<PeerInfo>, peer: Connection): (cmds: seq<Command>)
    ensures |cmds| == |infos|
  {
    if |infos| == 0 then [] else [AddPeer(infos[0], peer)] + AddAll(infos[1..], peer)
  }

  /** The peers named in `infos`. */
  function Elements(infos: seq<PeerInfo>): set<PeerInfo>
  {
    if |infos| == 0 then {} else {infos[0]} + Elements(infos[1..])
  }

  /** No peer is named twice in `infos`. */
  predicate Distinct(infos: seq<PeerInfo>)
  {
    |infos| == 0 || (infos[0] !in Elements(infos[1..]) && Distinct(infos[1..]))
  }

  /** One add of a new peer while there is room. */
  lemma AddWithinRoom(m: PeerManager, info: PeerInfo, peer: Connection, current: TaskHandle)
    requires info !in m.peers && |m.peers| < m.Capacity()
    ensures var (m1, r) := StartSend(m, AddPeer(info, peer), current);
      && r == Success(Ready)
      && m1.peers.Keys == m.peers.Keys + {info}
      && |m1.peers| == |m.peers| + 1
      && m1.parked == m.parked
      && m1.build == m.build
  {
  }

  /** Unfolds one step of `Run`. */
  lemma RunCons(m: PeerManager, cmds: seq<Command>, current: TaskHandle)
    requires |cmds| > 0
    ensures var (m1, r) := StartSend(m, cmds[0], current);
      Run(m, cmds, current) == (Run(m1, cmds[1..], current).0, [r] + Run(m1, cmds[1..], current).1)
  {
  }

  /** Adding distinct new peers while there is room admits every one of them
      and leaves the parked slot alone. */
  lemma {:induction false} AddsWithinRoomSucceed(m: PeerManager, infos: seq<PeerInfo>, peer: Connection, current: TaskHandle)
    requires Distinct(infos)
    requires Elements(infos) !! m.peers.Keys
    requires |m.peers| + |infos| <= m.Capacity()
    ensures var out := Run(m, AddAll(infos, peer), current);
      && (forall i :: 0 <= i < |infos| ==> out.1[i] == Success(Ready))
      && |out.0.peers| == |m.peers| + |infos|
      && out.0.parked == m.parked
    decreases |infos|
  {
    var cmds := AddAll(infos, peer);
    if |infos| > 0 {
      var rest := infos[1..];
      var step := StartSend(m, cmds[0], current);
      assert && step.1 == Success(Ready)
             && |step.0.peers| == |m.peers| + 1
             && step.0.parked == m.parked
             && step.0.build == m.build
             && Elements(rest) !! step.0.peers.Keys
      by {
        AddWithinRoom(m, infos[0], peer, current);
      }
      AddsWithinRoomSucceed(step.0, rest, peer, current);
      var tail := Run(step.0, cmds[1..], current);
      assert Run(m, cmds, current) == (tail.0, [step.1] + tail.1) by {
        RunCons(m, cmds, current);
      }
      forall i | 0 < i < |infos|
        ensures Run(m, cmds, current).1[i] == Success(Ready)
      {
        assert ([step.1] + tail.1)[i] == tail.1[i - 1];
      }
    }
  }

  /** The peers managed after such a batch are the earlier ones plus the new ones. */
  lemma {:induction false} AddsWithinRoomKeys(m: PeerManager, infos: seq<PeerInfo>, peer: Connection, current: TaskHandle)
    requires Distinct(infos)
    requires Elements(infos) !! m.peers.Keys
    requires |m.peers| + |infos| <= m.Capacity()
    ensures forall x :: x in Run(m, AddAll(infos, peer), current).0.peers <==> x in m.peers || x in Elements(infos)
    decreases |infos|
  {
    var cmds := AddAll(infos, peer);
    if |infos| == 0 {
      assert Elements(infos) == {};
    } else {
      var rest := infos[1..];
      var m1 := StartSend(m, cmds[0], current).0;
      assert m1.peers.Keys == m.peers.Keys + {infos[0]} && |m1.peers| == |m.peers| + 1 && m1.build == m.build by {
        AddWithinRoom(m, infos[0], peer, current);
      }
      assert AddAll(rest, peer) == cmds[1..];
      AddsWithinRoomKeys(m1, rest, peer, current);
      assert Run(m, cmds, current).0 == Run(m1, cmds[1..], current).0 by {
        RunCons(m, cmds, current);
      }
    }
  }

  /** The capacity scenario: a fresh manager of capacity `C` admits `C`
      distinct peers, after which one more add is handed back and its caller
      parked. */
  lemma AdmitUpToCapacity(b: Builder, infos: seq<PeerInfo>, extra: PeerInfo, peer: Connection, current: TaskHandle)
    requires BuilderSupported(b)
    requires Distinct(infos) && |infos| == b.peerCapacity
    ensures var out := Run(FromBuilder(b), AddAll(infos, peer), current);
      && (forall i :: 0 <= i < |infos| ==> out.1[i] == Success(Ready))
      && |out.0.peers| == b.peerCapacity
      && StartSend(out.0, AddPeer(extra, peer), current) == (out.0.(parked := Some(current)), Success(NotReady(AddPeer(extra, peer))))
  {
    AddsWithinRoomSucceed(FromBuilder(b), infos, peer, current);
  }

  /** Every command sent to one known peer lands on its queue, in order. */
  lemma {:induction false} SendsKeepOrder(m: PeerManager, info: PeerInfo, cmds: seq<Command>, current: TaskHandle)
    requires info in m.peers
    requires forall i :: 0 <= i < |cmds| ==> !cmds[i].AddPeer? && cmds[i].info == info
    ensures var out := Run(m, cmds, current);
      && out.0.peers.Keys == m.peers.Keys
      && out.0.peers[info].inbox == m.peers[info].inbox + cmds
      && (forall i :: 0 <= i < |cmds| ==> out.1[i] == Success(Ready))
    decreases |cmds|
  {
    if |cmds| > 0 {
      var step := StartSend(m, cmds[0], current);
      assert && step.1 == Success(Ready)
             && step.0.peers.Keys == m.peers.Keys
             && step.0.peers[info].inbox == m.peers[info].inbox + [cmds[0]];
      SendsKeepOrder(step.0, info, cmds[1..], current);
      var tail := Run(step.0, cmds[1..], current);
      assert Run(m, cmds, current) == (tail.0, [step.1] + tail.1) by {
        RunCons(m, cmds, current);
      }
      assert m.peers[info].inbox + [cmds[0]] + cmds[1..] == m.peers[info].inbox + cmds;
      forall i | 0 < i < |cmds|
        ensures Run(m, cmds, current).1[i] == Success(Ready)
      {
        assert ([step.1] + tail.1)[i] == tail.1[i - 1];
      }
    }
  }

  /** At capacity, an add parks its caller; the next terminal event wakes that
      caller and frees a slot, so the retried add is admitted. The departed
      peer is no longer managed, so a second terminal event for it would
      violate `Poll`'s precondition. */
  lemma RetryAfterRemoval(m: PeerManager, info: PeerInfo, peer: Connection, current: TaskHandle, leaving: Event)
    requires m.WithinCapacity() && |m.peers| == m.Capacity()
    requires info !in m.peers
    requires leaving.IsTerminal() && leaving.info in m.peers
    ensures var (m1, r1) := StartSend(m, AddPeer(info, peer), current);
      && r1 == Success(NotReady(AddPeer(info, peer)))
      && var (m2, e, woken) := Poll(m1, Item(leaving));
      && e == Item(leaving)
      && woken == Some(current)
      && !PollAllowed(m2, Item(leaving))
      && StartSend(m2, AddPeer(info, peer), current).1 == Success(Ready)
  {
  }
}
