/** The bookkeeping of `PeerManager`: a capacity-bounded map from each managed
    peer to the command queue of its session task, plus a single slot for the
    task parked while the manager is full. `StartSend` is the sink side
    (commands in), `Poll` the stream side (events out). Channels are sequences,
    tasks are handles, and a spawned session task is a fresh empty queue. */
module Manager {
  import opened Wrappers
  import opened BtTypes
  import TimerSizing

  /** Caller-chosen identifier echoed back in `SentMessage`. */
  type MessageId = u64

  datatype SocketAddr = SocketAddr(ip: seq<byte>, port: u16)

  /** Identity of a managed peer; the key of the peer map. */
  datatype PeerInfo = PeerInfo(addr: SocketAddr, pid: PeerId, hash: InfoHash)

  /** The admitted connection handed over with `AddPeer` (opaque). */
  datatype Connection = Connection(handle: nat)

  /** A peer-wire message (opaque). */
  datatype WireMessage = WireMessage(payload: seq<byte>)

  /** A transport error reported by a session (opaque). */
  datatype IoError = IoError(code: int)

  /** The futures task that called into the manager. */
  datatype TaskHandle = TaskHandle(id: nat)

  /** Commands accepted by the manager (`IPeerManagerMessage`). */
  datatype Command =
    | AddPeer(info: PeerInfo, peer: Connection)
    | RemovePeer(info: PeerInfo)
    | SendMessage(info: PeerInfo, mid: MessageId, message: WireMessage)

  /** Events produced by the manager (`OPeerManagerMessage`). */
  datatype Event =
    | PeerAdded(info: PeerInfo)
    | PeerRemoved(info: PeerInfo)
    | SentMessage(info: PeerInfo, mid: MessageId)
    | ReceivedMessage(info: PeerInfo, message: WireMessage)
    | PeerDisconnect(info: PeerInfo)
    | PeerError(info: PeerInfo, error: IoError)
  {
    /** Events after which the session is gone and must leave the map. */
    predicate IsTerminal() {
      PeerRemoved? || PeerDisconnect? || PeerError?
    }
  }

  /** `PeerNotFound` is returned both for an unknown peer and for a duplicate add. */
  datatype ManagerError = PeerNotFound(info: PeerInfo)

  /** `AsyncSink`: the command was taken, or it is handed back to retry later. */
  datatype AsyncSink = Ready | NotReady(item: Command)

  type StartSendResult = Result<AsyncSink, ManagerError>

  /** What the manager's event receiver yielded: an event, the end of the
      stream, or nothing yet. */
  datatype StreamPoll = Item(event: Event) | Ended | Pending

  /** A session task as seen from the manager: the connection it owns and the
      commands queued on its private channel, oldest first. */
  datatype Session = Session(peer: Connection, inbox: seq<Command>)

  datatype Builder = Builder(
    peerCapacity: nat,
    heartbeatInterval: TimerSizing.Duration,
    heartbeatTimeout: TimerSizing.Duration,
    streamBufferCapacity: nat)

  datatype PeerManager = PeerManager(
    build: Builder,
    timer: TimerSizing.TimerConfig,
    peers: map<PeerInfo, Session>,
    parked: Option<TaskHandle>)
  {
    function Capacity(): nat { build.peerCapacity }

    /** The bound every reachable manager keeps. */
    predicate WithinCapacity() { |peers| <= Capacity() }
  }

  /** The preconditions under which the timer sizing neither underflows nor overflows. */
  predicate BuilderSupported(b: Builder)
  {
    && 1 <= b.peerCapacity <= TimerSizing.MAX_PEER_CAPACITY
    && TimerSizing.MaxDuration(b.heartbeatInterval, b.heartbeatTimeout).secs * 1000 < TimerSizing.U64_LIMIT
  }

  /** A fresh manager: no peers, no parked task, and a timer wheel sized for
      two timers per peer. */
  function FromBuilder(b: Builder): (m: PeerManager)
    requires BuilderSupported(b)
    ensures m.build == b && m.peers == map[] && m.parked == None
    ensures m.WithinCapacity()
    ensures m.timer.numSlots == TimerSizing.DEFAULT_TIMER_SLOTS
    ensures TimerSizing.IsPowerOfTwo(m.timer.channelCapacity)
    ensures 2 * b.peerCapacity <= m.timer.channelCapacity < 4 * b.peerCapacity
    ensures m.timer.maxCapacity == m.timer.channelCapacity + 1
    ensures m.timer.tickMillis * TimerSizing.DEFAULT_TIMER_SLOTS
            > 1000 * TimerSizing.MaxDuration(b.heartbeatInterval, b.heartbeatTimeout).secs
    ensures (m.timer.tickMillis - 1) * TimerSizing.DEFAULT_TIMER_SLOTS
            <= 1000 * TimerSizing.MaxDuration(b.heartbeatInterval, b.heartbeatTimeout).secs
  {
    var timer := TimerSizing.WheelConfig(b.peerCapacity, b.heartbeatInterval, b.heartbeatTimeout);
    PeerManager(b, timer, map[], None)
  }

  /** True when `after` differs from `before` at most at key `k`. */
  predicate OthersUnchanged(before: map<PeerInfo, Session>, after: map<PeerInfo, Session>, k: PeerInfo)
  {
    before - {k} == after - {k}
  }

  /** Hand one command to the manager on behalf of task `current`. */
  function StartSend(m: PeerManager, item: Command, current: TaskHandle): (out: (PeerManager, StartSendResult))
    // Configuration never changes, and no entry other than the command's peer does.
    ensures out.0.build == m.build && out.0.timer == m.timer
    ensures OthersUnchanged(m.peers, out.0.peers, item.info)
    // Capacity gate: only an add while full is deferred; it hands the same
    // command back, leaves the map alone and parks the caller, replacing any
    // earlier parked task. Every other outcome leaves the slot alone.
    ensures out.1 == Success(NotReady(item)) <==> item.AddPeer? && |m.peers| >= m.Capacity()
    ensures out.1.Success? && out.1.value.NotReady? ==> out.1.value.item == item
    ensures out.1.Success? && out.1.value.NotReady? ==> out.0.peers == m.peers && out.0.parked == Some(current)
    ensures !(out.1.Success? && out.1.value.NotReady?) ==> out.0.parked == m.parked
    // Errors: a duplicate add below capacity, or a command for an unknown
    // peer; both name the peer and change nothing.
    ensures out.1.Failure? <==>
      (if item.AddPeer? then |m.peers| < m.Capacity() && item.info in m.peers else item.info !in m.peers)
    ensures out.1.Failure? ==> out.1.error == PeerNotFound(item.info) && out.0 == m
    // A fresh add inserts the peer with an empty queue and grows the map by one.
    ensures out.1 == Success(Ready) && item.AddPeer? ==>
      && item.info !in m.peers
      && item.info in out.0.peers && out.0.peers[item.info] == Session(item.peer, [])
      && |out.0.peers| == |m.peers| + 1
    // A command for a known peer is appended to that peer's queue only; the
    // key set stays the same (a removal is only requested here).
    ensures out.1 == Success(Ready) && !item.AddPeer? ==>
      && out.0.peers.Keys == m.peers.Keys
      && out.0.peers[item.info].peer == m.peers[item.info].peer
      && out.0.peers[item.info].inbox == m.peers[item.info].inbox + [item]
    // Capacity bound.
    ensures m.WithinCapacity() ==> out.0.WithinCapacity()
  {
    match item
    case AddPeer(info, peer) =>
      if |m.peers| >= m.Capacity() then
        (m.(parked := Some(current)), Success(NotReady(item)))
      else if info in m.peers then
        (m, Failure(PeerNotFound(info)))
      else
        (m.(peers := m.peers[info := Session(peer, [])]), Success(Ready))
    case RemovePeer(info) =>
      Forward(m, info, item)
    case SendMessage(info, _, _) =>
      Forward(m, info, item)
  }

  /** Queue `cmd` on the channel of `info`'s session, or report the peer unknown. */
  function Forward(m: PeerManager, info: PeerInfo, cmd: Command): (out: (PeerManager, StartSendResult))
  {
    if info !in m.peers then
      (m, Failure(PeerNotFound(info)))
    else
      var session := m.peers[info];
      (m.(peers := m.peers[info := session.(inbox := session.inbox + [cmd])]), Success(Ready))
  }

  /** The event the manager may receive without breaking its bookkeeping: a
      terminal event must name a managed peer (`poll` panics otherwise). */
  predicate PollAllowed(m: PeerManager, polled: StreamPoll)
  {
    polled.Item? && polled.event.IsTerminal() ==> polled.event.info in m.peers
  }

  /** Pass on what the event receiver yielded. A terminal event removes its
      peer from the map and wakes the parked task (returned as the third
      component); anything else leaves the manager untouched. */
  function Poll(m: PeerManager, polled: StreamPoll): (out: (PeerManager, StreamPoll, Option<TaskHandle>))
    requires PollAllowed(m, polled)
    ensures out.1 == polled
    ensures out.0.build == m.build && out.0.timer == m.timer
    ensures polled.Item? && polled.event.IsTerminal() ==>
      && out.0.peers.Keys == m.peers.Keys - {polled.event.info}
      && OthersUnchanged(m.peers, out.0.peers, polled.event.info)
      && |out.0.peers| == |m.peers| - 1
      && out.0.parked == None
      && out.2 == m.parked
    ensures !(polled.Item? && polled.event.IsTerminal()) ==> out.0 == m && out.2 == None
    ensures m.WithinCapacity() ==> out.0.WithinCapacity()
  {
    match polled
    case Item(event) =>
      if event.IsTerminal() then
        (m.(peers := m.peers - {event.info}, parked := None), polled, m.parked)
      else
        (m, polled, None)
    case _ =>
      (m, polled, None)
  }
}
