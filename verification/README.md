# bip-rs peer manager and whitelist filters, modelled in Dafny

This project models two pieces of the bip-rs BitTorrent library.

The first is the bookkeeping of `PeerManager` in `bip_peer`. It supervises
admitted peer connections. Its state is a map from each peer's `PeerInfo` to
the command channel of that peer's session task, a fixed peer capacity, and
one slot for the futures task parked while the manager is full. Two operations act on
it:

- `start_send` takes `AddPeer`, `RemovePeer` and `SendMessage` commands. It
  applies the capacity gate, rejects a duplicate add, rejects commands for
  unknown peers, and queues the rest on the right peer's channel.
- `poll` passes events on. A terminal event (`PeerRemoved`, `PeerDisconnect`,
  `PeerError`) removes its peer from the map and wakes the parked task.

The construction of a manager also sizes its timer wheel. It rounds twice the
capacity up to a power of two and computes a tick length in milliseconds.

The second piece is the pair of info-hash filters of the handshake whitelist
test in `bip_handshake`. `FilterBlockAllHash` blocks every hash.
`FilterAllowHash` allows one hash, passes on the others and asks for more data
while the hash is unknown. The test registers both filters, whitelists the hash
of twenty bytes 55, and connects with the hash of twenty bytes 54.

Modules:

- `Wrappers` holds `Option` and `Result`.
- `BtTypes` holds bytes, fixed-width integers, `InfoHash` and `PeerId`.
- `WhitelistFilters` holds the filter decisions, the two filters and the test
  scenario.
- `TimerSizing` holds the timer-wheel arithmetic. It includes a proof that the
  bit test `n & (n - 1) == 0` recognises powers of two.
- `Manager` holds the commands, the events, the manager state, `FromBuilder`,
  `StartSend` and `Poll`.
- `ManagerProperties` holds lemmas that relate several calls.

Channels are sequences. The parked task is an `Option<TaskHandle>`, and the
caller's task is a parameter of `StartSend`. The event receiver's answer is a
parameter of `Poll`. A spawned session task is a fresh session with an empty
command queue.

A duplicate add of a live peer is reported with the same `PeerNotFound { info }`
error used for unknown peers (`bip_peer/src/manager/mod.rs:91`), and so it is in
`StartSend`.

## Model

| member | source | states |
|---|---|---|
| `Manager.StartSend` | bip_peer/src/manager/mod.rs:81-114 | An add while the map holds `capacity` or more peers is handed back unchanged as `NotReady`. It leaves the map alone and parks the caller, replacing any earlier parked task. No other outcome touches the parked slot. Below capacity, adding a peer already in the map fails with `PeerNotFound(info)` and changes nothing. Adding an absent peer inserts it with an empty queue and grows the map by exactly one. `RemovePeer` or `SendMessage` for an absent peer fails with `PeerNotFound(info)` and changes nothing. For a present peer the command is appended to that peer's queue, and the key set stays the same. Entries of other peers never change, and `|peers| <= capacity` is preserved. |
| `Manager.Poll` | bip_peer/src/manager/mod.rs:136-162 | The polled item is always passed on unchanged. A terminal event requires its peer to be in the map, because `poll` panics otherwise. It removes exactly that key, with the size dropping by one and the other entries unchanged. It also empties the parked slot and returns the handle it held as the one woken. Any other item leaves the manager untouched and wakes nobody. |
| `Manager.FromBuilder` | bip_peer/src/manager/mod.rs:46-69 | A new manager has no peers and no parked task. Its timer wheel has 2048 slots and a channel capacity that is a power of two in `[2*capacity, 4*capacity)`. The wheel's maximum capacity is one more than that. The tick is exactly `secs*1000/2048 + 1` ms for the longer duration's whole seconds `secs`: `(tick-1)*2048 <= 1000*secs < tick*2048`. |
| `ManagerProperties.RunKeepsCapacity` | bip_peer/src/manager/mod.rs:84-95 | Any batch of commands handed to a manager that is within capacity leaves it within capacity. |
| `ManagerProperties.AddWithinRoom` | bip_peer/src/manager/mod.rs:84-95 | Adding a peer that is absent, while there is room, returns `Ready`. The key set gains exactly that peer, the size grows by one, and the parked slot is unchanged. |
| `ManagerProperties.AddsWithinRoomSucceed` | bip_peer/src/manager/mod.rs:84-95 | Adding distinct new peers, as long as they fit within capacity, returns `Ready` for every one of them. The size grows by their number, and the parked slot is untouched. |
| `ManagerProperties.AddsWithinRoomKeys` | bip_peer/src/manager/mod.rs:90-95 | After such a batch, the managed peers are exactly the earlier ones plus the added ones. |
| `ManagerProperties.AdmitUpToCapacity` | bip_peer/src/manager/mod.rs:46-95 | A fresh manager of capacity C admits C distinct peers. The next add is handed back as `NotReady` with its caller parked. |
| `ManagerProperties.SendsKeepOrder` | bip_peer/src/manager/mod.rs:99-111 | Commands sent one after another to one known peer are all accepted. They end up on that peer's queue in submission order, and the key set is unchanged. |
| `ManagerProperties.RetryAfterRemoval` | bip_peer/src/manager/mod.rs:84-155 | At capacity, an add parks its caller. The next terminal event wakes that caller and frees a slot, and the retried add is then admitted. A second terminal event for the departed peer is not allowed by `Poll`'s precondition. |
| `TimerSizing.PowMaximumTimers` | bip_peer/src/manager/mod.rs:48-53 | For a capacity of at least 1, the timer count is a power of two in `[2*capacity, 4*capacity)`. It equals `2*capacity` when that is already a power of two, and it still fits a `usize` after adding one. |
| `TimerSizing.PowerOfTwoBitTest` | bip_peer/src/manager/mod.rs:49 | For positive `n`, `n & (n - 1) == 0` holds exactly when `n` is a power of two. |
| `TimerSizing.NextPowerOfTwo` | bip_peer/src/manager/mod.rs:52 | The result is a power of two that is at least `n`. For positive `n` it is also below `2n`, so it is the smallest such power. |
| `TimerSizing.PowerOfTwoIsPow2` | bip_peer/src/manager/mod.rs:48-53 | The power-of-two predicate used by the contracts holds of exactly the numbers 2^k. |
| `TimerSizing.MaxDuration` | bip_peer/src/manager/mod.rs:57 | The larger of two durations is one of them and is at least both. Its whole-second count is the larger of the two second counts. |
| `TimerSizing.TickMillis` | bip_peer/src/manager/mod.rs:57-58 | The tick is at least 1 ms. It is the least whole number of milliseconds such that 2048 ticks exceed the longer duration's whole seconds, so `(tick-1)*2048 <= 1000*secs < tick*2048`. |
| `TimerSizing.WheelConfig` | bip_peer/src/manager/mod.rs:47-64 | The wheel parameters are: 2048 slots, a power-of-two channel capacity in `[2*capacity, 4*capacity)`, a maximum capacity one above it, and the exact tick `secs*1000/2048 + 1` ms, stated as `(tick-1)*2048 <= 1000*secs < tick*2048` for the longer duration's whole seconds `secs`. |
| `WhitelistFilters.HashFilter.OnHash` | bip_handshake/test/test_filter_whitelist_diff_data.rs:20-51 | Each verdict is characterised in both directions. The answer is `Block` exactly for the block-all filter. It is `Allow` exactly for an allow-filter queried with its own hash. It is `NeedData` exactly for an allow-filter queried without a hash. It is `Pass` exactly for an allow-filter queried with another hash. |
| `WhitelistFilters.KnownHashIsDecided` | bip_handshake/test/test_filter_whitelist_diff_data.rs:25-50 | Once the hash is known, neither filter answers `NeedData`. |
| `WhitelistFilters.VerdictsShape` | bip_handshake/test/test_filter_whitelist_diff_data.rs:71-74 | Querying the registered filters yields one answer per filter, in registration order, each that filter's own answer. |
| `WhitelistFilters.VerdictsPermutation` | bip_handshake/test/test_filter_whitelist_diff_data.rs:71-74 | The order in which filters are registered does not matter: two registration lists holding the same filters, in any order, yield the same answers up to order (equal multisets of verdicts). |
| `WhitelistFilters.VerdictsSplit` | bip_handshake/test/test_filter_whitelist_diff_data.rs:71-74 | Taking one filter out of a registration list takes exactly its own answer out of the multiset of answers. |
| `WhitelistFilters.AllowVerdictIffWhitelisted` | bip_handshake/test/test_filter_whitelist_diff_data.rs:40-50 | Some registered filter answers `Allow` exactly when the hash is known and an allow-filter for that very hash is registered. |
| `WhitelistFilters.BlockVerdictIffBlockAll` | bip_handshake/test/test_filter_whitelist_diff_data.rs:20-27 | Some registered filter answers `Block` exactly when the block-all filter is registered, whatever the query. |
| `WhitelistFilters.NeedDataVerdictIffUnknown` | bip_handshake/test/test_filter_whitelist_diff_data.rs:40-50 | Some registered filter answers `NeedData` exactly when the hash is unknown and some allow-filter is registered. |
| `WhitelistFilters.WhitelistScenario` | bip_handshake/test/test_filter_whitelist_diff_data.rs:69-125 | Queried with the hash of twenty bytes 54, the test's filters answer `[Block, Pass]`, and no filter answers `Allow`. For contrast, the whitelisted hash draws `[Block, Allow]` and an unknown hash draws `[Block, NeedData]`. |

## Left out

- Async machinery is not modelled: the tokio reactor handle, futures task notification, and `Sink`/`Stream` readiness. The parked task is a handle value, and waking it means returning it from `Poll`.
- `poll_complete` (`bip_peer/src/manager/mod.rs:116-127`) is not modelled. It only flushes the per-peer senders. In the model those senders are sequences with nothing to flush, and its failure path is an abort.
- Manager.StartSend: the per-peer channel is unbounded. The `NotReady` that a full per-peer channel passes back, and the abort when sending on it fails (`bip_peer/src/manager/mod.rs:102-103, 109-110`), do not arise.
- Manager.Poll: the manager's own event channel (`mpsc::channel(stream_buffer_capacity)`) is not modelled. What its receiver yields is a parameter. The session tasks that feed it (`task::run_peer`, heartbeats, timeouts, keep-alive handling through `ManagedMessage`) are not part of this model. So "exactly one terminal event per session" appears only as `Poll`'s precondition.
- Manager.Poll: `StreamPoll` has no case for the `Err(())` of `self.recv.poll()`, which the `.map` at `bip_peer/src/manager/mod.rs:138-139` would pass through untouched. A futures `mpsc::Receiver` never yields an error, so the case cannot arise.
- The timer wheel itself (`tokio_timer::wheel()`) is not modelled. Only the numbers handed to its builder are.
- `PeerInfo`'s definition is not part of this model. It is modelled as an address, a peer id and an info hash, and only its equality matters.
- Messages, connections and `io::Error` values are opaque.
- TimerSizing.PowMaximumTimers: requires `1 <= capacity <= 2^62`. At capacity 0, `maximum_timers - 1` underflows. For capacities in (2^62, 2^63), `next_power_of_two` overflows a 64-bit `usize`. From 2^63 upward, `builder.peer_capacity() * 2` itself overflows first (`bip_peer/src/manager/mod.rs:48`). Each aborts in a debug build and wraps in a release build.
- TimerSizing.TickMillis: requires the longer duration's seconds times 1000 to fit a `u64`. A larger value overflows, which aborts in a debug build.
- Manager.FromBuilder: carries both preconditions above, through `BuilderSupported`.
- How the handshaker combines the answers of several filters, and the handshake state machine, are not part of this model. The test's expectation that no handshake completes within 50 ms is not derived. Only the per-filter verdicts it rests on are stated.
- The test's TCP transports, port binding and real-time timeout are not modelled.
