# niri-burst-consume: the burst-clustering loop

niri-burst-consume listens to the niri compositor's event stream. When
windows open in quick succession (each within 500 ms of the one before), it
treats them as one burst. For every window of a burst after the first, it
sends niri a `ConsumeOrExpelWindowLeft` action, so the burst ends up stacked
in one column. When a burst of more than one window closes, it prints a
"cluster completed" line.

This project models that state machine: the four locals of `main`'s loop
(`last_id`, `last_timestamp`, `cluster`, `cluster_ids`) and the work done for
each event. The modules are:

- `Clustering` (`clustering.dfy`): the state record, the event and output
  datatypes, and the pure `Step(state, arrival)`. A step emits at most one
  output: a `Dispatch(id, succeeded)` for one `send_action` call, or a
  `Report(members)` for one cluster-completed line.
- `ClusteringFacts` (`clustering_facts.dfy`): properties of one step. These
  cover the no-op cases, the stamping of accepted windows, the 500 ms
  boundary, the loop invariant, exactly when a dispatch or a report happens,
  and that the outcome of `send_action` does not matter.
- `Traces` (`traces.dfy`): `Step` folded over a trace. It holds the
  invariant along a run, the absence of faults when the clock does not go
  back, independence from send outcomes, and the dispatch ledger. The ledger
  says the consume actions sent are exactly the non-seed members of each
  cluster, in order.
- `EventLoop` (`event_loop.dfy`): the loop written over mutable locals as
  the program writes it, proved equal to the fold. It also models the session
  around the loop: the event-stream handshake, then lines until end of
  stream or a line that cannot be read or decoded.
- `Scenarios` (`scenarios.dfy`): concrete runs (a burst then a gap, gaps of
  exactly 500 ms, a 501 ms gap, a returning member, a clock going back).
- `Wrappers` (`wrappers.dfy`): `Option` and `Result`.

The environment is supplied as input. Each `Arrival` carries the decoded
event, the clock reading `get_time_ms` would return for it, and whether
`send_action` would succeed if the step calls it. The program reads the clock
only for window events (src/main.rs:84), so for any other arrival the time is
a placeholder; `Traces.ClockMonotone` constrains it all the same. Timestamps are `u128`
milliseconds and window ids are `u64`, both as bounded subset types.

The gap `timestamp - last` at src/main.rs:94 is a `u128` subtraction. If the
wall clock goes back, it underflows and panics (in a debug build). The model
makes this an explicit `Fault` (`ClockWentBackwards`) that stops the run. It
is not saturated. `MonotoneClockNeverFaults` shows this fault cannot happen
when the clock readings never decrease.

There is no recent-history filter and no skip for a window already in the
burst's column. The only de-duplication is the immediate-repeat check against
`last_id` and the `cluster_ids` membership test.

## Model

| member | source | states |
|---|---|---|
| `Clustering.Elapsed` | src/main.rs:94 | the gap is absent exactly for the first window; otherwise the last timestamp plus the gap equals the new reading; the subtraction fails exactly when the new reading is older |
| `Clustering.Step` | src/main.rs:82-134 | a step faults exactly when a new (non-repeat) window arrives with a clock reading older than the last timestamp; every other step succeeds and emits at most one output |
| `ClusteringFacts.ThresholdBoundary` | src/main.rs:9 | for a new window after a recorded timestamp, a step 500 ms later continues the burst (the cluster is kept, growing by the window if it was not a member) and a step 501 ms later resets the cluster to `[id]` and the set to `{id}` |
| `ClusteringFacts.OtherEventIsNoOp` | src/main.rs:82 | any event other than window-opened-or-changed leaves the state unchanged and emits nothing |
| `ClusteringFacts.RepeatIsNoOp` | src/main.rs:86-89 | a window event whose id equals `last_id` leaves every field unchanged, `last_timestamp` included, and emits nothing |
| `ClusteringFacts.AcceptedWindowIsStamped` | src/main.rs:91-95 | after any other window event that does not fault, `last_id` is that id and `last_timestamp` its clock reading |
| `ClusteringFacts.ShortGapContinues` | src/main.rs:98-104 | with a gap between 0 and 500 ms the cluster is kept; it grows by the window exactly when the window was not yet a member, and the id set gains the id |
| `ClusteringFacts.LongGapResets` | src/main.rs:114-126 | with no previous timestamp, or a gap over 500 ms, the step succeeds and leaves cluster `[id]` and set `{id}` |
| `ClusteringFacts.FirstWindowIsSeed` | src/main.rs:67-70 | from the initial state the first window becomes the sole member and the last id and timestamp, and is not dispatched |
| `ClusteringFacts.InitialIsValid` | src/main.rs:67-70 | the initial empty state satisfies the loop invariant |
| `ClusteringFacts.StepPreservesValid` | src/main.rs:101-102 | every successful step keeps the id set equal to the cluster's elements and the cluster free of repeats; it also keeps `last_id` and `last_timestamp` set together and the last id inside the cluster |
| `ClusteringFacts.DispatchIff` | src/main.rs:99-107 | a consume action for `x` is emitted if and only if `x` is a new window within 500 ms of the last and not yet in `cluster_ids`; it carries that call's outcome |
| `ClusteringFacts.ReportIff` | src/main.rs:114-122 | a report is emitted if and only if a new window takes the reset arm and the closing cluster has more than one member; its contents are the pre-reset cluster |
| `ClusteringFacts.SendOutcomeIrrelevant` | src/main.rs:107-111 | success or failure of `send_action` changes neither whether the step succeeds, nor the next state, nor the actions taken; membership is not rolled back on failure |
| `Traces.RunFrom` | src/main.rs:72-136 | a run over a trace emits at most one output per event, and strictly fewer than the events when it stops on a fault |
| `Traces.RunPreservesValid` | src/main.rs:101-102 | the loop invariant holds after any number of events |
| `Traces.ReportedClustersAreBursts` | src/main.rs:116-122 | every cluster reported over a run from a valid state has more than one member and no repeated window |
| `Traces.MonotoneClockNeverFaults` | src/main.rs:94 | if no clock reading is older than the last timestamp or than an earlier reading, the gap subtraction never underflows and the run reaches the end of the trace |
| `Traces.RunIgnoresSendOutcome` | src/main.rs:107-111 | two traces differing only in `send_action` outcomes reach the same state and the same fault, and take the same actions |
| `Traces.StepLedger` | src/main.rs:99-126 | per step, the open cluster's non-seed members plus the ids dispatched equal the non-seed members of what is reported plus those of the cluster left open |
| `Traces.DispatchLedger` | src/main.rs:99-126 | over any run from a valid state the same balance holds: dispatched ids are, in order, the joiners of each reported cluster followed by those of the open cluster |
| `Traces.DispatchesMatchClusters` | src/main.rs:99-126 | from the start, the ids dispatched are exactly the non-seed members of every reported cluster and then of the open one; their number is the sum of the reported sizes less one each, plus the open size less one |
| `Traces.OpenBurstDispatches` | src/main.rs:99-107 | between resets (from a cluster of at most one member, with nothing reported), the dispatched ids are the cluster after its seed, so there are `\|cluster\| - 1` of them, none repeats, and the seed is not among them |
| `EventLoop.ConsumeEvents` | src/main.rs:66-136 | the loop over mutable locals computes exactly the fold of `Step`, stopping at the first clock fault, and ends in a state that keeps the invariant |
| `EventLoop.Listen` | src/main.rs:72-79 | consuming the stream never ends in a handshake failure and emits at most one output per line |
| `EventLoop.Serve` | src/main.rs:58-64 | a refused or unreadable handshake reply ends the program before any event is consumed and with no output; an accepted one never ends that way |
| `EventLoop.ListenIsRunUntilBroken` | src/main.rs:72-79 | the session emits what the fold emits over the lines before the first broken one; it then ends on the panic if the fold faulted, else on the broken line, else at end of stream |
| `Scenarios.BurstThenGap` | src/main.rs:82-134 | windows 1, 2, 2, 3 at 0, 50, 60, 800 ms dispatch window 2 once, report `[1, 2]`, and leave cluster `[3]` |
| `Scenarios.GapsAtThreshold` | src/main.rs:98-99 | gaps of exactly 500 ms keep one cluster `[1, 2, 3]` and dispatch 2 and 3 but not the seed |
| `Scenarios.GapOverThreshold` | src/main.rs:114-126 | a 501 ms gap gives clusters `[1]` then `[2]` with nothing dispatched or reported |
| `Scenarios.ReturningMemberNotRedispatched` | src/main.rs:101 | a member that returns within the burst after another window is not dispatched again; it only becomes the last id |
| `Scenarios.ClockGoingBackPanics` | src/main.rs:94 | a clock reading older than the last stops the run with the fault and no output |

## Left out

- Socket discovery and connection (`connect`, src/main.rs:18-25) are environment and Unix-socket I/O.
- JSON encoding and decoding through `serde_json` and the `niri_ipc` types are a foreign library whose wire format is not visible. Events are an abstract `WindowOpenedOrChanged(id)` / `Other` datatype. A line that cannot be read or decoded is one `Broken` case.
- The handshake write, flush and read (src/main.rs:48-64) are reduced to a reply that is `Accepted`, `Refused` or `Unreadable`. Only an accepted reply lets events be consumed.
- `send_action` (src/main.rs:27-44) is a `Dispatch` output plus an input bit for its outcome. Its own connection, request encoding and reply decoding are I/O. The reply read at src/main.rs:40 has no timeout, so a reply that never arrives stalls the loop forever; the model assumes every call returns.
- `get_time_ms` (src/main.rs:11-16) is replaced by the timestamp in each arrival. Its `unwrap` panic for a clock set before 1970 is not modelled.
- Release-build wrap-around: the model follows a debug build, where the `u128` underflow at src/main.rs:94 panics. In a release build the subtraction wraps instead, which for any realistic clock gives a gap far over 500 ms and so takes the reset arm. That wrapping is not modelled.
- The async runtime and the awaiting of `send_action` are left out. Only the order of steps matters, and the fold captures it.
- The `println!` and `eprintln!` text is left out, apart from the report's contents and the success flag that picks the dispatch log line.
