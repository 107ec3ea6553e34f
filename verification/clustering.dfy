/** The burst-clustering state machine that `main` in src/main.rs runs over the
    niri event stream: it groups windows that open within 500 ms of each other
    into a cluster, asks niri to consume every later member of a cluster into
    the column on its left, and reports a cluster when it closes. */
module Clustering {
  import opened Wrappers

  /** Largest gap, in milliseconds, that still continues the current burst. */
  const ThresholdMs: nat := 500

  type u64 = x: int | 0 <= x < 0x1_0000_0000_0000_0000
  type u128 = x: int | 0 <= x < 0x1_0000_0000_0000_0000_0000_0000_0000_0000

  /** niri's window id. */
  type WindowId = u64

  /** Milliseconds since the Unix epoch, as `get_time_ms` returns them. */
  type Millis = u128

  /** The decoded niri event: only the window-opened-or-changed arm matters. */
  datatype Event = WindowOpenedOrChanged(id: WindowId) | Other

  /** One event as the loop handles it, together with what the environment
      supplies: the clock reading taken for it and whether `send_action`
      would succeed if the step calls it. */
  datatype Arrival = Arrival(event: Event, time: Millis, sendSucceeded: bool)

  /** What a step does to the outside world. `Dispatch` is one call of
      `send_action`, the consume-or-expel-left request for `id`, with the
      outcome that decides which log line follows; `Report` is the
      cluster-completed line naming the members of the closed cluster. */
  datatype Output = Dispatch(id: WindowId, succeeded: bool) | Report(members: seq<WindowId>)

  /** The four mutable locals of the event loop. */
  datatype State = State(
    lastId: Option<WindowId>,
    lastTimestamp: Option<Millis>,
    cluster: seq<WindowId>,
    clusterIds: set<WindowId>)

  /** The state before the first event is read. */
  const Initial: State := State(None, None, [], {})

  datatype Transition = Transition(next: State, outputs: seq<Output>)

  /** The clock reading is older than the last accepted one: the `u128`
      subtraction computing the gap underflows, which panics. */
  datatype Fault = ClockWentBackwards(last: Millis, now: Millis)

  function Elements(c: seq<WindowId>): set<WindowId> {
    set x | x in c
  }

  predicate Distinct(c: seq<WindowId>) {
    forall i, j :: 0 <= i < j < |c| ==> c[i] != c[j]
  }

  /** What the loop keeps true between events: the id set mirrors the cluster,
      the cluster has no repeats, the last id and last timestamp are set
      together, and the last accepted window belongs to the open cluster. */
  ghost predicate Valid(s: State) {
    && s.clusterIds == Elements(s.cluster)
    && Distinct(s.cluster)
    && (s.lastId.None? <==> s.lastTimestamp.None?)
    && (s.lastId.None? ==> s.cluster == [])
    && (s.lastId.Some? ==> s.lastId.value in s.clusterIds)
  }

  /** The gap since the last accepted window, `None` for the first one. */
  function Elapsed(last: Option<Millis>, now: Millis): (r: Result<Option<nat>, Fault>)
    ensures r.Failure? <==> last.Some? && now < last.value
    ensures r.Failure? ==> r.error == ClockWentBackwards(last.value, now)
    ensures r.Success? ==> (r.value.Some? <==> last.Some?)
    ensures r.Success? && r.value.Some? ==> last.value + r.value.value == now
  {
    match last
    case None => Success(None)
    case Some(t) => if now < t then Failure(ClockWentBackwards(t, now)) else Success(Some(now - t))
  }

  /** The match guard: a gap is present and at most the threshold. */
  predicate WithinThreshold(gap: Option<nat>) {
    gap.Some? && gap.value <= ThresholdMs
  }

  /** The within-threshold arm: a window not yet in the cluster joins it and
      is dispatched; one already in it changes nothing. */
  function Join(s: State, id: WindowId, sendSucceeded: bool): Transition
  {
    if id in s.clusterIds then Transition(s, [])
    else Transition(s.(cluster := s.cluster + [id], clusterIds := s.clusterIds + {id}),
                    [Dispatch(id, sendSucceeded)])
  }

  /** The other arm: the open cluster closes, reported if it has more than one
      member, and `id` seeds a new one without being dispatched. */
  function Reset(s: State, id: WindowId): Transition
  {
    Transition(s.(cluster := [id], clusterIds := {id}),
               if |s.cluster| > 1 then [Report(s.cluster)] else [])
  }

  /** One iteration of the event loop. */
  function Step(s: State, a: Arrival): (r: Result<Transition, Fault>)
    ensures r.Failure? <==>
              && a.event.WindowOpenedOrChanged?
              && s.lastId != Some(a.event.id)
              && s.lastTimestamp.Some?
              && a.time < s.lastTimestamp.value
    ensures r.Success? ==> |r.value.outputs| <= 1
  {
    match a.event
    case Other => Success(Transition(s, []))
    case WindowOpenedOrChanged(id) =>
      if s.lastId == Some(id) then Success(Transition(s, []))
      else
        match Elapsed(s.lastTimestamp, a.time)
        case Failure(f) => Failure(f)
        case Success(gap) =>
          var stamped := s.(lastId := Some(id), lastTimestamp := Some(a.time));
          if WithinThreshold(gap) then Success(Join(stamped, id, a.sendSucceeded))
          else Success(Reset(stamped, id))
  }
}
