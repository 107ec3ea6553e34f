/** Properties of one step of the clustering state machine. */
module ClusteringFacts {
  import opened Wrappers
  import opened Clustering

  /** The 500 ms boundary as the loop sees it: a new window exactly 500 ms
      after the last one continues the burst, and one 501 ms after starts a
      new cluster of its own. */
  lemma ThresholdBoundary(s: State, id: WindowId, t: Millis, ok: bool)
    requires s.lastTimestamp == Some(t) && s.lastId != Some(id)
    requires t + 501 < 0x1_0000_0000_0000_0000_0000_0000_0000_0000
    ensures Step(s, Arrival(WindowOpenedOrChanged(id), t + 500, ok)).Success?
    ensures Step(s, Arrival(WindowOpenedOrChanged(id), t + 500, ok)).value.next.cluster
         == (if id in s.clusterIds then s.cluster else s.cluster + [id])
    ensures Step(s, Arrival(WindowOpenedOrChanged(id), t + 501, ok)).Success?
    ensures Step(s, Arrival(WindowOpenedOrChanged(id), t + 501, ok)).value.next.cluster == [id]
    ensures Step(s, Arrival(WindowOpenedOrChanged(id), t + 501, ok)).value.next.clusterIds == {id}
  {
  }

  /** Events other than window-opened-or-changed touch nothing. */
  lemma OtherEventIsNoOp(s: State, time: Millis, ok: bool)
    ensures Step(s, Arrival(Other, time, ok)) == Success(Transition(s, []))
  {
  }

  /** An immediate repeat of the last id changes nothing, not even the
      last timestamp, and emits nothing. */
  lemma RepeatIsNoOp(s: State, a: Arrival)
    requires a.event.WindowOpenedOrChanged? && s.lastId == Some(a.event.id)
    ensures Step(s, a) == Success(Transition(s, []))
  {
  }

  /** Every other window event is stamped: it becomes the last id and its
      clock reading the last timestamp. */
  lemma AcceptedWindowIsStamped(s: State, a: Arrival)
    requires a.event.WindowOpenedOrChanged? && s.lastId != Some(a.event.id)
    requires Step(s, a).Success?
    ensures Step(s, a).value.next.lastId == Some(a.event.id)
    ensures Step(s, a).value.next.lastTimestamp == Some(a.time)
  {
  }

  /** A gap of at most 500 ms continues the burst: the cluster is kept and
      grows by the window exactly when it was not a member yet. */
  lemma ShortGapContinues(s: State, a: Arrival)
    requires a.event.WindowOpenedOrChanged? && s.lastId != Some(a.event.id)
    requires s.lastTimestamp.Some? && s.lastTimestamp.value <= a.time <= s.lastTimestamp.value + 500
    ensures Step(s, a).Success?
    ensures var t := Step(s, a).value;
      && t.next.clusterIds == s.clusterIds + {a.event.id}
      && t.next.cluster == (if a.event.id in s.clusterIds then s.cluster else s.cluster + [a.event.id])
  {
  }

  /** The very first window, or one arriving more than 500 ms after the last,
      starts a new cluster of its own. */
  lemma LongGapResets(s: State, a: Arrival)
    requires a.event.WindowOpenedOrChanged? && s.lastId != Some(a.event.id)
    requires s.lastTimestamp.None? || s.lastTimestamp.value + 500 < a.time
    ensures Step(s, a).Success?
    ensures Step(s, a).value.next.cluster == [a.event.id]
    ensures Step(s, a).value.next.clusterIds == {a.event.id}
  {
  }

  /** The first window ever seeds a cluster and is not dispatched. */
  lemma FirstWindowIsSeed(a: Arrival)
    requires a.event.WindowOpenedOrChanged?
    ensures Step(Initial, a) == Success(Transition(
      State(Some(a.event.id), Some(a.time), [a.event.id], {a.event.id}), []))
  {
  }

  lemma InitialIsValid()
    ensures Valid(Initial)
  {
  }

  /** Every step keeps the id set equal to the cluster's elements, the
      cluster free of repeats, and the last window inside the cluster. */
  lemma StepPreservesValid(s: State, a: Arrival)
    requires Valid(s)
    requires Step(s, a).Success?
    ensures Valid(Step(s, a).value.next)
  {
  }

  /** A consume action is sent for `x` exactly when `x` is a new window within
      the threshold that is not yet in the cluster; it carries the outcome of
      that call. */
  lemma DispatchIff(s: State, a: Arrival, x: WindowId, ok: bool)
    requires Step(s, a).Success?
    ensures Dispatch(x, ok) in Step(s, a).value.outputs <==>
      && a.event == WindowOpenedOrChanged(x)
      && s.lastId != Some(x)
      && s.lastTimestamp.Some?
      && a.time - s.lastTimestamp.value <= ThresholdMs
      && x !in s.clusterIds
      && ok == a.sendSucceeded
  {
  }

  /** A cluster is reported exactly when a new window opens the reset arm and
      the cluster it closes has more than one member; the report names the
      closed cluster as it stood. */
  lemma ReportIff(s: State, a: Arrival, c: seq<WindowId>)
    requires Step(s, a).Success?
    ensures Report(c) in Step(s, a).value.outputs <==>
      && a.event.WindowOpenedOrChanged?
      && s.lastId != Some(a.event.id)
      && (s.lastTimestamp.None? || a.time - s.lastTimestamp.value > ThresholdMs)
      && |s.cluster| > 1
      && c == s.cluster
  {
  }

  /** The outputs with the outcome of each `send_action` call forgotten. */
  function Erase(outs: seq<Output>): (r: seq<Output>)
    ensures |r| == |outs|
    ensures forall i :: 0 <= i < |outs| ==> r[i] == (if outs[i].Dispatch? then Dispatch(outs[i].id, true) else outs[i])
  {
    if outs == [] then [] else
      (if outs[0].Dispatch? then [Dispatch(outs[0].id, true)] else [outs[0]]) + Erase(outs[1..])
  }

  /** Whether `send_action` succeeds or fails changes only the recorded
      outcome: the next state and the actions taken are the same, so cluster
      membership is never rolled back on failure. */
  lemma SendOutcomeIrrelevant(s: State, a: Arrival, ok: bool)
    ensures var b := a.(sendSucceeded := ok);
      && Step(s, a).Success? == Step(s, b).Success?
      && (Step(s, a).Success? ==>
            && Step(s, a).value.next == Step(s, b).value.next
            && Erase(Step(s, a).value.outputs) == Erase(Step(s, b).value.outputs))
  {
  }
}
