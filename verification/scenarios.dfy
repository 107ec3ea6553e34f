/** Concrete runs of the clustering loop on short traces. */
module Scenarios {
  import opened Wrappers
  import opened Clustering
  import opened Traces

  function Window(id: WindowId, time: Millis): Arrival {
    Arrival(WindowOpenedOrChanged(id), time, true)
  }

  /** Windows 1, 2, 2 (a repeat) and 3 at 0, 50, 60 and 800 ms: window 2
      is consumed once, the cluster [1, 2] is reported when 3 opens, and 3
      is left as the seed of a new cluster. */
  lemma BurstThenGap()
    ensures RunFrom(Initial, [Window(1, 0), Window(2, 50), Window(2, 60), Window(3, 800)])
         == Run(State(Some(3), Some(800), [3], {3}), [Dispatch(2, true), Report([1, 2])], None)
  {
    var t := [Window(1, 0), Window(2, 50), Window(2, 60), Window(3, 800)];
    var s1 := State(Some(1), Some(0), [1], {1});
    var s2 := State(Some(2), Some(50), [1, 2], {1, 2});
    assert [1] + [2] == [1, 2];
    assert Join(s1.(lastId := Some(2), lastTimestamp := Some(50)), 2, true) == Transition(s2, [Dispatch(2, true)]);
    assert t[2..] == [Window(2, 60), Window(3, 800)];
    assert RunFrom(s2, [Window(3, 800)]) == Run(State(Some(3), Some(800), [3], {3}), [Report([1, 2])], None);
    assert RunFrom(s2, t[2..]) == Run(State(Some(3), Some(800), [3], {3}), [Report([1, 2])], None);
  }

  /** Gaps of exactly 500 ms keep one cluster growing; the seed is never
      consumed. */
  lemma GapsAtThreshold()
    ensures RunFrom(Initial, [Window(1, 1000), Window(2, 1500), Window(3, 2000)])
         == Run(State(Some(3), Some(2000), [1, 2, 3], {1, 2, 3}), [Dispatch(2, true), Dispatch(3, true)], None)
  {
  }

  /** A gap of 501 ms gives two clusters of one; nothing is consumed or
      reported. */
  lemma GapOverThreshold()
    ensures RunFrom(Initial, [Window(1, 1000), Window(2, 1501)])
         == Run(State(Some(2), Some(1501), [2], {2}), [], None)
  {
  }

  /** A window seen earlier in the same burst but not immediately before is
      not consumed again; it only becomes the last id. */
  lemma ReturningMemberNotRedispatched()
    ensures RunFrom(Initial, [Window(1, 0), Window(2, 100), Window(1, 200)])
         == Run(State(Some(1), Some(200), [1, 2], {1, 2}), [Dispatch(2, true)], None)
  {
  }

  /** A clock reading older than the last accepted one stops the loop. */
  lemma ClockGoingBackPanics()
    ensures RunFrom(Initial, [Window(1, 1000), Window(2, 999)])
         == Run(State(Some(1), Some(1000), [1], {1}), [], Some(ClockWentBackwards(1000, 999)))
  {
  }
}
