/** The event loop folded over a whole trace of arrivals, and what holds of
    every run: the invariant, the absence of clock faults on a monotone clock,
    the independence from `send_action` outcomes, and the ledger tying the
    consume actions sent to the clusters that close. */
module Traces {
  import opened Wrappers
  import opened Clustering
  import opened ClusteringFacts

  /** Where a run stops: the state reached (on a fault, the state before the
      faulting event), everything emitted on the way, and the fault that
      ended it early, if any. */
  datatype Run = Run(state: State, outputs: seq<Output>, fault: Option<Fault>)

  function Prepend(outs: seq<Output>, r: Run): Run {
    Run(r.state, outs + r.outputs, r.fault)
  }

  /** The loop over `trace` from state `s`; a fault stops it, and the run
      records the state before the faulting event. */
  function RunFrom(s: State, trace: seq<Arrival>): (r: Run)
    ensures |r.outputs| <= |trace|
    ensures r.fault.Some? ==> |r.outputs| < |trace|
    decreases |trace|
  {
    if trace == [] then Run(s, [], None)
    else match Step(s, trace[0])
      case Failure(f) => Run(s, [], Some(f))
      case Success(t) => Prepend(t.outputs, RunFrom(t.next, trace[1..]))
  }

  lemma {:induction false} RunPreservesValid(s: State, trace: seq<Arrival>)
    requires Valid(s)
    ensures Valid(RunFrom(s, trace).state)
    decreases |trace|
  {
    if trace != [] && Step(s, trace[0]).Success? {
      StepPreservesValid(s, trace[0]);
      RunPreservesValid(Step(s, trace[0]).value.next, trace[1..]);
    }
  }

  /** Every cluster reported over a run has more than one member and no
      repeated window. */
  lemma {:induction false} ReportedClustersAreBursts(s: State, trace: seq<Arrival>)
    requires Valid(s)
    ensures forall i :: 0 <= i < |RunFrom(s, trace).outputs| && RunFrom(s, trace).outputs[i].Report? ==>
      |RunFrom(s, trace).outputs[i].members| > 1 && Distinct(RunFrom(s, trace).outputs[i].members)
    decreases |trace|
  {
    if trace != [] && Step(s, trace[0]).Success? {
      var t := Step(s, trace[0]).value;
      ReportIff(s, trace[0], s.cluster);
      StepPreservesValid(s, trace[0]);
      ReportedClustersAreBursts(t.next, trace[1..]);
      var rest := RunFrom(t.next, trace[1..]);
      assert RunFrom(s, trace).outputs == t.outputs + rest.outputs;
      assert t.outputs == [] || t.outputs == [Report(s.cluster)] || t.outputs[0].Dispatch?;
    }
  }

  /** The clock readings never go back, neither below `floor` nor from one
      arrival to a later one. The program reads the clock only for window
      events, so for other arrivals `time` is a placeholder that this
      predicate constrains as well. */
  ghost predicate ClockMonotone(floor: Option<Millis>, trace: seq<Arrival>) {
    && (forall i, j :: 0 <= i < j < |trace| ==> trace[i].time <= trace[j].time)
    && (floor.Some? ==> forall i :: 0 <= i < |trace| ==> floor.value <= trace[i].time)
  }

  lemma StepTimestamp(s: State, a: Arrival)
    requires Step(s, a).Success?
    ensures Step(s, a).value.next.lastTimestamp in {s.lastTimestamp, Some(a.time)}
  {
  }

  /** With a clock that does not go back, the gap subtraction never
      underflows and the loop runs to the end of the trace. */
  lemma {:induction false} MonotoneClockNeverFaults(s: State, trace: seq<Arrival>)
    requires ClockMonotone(s.lastTimestamp, trace)
    ensures RunFrom(s, trace).fault.None?
    decreases |trace|
  {
    if trace != [] {
      assert Step(s, trace[0]).Success?;
      var next := Step(s, trace[0]).value.next;
      StepTimestamp(s, trace[0]);
      assert forall i :: 0 <= i < |trace[1..]| ==> trace[1..][i] == trace[i + 1];
      assert ClockMonotone(next.lastTimestamp, trace[1..]);
      MonotoneClockNeverFaults(next, trace[1..]);
    }
  }

  /** Two traces that differ at most in how each `send_action` call turns
      out. */
  ghost predicate SameEventsAndTimes(t1: seq<Arrival>, t2: seq<Arrival>) {
    && |t1| == |t2|
    && forall i :: 0 <= i < |t1| ==> t1[i].event == t2[i].event && t1[i].time == t2[i].time
  }

  lemma EraseConcat(a: seq<Output>, b: seq<Output>)
    ensures Erase(a + b) == Erase(a) + Erase(b)
  {
  }

  /** The outcomes of the consume actions never steer the loop: the state
      reached, the fault and the actions taken are the same either way. */
  lemma {:induction false} RunIgnoresSendOutcome(s: State, t1: seq<Arrival>, t2: seq<Arrival>)
    requires SameEventsAndTimes(t1, t2)
    ensures RunFrom(s, t1).state == RunFrom(s, t2).state
    ensures RunFrom(s, t1).fault == RunFrom(s, t2).fault
    ensures Erase(RunFrom(s, t1).outputs) == Erase(RunFrom(s, t2).outputs)
    decreases |t1|
  {
    if t1 != [] {
      assert t2[0] == t1[0].(sendSucceeded := t2[0].sendSucceeded);
      SendOutcomeIrrelevant(s, t1[0], t2[0].sendSucceeded);
      if Step(s, t1[0]).Success? {
        var a1, a2 := Step(s, t1[0]).value, Step(s, t2[0]).value;
        assert SameEventsAndTimes(t1[1..], t2[1..]) by {
          assert forall i :: 0 <= i < |t1[1..]| ==> t1[1..][i] == t1[i + 1] && t2[1..][i] == t2[i + 1];
        }
        RunIgnoresSendOutcome(a1.next, t1[1..], t2[1..]);
        var r1, r2 := RunFrom(a1.next, t1[1..]), RunFrom(a2.next, t2[1..]);
        EraseConcat(a1.outputs, r1.outputs);
        EraseConcat(a2.outputs, r2.outputs);
      }
    }
  }

  /** The ids of the consume actions sent, in order. */
  function Dispatched(outs: seq<Output>): seq<WindowId> {
    if outs == [] then []
    else (if outs[0].Dispatch? then [outs[0].id] else []) + Dispatched(outs[1..])
  }

  /** The members of a cluster that joined after its seed. */
  function Joiners(c: seq<WindowId>): seq<WindowId> {
    if c == [] then [] else c[1..]
  }

  /** The joiners of every reported cluster, in order of the reports. */
  function ReportedJoiners(outs: seq<Output>): seq<WindowId> {
    if outs == [] then []
    else (if outs[0].Report? then Joiners(outs[0].members) else []) + ReportedJoiners(outs[1..])
  }

  lemma {:induction false} DispatchedConcat(a: seq<Output>, b: seq<Output>)
    ensures Dispatched(a + b) == Dispatched(a) + Dispatched(b)
    decreases |a|
  {
    if a == [] {
      assert a + b == b;
    } else {
      assert (a + b)[0] == a[0];
      assert (a + b)[1..] == a[1..] + b;
      DispatchedConcat(a[1..], b);
    }
  }

  lemma {:induction false} ReportedJoinersConcat(a: seq<Output>, b: seq<Output>)
    ensures ReportedJoiners(a + b) == ReportedJoiners(a) + ReportedJoiners(b)
    decreases |a|
  {
    if a == [] {
      assert a + b == b;
    } else {
      assert (a + b)[0] == a[0];
      assert (a + b)[1..] == a[1..] + b;
      ReportedJoinersConcat(a[1..], b);
    }
  }

  /** One step of the ledger: what the open cluster's joiners plus the
      actions sent now amount to is what was reported plus the joiners of
      the cluster left open. */
  lemma StepLedger(s: State, a: Arrival)
    requires Valid(s)
    requires Step(s, a).Success?
    ensures var t := Step(s, a).value;
      Joiners(s.cluster) + Dispatched(t.outputs) == ReportedJoiners(t.outputs) + Joiners(t.next.cluster)
  {
  }

  /** The consume-action ledger: every window dispatched is a non-seed
      member of exactly the cluster it joined, in order; so the actions sent
      are the joiners of the clusters reported so far followed by those of
      the cluster still open, no seed is ever dispatched for its own cluster,
      and clusters of one member send nothing. */
  lemma {:induction false} DispatchLedger(s: State, trace: seq<Arrival>)
    requires Valid(s)
    ensures var r := RunFrom(s, trace);
      Joiners(s.cluster) + Dispatched(r.outputs) == ReportedJoiners(r.outputs) + Joiners(r.state.cluster)
    decreases |trace|
  {
    if trace != [] && Step(s, trace[0]).Success? {
      var t := Step(s, trace[0]).value;
      StepLedger(s, trace[0]);
      StepPreservesValid(s, trace[0]);
      DispatchLedger(t.next, trace[1..]);
      var rest := RunFrom(t.next, trace[1..]);
      DispatchedConcat(t.outputs, rest.outputs);
      ReportedJoinersConcat(t.outputs, rest.outputs);
      assert RunFrom(s, trace) == Prepend(t.outputs, rest);
      LedgerCompose(Joiners(s.cluster), Dispatched(t.outputs), ReportedJoiners(t.outputs), Joiners(t.next.cluster),
                    Dispatched(rest.outputs), ReportedJoiners(rest.outputs), Joiners(rest.state.cluster));
    }
  }

  lemma LedgerCompose<T>(j0: seq<T>, d1: seq<T>, r1: seq<T>, j1: seq<T>, d2: seq<T>, r2: seq<T>, j2: seq<T>)
    requires j0 + d1 == r1 + j1
    requires j1 + d2 == r2 + j2
    ensures j0 + (d1 + d2) == (r1 + r2) + j2
  {
    calc {
      j0 + (d1 + d2);
      (j0 + d1) + d2;
      (r1 + j1) + d2;
      r1 + (j1 + d2);
      r1 + (r2 + j2);
    }
  }

  /** From the start, the actions sent are exactly the joiners of all the
      clusters reported and of the one still open; their number is the sum
      of the reported clusters' sizes less one each, plus the open
      cluster's size less one. */
  lemma DispatchesMatchClusters(trace: seq<Arrival>)
    ensures var r := RunFrom(Initial, trace);
      && Dispatched(r.outputs) == ReportedJoiners(r.outputs) + Joiners(r.state.cluster)
      && |Dispatched(r.outputs)| == |ReportedJoiners(r.outputs)| + (if r.state.cluster == [] then 0 else |r.state.cluster| - 1)
  {
    InitialIsValid();
    DispatchLedger(Initial, trace);
  }

  /** Between resets: from a freshly seeded cluster, a run that reports
      nothing has sent one consume action per member after the seed, each id
      at most once and never the seed's. */
  lemma OpenBurstDispatches(s: State, trace: seq<Arrival>)
    requires Valid(s) && |s.cluster| <= 1
    requires forall i :: 0 <= i < |RunFrom(s, trace).outputs| ==> RunFrom(s, trace).outputs[i].Dispatch?
    ensures var r := RunFrom(s, trace);
      && Dispatched(r.outputs) == Joiners(r.state.cluster)
      && Distinct(Dispatched(r.outputs))
      && (r.state.cluster != [] ==> r.state.cluster[0] !in Dispatched(r.outputs))
  {
    var r := RunFrom(s, trace);
    DispatchLedger(s, trace);
    RunPreservesValid(s, trace);
    NoReportsNoJoiners(r.outputs);
    assert Joiners(s.cluster) == [];
    assert Dispatched(r.outputs) == Joiners(r.state.cluster) by {
      assert [] + Dispatched(r.outputs) == Dispatched(r.outputs);
      assert [] + Joiners(r.state.cluster) == Joiners(r.state.cluster);
    }
    var c := r.state.cluster;
    if c != [] {
      assert forall i :: 0 <= i < |c[1..]| ==> c[1..][i] == c[i + 1];
      assert forall i :: 0 <= i < |c[1..]| ==> c[0] != c[1..][i];
    }
  }

  lemma {:induction false} NoReportsNoJoiners(outs: seq<Output>)
    requires forall i :: 0 <= i < |outs| ==> outs[i].Dispatch?
    ensures ReportedJoiners(outs) == []
    decreases |outs|
  {
    if outs != [] {
      assert forall i :: 0 <= i < |outs[1..]| ==> outs[1..][i] == outs[i + 1];
      NoReportsNoJoiners(outs[1..]);
    }
  }
}
