/** The loop of `main` as the program writes it, over mutable locals, and the
    whole session around it: the subscription handshake, then events until the
    stream ends or a line cannot be read or decoded. */
module EventLoop {
  import opened Wrappers
  import opened Clustering
  import opened ClusteringFacts
  import opened Traces

  lemma PrependPrepend(o: seq<Output>, p: seq<Output>, r: Run)
    ensures Prepend(o, Prepend(p, r)) == Prepend(o + p, r)
  {
  }

  /** One unfolding of the fold at position `i`. */
  lemma RunFromAt(s: State, trace: seq<Arrival>, i: nat)
    requires i < |trace|
    ensures Step(s, trace[i]).Failure? ==> RunFrom(s, trace[i..]) == Run(s, [], Some(Step(s, trace[i]).error))
    ensures Step(s, trace[i]).Success? ==>
      RunFrom(s, trace[i..]) == Prepend(Step(s, trace[i]).value.outputs, RunFrom(Step(s, trace[i]).value.next, trace[i + 1..]))
  {
  }

  /** The event loop over a trace, updating `last_id`, `last_timestamp`,
      `cluster` and `cluster_ids` in place as the program does. It computes
      exactly the fold of `Step`, stops at the first clock fault, and ends in
      a state that keeps the loop invariant. On a fault `last_id` has already
      been overwritten, as in the program, and the state returned is the one
      before the faulting event; nothing observes either, since the process
      panics. */
  method ConsumeEvents(trace: seq<Arrival>) returns (outputs: seq<Output>, final: State, fault: Option<Fault>)
    ensures RunFrom(Initial, trace) == Run(final, outputs, fault)
    ensures Valid(final)
  {
    var lastId: Option<WindowId> := None;
    var lastTimestamp: Option<Millis> := None;
    var cluster: seq<WindowId> := [];
    var clusterIds: set<WindowId> := {};
    outputs := [];
    InitialIsValid();
    var i := 0;
    while i < |trace|
      invariant 0 <= i <= |trace|
      invariant Valid(State(lastId, lastTimestamp, cluster, clusterIds))
      invariant RunFrom(Initial, trace) == Prepend(outputs, RunFrom(State(lastId, lastTimestamp, cluster, clusterIds), trace[i..]))
    {
      var a := trace[i];
      var before := State(lastId, lastTimestamp, cluster, clusterIds);
      ghost var emitted := outputs;
      RunFromAt(before, trace, i);
      i := i + 1;
      if a.event.WindowOpenedOrChanged? && lastId != Some(a.event.id) {
        var id := a.event.id;
        lastId := Some(id);
        var gap: Option<nat> := None;
        if lastTimestamp.Some? {
          if a.time < lastTimestamp.value {
            final, fault := before, Some(ClockWentBackwards(lastTimestamp.value, a.time));
            return;
          }
          gap := Some(a.time - lastTimestamp.value);
        }
        lastTimestamp := Some(a.time);
        if gap.Some? && gap.value <= ThresholdMs {
          if id !in clusterIds {
            clusterIds := clusterIds + {id};
            cluster := cluster + [id];
            outputs := outputs + [Dispatch(id, a.sendSucceeded)];
          }
        } else {
          if |cluster| > 1 {
            outputs := outputs + [Report(cluster)];
          }
          cluster := [id];
          clusterIds := {id};
        }
      }
      var t := Step(before, a).value;
      assert t == Transition(State(lastId, lastTimestamp, cluster, clusterIds), outputs[|emitted|..]);
      assert outputs == emitted + t.outputs;
      StepPreservesValid(before, a);
      PrependPrepend(emitted, t.outputs, RunFrom(t.next, trace[i..]));
    }
    final, fault := State(lastId, lastTimestamp, cluster, clusterIds), None;
  }

  /** The reply to the event-stream request. */
  datatype Reply = Accepted | Refused | Unreadable

  /** A line of the event stream: a decoded event with what the environment
      supplies for it, or a line that could not be read or decoded. */
  datatype Line = Decoded(arrival: Arrival) | Broken

  /** How the process ends: at end of stream, on a failed handshake, on a
      stream error, or by the gap-subtraction panic. */
  datatype Exit = EndOfStream | HandshakeFailed | StreamFailed | Panicked(fault: Fault)

  datatype Session = Session(outputs: seq<Output>, exit: Exit)

  /** Consuming the event stream from state `s`. */
  function Listen(s: State, lines: seq<Line>): (r: Session)
    ensures r.exit != HandshakeFailed
    ensures |r.outputs| <= |lines|
    decreases |lines|
  {
    if lines == [] then Session([], EndOfStream)
    else match lines[0]
      case Broken => Session([], StreamFailed)
      case Decoded(a) =>
        match Step(s, a)
        case Failure(f) => Session([], Panicked(f))
        case Success(t) =>
          var rest := Listen(t.next, lines[1..]);
          Session(t.outputs + rest.outputs, rest.exit)
  }

  /** A whole run of the program: nothing is consumed unless niri accepts the
      event-stream request. */
  function Serve(handshake: Reply, lines: seq<Line>): (r: Session)
    ensures handshake != Accepted ==> r == Session([], HandshakeFailed)
    ensures handshake == Accepted ==> r.exit != HandshakeFailed
  {
    if handshake == Accepted then Listen(Initial, lines) else Session([], HandshakeFailed)
  }

  /** The arrivals before the first broken line. */
  function DecodedPrefix(lines: seq<Line>): (r: seq<Arrival>)
    ensures |r| <= |lines|
    ensures forall i :: 0 <= i < |r| ==> lines[i] == Decoded(r[i])
    ensures |r| < |lines| ==> lines[|r|] == Broken
  {
    if lines == [] || lines[0].Broken? then [] else [lines[0].arrival] + DecodedPrefix(lines[1..])
  }

  /** The session does what the fold does over the lines before the first
      broken one, then stops: on the panic if the fold faulted, on the
      broken line if there is one, and at end of stream otherwise. */
  lemma {:induction false} ListenIsRunUntilBroken(s: State, lines: seq<Line>)
    ensures var r := RunFrom(s, DecodedPrefix(lines));
      && Listen(s, lines).outputs == r.outputs
      && Listen(s, lines).exit == (
           if r.fault.Some? then Panicked(r.fault.value)
           else if |DecodedPrefix(lines)| < |lines| then StreamFailed
           else EndOfStream)
    decreases |lines|
  {
    if lines != [] && lines[0].Decoded? {
      var p := DecodedPrefix(lines);
      assert p[0] == lines[0].arrival && p[1..] == DecodedPrefix(lines[1..]);
      if Step(s, lines[0].arrival).Success? {
        ListenIsRunUntilBroken(Step(s, lines[0].arrival).value.next, lines[1..]);
      }
    }
  }
}
