/** The stream bookkeeping of `startCamera` when its two halves are kept
    apart. The first half runs when the callback is called: it stops the
    stream held by the render the callback was created in, and asks
    `getUserMedia` for a new one. The second half runs when the browser
    answers: it holds the granted stream, or drops the held one on a refusal.
    Two requests may be outstanding at once: a camera toggle during the
    permission prompt of the first request, or "new photoshoot" while the
    camera is still inactive. Then both answers arrive after both requests. */
module CameraRequests {
  import opened Types

  /** A media stream handed out by `getUserMedia`, by identity. */
  type StreamId = nat

  /** The held stream, every stream granted so far, and every stream stopped so far. */
  datatype Camera = Camera(stream: Option<StreamId>, granted: seq<StreamId>, stopped: seq<StreamId>)

  /** At most one stream is live: every granted stream is stopped or held,
      and the held one was granted. */
  predicate Settled(c: Camera)
  {
    (c.stream.Some? ==> c.stream.value in c.granted) &&
    (forall k :: 0 <= k < |c.granted| ==> c.granted[k] in c.stopped || c.stream == Some(c.granted[k]))
  }

  /** The first half of `startCamera`: `seen` is the stream of the render
      whose callback runs, which is not always the one held now. */
  function Ask(c: Camera, seen: Option<StreamId>): Camera
  {
    c.(stopped := c.stopped + (if seen.Some? then [seen.value] else []))
  }

  /** The second half as the code has it: the answer replaces the held
      stream, granted or not, without stopping it. */
  function AnswerAsWritten(c: Camera, outcome: Option<StreamId>): Camera
  {
    Camera(outcome, c.granted + (if outcome.Some? then [outcome.value] else []), c.stopped)
  }

  /** The second half as intended: a held stream not stopped yet is stopped
      before the answer replaces it. */
  function Answer(c: Camera, outcome: Option<StreamId>): Camera
  {
    var c' := if c.stream.Some? && c.stream.value !in c.stopped then c.(stopped := c.stopped + [c.stream.value]) else c;
    AnswerAsWritten(c', outcome)
  }

  /** One half of some `startCamera` call. */
  datatype CameraEvent = Asked(seen: Option<StreamId>) | Answered(outcome: Option<StreamId>)

  /** The bookkeeping after `events`, answered as the code answers. */
  function RunAsWritten(c: Camera, events: seq<CameraEvent>): Camera
    decreases |events|
  {
    if events == [] then c
    else
      var c' := match events[0]
                case Asked(seen) => Ask(c, seen)
                case Answered(outcome) => AnswerAsWritten(c, outcome);
      RunAsWritten(c', events[1..])
  }

  /** The bookkeeping after `events`, answered as intended. */
  function Run(c: Camera, events: seq<CameraEvent>): Camera
    decreases |events|
  {
    if events == [] then c
    else
      var c' := match events[0]
                case Asked(seen) => Ask(c, seen)
                case Answered(outcome) => Answer(c, outcome);
      Run(c', events[1..])
  }

  /** When each request is answered before the next one is made, the call
      stops exactly the stream it finds held and the two answers agree: the
      one-step `startCamera` of the booth is both. */
  lemma OneCallAtATime(c: Camera, outcome: Option<StreamId>)
    requires Settled(c)
    ensures Answer(Ask(c, c.stream), outcome) == AnswerAsWritten(Ask(c, c.stream), outcome)
    ensures Settled(AnswerAsWritten(Ask(c, c.stream), outcome))
  {
    AskKeepsSettled(c, c.stream);
    AnswerKeepsSettled(Ask(c, c.stream), outcome);
  }

  /** As written, two overlapping requests leak a stream: both are made
      while no stream is held, the first grant (1) is held, and the second
      grant (2) replaces it without anyone stopping 1. */
  lemma OverlappingRequestsLeak()
    ensures var r := RunAsWritten(Camera(None, [], []), [Asked(None), Asked(None), Answered(Some(1)), Answered(Some(2))]);
            r == Camera(Some(2), [1, 2], []) && !Settled(r)
  {
    var r := RunAsWritten(Camera(None, [], []), [Asked(None), Asked(None), Answered(Some(1)), Answered(Some(2))]);
    assert r.granted[0] == 1;
  }

  /** Asking keeps the invariant, whatever stream the callback saw. */
  lemma AskKeepsSettled(c: Camera, seen: Option<StreamId>)
    requires Settled(c)
    ensures Settled(Ask(c, seen))
  {
    var r := Ask(c, seen);
    forall k | 0 <= k < |r.granted| ensures r.granted[k] in r.stopped || r.stream == Some(r.granted[k]) {
      assert c.granted[k] in c.stopped ==> c.granted[k] in r.stopped;
    }
  }

  /** The intended answer keeps the invariant, granted or refused. */
  lemma AnswerKeepsSettled(c: Camera, outcome: Option<StreamId>)
    requires Settled(c)
    ensures Settled(Answer(c, outcome))
  {
    var c' := if c.stream.Some? && c.stream.value !in c.stopped then c.(stopped := c.stopped + [c.stream.value]) else c;
    assert forall s :: s in c.stopped ==> s in c'.stopped;
    assert forall k :: 0 <= k < |c.granted| ==> c.granted[k] in c'.stopped;
    var r := Answer(c, outcome);
    forall k | 0 <= k < |r.granted| ensures r.granted[k] in r.stopped || r.stream == Some(r.granted[k]) {
      if k < |c.granted| {
        assert r.granted[k] == c.granted[k];
      }
    }
  }

  /** With the intended answer at most one stream is live after any
      interleaving of requests and answers. */
  lemma {:induction false} RunKeepsSettled(c: Camera, events: seq<CameraEvent>)
    requires Settled(c)
    ensures Settled(Run(c, events))
    decreases |events|
  {
    if events != [] {
      var c' := match events[0]
                case Asked(seen) => Ask(c, seen)
                case Answered(outcome) => Answer(c, outcome);
      match events[0] {
        case Asked(seen) => AskKeepsSettled(c, seen);
        case Answered(outcome) => AnswerKeepsSettled(c, outcome);
      }
      RunKeepsSettled(c', events[1..]);
    }
  }
}
