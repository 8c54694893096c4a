/**
 * `ZMQ_Stream.zmq_monitor_loop`: each received message is read, classified and, when it is
 * a valid frame, handed to `TomoStreamPVASet.broadcast_image`; every exception an
 * iteration raises is caught and the loop goes on with the next message.
 */
module StreamLoop {
  import opened Wrappers
  import opened Bytes
  import opened TextOps
  import opened Params
  import opened Decoder
  import opened Classifier
  import opened Dispatch

  /** How one iteration of the monitor loop ends. */
  datatype Outcome =
    | ReadFailed(error: ReadError)        // read raised; caught
    | NotAFrame                           // read returned (None, None); is_final raised on it; caught
    | Skipped(c: FrameClass)              // final, garbage or null frame; `continue`
    | NoFrameId                           // fewer than five info words: info[4] raised; caught
    | Dispatched(fault: Option<Fault>)    // broadcast_image ran, and raised `fault` if any; caught

  /** The calls one iteration makes on the broadcasters and on EPICS, and how it ends. */
  datatype StepResult = StepResult(events: seq<Event>, outcome: Outcome)

  /** A message whose frame reaches broadcast_image. */
  predicate Reaches(m: Message)
  {
    Read(m).Decoded? && Classify(Read(m).frame) == Valid && |Read(m).frame.info| >= 5
  }

  /** One iteration of the loop body on message `m`. */
  function StepOf(m: Message): StepResult
  {
    match Read(m)
    case Failed(e) => StepResult([], ReadFailed(e))
    case Rejected => StepResult([], NotAFrame)
    case Decoded(f) =>
      var c := Classify(f);
      if c != Valid then StepResult([], Skipped(c))
      else
        var d := ParamsDict(Text(f.params));
        if |f.info| < 5 then StepResult([], NoFrameId)
        else
          var t := DispatchTrace(f.image, d, f.info[4]);
          StepResult(t.events, Dispatched(t.fault))
  }

  /** The calls of a sequence of iterations, in order. */
  function Concat(steps: seq<StepResult>): seq<Event>
  {
    if steps == [] then [] else Concat(steps[..|steps| - 1]) + steps[|steps| - 1].events
  }

  lemma {:induction false} ConcatAppend(a: seq<StepResult>, b: seq<StepResult>)
    ensures Concat(a + b) == Concat(a) + Concat(b)
  {
    if b == [] {
      assert a + b == a;
    } else {
      var last := |b| - 1;
      assert (a + b)[..|a + b| - 1] == a + b[..last];
      ConcatAppend(a, b[..last]);
    }
  }

  /** The iterations over `ms`, one per message. */
  function Steps(ms: seq<Message>): (r: seq<StepResult>)
    ensures |r| == |ms|
  {
    if ms == [] then [] else Steps(ms[..|ms| - 1]) + [StepOf(ms[|ms| - 1])]
  }

  lemma {:induction false} StepsAppend(a: seq<Message>, b: seq<Message>)
    ensures Steps(a + b) == Steps(a) + Steps(b)
  {
    if b == [] {
      assert a + b == a;
    } else {
      var last := |b| - 1;
      assert (a + b)[..|a + b| - 1] == a + b[..last];
      assert (a + b)[|a + b| - 1] == b[last];
      StepsAppend(a, b[..last]);
    }
  }

  /** Iteration k is the loop body run on message k. */
  lemma {:induction false} StepsAt(ms: seq<Message>, k: int)
    requires 0 <= k < |ms|
    ensures Steps(ms)[k] == StepOf(ms[k])
  {
    var last := |ms| - 1;
    if k < last {
      StepsAt(ms[..last], k);
      assert ms[..last][k] == ms[k];
    }
  }

  /** The calls the loop makes over a sequence of messages, message by message. */
  function RunEvents(ms: seq<Message>): seq<Event>
  {
    Concat(Steps(ms))
  }

  /** Dropping an iteration that made no call leaves the calls of the others unchanged. */
  lemma ConcatSilent(a: seq<StepResult>, s: StepResult, b: seq<StepResult>)
    requires s.events == []
    ensures Concat(a + [s] + b) == Concat(a + b)
  {
    ConcatAppend(a + [s], b);
    ConcatAppend(a, [s]);
    ConcatAppend(a, b);
    assert [s][..0] == [];
  }

  /** An iteration whose frame does not reach broadcast_image makes no call. */
  lemma SilentUnlessReaches(m: Message)
    ensures !Reaches(m) ==> StepOf(m).events == []
    ensures StepOf(m).outcome.Dispatched? <==> Reaches(m)
  {
  }

  /** Running over `a` and then over `b` is running over `a + b`: iterations do not interact. */
  lemma RunAppend(a: seq<Message>, b: seq<Message>)
    ensures RunEvents(a + b) == RunEvents(a) + RunEvents(b)
  {
    StepsAppend(a, b);
    ConcatAppend(Steps(a), Steps(b));
  }

  /**
   * Fault isolation: a message that raises before broadcast_image, or is skipped, leaves
   * behind no call at all, so the loop does over the others exactly what it would do
   * without it. (A message that raises inside broadcast_image keeps the calls made before
   * the exception; RunAppend still keeps them apart from the other messages' calls.)
   */
  lemma FaultIsolation(a: seq<Message>, bad: Message, b: seq<Message>)
    requires !Reaches(bad)
    ensures RunEvents(a + [bad] + b) == RunEvents(a + b)
  {
    SilentUnlessReaches(bad);
    StepsAppend(a + [bad], b);
    StepsAppend(a, [bad]);
    StepsAppend(a, b);
    assert Steps([bad]) == [StepOf(bad)] by {
      assert [bad][..0] == [];
    }
    ConcatSilent(Steps(a), StepOf(bad), Steps(b));
  }

  /** An iteration that made a call ran broadcast_image. */
  predicate Coherent(s: StepResult)
  {
    s.events != [] ==> s.outcome.Dispatched?
  }

  lemma {:induction false} StepsCoherent(ms: seq<Message>)
    ensures forall k :: 0 <= k < |Steps(ms)| ==> Coherent(Steps(ms)[k])
  {
    if ms != [] {
      var last := |ms| - 1;
      StepsCoherent(ms[..last]);
      SilentUnlessReaches(ms[last]);
    }
  }

  /** Every call in a sequence of iterations was made by one of them. */
  lemma {:induction false} ConcatMember(steps: seq<StepResult>, e: Event)
    requires e in Concat(steps)
    ensures exists k :: 0 <= k < |steps| && e in steps[k].events
  {
    var last := |steps| - 1;
    if e in Concat(steps[..last]) {
      ConcatMember(steps[..last], e);
      var k :| 0 <= k < last && e in steps[..last][k].events;
      assert steps[..last][k] == steps[k];
    }
  }

  /**
   * Every call the loop makes was made by an iteration that reached broadcast_image
   * (SilentUnlessReaches: one whose frame was read, was valid and had a frame id).
   */
  lemma OnlyReachingFramesEmit(ms: seq<Message>, e: Event)
    requires e in RunEvents(ms)
    ensures exists k :: 0 <= k < |Steps(ms)| && e in Steps(ms)[k].events && Steps(ms)[k].outcome.Dispatched?
  {
    ConcatMember(Steps(ms), e);
    StepsCoherent(ms);
  }

  /**
   * A frame that reaches broadcast_image is broadcast at most once, carrying the frame
   * itself and info[4] as its id, and it is broadcast exactly when its image key is 0, 1 or 2.
   */
  lemma StepBroadcast(m: Message)
    requires Reaches(m)
    ensures var f := Read(m).frame;
      var d := ParamsDict(Text(f.params));
      var bs := Broadcasts(StepOf(m).events);
      && (|bs| <= 1)
      && (forall i :: 0 <= i < |bs| ==> bs[i].Broadcast? && bs[i].frameId == f.info[4] && bs[i].frame == f.image)
      && (|bs| == 1 <==> BroadcastsFrame(d))
  {
    var f := Read(m).frame;
    var d := ParamsDict(Text(f.params));
    assert StepOf(m).events == DispatchTrace(f.image, d, f.info[4]).events;
    DispatchBroadcasts(f.image, d, f.info[4]);
  }

  /** The loop over one more message makes that message's calls after the others. */
  lemma RunSnoc(ms: seq<Message>, m: Message)
    ensures RunEvents(ms + [m]) == RunEvents(ms) + StepOf(m).events
  {
    RunAppend(ms, [m]);
    assert Steps([m]) == [StepOf(m)] by {
      assert [m][..0] == [];
    }
    assert Concat([StepOf(m)]) == Concat([]) + StepOf(m).events;
  }

  /** A message whose start or end tag is wrong makes no call, wherever it sits in the stream. */
  lemma BadTagsDropped(a: seq<Message>, m: Message, b: seq<Message>)
    requires !TagsOk(m)
    ensures RunEvents(a + [m] + b) == RunEvents(a + b)
  {
    FaultIsolation(a, m, b);
  }

  /**
   * Sequence associativity, stated apart from the loop so that the solver does not meet
   * it beside the definitions of RunEvents and StepOf.
   */
  lemma AppendAssociates(a: seq<Event>, b: seq<Event>, c: seq<Event>)
    ensures a + (b + c) == (a + b) + c
  {
  }

  /** One more turn of the loop: `l1` and `l2` are the logs before and after the turn on message i. */
  lemma LoopStep(ms: seq<Message>, i: int, l0: seq<Event>, l1: seq<Event>, l2: seq<Event>)
    requires 0 <= i < |ms|
    requires l1 == l0 + RunEvents(ms[..i]) && l2 == l1 + StepOf(ms[i]).events
    ensures l2 == l0 + RunEvents(ms[..i + 1])
  {
    assert ms[..i + 1] == ms[..i] + [ms[i]];
    RunSnoc(ms[..i], ms[i]);
    AppendAssociates(l0, RunEvents(ms[..i]), StepOf(ms[i]).events);
  }

  /** ZMQ_Stream: a reader (which holds no state) and the broadcaster set it feeds. */
  class ZmqStream {
    const pvaSet: TomoStreamPvaSet

    constructor (pvaSet: TomoStreamPvaSet)
      ensures this.pvaSet == pvaSet
    {
      this.pvaSet := pvaSet;
    }

    /** One pass through the loop body with the message the socket delivered. */
    method Step(m: Message) returns (outcome: Outcome)
      modifies pvaSet
      ensures pvaSet.log == old(pvaSet.log) + StepOf(m).events
      ensures outcome == StepOf(m).outcome
    {
      var r := Read(m);
      if r.Failed? {
        return ReadFailed(r.error);
      }
      if r.Rejected? {
        return NotAFrame;
      }
      var f := r.frame;
      var c := Classify(f);
      if c != Valid {
        return Skipped(c);
      }
      var d := ParamsToDict(f.params);
      if |f.info| < 5 {
        return NoFrameId;
      }
      var fault := pvaSet.BroadcastImage(f.image, d, f.info[4]);
      return Dispatched(fault);
    }

    /**
     * The loop over the messages `ms`, in arrival order: the calls made are those of each
     * message in turn, whatever the earlier messages raised.
     */
    method MonitorLoop(ms: seq<Message>)
      modifies pvaSet
      ensures pvaSet.log == old(pvaSet.log) + RunEvents(ms)
    {
      var i := 0;
      while i < |ms|
        invariant 0 <= i <= |ms|
        invariant pvaSet.log == old(pvaSet.log) + RunEvents(ms[..i])
      {
        ghost var before := pvaSet.log;
        var _ := Step(ms[i]);
        LoopStep(ms, i, old(pvaSet.log), before, pvaSet.log);
        i := i + 1;
      }
      assert ms[..|ms|] == ms;
    }
  }
}
