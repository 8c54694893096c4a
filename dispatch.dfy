/**
 * `TomoStreamPVASet.broadcast_image`, `parse_image_params`, `broadcast_theta` and
 * `update_ancillary_pvs`: routing a valid frame to its broadcaster and writing the
 * TomoStream process variables.
 *
 * The broadcasters' `frameProducer` and `epics.caput` are calls into code outside this
 * model; each call is recorded as an Event, in order. An exception is recorded as the
 * Fault that ends the Trace; the events before it have already happened.
 */
module Dispatch {
  import opened Wrappers
  import opened TextOps
  import opened Params
  import opened Decoder

  const TOMOSTREAM_PREFIX := "ALS832:TomoStream:"

  /** The three broadcasters a frame can be routed to (data_broadcast, white_broadcast, dark_broadcast). */
  datatype Sink = DataSink | WhiteSink | DarkSink

  /** A shape value handed to the broadcaster: the parameter's text, or the integer 0 used when a shape key is missing. */
  datatype Extent = FromParam(text: string) | ZeroExtent

  datatype ImageParams = ImageParams(columns: Extent, rows: Extent, dtype: string)

  datatype PvValue = IntValue(i: int) | RealValue(r: real) | TextValue(s: string)

  datatype Event =
    | Broadcast(sink: Sink, frameId: nat, frame: Image, columns: Extent, rows: Extent, dtype: string)
    | ThetaComputed(numAngles: nat, angleRange: real)
    | Caput(pv: string, value: PvValue)

  /**
   * The exceptions the dispatch code can raise: a missing key (KeyError), text that
   * `int()` or `float()` rejects (ValueError), `dtype` used while unbound
   * (UnboundLocalError), a division by zero, and a negative sample count for linspace.
   */
  datatype Fault =
    | MissingKey(key: string)
    | NotAnInt(text: string)
    | NotAFloat(text: string)
    | UnboundDtype
    | ZeroDivision
    | NegativeSampleCount(count: int)

  /** The calls made, in order, and the exception that ended the sequence, if any. */
  datatype Trace = Trace(events: seq<Event>, fault: Option<Fault>)

  const DONE := Trace([], None)

  function Raise(f: Fault): Trace
  {
    Trace([], Some(f))
  }

  /** Make the call `e`, then go on as `rest`. */
  function Emit(e: Event, rest: Trace): Trace
  {
    Trace([e] + rest.events, rest.fault)
  }

  /** Run `first`; only if it did not raise, run `next` after it. */
  function Then(first: Trace, next: Trace): Trace
  {
    if first.fault.Some? then first else Trace(first.events + next.events, next.fault)
  }

  /** The value of `present` if it is a key, else the value of `carried` if that is one. */
  function Preferred(d: ParamDict, present: string, carried: string): (r: Option<string>)
    ensures r.Some? <==> present in d || carried in d
    ensures present in d ==> r == Some(d[present])
    ensures present !in d && carried in d ==> r == Some(d[carried])
  {
    if present in d then Some(d[present]) else if carried in d then Some(d[carried]) else None
  }

  /** `d[key]` in a context that needs an int. */
  function IntParam(d: ParamDict, key: string): Result<int, Fault>
  {
    if key !in d then Err(MissingKey(key))
    else match ParseInt(d[key])
      case None => Err(NotAnInt(d[key]))
      case Some(n) => Ok(n)
  }

  /** `d[key]` in a context that needs a float. */
  function FloatParam(d: ParamDict, key: string): Result<real, Fault>
  {
    if key !in d then Err(MissingKey(key))
    else match ParseFloat(d[key])
      case None => Err(NotAFloat(d[key]))
      case Some(x) => Ok(x)
  }

  /**
   * parse_image_params: columns from -nrays (else +nrays), rows from -nslices (else
   * +nslices), and (0, 0, 'uint16') as soon as one of them is missing. With both present,
   * dtype is only ever bound when -dtype is present and empty; otherwise returning it raises.
   */
  function ParseImageParams(d: ParamDict): (r: Result<ImageParams, Fault>)
    ensures var hasShape := ("-nrays" in d || "+nrays" in d) && ("-nslices" in d || "+nslices" in d);
      && (r.Ok? <==> !hasShape || ("-dtype" in d && d["-dtype"] == ""))
      && (r.Err? ==> r.error == UnboundDtype)
      && (!hasShape ==> r == Ok(ImageParams(ZeroExtent, ZeroExtent, "uint16")))
      && (r.Ok? && hasShape ==>
            r.value.columns == FromParam(if "-nrays" in d then d["-nrays"] else d["+nrays"]) &&
            r.value.rows == FromParam(if "-nslices" in d then d["-nslices"] else d["+nslices"]))
    ensures r.Ok? ==> r.value.dtype == "uint16"
  {
    match Preferred(d, "-nrays", "+nrays")
    case None => Ok(ImageParams(ZeroExtent, ZeroExtent, "uint16"))
    case Some(columns) =>
      match Preferred(d, "-nslices", "+nslices")
      case None => Ok(ImageParams(ZeroExtent, ZeroExtent, "uint16"))
      case Some(rows) =>
        if "-dtype" in d && d["-dtype"] == "" then Ok(ImageParams(FromParam(columns), FromParam(rows), "uint16"))
        else Err(UnboundDtype)
  }

  /**
   * broadcast_theta: reads -nangles as an int and -arange as a float and computes
   * linspace(0, arange, nangles), which is only logged; a negative count makes linspace raise.
   */
  function ThetaTrace(d: ParamDict): Trace
  {
    match IntParam(d, "-nangles")
    case Err(f) => Raise(f)
    case Ok(n) =>
      match FloatParam(d, "-arange")
      case Err(f) => Raise(f)
      case Ok(a) =>
        if n < 0 then Raise(NegativeSampleCount(n)) else Trace([ThetaComputed(n, a)], None)
  }

  /**
   * update_ancillary_pvs: writes NumAngles, then RotationStep = arange / (NumAngles - 1),
   * then FrameType = the raw -image_key text, all under `prefix`.
   */
  function AncillaryTrace(prefix: string, d: ParamDict): Trace
  {
    match IntParam(d, "-nangles")
    case Err(f) => Raise(f)
    case Ok(n) =>
      Emit(Caput(prefix + "NumAngles", IntValue(n)),
        match FloatParam(d, "-arange")
        case Err(f) => Raise(f)
        case Ok(a) =>
          if n - 1 == 0 then Raise(ZeroDivision)
          else
            Emit(Caput(prefix + "RotationStep", RealValue(a / (n - 1) as real)),
              if "-image_key" !in d then Raise(MissingKey("-image_key"))
              else Emit(Caput(prefix + "FrameType", TextValue(d["-image_key"])), DONE)))
  }

  /** The broadcaster an image key selects, if any. */
  function SinkFor(key: int): Option<Sink>
  {
    if key == 0 then Some(DataSink)
    else if key == 1 then Some(WhiteSink)
    else if key == 2 then Some(DarkSink)
    else None
  }

  /** The if/elif chain on the image key: one broadcast (and for projections the theta step), or nothing. */
  function RouteTrace(frameData: Image, d: ParamDict, frameId: nat, p: ImageParams, key: int): Trace
  {
    match SinkFor(key)
    case None => DONE
    case Some(sink) =>
      var broadcast := Broadcast(sink, frameId, frameData, p.columns, p.rows, p.dtype);
      if sink == DataSink then Emit(broadcast, ThetaTrace(d)) else Emit(broadcast, DONE)
  }

  /** broadcast_image. */
  function DispatchTrace(frameData: Image, d: ParamDict, frameId: nat): Trace
  {
    if "-image_key" !in d then DONE
    else
      match ParseImageParams(d)
      case Err(f) => Raise(f)
      case Ok(p) =>
        match ParseInt(d["-image_key"])
        case None => Raise(NotAnInt(d["-image_key"]))
        case Some(key) => Then(RouteTrace(frameData, d, frameId, p, key), AncillaryTrace(TOMOSTREAM_PREFIX, d))
  }

  /** The broadcasts among `es`, in order. */
  function Broadcasts(es: seq<Event>): seq<Event>
  {
    if es == [] then []
    else (if es[0].Broadcast? then [es[0]] else []) + Broadcasts(es[1..])
  }

  /** The process-variable writes among `es`, in order. */
  function Caputs(es: seq<Event>): seq<Event>
  {
    if es == [] then []
    else (if es[0].Caput? then [es[0]] else []) + Caputs(es[1..])
  }

  lemma {:induction false} BroadcastsAppend(a: seq<Event>, b: seq<Event>)
    ensures Broadcasts(a + b) == Broadcasts(a) + Broadcasts(b)
  {
    if a != [] {
      assert (a + b)[1..] == a[1..] + b;
      BroadcastsAppend(a[1..], b);
    } else {
      assert a + b == b;
    }
  }

  lemma {:induction false} CaputsAppend(a: seq<Event>, b: seq<Event>)
    ensures Caputs(a + b) == Caputs(a) + Caputs(b)
  {
    if a != [] {
      assert (a + b)[1..] == a[1..] + b;
      CaputsAppend(a[1..], b);
    } else {
      assert a + b == b;
    }
  }

  lemma {:induction false} CaputsOnly(es: seq<Event>)
    requires forall i :: 0 <= i < |es| ==> es[i].Caput?
    ensures Caputs(es) == es && Broadcasts(es) == []
  {
    if es != [] {
      CaputsOnly(es[1..]);
    }
  }

  /** Without -image_key nothing is broadcast, nothing is written and nothing is raised. */
  lemma NoImageKeyNoEffects(frameData: Image, d: ParamDict, frameId: nat)
    requires "-image_key" !in d
    ensures DispatchTrace(frameData, d, frameId) == DONE
  {
  }

  /** When parse_image_params or int(-image_key) raises, this happens before any call. */
  lemma EarlyFaultsEmitNothing(frameData: Image, d: ParamDict, frameId: nat)
    requires "-image_key" in d
    requires ParseImageParams(d).Err? || ParseInt(d["-image_key"]).None?
    ensures DispatchTrace(frameData, d, frameId).events == []
    ensures DispatchTrace(frameData, d, frameId).fault.Some?
  {
  }

  /**
   * Routing: image key 0, 1 and 2 give exactly one broadcast, to the data, white and dark
   * broadcaster respectively, carrying the frame id, the frame and the parsed shape;
   * any other key gives none. Only key 0 computes theta.
   */
  lemma Routing(frameData: Image, d: ParamDict, frameId: nat)
    requires "-image_key" in d && ParseImageParams(d).Ok? && ParseInt(d["-image_key"]).Some?
    ensures var p := ParseImageParams(d).value;
      var key := ParseInt(d["-image_key"]).value;
      var es := DispatchTrace(frameData, d, frameId).events;
      && Broadcasts(es) == (if 0 <= key <= 2 then [Broadcast(SinkFor(key).value, frameId, frameData, p.columns, p.rows, p.dtype)] else [])
      && (key != 0 ==> forall i :: 0 <= i < |es| ==> !es[i].ThetaComputed?)
  {
    var p := ParseImageParams(d).value;
    var key := ParseInt(d["-image_key"]).value;
    var route := RouteTrace(frameData, d, frameId, p, key);
    var meta := AncillaryTrace(TOMOSTREAM_PREFIX, d);
    CaputsOnly(meta.events);
    var es := DispatchTrace(frameData, d, frameId).events;
    if route.fault.None? {
      assert es == route.events + meta.events;
      BroadcastsAppend(route.events, meta.events);
    }
    if SinkFor(key).Some? {
      var b := Broadcast(SinkFor(key).value, frameId, frameData, p.columns, p.rows, p.dtype);
      if key == 0 {
        var theta := ThetaTrace(d).events;
        assert route.events == [b] + theta;
        NoBroadcastsInTheta(theta);
        BroadcastsAppend([b], theta);
      } else {
        assert route.events == [b];
      }
    }
  }

  /**
   * broadcast_theta succeeds exactly when -nangles is an int, -arange is a float and the
   * count is not negative; it then computes theta once, and otherwise raises before doing so.
   */
  lemma ThetaOutcomes(d: ParamDict)
    ensures var t := ThetaTrace(d);
      && (t.fault.None? <==>
            IntParam(d, "-nangles").Ok? && FloatParam(d, "-arange").Ok? && IntParam(d, "-nangles").value >= 0)
      && (t.fault.None? ==>
            t.events == [ThetaComputed(IntParam(d, "-nangles").value, FloatParam(d, "-arange").value)])
      && (t.fault.Some? ==> t.events == [])
      && (IntParam(d, "-nangles").Err? ==> t.fault == Some(IntParam(d, "-nangles").error))
      && (IntParam(d, "-nangles").Ok? && FloatParam(d, "-arange").Err? ==> t.fault == Some(FloatParam(d, "-arange").error))
      && (IntParam(d, "-nangles").Ok? && FloatParam(d, "-arange").Ok? && IntParam(d, "-nangles").value < 0 ==>
            t.fault == Some(NegativeSampleCount(IntParam(d, "-nangles").value)))
  {
  }

  /**
   * The whole sequence of calls of broadcast_image once the shape and the key are read:
   * the broadcast comes first; for key 0 the theta step follows it, and if theta raises
   * nothing else happens; otherwise the writes of update_ancillary_pvs come last, and
   * their exception is the exception of the whole call. Any other key gives only those writes.
   */
  lemma DispatchOrder(frameData: Image, d: ParamDict, frameId: nat)
    requires "-image_key" in d && ParseImageParams(d).Ok? && ParseInt(d["-image_key"]).Some?
    ensures var p := ParseImageParams(d).value;
      var key := ParseInt(d["-image_key"]).value;
      var t := DispatchTrace(frameData, d, frameId);
      var meta := AncillaryTrace(TOMOSTREAM_PREFIX, d);
      var thetaOk := IntParam(d, "-nangles").Ok? && FloatParam(d, "-arange").Ok? && IntParam(d, "-nangles").value >= 0;
      && (key == 1 || key == 2 ==>
            t == Trace([Broadcast(SinkFor(key).value, frameId, frameData, p.columns, p.rows, p.dtype)] + meta.events, meta.fault))
      && (key == 0 && thetaOk ==>
            t == Trace([Broadcast(DataSink, frameId, frameData, p.columns, p.rows, p.dtype),
                        ThetaComputed(IntParam(d, "-nangles").value, FloatParam(d, "-arange").value)] + meta.events,
                       meta.fault))
      && (key == 0 && !thetaOk ==>
            ThetaTrace(d).fault.Some? &&
            t == Trace([Broadcast(DataSink, frameId, frameData, p.columns, p.rows, p.dtype)], ThetaTrace(d).fault))
      && (!(0 <= key <= 2) ==> t == meta)
  {
    ThetaOutcomes(d);
  }

  /** The parameters under which broadcast_image broadcasts the frame: a readable shape and an image key of 0, 1 or 2. */
  predicate BroadcastsFrame(d: ParamDict)
  {
    "-image_key" in d && ParseImageParams(d).Ok? && ParseInt(d["-image_key"]).Some?
    && 0 <= ParseInt(d["-image_key"]).value <= 2
  }

  /** broadcast_image broadcasts the frame it is given at most once, under frameId, and exactly when BroadcastsFrame holds. */
  lemma DispatchBroadcasts(frameData: Image, d: ParamDict, frameId: nat)
    ensures var bs := Broadcasts(DispatchTrace(frameData, d, frameId).events);
      && |bs| <= 1
      && (forall i :: 0 <= i < |bs| ==> bs[i].Broadcast? && bs[i].frameId == frameId && bs[i].frame == frameData)
      && (|bs| == 1 <==> BroadcastsFrame(d))
  {
    if "-image_key" !in d {
      NoImageKeyNoEffects(frameData, d, frameId);
    } else if ParseImageParams(d).Err? || ParseInt(d["-image_key"]).None? {
      EarlyFaultsEmitNothing(frameData, d, frameId);
    } else {
      Routing(frameData, d, frameId);
    }
  }

  lemma {:induction false} NoBroadcastsInTheta(theta: seq<Event>)
    requires forall i :: 0 <= i < |theta| ==> theta[i].ThetaComputed?
    ensures Broadcasts(theta) == []
  {
    if theta != [] {
      NoBroadcastsInTheta(theta[1..]);
    }
  }

  /**
   * The three writes of update_ancillary_pvs, in order. With one angle the division raises
   * after NumAngles was written, so RotationStep and FrameType are never written.
   */
  lemma AncillaryWrites(prefix: string, d: ParamDict)
    requires IntParam(d, "-nangles").Ok? && FloatParam(d, "-arange").Ok? && "-image_key" in d
    ensures var n := IntParam(d, "-nangles").value;
      var a := FloatParam(d, "-arange").value;
      AncillaryTrace(prefix, d) ==
        if n == 1 then Trace([Caput(prefix + "NumAngles", IntValue(1))], Some(ZeroDivision))
        else Trace([Caput(prefix + "NumAngles", IntValue(n)),
                    Caput(prefix + "RotationStep", RealValue(a / (n - 1) as real)),
                    Caput(prefix + "FrameType", TextValue(d["-image_key"]))], None)
  {
  }

  /**
   * Once routing is done without an exception, whatever the key, the process-variable
   * writes of the whole dispatch are exactly those of update_ancillary_pvs, and so is its
   * exception. For a key other than 0, 1 and 2 they are the only effects. DispatchOrder
   * places them after the broadcast.
   */
  lemma MetadataFollowsRouting(frameData: Image, d: ParamDict, frameId: nat)
    requires "-image_key" in d && ParseImageParams(d).Ok? && ParseInt(d["-image_key"]).Some?
    requires var key := ParseInt(d["-image_key"]).value; key != 0 || ThetaTrace(d).fault.None?
    ensures var t := DispatchTrace(frameData, d, frameId);
      var meta := AncillaryTrace(TOMOSTREAM_PREFIX, d);
      Caputs(t.events) == meta.events && t.fault == meta.fault
    ensures SinkFor(ParseInt(d["-image_key"]).value).None? ==>
      DispatchTrace(frameData, d, frameId) == AncillaryTrace(TOMOSTREAM_PREFIX, d)
  {
    var p := ParseImageParams(d).value;
    var key := ParseInt(d["-image_key"]).value;
    var route := RouteTrace(frameData, d, frameId, p, key);
    var meta := AncillaryTrace(TOMOSTREAM_PREFIX, d);
    CaputsOnly(meta.events);
    assert Caputs(route.events) == [] by {
      if SinkFor(key).Some? {
        var b := Broadcast(SinkFor(key).value, frameId, frameData, p.columns, p.rows, p.dtype);
        if key == 0 {
          NoCaputsInTheta(ThetaTrace(d).events);
          CaputsAppend([b], ThetaTrace(d).events);
        }
      }
    }
    CaputsAppend(route.events, meta.events);
    if SinkFor(key).None? {
      assert route.events + meta.events == meta.events;
    }
  }

  lemma {:induction false} NoCaputsInTheta(theta: seq<Event>)
    requires forall i :: 0 <= i < |theta| ==> theta[i].ThetaComputed?
    ensures Caputs(theta) == []
  {
    if theta != [] {
      NoCaputsInTheta(theta[1..]);
    }
  }

  /** Five angles over 180 degrees give a rotation step of 45; one angle raises the division. */
  lemma RotationStepExamples()
    ensures var d := map["-nangles" := "5", "-arange" := "180", "-image_key" := "0"];
      AncillaryTrace(TOMOSTREAM_PREFIX, d).events ==
        [Caput(TOMOSTREAM_PREFIX + "NumAngles", IntValue(5)),
         Caput(TOMOSTREAM_PREFIX + "RotationStep", RealValue(45.0)),
         Caput(TOMOSTREAM_PREFIX + "FrameType", TextValue("0"))]
    ensures var d := map["-nangles" := "1", "-arange" := "180", "-image_key" := "0"];
      AncillaryTrace(TOMOSTREAM_PREFIX, d) ==
        Trace([Caput(TOMOSTREAM_PREFIX + "NumAngles", IntValue(1))], Some(ZeroDivision))
  {
    DigitsValueOfFormat(5);
    DigitsValueOfFormat(1);
    ParseIntOfFormat(5);
    ParseIntOfFormat(1);
    ParseFloatOfFormat(180);
    assert FormatNat(5) == "5";
    assert FormatNat(1) == "1";
    assert FormatNat(180) == "180";
  }

  /**
   * TomoStreamPVASet: the owner of the broadcasters. `log` holds every call made on the
   * broadcasters and on EPICS so far, oldest first.
   */
  class TomoStreamPvaSet {
    var log: seq<Event>

    constructor ()
      ensures log == []
    {
      log := [];
    }

    /** A call on a broadcaster or on EPICS. */
    method Publish(e: Event)
      modifies this
      ensures log == old(log) + [e]
    {
      log := log + [e];
    }

    method BroadcastTheta(d: ParamDict) returns (fault: Option<Fault>)
      modifies this
      ensures log == old(log) + ThetaTrace(d).events
      ensures fault == ThetaTrace(d).fault
    {
      var numAngles := IntParam(d, "-nangles");
      if numAngles.Err? {
        return Some(numAngles.error);
      }
      var angleRange := FloatParam(d, "-arange");
      if angleRange.Err? {
        return Some(angleRange.error);
      }
      if numAngles.value < 0 {
        return Some(NegativeSampleCount(numAngles.value));
      }
      Publish(ThetaComputed(numAngles.value, angleRange.value));
      return None;
    }

    method UpdateAncillaryPvs(prefix: string, d: ParamDict) returns (fault: Option<Fault>)
      modifies this
      ensures log == old(log) + AncillaryTrace(prefix, d).events
      ensures fault == AncillaryTrace(prefix, d).fault
    {
      var numAngles := IntParam(d, "-nangles");
      if numAngles.Err? {
        return Some(numAngles.error);
      }
      Publish(Caput(prefix + "NumAngles", IntValue(numAngles.value)));
      var angleRange := FloatParam(d, "-arange");
      if angleRange.Err? {
        return Some(angleRange.error);
      }
      if numAngles.value - 1 == 0 {
        return Some(ZeroDivision);
      }
      Publish(Caput(prefix + "RotationStep", RealValue(angleRange.value / (numAngles.value - 1) as real)));
      if "-image_key" !in d {
        return Some(MissingKey("-image_key"));
      }
      Publish(Caput(prefix + "FrameType", TextValue(d["-image_key"])));
      return None;
    }

    /** The if/elif chain of broadcast_image on the image key. */
    method RouteFrame(frameData: Image, d: ParamDict, frameId: nat, p: ImageParams, key: int) returns (fault: Option<Fault>)
      modifies this
      ensures log == old(log) + RouteTrace(frameData, d, frameId, p, key).events
      ensures fault == RouteTrace(frameData, d, frameId, p, key).fault
    {
      if key == 0 {
        Publish(Broadcast(DataSink, frameId, frameData, p.columns, p.rows, p.dtype));
        fault := BroadcastTheta(d);
      } else if key == 1 {
        Publish(Broadcast(WhiteSink, frameId, frameData, p.columns, p.rows, p.dtype));
        fault := None;
      } else if key == 2 {
        Publish(Broadcast(DarkSink, frameId, frameData, p.columns, p.rows, p.dtype));
        fault := None;
      } else {
        fault := None;
      }
    }

    method BroadcastImage(frameData: Image, d: ParamDict, frameId: nat) returns (fault: Option<Fault>)
      modifies this
      ensures log == old(log) + DispatchTrace(frameData, d, frameId).events
      ensures fault == DispatchTrace(frameData, d, frameId).fault
    {
      if "-image_key" !in d {
        return None;
      }
      var params := ParseImageParams(d);
      if params.Err? {
        return Some(params.error);
      }
      var key := ParseInt(d["-image_key"]);
      if key.None? {
        return Some(NotAnInt(d["-image_key"]));
      }
      ghost var route := RouteTrace(frameData, d, frameId, params.value, key.value);
      ghost var meta := AncillaryTrace(TOMOSTREAM_PREFIX, d);
      fault := RouteFrame(frameData, d, frameId, params.value, key.value);
      if fault.Some? {
        return;
      }
      fault := UpdateAncillaryPvs(TOMOSTREAM_PREFIX, d);
      assert log == old(log) + (route.events + meta.events);
    }
  }
}
