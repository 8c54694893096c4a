# zmq_to_pva core, modelled in Dafny

zmq_to_pva relays a tomography beamline's frames from a ZeroMQ stream to EPICS PV Access.
Each frame arrives as a seven-part message: start tag, image, info, HDF5 part, TIFF part,
parameters and end tag. `ReadBCSTomoData.read` decodes the big-endian info words and the
big-endian 16-bit image, reshapes the image to one frame of `info[1]` rows by `info[0]`
columns, and then checks the tags. The monitor loop of `ZMQ_Stream` drops final, garbage and
null frames. It turns the parameter block into a dictionary (`params_to_dict`) and passes
the frame to `TomoStreamPVASet.broadcast_image`. That routes the frame by its image key to the
data, white or dark broadcaster, computes theta for projections, and writes three TomoStream
process variables. `FrameGenerator` and `PVABroadcaster.adjust_dtype` come from the PVA side.

Modules, one per concern, in dependency order:

- `Wrappers` (wrappers.dfy): `Option` and `Result`.
- `Bytes` (bytes.dfy): bytes and big-endian numbers. `FromBuffer` is numpy's `frombuffer`
  with a big-endian element type, and `Pack` is its inverse. `Text` is the decoding of an
  ASCII parameter block.
- `TextOps` (text_ops.dfy): Python's `str.split` with a separator (`Split`), its inverse
  `Join`, and decimal `int()` / `float()` (`ParseInt`, `ParseFloat`) with `FormatNat` as
  their inverse.
- `Params` (params.dfy): `params_to_dict`, as a method with a loop, specified by `ParamsDict`.
- `Decoder` (decoder.dfy): `read`, as a pure function from the seven received parts to a
  decoded frame, the `(None, None)` result, or the exception it raises.
- `Classifier` (classifier.dfy): `is_final`, `is_delete`, `is_garbage`, `is_null_frame`
  and the order in which the loop applies them.
- `Dispatch` (dispatch.dfy): `broadcast_image`, `parse_image_params`, `broadcast_theta` and
  `update_ancillary_pvs`.
  - The `*Trace` functions give the calls each one makes on the broadcasters and on EPICS
    (`Event`s, in order) and the exception that ends it (`Fault`).
  - The class `TomoStreamPvaSet` performs them on its `log`.
- `PvaInstance` (pva_instance.dfy): the `FrameGenerator` class, whose `getFrameInfo` fills
  its shape fields lazily, and `adjust_dtype`.
- `StreamLoop` (stream_loop.dfy): one iteration of `zmq_monitor_loop` (`StepOf`,
  `ZmqStream.Step`) and the loop over a finite sequence of messages (`ZmqStream.MonitorLoop`).
  It proves that an iteration which raises before `broadcast_image`, or is skipped, leaves
  no trace, and that iterations never mix their calls (`RunAppend`).

Behaviour of the code worth knowing (the model follows the code):

- The last CRLF-separated line of a parameter block is kept even when it is empty. A block
  ending in CRLF therefore yields the key `""` mapped to `""`.
- The value of a parameter is the second space-separated token, not the rest of the line.
- The number of message parts is not checked, because seven parts are always read.
- A parameter block without `-image_key` makes `broadcast_image` print the parameters and return without a broadcast, a write or an exception (printing is left out).
- Missing shape keys give `(0, 0, 'uint16')`, and dispatch continues with them.
- With both shape keys present, `parse_image_params` binds `dtype` only when `-dtype` is
  present and empty. Otherwise it raises `UnboundLocalError` (`UnboundDtype`).

## Model

| member | source | states |
|---|---|---|
| Bytes.FromBufferWhole | pva_broadcast.py:163-167 | `frombuffer` with a 4- or 2-byte big-endian element succeeds exactly when the byte count is a multiple of the element size |
| Bytes.FromBufferElements | pva_broadcast.py:163-167 | element i of a decoded buffer is the big-endian value of bytes w·i … w·i+w−1 |
| Bytes.FromBufferOfPack | pva_broadcast.py:163-167 | decoding the big-endian encoding of values gives back exactly those values |
| Bytes.BigEndianOfToBigEndian | pva_broadcast.py:163-167 | reading a w-byte big-endian encoding of v gives v |
| Bytes.Text | pva_broadcast.py:197 | decoding keeps one character per byte, with the byte's code |
| TextOps.Find | pva_broadcast.py:197-200 | the first occurrence of the separator, or −1 exactly when there is none |
| TextOps.Split | pva_broadcast.py:197-200 | `str.split(sep)` gives at least one piece, and no piece contains the separator |
| TextOps.JoinSplit | pva_broadcast.py:197-200 | joining the pieces of a split with the separator gives back the text |
| TextOps.ParseInt | pva_broadcast.py:133 | `int()` accepts exactly an optional sign followed by decimal digits (no digit-count limit; see "## Left out") |
| TextOps.ParseIntOfFormat | pva_broadcast.py:133 | `int()` of the decimal text of any integer gives that integer (for texts within Python's digit limit; see "## Left out") |
| TextOps.ParseFloatOfFormat | pva_broadcast.py:144 | `float()` of the decimal text of a natural number gives that number |
| TextOps.DigitsValueOfFormat | pva_broadcast.py:133 | the digits written for n read back as n |
| Params.ParamsToDict | pva_broadcast.py:196-205 | the loop over the CRLF lines yields `ParamsDict` of the decoded block: each line sets key ← value in order |
| Params.KeyAndValue | pva_broadcast.py:200-204 | key is the text before the first space, value is the text between the first and second space, or "" without a space; neither contains a space |
| Params.DictOfKeys | pva_broadcast.py:199-204 | the dictionary's keys are exactly the keys of the lines |
| Params.DictOfLastWins | pva_broadcast.py:199-204 | a key repeated on several lines holds the value of its last line |
| Params.TrailingCrlfGivesEmptyKey | pva_broadcast.py:197-205 | a block that ends in CRLF maps the key "" to "" |
| Decoder.ReadOutcomes | pva_broadcast.py:150-175 | `read` raises exactly when the sizes are wrong: first for a partial info word, then for a partial image element, then for the shape. Otherwise the tags alone choose between the frame and `(None, None)` |
| Decoder.ReadInfo | pva_broadcast.py:163-164 | info word i is bytes 4+4i … 7+4i of the info part, read big-endian |
| Decoder.ReadImage | pva_broadcast.py:163-172 | image element k is bytes 4+2k … 5+2k of the image part, the image is shaped info[1] × info[0], and the start tag, HDF5 part, TIFF part, parameters and end tag are returned as received |
| Decoder.ReadPixel | pva_broadcast.py:168 | `image[0, r, c]` is element r·info[0]+c of the image part (row-major reshape) |
| Decoder.ReadOfEncoded | pva_broadcast.py:150-172 | a well-tagged message built from info words and 16-bit pixels decodes to exactly those words and pixels |
| Classifier.Classify | pva_broadcast.py:178-190 | a frame is final, else garbage, else null, else valid, each class exactly when its predicate holds and the earlier ones do not |
| Classifier.FinalAndGarbageExclusive | pva_broadcast.py:178-187 | no parameter block is both final and garbage |
| Classifier.DeleteFramesClassifiedByShape | pva_broadcast.py:182-190 | a "-delete" frame is neither final nor garbage, so its shape alone decides between null and valid |
| Classifier.NullBoundary | pva_broadcast.py:189-190 | a 1×2 frame is null, a 2×2 frame is not |
| Dispatch.Preferred | pva_broadcast.py:107-121 | the "-" key is preferred to the "+" key, and nothing is found when neither is present |
| Dispatch.ParseImageParams | pva_broadcast.py:104-127 | missing shape keys give (0, 0, 'uint16'). Otherwise columns and rows are the preferred texts, and the call succeeds exactly when `-dtype` is present and empty. Any other case raises `UnboundLocalError` |
| Dispatch.NoImageKeyNoEffects | pva_broadcast.py:82-86 | without `-image_key` nothing is broadcast, written or raised |
| Dispatch.EarlyFaultsEmitNothing | pva_broadcast.py:88-91 | if `parse_image_params` or `int(-image_key)` raises, no call has been made |
| Dispatch.Routing | pva_broadcast.py:90-98 | keys 0, 1 and 2 give exactly one broadcast, to data, white and dark respectively, carrying frame id, frame and shape. Other keys give none, and only key 0 computes theta |
| Dispatch.DispatchBroadcasts | pva_broadcast.py:79-101 | a frame is broadcast at most once, under its own id, and exactly when the shape parses and the key is 0–2 |
| Dispatch.AncillaryWrites | pva_broadcast.py:130-137 | writes NumAngles, RotationStep = arange/(n−1) and FrameType = raw key text, in that order. With n = 1 the division raises after NumAngles |
| Dispatch.MetadataFollowsRouting | pva_broadcast.py:79-101 | when routing does not raise, the PV writes of `broadcast_image` are exactly those of `update_ancillary_pvs`, and its exception is theirs. An unrecognised key gives exactly the ancillary writes |
| Dispatch.ThetaOutcomes | pva_broadcast.py:140-146 | for counts numpy can allocate, `broadcast_theta` succeeds exactly when `-nangles` is an int, `-arange` a float and the count is not negative. It then computes theta once; otherwise it raises the first failing conversion's error (or the negative-count error) having done nothing |
| Dispatch.DispatchOrder | pva_broadcast.py:79-101 | for counts numpy can allocate, the whole call sequence: keys 1 and 2 give their broadcast followed by the ancillary writes and their exception. Key 0 gives the data broadcast, then the theta step, then the ancillary writes, or, when theta raises, the broadcast alone with theta's exception. Other keys give only the ancillary writes |
| Dispatch.RotationStepExamples | pva_broadcast.py:133-136 | 5 angles over 180 give a step of 45.0. 1 angle raises ZeroDivision after writing NumAngles |
| Dispatch.TomoStreamPvaSet.BroadcastTheta | pva_broadcast.py:140-146 | appends the theta computation to the log, or raises on a missing or unparsable `-nangles` or `-arange`, or a negative count |
| Dispatch.TomoStreamPvaSet.UpdateAncillaryPvs | pva_broadcast.py:130-137 | appends exactly `AncillaryTrace`'s writes to the log and raises its fault |
| Dispatch.TomoStreamPvaSet.RouteFrame | pva_broadcast.py:90-98 | appends exactly `RouteTrace`'s calls: one broadcast for keys 0–2, followed by the theta step for key 0 |
| Dispatch.TomoStreamPvaSet.BroadcastImage | pva_broadcast.py:79-101 | appends exactly `DispatchTrace`'s calls to the log and raises its fault |
| PvaInstance.AdjustDtype | pva_instance.py:122-126 | native uint16 data passes unchanged. Big-endian uint16 becomes native uint16 with the same shape and values and dtype 'uint16'. Any other type gives None |
| PvaInstance.AdjustDtypeIdempotent | pva_instance.py:122-126 | adjusting adjusted data changes nothing |
| PvaInstance.AdjustReadImage | pva_instance.py:101-104 | the '>u2' image from `read` is passed on by `frameProducer` as native uint16 with the same values |
| PvaInstance.AfterFrameInfo | pva_instance.py:26-30 | `getFrameInfo` never changes the frames or the compressor name |
| PvaInstance.FrameInfoIdempotent | pva_instance.py:26-30 | a second `getFrameInfo` changes nothing, and so does any call once the count is non-zero or there are no frames |
| PvaInstance.FrameGenerator.constructor | pva_instance.py:13-19 | a new generator holds no frames, counts zero and returns None for every frame id |
| PvaInstance.FrameGenerator.GetFrameData | pva_instance.py:21-24 | returns frame `frameId` exactly when 0 ≤ frameId < nInputFrames, otherwise None |
| PvaInstance.FrameGenerator.GetFrameInfo | pva_instance.py:26-30 | fills count, rows, cols and dtype from the frames the first time it finds them, keeps the generator valid, and returns the five fields |
| PvaInstance.FrameGenerator.GetUncompressedFrameSize | pva_instance.py:32-33 | rows·cols·itemsize. It raises when there are no frames, or no frame 0 |
| PvaInstance.FrameGenerator.GetCompressedFrameSize | pva_instance.py:35-39 | with a non-empty compressor name it gives frame 0's row count and raises when no frame is counted. Otherwise it gives the uncompressed size |
| PvaInstance.UncompressedSizeIsFrameBytes | pva_instance.py:26-33 | after `getFrameInfo` counted frames, the uncompressed size is the byte size of one frame of the stack |
| StreamLoop.SilentUnlessReaches | pva_broadcast.py:233-258 | an iteration makes a call only if its frame was read, was valid and has a frame id. Exactly those iterations reach `broadcast_image` |
| StreamLoop.StepsAt | pva_broadcast.py:231-258 | iteration k of the loop is the loop body run on message k |
| StreamLoop.RunAppend | pva_broadcast.py:231-258 | the calls over a + b are the calls over a followed by those over b: iterations do not interact |
| StreamLoop.FaultIsolation | pva_broadcast.py:251-258 | a message that raises before `broadcast_image` or is skipped can be removed from the stream without changing any call. A message that raises inside `broadcast_image` keeps its earlier calls; `RunAppend` keeps them apart from the others' |
| StreamLoop.BadTagsDropped | pva_broadcast.py:171-175 | a message with a wrong start or end tag changes no call, wherever it is in the stream |
| StreamLoop.OnlyReachingFramesEmit | pva_broadcast.py:233-252 | every call in a run was made by an iteration that reached `broadcast_image` |
| StreamLoop.StepBroadcast | pva_broadcast.py:244-252 | a frame that reaches `broadcast_image` is broadcast at most once, carrying the frame and info[4], and exactly when its key is 0–2 and its shape parses |
| StreamLoop.ZmqStream.Step | pva_broadcast.py:233-258 | one pass of the loop body appends exactly `StepOf`'s calls to the broadcaster log and ends as `StepOf` says |
| StreamLoop.ZmqStream.MonitorLoop | pva_broadcast.py:229-258 | over a sequence of messages the log grows by the calls of each message in turn, whatever earlier messages raised |

## Left out

- The ZeroMQ transport is an input, not something the model performs:
  - `sock_recv` and the socket setup in `ZMQ_Stream.__init__` (pva_broadcast.py:192-194 and 209-227);
  - the seven `recv` calls of `read`.
  `read` takes the seven parts as a `Message`.
- The `frameProducer` and `epics.caput` calls are recorded as `Event`s.
  - Both are taken to return normally. An exception raised inside either (a failed PV Access update, a Channel Access timeout) is not modelled, so the orders `DispatchOrder` and `MetadataFollowsRouting` state hold only under that assumption.
  - `generateNtNdArray2D`, time stamps and the PV Access server are not part of this model.
  - `adjust_dtype` is modelled separately, with `AdjustReadImage` linking it to the decoded image.
- The PVA server lifecycle is not part of this model: `start_pva_streams`, `stop_pva_streams`, `set_up_pva_streams`, `PVABroadcaster.__init__`, `start` and `stop`.
- The module-level `broadcasters` list (pva_broadcast.py:18-22) is never used and is not modelled.
- Logging, `print`, `time.sleep` and the `KeyboardInterrupt` exit are left out. The loop is modelled over a finite sequence of messages rather than forever.
- `ParseInt`, `ParseFloat`: model `int()` and `float()` only on an optional sign followed by decimal digits (and for floats one optional point). Python also accepts surrounding whitespace, underscores, exponents, `inf` and `nan`; these are not modelled.
- `ParseIntOfFormat`, `ParseInt`: the `ValueError` that `int()` raises, from CPython 3.11 on, for a text of more than 4300 digits is not modelled. The model parses such texts (at pva_broadcast.py:91, 133 and 143), so the round trip is promised only for texts within that limit.
- `AncillaryWrites`: the `OverflowError` that `float(arange) / (num_angles - 1)` raises when n−1 is too large for a double (n−1 ≥ 2^1024) is not modelled, because values are exact reals. There the source writes NumAngles and then raises; the model also writes RotationStep and FrameType and raises nothing.
- Values are exact reals, not IEEE doubles.
- `broadcast_theta` computes `np.linspace` only to discard it. The model records only the count and range (`ThetaComputed`), and the `ValueError` for a negative count.
- `ThetaOutcomes`, `DispatchOrder`: the failures of `np.linspace` for a count too large to build (a `ValueError` or `OverflowError` when the length cannot be computed, as for 2^64, or a `MemoryError` from around 10^10 elements, depending on the host) are not modelled. Both lemmas hold only for counts numpy can allocate; for a larger count and key 0 the source makes the data broadcast and then raises, with no process-variable write.
- `Text` treats the parameter block as one character per byte. The `UnicodeDecodeError` that `decode()` raises on invalid UTF-8 is not modelled.
- `PvaInstance.AdjustDtype` assumes a little-endian host, where 'uint16' means '<u2'.
- The `FrameGenerator`'s frames are integer values with an element type. Float frames keep their type but not their float values.
- `getCompressorName` is a plain accessor of `compressorName` and has no member of its own.
- `NumpyRandomGenerator`, `test_code`, `dual_test` and `main_loop` (random test frames and the program entry point) are left out.
- Only one run of the loop is modelled. The reader object holds no state, so nothing carries over between iterations except the broadcaster log.
