/**
 * The flag state machine of camera.py's Camera thread, as values: the fields the UI setters
 * write, the two locals of `run` that live across iterations (the capture device and the
 * writer `out`), one iteration of the `while True` loop, and interleaved sequences of
 * setter calls and iterations. Device and encoder calls are recorded as events.
 */
module CaptureState {
  import opened Wrappers
  import opened Seqs
  import opened Config
  import opened Filenames

  /** A frame as cap.read returns it; the model never looks inside. */
  datatype Frame = Frame(pixels: seq<int>)

  /** Config.frames_per_second. */
  const FramesPerSecond: nat := 25

  /** cv2.CAP_DSHOW, the capture back end `run` asks for. */
  const CapDShow: int := 700

  /** A cv2.VideoWriter: its file, FourCC tag, frame rate and frame size. */
  datatype Writer = Writer(filename: string, fourcc: nat, fps: nat, size: Dims)

  /** The calls into OpenCV that the thread makes. */
  datatype Event =
    | OpenCapture(index: int, api: int)       // cv2.VideoCapture(camera_id, CAP_DSHOW)
    | Device(command: DeviceCommand)          // cap.set(...)
    | WriteImage(filename: string, frame: Frame) // cv2.imwrite(...)
    | OpenWriter(writer: Writer)              // cv2.VideoWriter(...)
    | WriteFrame(writer: Writer, frame: Frame)  // out.write(frame)

  /**
   * The thread's state: the five attributes the UI writes, Config.camera_id, the device index
   * `run` opened (None before it starts) and `run`'s local `out` (None while unbound).
   */
  datatype State = State(
    videoTypeName: string,
    dimensionName: string,
    takeAPhoto: bool,
    save: bool,
    writerCreated: bool,
    cameraId: int,
    capture: Option<int>,
    out: Option<Writer>)

  /**
   * What every reachable state satisfies: the selections name entries of the two tables, a
   * writer exists only while recording, and nothing is recorded before `run` starts.
   */
  predicate Valid(c: Catalog, s: State)
  {
    && NamesAreKeys(c)
    && s.dimensionName in c.dims
    && s.videoTypeName in VideoTypeNames
    && (s.writerCreated ==> s.save && s.out.Some?)
    && (s.capture.None? ==> !s.writerCreated && s.out.None?)
  }

  /**
   * The class attributes of Camera: the first video type, the first dimension, all flags
   * off, camera 0. With no resolutions the class body fails (IndexError), here None.
   */
  function Initial(c: Catalog): (r: Option<State>)
    ensures r.Some? <==> |c.names| > 0
    ensures r.Some? && NamesAreKeys(c) ==> Valid(c, r.value) && !r.value.save && !r.value.takeAPhoto
    ensures r.Some? ==> r.value.videoTypeName == VideoTypeNames[0] && r.value.dimensionName == GetAllDimensions(c)[0]
    ensures r.Some? ==> r.value.cameraId == 0 && !r.value.writerCreated && r.value.capture.None? && r.value.out.None?
  {
    if |c.names| == 0 then None
    else Some(State(VideoTypeNames[0], c.names[0], false, false, false, 0, None, None))
  }

  /** set_photo. */
  function SetPhoto(s: State): (r: State)
    ensures r.takeAPhoto && r.(takeAPhoto := s.takeAPhoto) == s
  {
    s.(takeAPhoto := true)
  }

  /** set_recording: negate save; stopping also forgets the writer, starting keeps the flag. */
  function SetRecording(s: State): (r: State)
    ensures r.save == !s.save
    ensures s.save ==> !r.writerCreated
    ensures !s.save ==> r.writerCreated == s.writerCreated
    ensures r.(save := s.save, writerCreated := s.writerCreated) == s
  {
    if s.save then s.(save := false, writerCreated := false) else s.(save := true)
  }

  /** select_camera: Config.camera_id := i, which nothing reads once `run` has started. */
  function SelectCamera(s: State, i: int): (r: State)
    ensures r.cameraId == i && r.(cameraId := s.cameraId) == s
  {
    s.(cameraId := i)
  }

  /** The IndexError that a list subscript out of range raises. */
  datatype SelectError = IndexError

  /** select_video_type: the name at Python index i of get_all_video_types(). */
  function SelectVideoType(s: State, i: int): (r: Result<State, SelectError>)
    ensures r.Success? <==> -|VideoTypeNames| <= i < |VideoTypeNames|
    ensures 0 <= i < |VideoTypeNames| ==> r == Success(s.(videoTypeName := VideoTypeNames[i]))
    ensures r.Success? ==> r.value.videoTypeName in VideoTypeNames
    ensures r.Success? ==> PyIndex(VideoTypeNames, i) == Some(r.value.videoTypeName)
    ensures r.Success? ==> r.value.(videoTypeName := s.videoTypeName) == s
  {
    match PyIndex(VideoTypeNames, i)
    case None => Failure(IndexError)
    case Some(name) => Success(s.(videoTypeName := name))
  }

  /** select_dimension: the name at Python index i of get_all_dimensions(). */
  function SelectDimension(c: Catalog, s: State, i: int): (r: Result<State, SelectError>)
    requires NamesAreKeys(c)
    ensures r.Success? <==> -|c.names| <= i < |c.names|
    ensures 0 <= i < |c.names| ==> r == Success(s.(dimensionName := c.names[i]))
    ensures r.Success? ==> r.value.dimensionName in c.dims
    ensures r.Success? ==> PyIndex(GetAllDimensions(c), i) == Some(r.value.dimensionName)
    ensures r.Success? ==> r.value.(dimensionName := s.dimensionName) == s
  {
    match PyIndex(GetAllDimensions(c), i)
    case None => Failure(IndexError)
    case Some(name) => Success(s.(dimensionName := name))
  }

  /** The prelude of `run`: open the device named by camera_id, once per thread. */
  function StartRun(s: State): (r: (State, seq<Event>))
    ensures s.capture.None? ==> r.0.capture == Some(s.cameraId) && r.1 == [OpenCapture(s.cameraId, CapDShow)]
    ensures s.capture.Some? ==> r == (s, [])
    ensures r.0.(capture := s.capture) == s
  {
    if s.capture.Some? then (s, [])
    else (s.(capture := Some(s.cameraId)), [OpenCapture(s.cameraId, CapDShow)])
  }

  function DeviceEvents(commands: seq<DeviceCommand>): (evs: seq<Event>)
    ensures |evs| == |commands|
    ensures forall i :: 0 <= i < |evs| ==> evs[i] == Device(commands[i])
  {
    if commands == [] then [] else DeviceEvents(commands[..|commands| - 1]) + [Device(commands[|commands| - 1])]
  }

  /**
   * One pass of the `while True` body: on a successful read, serve a pending photo, then
   * while recording open a writer if none was created and append the frame; when not
   * recording drop `out`.
   */
  function Step(c: Catalog, s: State, ret: bool, frame: Frame, imageTime: string, videoTime: string)
    : (r: (State, seq<Event>))
    requires Valid(c, s) && s.capture.Some?
    ensures Valid(c, r.0)
  {
    if !ret then (s, [])
    else
      var photo := if s.takeAPhoto then [WriteImage(ImageFilename(imageTime), frame)] else [];
      var s1 := s.(takeAPhoto := false);
      if !s1.save then (s1.(out := None), photo)
      else if s1.writerCreated then (s1, photo + [WriteFrame(s1.out.value, frame)])
      else
        var applied := GetDimension(c, s1.dimensionName).value;
        var w := Writer(VideoFilename(s1.videoTypeName, s1.dimensionName, videoTime),
                        GetVideoType(s1.videoTypeName), FramesPerSecond, applied.size);
        (s1.(out := Some(w), writerCreated := true),
         photo + DeviceEvents(applied.commands) + [OpenWriter(w), WriteFrame(w, frame)])
  }

  /** The writer the selection in s asks for, stated with the tables directly. */
  function WriterFor(c: Catalog, s: State, videoTime: string): (w: Writer)
    requires s.dimensionName in c.dims
  {
    Writer(VideoFilename(s.videoTypeName, s.dimensionName, videoTime),
           if s.videoTypeName == "mp4" then FourCC("H264") else FourCC("DIVX"),
           FramesPerSecond, c.dims[s.dimensionName])
  }

  /** The kinds of events, for counting. */
  datatype Kind = CaptureKind | DeviceKind | ImageKind | OpenKind | AppendKind

  function KindOf(e: Event): (k: Kind)
  {
    match e
    case OpenCapture(_, _) => CaptureKind
    case Device(_) => DeviceKind
    case WriteImage(_, _) => ImageKind
    case OpenWriter(_) => OpenKind
    case WriteFrame(_, _) => AppendKind
  }

  /** The number of events of kind k. */
  function Tally(evs: seq<Event>, k: Kind): (n: nat)
  {
    if evs == [] then 0
    else Tally(evs[..|evs| - 1], k) + (if KindOf(evs[|evs| - 1]) == k then 1 else 0)
  }

  lemma {:induction false} TallyConcat(a: seq<Event>, b: seq<Event>, k: Kind)
    ensures Tally(a + b, k) == Tally(a, k) + Tally(b, k)
    decreases |b|
  {
    if b == [] {
      assert a + b == a;
    } else {
      assert (a + b)[..|a + b| - 1] == a + b[..|b| - 1];
      TallyConcat(a, b[..|b| - 1], k);
    }
  }

  lemma TallyDevice(commands: seq<DeviceCommand>, k: Kind)
    ensures Tally(DeviceEvents(commands), k) == if k == DeviceKind then |commands| else 0
  {
    if commands != [] {
      var init := commands[..|commands| - 1];
      assert DeviceEvents(commands)[..|commands| - 1] == DeviceEvents(init);
      TallyDevice(init, k);
    }
  }

  lemma TallyPair(a: Event, b: Event, k: Kind)
    ensures Tally([a, b], k) == (if KindOf(a) == k then 1 else 0) + (if KindOf(b) == k then 1 else 0)
  {
    assert [a, b][..1] == [a];
    assert [a][..0] == [];
    assert Tally([a, b], k) == Tally([a], k) + (if KindOf(b) == k then 1 else 0);
  }

  lemma TallyOne(a: Event, k: Kind)
    ensures Tally([a], k) == if KindOf(a) == k then 1 else 0
  {
    assert [a][..0] == [];
  }

  /** A failed read changes nothing and calls nothing, so a pending photo request survives. */
  lemma StepReadFailure(c: Catalog, s: State, frame: Frame, imageTime: string, videoTime: string)
    requires Valid(c, s) && s.capture.Some?
    ensures Step(c, s, false, frame, imageTime, videoTime) == (s, [])
    ensures s.takeAPhoto ==> Step(c, s, false, frame, imageTime, videoTime).0.takeAPhoto
  {
  }

  /**
   * Counting the calls of one successful iteration: one image exactly when a photo was
   * pending, one writer exactly when recording without one, one appended frame exactly when
   * recording, two device calls exactly when a writer is opened, and no device reopening.
   */
  lemma StepTallies(c: Catalog, s: State, ret: bool, frame: Frame, imageTime: string, videoTime: string)
    requires Valid(c, s) && s.capture.Some?
    ensures var r := Step(c, s, ret, frame, imageTime, videoTime);
      && Tally(r.1, ImageKind) == (if ret && s.takeAPhoto then 1 else 0)
      && Tally(r.1, OpenKind) == (if ret && s.save && !s.writerCreated then 1 else 0)
      && Tally(r.1, AppendKind) == (if ret && s.save then 1 else 0)
      && Tally(r.1, DeviceKind) == (if ret && s.save && !s.writerCreated then 2 else 0)
      && Tally(r.1, CaptureKind) == 0
  {
    var r := Step(c, s, ret, frame, imageTime, videoTime);
    if ret {
      var photo := if s.takeAPhoto then [WriteImage(ImageFilename(imageTime), frame)] else [];
      forall k: Kind ensures Tally(photo, k) == if s.takeAPhoto && k == ImageKind then 1 else 0 {
        if s.takeAPhoto {
          TallyOne(photo[0], k);
        }
      }
      var s1 := s.(takeAPhoto := false);
      if !s1.save {
      } else if s1.writerCreated {
        forall k: Kind ensures Tally(r.1, k) == Tally(photo, k) + (if k == AppendKind then 1 else 0) {
          TallyConcat(photo, [WriteFrame(s1.out.value, frame)], k);
          TallyOne(WriteFrame(s1.out.value, frame), k);
        }
      } else {
        var applied := GetDimension(c, s1.dimensionName).value;
        var w := Writer(VideoFilename(s1.videoTypeName, s1.dimensionName, videoTime),
                        GetVideoType(s1.videoTypeName), FramesPerSecond, applied.size);
        var dev := DeviceEvents(applied.commands);
        assert r.1 == photo + dev + [OpenWriter(w), WriteFrame(w, frame)];
        forall k: Kind ensures Tally(r.1, k) == Tally(photo, k) + Tally(dev, k) + Tally([OpenWriter(w), WriteFrame(w, frame)], k) {
          TallyConcat(photo + dev, [OpenWriter(w), WriteFrame(w, frame)], k);
          TallyConcat(photo, dev, k);
        }
        forall k: Kind ensures Tally(dev, k) == if k == DeviceKind then 2 else 0 {
          TallyDevice(applied.commands, k);
        }
        forall k: Kind ensures Tally([OpenWriter(w), WriteFrame(w, frame)], k) == (if k == OpenKind then 1 else 0) + (if k == AppendKind then 1 else 0) {
          TallyPair(OpenWriter(w), WriteFrame(w, frame), k);
        }
      }
    }
  }

  /**
   * The order of one successful iteration: the image comes first and is named by the image
   * timestamp; the photo request is cleared; writer_created ends equal to save; the frame,
   * when recording, is appended last and to the writer the state now holds; every appended
   * frame goes to that writer.
   */
  lemma StepServesRequests(c: Catalog, s: State, frame: Frame, imageTime: string, videoTime: string)
    requires Valid(c, s) && s.capture.Some?
    ensures var r := Step(c, s, true, frame, imageTime, videoTime);
      && !r.0.takeAPhoto
      && r.0.writerCreated == s.save
      && (s.takeAPhoto ==> r.1[0] == WriteImage(ImageFilename(imageTime), frame))
      && (s.save ==> r.0.out.Some? && |r.1| > 0 && r.1[|r.1| - 1] == WriteFrame(r.0.out.value, frame))
      && (!s.save ==> r.0.out.None?)
      && (forall e :: e in r.1 && e.WriteFrame? ==> r.0.out == Some(e.writer) && e.frame == frame)
  {
  }

  /**
   * A writer, once created, is kept: an iteration while writer_created holds leaves `out` as it
   * was, whatever the selections are now. A writer that is opened has the current selection's
   * file name (whose extension is the video type), codec, frame rate and catalog size, and the
   * device gets that width and then that height just before it is opened.
   */
  lemma StepWriter(c: Catalog, s: State, frame: Frame, imageTime: string, videoTime: string)
    requires Valid(c, s) && s.capture.Some?
    ensures var r := Step(c, s, true, frame, imageTime, videoTime);
      && (s.writerCreated ==> r.0.out == s.out)
      && (s.save && !s.writerCreated ==>
            && r.0.out == Some(WriterFor(c, s, videoTime))
            && Extension(r.0.out.value.filename) == s.videoTypeName
            && var w := r.0.out.value;
               r.1[|r.1| - 4..] == [Device(SetProperty(CapPropFrameWidth, w.size.0)),
                                    Device(SetProperty(CapPropFrameHeight, w.size.1)),
                                    OpenWriter(w), WriteFrame(w, frame)])
  {
    if s.save && !s.writerCreated {
      var r := Step(c, s, true, frame, imageTime, videoTime);
      var photo := if s.takeAPhoto then [WriteImage(ImageFilename(imageTime), frame)] else [];
      var w := WriterFor(c, s, videoTime);
      var (width, height) := c.dims[s.dimensionName];
      assert GetDimension(c, s.dimensionName).value == Applied((width, height), ChangeRes(width, height));
      var dev := DeviceEvents(ChangeRes(width, height));
      assert dev == [Device(SetProperty(CapPropFrameWidth, width)), Device(SetProperty(CapPropFrameHeight, height))];
      assert GetVideoType(s.videoTypeName) == w.fourcc by {
        VideoTypeNamesAreKeys();
      }
      assert r.0.out == Some(w);
      assert r.1 == photo + dev + [OpenWriter(w), WriteFrame(w, frame)];
      VideoTypeNamesAreKeys();
      VideoExtension(s.videoTypeName, s.dimensionName, videoTime);
    }
  }

  /** The selections, the recording flag, the camera id and the device survive an iteration. */
  lemma StepKeepsSelection(c: Catalog, s: State, ret: bool, frame: Frame, imageTime: string, videoTime: string)
    requires Valid(c, s) && s.capture.Some?
    ensures var t := Step(c, s, ret, frame, imageTime, videoTime).0;
      t.videoTypeName == s.videoTypeName && t.dimensionName == s.dimensionName && t.save == s.save
      && t.cameraId == s.cameraId && t.capture == s.capture
  {
  }

  /** One successful read as cap.read returns it, with the two strftime results of that pass. */
  datatype FrameRead = FrameRead(ret: bool, frame: Frame, imageTime: string, videoTime: string)

  /** The UI callbacks and the loop's passes, interleaved one at a time. */
  datatype Op =
    | RequestPhoto                 // set_photo
    | ToggleRecording              // set_recording
    | ChooseCamera(i: int)         // select_camera
    | ChooseVideoType(i: int)      // select_video_type
    | ChooseDimension(i: int)      // select_dimension
    | Begin                        // QThread.start, which runs `run`
    | Pass(read: FrameRead)        // one pass of the loop

  /**
   * One step. A select with a bad index raises and changes nothing; a pass of the loop only
   * happens once `run` has started.
   */
  function Apply(c: Catalog, s: State, op: Op): (r: (State, seq<Event>))
    requires Valid(c, s)
    ensures Valid(c, r.0)
  {
    match op
    case RequestPhoto => (SetPhoto(s), [])
    case ToggleRecording => (SetRecording(s), [])
    case ChooseCamera(i) => (SelectCamera(s, i), [])
    case ChooseVideoType(i) =>
      (match SelectVideoType(s, i) case Success(t) => t case Failure(_) => s, [])
    case ChooseDimension(i) =>
      (match SelectDimension(c, s, i) case Success(t) => t case Failure(_) => s, [])
    case Begin => StartRun(s)
    case Pass(rd) =>
      if s.capture.None? then (s, [])
      else Step(c, s, rd.ret, rd.frame, rd.imageTime, rd.videoTime)
  }

  /** The steps one after the other, with all the events they cause. */
  function Run(c: Catalog, s: State, ops: seq<Op>): (r: (State, seq<Event>))
    requires Valid(c, s)
    ensures Valid(c, r.0)
    decreases |ops|
  {
    if ops == [] then (s, [])
    else
      var first := Apply(c, s, ops[0]);
      var rest := Run(c, first.0, ops[1..]);
      (rest.0, first.1 + rest.1)
  }

  /** Running ops and then one more op is running the extended list. */
  lemma {:induction false} RunSnoc(c: Catalog, s: State, ops: seq<Op>, op: Op)
    requires Valid(c, s)
    ensures var mid := Run(c, s, ops);
      var last := Apply(c, mid.0, op);
      Run(c, s, ops + [op]) == (last.0, mid.1 + last.1)
    decreases |ops|
  {
    if ops == [] {
      assert ops + [op] == [op];
      var last := Apply(c, s, op);
      assert [op][1..] == [];
      assert last.1 + [] == last.1 && [] + last.1 == last.1;
    } else {
      assert (ops + [op])[0] == ops[0];
      assert (ops + [op])[1..] == ops[1..] + [op];
      var first := Apply(c, s, ops[0]);
      RunSnoc(c, first.0, ops[1..], op);
      var mid := Run(c, first.0, ops[1..]);
      var last := Apply(c, mid.0, op);
      assert first.1 + (mid.1 + last.1) == (first.1 + mid.1) + last.1;
    }
  }

  /** One pass of the loop for each read, in order. */
  function Passes(readings: seq<FrameRead>): (ops: seq<Op>)
    ensures |ops| == |readings|
    ensures forall i :: 0 <= i < |readings| ==> ops[i] == Pass(readings[i])
  {
    if readings == [] then [] else Passes(readings[..|readings| - 1]) + [Pass(readings[|readings| - 1])]
  }

  /** The number of passes whose read succeeded. */
  function Reads(ops: seq<Op>): (n: nat)
  {
    if ops == [] then 0
    else (if ops[0].Pass? && ops[0].read.ret then 1 else 0) + Reads(ops[1..])
  }

  /**
   * While writer_created holds and nobody toggles recording, whatever else happens (photos,
   * new selections of type, dimension or camera, failed reads) the writer stays the same, no
   * writer is opened, the device is not reconfigured and every frame goes to that writer.
   */
  lemma {:induction false} RecordingFrozen(c: Catalog, s: State, ops: seq<Op>)
    requires Valid(c, s) && s.writerCreated && ToggleRecording !in ops
    ensures var r := Run(c, s, ops);
      && r.0.writerCreated && r.0.out == s.out
      && Tally(r.1, OpenKind) == 0 && Tally(r.1, DeviceKind) == 0
      && (forall e :: e in r.1 && e.WriteFrame? ==> e.writer == s.out.value)
    decreases |ops|
  {
    if ops != [] {
      var first := Apply(c, s, ops[0]);
      assert ops[0] in ops;
      assert ToggleRecording !in ops[1..];
      if ops[0].Pass? && s.capture.Some? {
        var rd := ops[0].read;
        StepTallies(c, s, rd.ret, rd.frame, rd.imageTime, rd.videoTime);
        if rd.ret {
          StepServesRequests(c, s, rd.frame, rd.imageTime, rd.videoTime);
          StepWriter(c, s, rd.frame, rd.imageTime, rd.videoTime);
        }
      } else {
        assert first.1 == [];
      }
      assert first.0.writerCreated && first.0.out == s.out;
      var rest := Run(c, first.0, ops[1..]);
      RecordingFrozen(c, first.0, ops[1..]);
      forall k: Kind ensures Tally(first.1 + rest.1, k) == Tally(first.1, k) + Tally(rest.1, k) {
        TallyConcat(first.1, rest.1, k);
      }
    }
  }

  /**
   * Without a toggle a writer is opened at most once, and only if recording was on with no
   * writer yet: a recording opens its encoder exactly once however long it runs.
   */
  lemma {:induction false} OneWriterPerRecording(c: Catalog, s: State, ops: seq<Op>)
    requires Valid(c, s) && ToggleRecording !in ops
    ensures Tally(Run(c, s, ops).1, OpenKind) <= 1
    ensures !s.save || s.writerCreated ==> Tally(Run(c, s, ops).1, OpenKind) == 0
    decreases |ops|
  {
    if s.writerCreated {
      RecordingFrozen(c, s, ops);
    } else if ops != [] {
      var first := Apply(c, s, ops[0]);
      assert ops[0] in ops;
      assert ToggleRecording !in ops[1..];
      var rest := Run(c, first.0, ops[1..]);
      TallyConcat(first.1, rest.1, OpenKind);
      if ops[0].Pass? && s.capture.Some? {
        var rd := ops[0].read;
        StepTallies(c, s, rd.ret, rd.frame, rd.imageTime, rd.videoTime);
        StepKeepsSelection(c, s, rd.ret, rd.frame, rd.imageTime, rd.videoTime);
        if rd.ret {
          StepServesRequests(c, s, rd.frame, rd.imageTime, rd.videoTime);
        }
      } else if first.1 != [] {
        TallyOne(first.1[0], OpenKind);
      }
      assert first.0.save == s.save;
      OneWriterPerRecording(c, first.0, ops[1..]);
    }
  }

  /** All appended frames in evs go to the same writer. */
  predicate OneWriter(evs: seq<Event>)
  {
    forall i, j :: 0 <= i < |evs| && 0 <= j < |evs| && evs[i].WriteFrame? && evs[j].WriteFrame? ==>
      evs[i].writer == evs[j].writer
  }

  /**
   * Without a toggle every appended frame goes to one and the same writer: a recording is
   * never split over two files.
   */
  lemma {:induction false} OneFilePerRecording(c: Catalog, s: State, ops: seq<Op>)
    requires Valid(c, s) && ToggleRecording !in ops
    ensures OneWriter(Run(c, s, ops).1)
    decreases |ops|
  {
    var evs := Run(c, s, ops).1;
    if s.writerCreated {
      RecordingFrozen(c, s, ops);
      assert forall i :: 0 <= i < |evs| ==> evs[i] in evs;
    } else if ops != [] {
      var first := Apply(c, s, ops[0]);
      assert ops[0] in ops;
      assert ToggleRecording !in ops[1..];
      var rest := Run(c, first.0, ops[1..]);
      assert evs == first.1 + rest.1;
      if ops[0].Pass? && s.capture.Some? && ops[0].read.ret && s.save {
        var rd := ops[0].read;
        StepServesRequests(c, s, rd.frame, rd.imageTime, rd.videoTime);
        assert first.0.writerCreated;
        RecordingFrozen(c, first.0, ops[1..]);
        forall i | 0 <= i < |evs| && evs[i].WriteFrame? ensures evs[i].writer == first.0.out.value {
          if i < |first.1| {
            assert evs[i] in first.1;
          } else {
            assert evs[i] == rest.1[i - |first.1|] && evs[i] in rest.1;
          }
        }
      } else {
        if ops[0].Pass? && s.capture.Some? && ops[0].read.ret {
          assert first.1 == if s.takeAPhoto then [WriteImage(ImageFilename(ops[0].read.imageTime), ops[0].read.frame)] else [];
        }
        assert forall k :: 0 <= k < |first.1| ==> !first.1[k].WriteFrame?;
        OneFilePerRecording(c, first.0, ops[1..]);
        forall i, j | 0 <= i < |evs| && 0 <= j < |evs| && evs[i].WriteFrame? && evs[j].WriteFrame?
          ensures evs[i].writer == evs[j].writer
        {
          var i', j' := i - |first.1|, j - |first.1|;
          assert 0 <= i' < |rest.1| && 0 <= j' < |rest.1|;
          assert rest.1[i'] == evs[i] && rest.1[j'] == evs[j];
          assert OneWriter(rest.1);
          assert rest.1[i'].writer == rest.1[j'].writer;
        }
      }
    }
  }

  /**
   * Once `run` has started and while nobody toggles recording, every successful read appends
   * its frame exactly once when recording is on, and no frame is appended when it is off.
   */
  lemma {:induction false} EveryFrameRecorded(c: Catalog, s: State, ops: seq<Op>)
    requires Valid(c, s) && s.capture.Some? && ToggleRecording !in ops
    ensures Tally(Run(c, s, ops).1, AppendKind) == if s.save then Reads(ops) else 0
    decreases |ops|
  {
    if ops != [] {
      var first := Apply(c, s, ops[0]);
      assert ops[0] in ops;
      assert ToggleRecording !in ops[1..];
      var rest := Run(c, first.0, ops[1..]);
      TallyConcat(first.1, rest.1, AppendKind);
      if ops[0].Pass? {
        var rd := ops[0].read;
        StepTallies(c, s, rd.ret, rd.frame, rd.imageTime, rd.videoTime);
        StepKeepsSelection(c, s, rd.ret, rd.frame, rd.imageTime, rd.videoTime);
      } else {
        assert first.1 == [];
      }
      assert first.0.save == s.save && first.0.capture.Some?;
      EveryFrameRecorded(c, first.0, ops[1..]);
    }
  }

  /**
   * Once `run` has started and while nobody asks for another photo, a pending request is
   * served by exactly one image if some read succeeds and by none otherwise, and it stays
   * pending until a read succeeds.
   */
  lemma {:induction false} PhotoServedOnce(c: Catalog, s: State, ops: seq<Op>)
    requires Valid(c, s) && s.capture.Some? && RequestPhoto !in ops
    ensures Tally(Run(c, s, ops).1, ImageKind) == if s.takeAPhoto && Reads(ops) > 0 then 1 else 0
    ensures Reads(ops) == 0 ==> Run(c, s, ops).0.takeAPhoto == s.takeAPhoto
    ensures Reads(ops) > 0 ==> !Run(c, s, ops).0.takeAPhoto
    decreases |ops|
  {
    if ops != [] {
      var first := Apply(c, s, ops[0]);
      assert ops[0] in ops;
      assert RequestPhoto !in ops[1..];
      var rest := Run(c, first.0, ops[1..]);
      TallyConcat(first.1, rest.1, ImageKind);
      if ops[0].Pass? {
        var rd := ops[0].read;
        StepTallies(c, s, rd.ret, rd.frame, rd.imageTime, rd.videoTime);
        StepKeepsSelection(c, s, rd.ret, rd.frame, rd.imageTime, rd.videoTime);
        if rd.ret {
          StepServesRequests(c, s, rd.frame, rd.imageTime, rd.videoTime);
        }
      } else {
        assert first.1 == [];
      }
      assert first.0.capture.Some?;
      PhotoServedOnce(c, first.0, ops[1..]);
    }
  }

  /**
   * camera_id is read once: the device is opened by the first Begin only, with the camera id
   * of that moment, and once open it stays the same whatever select_camera does later.
   */
  lemma {:induction false} CaptureOpenedOnce(c: Catalog, s: State, ops: seq<Op>)
    requires Valid(c, s)
    ensures Tally(Run(c, s, ops).1, CaptureKind) == if s.capture.None? && Begin in ops then 1 else 0
    ensures s.capture.Some? ==> Run(c, s, ops).0.capture == s.capture
    decreases |ops|
  {
    if ops != [] {
      var first := Apply(c, s, ops[0]);
      var rest := Run(c, first.0, ops[1..]);
      TallyConcat(first.1, rest.1, CaptureKind);
      if ops[0].Pass? && s.capture.Some? {
        var rd := ops[0].read;
        StepTallies(c, s, rd.ret, rd.frame, rd.imageTime, rd.videoTime);
        StepKeepsSelection(c, s, rd.ret, rd.frame, rd.imageTime, rd.videoTime);
      } else if first.1 != [] {
        TallyOne(first.1[0], CaptureKind);
      }
      assert s.capture.Some? ==> first.0.capture == s.capture;
      assert Begin in ops <==> ops[0] == Begin || Begin in ops[1..];
      CaptureOpenedOnce(c, first.0, ops[1..]);
    }
  }

  /**
   * Stopping and starting again between two passes forgets the old writer: the next
   * successful pass opens exactly one fresh writer for the selection of that moment.
   */
  lemma RestartOpensFreshWriter(c: Catalog, s: State, frame: Frame, imageTime: string, videoTime: string)
    requires Valid(c, s) && s.capture.Some? && s.save
    ensures var s2 := SetRecording(SetRecording(s));
      var r := Step(c, s2, true, frame, imageTime, videoTime);
      && s2.save && !s2.writerCreated
      && Tally(r.1, OpenKind) == 1
      && r.0.out == Some(WriterFor(c, s, videoTime))
  {
    var s2 := SetRecording(SetRecording(s));
    assert Valid(c, SetRecording(s));
    StepTallies(c, s2, true, frame, imageTime, videoTime);
    StepWriter(c, s2, frame, imageTime, videoTime);
  }
}
