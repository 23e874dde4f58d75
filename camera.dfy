/**
 * camera.py's Camera thread as an object: the attributes the UI callbacks write, Config's
 * camera_id and catalog, and the two locals of `run` that persist across passes of its loop
 * (the opened device and the writer `out`). Each method is proved to do what the
 * corresponding function of CaptureState says.
 */
module Camera {
  import opened Wrappers
  import opened Config
  import opened Filenames
  import opened CaptureState

  class Camera {
    /** Config.STD_DIMENSIONS, built once when the class is defined. */
    const config: Catalog

    var videoTypeName: string
    var dimensionName: string
    var takeAPhoto: bool
    var save: bool
    var writerCreated: bool
    /** Config.camera_id. */
    var cameraId: int
    /** The device index of `run`'s `cap`; None before `run` starts. */
    var capture: Option<int>
    /** `run`'s local `out`; None while unbound or after it is set to None. */
    var out: Option<Writer>

    /** The object's fields as a CaptureState.State. */
    function Model(): State
      reads this
    {
      State(videoTypeName, dimensionName, takeAPhoto, save, writerCreated, cameraId, capture, out)
    }

    predicate Valid()
      reads this
    {
      CaptureState.Valid(config, Model())
    }

    /** Defining the classes: build the catalog from the entries, then set Camera's attributes. */
    constructor (entries: seq<Entry>)
      requires |entries| > 0
      ensures config == CatalogOf(entries) && Valid()
      ensures Initial(config) == Some(Model())
    {
      var c := BuildCatalog(entries);
      assert EntryNames(entries)[0] in EntryNames(entries);
      config := c;
      videoTypeName := VideoTypeNames[0];
      dimensionName := GetAllDimensions(c)[0];
      takeAPhoto := false;
      save := false;
      writerCreated := false;
      cameraId := 0;
      capture := None;
      out := None;
    }

    /** set_photo. */
    method SetPhoto()
      requires Valid()
      modifies this
      ensures Valid() && Model() == CaptureState.SetPhoto(old(Model()))
    {
      takeAPhoto := true;
    }

    /** set_recording. */
    method SetRecording()
      requires Valid()
      modifies this
      ensures Valid() && Model() == CaptureState.SetRecording(old(Model()))
    {
      if save {
        save := false;
        writerCreated := false;
      } else {
        save := true;
      }
    }

    /** select_camera. */
    method SelectCamera(i: int)
      requires Valid()
      modifies this
      ensures Valid() && Model() == CaptureState.SelectCamera(old(Model()), i)
    {
      cameraId := i;
    }

    /** select_video_type; ok is false when the subscript raises IndexError. */
    method SelectVideoType(i: int) returns (ok: bool)
      requires Valid()
      modifies this
      ensures Valid()
      ensures match CaptureState.SelectVideoType(old(Model()), i)
        case Success(t) => ok && Model() == t
        case Failure(_) => !ok && Model() == old(Model())
    {
      var name := Seqs.PyIndex(VideoTypeNames, i);
      ok := name.Some?;
      if ok {
        videoTypeName := name.value;
      }
    }

    /** select_dimension; ok is false when the subscript raises IndexError. */
    method SelectDimension(i: int) returns (ok: bool)
      requires Valid()
      modifies this
      ensures Valid()
      ensures match CaptureState.SelectDimension(config, old(Model()), i)
        case Success(t) => ok && Model() == t
        case Failure(_) => !ok && Model() == old(Model())
    {
      var name := Seqs.PyIndex(GetAllDimensions(config), i);
      ok := name.Some?;
      if ok {
        dimensionName := name.value;
      }
    }

    /** The start of `run`: cap = cv2.VideoCapture(camera_id, CAP_DSHOW). */
    method Start() returns (events: seq<Event>)
      requires Valid() && capture.None?
      modifies this
      ensures Valid() && capture.Some?
      ensures (Model(), events) == StartRun(old(Model()))
    {
      capture := Some(cameraId);
      events := [OpenCapture(cameraId, CapDShow)];
    }

    /** One pass of `run`'s `while True` body, given what cap.read and strftime return. */
    method Iterate(ret: bool, frame: Frame, imageTime: string, videoTime: string)
      returns (events: seq<Event>)
      requires Valid() && capture.Some?
      modifies this
      ensures Valid() && capture.Some?
      ensures (Model(), events) == Step(config, old(Model()), ret, frame, imageTime, videoTime)
    {
      events := [];
      if ret {
        if takeAPhoto {
          events := [WriteImage(ImageFilename(imageTime), frame)];
          takeAPhoto := false;
        }
        ghost var photo := events;
        if save {
          if !writerCreated {
            var filename := VideoFilename(videoTypeName, dimensionName, videoTime);
            var fourcc := GetVideoType(videoTypeName);
            var applied := GetDimension(config, dimensionName);
            var writer := Writer(filename, fourcc, FramesPerSecond, applied.value.size);
            events := events + DeviceEvents(applied.value.commands) + [OpenWriter(writer)];
            out := Some(writer);
            writerCreated := true;
            assert events + [WriteFrame(writer, frame)]
              == photo + DeviceEvents(applied.value.commands) + [OpenWriter(writer), WriteFrame(writer, frame)];
          }
          events := events + [WriteFrame(out.value, frame)];
        } else {
          out := None;
        }
      }
    }

    /**
     * `run` for as many passes as there are readings (the source loops forever; this is any
     * finite prefix of it).
     */
    method Run(readings: seq<FrameRead>) returns (events: seq<Event>)
      requires Valid() && capture.None?
      modifies this
      ensures Valid()
      ensures (Model(), events) == CaptureState.Run(config, old(Model()), [Begin] + Passes(readings))
    {
      ghost var s0 := Model();
      events := Start();
      RunSnoc(config, s0, [], Begin);
      assert readings[..0] == [] && Passes([]) == [];
      assert [] + [Begin] == [Begin] + Passes(readings[..0]);
      assert CaptureState.Run(config, s0, []) == (s0, []);
      assert [] + events == events;
      var i := 0;
      while i < |readings|
        invariant 0 <= i <= |readings|
        invariant Valid() && capture.Some?
        invariant (Model(), events) == CaptureState.Run(config, s0, [Begin] + Passes(readings[..i]))
      {
        var rd := readings[i];
        var more := Iterate(rd.ret, rd.frame, rd.imageTime, rd.videoTime);
        RunSnoc(config, s0, [Begin] + Passes(readings[..i]), Pass(rd));
        assert Passes(readings[..i + 1]) == Passes(readings[..i]) + [Pass(rd)];
        assert [Begin] + Passes(readings[..i + 1]) == [Begin] + Passes(readings[..i]) + [Pass(rd)];
        events := events + more;
        i := i + 1;
      }
      assert readings[..i] == readings;
    }
  }
}
