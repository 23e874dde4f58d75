# Camera capture core, modelled in Dafny

This project models the non-UI logic of `camera.py`, a PyQt5/OpenCV camera application that
shows a live camera stream, takes still photos and records video clips. It has two parts.

- **`Config`**, the resolution and codec catalog. `STD_DIMENSIONS` is built from a list of
  `{width, height}` entries. Each key is `str(width) + 'x' + str(height)`, and the keys keep
  insertion order. `VIDEO_TYPE` is a fixed table that maps `avi` to the DIVX FourCC tag and
  `mp4` to the H264 tag. The lookups are `get_dimension`, which has no fallback, and
  `get_video_type`, which falls back to `avi`.
- **`Camera`**, the capture thread. Its flags are `take_a_photo`, `save` and
  `writer_created`, plus the selected video type, dimension and camera id. The UI setters
  change them. One pass of `run`'s `while True` loop reads them and updates them:
  - it serves a one-shot photo request;
  - it opens a `VideoWriter` when recording starts;
  - it appends each frame while recording.

Modules:

- `Wrappers`: `Option` and `Result`.
- `Seqs`: first and last occurrence, and Python list indexing, including negative indices.
- `Config`: decimal names and their parser, the catalog as an ordered dict, the build loop
  `BuildCatalog`, the lookups, and FourCC packing.
- `Filenames`: the video and image file names, and their parsers.
- `CaptureState`: the thread's state as a value. The setters and one loop pass (`Step`) are
  functions. `Op` and `Run` give interleaved sequences of setter calls and loop passes. The
  lemmas about these are the main results.
- `Camera`: class `Camera` with the Python object's fields. Every method is proved to update the
  fields exactly as the matching `CaptureState` function does.

External calls become events, and external inputs become parameters:

- `cv2.VideoCapture(...)`, `cap.set(...)`, `cv2.imwrite(...)`, `cv2.VideoWriter(...)` and
  `out.write(frame)` are recorded as `Event` values.
- `cap.read()` becomes the `ret` flag plus an opaque `Frame`.
- Each pass takes two timestamp strings, one for each `time.strftime` call.

The model keeps these behaviours of the code as written:

- files go to `data/videos/` and `data/images/`;
- the image extension is `.JPG`;
- stopping a recording only clears `writer_created`;
- on the next successful pass after a stop, `out` is set to `None`, and no release call is
  ever made;
- a writer that fails to open is not detected, and `save` is never reverted.

## Model

| member | source | states |
|---|---|---|
| `Config.ParseDecimalOfDecimal` | camera.py:26 | reading the decimal text of a width or height gives the number back |
| `Config.DimensionNameRoundTrip` | camera.py:26 | a key `"<w>x<h>"` parses back to exactly `(w, h)` |
| `Config.DimensionNameInjective` | camera.py:26 | two different pairs never get the same key |
| `Config.DimensionNameCharacters` | camera.py:26 | a key contains no `_` and no `.`, so a video file name made from it can be parsed back unambiguously |
| `Config.BuildCatalog` | camera.py:21-26 | the loop builds the catalog that inserting the entries one by one gives; the result is well-formed, and its names are exactly the entries' names |
| `Config.CatalogWellFormed` | camera.py:21-26 | in a built catalog the listed names are distinct and are exactly the keys, and each key is the name of the pair stored under it |
| `Config.CatalogKeys` | camera.py:24-26 | the keys, and the listed names, are exactly the names of the entries |
| `Config.CatalogLookup` | camera.py:24-26 | for every entry, its name is a key that holds that entry's `(w, h)`, duplicates included |
| `Config.CatalogFirstAppearance` | camera.py:21-26 | the names are listed in the order in which they first appear among the entries |
| `Config.CatalogNamesGrow` | camera.py:24-26 | inserting more entries never reorders or removes a name: the old list is a prefix of the new one |
| `Config.DuplicatesChangeNothing` | camera.py:24-26 | entries whose names are already keys leave the catalog unchanged: no second name and no new value |
| `Config.GetDimension` | camera.py:38-42 | the lookup succeeds exactly when the name is a key; for any other name it fails (UnboundLocalError), with no fallback |
| `Config.GetDimensionOfCatalog` | camera.py:33-42 | on a built catalog the lookup succeeds exactly for the entries' names; it returns that entry's `(w, h)` and sets the device's width and then its height to those values; the name is the key of the returned pair |
| `Config.GetVideoType` | camera.py:45-48 | a known name gets its own tag; any other name gets the `avi` tag, so the lookup never fails |
| `Config.GetVideoTypeCodec` | camera.py:15-18 | the tag decodes to `H264` for `mp4` and to `DIVX` for every other name |
| `Config.FourCCRoundTrip` | camera.py:16-17 | a four-character code of 8-bit characters is recovered from its packed FourCC tag |
| `Config.VideoTypeNamesAreKeys` | camera.py:53-54 | `get_all_video_types` lists each key of `VIDEO_TYPE` exactly once, and no key contains a `.` |
| `Config.GetAllDimensions` | camera.py:50-51 | for a well-formed catalog, the listed names are exactly the keys, each listed once |
| `Filenames.VideoFilenameRoundTrip` | camera.py:91-93 | a video file name parses back into its dimension, timestamp and video type |
| `Filenames.VideoExtension` | camera.py:91-93 | the extension of a video file name is the selected video type name |
| `Filenames.ImageFilenameRoundTrip` | camera.py:96-98 | an image file name parses back to its timestamp, and only a name built by the image pattern parses to that timestamp |
| `Filenames.DistinctTimestamps` | camera.py:91-98 | two different timestamps give two different video file names and two different image file names |
| `CaptureState.Initial` | camera.py:59-64 | the class attributes exist exactly when the catalog is non-empty. The initial state selects the first video type and the first catalog name, and has camera id 0. The photo request, recording and `writer_created` are off, and no device or writer is open. The state is valid |
| `CaptureState.SetPhoto` | camera.py:101-102 | sets the photo request and changes nothing else |
| `CaptureState.SetRecording` | camera.py:105-110 | negates `save`; stopping also clears `writer_created`; starting leaves it alone; no other field changes |
| `CaptureState.SelectCamera` | camera.py:113-114 | sets the camera id and changes nothing else |
| `CaptureState.SelectVideoType` | camera.py:117-118 | succeeds exactly for Python indices into `get_all_video_types()`; sets the name that Python indexing gives at that position, for negative indices too; changes nothing else; a bad index raises IndexError |
| `CaptureState.SelectDimension` | camera.py:121-122 | the same for `get_all_dimensions()`; the selected name is always a catalog key |
| `CaptureState.StartRun` | camera.py:66-67 | the first start opens the device of the current camera id with the DirectShow back end; a second start does nothing |
| `CaptureState.Step` | camera.py:68-88 | one loop pass keeps the state valid: the selected names stay in the tables, and a writer exists only while recording |
| `CaptureState.StepReadFailure` | camera.py:69-70 | a failed read changes nothing and makes no call, so a pending photo request survives |
| `CaptureState.StepTallies` | camera.py:69-88 | one pass writes one image exactly when a photo is pending, opens one writer exactly when recording with none created, makes the two `cap.set` calls exactly then, and appends one frame exactly when recording |
| `CaptureState.StepServesRequests` | camera.py:78-88 | after a successful pass the photo request is cleared. The image is written first, under the image timestamp. `writer_created` equals `save`. When recording, the frame is appended last, to the writer now held. When not recording, `out` is dropped |
| `CaptureState.StepWriter` | camera.py:81-86 | an existing writer is kept whatever the selections now say. A new writer has the selection's file name (its extension is the video type), codec, 25 fps and catalog size. It is opened right after the device is set to that width and then that height |
| `CaptureState.StepKeepsSelection` | camera.py:68-88 | a pass changes neither the selections, nor `save`, nor the camera id, nor the opened device |
| `CaptureState.Apply` | camera.py:66-122 | every setter call and every loop pass keeps the state valid |
| `CaptureState.Run` | camera.py:66-122 | any interleaving of setter calls and loop passes keeps the state valid |
| `CaptureState.RecordingFrozen` | camera.py:81-86 | while a writer exists and recording is not toggled, any photos, selection changes and reads leave the same writer in place. No writer is opened, the device is not reconfigured, and every frame goes to that writer |
| `CaptureState.OneWriterPerRecording` | camera.py:81-85 | without a toggle, at most one writer is opened, and only if recording was on with no writer yet |
| `CaptureState.OneFilePerRecording` | camera.py:81-88 | without a toggle, all appended frames go to the same writer |
| `CaptureState.EveryFrameRecorded` | camera.py:81-88 | once `run` has started and without a toggle, the number of appended frames equals the number of successful reads when recording, and is zero otherwise |
| `CaptureState.PhotoServedOnce` | camera.py:78-80 | without a new request, a pending photo produces exactly one image if some read succeeds and none otherwise; it stays pending until a read succeeds |
| `CaptureState.CaptureOpenedOnce` | camera.py:66-67 | the device is opened only by the first start; once open it stays the same whatever `select_camera` does later |
| `CaptureState.RestartOpensFreshWriter` | camera.py:105-110 | stopping and then starting between two passes clears `writer_created`; the next successful pass opens exactly one fresh writer for the selection of that moment |
| `Camera.Camera.constructor` | camera.py:59-64 | builds the catalog from the entries; the fields are the class attributes' initial values, in a valid state |
| `Camera.Camera.SetPhoto` | camera.py:101-102 | the fields change as `CaptureState.SetPhoto` says |
| `Camera.Camera.SetRecording` | camera.py:105-110 | the fields change as `CaptureState.SetRecording` says |
| `Camera.Camera.SelectCamera` | camera.py:113-114 | the fields change as `CaptureState.SelectCamera` says |
| `Camera.Camera.SelectVideoType` | camera.py:117-118 | the fields change as `CaptureState.SelectVideoType` says; `ok` is false and nothing changes on IndexError |
| `Camera.Camera.SelectDimension` | camera.py:121-122 | the fields change as `CaptureState.SelectDimension` says; `ok` is false and nothing changes on IndexError |
| `Camera.Camera.Start` | camera.py:66-67 | opens the device as `CaptureState.StartRun` says |
| `Camera.Camera.Iterate` | camera.py:68-88 | one pass of the loop body: the new fields and the calls made are exactly those of `CaptureState.Step` |
| `Camera.Camera.Run` | camera.py:66-88 | `run` for a finite number of reads: the fields and calls equal those of `CaptureState.Run` on a start followed by one pass per read |

## Left out

- The Qt presentation layer (`App`, `initUI`, `update_ui`, the button and combobox wiring) is UI, not capture logic.
- The display path of each pass (`cvtColor`, the `QImage` conversion and scaling, `changePixmap.emit`) is left out; it does not affect any flag.
- OpenCV itself is not modelled. Device calls, image writes and encoder calls are recorded as events. Whether `imwrite` or `VideoWriter` actually succeeds is not modelled, because the source never checks it.
- Loading `resolutions.json` with `json.load` is file I/O. Only the step from a list of entries to the catalog is modelled. Widths and heights are natural numbers, so the text a JSON float would give (`"640.0x480.0"`) and negative values are not modelled.
- `time.strftime` is an input: each pass takes two timestamp strings. `os.path.join` is fixed to the `/` separator.
- The two threads are not modelled as concurrent. Setters and loop passes are interleaved one at a time, so races such as a toggle landing mid-pass are not covered.
- The writer is never released by the source. `out = None` only drops the reference, and what Python's garbage collector then does to the encoder is not modelled.
- `find_resolution.py` is not part of this model: it scrapes a web page, probes the device and writes JSON.
- An IndexError raised inside a Qt slot aborts the process under recent PyQt5. The model instead treats a failed `select_*` as changing nothing and reports it through `ok` or `Failure`.
- `Camera.Camera.constructor`: requires a non-empty entry list. With no entries, the source fails with IndexError while defining the class. `CaptureState.Initial` models that case as `None`.
- `Camera.Camera.Start`: requires that `run` has not started yet, because `QThread.start` runs `run` once. `CaptureState.StartRun` models a repeated start as doing nothing.
- `Camera.Camera.Run`: the source loop never ends. The method models any finite prefix of it.
- `CaptureState.Step`: requires a valid state in which `run` has started. Every reachable state is valid, so the UnboundLocalError that `get_dimension` raises for an unknown name, and the NameError of an unbound `out`, cannot occur inside the loop. `Config.GetDimension` models the error path itself.
