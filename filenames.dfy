/**
 * The file names of camera.py's set_video_filename and set_image_filename, with the path
 * separator fixed to '/' and the strftime timestamp taken as a parameter, and their inverses.
 */
module Filenames {
  import opened Wrappers
  import opened Seqs

  const VideoPrefix: string := "data/videos/video_"
  const ImagePrefix: string := "data/images/image_"
  const ImageSuffix: string := ".JPG"

  /** set_video_filename: data/videos/video_<dimension>_<timestamp>.<video type>. */
  function VideoFilename(videoTypeName: string, dimensionName: string, timestamp: string): (f: string)
  {
    VideoPrefix + dimensionName + "_" + timestamp + "." + videoTypeName
  }

  /** set_image_filename: data/images/image_<timestamp>.JPG. */
  function ImageFilename(timestamp: string): (f: string)
  {
    ImagePrefix + timestamp + ImageSuffix
  }

  /** The timestamp of an image file name, if the name has the image pattern. */
  function ParseImageFilename(f: string): (r: Option<string>)
  {
    if |f| >= |ImagePrefix| + |ImageSuffix| && f[..|ImagePrefix|] == ImagePrefix
       && f[|f| - |ImageSuffix|..] == ImageSuffix
    then Some(f[|ImagePrefix|..|f| - |ImageSuffix|])
    else None
  }

  /** Image names read back as their timestamp, and only image names do. */
  lemma ImageFilenameRoundTrip(timestamp: string, f: string)
    ensures ParseImageFilename(ImageFilename(timestamp)) == Some(timestamp)
    ensures ParseImageFilename(f) == Some(timestamp) ==> f == ImageFilename(timestamp)
  {
    var g := ImageFilename(timestamp);
    assert g[..|ImagePrefix|] == ImagePrefix;
    assert g[|g| - |ImageSuffix|..] == ImageSuffix;
    assert g[|ImagePrefix|..|g| - |ImageSuffix|] == timestamp;
    if ParseImageFilename(f) == Some(timestamp) {
      assert f == f[..|ImagePrefix|] + f[|ImagePrefix|..|f| - |ImageSuffix|] + f[|f| - |ImageSuffix|..];
    }
  }

  /** The three parts of a video file name. */
  datatype VideoName = VideoName(dimensionName: string, timestamp: string, videoTypeName: string)

  /**
   * The parts of a video file name: after the prefix, the dimension runs to the first '_',
   * the video type follows the last '.', and the timestamp lies between.
   */
  function ParseVideoFilename(f: string): (r: Option<VideoName>)
  {
    if |f| < |VideoPrefix| || f[..|VideoPrefix|] != VideoPrefix then None
    else
      var rest := f[|VideoPrefix|..];
      match IndexOf(rest, '_')
      case None => None
      case Some(u) =>
        var tail := rest[u + 1..];
        match LastIndexOf(tail, '.')
        case None => None
        case Some(d) => Some(VideoName(rest[..u], tail[..d], tail[d + 1..]))
  }

  /**
   * A video name reads back as the dimension, timestamp and video type it was built from when
   * the dimension has no '_' and neither the timestamp nor the type has a '.' (true of the
   * catalog's names, of 'avi' and 'mp4', and of the strftime pattern %d-%b-%Y-%H_%M_%S).
   */
  lemma VideoFilenameRoundTrip(videoTypeName: string, dimensionName: string, timestamp: string)
    requires '_' !in dimensionName && '.' !in timestamp && '.' !in videoTypeName
    ensures ParseVideoFilename(VideoFilename(videoTypeName, dimensionName, timestamp))
      == Some(VideoName(dimensionName, timestamp, videoTypeName))
  {
    var f := VideoFilename(videoTypeName, dimensionName, timestamp);
    assert f[..|VideoPrefix|] == VideoPrefix;
    var rest := f[|VideoPrefix|..];
    assert rest == dimensionName + "_" + timestamp + "." + videoTypeName;
    var u := |dimensionName|;
    forall i | 0 <= i < u ensures rest[i] != '_' {
      assert rest[i] == dimensionName[i];
    }
    IndexOfIs(rest, '_', u);
    var tail := rest[u + 1..];
    assert tail == timestamp + "." + videoTypeName;
    var d := |timestamp|;
    forall i | d < i < |tail| ensures tail[i] != '.' {
      assert tail[i] == videoTypeName[i - d - 1];
    }
    LastIndexOfIs(tail, '.', d);
    assert rest[..u] == dimensionName;
    assert tail[..d] == timestamp;
    assert tail[d + 1..] == videoTypeName;
  }

  /** What follows the last '.' of a file name ("" when there is none). */
  function Extension(f: string): (ext: string)
  {
    match LastIndexOf(f, '.')
    case None => ""
    case Some(d) => f[d + 1..]
  }

  /** The extension of a video file is the selected video type name. */
  lemma VideoExtension(videoTypeName: string, dimensionName: string, timestamp: string)
    requires '.' !in videoTypeName
    ensures Extension(VideoFilename(videoTypeName, dimensionName, timestamp)) == videoTypeName
  {
    var f := VideoFilename(videoTypeName, dimensionName, timestamp);
    var d := |f| - |videoTypeName| - 1;
    assert f[d] == '.';
    forall i | d < i < |f| ensures f[i] != '.' {
      assert f[i] == videoTypeName[i - d - 1];
    }
    LastIndexOfIs(f, '.', d);
    assert f[d + 1..] == videoTypeName;
  }

  /** Recordings started at different timestamps get different files, as do images. */
  lemma DistinctTimestamps(videoTypeName: string, dimensionName: string, t1: string, t2: string)
    requires '_' !in dimensionName && '.' !in t1 && '.' !in t2 && '.' !in videoTypeName
    requires t1 != t2
    ensures VideoFilename(videoTypeName, dimensionName, t1) != VideoFilename(videoTypeName, dimensionName, t2)
    ensures ImageFilename(t1) != ImageFilename(t2)
  {
    VideoFilenameRoundTrip(videoTypeName, dimensionName, t1);
    VideoFilenameRoundTrip(videoTypeName, dimensionName, t2);
    ImageFilenameRoundTrip(t1, ImageFilename(t1));
    ImageFilenameRoundTrip(t2, ImageFilename(t2));
  }
}
