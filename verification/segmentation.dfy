/** `semantic_segmentation.py`: the frames directory of a video, the frame-sampling loop
    of `convert_vid`, and the dispatch of `process_images`. Time is kept in hundredths of
    a second; whether the video has a frame at a time, whether a file opens as an image and
    what a directory lists are oracles. The segmentation functions themselves are stubs, so
    a call to them is recorded as a `Dispatch` and does nothing else. */
module Segmentation {
  import opened Wrappers
  import opened Errors
  import opened Text

  /** `vid_path.split('/')[-1].split('.')[0]`: the last path component up to its first dot,
      so neither a slash nor a dot. */
  function VideoStem(vidPath: string): (stem: string)
    ensures stem == StemOf(vidPath[RFind(vidPath, '/') + 1..])
    ensures forall i :: 0 <= i < |stem| ==> stem[i] != '/' && stem[i] != '.'
  {
    var parts := Split(vidPath, '/');
    var last := parts[|parts| - 1];
    assert last == vidPath[RFind(vidPath, '/') + 1..] by { SplitLast(vidPath, '/'); }
    assert Split(last, '.')[0] == StemOf(last) by { SplitFirst(last, '.'); }
    StemChars(vidPath);
    Split(last, '.')[0]
  }

  /** A component up to its first dot. */
  function StemOf(c: string): (stem: string)
    ensures |stem| <= |c| && c[..|stem|] == stem
    ensures forall i :: 0 <= i < |stem| ==> stem[i] != '.'
    ensures |stem| < |c| ==> c[|stem|] == '.'
  {
    var i := Find(c, '.');
    if i < 0 then c else c[..i]
  }

  lemma StemChars(vidPath: string)
    ensures var stem := StemOf(vidPath[RFind(vidPath, '/') + 1..]);
      forall i :: 0 <= i < |stem| ==> stem[i] != '/' && stem[i] != '.'
  {
    var c := vidPath[RFind(vidPath, '/') + 1..];
    AfterLastSlash(vidPath);
    var stem := StemOf(c);
    forall i | 0 <= i < |stem| ensures stem[i] != '/' {
      assert stem[i] == stem[..|stem|][i] == c[..|stem|][i] == c[i];
    }
  }

  /** What follows the last slash holds no slash. */
  lemma AfterLastSlash(s: string)
    ensures var c := s[RFind(s, '/') + 1..]; forall i :: 0 <= i < |c| ==> c[i] != '/'
  {
    var r := RFind(s, '/');
    var c := s[r + 1..];
    forall i | 0 <= i < |c| ensures c[i] != '/' {
      assert c[i] == s[r + 1 + i];
    }
  }

  /** `'./' + vid_path.split('/')[-1].split('.')[0] + '-frames'`. */
  function FramesDirName(vidPath: string): (dir: string)
    ensures dir == "./" + VideoStem(vidPath) + "-frames"
    ensures StartsWith(dir, "./") && EndsWith(dir, "-frames")
  {
    var dir := "./" + VideoStem(vidPath) + "-frames";
    assert dir[..2] == "./" && dir[|dir| - 7..] == "-frames";
    dir
  }

  /** Only the last component counts: the stem of `d/name` is that of `name`. */
  lemma StemAfterSlash(d: string, name: string)
    requires forall i :: 0 <= i < |name| ==> name[i] != '/'
    ensures VideoStem(d + "/" + name) == StemOf(name)
  {
    var p := d + "/" + name;
    assert p[|d|] == '/';
    assert forall j :: |d| < j < |p| ==> p[j] == name[j - |d| - 1];
    RFindUnique(p, '/', |d|);
    assert p[|d| + 1..] == name;
  }

  /** A video `a.b.mp4` in any directory gives `./a-frames`: only the part before the
      first dot is kept. */
  lemma FramesDirExample(d: string)
    ensures FramesDirName(d + "/" + "a.b.mp4") == "./a-frames"
  {
    DottedStem(d);
    StemAFrames(d + "/" + "a.b.mp4");
  }

  lemma StemAFrames(v: string)
    requires VideoStem(v) == "a"
    ensures FramesDirName(v) == "./a-frames"
  {
    assert "./" + "a" + "-frames" == "./a-frames";
  }

  lemma DottedStem(d: string)
    ensures VideoStem(d + "/" + "a.b.mp4") == "a"
  {
    StemBeforeDot(d, "a.b.mp4", 1);
    assert "a.b.mp4"[..1] == "a";
  }

  /** The stem of `d/name` is `name` up to its first dot. */
  lemma StemBeforeDot(d: string, name: string, i: nat)
    requires forall j :: 0 <= j < |name| ==> name[j] != '/'
    requires i < |name| && name[i] == '.' && forall j :: 0 <= j < i ==> name[j] != '.'
    ensures VideoStem(d + "/" + name) == name[..i]
  {
    StemAfterSlash(d, name);
    FindIs(name, '.', i);
  }

  /** A video whose name starts with a dot gives an empty stem: `./-frames`. */
  lemma HiddenVideoExample(d: string)
    ensures FramesDirName(d + "/" + ".mp4") == "./-frames"
  {
    HiddenStem(d);
    assert "./" + "" + "-frames" == "./-frames";
  }

  lemma HiddenStem(d: string)
    ensures VideoStem(d + "/" + ".mp4") == ""
  {
    StemBeforeDot(d, ".mp4", 0);
  }

  /** Python's `round(x, 2)`, in hundredths, with halves rounded up. */
  function Round2(x: real): (h: int)
    ensures h as real - 0.5 <= x * 100.0 < h as real + 0.5
  {
    (x * 100.0 + 0.5).Floor
  }

  /** From a time that is a whole number of hundredths, `round(sec + rate, 2)` advances by
      the rounded rate: every step is the same. */
  lemma RoundShift(n: int, x: real)
    ensures Round2(n as real / 100.0 + x) == n + Round2(x)
  {
    var y := x * 100.0 + 0.5;
    assert (n as real / 100.0 + x) * 100.0 + 0.5 == n as real + y;
    assert (n as real + y).Floor == n + y.Floor;
  }

  /** Probe `count` is at `count * step`, so the next one is at `(count + 1) * step`. */
  lemma NextProbeTime(sec: int, count: int, frameRate: real)
    requires sec == count * Round2(frameRate)
    ensures Round2(sec as real / 100.0 + frameRate) == (count + 1) * Round2(frameRate)
  {
    RoundShift(sec, frameRate);
  }

  /** `str(f)` for a float that is a whole number of hundredths `h >= 0`: the shortest
      decimal, which keeps at least one digit after the point. */
  function HundredthsText(h: nat): (s: string)
    ensures |s| >= 3
  {
    NatToString(h / 100) + "." + FractionText(h % 100)
  }

  /** The digits after the point of `n` hundredths, `n < 100`, trailing zero dropped but one
      digit always kept. */
  function FractionText(n: nat): (s: string)
    requires n < 100
    ensures 1 <= |s| <= 2 && AllDigits(s)
    ensures |s| == 1 <==> n % 10 == 0
  {
    if n % 10 == 0 then [DigitChar(n / 10)] else [DigitChar(n / 10), DigitChar(n % 10)]
  }

  /** The point sits right after the whole seconds. */
  lemma HundredthsPoint(h: nat)
    ensures Find(HundredthsText(h), '.') == |NatToString(h / 100)|
  {
    var whole := NatToString(h / 100);
    var s := HundredthsText(h);
    assert s[|whole|] == '.';
    assert forall j :: 0 <= j < |whole| ==> s[j] == whole[j];
    FindIs(s, '.', |whole|);
  }

  /** `str(sec)` for a time in hundredths, with Python's sign. */
  function FloatText(h: int): (s: string)
    ensures |s| >= 1 && (s[0] == '-' <==> h < 0)
  {
    if h < 0 then "-" + HundredthsText(-h) else HundredthsText(h)
  }

  /** `str(sec)` for the float `sec = round(sec + frame_rate, 2)` at `h` hundredths. A zero
      that `round` reaches from below keeps its sign, and the only way the loop returns to
      time 0 is a rate that rounds to zero, so a zero time is `-0.0` exactly when the rate
      is negative. */
  function SecText(h: int, frameRate: real): (s: string)
    ensures |s| >= 1 && (s[0] == '-' <==> h < 0 || (h == 0 && frameRate < 0.0))
  {
    if h == 0 && frameRate < 0.0 then "-0.0" else FloatText(h)
  }

  /** `str(sec)` at probe `k`: the first `sec` is the integer `0`, later ones are floats. */
  function ProbeText(k: nat, frameRate: real): (s: string)
    ensures k == 0 ==> s == "0"
    ensures k > 0 ==> s == SecText(k * Round2(frameRate), frameRate)
  {
    if k == 0 then "0" else SecText(k * Round2(frameRate), frameRate)
  }

  /** `frames_dir + "/image" + str(sec) + ".jpg"`. */
  function FramePath(framesDir: string, secText: string): string
  {
    framesDir + "/image" + secText + ".jpg"
  }

  /** `get_frame`: the flag `vidcap.read()` returns at `sec`, and the files written on the way
      (one exactly when that flag is set). */
  function GetFrame(hasFrame: int -> bool, sec: int, secText: string, framesDir: string): (r: (bool, seq<string>))
    ensures r.0 == hasFrame(sec)
    ensures r.0 ==> r.1 == [FramePath(framesDir, secText)]
    ensures !r.0 ==> r.1 == []
  {
    if hasFrame(sec) then (true, [FramePath(framesDir, secText)]) else (false, [])
  }

  /** What `convert_vid` leaves behind: the directory, whether it was created, and the
      frames written, in order. */
  datatype Conversion = Conversion(framesDir: string, created: bool, written: seq<string>)

  /** The conversion probed times `0, step, 2 * step, ...` and stopped at the first time
      without a frame: frame `k` is written for each earlier probe `k`, and nothing else. */
  ghost predicate ProbedUntilMiss(c: Conversion, vidPath: string, frameRate: real, dirExists: bool, hasFrame: int -> bool)
  {
    && c.framesDir == FramesDirName(vidPath)
    && c.created == !dirExists
    && AllFound(c.written, c.framesDir, hasFrame, frameRate)
    && !hasFrame(|c.written| * Round2(frameRate))
  }

  /** Probe `k` of `written` was at `k` rounded rates, found a frame, and wrote it under its
      own `str(sec)`. */
  ghost predicate AllFound(written: seq<string>, framesDir: string, hasFrame: int -> bool, frameRate: real)
  {
    forall k :: 0 <= k < |written| ==> hasFrame(k * Round2(frameRate)) && written[k] == FramePath(framesDir, ProbeText(k, frameRate))
  }

  /** `convert_vid` as written. Probe `k` is at `k` rounded rates after the start, whatever
      the sign of the rate, and the loop ends exactly when a probe finds no frame; `miss` is
      a probe that finds none (without one the loop never ends: see `ZeroRateNeverStops`). */
  method ConvertVid(vidPath: string, frameRate: real, dirExists: bool, hasFrame: int -> bool, ghost miss: nat)
    returns (c: Conversion)
    requires !hasFrame(miss * Round2(frameRate))
    ensures ProbedUntilMiss(c, vidPath, frameRate, dirExists, hasFrame)
  {
    var step := Round2(frameRate);
    var framesDir := FramesDirName(vidPath);
    var created := !dirExists;
    var sec := 0;
    var count := 0;
    var probe := GetFrame(hasFrame, sec, ProbeText(0, frameRate), framesDir);
    var success, written := probe.0, probe.1;
    while success
      invariant sec == count * step && count <= miss
      invariant success == hasFrame(sec)
      invariant |written| == if success then count + 1 else count
      invariant AllFound(written, framesDir, hasFrame, frameRate)
      decreases miss - count
    {
      NextProbeTime(sec, count, frameRate);
      sec := Round2(sec as real / 100.0 + frameRate);
      count := count + 1;
      probe := GetFrame(hasFrame, sec, SecText(sec, frameRate), framesDir);
      ProbeStep(written, probe, framesDir, hasFrame, count, frameRate);
      success := probe.0;
      written := written + probe.1;
    }
    return Conversion(framesDir, created, written);
  }

  /** The rate the corrected conversion refuses: one that rounds to no advance at all. */
  const BadRate: Error := ValueError("frame_rate")

  /** `convert_vid` corrected: a rate that rounds to zero or below is refused up front, and
      every other rate ends on every video, `end` being a time from which it has no frame. */
  method ConvertVidChecked(vidPath: string, frameRate: real, dirExists: bool, hasFrame: int -> bool, ghost end: int)
    returns (r: Result<Conversion, Error>)
    requires forall t :: t >= end ==> !hasFrame(t)
    ensures Round2(frameRate) <= 0 ==> r == Err(BadRate)
    ensures Round2(frameRate) > 0 ==> r.Ok? && ProbedUntilMiss(r.value, vidPath, frameRate, dirExists, hasFrame)
  {
    if Round2(frameRate) <= 0 {
      return Err(BadRate);
    }
    ghost var miss: nat := if end <= 0 then 0 else end;
    PastTheEnd(miss, Round2(frameRate), end);
    var c := ConvertVid(vidPath, frameRate, dirExists, hasFrame, miss);
    return Ok(c);
  }

  /** With a positive step, probe `max(end, 0)` is at or after time `end`. */
  lemma PastTheEnd(miss: nat, step: int, end: int)
    requires step >= 1 && miss == if end <= 0 then 0 else end
    ensures miss * step >= end
  {
    if end > 0 {
      assert miss * step == miss + miss * (step - 1);
    }
  }

  /** One more probe keeps the record of written frames exact. */
  lemma ProbeStep(written: seq<string>, probe: (bool, seq<string>), framesDir: string, hasFrame: int -> bool, count: nat, frameRate: real)
    requires count > 0 && |written| == count
    requires AllFound(written, framesDir, hasFrame, frameRate)
    requires probe == GetFrame(hasFrame, count * Round2(frameRate), SecText(count * Round2(frameRate), frameRate), framesDir)
    ensures AllFound(written + probe.1, framesDir, hasFrame, frameRate)
  {
    var w := written + probe.1;
    forall k | 0 <= k < |w| ensures hasFrame(k * Round2(frameRate)) && w[k] == FramePath(framesDir, ProbeText(k, frameRate)) {
      if k < |written| {
        assert w[k] == written[k];
      } else {
        assert k == count && probe.0 && w[k] == probe.1[0];
      }
    }
  }

  /** The loop as written keeps going while every probe so far found a frame. */
  ghost predicate StillRunning(hasFrame: int -> bool, step: int, k: nat)
  {
    forall j :: 0 <= j <= k ==> hasFrame(j * step)
  }

  /** With a rate that rounds to zero, every probe is at time 0: on a video with a first
      frame the loop as written never ends, writing the same frame over and over, as
      `image0.0.jpg` for a rate of zero or above and as `image-0.0.jpg` for a negative one. */
  lemma ZeroRateNeverStops(hasFrame: int -> bool, frameRate: real, k: nat)
    requires Round2(frameRate) == 0 && hasFrame(0)
    ensures StillRunning(hasFrame, Round2(frameRate), k)
    ensures k > 0 && frameRate >= 0.0 ==> ProbeText(k, frameRate) == "0.0"
    ensures k > 0 && frameRate < 0.0 ==> ProbeText(k, frameRate) == "-0.0"
  {
    forall j | 0 <= j <= k ensures hasFrame(j * Round2(frameRate)) {
      assert j * Round2(frameRate) == 0;
    }
    if k > 0 {
      assert k * Round2(frameRate) == 0;
      assert NatToString(0) == "0";
    }
  }

  /** Python truthiness of an optional path: `None` and `""` are false. */
  predicate Truthy(p: Option<string>) { p.Some? && p.value != "" }

  /** The calls `process_images` makes, in order. The segmentation functions are stubs, so a
      call is all that happens. */
  datatype Dispatch =
    | SegmentImage(path: string)                 // `apply_single_segmentation(img_path, "./runs")`
    | SegmentDir(names: Option<seq<string>>)     // `apply_segmentation_dir(img_paths, "./runs")`
    | Converted(conversion: Conversion)          // `convert_vid(vid_path, frame_rate)`

  /** The calls made, and the exception or exit that ended the run, if any. */
  datatype Run = Run(dispatched: seq<Dispatch>, error: Option<Error>)

  /** `validate_img`: `Image.open` fails on a file that is not an image, and the script exits. */
  function ValidateImg(path: string, isImage: string -> bool): (r: Result<string, Error>)
    ensures r.Ok? <==> isImage(path)
    ensures r.Ok? ==> r.value == path
    ensures r.Err? ==> r.error == Exit(1)
  {
    if isImage(path) then Ok(path) else Err(Exit(1))
  }

  /** `validate_dir`: the listing, or `None` (after a message) when it cannot be listed. It
      does not exit. */
  function ValidateDir(dirPath: string, listDir: string -> Option<seq<string>>): (r: Option<seq<string>>)
    ensures r == listDir(dirPath)
  {
    listDir(dirPath)
  }

  /** Every entry of the listing opens as an image. */
  predicate AllImages(dirPath: string, names: seq<string>, isImage: string -> bool)
  {
    forall i :: 0 <= i < |names| ==> isImage(dirPath + "/" + names[i])
  }

  /** The `if img_path:` branch. */
  function ImagePart(imgPath: Option<string>, isImage: string -> bool): (r: Run)
    ensures !Truthy(imgPath) ==> r == Run([], None)
    ensures Truthy(imgPath) && isImage(imgPath.value) ==> r == Run([SegmentImage(imgPath.value)], None)
    ensures Truthy(imgPath) && !isImage(imgPath.value) ==> r == Run([], Some(Exit(1)))
  {
    if !Truthy(imgPath) then Run([], None)
    else match ValidateImg(imgPath.value, isImage)
      case Ok(p) => Run([SegmentImage(p)], None)
      case Err(e) => Run([], Some(e))
  }

  /** The `if dir_path:` branch: iterating over a `None` listing raises `TypeError`; any
      entry that is not an image exits before the directory is dispatched. */
  function DirPart(dirPath: Option<string>, listDir: string -> Option<seq<string>>, isImage: string -> bool): (r: Run)
    ensures !Truthy(dirPath) ==> r == Run([], None)
    ensures Truthy(dirPath) && listDir(dirPath.value).None? ==> r == Run([], Some(TypeError))
    ensures Truthy(dirPath) && listDir(dirPath.value).Some? ==>
      var names := listDir(dirPath.value).value;
      r == if AllImages(dirPath.value, names, isImage) then Run([SegmentDir(Some(names))], None)
           else Run([], Some(Exit(1)))
  {
    if !Truthy(dirPath) then Run([], None)
    else match ValidateDir(dirPath.value, listDir)
      case None => Run([], Some(TypeError))
      case Some(names) =>
        if AllImages(dirPath.value, names, isImage) then Run([SegmentDir(Some(names))], None)
        else Run([], Some(Exit(1)))
  }

  /** The validation loop of the dir branch: stops at the first entry that is not an image. */
  method ValidateEntries(dirPath: string, names: seq<string>, isImage: string -> bool) returns (r: Result<(), Error>)
    ensures r.Ok? <==> AllImages(dirPath, names, isImage)
    ensures r.Err? ==> r == Err(Exit(1))
  {
    for i := 0 to |names|
      invariant AllImages(dirPath, names[..i], isImage)
    {
      var v := ValidateImg(dirPath + "/" + names[i], isImage);
      if v.Err? {
        return Err(v.error);
      }
      assert names[..i + 1] == names[..i] + [names[i]];
    }
    assert names[..|names|] == names;
    return Ok(());
  }

  /** `process_images`: three independent branches in the order image, directory, video;
      an exit or exception in one ends the run, keeping the calls already made. `miss` is a
      probe of the video that finds no frame, which the video branch, when it runs, needs
      to end. */
  method ProcessImages(imgPath: Option<string>, dirPath: Option<string>, vidPath: Option<string>, frameRate: real,
                       isImage: string -> bool, listDir: string -> Option<seq<string>>,
                       dirExists: string -> bool, hasFrame: int -> bool, ghost miss: nat)
    returns (r: Run)
    requires Truthy(vidPath) ==> !hasFrame(miss * Round2(frameRate))
    ensures var a := ImagePart(imgPath, isImage);
      a.error.Some? ==> r == a
    ensures var a, b := ImagePart(imgPath, isImage), DirPart(dirPath, listDir, isImage);
      a.error.None? && b.error.Some? ==> r == Run(a.dispatched + b.dispatched, b.error)
    ensures var a, b := ImagePart(imgPath, isImage), DirPart(dirPath, listDir, isImage);
      a.error.None? && b.error.None? && !Truthy(vidPath) ==> r == Run(a.dispatched + b.dispatched, None)
    ensures var a, b := ImagePart(imgPath, isImage), DirPart(dirPath, listDir, isImage);
      a.error.None? && b.error.None? && Truthy(vidPath) ==>
        && |a.dispatched| + |b.dispatched| <= |r.dispatched|
        && r.dispatched[..|a.dispatched| + |b.dispatched|] == a.dispatched + b.dispatched
        && VideoRun(r.dispatched[|a.dispatched| + |b.dispatched|..], r.error,
                    vidPath.value, frameRate, listDir, dirExists, hasFrame)
  {
    var before := ImageThenDir(imgPath, dirPath, isImage, listDir);
    if before.error.Some? || !Truthy(vidPath) {
      return before;
    }
    var v := VideoPart(vidPath.value, frameRate, listDir, dirExists, hasFrame, miss);
    r := Run(before.dispatched + v.dispatched, v.error);
    assert r.dispatched[..|before.dispatched|] == before.dispatched;
    assert r.dispatched[|before.dispatched|..] == v.dispatched;
  }

  /** The first two branches of `process_images`, image then directory. */
  method ImageThenDir(imgPath: Option<string>, dirPath: Option<string>,
                      isImage: string -> bool, listDir: string -> Option<seq<string>>)
    returns (r: Run)
    ensures ImagePart(imgPath, isImage).error.Some? ==> r == ImagePart(imgPath, isImage)
    ensures var a, b := ImagePart(imgPath, isImage), DirPart(dirPath, listDir, isImage);
      a.error.None? ==> r == Run(a.dispatched + b.dispatched, b.error)
  {
    var dispatched: seq<Dispatch> := [];
    if Truthy(imgPath) {
      var v := ValidateImg(imgPath.value, isImage);
      if v.Err? {
        return Run(dispatched, Some(v.error));
      }
      dispatched := dispatched + [SegmentImage(imgPath.value)];
    }
    if Truthy(dirPath) {
      var imgPaths := ValidateDir(dirPath.value, listDir);
      if imgPaths.None? {
        return Run(dispatched, Some(TypeError));
      }
      var v := ValidateEntries(dirPath.value, imgPaths.value, isImage);
      if v.Err? {
        return Run(dispatched, Some(v.error));
      }
      dispatched := dispatched + [SegmentDir(imgPaths)];
    }
    return Run(dispatched, None);
  }

  /** What the `if vid_path:` branch leaves: the conversion as written, then either the
      `ZeroDivisionError` of `1 / frame_rate` for a rate of exactly 0, or the frames
      directory's listing dispatched. */
  ghost predicate VideoRun(calls: seq<Dispatch>, error: Option<Error>, vidPath: string, frameRate: real,
                           listDir: string -> Option<seq<string>>, dirExists: string -> bool, hasFrame: int -> bool)
  {
    && |calls| >= 1 && calls[0].Converted?
    && ProbedUntilMiss(calls[0].conversion, vidPath, frameRate, dirExists(FramesDirName(vidPath)), hasFrame)
    && (frameRate == 0.0 ==> |calls| == 1 && error == Some(ZeroDivisionError))
    && (frameRate != 0.0 ==> |calls| == 2 && calls[1] == SegmentDir(listDir(calls[0].conversion.framesDir)) && error.None?)
  }

  /** The `if vid_path:` branch: the video is sampled into its frames directory, the rate is
      inverted for a message, and the directory is then listed and dispatched. */
  method VideoPart(vidPath: string, frameRate: real, listDir: string -> Option<seq<string>>,
                   dirExists: string -> bool, hasFrame: int -> bool, ghost miss: nat)
    returns (r: Run)
    requires !hasFrame(miss * Round2(frameRate))
    ensures VideoRun(r.dispatched, r.error, vidPath, frameRate, listDir, dirExists, hasFrame)
  {
    var framesDir := FramesDirName(vidPath);
    var c := ConvertVid(vidPath, frameRate, dirExists(framesDir), hasFrame, miss);
    if frameRate == 0.0 {
      return Run([Converted(c)], Some(ZeroDivisionError));
    }
    var framePaths := ValidateDir(c.framesDir, listDir);
    return Run([Converted(c), SegmentDir(framePaths)], None);
  }

  /** The parser's mutually exclusive, required group: exactly one of `--img`, `--vid`,
      `--dir` is given (`-r` is outside the group). */
  predicate ParserAccepts(imgPath: Option<string>, dirPath: Option<string>, vidPath: Option<string>)
  {
    (if imgPath.Some? then 1 else 0) + (if dirPath.Some? then 1 else 0) + (if vidPath.Some? then 1 else 0) == 1
  }

  /** Under the parser's group at most one branch of `process_images` does anything; an
      empty path is accepted by the parser but runs no branch. */
  lemma OneFlagOneBranch(imgPath: Option<string>, dirPath: Option<string>, vidPath: Option<string>,
                         isImage: string -> bool, listDir: string -> Option<seq<string>>)
    requires ParserAccepts(imgPath, dirPath, vidPath)
    ensures Truthy(imgPath) ==> DirPart(dirPath, listDir, isImage) == Run([], None) && !Truthy(vidPath)
    ensures Truthy(dirPath) ==> ImagePart(imgPath, isImage) == Run([], None) && !Truthy(vidPath)
    ensures Truthy(vidPath) ==> ImagePart(imgPath, isImage) == Run([], None) && DirPart(dirPath, listDir, isImage) == Run([], None)
  {
  }

  /** `str.find` pinned down by its first occurrence. */
  lemma FindIs(s: string, c: char, i: nat)
    requires i < |s| && s[i] == c && forall j :: 0 <= j < i ==> s[j] != c
    ensures Find(s, c) == i
  {
  }
}
