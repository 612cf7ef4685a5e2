/** `test_frames.py`: file names of frames, and reassembling a directory of frames into a
    video. Reading an image (`cv2.imread`) and listing a directory (`os.listdir`) are
    oracles; the video is the value the writer would have received. */
module TestFrames {
  import opened Wrappers
  import opened Errors
  import opened Text
  import opened Paths
  import opened Floats
  import opened Sorting

  /** A decoded image: `frame.shape` is `(height, width, layers)`. */
  datatype Image = Image(height: nat, width: nat, layers: nat, pixels: seq<int>)

  /** What a `cv2.VideoWriter` is opened with, and the frames written to it, in order. */
  datatype Video = Video(path: string, fourcc: int, fps: real, size: (nat, nat), frames: seq<Image>)

  /** `cv2.VideoWriter_fourcc(a, b, c, d)`: the four character codes packed little-endian. */
  function FourCC(a: char, b: char, c: char, d: char): int
  {
    a as int + 0x100 * b as int + 0x1_0000 * c as int + 0x100_0000 * d as int
  }

  const Mp4v: int := FourCC('m', 'p', '4', 'v')

  /** `get_file_name`: the last path component without its extension. */
  function GetFileName(path: string): (name: string)
    ensures NoSlash(name)
    ensures |name| <= |Basename(path)| && Basename(path)[..|name|] == name
    ensures |name| < |Basename(path)| ==> Basename(path)[|name|] == '.'
  {
    var b := Basename(path);
    var parts := SplitExt(b);
    assert b == parts.0 + parts.1;
    assert b[..|parts.0|] == parts.0;
    parts.0
  }

  /** A component made of a stem that is not all dots and a one-dot extension loses
      exactly the extension. */
  lemma FileNameOfStem(path: string, stem: string, ext: string)
    requires Basename(path) == stem + ext
    requires HasNonDotIn(stem, 0, |stem|)
    requires |ext| > 0 && ext[0] == '.' && forall j :: 1 <= j < |ext| ==> ext[j] != '.'
    ensures GetFileName(path) == stem
  {
    var b := stem + ext;
    assert NoSlash(b);
    RFindUnique(b, '/', -1);
    assert b[|stem|] == '.';
    assert forall j :: |stem| < j < |b| ==> b[j] == ext[j - |stem|];
    RFindUnique(b, '.', |stem|);
    var j :| 0 <= j < |stem| && stem[j] != '.';
    assert b[j] == stem[j];
    assert HasNonDotIn(b, 0, |stem|);
    assert b[..|stem|] == stem;
  }

  /** The file name of `dir/stem.ext`, however `dir` looks, is `stem`. */
  lemma FileNameInDir(dir: string, stem: string, ext: string)
    requires NoSlash(stem + ext)
    requires HasNonDotIn(stem, 0, |stem|)
    requires |ext| > 0 && ext[0] == '.' && forall j :: 1 <= j < |ext| ==> ext[j] != '.'
    ensures GetFileName(dir + "/" + stem + ext) == stem
  {
    assert dir + "/" + stem + ext == dir + "/" + (stem + ext);
    BasenameInDir(dir, stem + ext);
    FileNameOfStem(dir + "/" + (stem + ext), stem, ext);
  }

  /** `get_file_name('<dir>/image12.png') == 'image12'`. */
  lemma FileNameExample(dir: string)
    ensures GetFileName(dir + "/" + "image12" + ".png") == "image12"
  {
    assert "image12"[0] != '.';
    FileNameInDir(dir, "image12", ".png");
  }

  /** Leading dots stay with the stem once a later character is not a dot:
      `get_file_name('<dir>/.a.b') == '.a'` and `get_file_name('<dir>/..a.b') == '..a'`. */
  lemma HiddenStemExample(dir: string)
    ensures GetFileName(dir + "/" + ".a" + ".b") == ".a"
    ensures GetFileName(dir + "/" + "..a" + ".b") == "..a"
  {
    assert ".a"[1] != '.' && "..a"[2] != '.';
    FileNameInDir(dir, ".a", ".b");
    FileNameInDir(dir, "..a", ".b");
  }

  /** A leading dot does not start an extension: a slash-free name whose only dot comes
      first is its own file name. */
  lemma DotFileName(dir: string, name: string)
    requires NoSlash(name) && |name| > 0 && name[0] == '.'
    requires forall j :: 1 <= j < |name| ==> name[j] != '.'
    ensures GetFileName(dir + "/" + name) == name
  {
    BasenameInDir(dir, name);
    RFindUnique(name, '/', -1);
    RFindUnique(name, '.', 0);
    assert !HasNonDotIn(name, 0, 0);
  }

  /** `get_file_name('<dir>/.bashrc') == '.bashrc'`. */
  lemma DotFileExample(dir: string)
    ensures GetFileName(dir + "/" + ".bashrc") == ".bashrc"
  {
    DotFileName(dir, ".bashrc");
  }

  /** Every readable-image check of `frames_to_vid`'s loop succeeds. */
  predicate Readable(dir: string, names: seq<string>, read: string -> Option<Image>)
  {
    forall i :: 0 <= i < |names| ==> read(Paths.Join(dir, names[i])).Some?
  }

  /** The loops of `frames_to_vid` over names already in order: read each frame, then
      write them all. With no names, `size` is never bound. */
  method Assemble(framesDir: string, dest: string, frameRate: real, names: seq<string>,
                  read: string -> Option<Image>) returns (r: Result<Video, Error>)
    ensures r.Ok? <==> names != [] && Readable(framesDir, names, read)
    ensures names == [] ==> r == Err(UnboundLocalError)
    ensures names != [] && !Readable(framesDir, names, read) ==> r == Err(AttributeError)
    ensures r.Ok? ==> r.value.path == dest && r.value.fourcc == Mp4v && r.value.fps == frameRate
    ensures r.Ok? ==> |r.value.frames| == |names|
    ensures r.Ok? ==> forall i :: 0 <= i < |names| ==> read(Paths.Join(framesDir, names[i])) == Some(r.value.frames[i])
    ensures r.Ok? ==> var last := r.value.frames[|names| - 1]; r.value.size == (last.width, last.height)
  {
    var frameArr, size, failed := ReadFrames(framesDir, names, read);
    assert !failed ==> ReadAs(framesDir, names, read, frameArr);
    if failed {
      return Err(AttributeError);
    }
    if size.None? {
      return Err(UnboundLocalError);
    }
    var out := WriteFrames(Video(dest, Mp4v, frameRate, size.value, []), frameArr);
    return Ok(out);
  }

  /** The first loop of `frames_to_vid`: read each frame (a failed read is `None`, whose
      `.shape` raises) and remember the size of the last one. */
  method ReadFrames(framesDir: string, names: seq<string>, read: string -> Option<Image>)
    returns (frameArr: seq<Image>, size: Option<(nat, nat)>, failed: bool)
    ensures failed <==> !Readable(framesDir, names, read)
    ensures !failed ==> |frameArr| == |names| && ReadAs(framesDir, names, read, frameArr)
    ensures !failed ==> (size.None? <==> names == [])
    ensures !failed && names != [] ==> size.value == (frameArr[|names| - 1].width, frameArr[|names| - 1].height)
  {
    frameArr, size, failed := [], None, false;
    for i := 0 to |names|
      invariant |frameArr| == i && ReadAs(framesDir, names, read, frameArr)
      invariant i == 0 ==> size.None?
      invariant i > 0 ==> size == Some((frameArr[i - 1].width, frameArr[i - 1].height))
    {
      var frameImage := read(Paths.Join(framesDir, names[i]));
      if frameImage.None? {
        Unreadable(framesDir, names, read, i);
        return frameArr, size, true;
      }
      ReadAsSnoc(framesDir, names, read, frameArr, frameImage.value);
      size := Some((frameImage.value.width, frameImage.value.height));
      frameArr := frameArr + [frameImage.value];
    }
    ReadAllReadable(framesDir, names, read, frameArr);
  }

  /** The first `|frames|` names read as `frames`, in order. */
  predicate ReadAs(dir: string, names: seq<string>, read: string -> Option<Image>, frames: seq<Image>)
  {
    |frames| <= |names| && forall k :: 0 <= k < |frames| ==> read(Paths.Join(dir, names[k])) == Some(frames[k])
  }

  lemma ReadAsSnoc(dir: string, names: seq<string>, read: string -> Option<Image>, frames: seq<Image>, x: Image)
    requires ReadAs(dir, names, read, frames) && |frames| < |names|
    requires read(Paths.Join(dir, names[|frames|])) == Some(x)
    ensures ReadAs(dir, names, read, frames + [x])
  {
  }

  lemma Unreadable(dir: string, names: seq<string>, read: string -> Option<Image>, i: nat)
    requires i < |names| && read(Paths.Join(dir, names[i])).None?
    ensures !Readable(dir, names, read)
  {
  }

  lemma ReadAllReadable(dir: string, names: seq<string>, read: string -> Option<Image>, frames: seq<Image>)
    requires |frames| == |names| && ReadAs(dir, names, read, frames)
    ensures Readable(dir, names, read)
  {
    forall k | 0 <= k < |names| ensures read(Paths.Join(dir, names[k])).Some? {
      assert read(Paths.Join(dir, names[k])) == Some(frames[k]);
    }
  }

  /** The second loop of `frames_to_vid`: `out.write` of every frame, in order. */
  method WriteFrames(video: Video, frameArr: seq<Image>) returns (out: Video)
    ensures out == video.(frames := video.frames + frameArr)
  {
    out := video;
    for i := 0 to |frameArr|
      invariant out == video.(frames := video.frames + frameArr[..i])
    {
      assert frameArr[..i + 1] == frameArr[..i] + [frameArr[i]];
      out := out.(frames := out.frames + [frameArr[i]]);
    }
    assert frameArr[..|frameArr|] == frameArr;
  }

  /** `frames_to_vid`: the directory listing in plain string order. */
  method FramesToVid(framesDir: string, dest: string, frameRate: real,
                     listing: Option<seq<string>>, read: string -> Option<Image>) returns (r: Result<Video, Error>)
    ensures listing.None? ==> r == Err(IOError(framesDir))
    ensures listing.Some? ==>
      var names := LexSort(listing.value);
      && (r.Ok? <==> names != [] && Readable(framesDir, names, read))
      && (names == [] ==> r == Err(UnboundLocalError))
      && (names != [] && !Readable(framesDir, names, read) ==> r == Err(AttributeError))
      && (r.Ok? ==> r.value.path == dest && r.value.fourcc == Mp4v && r.value.fps == frameRate)
      && (r.Ok? ==> |r.value.frames| == |names|)
      && (r.Ok? ==> forall i :: 0 <= i < |names| ==> read(Paths.Join(framesDir, names[i])) == Some(r.value.frames[i]))
      && (r.Ok? ==> r.value.size == (r.value.frames[|names| - 1].width, r.value.frames[|names| - 1].height))
  {
    if listing.None? {
      return Err(IOError(framesDir));
    }
    var frames := LexSort(listing.value);
    r := Assemble(framesDir, dest, frameRate, frames, read);
  }

  /** Two names sorted by `sorted`, when `a` is below `b` at index `k` and equal before. */
  lemma SortTwo(a: string, b: string, k: nat)
    requires k < |a| && k < |b| && a[..k] == b[..k] && a[k] < b[k]
    ensures LexSort([b, a]) == [a, b]
  {
    LexIsTotalOrder();
    LexLeAt(a, b, k);
    SortPair(a, b, LexLe);
  }

  /** The names `convert_vid` writes for the probes at 0 s and 0.5 s come out of `sorted`
      with 0.5 s first. */
  lemma HalfSecondSortsFirst()
    ensures LexSort([FrameZero, FrameHalf]) == [FrameHalf, FrameZero]
  {
    var a, b := FrameHalf, FrameZero;
    assert a[..7] == b[..7] && a[7] < b[7];
    SortTwo(a, b, 7);
  }

  /** ... and those for 2 s and 10 s with 10 s first. */
  lemma TenSecondsSortsBeforeTwo()
    ensures LexSort([FrameTwo, FrameTen]) == [FrameTen, FrameTwo]
  {
    var c, d := FrameTen, FrameTwo;
    assert c[..5] == d[..5] && c[5] < d[5];
    SortTwo(c, d, 5);
  }

  /** `x[5:]`: what follows the five letters of `image`, or `""` for a shorter name. */
  function AfterPrefix(stem: string): (t: string)
    ensures |stem| > 5 ==> stem == stem[..5] + t
    ensures |stem| <= 5 ==> t == []
  {
    if |stem| <= 5 then [] else stem[5..]
  }

  /** The key of the commented-out line of `frames_to_vid`: `float(get_file_name(x)[5:])`,
      on a decimal with an optional sign (a negative rate writes names like `image-0.5.jpg`). */
  function FrameKey(name: string): (r: Result<real, Error>)
    ensures r.Ok? <==> IsSignedDecimal(AfterPrefix(GetFileName(name)))
    ensures r.Ok? && r.value < 0.0 ==> AfterPrefix(GetFileName(name))[0] == '-'
    ensures r.Err? ==> r == Err(ValueError(AfterPrefix(GetFileName(name))))
  {
    ParseSigned(AfterPrefix(GetFileName(name)))
  }

  /** The key of a name that has one; names without one are never compared. */
  function NameKey(name: string): real
  {
    if FrameKey(name).Ok? then FrameKey(name).value else 0.0
  }

  /** Frames by capture time; the names break ties so that the order is total. */
  predicate TimeLe(a: string, b: string)
  {
    NameKey(a) < NameKey(b) || (NameKey(a) == NameKey(b) && LexLe(a, b))
  }

  lemma TimeIsTotalOrder()
    ensures TotalOrder(TimeLe)
  {
    forall a, b ensures TimeLe(a, b) || TimeLe(b, a) { LexTotal(a, b); }
    forall a, b, c | TimeLe(a, b) && TimeLe(b, c) ensures TimeLe(a, c) {
      if NameKey(a) == NameKey(b) == NameKey(c) { LexTrans(a, b, c); }
    }
    forall a, b | TimeLe(a, b) && TimeLe(b, a) ensures a == b { LexAntisym(a, b); }
  }

  /** The first name, in listing order, whose key `float` rejects. */
  function FirstKeyError(names: seq<string>): (r: Option<Error>)
    ensures r.None? <==> forall i :: 0 <= i < |names| ==> FrameKey(names[i]).Ok?
    ensures r.Some? ==> exists i :: 0 <= i < |names| && Err(r.value) == FrameKey(names[i])
  {
    if names == [] then None
    else if FrameKey(names[0]).Err? then Some(FrameKey(names[0]).error)
    else
      var r := FirstKeyError(names[1..]);
      KeysOfTail(names, FrameKey, r);
      r
  }

  /** What holds of every element of the tail, or of some element of it, holds of the
      whole list when its head has a key. */
  lemma KeysOfTail(names: seq<string>, key: string -> Result<real, Error>, r: Option<Error>)
    requires names != [] && key(names[0]).Ok?
    requires r.None? <==> forall i :: 0 <= i < |names[1..]| ==> key(names[1..][i]).Ok?
    requires r.Some? ==> exists i :: 0 <= i < |names[1..]| && Err(r.value) == key(names[1..][i])
    ensures r.None? <==> forall i :: 0 <= i < |names| ==> key(names[i]).Ok?
    ensures r.Some? ==> exists i :: 0 <= i < |names| && Err(r.value) == key(names[i])
  {
    if r.Some? {
      var i :| 0 <= i < |names[1..]| && Err(r.value) == key(names[1..][i]);
      assert names[1..][i] == names[i + 1];
    } else {
      forall i | 0 <= i < |names| ensures key(names[i]).Ok? {
        if i > 0 { assert names[i] == names[1..][i - 1]; }
      }
    }
  }

  /** `sorted(frames, key=image_num)`: every name once, in nondecreasing capture time. */
  function TimeOrder(names: seq<string>): (r: Result<seq<string>, Error>)
    ensures r.Ok? <==> forall i :: 0 <= i < |names| ==> FrameKey(names[i]).Ok?
    ensures r.Err? ==> exists i :: 0 <= i < |names| && FrameKey(names[i]) == Err(r.error)
    ensures r.Ok? ==> multiset(r.value) == multiset(names)
    ensures r.Ok? ==> forall i :: 0 <= i < |r.value| ==> FrameKey(r.value[i]).Ok?
    ensures r.Ok? ==> forall i, j :: 0 <= i < j < |r.value| ==> NameKey(r.value[i]) <= NameKey(r.value[j])
  {
    match FirstKeyError(names)
    case Some(e) => Err(e)
    case None =>
      TimeIsTotalOrder();
      var sorted := Sort(names, TimeLe);
      KeysSurvive(names, sorted);
      TimeSortedKeys(sorted);
      Ok(sorted)
  }

  lemma KeysSurvive(names: seq<string>, sorted: seq<string>)
    requires multiset(sorted) == multiset(names)
    requires forall i :: 0 <= i < |names| ==> FrameKey(names[i]).Ok?
    ensures forall i :: 0 <= i < |sorted| ==> FrameKey(sorted[i]).Ok?
  {
    forall i | 0 <= i < |sorted| ensures FrameKey(sorted[i]).Ok? {
      assert sorted[i] in multiset(names);
    }
  }

  lemma TimeSortedKeys(s: seq<string>)
    requires SortedBy(s, TimeLe)
    ensures forall i, j :: 0 <= i < j < |s| ==> NameKey(s[i]) <= NameKey(s[j])
  {
    forall i, j | 0 <= i < j < |s| ensures NameKey(s[i]) <= NameKey(s[j]) {
      assert TimeLe(s[i], s[j]);
    }
  }

  /** The key of the frame name `image<num>.jpg` is the number `num` spells. */
  lemma KeyOfFrame(num: string, x: real)
    requires |num| > 0 && AllNumChars(num) && ParseFloat(num) == Ok(x)
    ensures FrameKey("image" + num + ".jpg") == Ok(x)
  {
    var stem := "image" + num;
    var name := stem + ".jpg";
    assert NoSlash(name);
    BasenameOfName(name);
    assert stem[0] == 'i';
    FileNameOfStem(name, stem, ".jpg");
    assert AfterPrefix(stem) == num;
  }

  /** With keys `x < y`, the name keyed `x` comes first whatever the listing order. */
  lemma TimeSortTwo(a: string, b: string, x: real, y: real)
    requires FrameKey(a) == Ok(x) && FrameKey(b) == Ok(y) && x < y
    ensures TimeOrder([b, a]) == Ok([a, b])
  {
    KeysOfTwo(b, a);
    TimeSortedTwo(a, b, x, y);
  }

  lemma KeysOfTwo(a: string, b: string)
    requires FrameKey(a).Ok? && FrameKey(b).Ok?
    ensures FirstKeyError([a, b]) == None
  {
    assert [a, b][1..] == [b] && [b][1..] == [];
    assert FirstKeyError([b]) == FirstKeyError([]);
  }

  lemma TimeSortedTwo(a: string, b: string, x: real, y: real)
    requires FrameKey(a) == Ok(x) && FrameKey(b) == Ok(y) && x < y
    ensures TotalOrder(TimeLe) && Sort([b, a], TimeLe) == [a, b]
  {
    TimeIsTotalOrder();
    assert TimeLe(a, b) by {
      assert NameKey(a) == x && NameKey(b) == y;
    }
    SortPair(a, b, TimeLe);
  }

  /** Frame names `convert_vid` writes at 0 s, 0.5 s, 2 s and 10 s. */
  const FrameZero: string := "image0.jpg"
  const FrameHalf: string := "image0.5.jpg"
  const FrameTwo: string := "image2.0.jpg"
  const FrameTen: string := "image10.0.jpg"

  /** The intended key puts 0 s before 0.5 s ... */
  lemma TimeOrderHalfSecond()
    ensures TimeOrder([FrameHalf, FrameZero]) == Ok([FrameZero, FrameHalf])
  {
    KeyZero();
    KeyHalf();
    TimeSortTwo(FrameZero, FrameHalf, 0.0, 0.5);
  }

  /** ... and 2 s before 10 s. */
  lemma TimeOrderTenSeconds()
    ensures TimeOrder([FrameTen, FrameTwo]) == Ok([FrameTwo, FrameTen])
  {
    KeyTwo();
    KeyTen();
    TimeSortTwo(FrameTwo, FrameTen, 2.0, 10.0);
  }

  lemma KeyZero()
    ensures FrameKey(FrameZero) == Ok(0.0)
  {
    ParseZero();
    assert "image" + "0" + ".jpg" == FrameZero;
    KeyOfFrame("0", 0.0);
  }

  lemma KeyHalf()
    ensures FrameKey(FrameHalf) == Ok(0.5)
  {
    ParseHalf();
    assert "image" + "0.5" + ".jpg" == FrameHalf;
    KeyOfFrame("0.5", 0.5);
  }

  lemma KeyTwo()
    ensures FrameKey(FrameTwo) == Ok(2.0)
  {
    ParseTwo();
    assert "image" + "2.0" + ".jpg" == FrameTwo;
    KeyOfFrame("2.0", 2.0);
  }

  lemma KeyTen()
    ensures FrameKey(FrameTen) == Ok(10.0)
  {
    ParseTen();
    assert "image" + "10.0" + ".jpg" == FrameTen;
    KeyOfFrame("10.0", 10.0);
  }

  lemma ParseZero()
    ensures ParseFloat("0") == Ok(0.0)
  {
  }

  lemma ParseHalf()
    ensures ParseFloat("0.5") == Ok(0.5)
  {
  }

  lemma ParseTwo()
    ensures ParseFloat("2.0") == Ok(2.0)
  {
  }

  lemma ParseTen()
    ensures ParseFloat("10.0") == Ok(10.0)
  {
  }

  /** `frames_to_vid` with the numeric key it was evidently meant to sort by. */
  method FramesToVidInTimeOrder(framesDir: string, dest: string, frameRate: real,
                                listing: Option<seq<string>>, read: string -> Option<Image>) returns (r: Result<Video, Error>)
    ensures listing.None? ==> r == Err(IOError(framesDir))
    ensures listing.Some? && TimeOrder(listing.value).Err? ==> r == Err(TimeOrder(listing.value).error)
    ensures listing.Some? && TimeOrder(listing.value).Ok? ==>
      var names := TimeOrder(listing.value).value;
      && (r.Ok? <==> names != [] && Readable(framesDir, names, read))
      && (names == [] ==> r == Err(UnboundLocalError))
      && (names != [] && !Readable(framesDir, names, read) ==> r == Err(AttributeError))
      && (r.Ok? ==> r.value.path == dest && r.value.fourcc == Mp4v && r.value.fps == frameRate)
      && (r.Ok? ==> |r.value.frames| == |names|)
      && (r.Ok? ==> forall i :: 0 <= i < |names| ==> read(Paths.Join(framesDir, names[i])) == Some(r.value.frames[i]))
      && (r.Ok? ==> r.value.size == (r.value.frames[|names| - 1].width, r.value.frames[|names| - 1].height))
  {
    if listing.None? {
      return Err(IOError(framesDir));
    }
    var ordered := TimeOrder(listing.value);
    if ordered.Err? {
      return Err(ordered.error);
    }
    r := Assemble(framesDir, dest, frameRate, ordered.value, read);
  }

  /** `[img for img in names if img.endswith(".png")]`: the `.png` names, in listing order. */
  function PngNames(names: seq<string>): (r: seq<string>)
    ensures forall x :: multiset(r)[x] == if EndsWith(x, ".png") then multiset(names)[x] else 0
  {
    if names == [] then []
    else
      var init := PngNames(names[..|names| - 1]);
      var last := names[|names| - 1];
      assert names == names[..|names| - 1] + [last];
      if EndsWith(last, ".png") then init + [last] else init
  }

  /** The module-level `frames_folder` that `frames_to_vid2` reads from. */
  const FramesFolder: string := "/home/khushi/Desktop/semantic-segmentation/runs/Oz7UU8VD"
  const SegVideoName: string := "video-seg.avi"

  /** `frames_to_vid2`: the first sorted `.png` frame fixes the size of an uncompressed
      (`fourcc` 0) 20 fps video, then every `.png` frame is read again and written. A frame
      that cannot be read is `None`: on the first name its `.shape` raises; later it reaches
      the writer as an empty frame, which `rejectsEmpty` says whether the writer refuses
      (raising `cv2.error`) or skips. */
  method FramesToVid2(listing: Option<seq<string>>, read: string -> Option<Image>, rejectsEmpty: bool)
    returns (r: Result<Video, Error>)
    ensures listing.None? ==> r == Err(IOError(FramesFolder))
    ensures listing.Some? ==>
      var images := LexSort(PngNames(listing.value));
      && (images == [] ==> r == Err(IndexError))
      && (images != [] && read(Paths.Join(FramesFolder, images[0])).None? ==> r == Err(AttributeError))
      && (images != [] && read(Paths.Join(FramesFolder, images[0])).Some? ==>
            && (r.Ok? <==> !rejectsEmpty || Readable(FramesFolder, images, read))
            && (r.Err? ==> r == Err(CvError))
            && (r.Ok? ==> r.value.size == (read(Paths.Join(FramesFolder, images[0])).value.width,
                                           read(Paths.Join(FramesFolder, images[0])).value.height)))
      && (r.Ok? ==> r.value.path == SegVideoName && r.value.fourcc == 0 && r.value.fps == 20.0)
      && (r.Ok? ==> r.value.frames == Readings(FramesFolder, images, read))
  {
    if listing.None? {
      return Err(IOError(FramesFolder));
    }
    var images := LexSort(PngNames(listing.value));
    if |images| == 0 {
      return Err(IndexError);
    }
    var frame := read(Paths.Join(FramesFolder, images[0]));
    if frame.None? {
      return Err(AttributeError);
    }
    var video := Video(SegVideoName, 0, 20.0, (frame.value.width, frame.value.height), []);
    r := WriteEach(FramesFolder, images, read, video, rejectsEmpty);
  }

  /** The frames that read, in order: all of them exactly when every name reads. */
  function Readings(dir: string, names: seq<string>, read: string -> Option<Image>): (frames: seq<Image>)
    ensures |frames| <= |names|
    ensures |frames| == |names| <==> Readable(dir, names, read)
    ensures Readable(dir, names, read) ==> ReadAs(dir, names, read, frames)
  {
    if names == [] then []
    else
      var init := names[..|names| - 1];
      var rest := Readings(dir, init, read);
      assert Readable(dir, names, read) <==> Readable(dir, init, read) && read(Paths.Join(dir, names[|names| - 1])).Some? by {
        if Readable(dir, init, read) && read(Paths.Join(dir, names[|names| - 1])).Some? {
          forall i | 0 <= i < |names| ensures read(Paths.Join(dir, names[i])).Some? {
            if i < |init| { assert names[i] == init[i]; }
          }
        }
      }
      match read(Paths.Join(dir, names[|names| - 1]))
      case Some(x) => rest + [x]
      case None => rest
  }

  /** The loop of `frames_to_vid2`: each frame is read again and written. A writer that
      refuses an empty frame stops the run at the first unreadable one; one that skips it
      receives exactly the frames that read. */
  method WriteEach(folder: string, images: seq<string>, read: string -> Option<Image>, video: Video, rejectsEmpty: bool)
    returns (r: Result<Video, Error>)
    requires video.frames == []
    ensures rejectsEmpty ==> (r.Ok? <==> Readable(folder, images, read))
    ensures !rejectsEmpty ==> r.Ok?
    ensures r.Err? ==> r == Err(CvError)
    ensures r.Ok? ==> r.value == video.(frames := Readings(folder, images, read))
  {
    var out := video;
    for i := 0 to |images|
      invariant out == video.(frames := Readings(folder, images[..i], read))
      invariant rejectsEmpty ==> Readable(folder, images[..i], read)
    {
      assert images[..i + 1][..i] == images[..i];
      var image := read(Paths.Join(folder, images[i]));
      if image.None? && rejectsEmpty {
        Unreadable(folder, images, read, i);
        return Err(CvError);
      }
      if image.Some? {
        out := out.(frames := out.frames + [image.value]);
      }
    }
    assert images[..|images|] == images;
    return Ok(out);
  }

  /** Only `.png` names are written, each as often as it is listed. */
  lemma PngNamesSelect(names: seq<string>, x: string)
    ensures x in LexSort(PngNames(names)) <==> x in names && EndsWith(x, ".png")
  {
    var sorted := LexSort(PngNames(names));
    assert x in sorted <==> multiset(sorted)[x] > 0;
    assert x in names <==> multiset(names)[x] > 0;
  }
}
