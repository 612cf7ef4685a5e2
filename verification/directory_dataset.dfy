/** `CustomDatasetSegmentation`: every entry of one folder, served by index with its file name. */
module DirectoryDataset {
  import opened Wrappers
  import opened Errors
  import opened Paths

  /** A constructed dataset: the joined image paths, fixed at construction, and the mode. */
  datatype Dataset = Dataset(images: seq<string>, mode: string)
  {
    /** `__len__`: the number of paths captured by `__init__`; the folder is not read again. */
    function Len(): nat { |images| }
  }

  /** `__init__`: `images = [join(folder, name) for name in os.listdir(folder)]`, then
      `assert len(images) > 0`. `listing` is what `os.listdir` returned (for the working
      directory when `custom_dataset` is `None`, whose join then raises `TypeError`),
      or `None` when the folder cannot be listed. */
  function New(customDataset: Option<string>, listing: Option<seq<string>>, mode: string): (r: Result<Dataset, Error>)
    ensures listing.None? ==> r.Err?
    ensures r.Ok? <==> customDataset.Some? && listing.Some? && |listing.value| > 0
    ensures listing == Some([]) ==> r == Err(AssertionError)
    ensures r.Ok? ==> r.value.mode == mode && |r.value.images| == |listing.value|
    ensures r.Ok? ==> forall i :: 0 <= i < |listing.value| ==> r.value.images[i] == Join(customDataset.value, listing.value[i])
  {
    if listing.None? then Err(IOError(if customDataset.Some? then customDataset.value else "."))
    else if |listing.value| > 0 && customDataset.None? then Err(TypeError)
    else if |listing.value| == 0 then Err(AssertionError)
    else
      var folder := customDataset.value;
      Ok(Dataset(seq(|listing.value|, i requires 0 <= i < |listing.value| => Join(folder, listing.value[i])), mode))
  }

  /** Python's list indexing: `-n <= index < n` is valid, a negative index counts from the end. */
  function Position(index: int, n: nat): (p: Option<nat>)
    ensures p.Some? <==> 0 <= index + n && index < n
    ensures p.Some? ==> p.value < n && (p.value == index || p.value == index + n)
  {
    if 0 <= index < n then Some(index) else if 0 <= index + n && index < 0 then Some(index + n) else None
  }

  /** `__getitem__`: opens `images[index]`, checks the mode, and returns the image with the
      path's basename. `openImage` stands for PIL's decoder. */
  function GetItem<Img>(d: Dataset, index: int, openImage: string -> Option<Img>): (r: Result<(Img, string), Error>)
    ensures r == Err(IndexError) <==> Position(index, d.Len()).None?
    ensures r.Ok? <==> Position(index, d.Len()).Some? && openImage(d.images[Position(index, d.Len()).value]).Some? && d.mode == "testval"
    ensures Position(index, d.Len()).Some? && openImage(d.images[Position(index, d.Len()).value]).None? ==>
              r == Err(IOError(d.images[Position(index, d.Len()).value]))
    ensures Position(index, d.Len()).Some? && openImage(d.images[Position(index, d.Len()).value]).Some? && d.mode != "testval" ==>
              r == Err(AssertionError)
    ensures r.Ok? ==> r.value == (openImage(d.images[Position(index, d.Len()).value]).value, Basename(d.images[Position(index, d.Len()).value]))
  {
    var p := Position(index, |d.images|);
    if p.None? then Err(IndexError)
    else
      var path := d.images[p.value];
      var img := openImage(path);
      if img.None? then Err(IOError(path))
      else if d.mode != "testval" then Err(AssertionError)
      else Ok((img.value, Basename(path)))
  }

  /** The join/basename round trip: an item is served exactly when its index is in range,
      its file opens and the mode is `testval`, and item `i` then carries the `i`-th listed
      name (entries returned by `os.listdir` never contain `/`). */
  lemma GetItemNamesListing<Img>(folder: string, listing: seq<string>, mode: string, index: int,
                                 openImage: string -> Option<Img>)
    requires forall i :: 0 <= i < |listing| ==> NoSlash(listing[i])
    requires New(Some(folder), Some(listing), mode).Ok?
    ensures New(Some(folder), Some(listing), mode).value.Len() == |listing|
    ensures GetItem(New(Some(folder), Some(listing), mode).value, index, openImage).Ok?
        <==> Position(index, |listing|).Some? && openImage(Join(folder, listing[Position(index, |listing|).value])).Some? && mode == "testval"
    ensures GetItem(New(Some(folder), Some(listing), mode).value, index, openImage).Ok? ==>
              GetItem(New(Some(folder), Some(listing), mode).value, index, openImage).value.1 == listing[Position(index, |listing|).value]
  {
    var d := New(Some(folder), Some(listing), mode).value;
    var p := Position(index, |listing|);
    if p.Some? {
      assert d.images[p.value] == Join(folder, listing[p.value]);
      JoinBasename(folder, listing[p.value]);
    }
  }
}
