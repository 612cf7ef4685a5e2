/** `CustomSegmentation`: one image, no mask, for prediction only. */
module SingleImageDataset {
  import opened Wrappers
  import opened Errors

  /** A constructed dataset: the image path and the mode. */
  datatype Dataset = Dataset(image: string, mode: string)
  {
    /** `__len__`. */
    function Len(): nat { 1 }
  }

  /** `__init__`: `input_pic` must be given. */
  function New(inputPic: Option<string>, mode: string): (r: Result<Dataset, Error>)
    ensures r.Ok? <==> inputPic.Some?
    ensures r.Err? ==> r.error == AssertionError
    ensures r.Ok? ==> r.value.image == inputPic.value && r.value.mode == mode
  {
    if inputPic.Some? then Ok(Dataset(inputPic.value, mode)) else Err(AssertionError)
  }

  /** `__getitem__`: opens the one image (the index is not used), checks the mode, and
      returns the image alone, with no mask and no file name. */
  function GetItem<Img>(d: Dataset, index: int, openImage: string -> Option<Img>): (r: Result<Img, Error>)
    ensures openImage(d.image).None? ==> r == Err(IOError(d.image))
    ensures r.Ok? <==> openImage(d.image).Some? && d.mode == "testval"
    ensures openImage(d.image).Some? && r.Err? ==> r == Err(AssertionError)
    ensures r.Ok? ==> r.value == openImage(d.image).value
  {
    var img := openImage(d.image);
    if img.None? then Err(IOError(d.image))
    else if d.mode != "testval" then Err(AssertionError)
    else Ok(img.value)
  }

  /** The dataset has one item, and every index gives that same item. */
  lemma OneItem<Img>(d: Dataset, i: int, j: int, openImage: string -> Option<Img>)
    ensures d.Len() == 1
    ensures GetItem(d, i, openImage) == GetItem(d, j, openImage)
  {
  }
}
