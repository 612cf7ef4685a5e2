/** `CustomMetricSegmentation`: one image with its ground-truth mask, for scoring. */
module MetricDataset {
  import opened Wrappers
  import opened Errors
  import LabelRemap

  /** A constructed dataset: the image path, the mask path and the mode. */
  datatype Dataset = Dataset(image: string, maskPath: string, mode: string)
  {
    /** `__len__`. */
    function Len(): nat { 1 }
  }

  /** `__init__`: both `input_pic` and `input_gt` must be given. */
  function New(inputPic: Option<string>, inputGt: Option<string>, mode: string): (r: Result<Dataset, Error>)
    ensures r.Ok? <==> inputPic.Some? && inputGt.Some?
    ensures r.Err? ==> r.error == AssertionError
    ensures r.Ok? ==> r.value.image == inputPic.value && r.value.maskPath == inputGt.value && r.value.mode == mode
  {
    if inputPic.Some? && inputGt.Some? then Ok(Dataset(inputPic.value, inputGt.value, mode))
    else Err(AssertionError)
  }

  /** `__getitem__`: opens the image and the mask (the index is not used), checks the mode,
      and remaps the mask. `openImage` and `openMask` stand for PIL's decoders. */
  function GetItem<Img>(d: Dataset, index: int, openImage: string -> Option<Img>,
                        openMask: string -> Option<seq<int>>): (r: Result<(Img, seq<int>), Error>)
    ensures openImage(d.image).None? ==> r == Err(IOError(d.image))
    ensures openImage(d.image).Some? && openMask(d.maskPath).None? ==> r == Err(IOError(d.maskPath))
    ensures openImage(d.image).Some? && openMask(d.maskPath).Some? && r.Err? ==> r == Err(AssertionError)
    ensures r.Ok? <==>
      && openImage(d.image).Some? && openMask(d.maskPath).Some? && d.mode == "testval"
      && forall i :: 0 <= i < |openMask(d.maskPath).value| ==> -1 <= openMask(d.maskPath).value[i] <= 33
    ensures r.Ok? ==> r.value.0 == openImage(d.image).value
    ensures r.Ok? ==> var mask := openMask(d.maskPath).value;
      |r.value.1| == |mask| &&
      forall i :: 0 <= i < |mask| ==> r.value.1[i] == LabelRemap.Key[mask[i] + 1] && -1 <= r.value.1[i] < LabelRemap.NumClass
  {
    var img := openImage(d.image);
    if img.None? then Err(IOError(d.image))
    else
      var mask := openMask(d.maskPath);
      if mask.None? then Err(IOError(d.maskPath))
      else if d.mode != "testval" then Err(AssertionError)
      else
        var target := LabelRemap.MaskTransform(mask.value);
        if target.Err? then Err(target.error) else Ok((img.value, target.value))
  }

  /** The dataset has one item, and every index gives that same item. */
  lemma OneItem<Img>(d: Dataset, i: int, j: int, openImage: string -> Option<Img>,
                     openMask: string -> Option<seq<int>>)
    ensures d.Len() == 1
    ensures GetItem(d, i, openImage, openMask) == GetItem(d, j, openImage, openMask)
  {
  }
}
