/** The `datasets` table and `get_segmentation_dataset`: a dataset class looked up by name,
    ignoring case, then called with the keyword arguments unchanged. */
module DatasetRegistry {
  import opened Wrappers
  import opened Errors
  import opened Text
  import MetricDataset
  import DirectoryDataset
  import SingleImageDataset

  datatype DatasetClass =
    | ADE20KSegmentation | VOCSegmentation | VOCAugSegmentation | COCOSegmentation | CitySegmentation
    | CustomMetricSegmentation | CustomSegmentation | CustomDatasetSegmentation | SBUSegmentation

  /** The registered names. */
  const Datasets: map<string, DatasetClass> := map[
    "ade20k" := ADE20KSegmentation,
    "pascal_voc" := VOCSegmentation,
    "pascal_aug" := VOCAugSegmentation,
    "coco" := COCOSegmentation,
    "citys" := CitySegmentation,
    "custom-metric" := CustomMetricSegmentation,
    "custom" := CustomSegmentation,
    "custom-dataset" := CustomDatasetSegmentation,
    "sbu" := SBUSegmentation
  ]

  /** The keyword arguments the three custom classes read; `listing` is what `os.listdir`
      returns for the `custom_dataset` folder. */
  datatype Kwargs = Kwargs(inputPic: Option<string>, inputGt: Option<string>,
                           customDataset: Option<string>, listing: Option<seq<string>>, mode: string)

  /** What the call builds: one of the modelled datasets, or a class outside this model
      applied to the same keyword arguments. */
  datatype Instance =
    | Metric(metric: MetricDataset.Dataset)
    | Single(single: SingleImageDataset.Dataset)
    | Directory(directory: DirectoryDataset.Dataset)
    | External(cls: DatasetClass, kwargs: Kwargs)

  /** `datasets[name.lower()]`: a missing key raises `KeyError`. */
  function Lookup(name: string): (r: Result<DatasetClass, Error>)
    ensures r.Ok? <==> Lower(name) in Datasets
    ensures r.Ok? ==> r.value == Datasets[Lower(name)]
    ensures r.Err? ==> r.error == KeyError(Lower(name))
  {
    var key := Lower(name);
    if key in Datasets then Ok(Datasets[key]) else Err(KeyError(key))
  }

  /** `get_segmentation_dataset(name, **kwargs)`: look the class up, then construct it. */
  function GetSegmentationDataset(name: string, kwargs: Kwargs): (r: Result<Instance, Error>)
    ensures Lookup(name).Err? ==> r == Err(KeyError(Lower(name)))
    ensures Lookup(name) == Ok(CustomMetricSegmentation) ==>
      r == (match MetricDataset.New(kwargs.inputPic, kwargs.inputGt, kwargs.mode)
            case Ok(d) => Ok(Metric(d)) case Err(e) => Err(e))
    ensures Lookup(name) == Ok(CustomSegmentation) ==>
      r == (match SingleImageDataset.New(kwargs.inputPic, kwargs.mode)
            case Ok(d) => Ok(Single(d)) case Err(e) => Err(e))
    ensures Lookup(name) == Ok(CustomDatasetSegmentation) ==>
      r == (match DirectoryDataset.New(kwargs.customDataset, kwargs.listing, kwargs.mode)
            case Ok(d) => Ok(Directory(d)) case Err(e) => Err(e))
    ensures Lookup(name).Ok? && Lookup(name).value !in {CustomMetricSegmentation, CustomSegmentation, CustomDatasetSegmentation} ==>
      r == Ok(External(Lookup(name).value, kwargs))
  {
    match Lookup(name)
    case Err(e) => Err(e)
    case Ok(cls) =>
      match cls
      case CustomMetricSegmentation =>
        (match MetricDataset.New(kwargs.inputPic, kwargs.inputGt, kwargs.mode)
         case Ok(d) => Ok(Metric(d)) case Err(e) => Err(e))
      case CustomSegmentation =>
        (match SingleImageDataset.New(kwargs.inputPic, kwargs.mode)
         case Ok(d) => Ok(Single(d)) case Err(e) => Err(e))
      case CustomDatasetSegmentation =>
        (match DirectoryDataset.New(kwargs.customDataset, kwargs.listing, kwargs.mode)
         case Ok(d) => Ok(Directory(d)) case Err(e) => Err(e))
      case _ => Ok(External(cls, kwargs))
  }

  /** The registered names, in the order the table lists them. */
  const Names: seq<string> := ["ade20k", "pascal_voc", "pascal_aug", "coco", "citys",
                               "custom-metric", "custom", "custom-dataset", "sbu"]

  /** The table holds nine names, all lower-case, bound to nine different classes. */
  lemma RegistryShape()
    ensures |Datasets| == 9
    ensures forall k :: k in Datasets ==> IsLower(k)
    ensures forall k, k' :: k in Datasets && k' in Datasets && Datasets[k] == Datasets[k'] ==> k == k'
  {
    RegistrySize();
    RegistryLowerCase();
    RegistryInjective();
  }

  lemma RegistrySize()
    ensures |Datasets| == 9
  {
    assert Datasets.Keys == set k | k in Names;
    NamesDistinct();
    DistinctSeqSetSize(Names);
  }

  lemma RegistryLowerCase()
    ensures forall k :: k in Datasets ==> IsLower(k)
  {
    assert Datasets.Keys == set k | k in Names;
    forall i | 0 <= i < |Names| ensures IsLower(Names[i]) {
    }
  }

  lemma RegistryInjective()
    ensures forall k, k' :: k in Datasets && k' in Datasets && Datasets[k] == Datasets[k'] ==> k == k'
  {
  }

  lemma NamesDistinct()
    ensures forall i, j :: 0 <= i < j < |Names| ==> Names[i] != Names[j]
  {
    forall i, j | 0 <= i < j < |Names| ensures Names[i] != Names[j] {
      assert |Names[i]| != |Names[j]| || Names[i][0] != Names[j][0] || Names[i][|Names[i]| - 1] != Names[j][|Names[j]| - 1];
    }
  }

  lemma {:induction false} DistinctSeqSetSize(s: seq<string>)
    requires forall i, j :: 0 <= i < j < |s| ==> s[i] != s[j]
    ensures |set k | k in s| == |s|
  {
    if s != [] {
      DistinctSeqSetSize(s[1..]);
      assert (set k | k in s) == {s[0]} + (set k | k in s[1..]);
      assert s[0] !in (set k | k in s[1..]);
    }
  }

  /** Lookup ignores case: two names that lower-case alike resolve alike, and every casing
      of a registered name resolves to that name's class. */
  lemma LookupIgnoresCase(name: string, other: string)
    requires Lower(name) == Lower(other)
    ensures Lookup(name) == Lookup(other)
  {
  }

  lemma EveryCasingResolves(key: string, name: string)
    requires key in Datasets && Lower(name) == key
    ensures Lookup(name) == Ok(Datasets[key])
  {
  }

  /** A registered name given in lower case resolves to itself. */
  lemma RegisteredNamesResolve(key: string)
    requires key in Datasets
    ensures Lookup(key) == Ok(Datasets[key])
  {
    RegistryShape();
    LowerFixesLower(key);
  }
}
