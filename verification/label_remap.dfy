/** The Cityscapes labelId -> trainId remapping of `CustomMetricSegmentation`
    (`_key`, `_mapping`, `valid_classes`, `_class_to_index`). A mask is modelled
    flattened (`mask.ravel()`); the final `reshape(mask.shape)` puts each output value
    back at the position it was read from. */
module LabelRemap {
  import opened Wrappers
  import opened Errors

  /** `NUM_CLASS`: the train ids are 0 .. NumClass - 1, and -1 means "ignore". */
  const NumClass: int := 19

  /** `valid_classes`: the label ids that survive, in train-id order. */
  const ValidClasses: seq<int> := [7, 8, 11, 12, 13, 17, 19, 20, 21, 22,
                                   23, 24, 25, 26, 27, 28, 31, 32, 33]

  /** `_key`: entry `k` is the train id of label id `k - 1`. */
  const Key: seq<int> := [-1, -1, -1, -1, -1, -1,
                          -1, -1, 0, 1, -1, -1,
                          2, 3, 4, -1, -1, -1,
                          5, -1, 6, 7, 8, 9,
                          10, 11, 12, 13, 14, 15,
                          -1, -1, 16, 17, 18]

  /** Python's `range(lo, hi)` as a sequence. */
  function Range(lo: int, hi: int): (r: seq<int>)
    ensures |r| == if lo < hi then hi - lo else 0
    ensures forall i :: 0 <= i < |r| ==> r[i] == lo + i
    decreases hi - lo
  {
    if lo >= hi then [] else [lo] + Range(lo + 1, hi)
  }

  /** `_mapping = np.array(range(-1, len(_key) - 1))`. */
  const Mapping: seq<int> := Range(-1, |Key| - 1)

  /** The label ids `_class_to_index` accepts: exactly the values of `_mapping`. */
  predicate InDomain(v: int) { v in Mapping }

  /** `np.digitize(x, bins, right=True)` on increasing bins: the index `i` with
      `bins[i - 1] < x <= bins[i]`, i.e. the first bin not below `x` (or `|bins|`). */
  function Digitize(x: int, bins: seq<int>): (i: nat)
    ensures i <= |bins|
    ensures forall j :: 0 <= j < i ==> bins[j] < x
    ensures i < |bins| ==> x <= bins[i]
  {
    if bins == [] || x <= bins[0] then 0 else 1 + Digitize(x, bins[1..])
  }

  /** The train id of one accepted label id: `_key[digitize(v)]`. */
  function RemapValue(v: int): int
    requires -1 <= v <= 33
  {
    DigitizeConsecutive(v);
    Key[Digitize(v, Mapping)]
  }

  /** `np.unique(mask)`: the distinct values of the mask (their order plays no part here). */
  function Unique(mask: seq<int>): (vs: set<int>)
    ensures forall v :: v in vs <==> v in mask
  {
    set v | v in mask
  }

  /** `_class_to_index` on a flattened mask: every distinct value is checked first (the
      assertion loop over `np.unique(mask)`), and only then is every pixel looked up. */
  function ClassToIndex(mask: seq<int>): (r: Result<seq<int>, Error>)
    ensures r.Ok? <==> forall i :: 0 <= i < |mask| ==> -1 <= mask[i] <= 33
    ensures r.Err? ==> r == Err(AssertionError)
    ensures r.Ok? ==> |r.value| == |mask|
    ensures r.Ok? ==> forall i :: 0 <= i < |mask| ==> r.value[i] == Key[mask[i] + 1]
  {
    DomainIsRange();
    if exists v :: v in Unique(mask) && !InDomain(v) then
      Err(AssertionError)
    else
      assert forall i :: 0 <= i < |mask| ==> InDomain(mask[i]) by {
        assert forall i :: 0 <= i < |mask| ==> mask[i] in Unique(mask);
      }
      RemapAll(mask)
  }

  /** The pixel-wise lookup once every value is known to be in the domain. */
  function RemapAll(mask: seq<int>): (r: Result<seq<int>, Error>)
    requires forall i :: 0 <= i < |mask| ==> -1 <= mask[i] <= 33
    ensures r.Ok? && |r.value| == |mask|
    ensures forall i :: 0 <= i < |mask| ==> r.value[i] == Key[mask[i] + 1]
  {
    DomainIsRange();
    var out := seq(|mask|, i requires 0 <= i < |mask| => RemapValue(mask[i]));
    assert forall i :: 0 <= i < |mask| ==> out[i] == Key[mask[i] + 1] by {
      forall i | 0 <= i < |mask| ensures out[i] == Key[mask[i] + 1] {
        DigitizeConsecutive(mask[i]);
      }
    }
    Ok(out)
  }

  /** `_mask_transform`: the `int32` cast is the identity on label images (values 0..255). */
  function MaskTransform(mask: seq<int>): (r: Result<seq<int>, Error>)
    ensures r.Ok? ==> forall i :: 0 <= i < |r.value| ==> -1 <= r.value[i] < NumClass
  {
    var r := ClassToIndex(mask);
    assert r.Ok? ==> forall i :: 0 <= i < |r.value| ==> -1 <= r.value[i] < NumClass by {
      if r.Ok? {
        forall i | 0 <= i < |r.value| ensures -1 <= r.value[i] < NumClass {
          KeyRange(mask[i] + 1);
        }
      }
    }
    r
  }

  /** `value in _mapping` holds exactly for -1 .. 33. */
  lemma DomainIsRange()
    ensures |Key| == |Mapping| == 35
    ensures forall v :: InDomain(v) <==> -1 <= v <= 33
  {
    forall v | -1 <= v <= 33 ensures InDomain(v) {
      assert Mapping[v + 1] == v;
    }
  }

  /** `digitize(right=True)` against consecutive bins -1 .. 33 returns `v + 1`. */
  lemma DigitizeConsecutive(v: int)
    requires -1 <= v <= 33
    ensures Digitize(v, Mapping) == v + 1
  {
    assert |Mapping| == 35;
    assert Mapping[v + 1] == v;
  }

  /** `_mapping` is the 35 consecutive ids -1 .. 33, strictly increasing, one per `_key` entry. */
  lemma MappingIsConsecutive()
    ensures |Key| == |Mapping| == 35
    ensures forall i :: 0 <= i < |Mapping| ==> Mapping[i] == i - 1
    ensures forall i, j :: 0 <= i < j < |Mapping| ==> Mapping[i] < Mapping[j]
  {
  }

  /** Every entry of `_key` is a train id or the ignore value. */
  lemma KeyRange(k: int)
    requires 0 <= k < |Key|
    ensures -1 <= Key[k] < NumClass
  {
  }

  /** `valid_classes[i]` is remapped to train id `i`, for every `i` in 0 .. 18. */
  lemma ValidClassesMapToIndex(i: int)
    requires 0 <= i < |ValidClasses|
    ensures |ValidClasses| == NumClass
    ensures -1 <= ValidClasses[i] <= 33 && RemapValue(ValidClasses[i]) == i
  {
    KeyAtValidClass(i);
    RemapIsKey(ValidClasses[i]);
  }

  lemma KeyAtValidClass(i: int)
    requires 0 <= i < |ValidClasses|
    ensures -1 <= ValidClasses[i] <= 33 && Key[ValidClasses[i] + 1] == i
  {
  }

  /** Every other accepted id is sent to -1. */
  lemma OtherClassesIgnored(v: int)
    requires -1 <= v <= 33 && v !in ValidClasses
    ensures RemapValue(v) == -1
  {
    RemapIsKey(v);
    KeyEntry(v + 1);
  }

  /** An accepted label id `v` is looked up at `_key[v + 1]`. */
  lemma RemapIsKey(v: int)
    requires -1 <= v <= 33
    ensures RemapValue(v) == Key[v + 1]
  {
    DigitizeConsecutive(v);
  }

  /** An entry of `_key` other than the ignore value stands for a valid class. */
  lemma KeyEntry(k: int)
    requires 0 <= k < |Key|
    ensures Key[k] != -1 ==> k - 1 in ValidClasses
  {
    if Key[k] != -1 {
      assert ValidClasses[Key[k]] == k - 1;
    }
  }

  /** So the remap is injective on the valid classes: a train id identifies its label id. */
  lemma RemapInjectiveOnValid(v: int, w: int)
    requires v in ValidClasses && w in ValidClasses
    requires RemapValue(v) == RemapValue(w)
    ensures v == w
  {
    var i :| 0 <= i < |ValidClasses| && ValidClasses[i] == v;
    var j :| 0 <= j < |ValidClasses| && ValidClasses[j] == w;
    ValidClassesMapToIndex(i);
    ValidClassesMapToIndex(j);
  }

  /** All-or-nothing and position-wise: the remap of two concatenated masks is the
      concatenation of their remaps, and one stray value anywhere rejects the whole mask. */
  lemma ClassToIndexConcat(a: seq<int>, b: seq<int>)
    ensures ClassToIndex(a + b).Ok? <==> ClassToIndex(a).Ok? && ClassToIndex(b).Ok?
    ensures ClassToIndex(a + b).Ok? ==> ClassToIndex(a + b).value == ClassToIndex(a).value + ClassToIndex(b).value
  {
    ConcatAccepted(a, b);
    if ClassToIndex(a + b).Ok? {
      ConcatValue(a, b);
    }
  }

  lemma ConcatAccepted(a: seq<int>, b: seq<int>)
    ensures ClassToIndex(a + b).Ok? <==> ClassToIndex(a).Ok? && ClassToIndex(b).Ok?
  {
    var ab := a + b;
    assert forall i :: 0 <= i < |a| ==> ab[i] == a[i];
    assert forall i :: 0 <= i < |b| ==> ab[|a| + i] == b[i];
  }

  lemma ConcatValue(a: seq<int>, b: seq<int>)
    requires ClassToIndex(a).Ok? && ClassToIndex(b).Ok? && ClassToIndex(a + b).Ok?
    ensures ClassToIndex(a + b).value == ClassToIndex(a).value + ClassToIndex(b).value
  {
    var ab := a + b;
    var r, ra, rb := ClassToIndex(ab).value, ClassToIndex(a).value, ClassToIndex(b).value;
    forall i | 0 <= i < |r| ensures r[i] == (ra + rb)[i] {
      if i < |a| {
        assert ab[i] == a[i];
      } else {
        assert ab[i] == b[i - |a|];
      }
    }
  }
}
