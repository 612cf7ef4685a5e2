# semantic-segmentation, modelled in Dafny

This project models the repository's own logic around an external PyTorch model zoo. It has five parts:

- **Label remap** (`LabelRemap`, `MetricDataset`). `CustomMetricSegmentation` turns raw Cityscapes label ids (−1..33) into training indices (−1..18). It uses the 35-entry `_key` table and the consecutive `_mapping` that `np.digitize` searches.
- **Accuracy log** (`Accuracy`, `AccuracyExamples`). `calculate_accuracy.py` finds `pixAcc: <digits/dots>` and `mIoU: <digits/dots>` in each line of a log. It sums the values over the non-blank lines and divides by the number of all lines. A non-blank line without both values stops the script with exit status 1.
- **Dataset adapters and registry** (`DirectoryDataset`, `SingleImageDataset`, `DatasetRegistry`). These are the folder dataset, the single-image dataset, and the case-insensitive `get_segmentation_dataset` lookup.
- **Frames and videos** (`TestFrames`, `Segmentation`, `FrameTimes`).
  - `get_file_name`, and the name ordering and `.png` selection of `frames_to_vid` / `frames_to_vid2`.
  - The frames directory name and the sampling loop of `convert_vid`.
  - `get_frame`, `validate_img` / `validate_dir`, and the dispatch of `process_images`.
  - The names `convert_vid` writes, read back through the time key of `test_frames.py`.
- **Training launcher** (`Train`). This is the command string `train` hands to `os.system`, its GPU branch, and the paired `chdir` in and out of `awesome-semantic-segmentation-pytorch/scripts`. It is a `Shell` class whose working directory and issued commands change in place.

**Shared modules.**
- `Wrappers` holds Option/Result, the shapes used for `None` and for raised exceptions.
- `Errors` holds the Python exceptions and `sys.exit` as values.
- `Text` holds `str()` of integers, `split`, `find`/`rfind` and ASCII `lower`.
- `Paths` holds posixpath `join`, `basename` and `splitext`.
- `Floats` holds `float()` on digit/dot text, with an optional sign, as exact reals.
- `Sorting` holds `sorted` as the unique ordered permutation, and Python's string order.

**How effects are modelled.** Images, videos, directory listings and file contents are parameters ("oracles"):
- `isImage` and `listDir`;
- `hasFrame` (is there a frame at this time, in hundredths of a second);
- `read`, `openImage` and `openMask`;
- `readFile`.

Exceptions and exits are `Err` values.

**Where the documentation and the code disagree, the model follows the code:**
- Frames are ordered by plain string comparison, not by their time.
- The average divides by the number of all lines, blank ones included.
- The evaluation logs write `PixAcc:`, but the parser searches for `pixAcc:`. So those lines yield no record (`AccuracyExamples.CapitalisedLabel`).

Source paths in the table are relative to the repository root.

## Model

| member | source | states |
|---|---|---|
| LabelRemap.MappingIsConsecutive | awesome-semantic-segmentation-pytorch/core/data/dataloader/custom_metric.py:45-51 | `_key` and `_mapping` both have 35 entries; `_mapping[i]` is `i - 1`, so it is strictly increasing over −1..33 |
| LabelRemap.DomainIsRange | awesome-semantic-segmentation-pytorch/core/data/dataloader/custom_metric.py:51-56 | a value passes the `value in self._mapping` assertion exactly when it lies in −1..33 |
| LabelRemap.Range | awesome-semantic-segmentation-pytorch/core/data/dataloader/custom_metric.py:51 | `range(lo, hi)`: empty when `hi <= lo`, otherwise `hi - lo` consecutive integers from `lo` |
| LabelRemap.Unique | awesome-semantic-segmentation-pytorch/core/data/dataloader/custom_metric.py:54 | `np.unique(mask)` holds exactly the values that occur in the mask |
| LabelRemap.Digitize | awesome-semantic-segmentation-pytorch/core/data/dataloader/custom_metric.py:57 | `np.digitize(x, bins, right=True)`: every bin before the result is below `x`, and the bin at the result (if any) is at least `x` |
| LabelRemap.DigitizeConsecutive | awesome-semantic-segmentation-pytorch/core/data/dataloader/custom_metric.py:51-57 | on the consecutive `_mapping`, an accepted value `v` lands in bin `v + 1` |
| LabelRemap.RemapIsKey | awesome-semantic-segmentation-pytorch/core/data/dataloader/custom_metric.py:57-58 | the remapped value of an accepted `v` is `_key[v + 1]` |
| LabelRemap.ClassToIndex | awesome-semantic-segmentation-pytorch/core/data/dataloader/custom_metric.py:53-58 | all or nothing: it succeeds iff every mask value is in −1..33, and otherwise fails with `AssertionError` and no output; on success the output has the mask's length and position `i` is `_key[mask[i] + 1]` |
| LabelRemap.RemapAll | awesome-semantic-segmentation-pytorch/core/data/dataloader/custom_metric.py:57-58 | on an accepted mask the lookup never fails, keeps the length, and maps position by position with nothing reordered |
| LabelRemap.MaskTransform | awesome-semantic-segmentation-pytorch/core/data/dataloader/custom_metric.py:71-73 | every value of a remapped mask lies in −1..`NUM_CLASS - 1` |
| LabelRemap.KeyRange | awesome-semantic-segmentation-pytorch/core/data/dataloader/custom_metric.py:37-50 | every `_key` entry lies in −1..18, consistent with `NUM_CLASS = 19` |
| LabelRemap.KeyAtValidClass | awesome-semantic-segmentation-pytorch/core/data/dataloader/custom_metric.py:43-50 | `_key[valid_classes[i] + 1] == i` for every valid class |
| LabelRemap.ValidClassesMapToIndex | awesome-semantic-segmentation-pytorch/core/data/dataloader/custom_metric.py:37-50 | there are `NUM_CLASS` valid classes, and `valid_classes[i]` remaps to `i` |
| LabelRemap.RemapInjectiveOnValid | awesome-semantic-segmentation-pytorch/core/data/dataloader/custom_metric.py:43-50 | two valid classes with the same remapped value are the same class |
| LabelRemap.KeyEntry | awesome-semantic-segmentation-pytorch/core/data/dataloader/custom_metric.py:43-50 | a `_key` entry other than −1 belongs to a valid class |
| LabelRemap.OtherClassesIgnored | awesome-semantic-segmentation-pytorch/core/data/dataloader/custom_metric.py:43-50 | every accepted value that is not a valid class remaps to −1 |
| LabelRemap.ClassToIndexConcat | awesome-semantic-segmentation-pytorch/core/data/dataloader/custom_metric.py:54-58 | remapping two masks laid end to end succeeds iff both succeed, and gives the two results laid end to end |
| LabelRemap.ConcatAccepted | awesome-semantic-segmentation-pytorch/core/data/dataloader/custom_metric.py:54-56 | the assertion accepts a joined mask iff it accepts both parts |
| LabelRemap.ConcatValue | awesome-semantic-segmentation-pytorch/core/data/dataloader/custom_metric.py:57-58 | the remap of a joined mask is the two remaps joined |
| MetricDataset.New | awesome-semantic-segmentation-pytorch/core/data/dataloader/custom_metric.py:39-42 | construction succeeds iff both `input_pic` and `input_gt` are given, failing with `AssertionError` otherwise; the paths and the mode are kept |
| MetricDataset.GetItem | awesome-semantic-segmentation-pytorch/core/data/dataloader/custom_metric.py:60-73 | an unreadable image or mask is an I/O error; it succeeds iff both open, the mode is `testval` and every mask value is in −1..33; the result is the image and the position-wise remapped mask, all in −1..18 |
| MetricDataset.OneItem | awesome-semantic-segmentation-pytorch/core/data/dataloader/custom_metric.py:60-76 | the length is 1, and every index gives the same item |
| DirectoryDataset.New | awesome-semantic-segmentation-pytorch/core/data/dataloader/custom_dataset.py:39-43 | construction succeeds iff the folder is given and lists at least one entry; an empty listing fails with `AssertionError`; `images[i]` is `join(folder, listing[i])`, one per entry, in listing order |
| DirectoryDataset.Position | awesome-semantic-segmentation-pytorch/core/data/dataloader/custom_dataset.py:55 | Python list indexing: valid iff `-n <= index < n`, and a negative index counts from the end |
| DirectoryDataset.GetItem | awesome-semantic-segmentation-pytorch/core/data/dataloader/custom_dataset.py:54-62 | `IndexError` exactly outside `-len..len-1`; inside, an image that does not open is an I/O error on its path, and one that opens under a mode other than `testval` is `AssertionError`; it succeeds iff the index is in range, the image opens and the mode is `testval`, returning that image and its path's basename |
| DirectoryDataset.GetItemNamesListing | awesome-semantic-segmentation-pytorch/core/data/dataloader/custom_dataset.py:42-65 | join/basename round trip: the length is the listing's; item `i` succeeds iff `i` is in range, the joined file opens and the mode is `testval`, and it then carries the `i`-th listed name |
| SingleImageDataset.New | awesome-semantic-segmentation-pytorch/core/data/dataloader/custom.py:38-41 | construction succeeds iff `input_pic` is given (otherwise `AssertionError`); the path and the mode are kept |
| SingleImageDataset.GetItem | awesome-semantic-segmentation-pytorch/core/data/dataloader/custom.py:52-60 | it succeeds iff the image opens and the mode is `testval`, and it returns the image alone |
| SingleImageDataset.OneItem | awesome-semantic-segmentation-pytorch/core/data/dataloader/custom.py:52-63 | the length is 1, and every index loads the same `input_pic` |
| DatasetRegistry.Lookup | awesome-semantic-segmentation-pytorch/core/data/dataloader/__init__.py:29 | it succeeds iff the lowercased name is registered, giving that entry; otherwise `KeyError` of the lowercased name |
| DatasetRegistry.GetSegmentationDataset | awesome-semantic-segmentation-pytorch/core/data/dataloader/__init__.py:20-29 | an unknown name is a `KeyError`; the three custom names build their own dataset from the keyword arguments unchanged; other classes receive the keyword arguments unchanged |
| DatasetRegistry.RegistryShape | awesome-semantic-segmentation-pytorch/core/data/dataloader/__init__.py:14-24 | nine names, all lowercase, and each bound to a different class |
| DatasetRegistry.RegistrySize | awesome-semantic-segmentation-pytorch/core/data/dataloader/__init__.py:14-24 | the registry holds exactly nine names |
| DatasetRegistry.RegistryLowerCase | awesome-semantic-segmentation-pytorch/core/data/dataloader/__init__.py:14-24 | every registered name is lowercase |
| DatasetRegistry.RegistryInjective | awesome-semantic-segmentation-pytorch/core/data/dataloader/__init__.py:14-24 | no class is registered under two names |
| DatasetRegistry.NamesDistinct | awesome-semantic-segmentation-pytorch/core/data/dataloader/__init__.py:15-23 | the nine keys of the dictionary literal are pairwise different |
| DatasetRegistry.LookupIgnoresCase | awesome-semantic-segmentation-pytorch/core/data/dataloader/__init__.py:29 | two names that lowercase alike look up the same result |
| DatasetRegistry.EveryCasingResolves | awesome-semantic-segmentation-pytorch/core/data/dataloader/__init__.py:29 | every casing of a registered name resolves to that name's class |
| DatasetRegistry.RegisteredNamesResolve | awesome-semantic-segmentation-pytorch/core/data/dataloader/__init__.py:14-29 | every registered name resolves to its own class |
| Text.LowerIsLower | awesome-semantic-segmentation-pytorch/core/data/dataloader/__init__.py:29 | `lower()` leaves no upper-case letter |
| Text.LowerFixesLower | awesome-semantic-segmentation-pytorch/core/data/dataloader/__init__.py:29 | `lower()` leaves a lowercase name unchanged |
| Accuracy.RunLength | calculate_accuracy.py:68-72 | the greedy `[\d.]+` run: every character in it is a digit or dot, and the next character is not |
| Accuracy.RunLengthIs | calculate_accuracy.py:68-72 | a maximal digit/dot stretch of length `k` is exactly the run the pattern takes |
| Accuracy.SearchFrom | calculate_accuracy.py:68-72 | `re.search` finds the leftmost match: the position returned matches, and no earlier position does; no result means no position matches |
| Accuracy.SearchFinds | calculate_accuracy.py:68-72 | a match with no earlier occurrence of the label's first character is the one found |
| Accuracy.SearchMisses | calculate_accuracy.py:68-72 | a line without the label's first character has no match |
| Accuracy.RunAfterShape | calculate_accuracy.py:68-72 | the number a match carries is non-empty and made of digits and dots only |
| Accuracy.NumberText | calculate_accuracy.py:68-75 | the text after the label is present iff the pattern matches, and is then the run of the leftmost match |
| Accuracy.GroupLastPart | calculate_accuracy.py:71-75 | `group(0).split(' ')[-1]` is exactly the number of the match |
| Accuracy.LastPartIsNumber | calculate_accuracy.py:71-75 | a label ending in a space followed by digits and dots splits so that its last piece is the digits and dots |
| Accuracy.Metric | calculate_accuracy.py:68-75 | a value is missing (with no error) exactly when the pattern does not match |
| Accuracy.GetMiouPixaccSpec | calculate_accuracy.py:68-78 | a record `(mIoU, pixAcc)` in that order comes back iff both patterns match and both numbers parse to nonzero values, holding those values; it is a `ValueError` iff a matched number is not a decimal |
| Accuracy.NumberAfter | calculate_accuracy.py:68-72 | `prefix + label + number + rest` reads that number, when the label's first character is not in the prefix and `rest` does not continue the number |
| Accuracy.Pieces | calculate_accuracy.py:68-72 | in `prefix + label + number + rest`, the label sits at `|prefix|` and the number right after it |
| Accuracy.GetFileContent | calculate_accuracy.py:47-49 | `split('\n')` gives at least one line, the lines hold no newline, and joined with `'\n'` they give the content back |
| Accuracy.Steps | calculate_accuracy.py:22-29 | one step per line: a blank line adds `(0, 0)`, a record adds its values, and a missing record is `Exit(1)` |
| Accuracy.SumLines | calculate_accuracy.py:20-29 | the accumulating loop, with its early exit, returns the sums of the line steps, or the first step's error |
| Accuracy.SumsStep | calculate_accuracy.py:28-29 | one more successful line adds its values to both sums |
| Accuracy.SumsStop | calculate_accuracy.py:24-27 | the first failing line's error is the loop's result |
| Accuracy.SumsSnoc | calculate_accuracy.py:22-29 | the sums of a list with one more step, stated through the sums of the shorter list |
| Accuracy.ErrorSticks | calculate_accuracy.py:24-27 | once the run has failed, later lines do not change the result |
| Accuracy.SumsOkIff | calculate_accuracy.py:22-29 | the sums succeed iff every step succeeds |
| Accuracy.TotalsOkIff | calculate_accuracy.py:22-29 | the totals succeed iff every line is blank or yields a record |
| Accuracy.FirstFailureWins | calculate_accuracy.py:24-27 | the error of the first failing line is the error of the whole file; no partial sum comes back |
| Accuracy.SumsAppend | calculate_accuracy.py:22-29 | the sums over two pieces combine: the first error wins, otherwise the sums add |
| Accuracy.TotalsAppend | calculate_accuracy.py:22-29 | the totals over two line lists combine in the same way |
| Accuracy.StepsAppend | calculate_accuracy.py:22-29 | each line is handled independently of its neighbours |
| Accuracy.Average | calculate_accuracy.py:30 | it succeeds iff the totals do (an error passes through unchanged), and the averages times the number of all lines give the totals |
| Accuracy.DivMul | calculate_accuracy.py:30 | dividing by the positive line count and multiplying back gives the total |
| Accuracy.BlankLineAddsNothing | calculate_accuracy.py:23 | a blank line leaves the totals unchanged |
| Accuracy.BlankFile | calculate_accuracy.py:22-29 | a file of one blank line totals `(0, 0)` |
| Accuracy.TrailingNewline | calculate_accuracy.py:30-49 | a trailing newline adds one blank line: the totals stay, and the line count grows by one |
| Accuracy.EmptyFile | calculate_accuracy.py:30-49 | an empty file averages to `(0.0, 0.0)`, with no division by zero |
| Accuracy.CalculateAverageAccuracy | calculate_accuracy.py:4-30 | the result is the average over the `'\n'`-split content with the line parser |
| Accuracy.CommandLine | calculate_accuracy.py:80-87 | a wrong argument count exits with status 1; an unreadable file is an I/O error; otherwise the result is the file's average |
| AccuracyExamples.LeadingMetric | calculate_accuracy.py:68-72 | a line that starts with a label reads the number right after it |
| AccuracyExamples.TwoMetrics | calculate_accuracy.py:68-72 | two labelled numbers on one line are each read for their own label |
| AccuracyExamples.RecordOf | calculate_accuracy.py:76-78 | two nonzero parsed values give the record `(mIoU, pixAcc)` |
| AccuracyExamples.GoodLine | calculate_accuracy.py:68-78 | `pixAcc: 91.5, mIoU: 72.25` gives `(72.25, 91.5)`, with mIoU first |
| AccuracyExamples.CapitalisedLabel | calculate_accuracy.py:68 | matching is case-sensitive: a line with `PixAcc: ...` yields no record |
| AccuracyExamples.ZeroIsMissing | calculate_accuracy.py:76-77 | a value that parses to 0 counts as missing |
| AccuracyExamples.MalformedNumber | calculate_accuracy.py:71 | `pixAcc: 1.2.3` is a `ValueError`, not a missing value |
| AccuracyExamples.FirstOccurrence | calculate_accuracy.py:68 | a repeated label is read at its first occurrence |
| AccuracyExamples.FirstLine | calculate_accuracy.py:68-78 | `mIoU: 50.0 pixAcc: 80.0` gives `(50.0, 80.0)` |
| AccuracyExamples.ThirdLine | calculate_accuracy.py:68-78 | `mIoU: 60.0 pixAcc: 90.0` gives `(60.0, 90.0)` |
| AccuracyExamples.StepsAroundBlank | calculate_accuracy.py:22-29 | a blank line between two records is a `(0, 0)` step |
| AccuracyExamples.ThreeSteps | calculate_accuracy.py:22-29 | the steps of the two records around a blank line |
| AccuracyExamples.ThreeSums | calculate_accuracy.py:28-29 | those steps sum to `(110, 170)` |
| AccuracyExamples.BlankLineInDenominator | calculate_accuracy.py:22-30 | two records around a blank line average to `(110/3, 170/3)`: the blank line is counted |
| Floats.ParseFloat | calculate_accuracy.py:71-75 | on digit/dot text, `float()` succeeds iff the text is a decimal (at most one dot and at least one digit), raises `ValueError` of the text otherwise, and gives a value of at least 0 |
| Floats.ParseWhole | calculate_accuracy.py:71-75 | `float(a)` of a run of digits is the number those digits spell |
| Floats.ParseFraction | calculate_accuracy.py:71-75 | `float(a + '.' + b)` of digit runs `a` and `b` (not both empty) is `a + b / 10^len(b)`, exactly |
| Floats.ParseDotted | calculate_accuracy.py:71-75 | a text with one dot at `m` and digits around it reads as its whole part plus its fraction |
| Floats.DottedScan | calculate_accuracy.py:71-75 | the scan of such a text ends with the numerator of all its digits over 10 to the number of digits after the dot |
| Floats.ParseSigned | test_frames.py:23 | `float()` on a decimal behind an optional sign: it succeeds iff the text is a decimal or a sign followed by one; `-` negates the value of the rest, `+` keeps it, and anything else is `ValueError` of the text |
| Floats.Decimal | calculate_accuracy.py:71-75 | the scan rejects only with `ValueError` of the whole text, and accepts with a positive denominator |
| Floats.DecimalOkIff | calculate_accuracy.py:71-75 | the digit-by-digit scan succeeds iff the rest of the text keeps to one dot and some digit |
| Text.JoinSplit | calculate_accuracy.py:49 | `'\n'.join(s.split('\n')) == s` |
| Text.SplitNoSep | calculate_accuracy.py:49 | no piece of a split holds the separator |
| Text.SplitAppendPart | calculate_accuracy.py:49 | splitting `s + sep + w`, with no separator in `w`, gives the pieces of `s` and then `w` |
| Text.SplitAppendSep | calculate_accuracy.py:49 | a trailing separator adds one empty piece |
| Text.SplitLast | calculate_accuracy.py:71-75 | the last piece of a split is what follows the last separator |
| Text.SplitFirst | semantic_segmentation.py:92 | the first piece of a split is what precedes the first separator, or the whole text |
| TestFrames.GetFileName | test_frames.py:53-68 | the result holds no `/`, is a prefix of the basename, and is the whole basename or stops right before a dot |
| TestFrames.FileNameOfStem | test_frames.py:68 | a basename `stem + ext`, with a stem that is not all dots and an extension of one dot, gives the stem |
| TestFrames.FileNameInDir | test_frames.py:68 | for `dir/stem.ext` the directories and the extension are dropped |
| TestFrames.FileNameExample | test_frames.py:68 | `dir/image12.png` gives `image12` |
| TestFrames.DotFileName | test_frames.py:68 | a leading dot is not an extension: a dot file keeps its whole name |
| TestFrames.DotFileExample | test_frames.py:68 | `dir/.bashrc` gives `.bashrc` |
| TestFrames.HiddenStemExample | test_frames.py:68 | leading dots stay with the stem: `dir/.a.b` gives `.a` and `dir/..a.b` gives `..a` |
| TestFrames.ReadFrames | test_frames.py:25-30 | the reading loop fails iff some frame cannot be read; otherwise it reads every frame in order, and the size is that of the last frame (unset when there is none) |
| TestFrames.WriteFrames | test_frames.py:32-33 | the writing loop appends every frame, in order, to the video |
| TestFrames.Assemble | test_frames.py:25-34 | it succeeds iff there is a name and every frame reads; no names is `UnboundLocalError`; an unreadable frame is `AttributeError`; the video holds every frame once, in the given order, sized by the last |
| TestFrames.FramesToVid | test_frames.py:5-34 | the listing is ordered by plain `sorted`, then assembled as above into an `mp4v` video at the given rate |
| TestFrames.SortTwo | test_frames.py:24 | two names are sorted by their first differing character |
| TestFrames.HalfSecondSortsFirst | test_frames.py:22-24 | as written, `image0.5.jpg` is sorted before `image0.jpg` |
| TestFrames.TenSecondsSortsBeforeTwo | test_frames.py:22-24 | as written, `image10.0.jpg` is sorted before `image2.0.jpg` |
| TestFrames.AfterPrefix | test_frames.py:23 | `stem[5:]`: what follows the first five characters, or nothing |
| TestFrames.FrameKey | test_frames.py:23 | the commented key `float(get_file_name(x)[5:])` succeeds iff that text is a decimal with an optional sign, is negative only behind `-`, and is otherwise that text's `ValueError` |
| TestFrames.KeyOfFrame | test_frames.py:23 | `image<num>.jpg` has the key `float(num)` |
| TestFrames.TimeIsTotalOrder | test_frames.py:23-24 | ordering names by key, then by name, is a total order |
| TestFrames.FirstKeyError | test_frames.py:23-24 | there is no error iff every name has a key; an error reported is the key error of some name |
| TestFrames.TimeOrder | test_frames.py:23-24 | the key-sorted listing fails iff some name has no key; on success it is a permutation of the listing with nondecreasing keys |
| TestFrames.KeysSurvive | test_frames.py:23-24 | a permutation of names that all have keys still has keys everywhere |
| TestFrames.TimeSortedKeys | test_frames.py:23-24 | a list sorted by the time order has nondecreasing keys |
| TestFrames.TimeSortTwo | test_frames.py:23-24 | two names with increasing keys come out in key order |
| TestFrames.TimeSortedTwo | test_frames.py:23-24 | the time order puts the earlier frame first |
| TestFrames.TimeOrderHalfSecond | test_frames.py:23-24 | by time, `image0.jpg` comes before `image0.5.jpg` |
| TestFrames.TimeOrderTenSeconds | test_frames.py:23-24 | by time, `image2.0.jpg` comes before `image10.0.jpg` |
| TestFrames.FramesToVidInTimeOrder | test_frames.py:5-34 | the run of `frames_to_vid` with the frames ordered by their time key: a name without a key is that key's error; no frames is `UnboundLocalError`, an unreadable frame `AttributeError`; a success is an `mp4v` video at `dest` and the given rate whose frames are the reads of the ordered names and whose size is the last frame's. Names with equal keys are ordered by name, where `sorted` would keep their listing order |
| TestFrames.PngNames | test_frames.py:40 | the selection keeps every `.png` name, as often as it is listed, and nothing else |
| TestFrames.PngNamesSelect | test_frames.py:40-41 | a name is among the sorted selection iff it is listed and ends in `.png` |
| TestFrames.WriteEach | test_frames.py:47-48 | a writer that refuses an empty frame stops with `cv2.error`, so the loop succeeds iff every frame reads; one that skips it always succeeds; either way a success writes exactly the frames that read, in order, and changes nothing else |
| TestFrames.Readings | test_frames.py:47-48 | the frames that read, in order: at most one per name, and one per name exactly when every name reads, each the read of its name |
| TestFrames.FramesToVid2 | test_frames.py:36-51 | no `.png` is an `IndexError`; an unreadable first frame is `AttributeError`; otherwise it fails only with `cv2.error`, exactly when the writer refuses empty frames and some frame does not read; a success is an uncompressed 20 fps `video-seg.avi` sized by the first sorted frame, holding the `.png` frames that read, in sorted order |
| Sorting.Insert | test_frames.py:24 | inserting into a sorted list keeps it sorted and adds exactly that element |
| Sorting.Sort | test_frames.py:24 | `sorted` returns a sorted permutation of its input |
| Sorting.SortedUnique | test_frames.py:24 | two sorted permutations of the same elements are equal, so `sorted`'s result is fully determined |
| Sorting.SortIsTheSortedPermutation | test_frames.py:24 | any sorted permutation of the input is the result of `sorted` |
| Sorting.SortPair | test_frames.py:24 | two elements given out of order come back in order |
| Sorting.LexLeAt | test_frames.py:24 | strings equal up to index `k` are ordered by their characters at `k`, strictly |
| Sorting.LexIsTotalOrder | test_frames.py:24 | Python's string comparison is a total order |
| Sorting.LexSort | test_frames.py:24-41 | `sorted` on names is a permutation ordered by string comparison |
| Paths.JoinShape | test_frames.py:26 | `join(a, b)` is `b` when `b` is absolute, and otherwise ends with `b` after exactly one `/` (when `a` is not empty) |
| Paths.Basename | awesome-semantic-segmentation-pytorch/core/data/dataloader/custom_dataset.py:62 | the basename holds no `/` and is a suffix of the path |
| Paths.BasenameOfName | awesome-semantic-segmentation-pytorch/core/data/dataloader/custom_dataset.py:62 | a name without `/` is its own basename |
| Paths.JoinBasename | awesome-semantic-segmentation-pytorch/core/data/dataloader/custom_dataset.py:42-62 | `basename(join(folder, name)) == name` for a name without `/` |
| Paths.BasenameInDir | test_frames.py:68 | `basename(dir + "/" + name) == name` for a name without `/` |
| Paths.SplitExt | test_frames.py:68 | `splitext` cuts the path into a root and an extension that is empty or starts with a dot |
| Segmentation.StemOf | semantic_segmentation.py:92 | `split('.')[0]`: the prefix before the first dot, holding no dot |
| Segmentation.VideoStem | semantic_segmentation.py:92 | the stem of the last `/`-segment, holding neither `/` nor `.` |
| Segmentation.StemChars | semantic_segmentation.py:92 | the stem holds neither `/` nor `.` |
| Segmentation.AfterLastSlash | semantic_segmentation.py:92 | `split('/')[-1]` holds no `/` |
| Segmentation.StemAfterSlash | semantic_segmentation.py:92 | for `d/name` only `name` matters |
| Segmentation.StemBeforeDot | semantic_segmentation.py:92 | for `d/name` the stem is `name` up to its first dot |
| Segmentation.FramesDirName | semantic_segmentation.py:92 | the frames directory is `./` + the video stem + `-frames` |
| Segmentation.FramesDirExample | semantic_segmentation.py:92 | `d/a.b.mp4` gives `./a-frames` |
| Segmentation.DottedStem | semantic_segmentation.py:92 | the stem of `d/a.b.mp4` is `a` |
| Segmentation.HiddenVideoExample | semantic_segmentation.py:92 | `d/.mp4` gives `./-frames` |
| Segmentation.HiddenStem | semantic_segmentation.py:92 | the stem of `d/.mp4` is empty |
| Segmentation.Round2 | semantic_segmentation.py:99 | `round(x, 2)` in hundredths: the nearest whole number of hundredths |
| Segmentation.RoundShift | semantic_segmentation.py:99 | rounding commutes with adding a whole number of hundredths |
| Segmentation.NextProbeTime | semantic_segmentation.py:96-99 | after `k` steps, `round(sec + frame_rate, 2)` is probe time `(k + 1)` times the rounded rate |
| Segmentation.HundredthsText | semantic_segmentation.py:127 | `str()` of a non-negative time in hundredths has a whole part, a dot and a fraction |
| Segmentation.FractionText | semantic_segmentation.py:127 | the fraction is one digit when the hundredths are a multiple of 10, else two |
| Segmentation.HundredthsPoint | semantic_segmentation.py:127 | the dot sits right after the whole seconds' digits |
| Segmentation.FloatText | semantic_segmentation.py:127 | `str()` of a time in whole hundredths starts with `-` iff the time is negative |
| Segmentation.SecText | semantic_segmentation.py:99-127 | `str(sec)` of a time reached by a step starts with `-` iff the time is negative or is a zero reached with a negative rate, which `round` keeps as `-0.0` |
| Segmentation.ProbeText | semantic_segmentation.py:96-127 | the first probe is named with the integer `0`, later probes with the float text of their time |
| Segmentation.GetFrame | semantic_segmentation.py:124-128 | the flag returned is whether a frame exists at that time, and a file is written iff it is true |
| Segmentation.ConvertVid | semantic_segmentation.py:92-101 | as written, for a rate of any sign, on a video where some probe finds no frame: the directory is named from the video and created iff missing, and the loop probes `0, step, 2·step, ...` for the rounded step, writing frame `k` for every probe up to the first miss and nothing else |
| Segmentation.ConvertVidChecked | semantic_segmentation.py:96-101 | corrected: a rate that rounds to 0 or less is refused; any other rate ends on every video with a last frame, with the conversion stated above |
| Segmentation.ProbeStep | semantic_segmentation.py:98-100 | a successful probe extends the written frames with that probe's file |
| Segmentation.ZeroRateNeverStops | semantic_segmentation.py:96-100 | as written, with a rate that rounds to 0 and a frame at 0, every probe finds a frame and is named again `0.0` for a rate of 0 or above and `-0.0` for a negative rate, so the loop never ends |
| Segmentation.ValidateImg | semantic_segmentation.py:130-150 | it succeeds iff the file opens as an image, returning it; otherwise the script exits with status 1 |
| Segmentation.ValidateDir | semantic_segmentation.py:152-171 | it returns the listing, or `None` for a directory that cannot be listed, without exiting |
| Segmentation.ValidateEntries | semantic_segmentation.py:62-63 | the check loop passes iff every entry is an image, and otherwise exits with status 1 |
| Segmentation.ImagePart | semantic_segmentation.py:56-59 | with an image path, either the image is dispatched or the run exits with 1 |
| Segmentation.DirPart | semantic_segmentation.py:60-65 | with a directory path, an unlistable directory is a `TypeError`; an entry that is not an image exits with 1 before anything is dispatched; otherwise the listing is dispatched |
| Segmentation.VideoPart | semantic_segmentation.py:66-71 | with a video path the conversion runs as written; a rate of exactly 0 then raises `ZeroDivisionError` at `1 / frame_rate`, and any other rate goes on to dispatch the frames directory's listing |
| Segmentation.ProcessImages | semantic_segmentation.py:35-71 | the image, directory and video branches run in that order; the first failure ends the run, and the calls already made are kept; the video branch ends as `VideoPart` states |
| Segmentation.ImageThenDir | semantic_segmentation.py:56-65 | the image branch, then the directory branch unless the image branch failed |
| Segmentation.OneFlagOneBranch | semantic_segmentation.py:56-71 | when the parser accepts exactly one of `--img`/`--dir`/`--vid`, only that branch does anything |
| Train.Parameters | train.py:4-29 | the parameter string starts with ` --model ` |
| Train.ParameterWords | train.py:4-29 | the parameters split into the words `--model M --backbone B --dataset citys --lr LR --epochs E`, so the dataset is always `citys` |
| Train.Command | train.py:30-33 | more than one GPU gives the distributed launcher followed by the parameters; otherwise (0 and negative counts included) it is `python train.py` + the parameters |
| Train.IntTextNoSpace | train.py:29-31 | `str()` of an integer never holds a space |
| Train.LauncherWords | train.py:31-33 | the command head splits into `python -m torch.distributed.launch --nproc_per_node=N train.py`, or into `python train.py` |
| Train.CommandWords | train.py:29-33 | the whole command splits into the launcher's words followed by the script's arguments |
| Train.ArgumentsInjective | train.py:29 | different inputs give different argument words |
| Train.LauncherInjective | train.py:30-33 | the launcher words give back the GPU branch, and the GPU count when it is above 1 |
| Train.CommandDetermines | train.py:29-33 | for inputs without spaces, the command gives back the model, backbone, loss rate and epochs, and the GPU branch |
| Train.HundredText | train.py:10 | `str(100) == "100"` |
| Train.DefaultCommand | train.py:10-33 | with the defaults the command is `python train.py --model M --backbone B --dataset citys --lr 0.0001 --epochs 100` |
| Train.ScriptsParts | train.py:28-34 | the two paths split into `., awesome-semantic-segmentation-pytorch, scripts` and `.., .., ` |
| Train.WalkDown | train.py:28 | entering the scripts path goes two levels down |
| Train.WalkUp | train.py:34 | `../../` goes back the same two levels |
| Train.RoundTrip | train.py:28-34 | going into the scripts directory and back out ends where it started |
| Train.Shell.constructor | train.py:28-34 | a shell starts in a directory that exists, with no command issued |
| Train.Shell.Chdir | train.py:28-34 | `chdir` succeeds iff the resolved directory exists, moving there; otherwise it is an I/O error and nothing changes |
| Train.Shell.System | train.py:31-33 | `os.system` issues exactly one command, ignoring its status, and keeps the directory |
| Train.Shell.Train | train.py:10-34 | if the scripts directory exists, exactly one command is issued, the one built from the inputs, and the directory ends where it started; otherwise the first `chdir` fails and no command is issued |
| FrameTimes.ProbeNameKey | test_frames.py:23 | the key read from the name of the frame written at probe `k` is that probe's time, `k` times the rounded rate, for rates of either sign |
| FrameTimes.FirstProbeKey | test_frames.py:23 | the first frame, `image0.jpg`, has key 0 |
| FrameTimes.TimeNameKey | test_frames.py:23 | the frame written at `h` hundredths has key `h / 100`, a `-0.0` name included |
| FrameTimes.SignedFrameKey | test_frames.py:23 | the key of `dir/image<num>.jpg` is `float(num)` for a decimal `num` with an optional sign |
| FrameTimes.SecTextValue | semantic_segmentation.py:127 | `float(str(sec))` gives back `sec` for every time the loop reaches, the signed zero included |
| FrameTimes.NegativeZeroValue | semantic_segmentation.py:127 | `float("-0.0")` is zero |
| FrameTimes.FloatTextValue | semantic_segmentation.py:127 | `float(str(sec))` gives back `sec`, for a time in hundredths of either sign |
| FrameTimes.HundredthsValue | semantic_segmentation.py:127 | the text of `n` hundredths reads back as `n / 100` |
| FrameTimes.FractionValue | semantic_segmentation.py:127 | the digits after the point read back as the hundredths |

## Left out

- Image decoding, video capture and writing, and file reading are oracles passed as parameters. This covers PIL `Image.open` / `convert`, `cv2.VideoCapture` / `imread` / `imwrite` / `VideoWriter`, `os.listdir`, `open` / `read`, and `Image.open` inside `validate_img`. Their effects are not modelled beyond what the caller sees.
- `os.mkdir` is recorded only as whether the frames directory was created. The frames written are names; their pixels are left out.
- `os.system` is recorded as the command string issued. Its exit status is ignored by the source too.
- `sys.exit(1)` and argparse's own exits are `Exit(1)` results. The `print` messages are left out.
- Floating point is left out.
  - Accuracies and averages are exact reals, so sums and divisions do not round.
  - Video times are whole hundredths of a second. Whole hundredths carry no signed zero, so the one `-0.0` the loop can reach, a negative rate that rounds to 0, is told apart by the sign of the rate (`Segmentation.SecText`).
- Segmentation.Round2: rounds to the nearest hundredth with ties upward. Python's `round(x, 2)` works on the binary double and rounds ties to even, so they can differ on exact ties.
- Segmentation.HundredthsText: models `str()` only of times with at most two decimals, the only ones the loop produces. Other float formats (`1e-05` and so on) are not modelled.
- Floats.ParseFloat: models `float()` only on text made of digits and dots, which is all the patterns of calculate_accuracy.py can capture.
- TestFrames.FrameKey: accepts a decimal with an optional sign, which covers every name `convert_vid` writes (`FrameTimes.ProbeNameKey`). The other spellings Python's `float` accepts (exponents, surrounding whitespace, `_` between digits, `inf`, `nan`) are `ValueError` in the model.
- Train.Parameters: takes `str(loss_rate)` as text. The repr of a Python float is not modelled, and neither is the `float(args.lr)` / `int(args.epochs)` conversion in `main` (train.py:48-58).
- Python 3 regular expressions let `\d` match every Unicode decimal digit; the model matches ASCII digits only. `str.lower` is modelled on ASCII letters only.
- The registry's non-custom classes (ADE20K, VOC, COCO, Cityscapes, SBU) are opaque: only the class chosen and the keyword arguments handed over are modelled.
- `_img_transform`, the optional `transform`, and the conversion to `torch.LongTensor` are left out. The mask is modelled as a flat sequence, and its shape is kept as its length.
- `cv2.VideoWriter` drops frames whose size differs from the video's. The model records every frame written. `out.release()` and `cv2.destroyAllWindows()` are left out.
- `process_images` computes `frames_per_second = 1 / frame_rate` only for a message. The message is left out; the `ZeroDivisionError` it raises for a rate of exactly 0 is modelled.
- Segmentation.ConvertVid, Segmentation.VideoPart, Segmentation.ProcessImages: take a probe of the video that finds no frame, the condition under which the loop as written ends. On a video where every probe finds a frame (a rate that rounds to 0 with a frame at 0 s) the loop never ends; `Segmentation.ZeroRateNeverStops` states that case.
- TestFrames.WriteEach, TestFrames.FramesToVid2: whether `VideoWriter.write` refuses the empty frame an unreadable file gives is an oracle (`rejectsEmpty`), since it depends on the OpenCV build and backend.
- `main` (semantic_segmentation.py:196-209) is left out, because it calls `read_images`, which the file does not define. Its `-r` handling would also pass `None` as the rate when the option is absent. Argparse internals are left out, except as the one-flag condition of `OneFlagOneBranch`.
- `apply_single_segmentation` and `apply_segmentation_dir` are stubs. They are recorded as calls, with nothing done.
- The module-level run at test_frames.py:70-73 performs I/O on a fixed folder, so it is left out. Its folder constant is kept for `frames_to_vid2`.
- `os.chdir` is modelled on a tree of directory names: a path that starts with `/` is walked from the root, `.` stays, `..` goes up and empty segments are skipped. Symbolic links are not modelled.
- image_diff.py, image_reader.py and the evaluation scripts are not part of this model. The one fact used from the scripts is that their logs write `PixAcc:` with a capital P.

## Findings

| source | as written | input that shows it | evidently intended | confidence | as-written member | corrected member |
|---|---|---|---|---|---|---|
| test_frames.py:22-24 | `frames = sorted(frames)` orders frame files by plain string comparison; the numeric key is only a comment | the frames `convert_vid` writes at 0, 0.5, 2.0 and 10.0 s: `image0.5.jpg` sorts before `image0.jpg`, and `image10.0.jpg` before `image2.0.jpg` | frames ordered by their capture time, `float(get_file_name(x)[5:])` | not executed | TestFrames.HalfSecondSortsFirst, TestFrames.TenSecondsSortsBeforeTwo | TestFrames.FramesToVidInTimeOrder, TestFrames.TimeOrderHalfSecond, TestFrames.TimeOrderTenSeconds |
| semantic_segmentation.py:96-100 | `sec = round(sec + frame_rate, 2)` with no check on the rate | a video with a frame at 0 s and any `frame_rate` that rounds to 0 (`|frame_rate| < 0.005`): every probe is at 0 s and finds a frame, written as `image0.0.jpg` (`image-0.0.jpg` for a negative rate), so the loop never ends | the loop advances, so a rate that rounds to no advance is refused | not executed | Segmentation.ZeroRateNeverStops, Segmentation.ConvertVid | Segmentation.ConvertVidChecked |
