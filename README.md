# deep_abyasa label bookkeeping, in Dafny

This project models the label bookkeeping of `deep_abyasa`, a small helper library for
multi-label image classification. The network, the tensors and the file I/O are not modelled.
What is modelled is the integer and string logic around them:

- **`Utils`** (`deep_abyasa/helpers/utils.py`):
  - building file paths from an explicit file list;
  - `convert_list_to_dict` numbers the sorted items from 0;
  - `reserve_dict` inverts a dict.
- **`EncodeLabels`** (`deep_abyasa/preprocess/encode_labels.py`):
  - the three label extractors: single labels, array-valued cells, and delimited string cells;
  - the dispatch between them and the index-file type check;
  - `generate_itol_ltoi`, which numbers the distinct labels (`itol`: index to label) and inverts that numbering (`ltoi`: label to index);
  - the two entry points, over index tables or a mapping that are already loaded.
- **`Accuracy`** (`deep_abyasa/metrics/accuracy.py`): the `AccuracyMultiLabel` metric, as a class.
  - Its fields are the counters `sum_metric` and `num_inst` and the mismatch dict `pred_status`.
  - `update` and `get_incorrect_preds` are loops over batches and rows that change these fields.
- **`Datasets`** (`deep_abyasa/datasets/cv.py`): `JsonIndexMultiLabelDataset` without the image.
  - Construction chooses a label map.
  - `__getitem__` locates a row, parses the numeric id from its file name, and builds the one-hot code in a zeroed buffer, or passes the label cell through.
  - `__len__` gives the number of rows.
- **`Training`** (`deep_abyasa/helpers/training.py`):
  - the device list `get_ctx`;
  - the stepped learning-rate counter of `train`;
  - the metric calls of the epoch loop: counters reset every epoch, mismatches collected in the final epoch only;
  - `test`;
  - `create_retrain_dataset`, which turns recorded mismatches back into `{file, elements}` records.

Supporting modules:

- `Errors`: `Option`, `Result` and one error variant per failure cause.
- `PyDict`: Python's insertion-ordered `dict`. Overwriting a key keeps its position, and iteration follows insertion order.
- `Strings`:
  - Python's string order and `sorted`;
  - `split` with a separator, and `strip`;
  - `str(int)` and the numeric parse of a file-name stem.
- `Frames`: the columns of a loaded index table, with cells holding a string or a list of strings.

Inputs the code reads from outside are parameters here:

- the index tables, keyed by path;
- the mapping a pickle file holds;
- each epoch's batches, with the network's thresholded outputs as integer matrices.

## Model

| member | source | states |
|---|---|---|
| Utils.JoinPath | deep_abyasa/helpers/utils.py:31 | defines POSIX `os.path.join(root, f)`: an absolute `f` replaces `root`, otherwise a `/` goes between them unless `root` is empty or already ends with one |
| Utils.CreateListOfFilePaths | deep_abyasa/helpers/utils.py:30-31 | one path per file, in file order, each `os.path.join(root, f)`; for a relative name and a root without a trailing slash, exactly `root + "/" + f` |
| Utils.JoinPathParts | deep_abyasa/helpers/utils.py:31 | a joined path ends with the file name, and for a relative name it starts with the root |
| Utils.ConvertListToDict | deep_abyasa/helpers/utils.py:64 | the keys are exactly `0 .. len(items)-1` in insertion order; the values in key order are ascending and are a permutation of `items` |
| Utils.Range | deep_abyasa/helpers/utils.py:64 | the keys `enumerate` produces: `0 .. n-1` in order |
| Utils.ConvertListToDictIsSorted | deep_abyasa/helpers/utils.py:64 | the value at key `i` is the `i`-th element of `sorted(items)`, so values ascend with the keys |
| Utils.ReserveDict | deep_abyasa/helpers/utils.py:78 | `{v: k for k, v in d.items()}` assigns each swapped pair in iteration order, and the result is a well-formed dict; what it holds is stated by the `ReserveDict*` lemmas |
| Utils.ReserveDictKeys | deep_abyasa/helpers/utils.py:78 | the inverted dict's keys are exactly the original values, and each maps back to a key that holds it |
| Utils.ReserveDictWitness | deep_abyasa/helpers/utils.py:78 | any value held by some key becomes a key of the inverse, mapping back to a key holding that value |
| Utils.ReserveDictLastWins | deep_abyasa/helpers/utils.py:78 | when values repeat, the key seen last in iteration order wins |
| Utils.ReserveDictInverts | deep_abyasa/helpers/utils.py:78 | for a dict with distinct values, `reserve_dict(d)[d[k]] == k` for every key |
| Utils.ReserveDictOrder | deep_abyasa/helpers/utils.py:78 | for distinct values, the inverse iterates over the values in the original order |
| Utils.ReserveDictIsInjective | deep_abyasa/helpers/utils.py:78 | an inverted dict never maps two keys to one value |
| Utils.ReserveDictTwice | deep_abyasa/helpers/utils.py:78 | inverting twice gives back a dict with distinct values, iteration order included |
| PyDict.Values | deep_abyasa/preprocess/encode_labels.py:93 | `list(d.values())` has one entry per key, the value of the `i`-th key in insertion order |
| PyDict.GetAll | deep_abyasa/datasets/cv.py:101 | `[d[k] for k in ks]` with every key present: one value per key, in order |
| PyDict.FirstMissing | deep_abyasa/datasets/cv.py:101 | the position where the comprehension's first `KeyError` happens: every key before it is present, the one at it is missing (or it is the end) |
| PyDict.Items | deep_abyasa/helpers/training.py:97 | `d.items()` lists each key once, in insertion order, with its current value |
| PyDict.PutAllKeys | deep_abyasa/metrics/accuracy.py:59 | after a sequence of assignments, a key is present iff it was already present or some assignment wrote it |
| PyDict.PutAllLastWins | deep_abyasa/metrics/accuracy.py:59 | the last assignment to a key decides its value |
| PyDict.PutAllUntouched | deep_abyasa/metrics/accuracy.py:59 | a key that no assignment writes keeps its presence and its value |
| PyDict.PutAllKeepsOrder | deep_abyasa/metrics/accuracy.py:59 | existing keys keep their positions in iteration order |
| PyDict.PutAllFreshOrder | deep_abyasa/helpers/utils.py:78 | assigning pairwise-distinct new keys appends them in order |
| PyDict.PutAllValid | deep_abyasa/metrics/accuracy.py:59 | any sequence of assignments keeps a dict well formed |
| PyDict.PutAllAppend | deep_abyasa/metrics/accuracy.py:50-59 | assigning `a` and then `b` is the same as assigning the concatenation, so the writes of successive batches compose |
| Strings.Sort | deep_abyasa/helpers/utils.py:64 | `sorted` gives an ascending permutation of its input |
| Strings.Insert | deep_abyasa/helpers/utils.py:64 | one insertion step of `sorted`: the result ascends and holds the old elements plus the new one |
| Strings.SortedIsUnique | deep_abyasa/helpers/utils.py:64 | a multiset of strings has exactly one ascending arrangement, so any ascending permutation is `sorted(items)` |
| Strings.LessTrichotomy | deep_abyasa/helpers/utils.py:64 | Python's string order is total: two strings are equal or one is smaller |
| Strings.Split | deep_abyasa/preprocess/encode_labels.py:182 | `text.split(sep)` gives at least one piece, and joining the pieces with `sep` gives back `text`; no piece contains `sep`, and every cut is at the leftmost occurrence (no piece followed by `sep` holds an earlier one) |
| Strings.TrimStart | deep_abyasa/preprocess/encode_labels.py:182 | `lstrip()` removes a whitespace prefix, the result is a suffix of the input, and it does not start with whitespace |
| Strings.TrimEnd | deep_abyasa/preprocess/encode_labels.py:182 | `rstrip()` removes a whitespace suffix, the result is a prefix of the input, and it does not end with whitespace |
| Strings.Strip | deep_abyasa/preprocess/encode_labels.py:182 | a stripped string neither starts nor ends with whitespace |
| Strings.StripIsMiddle | deep_abyasa/preprocess/encode_labels.py:182 | the stripped string is the slice after the leading whitespace, and only whitespace follows it |
| Strings.NatToString | deep_abyasa/helpers/training.py:100 | `str(n)` for `n >= 0` is one or more decimal digits, with no leading zero except for `0` itself |
| Strings.IntToString | deep_abyasa/helpers/training.py:100 | `str(k)` is never empty; the round trip with `ParseInt` is `Strings.ParseIntOfIntToString` |
| Strings.ParseInt | deep_abyasa/datasets/cv.py:99 | the numeric parse gives a value iff the text is one or more digits or a sign followed by one or more digits |
| Strings.ParseIntOfNatToString | deep_abyasa/datasets/cv.py:99 | parsing `str(n)` gives back `n` for every `n >= 0` |
| Strings.ParseIntOfNegative | deep_abyasa/datasets/cv.py:99 | parsing `'-' + str(n)` gives back `-n` |
| Strings.ParseIntOfIntToString | deep_abyasa/helpers/training.py:100 | parsing `str(k)` gives back `k` for every integer |
| Frames.Column | deep_abyasa/preprocess/encode_labels.py:72 | `frame[name]` succeeds iff the column exists, giving one cell per row, and fails with a missing-column error otherwise |
| Frames.ConcatColumn | deep_abyasa/preprocess/encode_labels.py:71-72 | concatenating no tables is an error; otherwise the column is found iff every table has it, and a table without it is a missing-column error; the concatenated column holds exactly the cells of the tables' columns |
| Frames.Stack | deep_abyasa/preprocess/encode_labels.py:71-72 | the tables' columns stacked: found iff every table has the column, a missing-column error otherwise, and then holding exactly their cells |
| EncodeLabels.Unique | deep_abyasa/preprocess/encode_labels.py:167 | the set of a list holds each of its elements once and nothing else |
| EncodeLabels.Flatten | deep_abyasa/preprocess/encode_labels.py:167 | `np.hstack` over a column holds exactly the labels of its cells |
| EncodeLabels.ExtractSingleLabels | deep_abyasa/preprocess/encode_labels.py:152 | succeeds iff every cell is a string, and then lists every distinct cell value exactly once; a list-valued cell cannot be hashed |
| EncodeLabels.ExtractArrayLike | deep_abyasa/preprocess/encode_labels.py:167 | succeeds iff the column is non-empty, and then is duplicate-free with a label in it iff some cell holds that label |
| EncodeLabels.Pieces | deep_abyasa/preprocess/encode_labels.py:182 | one cell's labels are its split pieces, each stripped |
| EncodeLabels.SplitCells | deep_abyasa/preprocess/encode_labels.py:182 | the comprehension succeeds iff the column is empty or the separator is non-empty and every cell is a string; it names the error of the first failing step, and replaces each cell by its stripped pieces |
| EncodeLabels.PiecesAreStripped | deep_abyasa/preprocess/encode_labels.py:182 | no piece starts or ends with whitespace |
| EncodeLabels.SplitCellsLabels | deep_abyasa/preprocess/encode_labels.py:182-183 | the labels of the split cells are the pieces of the original cells |
| EncodeLabels.ExtractDelimited | deep_abyasa/preprocess/encode_labels.py:182-183 | array-like extraction after splitting and stripping every cell: succeeds iff the column is non-empty, the separator is non-empty and every cell is a string; then it lists each stripped piece exactly once |
| EncodeLabels.ExtractContent | deep_abyasa/preprocess/encode_labels.py:152-183 | a successful extraction lists a label iff some cell yields it: a string cell equal to it, a cell holding it, or a string cell with it among its stripped pieces |
| EncodeLabels.DetermineLabelExtractMethod | deep_abyasa/preprocess/encode_labels.py:130-135 | `multi_label` false gives single labels; true with no delimiter gives array-like; true with a delimiter gives delimited extraction with that delimiter |
| EncodeLabels.ExtractIsDistinct | deep_abyasa/preprocess/encode_labels.py:130-135 | whichever extractor is chosen, a successful extraction lists distinct labels |
| EncodeLabels.DetermineReadFileMethod | deep_abyasa/preprocess/encode_labels.py:109-113 | only `'json'` is accepted; any other file type is an unsupported-type error |
| EncodeLabels.VocabularyKey | deep_abyasa/preprocess/encode_labels.py:196-197 | a string is a key of `ltoi` iff it is one of the labels |
| EncodeLabels.SortedVocabularyInjective | deep_abyasa/preprocess/encode_labels.py:196 | for distinct labels, `itol`'s values are all different and strictly ascending |
| EncodeLabels.GenerateItolLtoi | deep_abyasa/preprocess/encode_labels.py:196-198 | `itol` has keys `0 .. n-1` and its values are the sorted labels; `ltoi`'s keys are exactly the labels, and `itol[ltoi[l]] == l` |
| EncodeLabels.GenerateItolLtoiInverse | deep_abyasa/preprocess/encode_labels.py:196-198 | for distinct labels the maps are exact inverses: `ltoi[itol[i]] == i`; `ltoi` has one entry per label, its indices lie in `0 .. n-1`, and `itol` ascends strictly |
| EncodeLabels.GenerateItolLtoiOrder | deep_abyasa/preprocess/encode_labels.py:196-198 | `ltoi` numbers the labels in string order: `l1 < l2` iff `ltoi[l1] < ltoi[l2]` |
| EncodeLabels.ReadAll | deep_abyasa/preprocess/encode_labels.py:71 | reading succeeds iff every path has a table, giving the tables in path order; otherwise it reports the first path that has none, where the comprehension stops |
| EncodeLabels.CollectLabels | deep_abyasa/preprocess/encode_labels.py:68-72 | a non-json type is an error; an empty file list is an error (nothing to concatenate); on success every joined path was read and has the label column, the labels are distinct, and a label is listed iff the chosen extractor yields it from some cell of some listed file's label column |
| EncodeLabels.CollectedContent | deep_abyasa/preprocess/encode_labels.py:68-72 | the labels extracted from the concatenated column are exactly those some cell of some listed file's table yields |
| EncodeLabels.EncodeFromIndexFiles | deep_abyasa/preprocess/encode_labels.py:68-73 | succeeds iff label collection does, passing its error on otherwise; the same file-type and empty-list errors |
| EncodeLabels.EncodeFromIndexFilesVocabulary | deep_abyasa/preprocess/encode_labels.py:68-73 | the encoding numbers exactly the collected labels, once each, as mutually inverse maps over `0 .. n-1` |
| EncodeLabels.EncodeFromIndexFilesOrder | deep_abyasa/preprocess/encode_labels.py:73 | `itol`'s keys are `0 .. n-1` in order and its values are the collected labels sorted, so the numbering follows string order |
| EncodeLabels.EncodeFromPickle | deep_abyasa/preprocess/encode_labels.py:88-95 | a mapping that could not be loaded gives `None`; with `key` the sorted keys are numbered; otherwise `itol`'s values are the sorted distinct values of the mapping |
| EncodeLabels.UniqueValues | deep_abyasa/preprocess/encode_labels.py:93 | `set(elements.values())` holds a string iff some key maps to it |
| EncodeLabels.EncodeFromPickleInverse | deep_abyasa/preprocess/encode_labels.py:90-93 | whichever part is numbered, `itol` and `ltoi` are exact inverses |
| Accuracy.ArgMax | deep_abyasa/metrics/accuracy.py:32 | the position of a largest entry of the row, the first such position |
| Accuracy.PredOf | deep_abyasa/metrics/accuracy.py:31-32 | a prediction row is compared as itself when the shapes agree, and as an argmax otherwise |
| Accuracy.Prepare | deep_abyasa/metrics/accuracy.py:31-33 | one prepared prediction per prediction row, each by the same shape test |
| Accuracy.RowCorrect | deep_abyasa/metrics/accuracy.py:36 | defines `np.all(p == l)` for one row: a vector prediction equals the label row, an argmax scalar equals every position of it (broadcasting) |
| Accuracy.CountCorrect | deep_abyasa/metrics/accuracy.py:35-38 | the count of matching rows is at most the number of rows; it equals that number iff every row matches, and is 0 iff none does |
| Accuracy.BatchCorrect | deep_abyasa/metrics/accuracy.py:35-38 | one batch adds at most as many correct rows as it has prediction rows and label rows |
| Accuracy.TotalCorrect | deep_abyasa/metrics/accuracy.py:30-38 | correct rows over all batches never exceed the prediction rows |
| Accuracy.TotalRowsAppend | deep_abyasa/tests/metrics/test_accuracy.py:17-19 | rows of two batch lists add up, so a repeated `update` adds its row count again |
| Accuracy.TotalCorrectAppend | deep_abyasa/tests/metrics/test_accuracy.py:17-19 | correct rows of two batch lists add up, so a repeated `update` adds the same increment again |
| Accuracy.BatchCorrectExtremes | deep_abyasa/metrics/accuracy.py:36-38 | for equal shapes a batch adds all its rows iff predictions equal labels, and adds none iff every row differs somewhere |
| Accuracy.RowMismatches | deep_abyasa/metrics/accuracy.py:55-59 | one batch's writes, in row order, over the first `n` rows of the three-way `zip`: at most one write per row |
| Accuracy.BatchMismatches | deep_abyasa/metrics/accuracy.py:51-59 | defines one batch's writes: its predictions prepared by the shape test, then the rows of `zip(pred_label, label, name)`, which stops at the shortest |
| Accuracy.Mismatches | deep_abyasa/metrics/accuracy.py:50-59 | defines the writes of the first `n` batch triples, batch after batch |
| Accuracy.Visited | deep_abyasa/metrics/accuracy.py:50 | `zip(labels, preds, names)` visits the first `min(len(labels), len(names))` batches, no more than either list has |
| Accuracy.RowMismatchesMembership | deep_abyasa/metrics/accuracy.py:55-59 | a write `(id, [p, l])` is made iff a visited row with that id has a prediction that differs from its label |
| Accuracy.BatchMismatchesMembership | deep_abyasa/metrics/accuracy.py:50-59 | a batch's writes are those of its mismatching visited rows |
| Accuracy.MismatchesBatches | deep_abyasa/metrics/accuracy.py:50-59 | a write is among all records iff one of the visited batches makes it |
| Accuracy.MismatchesMembership | deep_abyasa/metrics/accuracy.py:50-59 | a write is among all records iff some mismatching row of some visited batch makes it; matching rows write nothing |
| Accuracy.MismatchesStep | deep_abyasa/metrics/accuracy.py:50-59 | applying the writes of batches `0 .. b` is applying those of `0 .. b-1` and then batch `b`'s rows in order: the outer loop's step |
| Accuracy.AccuracyMultiLabel.constructor | deep_abyasa/metrics/accuracy.py:11-17 | a fresh metric has both counters at 0 and an empty `pred_status` |
| Accuracy.AccuracyMultiLabel.Reset | deep_abyasa/helpers/training.py:34 | both counters back to 0, `pred_status` untouched |
| Accuracy.AccuracyMultiLabel.Update | deep_abyasa/metrics/accuracy.py:19-40 | `num_inst` grows by the prediction rows of every batch and `sum_metric` by the fully matching rows; `0 <= sum_metric <= num_inst` is kept; `pred_status` is untouched |
| Accuracy.AccuracyMultiLabel.RecordRows | deep_abyasa/metrics/accuracy.py:55-59 | the inner loop applies, in row order, the writes of the mismatching rows of one batch |
| Accuracy.AccuracyMultiLabel.GetIncorrectPreds | deep_abyasa/metrics/accuracy.py:42-59 | `pred_status` becomes the old dict with every mismatch write applied in batch and row order; the counters are untouched |
| Accuracy.IncorrectPredsEffect | deep_abyasa/metrics/accuracy.py:50-59 | an id is present afterwards iff it was before or a mismatching row carries it; an id no row writes keeps its entry; a write not overridden later decides the entry |
| Accuracy.TestExample | deep_abyasa/tests/metrics/test_accuracy.py:10-29 | the unit test's batches: 2 rows, 1 correct, and the one visited mismatching row recorded under id 1 as `[[0, 1, 0], [0, 1, 1]]` |
| Datasets.ValidateAndSetLabels | deep_abyasa/datasets/cv.py:68-78 | one-hot with a non-empty supplied map uses it unchanged; with the derive flag it gives an `ltoi` whose keys are exactly the labels of the column; one-hot without either is an error; no one-hot gives `None` |
| Datasets.DerivedLabelsAreSorted | deep_abyasa/datasets/cv.py:71-75 | a derived map numbers the column's labels `0 .. n-1` in string order |
| Datasets.Create | deep_abyasa/datasets/cv.py:39-52 | construction succeeds iff label validation does, and then stores the table, the columns, the flags and the chosen map |
| Datasets.Length | deep_abyasa/datasets/cv.py:116 | the length is the number of index rows, and exactly those positions, from either end, can be located |
| Datasets.Locate | deep_abyasa/datasets/cv.py:97 | `iloc[idx]` accepts `-n <= idx < n`, counting negative positions from the end, and is an index error otherwise |
| Datasets.Stem | deep_abyasa/datasets/cv.py:99 | `name[:-4]` drops the last four characters |
| Datasets.ParseId | deep_abyasa/datasets/cv.py:99 | the id is the integer written in the stem, and a parse error otherwise |
| Datasets.ParseIdOfFileName | deep_abyasa/datasets/cv.py:99 | `str(k)` followed by a four-character extension parses back to `k` |
| Datasets.CellItems | deep_abyasa/datasets/cv.py:101 | iterating a list cell gives its elements; iterating a string cell gives its characters |
| Datasets.Lookup | deep_abyasa/datasets/cv.py:101 | `[labels[i] for i in cell]` succeeds iff every label is mapped, giving their indices in order; otherwise the first unknown label is reported |
| Datasets.Position | deep_abyasa/datasets/cv.py:104 | `codes[l]` addresses element `l`, or `l + n` for a negative `l` |
| Datasets.OneHot | deep_abyasa/datasets/cv.py:102-104 | the code has length `n` and only 0/1 entries |
| Datasets.OneHotBit | deep_abyasa/datasets/cv.py:102-104 | position `j` is 1 iff some listed index addresses it |
| Datasets.OneHotIgnoresRepeats | deep_abyasa/datasets/cv.py:103-104 | repeating an index, or reordering them, leaves the code unchanged |
| Datasets.Encode | deep_abyasa/datasets/cv.py:102-104 | the loop over a zeroed buffer gives the one-hot code iff every index is in range, and otherwise fails on the first index out of range |
| Datasets.FirstOutOfRange | deep_abyasa/datasets/cv.py:103-104 | the first listed index outside the vector |
| Datasets.FirstOutOfRangeIsUnique | deep_abyasa/datasets/cv.py:103-104 | only one index can be the first out of range |
| Datasets.Fetch | deep_abyasa/datasets/cv.py:97-106 | defines `__getitem__` without the image: locate the row, parse the id from its file name, then look the labels up and one-hot encode them, or pass the label cell through; its properties are the `Fetch*` lemmas |
| Datasets.GetItem | deep_abyasa/datasets/cv.py:97-106 | fetching a row with the in-place buffer gives exactly the result `Fetch` describes, errors included |
| Datasets.FetchPosition | deep_abyasa/datasets/cv.py:97 | a position past either end fails on that position; a negative position fetches the same row as its non-negative counterpart |
| Datasets.FetchId | deep_abyasa/datasets/cv.py:99 | the id is the number in the row's file name before its four-character extension |
| Datasets.FetchOneHot | deep_abyasa/datasets/cv.py:100-104 | with one-hot on, the code has one position per map entry, and position `j` is 1 iff some label of the row maps to `j`, and 0 otherwise |
| Datasets.FetchMissingLabel | deep_abyasa/datasets/cv.py:101 | with one-hot on, a row label absent from the map is a lookup error |
| Datasets.FetchPassThrough | deep_abyasa/datasets/cv.py:105-106 | with one-hot off, the codes are the row's label cell, unmodified |
| Datasets.SuppliedMapExample | deep_abyasa/tests/datasets/test_cv.py:24-29 | the test's supplied map sends carbon, hydrogen and oxygen to 0, 1 and 2 |
| Datasets.OneHotExample | deep_abyasa/tests/datasets/test_cv.py:39 | those indices give `[1, 1, 1, 0, 0]`, with or without a repeated label |
| Training.GetCtx | deep_abyasa/helpers/training.py:64-65 | `num_gpus` GPU contexts `0 .. num_gpus-1` when positive, otherwise the CPU alone |
| Training.GetCtxDistinct | deep_abyasa/helpers/training.py:64-65 | there is always at least one device and none is listed twice |
| Training.LrStep | deep_abyasa/helpers/training.py:27-29 | the counter advances by one exactly when the epoch equals `lr_steps[lr_counter]`, and stays put otherwise; a counter past the end is an index error |
| Training.LrCounter | deep_abyasa/helpers/training.py:22-29 | after `e` epochs the counter, which is the number of decays, is at most `e` and at most `len(lr_steps)` |
| Training.LrCounterStep | deep_abyasa/helpers/training.py:27-29 | at most one decay per epoch, and a failed schedule stays failed |
| Training.LrCounterFails | deep_abyasa/helpers/training.py:27 | a schedule that fails at some epoch reports that error whatever the number of epochs after it |
| Training.ScheduledDecays | deep_abyasa/helpers/training.py:26-29 | under an ascending schedule closed by infinity the counter never indexes past the end, and it counts the scheduled epochs below the current one |
| Training.DefaultStepsDecays | deep_abyasa/helpers/training.py:18 | the default `[10, 20, 30, inf]` never fails and decays 0, 1, 2 or 3 times as training passes epochs 10, 20 and 30 |
| Training.PassCorrectAtMostRows | deep_abyasa/helpers/training.py:34-50 | over an epoch's batches, correct rows never exceed rows seen |
| Training.PassWritesMembership | deep_abyasa/helpers/training.py:36-52 | a write belongs to an epoch's records iff one of its batches makes it |
| Training.FeedBatch | deep_abyasa/helpers/training.py:50-52 | one batch adds its rows and correct rows to the counters, and applies its mismatch writes only when collecting |
| Training.TrainEpoch | deep_abyasa/helpers/training.py:34-53 | after the reset and the batch loop, the counters are exactly the epoch's rows and correct rows; `pred_status` has the epoch's writes applied when collecting, and is unchanged otherwise |
| Training.Test | deep_abyasa/helpers/training.py:69-78 | the counters are reset and cover exactly the test batches; `pred_status` is untouched |
| Training.RunEpoch | deep_abyasa/helpers/training.py:33-56 | an epoch leaves the test pass's counters, and records the training pass's mismatches only in the final epoch |
| Training.Train | deep_abyasa/helpers/training.py:16-61 | with epochs to run and an empty training loader, the first epoch fails: an index error when the schedule is empty, otherwise the division by `num_batch == 0` of the loss average; a schedule that fails is the index error it meets; both failures leave `pred_status` cleared; otherwise it returns `pred_status`, which holds exactly the final epoch's training writes (empty with no epochs), with the number of decays, and the counters of the final test pass |
| Training.RunEpochs | deep_abyasa/helpers/training.py:26-59 | the epoch loop over a non-empty loader: the schedule's error, or the final epoch's writes with the decay count and the final test counters |
| Training.TrainedStatusKeys | deep_abyasa/helpers/training.py:51-61 | an id has an entry after training iff some batch of the final epoch records a mismatch under it |
| Training.NonZero | deep_abyasa/helpers/training.py:98 | the positions of the nonzero entries, each once, in ascending order |
| Training.Elements | deep_abyasa/helpers/training.py:100 | `[lookup[i] for i in b]` succeeds iff every index is a key, giving their labels in order; otherwise the first missing index is reported |
| Training.RetrainRecord | deep_abyasa/helpers/training.py:98-100 | an entry's record has the file `str(k) + '.png'` and the labels of the nonzero positions of the actual vector |
| Training.RecordOf | deep_abyasa/helpers/training.py:97-100 | the loop body as a function of one `(k, v)` item: it is the entry's record on every item |
| Training.CreateRetrainDataset | deep_abyasa/helpers/training.py:95-101 | the loop gives the records of the entries of `retrain` in iteration order, stopping at the first failing lookup |
| Training.RetrainRecordsContent | deep_abyasa/helpers/training.py:96-101 | exactly one record per entry, in iteration order, each that entry's record; the list exists iff every entry's record does |
| Training.RecordFileRoundTrip | deep_abyasa/helpers/training.py:100 | a record's file name parses back, by the dataset's id rule, to the entry's id |
| Training.OneHotNonZero | deep_abyasa/helpers/training.py:98 | the nonzero positions of a one-hot code over nonnegative indices are exactly those indices |
| Training.VocabularyAscending | deep_abyasa/preprocess/encode_labels.py:196 | an index-to-label map of distinct labels lists them in strictly ascending string order |
| Training.ElementsOfOneHot | deep_abyasa/helpers/training.py:98-100 | looking up a one-hot code's nonzero positions in `itol` gives exactly the labels whose `ltoi` index the code lists |
| Training.ElementsAscending | deep_abyasa/helpers/training.py:98-100 | ascending positions looked up in an ascending `itol` give strictly ascending labels |
| Training.RecordElementsAreRowLabels | deep_abyasa/helpers/training.py:95-101 | for an actual vector that is the one-hot code of an in-range index list, the record lists exactly the labels whose index the list holds, once each and in string order |
| Training.RecordListsRowNames | deep_abyasa/helpers/training.py:95-101 | the round trip with the dataset's encoding: for a row whose label names are all in the vocabulary, looking them up succeeds, and the record built from their one-hot code lists exactly those names, once each and in string order |

## Left out

- The pattern branch of `create_list_of_file_paths` is not modelled: `re` matching over `os.listdir` depends on the filesystem.
- `read_json` and pickle loading are not modelled. The loaded tables, and the mapping a pickle holds, are parameters.
- `EncodeLabels.EncodeFromIndexFiles` covers only the explicit `files` list.
- `EncodeLabels.EncodeFromPickle` returns `None` only when the mapping could not be loaded. The `except Exception` at encode_labels.py:94 also swallows other failures of a loaded object. These are an `AttributeError` when it has no `keys()` or `values()`, a `TypeError` from `set()` over unhashable values, and a `TypeError` from `sorted()` over labels that cannot be compared. The model's mapping is a `Dict<string, string>`, which rules all three out.
- `Frames.ConcatColumn` treats a table without the label column as a missing-column error. pandas would fill that table's rows with NaN.
- Python `set` order is not modelled. The extractors return labels in first-appearance order, and only order-independent facts are stated about them, because every caller sorts.
- `EncodeLabels.DetermineReadFileMethod` models `file_type is 'json'` as equality. An equal string that is not the interned literal would fail the identity test in CPython.
- `Accuracy.AccuracyMultiLabel.GetIncorrectPreds` models `np.all(p == l) is np.bool_(False)` as plain negation, and the id cast `astype('int32')` as the integer id itself.
- The tensor work is not modelled: `split_and_load`, the network, the loss, back-propagation and `trainer.step`. Predictions and labels are integer matrices.
- The `tanh().ceil().abs()` thresholding and the `int32` casts are not modelled, again because the data are integer matrices.
- `Training.Train` tracks the float learning rate as the number of decays.
- `Training.Train` models the division `train_loss / num_batch` only for whether it fails (an empty loader); it does not model the loss value, `metric.get()`, printing, `tqdm` or timing. `Training.Test` returns the pair `(sum_metric, num_inst)` instead of the value `get` computes from them.
- `Training.Train` takes each epoch's batches as separate data, because in the source they come from the network's outputs. The model does not require every epoch to have `len(train_dl)` batches. `Training.NumBatch` reads that count from the first epoch, and only its zero case matters to the model.
- `Training.Train` ignores the device list when splitting. The batches arrive already split per device.
- `Training.Train` takes the metric as an argument. It does not model the shared mutable default `metric=AccuracyMultiLabel()`.
- `check_label_shapes` is a precondition: as many prediction batches as label batches.
- `Accuracy.AccuracyMultiLabel.Update` takes lists of batches only. A bare label tensor and a bare prediction tensor are modelled as one-element lists. For bare tensors, `check_label_shapes(labels, preds, True)` compares their row counts before wrapping them, and raises `ValueError` when those differ. The model does not have that error; it compares the two batches.
- `Accuracy.AccuracyMultiLabel.GetIncorrectPreds` has the same gap: the row-count `ValueError` of `check_label_shapes` for bare tensors (accuracy.py:47) is not modelled.
- The `EvalMetric` base class is not modelled beyond the two counters and `reset`.
- `Accuracy.ArgMax` resolves ties to the first largest position, which assumes MXNet's `argmax` does the same.
- Only 2-D batches are modelled, with the argmax along axis 1. One-dimensional labels and other `axis` values are not.
- `Accuracy.Comparable` requires both batches to be 2-D arrays, with every row `width` long, as tensors are. It also requires non-empty prediction rows when the shapes differ, because an empty row has no argmax.
- `Datasets.ParseId` accepts only an optional sign followed by decimal digits. `float()` also accepts surrounding whitespace, a decimal point, exponents, underscores, `inf` and `nan`, and it returns a float.
- `Datasets.Encode` assumes that `codes[l] = 1` on an MXNet NDArray counts a negative `l` from the end, as Python lists do.
- `Datasets.ValidateAndSetLabels` treats an omitted or `None` label map like the empty default map. Both are falsy at cv.py:68.
- Image reading, transforming and reshaping in `__getitem__` are not modelled: they are image I/O.
- `predict`, `save_model`, `save_retrain` and `get_model` are not modelled: they are float scores, file writes and the model zoo.
- `deep_abyasa/preprocess/download.py` is not modelled: it is HTTP and tar extraction.
