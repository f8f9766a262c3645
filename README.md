# taiko-autochart, modelled in Dafny

taiko-autochart builds a training set for automatic Taiko chart generation
and then trains a model on it. This project models the deterministic core of
that pipeline and proves properties of it:

- **The TJA chart parser** (`parser/tja-parser.py`). `parse_tja_file` is a
  line-driven state machine over `current_course`, `collecting` and
  `current_chart`. It turns the lines of a `.tja` file into a list of
  (course, rows of note codes).
- **The label encoder** (`parser/tja-parser.py`). `save_label_tensor` pads
  the rows of the first chart with zeros into a rectangular matrix.
  `process_dataset_tja` decides which label file each chart file gives and
  where it is written.
- **The training dataset** (`model/taiko_dataset.py`). `TaikoDataset` pairs
  every mel-feature file (`.pt`) with the label file at the same relative
  path. `pad_collate` zero-pads a batch to common shapes.
- **The training control logic** (`model/train.py`):
  - the split sizes and the `max_features` scan;
  - the truncate-or-pad alignment of predictions against labels;
  - the epoch loop with early stopping, the best-model file and the
    numbered checkpoints.
- **The dataset audit** (`scripts/final-check.py`):
  - the `.wav` twin of every `.ogg` and its duration check;
  - the folders without a chart;
  - the audio references in charts and their exact or fuzzy match.

Modules, one per file:

- `Wrappers` (`wrappers.dfy`): `Option` and `Result`.
- `Text` (`text.dfy`): the Python string operations the scripts use.
- `Matrices` (`matrices.dfy`): zero padding and truncation of integer
  matrices.
- `TjaParser` (`tja_parser.dfy`).
- `LabelEncoder` (`label_encoder.dfy`).
- `TaikoDatasets` (`taiko_dataset.dfy`).
- `Training` (`train.dfy`).
- `FinalCheck` (`final_check.dfy`).

The parser is specified by a pure step function, `TjaParser.Step`, folded
over the lines. The loops of the scripts are methods proved equal to the
specification functions, and the promised properties are lemmas about those
functions. `TaikoDataset` is a class whose fields hold the two parallel
path lists.

The outside world enters as parameters:

- the directory walk is a list of paths;
- the label files that exist are a set;
- the file system and audio decoder are a `FileSystem` value (which paths
  are files, which decode and how long they last, folder listings, file
  lines, and where reading fails);
- the fuzzy matcher is a function returning ranked (name, score) pairs;
- the per-epoch losses are functions of the epoch number.

Behaviour of the code worth knowing:

- **No numbered checkpoint in the stopping epoch.** The epoch that triggers
  early stopping `break`s before the numbered checkpoint, so that epoch
  writes none, even when its number is a multiple of ten.
  `Training.CheckpointSchedule` states this.
- **`COURSE:` inside a body.** An unsupported `COURSE:` line before
  `#START` makes the following body ignored. Inside a body, a `COURSE:`
  line only changes the course: collection goes on, and the chart is
  emitted under the new course, or none (`TjaParser.CourseChangeMidBody`).
- **No empty charts.** The encoder's "empty chart, no output" case cannot
  be reached from the parser: a chart is emitted only when it has a row
  (`LabelEncoder.FirstChartAlwaysSaved`).

## Model

| member | source | states |
|---|---|---|
| Text.TrimStartSpec | parser/tja-parser.py:17 | `lstrip` removes exactly the leading run of whitespace: the result is a suffix, and it is empty or starts with a non-space |
| Text.TrimEndSpec | parser/tja-parser.py:17 | `rstrip` removes exactly the trailing run of whitespace: the result is a prefix, and it is empty or ends with a non-space |
| Text.StripSpec | parser/tja-parser.py:17 | `strip()` gives the empty string exactly for all-whitespace input, and leaves a string alone when neither end is whitespace |
| Text.Split | parser/tja-parser.py:47 | `split(sep)` always gives at least one piece, no piece holds the separator, and a separator gives at least two pieces |
| Text.JoinSplit | parser/tja-parser.py:47 | splitting loses nothing: joining the pieces with the separator gives back the line |
| Text.BeforeCommentSpec | parser/tja-parser.py:46 | `split('//')[0]` is a prefix of the line that holds no `//`, and it stops short of the line only where a `//` begins |
| Text.LastIndexOf | parser/tja-parser.py:74 | `rfind`: the index of the last occurrence of the character, or none when the character does not occur |
| Matrices.PadRight | parser/tja-parser.py:60 | padding a row to width w keeps the row as a prefix, fills with zeros, and gives length max(w, len) |
| Matrices.Max | parser/tja-parser.py:59 | the maximum bounds every element and is one of them; it is 0 for an empty list |
| Matrices.PadCols | model/taiko_dataset.py:76 | padding on the right keeps the row count, gives width w and keeps every entry in place, with zeros beyond |
| Matrices.PadRows | model/taiko_dataset.py:76 | padding at the bottom gives h rows and keeps every entry in place, with zero rows beyond |
| Matrices.TakeRows | model/train.py:94 | truncating to h rows keeps the first h rows entry for entry |
| Matrices.TakeCols | model/train.py:102 | truncating to width w keeps the first w columns entry for entry |
| TjaParser.CourseNamed | parser/tja-parser.py:25-29 | a course name is supported exactly when it equals one of the six names, case-sensitively |
| TjaParser.RowOf | parser/tja-parser.py:49-50 | a stripped section gives a row exactly when it is non-empty and all digits; the row is non-empty, has codes 0..9 and has one code per character |
| TjaParser.RowText | parser/tja-parser.py:50 | the digit text of a row: one digit per code, whose value is the code |
| TjaParser.RowOfRoundTrip | parser/tja-parser.py:49-50 | a section and its row determine each other: the row prints back as the section, and a valid row's text reads back as the row |
| TjaParser.RowsOf | parser/tja-parser.py:47-50 | the rows of a list of sections are all valid, and there are at most as many as sections |
| TjaParser.RowsOfAppend | parser/tja-parser.py:47-50 | each section contributes on its own and in order: the rows of a concatenation are the concatenated rows |
| TjaParser.RowsOfOne | parser/tja-parser.py:48-50 | one section gives exactly one row when it is valid after stripping, and none otherwise |
| TjaParser.RowsOfStep | parser/tja-parser.py:47-50 | one more section appends exactly its own row, if it has one |
| TjaParser.BodyRows | parser/tja-parser.py:45-50 | every row a body line adds is valid |
| TjaParser.CourseLineNotSkipped | parser/tja-parser.py:20-24 | a `COURSE:` line is never taken for a blank or comment line |
| TjaParser.Step | parser/tja-parser.py:16-50 | one line keeps the parser state well formed (valid rows, non-empty emitted charts, nothing pending outside a body), and it appends at most one chart and removes none |
| TjaParser.RunAppend | parser/tja-parser.py:16 | reading a file in two parts is the same as reading it in one |
| TjaParser.RunWellFormed | parser/tja-parser.py:16-50 | a well-formed state stays well formed over any number of lines |
| TjaParser.ParseEmitsValidRows | parser/tja-parser.py:39-50 | every emitted chart has a row, every row is non-empty, and every code lies in 0..9 |
| TjaParser.ChartsInFileOrder | parser/tja-parser.py:37-40 | charts are only appended: the charts of a prefix of the file come first, in file order |
| TjaParser.SkippedLineIgnored | parser/tja-parser.py:19-21 | a blank or `//` line can be removed from anywhere in the file without changing the charts |
| TjaParser.NoCourseNoCharts | parser/tja-parser.py:24-35 | while no supported course is declared, `#START` does not begin a body and no chart is emitted |
| TjaParser.UnsupportedCourseSectionSkipped | parser/tja-parser.py:24-35 | an unsupported `COURSE:` line outside a body clears the course, so the section after it emits nothing |
| TjaParser.NoSupportedCourseEmptyParse | parser/tja-parser.py:24-35 | a file that declares no supported course gives no chart at all |
| TjaParser.EndEmits | parser/tja-parser.py:37-42 | `#END` while collecting stops collection and clears the accumulator; a chart is appended exactly when the accumulator was non-empty, under the current course |
| TjaParser.StartRestarts | parser/tja-parser.py:32-35 | `#START` under a supported course opens a body with an empty accumulator, even when a body was already open |
| TjaParser.CourseChangeMidBody | parser/tja-parser.py:24-30 | a `COURSE:` line changes only the course, even inside a body |
| TjaParser.CollectRows | parser/tja-parser.py:46-50 | the body-line loop appends exactly the rows of the line's sections, in order |
| TjaParser.ParseTjaFile | parser/tja-parser.py:9-52 | the parser loop returns exactly the charts of the step function folded over the lines |
| LabelEncoder.EncodeLabels | parser/tja-parser.py:56-61 | no matrix for an empty chart; otherwise one row per chart row, in order, each of the maximum row length, holding the original row as a prefix and zeros after it |
| LabelEncoder.EncodeLabelsEntries | parser/tja-parser.py:59-61 | every entry of the label matrix is the chart's code at that place, or 0 outside the row |
| LabelEncoder.EncodeLabelsInverse | parser/tja-parser.py:59-61 | cutting each padded row back to its original length recovers the chart |
| LabelEncoder.EncodeLabelsExample | parser/tja-parser.py:59-61 | rows `[1,2]` and `[3]` encode as `[[1,2],[3,0]]` |
| LabelEncoder.WithSuffix | parser/tja-parser.py:74 | a name without a suffix gets the new suffix appended |
| LabelEncoder.LabelPathMirrors | parser/tja-parser.py:71-74 | the labels of `d/.../stem.tja` (any case) go to `d/.../stem.pt` under the output root |
| LabelEncoder.FirstChartAlwaysSaved | parser/tja-parser.py:79-89 | a chart file with a chart always saves its first chart, padded, under the mirrored path |
| LabelEncoder.WrittenStep | parser/tja-parser.py:85 | one more file writes its label file, if it saves one, over whatever that path held |
| LabelEncoder.WrittenBySave | parser/tja-parser.py:85 | every label file written comes from a save of that path with that matrix |
| LabelEncoder.WrittenFromFirstCharts | parser/tja-parser.py:68-89 | every label file written holds the padded first chart of some chart file whose mirrored path it is |
| LabelEncoder.WrittenByLastSave | parser/tja-parser.py:85 | a saved label file stays written, with its matrix, unless a later file saves to the same path |
| LabelEncoder.ChartFilesWritten | parser/tja-parser.py:68-89 | every chart file with a chart has its mirrored label file written, holding its padded first chart, unless a later file of the walk writes to the same path |
| LabelEncoder.ProcessFile | parser/tja-parser.py:70-89 | the decision for one walked file: not a chart file, no chart, or the first chart encoded and saved |
| LabelEncoder.OutcomesStep | parser/tja-parser.py:68-69 | one more file adds exactly its own decision |
| LabelEncoder.ProcessDataset | parser/tja-parser.py:67-92 | the walk takes each file's decision in order, and the files written are exactly those the decisions save, the later overwriting |
| TaikoDatasets.RelPath | model/taiko_dataset.py:23 | `relpath` gives the part of the path below the root |
| TaikoDatasets.Discovered | model/taiko_dataset.py:14-17 | every feature file found lies under the feature root |
| TaikoDatasets.PassesComputePairs | model/taiko_dataset.py:13-33 | walking, looking up labels and filtering give exactly the pairs of the one-pass definition |
| TaikoDatasets.PairsAppend | model/taiko_dataset.py:14-33 | pairing keeps walk order: the pairs of a concatenated walk are the concatenated pairs |
| TaikoDatasets.PairsSound | model/taiko_dataset.py:16-32 | every pair is a walked `.pt` file with the label at the same relative path, and that label exists |
| TaikoDatasets.PairsComplete | model/taiko_dataset.py:16-32 | every walked `.pt` file whose mirrored label exists is paired |
| TaikoDatasets.PairsExample | model/taiko_dataset.py:25-32 | a feature without a label is dropped silently and the others keep their order |
| TaikoDatasets.KeepPairedAligned | model/taiko_dataset.py:32 | after filtering, each label is the mirrored path of the feature beside it |
| TaikoDatasets.FindFeatures | model/taiko_dataset.py:13-17 | the walk loop collects the `.pt` files in walk order, under the feature root |
| TaikoDatasets.FindLabels | model/taiko_dataset.py:20-29 | the label loop gives the mirrored path or none for each feature file, in order |
| TaikoDatasets.DropUnlabelled | model/taiko_dataset.py:32 | the filter keeps the pairs with a label, in order |
| TaikoDatasets.TaikoDataset.FromPairs | model/taiko_dataset.py:33 | `zip(*pairs)` gives two parallel lists of the pairs' length, aligned by index |
| TaikoDatasets.TaikoDataset.New | model/taiko_dataset.py:8-33 | construction fails exactly when no pair survives; otherwise the fields hold the surviving pairs, aligned by index |
| TaikoDatasets.TaikoDataset.Length | model/taiko_dataset.py:35-36 | `__len__` is the common length of the two lists, at least one |
| TaikoDatasets.TaikoDataset.Item | model/taiko_dataset.py:38-40 | an index is valid exactly in -len..len-1; index i gives pair i and a negative index counts from the end; every item is a feature under the root with its mirrored label |
| TaikoDatasets.PadTime | model/taiko_dataset.py:55-61 | padding a feature pads only its last axis, with zeros, keeps every entry and the leading axes, and leaves a feature already at the width unchanged |
| TaikoDatasets.PadLabel | model/taiko_dataset.py:70-76 | padding a label gives the batch's row count and width, keeps every entry in place, and fills with zeros |
| TaikoDatasets.CollatedShapes | model/taiko_dataset.py:48-81 | the batch keeps size and order, every feature has the batch's maximum time length and every label the maximum rows and width, and each maximum is reached by some item |
| TaikoDatasets.CollatedEntries | model/taiko_dataset.py:59-76 | every original entry keeps its indices in the batch, and padding is 0 |
| TaikoDatasets.BatchMaxima | model/taiko_dataset.py:53-67 | the batch maxima bound every item, so padding never truncates |
| TaikoDatasets.PaddingKeepsLead | model/taiko_dataset.py:63 | the padded features can be stacked exactly when the originals agree on their leading axes |
| TaikoDatasets.PadAudios | model/taiko_dataset.py:54-62 | the feature loop pads every feature, in order, to the batch time length |
| TaikoDatasets.PadLabels | model/taiko_dataset.py:69-77 | the label loop pads every label, in order, to the batch's rows and width |
| TaikoDatasets.CollatedFromItems | model/taiko_dataset.py:53-81 | the padded items stacked in order are the collated batch |
| TaikoDatasets.PadCollate | model/taiko_dataset.py:48-81 | an empty batch fails (`max` of nothing), features that disagree on their leading axes fail to stack, and otherwise the result is the collated batch |
| Training.DatasetSplit | model/train.py:25-28 | the three sizes add up to the dataset, the training and validation sizes are the floors of 70% and 20%, and the test share is at least a tenth |
| Training.Inspected | model/train.py:54 | `min(20, n)` samples are inspected |
| Training.MaxFeatures | model/train.py:53-57 | `max_features` bounds the width of every inspected label, is reached by one of them, and is 0 when none is inspected |
| Training.AlignSeq | model/train.py:91-97 | time alignment gives the label's sequence length, keeps the entries inside both shapes, pads with zeros, and does nothing when the lengths match |
| Training.AlignFeat | model/train.py:99-105 | feature alignment gives the label's width by the same rule, and does nothing when the widths match |
| Training.AlignedPrediction | model/train.py:91-105 | after both alignments the prediction has the label's shape, entries inside both shapes are the original prediction's and all others are 0, and matching shapes are left alone |
| Training.AlignToLabels | model/train.py:131-145 | the validation loop's alignment is the same as training's |
| Training.TrainingLoop | model/train.py:155-193 | the epoch loop with `break` ends in exactly the state of the epoch step function folded over the epochs |
| Training.StoppedIsFinal | model/train.py:183 | once the loop has stopped, further epochs change nothing |
| Training.RunInvariant | model/train.py:155-183 | the loop never runs more epochs than asked; the best loss exists once an epoch ran and is the loss of the first epoch reaching the minimum so far; the counter is the number of epochs since then |
| Training.StopsAtBestPlusPatience | model/train.py:179-183 | the loop stops exactly when the counter reaches the patience, which is `patience` epochs after the best one |
| Training.StopsWhenPatienceRunsOut | model/train.py:179-183 | a stopped loop's counter equals the patience, and a running loop's stays below it |
| Training.BestModelStep | model/train.py:167-177 | one epoch writes a best-model checkpoint exactly when its validation loss strictly beats the best |
| Training.CheckpointStep | model/train.py:181-193 | one epoch writes a numbered checkpoint exactly when its number is a multiple of ten and it did not stop the loop |
| Training.CheckpointSchedule | model/train.py:181-193 | the numbered checkpoints are exactly those of the epochs run whose number is a multiple of ten, except the epoch that stopped the loop |
| Training.BestSaves | model/train.py:167-177 | a best-model checkpoint is written for exactly the epochs whose validation loss beats every earlier one |
| Training.LastBest | model/train.py:177 | the best-model save that no later best-model save follows, i.e. the one the file holds; none exactly when no best-model save happened |
| Training.LastBestIgnoresPeriodic | model/train.py:186-193 | numbered checkpoints never change which best-model file is current |
| Training.EpochKeepsBestFile | model/train.py:167-193 | one epoch keeps the best-model file holding the best epoch and its losses |
| Training.RunKeepsBestFile | model/train.py:155-193 | one more epoch of the loop keeps the best-model file current |
| Training.ReloadedIsBest | model/train.py:202-204 | the best-model file reloaded at the end holds the best epoch with its two losses, and none is written while no best loss exists |
| FinalCheck.Basename | scripts/final-check.py:110 | `basename` is the part of the path after its last `/`: a suffix without `/`, either the whole path or preceded by a `/` |
| FinalCheck.JoinSplitsBack | scripts/final-check.py:104 | `dirname` and `basename` of `folder/name` give back the folder and the name |
| FinalCheck.NameStart | scripts/final-check.py:15 | the final component starts at the beginning of the path or just after a `/`, and holds no `/` |
| FinalCheck.ExtStart | scripts/final-check.py:15 | `splitext` cuts only at a dot inside the final component |
| FinalCheck.ExtStartSpec | scripts/final-check.py:15 | `splitext` cuts exactly at the last dot of the final component when a non-dot character precedes it there, and otherwise does not cut |
| FinalCheck.StripExt | scripts/final-check.py:15 | `splitext(p)[0]` is the path itself or the path cut before a dot, with no `/` after the cut |
| FinalCheck.WavPathReplacesSuffix | scripts/final-check.py:15 | the expected `.wav` path of `x.ogg` (any case), where the name has a non-dot character before the suffix, is `x.wav` |
| FinalCheck.WavPathOfBareSuffix | scripts/final-check.py:15 | a file named just `.ogg` gets `.ogg.wav`, since `splitext` sees no extension |
| FinalCheck.CheckWavForOgg | scripts/final-check.py:14-22 | the twin is usable exactly when it is a file that decodes; no path is returned exactly when it is not a file |
| FinalCheck.HasWavHasPath | scripts/final-check.py:89-96 | a usable twin always comes with its path, so `corrupted_wav` is never appended to |
| FinalCheck.CompareDurations | scripts/final-check.py:24-31 | the check passes exactly when both files decode and their lengths differ by at most the tolerance; (False, 0, 0) when either fails to decode |
| FinalCheck.VerdictCases | scripts/final-check.py:88-100 | an `.ogg` is reported missing its `.wav` exactly when the twin is not a file or does not decode, and a duration mismatch exactly when the twin decodes but the lengths are not within 50 ms |
| FinalCheck.MissingWavsSound | scripts/final-check.py:88-92 | every path in `missing_wav` is the twin of some `.ogg` whose verdict is missing |
| FinalCheck.MissingWavsComplete | scripts/final-check.py:88-92 | the twin of every `.ogg` judged missing is in `missing_wav` |
| FinalCheck.MismatchesSound | scripts/final-check.py:97-100 | every reported mismatch is the verdict on one of the `.ogg` files |
| FinalCheck.MismatchesComplete | scripts/final-check.py:97-100 | every `.ogg` judged a mismatch is reported |
| FinalCheck.MismatchesExactly | scripts/final-check.py:97-100 | the reported mismatches are exactly the mismatch verdicts of the `.ogg` files |
| FinalCheck.CheckOggs | scripts/final-check.py:88-100 | the `.ogg` loop gives `missing_wav` and `duration_mismatches` as the per-file verdicts say, in order, and leaves `corrupted_wav` empty |
| FinalCheck.CheckTjaForFolder | scripts/final-check.py:33-37 | a folder has a chart exactly when some entry ends in `.tja`, in any case |
| FinalCheck.MissingAmongAdd | scripts/final-check.py:105-107 | checking one more folder adds it exactly when it has no chart |
| FinalCheck.FoldersMissingTjaAmong | scripts/final-check.py:104-107 | the folders missing a chart are those among the song folders without a chart |
| FinalCheck.CheckFolders | scripts/final-check.py:104-107 | the folder loop reports exactly the folders holding an `.ogg` but no chart |
| FinalCheck.FirstMatchSpec | scripts/final-check.py:42-45 | the matcher's answer is none exactly when no match reaches the threshold, and otherwise the best-ranked match that does |
| FinalCheck.FuzzyFind | scripts/final-check.py:39-45 | the loop over the ranked matches returns the first one at or above the threshold |
| FinalCheck.Readable | scripts/final-check.py:50-65 | the lines read before a failure are a prefix of the file |
| FinalCheck.RefsUpToSound | scripts/final-check.py:52-63 | every reference collected is named by one of the lines read |
| FinalCheck.RefsUpToComplete | scripts/final-check.py:52-63 | every reference named by a line read is collected |
| FinalCheck.RefsInExactly | scripts/final-check.py:47-66 | the references are exactly those named by the lines read before any failure; duplicates collapse |
| FinalCheck.RefOfLineKinds | scripts/final-check.py:53-63 | only `WAVE:` and `#NEXTSONG` lines name a file, the name is never empty, and a `#NEXTSONG` name ends in `.ogg` or `.wav` in any case |
| FinalCheck.RefIsStripped | scripts/final-check.py:55-61 | a reference has no whitespace at its ends |
| FinalCheck.ParseAudioReferences | scripts/final-check.py:47-66 | the reading loop returns exactly the references of the lines read before a failure |
| FinalCheck.AddRef | scripts/final-check.py:53-63 | one line adds its reference, if it names one, and nothing else |
| FinalCheck.ExactNameNeverMissing | scripts/final-check.py:113-119 | a reference is reported only when no audio file has exactly that name and the fuzzy matcher finds nothing (or an empty name) |
| FinalCheck.UnmatchedAmongAdd | scripts/final-check.py:113-119 | checking one more reference adds it exactly when it counts as missing |
| FinalCheck.UnmatchedInChart | scripts/final-check.py:113-119 | the inner loop reports exactly the chart's references that count as missing |
| FinalCheck.CheckReferences | scripts/final-check.py:110-119 | the reference loop reports exactly the (chart, reference) pairs that count as missing |
| FinalCheck.WithExt | scripts/final-check.py:6-12 | filtering by extension keeps at most the walked files |
| FinalCheck.WithExtSound | scripts/final-check.py:8-11 | every file found was walked and ends in the extension, in any case |
| FinalCheck.WithExtComplete | scripts/final-check.py:8-11 | every walked file ending in the extension, in any case, is found |
| FinalCheck.WithExtStep | scripts/final-check.py:9-11 | one more walked file is appended exactly when its name ends in the extension |
| FinalCheck.FindFilesWithExt | scripts/final-check.py:6-12 | the walk loop finds exactly the walked files ending in the extension, in walk order |
| FinalCheck.CheckDataset | scripts/final-check.py:68-119 | every list of the report is what its loop computes from the `.ogg`, `.wav` and `.tja` files of the walk |

## Left out

- All file and tensor I/O is left out: `open`, `os.walk`, `os.path.exists`, `torch.load`, `torch.save` and `os.makedirs`. Walks, existing files, file contents and decoded lengths are inputs, and a saved file is recorded as its path with its contents.
- `open(..., errors='ignore')` decoding, and the `except` in `process_dataset_tja` around unexpected errors, are not modelled: a chart file is its list of lines.
- The progress and report `print`s are not modelled.
- The network (`model/model.py`), the loss, backpropagation and the optimiser are not modelled. The losses each epoch produces are inputs.
- The per-epoch averaging `total_loss / num_batches` in `train_epoch` and `validate_epoch` is left out: it is floating-point arithmetic, and it divides by zero on an empty loader.
- The final test evaluation is left out for the same reason.
- Training.DatasetSplit: takes 0.7 and 0.2 as exact ratios. `int(0.7 * total)` on IEEE doubles can come out one lower for some totals, and that rounding is not modelled.
- `random_split` and `DataLoader` shuffling are not modelled; the split is only its sizes.
- Losses are unbounded reals. NaN losses, for which `<` is always false, are not modelled, and neither is the initial `float('inf')`, which is `None` here.
- Tensor element values are integers, and labels are converted to float only for the loss.
- Text.LowerChar: lower-cases ASCII only. Python's `str.lower` also folds non-ASCII letters. The extensions compared (`.tja`, `.ogg`, `.wav`, `.pt`) are ASCII, and no non-ASCII character lowers to one of their letters, so the suffix tests are unaffected.
- Paths in `model/taiko_dataset.py` and in the label encoder are sequences of components. Windows separators and `os.path` normalisation (`..`, repeated separators) are not modelled.
- In `scripts/final-check.py`, paths are `/`-separated strings.
- Iteration over Python sets (`song_folders`, the references of a chart) is unordered. The model proves what is reported, not the order of the report lines. For the same reason `missing_tja` and `fuzzy_missing_audio` are sets here rather than lists; the source's lists cannot hold repeats, because the folders and each chart's references come from sets.
- `fuzzywuzzy.process.extract` and its scorer are an input function returning the ranked (name, score) pairs; its scoring is not modelled.
- `AudioSegment` decoding is an input map from decodable files to their length in milliseconds.
- `wav_files_lower` in `main` is computed but never used, and is not modelled.
- FinalCheck.ParseAudioReferences: a read failure is modelled as the number of lines read before it. The `except` that prints the error and returns the references so far is the loop ending early.
- TaikoDatasets.TaikoDataset.Item: gives the pair of paths `__getitem__` would load, not the loaded tensors.
- TaikoDatasets.PadCollate: a failed `torch.stack`, when features disagree on leading axes, is an error result here instead of an exception.
- `max_features` is used to build the network only; that use is not modelled.
