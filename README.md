# Captcha pipeline core, modelled in Dafny

`New_work.py` is a project scaffolder: it writes a captcha-recognition project whose Python
source sits in string templates inside that one file. This project models the logic of
those templates that decides what ends up in the data files and what the training and
prediction code computes:

- **labels and vocabulary** (`Image_Processing.extraction_label`, `text2vector`), and the
  label shape the record reader and the models expect (`parse_function`,
  `Settings.settings`, `Settings.settings_num_classes`);
- **canvas sizing**, the fit-and-pad loop of `WriteTFRecord.pad_image` and
  `Predict_Image.decode_image`;
- **the shard writer** `WriteTFRecord.WriteTFRecord`, which consumes the caller's lists in
  groups of `spilt` and writes one record file per group;
- **prediction**: `decode_label`, `decode_vector` and the running tally of `predict_image`;
- **checkpoint selection** `CallBack.calculate_the_best_weight`, together with the names
  `ModelCheckpoint` gives the files it chooses from;
- **the warm-restart learning-rate schedule** `WarmUpCosineDecayScheduler`;
- **the small helpers**: `cheak_path`, `rename_path`, `rename_suffix`,
  `MnasNet._make_divisible`, `Efficientnet.round_filters`, and the `WordAccuracy` metric.

The settings the templates read (`MODE`, `IMAGE_HEIGHT`, `IMAGE_WIDTH`,
`CAPTCHA_LENGTH`) are parameters (`Settings.Config`). `Settings.Default` holds the values
the scaffolder writes.

## Modules and modelling choices

Each module is one file.

- `Wrappers` holds `Option` and `Result`. `Err` stands for an exception the source raises.
- `PyStr` holds the pieces of Python's `str`, `re.split`, `os.path` (POSIX), `str(n)`,
  `format(.., '.4f')` and `float(..)` that the templates rely on:
  - Python's string order is `LexLess`.
  - `os.path.split`, `os.path.join` and `os.path.splitext` are `PathSplit`, `PathJoin` and
    `SplitExt`.
- `PyNum` holds `int(x)` on a number, which truncates toward zero.

The other modules follow the source's parts. Where the source updates state in place, the
model is imperative:

- The caller's lists that `WriteTFRecord` empties are `ShardWriter.PyList` objects.
- The directory and the record files are a `ShardWriter.Filesystem` object.
- The module globals `right_value` and `predicted_value` are the `Prediction.Tally` class.
- The scheduler is the `Scheduler.WarmUpCosineDecay` class.
- The metric is the `WordAccuracy.WordAccuracy` class.

Loops in the source are Dafny loops: the `pad_image` loop, the buffer fill in
`text2vector`, the `decode_vector` row loop, the shard loop, the segment-width loop of the
scheduler's constructor, and the rename loops. Each such method is proved equal to a
function, and the source's promises are proved about that function as lemmas.

### Behaviour the code settles

- **Checkpoint ranking.** The code reads every accuracy (New_work.py:41) and pairs it with
  each loss in `zip(accs, losses)` (New_work.py:43), which suggests a key combining the two.
  But the comprehension keeps only `loss`, so `index` holds the losses alone. The choice is
  a file of least absolute loss, the last such file in listing order. Every accuracy field
  must still parse, or the call raises (`Checkpoint.BestWeightSmallestLoss`,
  `Checkpoint.BestWeightFails`).
- **The base-rate check.** The code's own error message (New_work.py:141-143) states the
  rule "learning_rate_base must be larger or equal to warmup_learning_rate". The check sits
  inside `if warmup_steps > 0:` (New_work.py:140), so with no warm-up a base rate below
  the warm-up rate is accepted (`Scheduler.ScheduleDefined`).
- **The rate at a restart.** At step 0 of a segment the warm-up formula gives
  `warmup_learning_rate`, and the final `max` with `min_learn_rate` (New_work.py:151) can
  raise it: the rate is the larger of the two (`Scheduler.RestartRate`). The callback sets
  the floor to `LR * 0.2` (New_work.py:59), above the warm-up rate `LR * 0.1`
  (New_work.py:56), so there the restart value is the floor.
- **An unknown class in NUM_CLASSES mode.** In that mode `decode_vector` returns the
  dictionary lookup itself, which is `None` for a class with no symbol. `predict_image`
  then compares `"None"` with the label (`Prediction.Answer`, `Prediction.Str`).
- **`cheak_path`.** It does not loop until it finds a free name; see "## Findings".

## Model

| member | source | states |
|---|---|---|
| Settings.ParseMode | New_work.py:2870 | `MODE` selects ORDINARY, NUM_CLASSES or CTC exactly for those three spellings; any other string is kept as an unsupported mode |
| PyStr.LexLessTotal | New_work.py:425 | Python's string order, used by `sorted`, is total: two different strings are ordered one way or the other |
| PyStr.LexLessTransitive | New_work.py:425 | the string order is transitive |
| PyStr.BeforeFirst | New_work.py:423 | `re.split('_', s)[0]` is a prefix of `s` without `_`, followed in `s` by `_` when shorter, and is all of `s` when `s` has no `_` |
| PyStr.SplitOn | New_work.py:40 | `re.split('-', s)` gives at least one field, none holding the separator, and joining them with the separator gives back `s` |
| PyStr.SplitOnJoin | New_work.py:40 | splitting a join of separator-free fields gives back those fields |
| PyStr.SplitOnSnoc | New_work.py:40 | `re.split` on a literal separator makes a separator-free text after the last separator the last field |
| PyStr.PathSplit | New_work.py:584 | the tail of `os.path.split` has no `/` and ends the path |
| PyStr.SplitExt | New_work.py:585 | `os.path.splitext` splits a name into root and extension, which start with its only dot or are empty |
| PyStr.SplitOfJoin | New_work.py:588 | splitting `os.path.join(head, name)` gives back the head and the plain name |
| PyStr.BasenameOfJoin | New_work.py:38 | the basename of a file joined to its directory is that file's name |
| PyStr.SplitExtOfAppend | New_work.py:595 | a root with a non-dot character plus an extension splits back into the two |
| PyStr.Decimal | New_work.py:836 | `str(n)` is a non-empty string of digits |
| PyStr.DecimalInjective | New_work.py:836 | different numbers print differently |
| PyStr.DecimalValue | New_work.py:2958 | `str(n)` spells `n` |
| PyStr.ReplaceOneChar | New_work.py:587 | replacing one character by another keeps the length and changes exactly the occurrences |
| PyStr.ZeroPadValue | New_work.py:2958 | `{epoch:02d}` padding keeps the digits and the number they spell |
| PyStr.Fixed4Chars | New_work.py:2961 | a `.4f` metric has a point and otherwise digits only, so it holds no `-` and no `/` |
| PyStr.ParseFixed4 | New_work.py:42 | `float` reads back exactly the value `.4f` wrote |
| PyNum.Trunc | New_work.py:763 | `int(x)` truncates toward zero, within one of `x` and on its side of 0 |
| PyNum.TruncMono | New_work.py:164 | truncation keeps the order of non-negative numbers |
| LabelCodec.SortedSet | New_work.py:425 | `sorted(set(xs))` is strictly increasing and holds exactly the symbols of `xs` |
| LabelCodec.SortedUnique | New_work.py:425 | a strictly increasing list is determined by its set of symbols |
| LabelCodec.CharSymbols | New_work.py:424-427 | the collected symbols are exactly the characters of the labels |
| LabelCodec.Vocabulary | New_work.py:424-428 | the vocabulary is `sorted(set(symbols))`: strictly increasing, and holding exactly the symbols the mode collects from the labels |
| LabelCodec.VocabularySortedDistinct | New_work.py:421-428 | the vocabulary numbers its classes 0..N-1 in strictly increasing order, holds exactly the observed symbols (characters, or whole labels in NUM_CLASSES mode), and depends only on which symbols occur |
| LabelCodec.IndexOf | New_work.py:433-435 | the reloaded, inverted dictionary gives no index exactly for an absent symbol, and otherwise the one class whose entry is that symbol |
| LabelCodec.LabelOf | New_work.py:421-423 | a label is the file stem, or with `suffix` the part of the stem before its first `_` |
| LabelCodec.OneHotBlocksRows | New_work.py:528 | row `i` of the ravelled `to_categorical` matrix is the one-hot row of index `i` |
| LabelCodec.CharIndices | New_work.py:523-527 | the label's class indices exist exactly when every character is in the vocabulary; each names its character; otherwise the first missing character is reported |
| LabelCodec.FirstMissingSymbol | New_work.py:524-525 | the error names the first character the vocabulary lacks |
| LabelCodec.OrdinaryVector | New_work.py:519-529 | the ORDINARY branch's buffer-filling loop computes the ORDINARY encoding or its error |
| LabelCodec.CtcVector | New_work.py:535-542 | the CTC branch's appending loop computes the CTC encoding or its error |
| LabelCodec.Text2Vector | New_work.py:518-544 | `text2vector` dispatches on the mode to the encoding of that mode; an unsupported mode raises |
| LabelCodec.Encode | New_work.py:518-544 | `text2vector` raises for an unsupported mode, raises the length error exactly for an ORDINARY label longer than `CAPTCHA_LENGTH`, and otherwise gives a vector of `CAPTCHA_LENGTH * (N + 1)` entries (ORDINARY), `N` entries (NUM_CLASSES) or one entry per character (CTC) |
| LabelCodec.OrdinaryEncodingErrors | New_work.py:520-525 | ORDINARY: a label longer than `CAPTCHA_LENGTH` raises and suggests `len + 2`; a shorter label fails only for an unknown character, and exactly then |
| LabelCodec.OrdinaryEncodingBlocks | New_work.py:522-528 | ORDINARY: the vector is `CAPTCHA_LENGTH` one-hot rows of width N+1; row `i` marks the class of `label[i]`, and rows past the label mark N |
| LabelCodec.SlotMarksSymbol | New_work.py:526 | the class a row marks is exactly the class whose symbol is that character |
| LabelCodec.NumClassesEncoding | New_work.py:530-534 | NUM_CLASSES: the vector has length N with a single one, at the label's class; a label missing from the vocabulary raises |
| LabelCodec.CtcEncoding | New_work.py:535-542 | CTC: the vector is as long as the label and holds each character's class; an unknown character raises |
| LabelCodec.EncodeAll | New_work.py:436 | all labels are encoded in order, or the call raises with the error of some label |
| LabelCodec.ExtractLabels | New_work.py:419-515 | an existing vocabulary file is kept; an absent one is written as the strictly increasing list of exactly the symbols of the labels; for a supported mode the result is every label encoded in order with the file's vocabulary, or the error; an unsupported mode raises and leaves the file alone |
| LabelCodec.ExtractLabelsIdempotent | New_work.py:429-436 | the vocabulary file is written only when absent, so a second run keeps the file and gives the same vectors |
| LabelCodec.VocabularyCovers | New_work.py:421-432 | a freshly written vocabulary holds every symbol of the corpus it was built from |
| LabelCodec.CoversSubset | New_work.py:2807-2811 | a vocabulary covering a corpus covers every part of it |
| LabelCodec.CoveredLabelsEncode | New_work.py:519-542 | with a covering vocabulary CTC and NUM_CLASSES never fail, and ORDINARY fails only on a label too long |
| LabelCodec.PackagingRunsAgreeOnVocabulary | New_work.py:2807-2811 | packaging writes the vocabulary from all three parts, and the per-part runs keep that file and fail only on length |
| LabelCodec.ReaderShapeMatchesEncoding | New_work.py:858-898 | the shape `parse_function` declares has as many elements as every vector the encoder writes, and matches the models' class counts N+1 (ORDINARY) and N (NUM_CLASSES); only CTC reads a variable-length list |
| LabelCodec.ReaderShape | New_work.py:858-898 | `parse_function` reads a variable-length list exactly in CTC mode; the ORDINARY and NUM_CLASSES shapes need the vocabulary file and are `[CAPTCHA_LENGTH, settings()]` and `[settings_num_classes()]` |
| LabelCodec.ModelClasses | New_work.py:2575-2584 | the class count needs the vocabulary file, and is N, or N + 1 with the extra padding or blank class |
| Canvas.Resize | New_work.py:764 | a resize succeeds exactly for a non-empty target, and gives that size |
| Canvas.Scaled | New_work.py:763 | the scaled side `int(H / h * w)` with `H < h` is never larger than `w` |
| Canvas.Pass | New_work.py:761-767 | a pass that does not break never grows a side and strictly shrinks `w + h`; it leaves the width fitting, and the height too when the width already fitted; a failed resize has an empty side |
| Canvas.FitSize | New_work.py:760-769 | the loop ends with an image that fits, no larger than the original, and leaves an image that already fits unchanged |
| Canvas.AtMostTwoPasses | New_work.py:760-769 | the loop resizes at most twice |
| Canvas.Pad | New_work.py:770-773 | the padded image has shape `[IMAGE_HEIGHT, IMAGE_WIDTH, 3]`, with non-negative padding, and fails exactly when a resize does |
| Canvas.PadImage | New_work.py:756-773 | `pad_image`'s loop and padding compute `Pad` |
| Canvas.DecodeImage | New_work.py:908-956 | `decode_image` gives a batch of one canvas, of shape `[1, IMAGE_HEIGHT, IMAGE_WIDTH, 3]`, or `None` exactly when the fitting fails |
| ShardWriter.PyList.Remove | New_work.py:833 | `list.remove(x)` drops the first `x` and reports whether there was one |
| ShardWriter.RemoveFirst | New_work.py:833 | removing one `x` leaves the other elements: the length drops by one and the multiset loses one `x` |
| ShardWriter.TakeGroup | New_work.py:830-835 | `lst[:spilt]` followed by removing each of its elements takes exactly the front `spilt` elements off the list |
| ShardWriter.Zip | New_work.py:840 | `zip` pairs up to the shorter list, position by position |
| ShardWriter.LabelFeature | New_work.py:847 | the label feature holds the vector, as an `Int64List` exactly in CTC mode |
| ShardWriter.MakeExample | New_work.py:842-847 | a record exists exactly when the image opens and fits; its image has the canvas shape and its feature the label vector |
| ShardWriter.WriteShard | New_work.py:840-850 | the inner loop writes at most one record per pair, and every pair exactly when it ends without an error |
| ShardWriter.WriteShardComplete | New_work.py:840-850 | a file is written completely exactly when every image of its group fits, with one record per pair in order; otherwise the error is that of the first failing pair |
| ShardWriter.WriteShardStopsAtError | New_work.py:840-842 | after an image fails, nothing more is written to the file |
| ShardWriter.BuildExample | New_work.py:842-847 | `pad_image` and the example built around it compute `MakeExample` |
| ShardWriter.WriteShardFile | New_work.py:836-852 | one group creates its file, empty, and appends the records written before any failure; no other file changes |
| ShardWriter.WriteTFRecord | New_work.py:821-854 | the whole call creates the directory and leaves the files and both lists as the shard loop `Run` describes |
| ShardWriter.ShardPathInjective | New_work.py:836-837 | different shard numbers name different files |
| ShardWriter.ShardPathName | New_work.py:836-837 | for a plain `file_name`, shard `number` is the file `<file_name><number>.tfrecords` |
| ShardWriter.ShardsCoverZip | New_work.py:827-840 | the groups, concatenated, are `zip(datasets, labels)` in order |
| ShardWriter.ShardsCount | New_work.py:827-836 | there are `ceil(len(datasets) / spilt)` files, and none for an empty list |
| ShardWriter.ShardsSizes | New_work.py:830-831 | no file holds more than `spilt` records; with enough labels every file but the last holds exactly `spilt` |
| ShardWriter.StoreKeys | New_work.py:836-838 | after `number` files, the groups add exactly the files numbered `number + 1 .. number + (groups)`, so a call adds files `1 .. ceil(n / spilt)` |
| ShardWriter.StoreKeepsOthers | New_work.py:836-838 | files that existed under other names are untouched |
| ShardWriter.StoreAt | New_work.py:836-838 | file `k` holds the records of group `k`, and no later group overwrites it |
| ShardWriter.RunSucceeds | New_work.py:827-854 | the call returns normally exactly when every paired image opens and fits |
| ShardWriter.RunFirstFailure | New_work.py:840-842 | when it raises, the error is that of the first failing pair in zip order |
| ShardWriter.RunResult | New_work.py:827-854 | after a normal return `datasets` is empty, the labels taken are `ceil(n / spilt) * spilt` or all of them, and group `k` is in file `k` |
| ShardWriter.Run | New_work.py:827-854 | the shard loop ends with `datasets` empty whenever it returns normally, and never removes a file |
| Prediction.ArgMax | New_work.py:979 | `np.argmax` is the first position of a largest score |
| Prediction.ArgMaxOneHot | New_work.py:979 | the top class of a one-hot row is the class it marks |
| Prediction.GetClass | New_work.py:979 | looking up `str(k)` in the reloaded vocabulary gives symbol `k`, and `None` past the last class |
| Prediction.Transcribe | New_work.py:976-982 | reading rows of scores fails only with the error of an empty row; a successful reading had no empty row |
| Prediction.TranscribeFails | New_work.py:978-979 | the reading fails exactly when some row is empty |
| Prediction.DecodeRows | New_work.py:977-982 | the row loop joins, in order, the symbol of each row's top class, skipping rows whose class has no symbol |
| Prediction.Decode | New_work.py:971-1007 | a successful decoding needs the vocabulary file and a supported mode; it gives a class lookup exactly in NUM_CLASSES mode |
| Prediction.DecodeVector | New_work.py:971-1007 | `decode_vector` computes `Decode`: the file is opened first, then the mode dispatches |
| Prediction.DecodePositions | New_work.py:976-1005 | the ORDINARY and CTC branches decode alike |
| Prediction.TranscribeSpells | New_work.py:978-982 | rows whose top classes spell a text, followed by rows of the padding class, read back as that text; repeats are kept |
| Prediction.SymbolOfOneHot | New_work.py:979-981 | a one-hot score row gives its class's symbol, and nothing for class N |
| Prediction.OrdinaryRoundTrip | New_work.py:976-982 | ORDINARY: a network answering exactly the stored label vector is read back as the label |
| Prediction.CtcRoundTrip | New_work.py:994-1000 | CTC: one-hot rows of the label's classes read back as the label, repeated characters included |
| Prediction.NumClassesRoundTrip | New_work.py:988-991 | NUM_CLASSES: a network answering exactly the stored vector is read back as the label's class |
| Prediction.DecodeLabel | New_work.py:958-962 | `decode_label` is the file stem up to its first `_`, the same label the encoder used |
| Prediction.Predict | New_work.py:1009-1030 | an image that cannot be read or fitted raises before anything else; a missing vocabulary file raises next; otherwise the call raises exactly when `decode_vector` does, and judges the image right exactly when the decoded answer prints as the `decode_label` of the path |
| Prediction.Tally.constructor | New_work.py:401-402 | both counters start at zero |
| Prediction.Tally.PredictImage | New_work.py:1009-1033 | the call gives `Predict`'s result; every judged image adds one to the total, and a printed match with `decode_label` one to the correct count, so correct never exceeds total; an exception changes neither |
| Prediction.PerfectOrdinaryNetworkIsRight | New_work.py:1009-1030 | with the vocabulary the records were written with, a network answering every image with its stored vector is judged right |
| Checkpoint.Collect | New_work.py:41-42 | a list comprehension of `float` reads gives every value in order, or raises at the first unreadable field |
| Checkpoint.Accuracy | New_work.py:41 | an unreadable accuracy raises with a field that holds no `-`; a stem without a `-` is read whole |
| Checkpoint.Loss | New_work.py:42 | a stem without a `-` has no loss field and raises `IndexError`; an unreadable loss raises with a field that holds no `-` |
| Checkpoint.AccuracyReadsLastField | New_work.py:39-41 | the accuracy read is the field after the last `-` of the stem |
| Checkpoint.LossReadsFieldBeforeLast | New_work.py:39-42 | the loss read is the field between the last two `-` of the stem |
| Checkpoint.ZipDict | New_work.py:44 | `dict(zip(keys, values))` has exactly the keys |
| Checkpoint.ZipDictLast | New_work.py:44 | for repeated keys the dictionary keeps the value paired with the last occurrence |
| Checkpoint.MaxOf | New_work.py:45 | `max(index)` is an element no smaller than any other |
| Checkpoint.Choose | New_work.py:41-45 | the choice is one of the listed paths, or the error of some unreadable accuracy or loss field |
| Checkpoint.ChooseLeast | New_work.py:41-45 | the chosen path has the least absolute loss, and every later path a strictly larger one |
| Checkpoint.ChooseFails | New_work.py:41-42 | the choice fails exactly when some accuracy or loss field does not read; the first unreadable accuracy is reported before any loss |
| Checkpoint.BestWeight | New_work.py:36-47 | `None` exactly for an empty checkpoint directory |
| Checkpoint.BestWeightSmallestLoss | New_work.py:36-45 | the returned file has the least absolute loss; among equal losses it is the last one listed |
| Checkpoint.BestWeightFails | New_work.py:39-42 | the selection raises exactly when some name lacks a readable accuracy or loss field |
| Checkpoint.FieldsOfName | New_work.py:39-40 | a file name of `-`-joined fields and an extension splits back into its fields, in whatever directory |
| Checkpoint.WrittenFields | New_work.py:2957-2961 | a checkpoint name splits into prefix, epoch, loss and accuracy fields |
| Checkpoint.WrittenMetrics | New_work.py:2957-2961 | the loss and accuracy read back from a checkpoint name are the ones written |
| Checkpoint.WrittenReads | New_work.py:41-42 | in a listing of written checkpoints every accuracy field reads, and every loss field reads back as the loss written |
| Checkpoint.BestWrittenWeight | New_work.py:36-47 | on a directory of written checkpoints the selection succeeds and returns a file of least validation loss, the last such one listed, whatever the accuracies |
| Scheduler.CosineDecayWithWarmup | New_work.py:125-152 | the rate raises for `total < warmup`, for a zero decay length, and for a base below the warm-up rate when there is a warm-up; otherwise it is at least the floor |
| Scheduler.ScheduleDefined | New_work.py:128-143 | the rate is defined exactly when none of the three checks fails |
| Scheduler.WarmUpPhase | New_work.py:140-151 | below `warmup` steps the rate is `max(warmup_lr + (base - warmup_lr) * step / warmup, min_lr)`, between the warm-up and base rates |
| Scheduler.RestartRate | New_work.py:145-151 | step 0 of a segment with a warm-up has rate `max(warmup_lr, min_lr)`, whatever the previous segment reached |
| Scheduler.WarmUpRises | New_work.py:145-149 | the warm-up rate never falls from one step to the next |
| Scheduler.HoldPhase | New_work.py:137-139 | from the end of the warm-up to the end of the hold the rate is `max(base, min_lr)` |
| Scheduler.DecayEnds | New_work.py:132-135 | at the last step of a segment the cosine rate reaches the floor |
| Scheduler.Bounded | New_work.py:132-151 | with a cosine within [-1, 1] every rate lies between the floor and `max(base, min_lr)` |
| Scheduler.DecayFalls | New_work.py:132-139 | after the hold the rate never rises from one step to the next |
| Scheduler.GapsCoverRun | New_work.py:120-123 | the segment widths built from any fractions add up to 1 |
| Scheduler.Gaps | New_work.py:118-123 | there is one more width than fractions; the first width reaches the first fraction, each next width carries one fraction to the next, and the last reaches 1 |
| Scheduler.IntervalWidths | New_work.py:108-123 | the widths are 0.05, 0.10, 0.15, 0.20 and 0.50 |
| Scheduler.ResetPointsOrdered | New_work.py:164 | the reset points `0, int(0.05 T), .., int(0.50 T)` are in order and within the run |
| Scheduler.ResetPoints | New_work.py:164 | the reset points are 0 and, for a run of `T >= 0` steps, each fraction of `T` rounded down |
| Scheduler.RoomForReset | New_work.py:164-169 | a reset at a step not yet reset at leaves a segment width unused |
| Scheduler.WarmUpCosineDecay.constructor | New_work.py:95-123 | the widths are those `Gaps` defines, the configured counts are stored, and no segment has started |
| Scheduler.WarmUpCosineDecay.StartSegment | New_work.py:164-169 | a reset scales the three counts by the next width, zeroes the segment step and advances the index; it fails only when the widths have run out, which never happens while each point is reset once |
| Scheduler.WarmUpCosineDecay.OnBatchBegin | New_work.py:162-178 | at a reset point a segment starts, then the optimizer rate becomes the schedule's value at the segment step; before any segment it raises |
| Scheduler.WarmUpCosineDecay.OnBatchEnd | New_work.py:155-159 | both step counters advance and the optimizer rate is recorded; before any segment it raises |
| Paths.Renames | New_work.py:582-588 | `rename_path` renames only listed files whose name contains the pattern, to the replaced name in the same directory |
| Paths.RenameTarget | New_work.py:584-588 | a file is renamed exactly when the pattern is in its name without the extension; with a non-empty, slash-free replacement it stays in its directory under the replaced name and its old extension |
| Paths.RenamedIff | New_work.py:586-588 | a file is renamed exactly when the pattern occurs in its name without the extension |
| Paths.RenamePath | New_work.py:582-588 | the loop asks for exactly those renames, in order |
| Paths.DotsReplaced | New_work.py:587 | replacing `.` by `_` keeps the length, leaves no dot and adds no slash |
| Paths.RenameDotsOnce | New_work.py:582-588 | with the defaults a renamed file keeps its directory and extension, has no dot left in its name, and a second pass leaves it alone |
| Paths.SuffixRenames | New_work.py:591-595 | `rename_suffix` renames every file, in order, to its name with `.jpg` |
| Paths.SuffixTarget | New_work.py:593-595 | a file with a non-empty name stays in its directory, under that name followed by `.jpg` |
| Paths.RenameSuffix | New_work.py:591-595 | the loop asks for exactly those renames |
| Paths.SuffixOnce | New_work.py:593-595 | the new name keeps directory and name, has extension `.jpg`, and a second pass renames it to itself |
| Paths.CheakPathAsWritten | New_work.py:1046-1059 | as written, a free path is returned as is, and a taken path is replaced by its `_V1.0` name without further checks |
| Paths.AsWrittenMayCollide | New_work.py:1049-1057 | when the `_V1.0` name is taken too, the path returned already exists |
| Paths.VersionedInjective | New_work.py:1052-1056 | different version numbers give different paths |
| Paths.VersionedName | New_work.py:1050-1056 | the versioned path lies in the directory of the original, under the name `<base>_V<k>.0<ext>` |
| Paths.CheckPath | New_work.py:1046-1059 | the corrected `cheak_path` returns a free path: the path itself when free, else the first free `_V<k>.0` name |
| Channels.RoundToMultiple | New_work.py:2531 | `int(v + 4) // 8 * 8` is a multiple of 8 within 4 of a non-negative `v` |
| Channels.RoundFilters | New_work.py:1603-1611 | `round_filters` is a multiple of 8, at least 8, and never below nine tenths of `filters * multiplier` |
| Channels.MakeDivisible | New_work.py:2528-2534 | the result is at least `min_value`, a multiple of 8 whenever `min_value` is, never below nine tenths of `v`, and at most one divisor above the larger of `min_value` and the rounded value |
| Channels.RoundFiltersIsMakeDivisible | New_work.py:1603-1611 | `round_filters` is `_make_divisible` of the scaled count with the default minimum |
| WordAccuracy.Width | New_work.py:2619 | the padding width is at least the length of every row, which is all `max_width` must be (see `MismatchesAnyWidth`) |
| WordAccuracy.PaddedEqual | New_work.py:2624-2627 | padding with -1 hides no difference: two rows of class indices are equal exactly when their padded forms are |
| WordAccuracy.MismatchesAnyWidth | New_work.py:2619-2627 | for rows of class indices, every padding width that fits all rows gives the same mismatch count, so the larger of the label width and the logits' time axis gives the count of `Width` |
| WordAccuracy.CountTrueZero | New_work.py:2630-2632 | the sum of the mismatch flags is zero exactly when no flag is set |
| WordAccuracy.NoMismatchIffAllRight | New_work.py:2618-2632 | a batch has no mismatch exactly when every decoding equals its label |
| WordAccuracy.WordAccuracy.constructor | New_work.py:2610-2615 | both weights start at zero |
| WordAccuracy.WordAccuracy.UpdateState | New_work.py:2617-2634 | the batch size joins the total and the rows decoded right join the count, so the count never exceeds the total |
| WordAccuracy.WordAccuracy.Result | New_work.py:2636-2637 | the accuracy is defined exactly after some batch, and lies in [0, 1] |
| WordAccuracy.WordAccuracy.ResetStates | New_work.py:2639-2641 | both weights return to zero |

## Left out

- Pixels are not modelled. An image is known by its size alone, with no content, RGB
  conversion, resampling, JPEG encoding or decoding, or `/ 255.` scaling. A record holds the
  padded canvas's size and the label vector, not its serialised bytes.
- `Canvas.Scaled`: `int(H / h * w)` is computed exactly, as `H * w // h`. Floating-point
  rounding could differ by one at exact multiples.
- `Canvas.Resize`: a resize to an empty side is modelled as an error, which is how the
  image library refuses it. Sizes are not required to stay positive.
- `ShardWriter.WriteTFRecord`: requires `spilt >= 1`, and `spilt` is a natural number.
  With `spilt == 0` the source never empties `datasets` and creates empty record files
  for ever. A negative `spilt` takes the first `n - |spilt|` items into shard 1; after
  that `datasets[:spilt]` is empty, so the loop again runs for ever. Neither case is
  modelled.
- `ShardWriter.TakeGroup`: `list.remove` compares by value. The source's label vectors are
  NumPy arrays, which `remove` finds by identity. Both remove the front of the list.
- The three `WriteTFRecord` calls of the packaging script run in a thread pool. The model
  treats each on its own.
- `Prediction.Decode`: the confidence value (`max / sum |row|`, then
  `mean - 2.58 * std / sqrt(n)`) is not modelled; only the text is.
- The network is a parameter (`net`), and so is the file-to-image-size map (`images`).
- `Prediction.Decode`: the rank of the network's answer is assumed to match `MODE`, and a
  mismatch is modelled as the error `ShapeMismatch`, which the source never raises. With
  a one-dimensional answer in ORDINARY or CTC mode, `np.argmax` of each scalar is 0, so the
  source spells symbol `0` once per entry. With a two-dimensional answer in NUM_CLASSES
  mode, `np.argmax` gives a flattened index.
- The CTC greedy decoder inside `WordAccuracy.update_state` is not modelled. The decoded
  rows are an input to `WordAccuracy.WordAccuracy.UpdateState`.
- `WordAccuracy.WordAccuracy.UpdateState`: does not model the `int32` wrap-around of the
  two weights.
- `WordAccuracy.WordAccuracy.Result`: `None` stands for the not-a-number that `0 / 0`
  gives before any batch.
- `Checkpoint.Accuracy` and `Checkpoint.Loss`: `float(..)` is modelled for an optional
  sign, digits and an optional fraction only. Exponents, `inf`, `nan`, whitespace and
  underscores are not. Values are exact reals.
- `Checkpoint.BestWrittenWeight`: the metrics `ModelCheckpoint` writes are modelled as the
  non-negative four-place values `.4f` prints. A negative metric is not covered.
- `Checkpoint.BestWeight`: `extraction_image` is modelled for a checkpoint directory of
  plain files only, which is what `ModelCheckpoint` produces. Its two-level listing for
  sub-directories is not modelled.
- `Scheduler.CosineDecayWithWarmup`: rates and step counts are exact reals, and
  `np.cos(np.pi * x)` is the parameter `cosPi`. Its properties are assumed only where a
  lemma states them (`cosPi(1) == -1`, the range [-1, 1], falling on [0, 1]).
- `Scheduler.WarmUpCosineDecay.OnBatchBegin` and `OnBatchEnd`: the optimizer's rate is the
  field `optimizerLr`, standing for `K.get_value` and `K.set_value`. The verbose logging is
  left out.
- `Channels.MakeDivisible`: the divisor is fixed at 8, the only value any caller passes.
- `Channels.MakeDivisible`, `Channels.RoundToMultiple` and `Channels.RoundFilters`:
  `v + divisor / 2` and `0.9 * v` are computed in exact reals, where the source uses
  floating point. For integer `v` the results agree. Near a rounding boundary a
  non-integer `v` could round differently.
- `LabelCodec.LabelOf` and `LabelCodec.ExtractLabels`: the `divide` argument of
  `extraction_label` is fixed to `_`, its default. Every caller passes the default.
- `LabelCodec.ExtractLabels`: the encoding uses the same mode as the vocabulary. The
  source encodes with the global `MODE`, and every caller passes that as `mode`.
- `LabelCodec.EncodeAll`: when some label fails, the contract names the error of some
  failing label, not necessarily the first. `LabelCodec.FirstMissingSymbol` pins down the
  error within one label.
- The JSON vocabulary file is a value `Option<Vocab>`. Its keys come back as the strings
  `"0"`, `"1"`, ..., so the `not make_dict.get(c)` test rejects absent symbols only, never
  class 0.
- Logging, timing, `tqdm` progress bars and `os.rename` itself are not modelled. A rename
  is the pair `(source, target)`.
- The Flask service, the template writers, the model catalogue (network layers, losses),
  `move_path`, `load_image`, image augmentation and the plotting helpers are not part of
  this model.

## Findings

| source | as written | input that shows it | evidently intended | confidence | as-written member | corrected member |
|---|---|---|---|---|---|---|
| New_work.py:1046-1059 | `cheak_path` returns `<base>_V1.0<ext>` as soon as the path exists, without checking that name; the `while True` loop and the `number` counter never get a second turn | `path` exists and so does its `_V1.0` name: the existing `_V1.0` file is returned, and the caller overwrites it | keep counting `_V1.0`, `_V2.0`, ... until a name is free | medium, not executed | Paths.AsWrittenMayCollide | Paths.CheckPath |
