# SEACrowd loaders: burapha_th, cub_bahasa, mswc

This project models the pure core of three SEACrowd dataset loaders in
Dafny and proves what each promises. The core is the layer under the
download glue: it takes inputs that have already been read and produces
`(key, record)` pairs.

- **burapha_th**: Thai handwriting images. Configs encode the subset
  (`character`, `digit`, `syllable`) in `subset_id`. A directory scan maps
  each label (the directory name up to its first `-`) to its image files.
  The generator numbers every image with a running counter and resolves the
  label to its index in a table of zero-padded codes.
- **cub_bahasa**: CUB-200-2011 birds with Indonesian captions. There is a
  200-entry class table. The caption file is flattened and grouped per
  image. Images, caption groups, class labels and split flags are joined
  by three inner joins, and the result is partitioned by `is_train`. The
  generator yields one record per image (source schema) or one record per
  caption (`seacrowd_imtext`).
- **mswc**: Multilingual Spoken Words. There is one config per supported
  schema. `_info` dispatches on the schema. The generator numbers the rows
  of several parquet files with one counter that does not reset between
  files.

Layout:

- `Common.dfy` (module `Common`) holds the shared pieces:
  - the Python behaviour the loaders rely on: `str(n)`, `str.zfill`,
    `str.split` on one character, `list.index`, POSIX `os.path.join`, and
    the final component of a path;
  - the `Result`/`Option` error model;
  - `Run`, a generator's outcome: the pairs it yielded, then the exception
    that ended it, if any.
- `Burapha.dfy`, `CubBahasa.dfy` and `Mswc.dfy` hold one module per loader.
- `CubBahasaInfo.dfy` (module `CubBahasaInfo`) holds the 200-entry class
  table of cub_bahasa, its builder configs and `_info`. It sits apart from
  the generator so that the long table stays out of the generator proofs.

Inputs that come from the outside world are parameters:

- directory listings, as a sequence of (directory name, file names) in
  listing order;
- the rows of `images.txt`, `image_class_labels.txt` and
  `train_test_split.txt`, and the items of the caption JSON;
- the rows of each parquet file.

A Python dict is a sequence of (key, value) pairs. Assigning to a key that
is already present keeps its position, as Python does.

## Model

| member | source | states |
|---|---|---|
| Common.NatToStringRoundTrip | seacrowd/sea_datasets/burapha_th/burapha_th.py:82-83 | reading back the decimal digits of `str(n)` gives `n` |
| Common.NatToStringInjective | seacrowd/sea_datasets/cub_bahasa/cub_bahasa.py:377 | distinct counters give distinct `str(key)` ids |
| Common.ZFill | seacrowd/sea_datasets/burapha_th/burapha_th.py:82-83 | `zfill` keeps a string at least as long as the width; otherwise it pads to exactly the width, with zeros in front of an unsigned digit string |
| Common.PaddedRoundTrip | seacrowd/sea_datasets/burapha_th/burapha_th.py:82-83 | a zero-padded code is all digits and reads back as its number |
| Common.PaddedLength | seacrowd/sea_datasets/burapha_th/burapha_th.py:82-83 | a number below 10^w padded to width w has exactly w characters |
| Common.IndexOf | seacrowd/sea_datasets/burapha_th/burapha_th.py:156 | `list.index`: a found position holds the value and no earlier position does; nothing is found exactly when the value is absent |
| Common.IndexOfDistinct | seacrowd/sea_datasets/burapha_th/burapha_th.py:156 | in a list without duplicates, `index` of entry i is i |
| Common.Split | seacrowd/sea_datasets/burapha_th/burapha_th.py:86 | `str.split` gives at least one piece, and no piece contains the separator |
| Common.JoinSplit | seacrowd/sea_datasets/burapha_th/burapha_th.py:86 | joining the pieces of a split with the separator gives back the string |
| Common.SplitJoin | seacrowd/sea_datasets/burapha_th/burapha_th.py:86 | splitting a join of separator-free pieces gives back the pieces |
| Common.SplitConcat | seacrowd/sea_datasets/burapha_th/burapha_th.py:86 | splitting `x + sep + y` gives the pieces of x followed by the pieces of y |
| Common.SplitHead | seacrowd/sea_datasets/burapha_th/burapha_th.py:121-129 | the first piece of a split is the prefix before the first separator |
| Common.PathJoin | seacrowd/sea_datasets/burapha_th/burapha_th.py:111-126 | `os.path.join(a, b)` ends with b, and is b itself when b is absolute |
| Common.Basename | seacrowd/sea_datasets/cub_bahasa/cub_bahasa.py:332 | a path's final component contains no `/` |
| Common.BasenameAfterSep | seacrowd/sea_datasets/cub_bahasa/cub_bahasa.py:332 | the final component of `a/b` is the final component of b, whatever a holds |
| Common.BasenamePathJoin | seacrowd/sea_datasets/cub_bahasa/cub_bahasa.py:306-332 | the final component of `join(a, b)` is that of b |
| Burapha.ConfigConstructor | seacrowd/sea_datasets/burapha_th/burapha_th.py:57-64 | the config carries the schema and version, and its name is `subset_id` + `_` + schema |
| Burapha.TaskOf | seacrowd/sea_datasets/burapha_th/burapha_th.py:86 | `subset_id.split("_")[2]` contains no `_`; it raises `IndexError` when there are fewer than three pieces |
| Burapha.ConfigTaskRoundTrip | seacrowd/sea_datasets/burapha_th/burapha_th.py:57-86 | the task parsed back from a constructed config is the subset exactly when the subset has no `_` |
| Burapha.ThirdPiece | seacrowd/sea_datasets/burapha_th/burapha_th.py:86 | after two `_`-free prefixes, the third piece is the first piece of the rest |
| Burapha.ConfigsForTasks | seacrowd/sea_datasets/burapha_th/burapha_th.py:77-78 | every config built from `_`-free subsets has the given schema and version and parses back to its subset |
| Burapha.BuilderConfigsShape | seacrowd/sea_datasets/burapha_th/burapha_th.py:54-78 | there are six configs: three source and three `seacrowd_imtext`, one per subset in order, with the right versions |
| Burapha.DefaultConfigDeclared | seacrowd/sea_datasets/burapha_th/burapha_th.py:80 | the default config name is one of the built configs |
| Burapha.PaddedTableIndex | seacrowd/sea_datasets/burapha_th/burapha_th.py:82-156 | entry i of a padded table has the table's width, reads back as i, and `index` finds it at i |
| Burapha.PaddedTableMembers | seacrowd/sea_datasets/burapha_th/burapha_th.py:82-83 | every member of a padded table is a digit string of the width whose value is below the count |
| Burapha.LabelTablesRoundTrip | seacrowd/sea_datasets/burapha_th/burapha_th.py:82-83 | `label_chr_dig` has 78 two-digit codes and `label_syl` has 320 three-digit codes; entry i reads as i and `index(table[i]) == i` |
| Burapha.Info | seacrowd/sea_datasets/burapha_th/burapha_th.py:85-102 | features exist exactly for the source and imtext schemas when the task parses; the label names are the 2-digit table for character/digit and the 3-digit table otherwise; any other schema raises `NotImplementedError` |
| Burapha.BuilderConfigsInfo | seacrowd/sea_datasets/burapha_th/burapha_th.py:77-102 | every built config has features with its subset's table: 78 names for character and digit, 320 for syllable |
| Burapha.GetFinds | seacrowd/sea_datasets/burapha_th/burapha_th.py:129 | a dict lookup misses exactly when no entry has the key, and a hit is an entry's value |
| Burapha.SetGet | seacrowd/sea_datasets/burapha_th/burapha_th.py:129 | after `d[k] = v`, k maps to v and every other key is unchanged |
| Burapha.SetShape | seacrowd/sea_datasets/burapha_th/burapha_th.py:129 | assignment keeps every existing key in its position, grows the dict only for a new key, and keeps keys distinct |
| Burapha.SetLength | seacrowd/sea_datasets/burapha_th/burapha_th.py:129 | assignment grows the dict by one exactly when the key is new |
| Burapha.SetKeepsKeys | seacrowd/sea_datasets/burapha_th/burapha_th.py:129 | assignment leaves every existing key at its position |
| Burapha.SetAppends | seacrowd/sea_datasets/burapha_th/burapha_th.py:129 | assigning a new key appends it at the end |
| Burapha.DirLabelIsPrefix | seacrowd/sea_datasets/burapha_th/burapha_th.py:121-129 | a directory's label is the `-`-free prefix of its name, followed by `-` if anything remains |
| Burapha.AssignKeys | seacrowd/sea_datasets/burapha_th/burapha_th.py:121-129 | after the scan's assignments, a key is present exactly when some assignment used it |
| Burapha.AssignLast | seacrowd/sea_datasets/burapha_th/burapha_th.py:121-129 | a present key holds the value of its last assignment |
| Burapha.AssignDistinct | seacrowd/sea_datasets/burapha_th/burapha_th.py:119-129 | the scanned dict has distinct keys |
| Burapha.ScanContents | seacrowd/sea_datasets/burapha_th/burapha_th.py:119-129 | a label is in the scan exactly when some directory has it, and it maps to the file paths of the last such directory |
| Burapha.Scan | seacrowd/sea_datasets/burapha_th/burapha_th.py:119-129 | the scanned map has distinct keys and at most one entry per listed directory |
| Burapha.FilePathsUnderRoot | seacrowd/sea_datasets/burapha_th/burapha_th.py:125-126 | every listed path starts with the scanned root and ends with its file name |
| Burapha.SplitGenerators | seacrowd/sea_datasets/burapha_th/burapha_th.py:107-146 | for a known task there are two generators, train then test; a task missing from the URL table raises `KeyError`; a subset id with no task component raises `IndexError` |
| Burapha.TestSplitIsTrainScan | seacrowd/sea_datasets/burapha_th/burapha_th.py:119-146 | the test split gets the very map scanned from the train directory, and the test root and listing do not affect the result |
| Burapha.TestSplitCounterexample | seacrowd/sea_datasets/burapha_th/burapha_th.py:119-146 | for a config of the digit subset, with train label 00 and test label 01, the test split as written offers 00 and not 01, while scanning the test directory offers 01 and not 00 |
| Burapha.SplitGeneratorsScanningTest | seacrowd/sea_datasets/burapha_th/burapha_th.py:107-146 | the corrected split list has the same shape and errors as the original |
| Burapha.TestSplitFromTestListing | seacrowd/sea_datasets/burapha_th/burapha_th.py:111-146 | in the corrected list, the test labels are exactly those of the test listing, every path lies under the test directory, and the train listing does not affect it |
| Burapha.ItemsCount | seacrowd/sea_datasets/burapha_th/burapha_th.py:153-154 | flattening the label-to-files map gives one item per file |
| Burapha.Generate | seacrowd/sea_datasets/burapha_th/burapha_th.py:151-167 | record j has key `counter + j` and id `str(key)`; it carries the bare path (source) or a one-path list with no text or context (imtext); its one label is the first position of its key in the table, as `list.index` finds it; an unknown schema yields nothing |
| Burapha.GenerateExamples | seacrowd/sea_datasets/burapha_th/burapha_th.py:148-167 | a subset id with no task component raises `IndexError` before any record; otherwise record j has key j and describes file j of the map, and there are never more records than files |
| Burapha.GenerateCompletes | seacrowd/sea_datasets/burapha_th/burapha_th.py:153-167 | the run ends without an error exactly when every key is in the table, and then it yields one record per image |
| Burapha.GenerateFailsAt | seacrowd/sea_datasets/burapha_th/burapha_th.py:153-167 | a failing run stops with `ValueError` at the first image whose key is missing from the table |
| Burapha.GenerateExamplesNumbering | seacrowd/sea_datasets/burapha_th/burapha_th.py:148-167 | a complete run yields one record per file of the map, keyed 0, 1, 2, ... in map order |
| Burapha.GenerateExamplesFailure | seacrowd/sea_datasets/burapha_th/burapha_th.py:153-167 | the run raises exactly when some label of the map is not in the subset's table |
| Burapha.GenerateExamplesUnknownSchema | seacrowd/sea_datasets/burapha_th/burapha_th.py:85-167 | an unknown schema yields nothing, and `_info` raises `NotImplementedError` for it |
| CubBahasaInfo.ImageClass | seacrowd/sea_datasets/cub_bahasa/cub_bahasa.py:52-253 | `IMAGE_CLASS` has exactly the keys 1..200, and k maps to k padded to three digits, a dot and its species |
| CubBahasa.ClassNamePrefix | seacrowd/sea_datasets/cub_bahasa/cub_bahasa.py:52-253 | a class name starts with three digits that read back as its key, followed by `.` |
| CubBahasa.ClassNamesDiffer | seacrowd/sea_datasets/cub_bahasa/cub_bahasa.py:52-253 | distinct keys have distinct class names |
| CubBahasa.NamesOfIndex | seacrowd/sea_datasets/cub_bahasa/cub_bahasa.py:291 | for fewer than 1000 classes, `index` finds the name of class k at position k - 1 of the name list |
| CubBahasaInfo.ClassNamesIndex | seacrowd/sea_datasets/cub_bahasa/cub_bahasa.py:291 | in the label-name list, class k sits at position k - 1, and `index` finds it there |
| CubBahasaInfo.Info | seacrowd/sea_datasets/cub_bahasa/cub_bahasa.py:274-299 | features exist exactly for the source and imtext schemas: the source features for source, and for imtext the image-text features labelled with the 200 class names; any other schema reads `features` unbound |
| CubBahasaInfo.BuilderConfigsInfo | seacrowd/sea_datasets/cub_bahasa/cub_bahasa.py:255-272 | there are two configs, source first and default, and both have features |
| CubBahasa.FlattenTextAt | seacrowd/sea_datasets/cub_bahasa/cub_bahasa.py:318-324 | `df_text` has one row per caption, and caption c of item i is the row after all captions of earlier items |
| CubBahasa.FlattenTextRows | seacrowd/sea_datasets/cub_bahasa/cub_bahasa.py:318-324 | every row of `df_text` is some caption of some item |
| CubBahasa.Group | seacrowd/sea_datasets/cub_bahasa/cub_bahasa.py:325 | a group's English and Indonesian caption lists have equal length |
| CubBahasa.NamesSpec | seacrowd/sea_datasets/cub_bahasa/cub_bahasa.py:325 | the group keys are exactly the image names of the rows, each once |
| CubBahasa.GroupCaptionsSpec | seacrowd/sea_datasets/cub_bahasa/cub_bahasa.py:325 | every group holds all rows of its image; every image name has a group; group names are distinct |
| CubBahasa.GroupRecoversCaptions | seacrowd/sea_datasets/cub_bahasa/cub_bahasa.py:318-325 | when file names are unique, an image's group lists that item's English and Indonesian captions in caption order |
| CubBahasa.CaptionedNames | seacrowd/sea_datasets/cub_bahasa/cub_bahasa.py:318-325 | an image name has a group exactly when an item names it and has at least one caption |
| CubBahasa.InnerJoinMembers | seacrowd/sea_datasets/cub_bahasa/cub_bahasa.py:333-337 | an inner join holds exactly the combinations of a left row and a right row with equal keys |
| CubBahasa.InnerJoinAppend | seacrowd/sea_datasets/cub_bahasa/cub_bahasa.py:332-337 | joining a concatenation of left tables joins each part in turn: the join goes left row by left row |
| CubBahasa.JoinSingle | seacrowd/sea_datasets/cub_bahasa/cub_bahasa.py:332-337 | against distinct right keys, one left row joins to exactly its partner's row, or to nothing when it has none |
| CubBahasa.InnerJoinOneToOne | seacrowd/sea_datasets/cub_bahasa/cub_bahasa.py:333-337 | against distinct right keys, a join in which every left row has a partner keeps the left rows one for one, in order |
| CubBahasa.ImagePathName | seacrowd/sea_datasets/cub_bahasa/cub_bahasa.py:306-332 | the image name taken from the full path is the final component of the listed path |
| CubBahasa.MergeCaptionsMembers | seacrowd/sea_datasets/cub_bahasa/cub_bahasa.py:332-334 | the caption merge keeps exactly the images whose file name has a caption group, each with that group |
| CubBahasa.MergeLabelsMembers | seacrowd/sea_datasets/cub_bahasa/cub_bahasa.py:336 | every row of the label merge is a row of the frame with a label line of its image id, taking that line's class, and every such combination is in the merge |
| CubBahasa.MergeSplitsMembers | seacrowd/sea_datasets/cub_bahasa/cub_bahasa.py:337 | every row of the split merge is a row of the frame with a split line of its image id, taking that line's flag, and every such combination is in the merge |
| CubBahasa.MergedMembers | seacrowd/sea_datasets/cub_bahasa/cub_bahasa.py:306-337 | every merged row is built from an image, a label line and a split line that share an image id, where the image's file name has captions; every such combination is in the merged frame; no other image appears |
| CubBahasa.Merged | seacrowd/sea_datasets/cub_bahasa/cub_bahasa.py:306-337 | with distinct image ids in the label and split files, the merged frame has one row per image that has captions, a label line and a split line |
| CubBahasa.MergedFromAppend | seacrowd/sea_datasets/cub_bahasa/cub_bahasa.py:332-337 | the three merges treat the images one at a time, in order |
| CubBahasa.CaptionStageOne | seacrowd/sea_datasets/cub_bahasa/cub_bahasa.py:332-334 | the caption merge of one image is its captioned row when its file name has captions, and nothing otherwise |
| CubBahasa.LabelStageOne | seacrowd/sea_datasets/cub_bahasa/cub_bahasa.py:336 | against distinct label ids, one row's label merge is that row with its label line's class, or nothing without a label line |
| CubBahasa.SplitStageOne | seacrowd/sea_datasets/cub_bahasa/cub_bahasa.py:337 | against distinct split ids, one row's split merge is that row with its split line's flag, or nothing without a split line |
| CubBahasa.MergedOne | seacrowd/sea_datasets/cub_bahasa/cub_bahasa.py:332-337 | one image gives its merged row when it has captions, a label line and a split line, and nothing otherwise |
| CubBahasa.MergedFromCount | seacrowd/sea_datasets/cub_bahasa/cub_bahasa.py:332-337 | with distinct label and split ids, the merges give one row per surviving image, in image order |
| CubBahasa.MergedCount | seacrowd/sea_datasets/cub_bahasa/cub_bahasa.py:306-337 | with distinct image ids in the label and split files, the merged frame holds exactly one row per image that has captions, a label line and a split line, in the order of `images.txt`; row k carries the k-th such image's caption group, class and train flag |
| CubBahasa.MergedFrame | seacrowd/sea_datasets/cub_bahasa/cub_bahasa.py:317-337 | the merge fails with `KeyError` exactly when the caption file has no caption at all, since `df_text` then has no `image_name` column to group by; otherwise it gives the merged frame |
| CubBahasa.CaptionCountZero | seacrowd/sea_datasets/cub_bahasa/cub_bahasa.py:317-324 | the caption file has no caption exactly when every item's caption list is empty |
| CubBahasa.MergedFrameFails | seacrowd/sea_datasets/cub_bahasa/cub_bahasa.py:317-337 | the merge raises `KeyError` exactly when no item of the caption file has a caption |
| CubBahasa.MergedCaptionsAligned | seacrowd/sea_datasets/cub_bahasa/cub_bahasa.py:325-333 | every merged row has as many English as Indonesian captions |
| CubBahasa.SelectSpec | seacrowd/sea_datasets/cub_bahasa/cub_bahasa.py:339-354 | a filter keeps exactly the rows with the flag, labelled by their frame positions, in increasing order |
| CubBahasa.PartitionDisjoint | seacrowd/sea_datasets/cub_bahasa/cub_bahasa.py:339-354 | no row is in both train and test, and a row flagged neither 0 nor 1 is in neither |
| CubBahasa.SplitGenerators | seacrowd/sea_datasets/cub_bahasa/cub_bahasa.py:339-354 | there are two generators, train then test |
| CubBahasa.SplitGeneratorsCover | seacrowd/sea_datasets/cub_bahasa/cub_bahasa.py:339-354 | train holds exactly the rows flagged 1 and test exactly those flagged 0, each under its frame position |
| CubBahasa.Lookup | seacrowd/sea_datasets/cub_bahasa/cub_bahasa.py:363 | a class lookup succeeds exactly for keys 1..n of the table and gives entry k - 1 |
| CubBahasaInfo.LookupClassNames | seacrowd/sea_datasets/cub_bahasa/cub_bahasa.py:52-291 | looking a key up in the label-name list agrees with `IMAGE_CLASS` |
| CubBahasa.GenSource | seacrowd/sea_datasets/cub_bahasa/cub_bahasa.py:357-371 | the source branch yields at most one record per row, in row order, each a source record keyed by its row's index label, and can raise only `KeyError` or `IndexError` |
| CubBahasa.GenSourceSpec | seacrowd/sea_datasets/cub_bahasa/cub_bahasa.py:357-371 | the source branch yields one record per row under the row's index label; `class_name` is the class of `class_id`; caption i pairs `en_caption[i]` with `id_caption[i]`; it stops at the first bad row with `KeyError` (unknown class) or `IndexError` (short Indonesian list) |
| CubBahasa.SourceKeysArePositions | seacrowd/sea_datasets/cub_bahasa/cub_bahasa.py:339-371 | source keys are frame positions, strictly increasing and not renumbered, so a split that does not start at the first row starts above 0 |
| CubBahasa.RowRecordsSpec | seacrowd/sea_datasets/cub_bahasa/cub_bahasa.py:375-386 | a row yields one record per Indonesian caption with consecutive keys; each record holds the row's path, the Indonesian text, the English context at the same index and the class name; otherwise it stops with `IndexError` or `KeyError` as the first bad caption dictates |
| CubBahasa.RowRecordsErrors | seacrowd/sea_datasets/cub_bahasa/cub_bahasa.py:375-386 | one row's records can stop only with `KeyError` or `IndexError` |
| CubBahasa.GenImText | seacrowd/sea_datasets/cub_bahasa/cub_bahasa.py:373-386 | the imtext branch can raise only `KeyError` (unknown class) or `IndexError` (short English list) |
| CubBahasa.GenImTextKeys | seacrowd/sea_datasets/cub_bahasa/cub_bahasa.py:373-386 | imtext keys run from the start value without gaps across rows, id = `str(key)`, and a complete run has as many records as Indonesian captions |
| CubBahasa.GenImTextFanOut | seacrowd/sea_datasets/cub_bahasa/cub_bahasa.py:374-386 | caption c of the k-th row becomes the record after those of the earlier rows |
| CubBahasa.GenImTextHead | seacrowd/sea_datasets/cub_bahasa/cub_bahasa.py:374-386 | the first row's captions are the first records |
| CubBahasa.GenImTextTail | seacrowd/sea_datasets/cub_bahasa/cub_bahasa.py:374-386 | after the first row, the run continues over the remaining rows with the counter where the first row left it |
| CubBahasa.GenImTextCompletes | seacrowd/sea_datasets/cub_bahasa/cub_bahasa.py:374-386 | rows with known classes and aligned caption lists never raise |
| CubBahasa.UnifiedIdsDistinct | seacrowd/sea_datasets/cub_bahasa/cub_bahasa.py:373-386 | imtext ids within a split are pairwise distinct |
| CubBahasa.Generate | seacrowd/sea_datasets/cub_bahasa/cub_bahasa.py:356-386 | a schema other than source and imtext yields nothing and raises nothing |
| CubBahasa.GenerateOverSplit | seacrowd/sea_datasets/cub_bahasa/cub_bahasa.py:332-386 | over either split of the merged frame, with every class id in the table, both branches complete: one record per row (source), one per Indonesian caption (imtext) |
| CubBahasa.SplitRowsReady | seacrowd/sea_datasets/cub_bahasa/cub_bahasa.py:332-354 | every row of either split has a known class and aligned caption lists |
| Mswc.Lower | seacrowd/sea_datasets/mswc/mswc.py:81 | lower-casing keeps the length, maps A-Z to a-z and leaves every other character |
| Mswc.SupportedSchemaStrings | seacrowd/sea_datasets/mswc/mswc.py:81 | one schema string per supported task, each `seacrowd_` + the lower-cased schema name |
| Mswc.SupportedSchemaStringsValue | seacrowd/sea_datasets/mswc/mswc.py:80-81 | the only supported schema string is `seacrowd_sptext` |
| Mswc.SchemaConfig | seacrowd/sea_datasets/mswc/mswc.py:106-114 | a schema string's config is named `mswc_` + the string and carries it as its schema |
| Mswc.ConfigsForShape | seacrowd/sea_datasets/mswc/mswc.py:94-118 | the configs are `mswc_source` first, then one per schema string in order, with the right names, schemas and versions |
| Mswc.Info | seacrowd/sea_datasets/mswc/mswc.py:122-149 | features exist exactly for the source and speech-recognition schemas, the source features for the one and the speech-text features for the other; any other schema raises `ValueError("Invalid config: " + name)` |
| Mswc.InfoAcceptsBuiltSchemas | seacrowd/sea_datasets/mswc/mswc.py:80-141 | `_info` accepts exactly `source` and the supported schema strings |
| Mswc.BuilderConfigsInfo | seacrowd/sea_datasets/mswc/mswc.py:94-141 | there are two configs, and both have features |
| Mswc.SplitGeneratorsAsWritten | seacrowd/sea_datasets/mswc/mswc.py:151-170 | the result has three elements, and each is a one-element list holding the generator for train, validation or test |
| Mswc.SplitGenerators | seacrowd/sea_datasets/mswc/mswc.py:151-170 | the corrected list has one generator per split, in the order train, validation, test, each with its split's paths |
| Mswc.SplitGeneratorsNested | seacrowd/sea_datasets/mswc/mswc.py:162-170 | flattening the list as written gives the corrected list |
| Mswc.Emit | seacrowd/sea_datasets/mswc/mswc.py:181-199 | record j is keyed by the start value plus j: the counter never skips or repeats |
| Mswc.EmitSpec | seacrowd/sea_datasets/mswc/mswc.py:175-199 | the records are the concatenated rows, unchanged, keyed from the start value without gaps; their number is the total row count |
| Mswc.EmitFileRow | seacrowd/sea_datasets/mswc/mswc.py:181-199 | row r of file f is keyed by the number of rows in earlier files plus r: the counter never resets between files |
| Mswc.EmitFile | seacrowd/sea_datasets/mswc/mswc.py:184-186 | the row loop yields `(idx + j, row j)` for each row and leaves the counter advanced by the row count |
| Mswc.EmitLoop | seacrowd/sea_datasets/mswc/mswc.py:175-199 | the nested loops yield exactly the reference records, the keys are 0, 1, 2, ..., and the final counter is the total row count |
| Mswc.GenerateExamples | seacrowd/sea_datasets/mswc/mswc.py:172-203 | a schema other than source and the supported ones yields nothing and raises `ValueError("Invalid config: " + name)` |
| Mswc.GenerateExamplesNumbering | seacrowd/sea_datasets/mswc/mswc.py:175-199 | under an accepted schema the run completes with one record per row, record j = (j, row j of the concatenation) |
| Mswc.GenerateBranchesAgree | seacrowd/sea_datasets/mswc/mswc.py:180-199 | the supported-schema branch yields exactly what the source branch yields |
| Mswc.GenerateExamplesAgreesWithInfo | seacrowd/sea_datasets/mswc/mswc.py:122-203 | the generator raises exactly for the schemas `_info` rejects, and with the same error |

## Left out

- Downloading and extracting archives, URL tables and network access are left out. Resolved paths are opaque strings.
- `os.listdir` is not modelled: the listing is an input in the order the file system returns it.
- Reading `images.txt`, the label and split tables, the caption JSON and the parquet files (`pd.read_csv`, `json.load`, `pd.read_parquet`) is left out. Their results are sequences of rows. Malformed files and missing columns are not modelled.
- `datasets.Features`, `DatasetInfo`, `schemas.image_text_features` and `speech_text_features` are library types. They appear as tags (`Features`), and their field layouts are not modelled.
- Image and audio contents, citation, description and licence constants, and the `__main__` block of mswc.py are left out.
- `TASK_TO_SCHEMA` lives in `seacrowd/utils/constants.py`, which is not part of this model. Speech recognition is taken to map to `SPTEXT`.
- Mswc.Lower: lower-cases ASCII letters only. That covers the schema names, but not the Unicode case rules of `str.lower`.
- Common.PathJoin: follows POSIX `os.path.join`. It leaves out `pathlib` normalisation: repeated or trailing `/` and `.` components are not collapsed.
- Common.Basename: an empty final component (a path ending in `/`) stays empty. `pathlib` would take the component before it.
- pandas is modelled only by its documented semantics, not its internals:
  - `merge` is an inner join that keeps left-key order;
  - a boolean filter keeps the original index labels;
  - `groupby(...).agg(list)` makes one group per name holding that name's rows in order.
- `groupby` sorts its groups by name, but the model keeps groups in first-appearance order. The group order is not observable: every join keeps the order of its left side, and the group names are distinct.
- Column types and missing values are not modelled. Image ids, class ids and `is_train` are integers, and NaN is not modelled.
- Mswc.GenerateExamples: a row is an opaque value yielded unchanged. What `row.to_dict()` contains is not modelled.
- CubBahasa.Generate: takes the class table as a parameter. `CubBahasaInfo.LookupClassNames` shows that the label-name list agrees with `IMAGE_CLASS`, which is the table the loader uses.
- Burapha.Generate: the `ValueError` message is written as `'key' is not in list`. Python quotes the key with `repr`, which differs for keys holding quotes or backslashes; the directory labels the loader reads hold neither.
- Burapha.GenerateExamples: an unknown schema advances the counter but yields nothing, so the model yields nothing. `_info` raises before this can happen.
- The `split` argument of the generators is unused in the source, and so it is in the model.

## Findings

| source | as written | input that shows it | evidently intended | confidence | as-written member | corrected member |
|---|---|---|---|---|---|---|
| seacrowd/sea_datasets/burapha_th/burapha_th.py:119-146 | only `train_path` is scanned, and the same `data_pair` map is passed to both the train and the test generator; `test_path` is computed but never read | a train directory `00-a` and a test directory `01-b`: the test split offers label `00` and never `01` | the test generator gets a map scanned from `test_path` | not executed | Burapha.TestSplitIsTrainScan, Burapha.TestSplitCounterexample | Burapha.SplitGeneratorsScanningTest, Burapha.TestSplitFromTestListing |
| seacrowd/sea_datasets/mswc/mswc.py:162-170 | each `SplitGenerator` is appended wrapped in a one-element list, so `_split_generators` returns a list of lists | any three path lists: element 0 of the result is `[SplitGenerator("train", ...)]`, a list, not a generator | a flat list of three split generators | not executed | Mswc.SplitGeneratorsAsWritten | Mswc.SplitGenerators, Mswc.SplitGeneratorsNested |
