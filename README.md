# Twinkle Eval report viewer: a Dafny model

This project models `script.js`, the browser-side core of eval-analyzer. The viewer loads Twinkle Eval result files (`.json` or `.jsonl`) and does the following:

- It extracts one record per evaluated file: the dataset, the category, the file name, the mean accuracy and the source label `model @ timestamp`. Per-dataset average accuracies go into a metadata map.
- It merges the records of a batch of files into the global state, and lists the datasets in a dataset selector.
- For the chosen dataset, it optionally normalises accuracies to 0–100 and averages them per category. It sorts the categories by average (descending or ascending) or by name, and cuts them into pages of `pageSize` categories.
- For each page it lays out a bar chart, builds a table and offers a CSV download.

The modules follow the program's stages:

- `Text`: `trim`, `split`, `join`, the default string order of `sort()` and decimal text.
- `JsonValue`: JSON values as `JSON.parse` yields them, JavaScript truthiness, and property reads.
- `DocParser`: `parseTwinkleDoc` and `validateTwinkleDoc`.
- `Extractor`: `extractRecords`, both as a function and as the looping method.
- `Seqs` and `Sorting`: `new Set` order, sums and means, and the stable sort `Array.prototype.sort` performs.
- `Aggregation`: the dataset filter, the display values, the grouping by category, the category averages and their ordering, and the record look-up `data.find`.
- `Pagination`: the page loop of `renderCurrentDataset`.
- `Layout`: the chart geometry of `createChart`.
- `Export`: the table of `createDataTable`, and the CSV and file name of `downloadPageCSV`.
- `Viewer`: the global state (`allData`, `metaData`, `currentDataset`) as the class `Corpus`. It covers `processFiles`, `processFile`, `populateDatasetSelector`, `handleDatasetChange` and `renderCurrentDataset`.

Host functions the viewer calls are parameters of the model:

- `JSON.parse`: `parse: string -> Option<Json>`. `None` means it throws.
- Number-to-text conversion inside template strings: `numStr`.
- `parseFloat` of a value that is not a number: `numOf`.
- `Number.prototype.toFixed`: `fixed`.
- `String.prototype.localeCompare(...) < 0`: `localeLess`, assumed to be a strict weak order wherever ordering is proved.

Accuracies are exact reals, so sums, means, the ×100 scaling and `Math.ceil(max / 0.05)` are exact.

## Model

| member | source | states |
|---|---|---|
| Text.Trim | script.js:134 | the result is the text with a leading and a trailing run of white space removed: it starts and ends with a non-space character, and it is empty exactly when the text is all white space |
| Text.TrimStart | script.js:144 | drops a leading run of white space and nothing more; what is left does not start with white space |
| Text.TrimEnd | script.js:144 | drops a trailing run of white space and nothing more; what is left does not end with white space |
| Text.Split | script.js:142 | splitting yields at least one piece, and no piece contains the separator |
| Text.JoinSplit | script.js:142 | joining the pieces of a split with the same separator gives the text back |
| Text.SplitJoin | script.js:675 | splitting a join of separator-free pieces gives the pieces back |
| Text.JoinAvoids | script.js:672 | a character that is not the separator and is in no piece is not in the join |
| Text.BeforeFirst | script.js:182 | the longest prefix that contains no occurrence of the separator, followed by the separator or the end of the text |
| Text.LexLessTransitive | script.js:234 | the default string order of `sort()` is transitive |
| Text.LexLessTotal | script.js:234 | two different strings are ordered one way or the other |
| Text.LexLessAsymmetric | script.js:234 | the default string order is asymmetric |
| Text.LexLessIrreflexive | script.js:234 | no string sorts before itself |
| Text.NatToString | script.js:680 | the decimal text of a page bound is non-empty, made of digits, has no leading zero, and its decimal value is the number |
| Text.BeforeFirstShort | script.js:182 | a text shorter than the separator is kept whole |
| JsonValue.Lookup | script.js:163 | a property is found exactly when the object has a member with that key, and what is found is the value of the last member with that key |
| JsonValue.ParseFloat | script.js:208 | `parseFloat` of a number is that number |
| JsonValue.Entries | script.js:178 | `Object.entries` of an object is its members in order; of a number, boolean or null it is empty |
| DocParser.Validate | script.js:158-168 | accepts exactly objects with truthy `timestamp`, `config` and `dataset_results` and returns them unchanged; a non-object is rejected as such, and an object that lacks a field is rejected for missing fields |
| DocParser.DropComma | script.js:144 | after trimming, a JSONL line loses its trailing comma if it has one, and is otherwise unchanged |
| DocParser.CleanStripsOneComma | script.js:144 | `",,"` keeps one comma |
| DocParser.CleanLoneComma | script.js:144-145 | a line holding only a comma is blank after cleaning, so it is skipped |
| DocParser.FirstLine | script.js:143-153 | the index of the first line with a candidate (`ParseDoc` passes `LineCandidates`: cleaned, non-blank, parses and validates); no earlier line has one |
| DocParser.ParseDoc | script.js:133-156 | whole-text JSON wins when it parses and validates; otherwise the first valid JSONL line; otherwise the not-JSON error. Any result validates |
| Extractor.TrimSlashes | script.js:182 | the result is the text with a leading and a trailing run of `/` removed; it neither starts nor ends with `/`, and a slash-free name is unchanged |
| Extractor.DatasetName | script.js:181-188 | never empty; a path outside `datasets/` is kept; the empty path becomes `default_dataset`; under `datasets/` it is the text up to the next `datasets/` with its slashes trimmed, or the whole path when that is empty |
| Extractor.DatasetNameExamples | script.js:181-188 | `datasets/mmlu/` → `mmlu`; `""` → `default_dataset`; `datasets//` stays `datasets//` |
| Extractor.DatasetNameMmlu | script.js:181-188 | `datasets/mmlu/` → `mmlu` |
| Extractor.DatasetNameSlashes | script.js:181-188 | `datasets//` stays `datasets//`, because trimming leaves nothing |
| Extractor.SourceLabelUnknownModel | script.js:171-173 | a falsy model name is written `<unknown>` at the start of the label |
| Extractor.SourceLabelModel | script.js:171-173 | a non-empty string model name starts the label, followed by ` @ ` |
| Extractor.SourceLabelTimestamp | script.js:172-173 | a non-empty string timestamp ends the label, after ` @ ` |
| Extractor.ResultsOf | script.js:191 | a string `results` is iterated over its characters only when it is non-empty |
| Extractor.SplitFirstIsPrefix | script.js:202 | the first piece of a split begins the text; it is the whole text when there is one piece, and is followed by the separator otherwise |
| Extractor.LastSegmentIsSuffix | script.js:201 | the last piece of a split ends the text |
| Extractor.LastSegmentAfterSeparator | script.js:201 | the last piece is the whole text when there is one piece, and follows a separator otherwise |
| Extractor.FileName | script.js:201 | the last path segment: slash-free, a suffix of the path, and either the whole path or preceded by `/` |
| Extractor.Category | script.js:202 | the file name up to its first dot: dot-free, a prefix of the file name, and either the whole name or followed by `.` |
| Extractor.ItemRecord | script.js:194-210 | an entry is skipped exactly when it is not an object or lacks `file` or `accuracy_mean`; it throws exactly when its `file` is not a string; otherwise its record carries the dataset, the label and the parsed accuracy, its file is the path's last segment and its category is that file's text before the first dot |
| Extractor.ItemsFromFails | script.js:193-211 | the item loop throws exactly when some qualifying entry has a non-string `file` |
| Extractor.EmittedRecordOf | script.js:201-210 | every record the result entries emit is well-formed for its dataset and source label |
| Extractor.EmittedCount | script.js:193-211 | without a non-string `file`, the result entries emit one record per qualifying entry |
| Extractor.ItemsFromStep | script.js:193-211 | one turn of the item loop skips an entry that does not qualify, pushes the record of one that does, and throws on a non-string `file` |
| Extractor.ItemsFromRecords | script.js:193-211 | the item loop appends exactly the records the result entries emit, in order |
| Extractor.ItemsFromAppends | script.js:193-211 | the item loop keeps the earlier records and appends exactly the emitted records: one well-formed record per qualifying entry, in order |
| Extractor.AccuracyValues | script.js:215-218 | the parsed accuracies are non-empty exactly when some entry has an `accuracy_mean` |
| Extractor.FallbackValues | script.js:215-218 | fails exactly when `results` holds a `null`; otherwise it is the parsed `accuracy_mean` of every entry that has one, in order |
| Extractor.FallbackAverage | script.js:214-223 | fails exactly when `results` holds a `null`; otherwise it yields an average exactly when some entry has an accuracy, and that average is the mean of the parsed accuracies |
| Extractor.EntryStepData | script.js:193-211 | one dataset appends exactly the records its result entries emit |
| Extractor.EntryStepShape | script.js:178-228 | one dataset appends one well-formed record per qualifying entry and keeps the earlier ones |
| Extractor.ExtractFromData | script.js:178-228 | the dataset loop appends exactly the records of its entries, entry after entry |
| Extractor.ExtractFromUnfold | script.js:178-228 | after a first entry that does not throw, the loop goes on from the state that entry leaves |
| Extractor.ExtractFromShape | script.js:178-228 | the dataset loop appends, in order, one well-formed record per qualifying entry |
| Extractor.ExtractedRecords | script.js:170-231 | a successful extraction yields exactly the records of its entries, in entry order: one per qualifying entry, each well-formed and carrying the document's source label |
| Extractor.ContributesIff | script.js:213-227 | an entry contributes an average for a dataset exactly when it is an object of that dataset with an explicit or a fallback average |
| Extractor.EntryStepMetaValue | script.js:213-227 | one dataset sets its metadata to its explicit average, or else to the mean of its results' accuracies when there are any, overwriting an earlier value; otherwise the metadata is unchanged |
| Extractor.EntryStepMeta | script.js:213-227 | one dataset adds a metadata key exactly when it has `average_accuracy` or some result with an accuracy |
| Extractor.ExtractFromMeta | script.js:213-227 | across the loop, a dataset has metadata exactly when some entry for it contributes an average |
| Extractor.ExtractFromKeeps | script.js:213-227 | a dataset's earlier metadata survives the loop when no entry contributes an average for it |
| Extractor.ExtractFromLastFirst | script.js:213-227 | when the first entry is the last one to contribute for a dataset, its average is the one kept |
| Extractor.ExtractFromLast | script.js:213-227 | a dataset's metadata is the average of the last entry that contributes one |
| Extractor.ExtractedMeta | script.js:213-227 | a dataset has metadata exactly when some entry for it contributes an average, and the value is the average of the last such entry |
| Extractor.EntryStepFails | script.js:178-227 | one dataset throws exactly when its payload is an object whose `results` is truthy but not iterable, or a non-empty string without `average_accuracy`, or an array with a qualifying entry whose `file` is not a string, or an array holding `null` without `average_accuracy` |
| Extractor.ExtractFromFails | script.js:178-228 | the dataset loop throws exactly when one of its entries throws, whatever the earlier entries left |
| Extractor.ExtractedFails | script.js:170-231 | extraction throws exactly when some `dataset_results` entry throws |
| Extractor.FallbackValuesExample | script.js:215-218 | accuracies 0.8 and 0.6 are collected in order |
| Extractor.MeanExample | script.js:221 | the mean of 0.8 and 0.6 is 0.7 |
| Extractor.FallbackAverageExample | script.js:214-223 | a missing `average_accuracy` falls back to the mean of the entries' accuracies |
| Extractor.NoFileNoRecords | script.js:196-199 | entries without `file` give no record |
| Extractor.EntriesWithoutFileCountTowardsAverage | script.js:196-222 | entries without `file` give no record but still count towards the fallback average |
| Extractor.NullEntryExample | script.js:194-216 | a `null` result entry is skipped by the item loop but makes the fallback average throw; it does not throw when `average_accuracy` is given |
| Extractor.ExtractRecords | script.js:170-231 | the nested loops compute exactly the extraction function, errors included |
| Seqs.Pos | script.js:361 | the first index holding the value, which orders `new Set` |
| Seqs.PosInPrefix | script.js:361 | the first index is the same in any prefix that holds the value |
| Seqs.Distinct | script.js:234 | `[...new Set(s)]`: duplicate-free, and it holds exactly the values of `s` |
| Seqs.DistinctFirstSeenOrder | script.js:361 | distinct values come in order of first appearance |
| Seqs.SumBounds | script.js:283 | a sum of n values between lo and hi lies between n·lo and n·hi |
| Seqs.MeanBounds | script.js:283 | a category average lies between the smallest and the largest value |
| Seqs.NoDupCount | script.js:234 | a duplicate-free sequence holds each value at most once |
| Seqs.NoDupPermutation | script.js:234 | a permutation of a duplicate-free sequence is duplicate-free |
| Sorting.InsertPoint | script.js:287-293 | the insertion point of an element comes after everything strictly before it and before the first element that is not |
| Sorting.InsertPermutes | script.js:287-293 | inserting adds exactly the inserted element |
| Sorting.SortPermutes | script.js:287-293 | sorting yields a permutation of the input |
| Sorting.InsertSorted | script.js:287-293 | inserting into a sorted sequence keeps it sorted |
| Sorting.SortSorts | script.js:287-293 | with a strict weak order, no element of the result sorts strictly before one to its left |
| Sorting.SortKeeps | script.js:287-293 | sorting keeps exactly the same elements |
| Sorting.SortDistinct | script.js:234 | sorting a duplicate-free sequence gives the same elements, each once |
| Sorting.SortStable | script.js:287-293 | tied elements keep their input order (the sort is stable) |
| Sorting.MapSeq | script.js:295 | element-wise map: the same length, with each element mapped |
| Sorting.SortMap | script.js:287-295 | sorting after an order-preserving map equals mapping after sorting |
| Aggregation.OfDataset | script.js:259 | the filter keeps exactly the records of the chosen dataset |
| Aggregation.OfDatasetAppend | script.js:259 | filtering a concatenation filters each part, so order and repeats are kept |
| Aggregation.OfDatasetOne | script.js:259 | a single record is kept exactly when it belongs to the chosen dataset |
| Aggregation.Display | script.js:267-270 | one display item per record, in order, for the same record, whose display value is the accuracy, times 100 when normalised |
| Aggregation.ValuesOf | script.js:273-279 | a category has values exactly when some record has that category |
| Aggregation.ValuesOfAppend | script.js:276-278 | a new item adds its value to its own category only |
| Aggregation.DistinctAppend | script.js:281 | a new category is appended to the key order, and a known one changes nothing |
| Aggregation.GroupingStep | script.js:274-279 | one turn of the grouping loop keeps the grouping invariant |
| Aggregation.GroupByCategory | script.js:273-279 | the keys are the categories in first-seen order, a group exists exactly for each category, and each group holds that category's values in record order |
| Aggregation.Averages | script.js:281-284 | one entry per key, for that key, whose average is the mean of that category's values |
| Aggregation.BeforeIsStrictWeakOrder | script.js:287-293 | all three comparators are strict weak orders (given one for `localeCompare`) |
| Aggregation.CategoryOrderMembers | script.js:281-293 | the sorted averages are the unsorted ones, each once |
| Aggregation.SortedCategoriesPermute | script.js:281-295 | the ordered categories name every category of the dataset exactly once |
| Aggregation.NamesPermute | script.js:281-295 | the names of a reordering of one entry per key are the keys, each once |
| Aggregation.CategoryOrderSorted | script.js:287-293 | averages are non-increasing for `desc` and non-decreasing for `asc`; for any other mode no name sorts before its predecessor |
| Aggregation.CategoryOrderStable | script.js:287-293 | categories that tie keep their first-seen order |
| Aggregation.SumScaled | script.js:269 | scaling every value scales the sum |
| Aggregation.ValuesOfScaled | script.js:267-279 | normalised values are 100 times the raw ones |
| Aggregation.AverageScaled | script.js:267-284 | a normalised category average is 100 times the raw one |
| Aggregation.AveragesScaled | script.js:267-284 | the normalised averages are the raw ones scaled by 100 |
| Aggregation.ScalingKeepsBefore | script.js:287-293 | scaling by 100 does not change any comparator's verdict |
| Aggregation.NormalizeKeepsOrder | script.js:267-295 | ticking "normalise" never changes the category order |
| Aggregation.SourceLabels | script.js:361 | `[...new Set(...)]` of the source labels: each label once, and exactly the labels of the records |
| Aggregation.FindRecord | script.js:642 | `data.find`: the first record with that category and source label, or none exactly when no record matches |
| Aggregation.GroupAsWritten | script.js:273-279 | the grouping over a plain object; when it completes, its keys are the categories in first-seen order |
| Aggregation.GroupAsWrittenFails | script.js:273-279 | the plain-object grouping throws exactly when some category is the name of an inherited `Object.prototype` property |
| Aggregation.ConstructorCategoryThrows | script.js:273-279 | a category named `constructor` makes the render throw |
| Pagination.MulMonotone | script.js:303 | page offsets grow with the page number |
| Pagination.PageCount | script.js:299 | `Math.ceil(total / pageSize)`: the smallest page count whose pages hold every category; zero exactly when there are none |
| Pagination.OfCategoriesAppend | script.js:308 | filtering a concatenation filters each part, so order and repeats are kept |
| Pagination.OfCategoriesOne | script.js:308 | a single record is kept exactly when its category is on the page |
| Pagination.OfCategoriesNone | script.js:308 | no page categories means no page data |
| Pagination.OfCategoriesMembers | script.js:308 | a page's data is exactly the records whose category is on the page |
| Pagination.Pages | script.js:302-316 | `ceil(n / pageSize)` pages |
| Pagination.Paginate | script.js:302-316 | the page loop builds exactly those pages |
| Pagination.PagesTile | script.js:302-316 | pages run from 1 to n with no gap or overlap; each holds at most `pageSize` categories, and its bounds match its categories |
| Pagination.PageBounds | script.js:303-307 | page p starts at p·pageSize + 1 and ends at min((p + 1)·pageSize, n); the last page ends at n |
| Pagination.Offset | script.js:303 | the start index of a page is the page number times the page size |
| Pagination.PageSlice | script.js:303-308 | a page's categories are its slice of the ordered categories, and its data is the records of those categories |
| Pagination.PagesPrefix | script.js:302-307 | the first p pages hold the first p·pageSize categories |
| Pagination.PagesPartition | script.js:298-307 | the pages' categories, read in order, are the ordered categories |
| Pagination.OfCategoriesSplit | script.js:308 | filtering by disjoint category lists adds up |
| Pagination.OfCategoriesAll | script.js:308 | filtering by all categories keeps every record |
| Pagination.NoDupPrefix | script.js:305 | pages of a duplicate-free order share no category |
| Pagination.DataFollowsCategories | script.js:302-308 | the pages' records together are the records of the pages' categories |
| Pagination.PagesCoverData | script.js:302-308 | every record of the dataset appears on exactly one page |
| Pagination.PageDataNonEmpty | script.js:308 | no page is drawn without data |
| Pagination.SevenCategoriesThreePerPage | script.js:299-305 | 7 categories at 3 per page give pages 1-3, 4-6 and 7-7 |
| Layout.Round | script.js:374 | `Math.round`: the nearest integer, halves rounded up |
| Layout.Ceil | script.js:382 | `Math.ceil`: the least integer not below the value |
| Layout.MaxLength | script.js:373 | the length of the longest category name, or 0 for none |
| Layout.LabelSpace | script.js:372-374 | the label space is between 40 and 300; it is 40 for names of 6 characters or fewer and 300 for names of 47 or more |
| Layout.LabelSpaceMonotone | script.js:374 | longer names never shrink the label space |
| Layout.PlotSize | script.js:375-377 | the plot is 580 wide and 460 less the label space high, so between 160 and 420 |
| Layout.XTitleClearsNames | script.js:592 | the x-axis title stays in the view, and below the longest rotated name wherever the names are not clamped |
| Layout.MaxValue | script.js:380 | `Math.max` of the display values: one of them, and no smaller than any |
| Layout.YMax | script.js:382 | 100 when normalised; otherwise a multiple of 0.05, at most 1, at least a maximum ≤ 1, less than 0.05 above a non-zero maximum, and exactly 1 when the maximum is 0 or at least 1 |
| Layout.YSteps | script.js:383 | at least one step |
| Layout.StepSize | script.js:382-383 | for a non-negative maximum, each axis step is 10 when normalised and 0.05 otherwise |
| Layout.YAxisExample | script.js:382-383 | a maximum of 0.37 gives an axis to 0.4 in 8 steps |
| Layout.TicksSpanAxis | script.js:426-428 | ticks run from 0 at the bottom to yMax at the top, in equal steps |
| Layout.BarInSlot | script.js:452-465 | each bar lies strictly inside its category's slot and strictly left of the next source's bar |
| Layout.BarOnAxis | script.js:464-466 | bars stand on the x axis, and a value within the axis range gives a bar inside the plot |
| Layout.BarAtRecord | script.js:457-472 | a bar is drawn exactly when a record matches the category and source, and its height is that of the first matching record |
| Layout.BarsInsidePlot | script.js:457-472 | for accuracies in [0, 1], every drawn bar fits between the axis and the top of the plot |
| Layout.LegendRowsInsideCard | script.js:528-557 | every legend swatch is below the title, inside the card, and clear of the next row |
| Layout.Shorten | script.js:565 | labels up to 28 characters are kept; longer ones keep their first 28 characters and end in `…` |
| Export.CellMeaning | script.js:642-647 | a cell is the missing mark when no record matches; otherwise it is the first match's value, to 1 or 4 decimals |
| Export.Header | script.js:608-623 | one header cell for `category` and one per source label |
| Export.Row | script.js:631-650 | every row has as many cells as the header |
| Export.Table | script.js:603-657 | one header row and one row per category |
| Export.TableShape | script.js:603-657 | the header is `category` then the labels in first-seen order; each row starts with its category, followed by its cells in label order |
| Export.CsvLines | script.js:663-673 | one CSV line for the header and one per category |
| Export.CsvRow | script.js:666-672 | the row loop builds exactly the row, with an empty field for a missing record |
| Export.PageCsv | script.js:659-675 | the CSV text is the lines joined by newlines |
| Export.RowPlain | script.js:670 | fields free of commas and newlines make a row free of them |
| Export.HeaderPlain | script.js:663 | labels free of commas and newlines make a header free of them |
| Export.LinesSplit | script.js:664-672 | each line is newline-free and splits on commas back into its fields |
| Export.CsvReadsBack | script.js:663-675 | when no field contains a comma or a newline, the CSV text reads back into exactly the header and rows |
| Export.CsvFileName | script.js:680 | the download name starts with `twinkle_` and ends with `.csv` |
| Export.CsvFileNameParts | script.js:680 | without `.csv` and split at `_`, the name gives back `twinkle`, the dataset and the two page bounds, whose decimal values are the bounds, when the dataset has no `_` |
| Viewer.ProcessFileResult | script.js:105-122 | a usable file comes from a valid report and has records; every record carries the report's source label, which is also the file's label |
| Viewer.ProcessFileKept | script.js:105-122 | a file is kept exactly when it is read, parses into a valid report, none of its `dataset_results` entries throws, and some result entry qualifies; otherwise it is dropped |
| Viewer.ReportFiles | script.js:64-66 | exactly the `.json` and `.jsonl` files are kept |
| Viewer.ReportFilesAppend | script.js:64-66 | filtering a concatenation filters each part, so order and repeats are kept |
| Viewer.ReportFilesOne | script.js:64-66 | a single file is kept exactly when its name ends in `.json` or `.jsonl` |
| Viewer.ProcessFile | script.js:105-122 | a file that is kept has at least one record, and its label is its first record's |
| Viewer.Usable | script.js:74-75 | no more usable results than files, and each has at least one record |
| Viewer.UsableAppend | script.js:72-75 | the results of a concatenation are the results of each part, in file order |
| Viewer.UsableOne | script.js:72-75 | a single file gives its result exactly when processing it succeeds |
| Viewer.MergedDataMembers | script.js:85-88 | the merged records are exactly the usable files' records |
| Viewer.MergedMetaKeys | script.js:85-88 | a source label has metadata exactly when some usable file has that label |
| Viewer.MergedMetaLastWins | script.js:87 | when several files share a label, the last one's metadata wins |
| Viewer.Datasets | script.js:234 | one dataset name per record |
| Viewer.LexLessStrictWeakOrder | script.js:234 | the default string order is a strict weak order |
| Viewer.DatasetListSorted | script.js:234 | the selector lists every dataset exactly once, in strictly ascending order |
| Viewer.RenderedPages | script.js:256-316 | a render draws `ceil(n / pageSize)` pages, each with data; their categories in order are the ordered categories, and every record of the dataset is on exactly one page |
| Viewer.Corpus.constructor | script.js:1-4 | the viewer starts with no records, no metadata and no dataset |
| Viewer.Corpus.ProcessFiles | script.js:59-103 | a batch with no report file, or with no usable file, is rejected and changes nothing; otherwise the records and metadata are replaced by the merge of the usable files in order, and the first dataset of the sorted list is selected |
| Viewer.Corpus.Merge | script.js:81-88 | the records and metadata are replaced by the merge of the usable files, in order; the selection is untouched |
| Viewer.Corpus.PopulateDatasetSelector | script.js:233-248 | the first dataset of the sorted list becomes current; with no dataset the selection stays; records and metadata are untouched |
| Viewer.DatasetListNonEmpty | script.js:244-245 | usable files always bring at least one dataset, so a dataset is selected |
| Viewer.Corpus.SelectDataset | script.js:251-254 | only the current dataset changes |
| Viewer.Corpus.Render | script.js:256-316 | draws nothing without a dataset or its records; otherwise it computes exactly the pages of the ordered categories, grouped by the corrected `Aggregation.GroupByCategory` |

## Left out

- The DOM is not modelled. This covers element creation, SVG attributes, colours, tooltips, the loading, error and status messages, and drag-and-drop. Only the numbers and texts the code computes are modelled.
- Reading files (`FileReader`), `async`/`await` and `Promise.all` are not modelled. A file's text is an input, and a failed read is `None`. Results keep file order, as `Promise.all` does.
- `JSON.parse`, the number-to-text conversion, `parseFloat` of a string, `toFixed` and `localeCompare` are parameters, so their internals are not modelled. Decimal rounding of `toFixed`, the `NaN` that `parseFloat` can give, and IEEE floating point are not modelled either. Accuracies are exact reals.
- `Object.entries` and `Object.keys` list integer-like keys first. The model keeps members in document order. Likewise, the model takes property lookup on a JSON value as a lookup of its own members only.
- Viewer.DatasetList: `sort()` compares UTF-16 code units, but the model compares characters. The two differ only for characters outside the Basic Multilingual Plane.
- Viewer.Corpus.PopulateDatasetSelector: the source also calls `renderCurrentDataset` at this point. The model leaves that call to `Viewer.Corpus.Render`, so it is not made here.
- Viewer.Corpus.Render: it returns the pages. Drawing each page (`createChartSection`) and the download buttons (`renderDownloads`) are modelled by the `Layout` and `Export` functions.
- Viewer.Corpus.Render: it requires a page size of at least 1. The page-size options come from `index.html`, which is not part of this model.
- A source label `__proto__` makes `metaData[sourceLabel] = meta` replace the prototype of `metaData` instead of adding a key. A dataset name `__proto__` makes `meta[dsName] = <number>` do nothing, so that key is missing. The model adds the key in both cases.
- JsonValue.Entries: for an object with a repeated key it lists every occurrence. `Object.entries` lists such a key once, at its first position, with its last value. Property reads (`JsonValue.Lookup`) take the last value, as `JSON.parse` does.
- Layout.MaxLength: `.length` counts UTF-16 code units, but the model counts characters. A category of 15 emoji has length 30 in the source and 15 in the model.
- Layout.LabelSpace: it inherits the character count of `Layout.MaxLength`, so names with characters outside the Basic Multilingual Plane get less room than in the source.
- Layout.Shorten: `substring(0, 28)` counts UTF-16 code units, but the model counts characters. A label of 15 emoji is cut in the source and kept whole in the model.
- Viewer.Corpus.Render: it groups categories with the corrected `Aggregation.GroupByCategory`. For a category named `constructor` or another inherited `Object.prototype` name, the source throws at script.js:277, after `processFiles` has already replaced the records, the metadata and the dataset list. The model renders that dataset instead (see Findings).
- The value of a download link and the object-URL life cycle are not modelled.

## Findings

| source | as written | input that shows it | evidently intended | confidence | as-written member | corrected member |
|---|---|---|---|---|---|---|
| script.js:273-279 | `categoryAverages` is a plain object, so `categoryAverages[c]` finds inherited `Object.prototype` properties. `.push` then fails on them | a file `constructor.json` gives category `constructor`. `categoryAverages.constructor` is the `Object` function, so it is truthy and `.push` throws a TypeError, and the dataset never renders. `toString`, `valueOf`, `hasOwnProperty`, `__proto__` and the other inherited names behave the same | group every category, whatever its name, as a `Map` or `Object.create(null)` would | not executed | Aggregation.ConstructorCategoryThrows | Aggregation.GroupByCategory |
