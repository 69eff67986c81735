# External merge sort of `"<number>. <text>"` files, in Dafny

This project models the core of the Altium file sorter: the `Row` record and
its text format (`Altium.Shared/Dtos/Row.cs`), and the external merge sort of
`ExternalSortService` (`Altium.FileSorter/Services/ExternalSortService.cs`).

* A **row** is a `uint` number and a text, written as `"<number>. <text>"`.
  Rows are ordered by text (ordinal, character by character), then by number.
  Parsing splits a line at the first `". "`. A line without one, a prefix that
  is not a decimal number, or a number above `uint.MaxValue` is an error.
* **Files are line sequences.** The temporary directory is a map from file
  names (a number and an extension tag: `.unsorted`, `.sorted`, `.sorted.tmp`,
  `.sorted.removal`) to line sequences. The target is an optional line sequence.
* **The service is a class.** Its fields are the directory, the target, the
  row buffer `unsortedRows` (an array of nullable rows), and the two progress
  counters. Its methods follow the C# methods one by one:
  * `SplitFile` cuts the source into `k.unsorted` chunks of 100000 lines.
  * `SortFile` fills the buffer, sorts it in place, writes the non-null rows
    and clears it.
  * `SortFiles` replaces every chunk by its sorted run `k.sorted`.
  * `MergePass` and `MergeBatch` merge the runs in batches of `filesPerRun`
    into `k.sorted.tmp` and promote the results to `k.sorted`. A lone last
    run is just renamed.
  * `SortedFiles` rescans the directory.
  * `FinalRun` merges the last runs into the target.
  * `MergeStreams` is the k-way merge of `Merge`/`InitializeStreamReaders`.
  * `CleanupRun` retires the merged inputs through a `.removal` rename and a
    delete.
* **The headline result.** `SortAsync` succeeds exactly when the source is
  `Sortable`. It then leaves the directory empty, and the target is the
  source's rows sorted (`SortRows`, an insertion sort used as the reference
  definition) and written back in the writer's format.

Three behaviours of the code shape the model:

* The chunk size is the constant 100000 (`ExternalSortService.cs:77`), not the
  configured `RowsPerFile`. `RowsPerFile` only sizes the row buffer, and a
  chunk longer than the buffer fails the sort (`BufferOverflow`).
* A source whose line count is a positive multiple of 100000 leaves an empty
  last chunk (`ExternalSortService.cs:99-111`). Its sorted run is empty, and
  the merge fails on the empty run's missing first line. This is why
  `Sortable` excludes such sources when they have more than one chunk.
* The target is created before any chunk is sorted
  (`ExternalSortService.cs:36`). So a failure in the sort or merge phase
  leaves an empty target. Only an empty source leaves the target untouched.

## Model

| member | source | states |
|---|---|---|
| Rows.CompareTo | Altium.Shared/Dtos/Row.cs:20-23 | comparing with a null row gives 1; the result is -1, 0 or 1 |
| Rows.CompareToByTextThenNumber | Altium.Shared/Dtos/Row.cs:25-28 | different texts are ordered by the (non-zero) text comparison, equal texts by the number; the merge tag plays no part |
| Rows.CompareNumbers | Altium.Shared/Dtos/Row.cs:28 | zero exactly for equal numbers, negative exactly when the first is smaller |
| Rows.OrdinalZeroIff | Altium.Shared/Dtos/Row.cs:25 | the text comparison is zero exactly for equal texts |
| Rows.OrdinalAntisymmetric | Altium.Shared/Dtos/Row.cs:25 | swapping the texts negates the comparison |
| Rows.OrdinalTransitive | Altium.Shared/Dtos/Row.cs:25 | the text order is transitive |
| Rows.OrdinalStrictTransitive | Altium.Shared/Dtos/Row.cs:25 | strictly-less followed by less-or-equal is strictly less |
| Rows.CompareToAntisymmetric | Altium.Shared/Dtos/Row.cs:20-29 | `a.CompareTo(b) == -b.CompareTo(a)` |
| Rows.CompareToZeroIff | Altium.Shared/Dtos/Row.cs:20-29 | two rows compare equal exactly when text and number agree |
| Rows.LeTotal | Altium.Shared/Dtos/Row.cs:20-29 | any two rows are ordered one way or the other |
| Rows.LeReflexive | Altium.Shared/Dtos/Row.cs:20-29 | every row is at most itself |
| Rows.LeTransitive | Altium.Shared/Dtos/Row.cs:20-29 | the row order is transitive, as `Array.Sort` and `List.Sort` require |
| Rows.LeAntisymmetric | Altium.Shared/Dtos/Row.cs:20-29 | rows each at most the other are the same row apart from the merge tag |
| Rows.FindSeparator | Altium.Shared/Dtos/Row.cs:40 | `IndexOf(". ")`: the position found holds the separator and no earlier one does; none is found only when the line has none |
| Rows.Parse | Altium.Shared/Dtos/Row.cs:34-46 | a line without a separator is `MissingSeparator`; a parsed row has merge tag 0 |
| Rows.ParseWithoutSeparator | Altium.Shared/Dtos/Row.cs:40-43 | a line without `". "` fails with `MissingSeparator` (`Slice(0, -1)` throws) |
| Rows.ParseSplitsAtFirstSeparator | Altium.Shared/Dtos/Row.cs:39-45 | at the first separator: the line parses exactly when its prefix is a valid `uint`; the row is that number and the text after the two separator characters; otherwise the error is exactly the one `uint.Parse` gives for the prefix |
| Rows.ParseEmptyNumber | Altium.Shared/Dtos/Row.cs:39-43 | a line starting with `". "` has an empty number and fails with `InvalidNumber` |
| Rows.ParseTagged | Altium.Shared/Dtos/Row.cs:48-51 | succeeds exactly when `Parse` does, with the same error; the row is `Parse`'s row with the given merge tag |
| Decimal.ParseUInt | Altium.Shared/Dtos/Row.cs:43 | `uint.Parse`: succeeds exactly on a non-empty string of digits of value at most 4294967295, giving that value; fails with `InvalidNumber` exactly when the string is empty or holds a non-digit, and with `NumberOverflow` exactly when it is all digits and its value exceeds 4294967295 |
| Decimal.ParseNonDigit | Altium.Shared/Dtos/Row.cs:43 | a non-digit anywhere in the prefix gives `InvalidNumber` |
| Decimal.OverflowAtLimit | Altium.Shared/Dtos/Row.cs:43 | 4294967296 gives `NumberOverflow` |
| Decimal.OverflowAboveLimit | Altium.Shared/Dtos/Row.cs:43 | every digit string whose value exceeds 4294967295, with any number of leading zeros, gives `NumberOverflow` |
| Decimal.ZerosPrefix | Altium.Shared/Dtos/Row.cs:43 | any number of leading zeros leaves the value unchanged |
| Decimal.LeadingZeros | Altium.Shared/Dtos/Row.cs:43 | a leading zero does not change the value |
| Decimal.Digits | Altium.FileSorter/Services/ExternalSortService.cs:151 | `{row.Number}` is a non-empty digit string whose value is the number |
| Decimal.ParseDigits | Altium.Shared/Dtos/Row.cs:43 | parsing the decimal form of a `uint` gives it back |
| Rows.FirstSeparatorOfSerialized | Altium.FileSorter/Services/ExternalSortService.cs:151 | in a written row the first `". "` follows the digits, whatever the text holds |
| Rows.ParseSerialize | Altium.Shared/Dtos/Row.cs:34-46 | reading a written row gives the row back, merge tag 0 |
| Rows.ParseTaggedSerialize | Altium.Shared/Dtos/Row.cs:48-51 | reading a written row with a merge tag gives the row with that tag |
| Rows.ParseLines | Altium.FileSorter/Services/ExternalSortService.cs:140-144 | a file parses exactly when every line does, into one row per line, in order |
| Rows.ParseLinesOfLines | Altium.FileSorter/Services/ExternalSortService.cs:149-152 | a written file of untagged rows reads back as those rows |
| Rows.ParseLinesAppend | Altium.FileSorter/Services/ExternalSortService.cs:93-111 | two files read as one parse exactly when both do, into the rows of the first followed by those of the second |
| Rows.SortRowsSorted | Altium.FileSorter/Services/ExternalSortService.cs:146 | the reference sort is ordered |
| Rows.SortRowsCounts | Altium.FileSorter/Services/ExternalSortService.cs:146 | the reference sort is a permutation of its input |
| Rows.SortedUnique | Altium.FileSorter/Services/ExternalSortService.cs:146 | two ordered permutations of the same untagged rows are equal: the sorted result does not depend on the algorithm |
| Rows.SortedIsSortRows | Altium.FileSorter/Services/ExternalSortService.cs:146 | any ordered permutation of untagged rows is the reference sort |
| Chunking.ChunksConcat | Altium.FileSorter/Services/ExternalSortService.cs:93-111 | the chunk files, concatenated, are the source |
| Chunking.ChunksShape | Altium.FileSorter/Services/ExternalSortService.cs:97-111 | there are `n / 100000 + 1` chunks, all but the last full, the last holding `n % 100000` lines |
| Chunking.ChunkAt | Altium.FileSorter/Services/ExternalSortService.cs:97-106 | chunk `k` (other than the last) is the slice `[k·size, k·size + size)` of the source |
| Chunking.ChunksSnoc | Altium.FileSorter/Services/ExternalSortService.cs:93-108 | one more line goes to the open chunk, and a chunk reaching the bound is closed and an empty one opened |
| Chunking.BatchesCount | Altium.FileSorter/Services/ExternalSortService.cs:172 | `Chunk(runSize)` gives `⌈n / runSize⌉` batches |
| Chunking.BatchAt | Altium.FileSorter/Services/ExternalSortService.cs:172-176 | batch `k` is the slice from `k·r` to `min(k·r + r, n)` |
| Chunking.BatchesCover | Altium.FileSorter/Services/ExternalSortService.cs:172 | the batches cover all runs |
| Chunking.PassShrinks | Altium.FileSorter/Services/ExternalSortService.cs:163-205 | a pass that is not the final run leaves at least two runs, and fewer runs than before exactly when the fan-in is at least 2 |
| Chunking.EstimateIsQuotientSum | Altium.FileSorter/Services/ExternalSortService.cs:57-73 | the estimate is `n + ⌊n/r⌋ + ⌊n/r²⌋ + …` |
| Chunking.EstimateBounds | Altium.FileSorter/Services/ExternalSortService.cs:57-73 | the estimate is at least `n` and at most `n·r/(r−1)` |
| Chunking.EstimateStartTotal | Altium.FileSorter/Services/ExternalSortService.cs:59-61 | the loop's initial state already accounts for the whole estimate |
| Chunking.EstimateStepTotal | Altium.FileSorter/Services/ExternalSortService.cs:62-70 | each loop step keeps the estimate and brings the loop closer to its end |
| Chunking.EstimateStalls | Altium.FileSorter/Services/ExternalSortService.cs:62-70 | at fan-in 1 the quotient never changes and the loop never sets `done` |
| Chunking.EstimateNeverFinishesAtFanInOne | Altium.FileSorter/Services/ExternalSortService.cs:57-73 | at fan-in 1 and one run or more, no number of iterations ends the loop |
| BufferSort.SlotLeTotal | Altium.FileSorter/Services/ExternalSortService.cs:146 | buffer slots (null first, then rows by `CompareTo`) are totally ordered |
| BufferSort.SlotLeTransitive | Altium.FileSorter/Services/ExternalSortService.cs:146 | the slot order is transitive |
| BufferSort.MinSlot | Altium.FileSorter/Services/ExternalSortService.cs:146 | finds a least slot of the unsorted suffix |
| BufferSort.SortSlots | Altium.FileSorter/Services/ExternalSortService.cs:146 | `Array.Sort(_unsortedRows)`: the buffer is left ordered and a permutation of what it held |
| BufferSort.PresentSorted | Altium.FileSorter/Services/ExternalSortService.cs:149 | the non-null rows of an ordered buffer are ordered |
| BufferSort.PresentPermutation | Altium.FileSorter/Services/ExternalSortService.cs:149 | permuting the buffer permutes its non-null rows |
| BufferSort.PresentOfFilled | Altium.FileSorter/Services/ExternalSortService.cs:139-149 | a buffer filled from the front and null after holds exactly the rows put in |
| BufferSort.WritePresent | Altium.FileSorter/Services/ExternalSortService.cs:149-152 | writes the non-null rows, in buffer order, in the writer's format |
| BufferSort.ClearSlots | Altium.FileSorter/Services/ExternalSortService.cs:154 | every slot is null afterwards |
| KWayMerge.FindLeast | Altium.FileSorter/Services/ExternalSortService.cs:224-226 | `rows.Sort(); rows[0]`: the head found is at most every head |
| KWayMerge.InitStep | Altium.FileSorter/Services/ExternalSortService.cs:251-259 | reading input `i`'s first line adds its head, tagged `i`, and takes it out of the unread rows |
| KWayMerge.InitDone | Altium.FileSorter/Services/ExternalSortService.cs:246-262 | after opening every input, the merge invariant holds with nothing written |
| KWayMerge.UnreadAdvance | Altium.FileSorter/Services/ExternalSortService.cs:239 | reading the next line of an input takes its row out of the unread rows |
| KWayMerge.MergeAdvance | Altium.FileSorter/Services/ExternalSortService.cs:225-240 | writing the least head and replacing it by the next line of its input keeps the merge invariant: every row written, a head, or unread exactly once; the output ordered and at most every head when the inputs are sorted |
| KWayMerge.MergeExhaust | Altium.FileSorter/Services/ExternalSortService.cs:229-236 | writing the least head of an input at its end and retiring the input keeps the merge invariant |
| KWayMerge.MergeDone | Altium.FileSorter/Services/ExternalSortService.cs:222-241 | once every input is retired, every input was non-empty and parsed, the output holds exactly their rows, ordered when they were |
| KWayMerge.MergeStreams | Altium.FileSorter/Services/ExternalSortService.cs:212-262 | succeeds exactly when every input is non-empty and parses; the output is in the writer's format, holds exactly the inputs' rows, and is ordered when every input is |
| Runs.BatchPreserves | Altium.FileSorter/Services/ExternalSortService.cs:177-185 | a batch's output is good exactly when its runs are, and then holds their rows, ordered when they were |
| Runs.PassPreserves | Altium.FileSorter/Services/ExternalSortService.cs:172-193 | a completed pass keeps every run good exactly when all were, keeps the rows, and keeps them sorted |
| Runs.MergedGood | Altium.FileSorter/Services/ExternalSortService.cs:212-244 | merging good runs gives a good (non-empty, parsing) file |
| Runs.SortedRunFacts | Altium.FileSorter/Services/ExternalSortService.cs:135-155 | a sorted run is in the writer's format, ordered, holds the chunk's rows, and is non-empty exactly when the chunk is |
| Runs.ChunksParse | Altium.FileSorter/Services/ExternalSortService.cs:93-111 | the source parses exactly when every chunk does |
| Runs.ChunksBag | Altium.FileSorter/Services/ExternalSortService.cs:117-133 | the sorted runs together hold exactly the source's rows |
| Runs.ChunksFitIff | Altium.FileSorter/Services/ExternalSortService.cs:34 | every chunk fits the row buffer, parses and is non-empty exactly when the source parses and either is shorter than 100000 lines and fits the buffer, or the buffer holds 100000 rows and the line count is not a multiple of 100000 |
| Runs.CanonicalSortedIsSortRows | Altium.FileSorter/Services/ExternalSortService.cs:149-152 | an ordered file in the writer's format holding given untagged rows is the reference sort of them, written |
| TempDir.NumberedFacts | Altium.FileSorter/Services/ExternalSortService.cs:89-106 | the files are named `1`, `2`, … with one extension and hold the chunks in order |
| TempDir.ReplacedStep | Altium.FileSorter/Services/ExternalSortService.cs:121-131 | replacing the next chunk by its sorted file leaves the replaced ones, the rest untouched |
| TempDir.RescanNames | Altium.FileSorter/Services/ExternalSortService.cs:195-201 | the `.sorted` names in increasing number order, over a directory numbered from 1, are `1.sorted … m.sorted` |
| TempDir.MergeStepDir | Altium.FileSorter/Services/ExternalSortService.cs:183-191 | merging a batch into `k.sorted.tmp` and promoting it to `k.sorted` keeps the pass's directory layout |
| TempDir.MoveStepDir | Altium.FileSorter/Services/ExternalSortService.cs:177-181 | renaming a lone last run to `k.sorted` keeps the pass's directory layout |
| TempDir.PassDirEnd | Altium.FileSorter/Services/ExternalSortService.cs:172-193 | after the last batch, the directory holds just the pass's outputs, numbered from 1 |
| Service.ExternalSortService.constructor | Altium.FileSorter/Services/ExternalSortService.cs:16-26 | empty buffer, zero counters, the given options, directory and target |
| Service.ExternalSortService.CalculateTotalFilesToMerge | Altium.FileSorter/Services/ExternalSortService.cs:57-73 | the loop ends with the estimate `n + ⌊n/r⌋ + ⌊n/r²⌋ + …` for a fan-in of at least 2 |
| Service.ExternalSortService.SplitFile | Altium.FileSorter/Services/ExternalSortService.cs:75-115 | an empty source fails with `EmptyInput` and changes nothing; otherwise the directory gains `1.unsorted … m.unsorted` holding the chunks, and their names are returned in order |
| Service.SplitStep | Altium.FileSorter/Services/ExternalSortService.cs:93-108 | writing one source line extends the open chunk file, and a full chunk opens the next file |
| Service.ExternalSortService.SortFile | Altium.FileSorter/Services/ExternalSortService.cs:135-155 | succeeds exactly when the chunk parses and fits the buffer; writes the reference sort of its rows and leaves the buffer clear |
| Service.ExternalSortService.SortOneFile | Altium.FileSorter/Services/ExternalSortService.cs:121-131 | with no `k.sorted` present beforehand, `k.unsorted` is replaced by a new `k.sorted` holding its sorted run |
| Service.ExternalSortService.SortFiles | Altium.FileSorter/Services/ExternalSortService.cs:117-133 | with no `.sorted` file of a chunk's number present: succeeds exactly when every chunk fits and parses; every chunk is replaced by its sorted run under the `.sorted` name of the same number, names returned in order; other files untouched |
| Service.SortedFilesFacts | Altium.FileSorter/Services/ExternalSortService.cs:117-133 | once every chunk is sorted, the `.sorted` files hold the sorted runs of the chunks, in order |
| Service.ExternalSortService.MoveFile | Altium.FileSorter/Services/ExternalSortService.cs:189-191 | `File.Move`: the file takes the new name, replacing one there only with `overwrite` |
| Service.ExternalSortService.CleanupRun | Altium.FileSorter/Services/ExternalSortService.cs:264-275 | the merged inputs leave the directory through `.removal`; every other file is unchanged |
| Service.ExternalSortService.FinishRun | Altium.FileSorter/Services/ExternalSortService.cs:235-243 | the processed-files counter grows by the number of inputs, which are then cleaned up |
| Service.ExternalSortService.Merge | Altium.FileSorter/Services/ExternalSortService.cs:212-244 | succeeds exactly when every input is good; the output is good, in the writer's format, holds the inputs' rows, ordered when they were; the inputs leave the directory |
| Service.ExternalSortService.SortedFiles | Altium.FileSorter/Services/ExternalSortService.cs:195-201 | returns exactly the `.sorted` names of the directory, in increasing number order |
| Service.RescanStep | Altium.FileSorter/Services/ExternalSortService.cs:196-200 | taking the least-numbered remaining name keeps the taken names increasing and below the rest |
| Service.ExternalSortService.MergeBatch | Altium.FileSorter/Services/ExternalSortService.cs:174-193 | a lone last run is moved, any other batch merged into `k.sorted.tmp` and promoted; the output is the batch's result, and a failure means some run is not good |
| Service.ExternalSortService.MergePass | Altium.FileSorter/Services/ExternalSortService.cs:172-193 | a pass fails only when some run is not good; otherwise its outputs are the pass's batch results, numbered from 1 |
| Service.PassKeeps | Altium.FileSorter/Services/ExternalSortService.cs:172-205 | after a pass that is not the final run there are at least two and fewer runs, and they still track the original runs |
| Service.ExternalSortService.FinalRun | Altium.FileSorter/Services/ExternalSortService.cs:164-170 | the final merge succeeds exactly when every original run is good; the directory is empty and the target holds the runs' rows, ordered when the runs were |
| Service.ExternalSortService.MergeFiles | Altium.FileSorter/Services/ExternalSortService.cs:157-210 | succeeds exactly when every run is good; the directory is left empty and the target holds every row of the runs once, in the writer's format, ordered when the runs were |
| Service.ExternalSortService.SortChunks | Altium.FileSorter/Services/ExternalSortService.cs:46-50 | with two chunks or more: succeeds exactly when every chunk fits, parses and is non-empty, and then the target is ordered and holds the sorted runs' rows |
| Service.MergedIsSorted | Altium.FileSorter/Services/ExternalSortService.cs:28-55 | an ordered target in the writer's format holding the rows of the chunks' sorted runs is the source sorted |
| Service.ExternalSortService.SortAsync | Altium.FileSorter/Services/ExternalSortService.cs:28-55 | succeeds exactly when the source is `Sortable`; the target is then the source's rows sorted by (text, number) and written back, and the directory is empty; an empty source fails with `EmptyInput` and touches nothing |

## Left out

- I/O streams, buffer sizes, `async`, cancellation, logging, the stopwatch and the progress reports (`ReportSplitProgress`, `ReportSortProgress`, `ReportMergeProgress` and their `double` divisions) are not modelled. Files are whole line sequences.
- Service.ExternalSortService.SplitFile and SortAsync: the source refuses an empty input by its byte length (`BaseStream.Length == 0`), the model by its line count. A source holding only a byte-order mark has bytes but no lines: the source sorts it into an empty target, while the model reports `EmptyInput`.
- Rows.CompareOrdinal: `string.CompareTo` in the source compares with the current culture. The model compares texts ordinally, character by character, which agrees with the culture-sensitive order only on texts where the two coincide.
- Decimal.ParseUInt: accepts only ASCII digits. The leading and trailing white space, the leading sign and the trailing NUL characters (`'\0'`) that `uint.Parse` also accepts are not modelled, so a prefix such as `"12\0"` is `InvalidNumber` here but 12 in the source.
- BufferSort.SortSlots: `Array.Sort` (introsort) is modelled by an in-place selection sort with the same contract: an ordered permutation. Because equal rows are identical, the rows written do not depend on the algorithm (`Rows.SortedUnique`).
- KWayMerge.FindLeast: `rows.Sort()` followed by `rows[0]` is modelled as finding a least head without reordering the list of heads. Since every merge input is a sorted run, the output is the same whichever least head is taken (`Rows.SortedUnique`).
- Service.ExternalSortService.FinishRun: the source increments `_mergeFilesProcessed` once per retired input, inside the merge loop. The model adds the number of inputs in one step at the end of a successful merge. The counter is not read by anything that is modelled.
- Service.ExternalSortService.SortAsync: requires an empty temporary directory, and a fan-in of at least 2 once the source has 100000 lines or more. The source leaves the directory to its caller. With a fan-in of 1 and two chunks or more, the source never ends when every chunk fits the buffer and parses; otherwise it fails while sorting the chunks. The requires excludes both kinds of input, the failing ones included (see Findings).
- Service.ExternalSortService.SortOneFile and SortFiles: require that no `.sorted` file of a chunk's number exists beforehand. `File.OpenWrite` overwrites such a file from the start without truncating, so a longer stale file would keep its tail, cut at a byte offset rather than at a line. The model does not describe that outcome.
- Service.ExternalSortService.MoveFile, CleanupRun, Merge and SortFiles require the files they open, move or delete to exist, and no `.sorted.removal` file to be present. The I/O exceptions the source would raise otherwise are not modelled.
- Service.ExternalSortService.SortFiles, MergePass and MergeBatch: on failure, only the failure condition is specified. What the directory holds after a failure is not (for example, the `k.sorted` file that `File.OpenWrite` creates before the sort fails, or a half-written merge output).
- Integer widths other than the `uint` row number are not modelled: the `int` counters (`currentFile`, `counter`, `chunkCounter`) and the `double` estimate are unbounded naturals.
- The options classes, their validators, the DI wiring and the file generator are not part of this model.

## Findings

| source | as written | input that shows it | evidently intended | confidence | as-written member | corrected member |
|---|---|---|---|---|---|---|
| Altium.FileSorter/Options/MergeFileOptions.cs:16 with Altium.FileSorter/Services/ExternalSortService.cs:57-73 | the validator accepts `FilesPerRun = 1`; `CalculateTotalFilesToMerge` then divides by 1 forever (`result` stays at `n ≥ 1`, so `done` is never set). The merge passes would not shrink either (`⌈n/1⌉ = n`) | `FilesPerRun = 1`, `RowsPerFile ≥ 100000` and a source of 100000 lines or more whose lines all parse (so every chunk is sorted and the estimate is reached) | a fan-in of at least 2, for which the loop ends with `n + ⌊n/r⌋ + …` and every pass leaves fewer runs | high (by proof, not executed) | Chunking.EstimateNeverFinishesAtFanInOne | Service.ExternalSortService.CalculateTotalFilesToMerge |
