# A verified model of the anime episode merger (merge.py)

merge.py takes a directory of episode files and turns them into one
Matroska container per episode. It does this in five steps:

1. It collects the episode numbers from the `.mkv` file names. Every digit
   run is zero-filled to two characters, and the results are sorted as a set.
2. It drops outliers. A number more than five above its predecessor in the
   list is discarded.
3. For each remaining number it groups the media files that carry it, then
   runs `mkvmerge` on them into
   `<output>/<base> - S<season>E<number>.mkv`.
4. When that succeeds and the directory holds fonts, it runs `mkvpropedit`
   to attach every font.
5. Each stage is reported to a shared status table with one row per episode.
   Each failure appends a text to a shared error list.

The model is a Dafny project of pure functions over immutable data. It has
eight modules.

- `Wrappers`: `Option` and `Result`.
- `PyText`: the Python primitives the tool relies on. These are POSIX
  `os.path.splitext`, `re.findall(r'\d+', s)`, `str.zfill`, `int()` on digit
  strings, and the slice `s[1::2]`.
- `StrOrder`: Python's `<` on strings, and strictly sorted listings. Together
  they model `sorted(set)`.
- `Classify`: `find_unique_numbers`, `group_files_by_number` and
  `font_check`.
- `EpisodeFilter`: `filte`.
- `Status`: the row update of `output_info`, and `error_info`.
- `Job`: `merge_files`, `change_font` and `process_number`.
- `Batch`: the command-line overrides and `main`.

The external programs are not run. `exec`, a function from an argument
vector to a `ProcessResult(returncode, stdout, stderr)`, stands for
whatever the programs would do. Every property of a job is therefore stated
for every possible behaviour of `mkvmerge` and `mkvpropedit`. The directory
listing is a parameter too.

## Model

| member | source | states |
|---|---|---|
| `PyText.SplitExt` | merge.py:65 | The stem and the extension concatenate back to the path. The extension is empty or starts with '.', and holds no other '.' and no '/'. |
| `PyText.ExtensionPresentIff` | merge.py:65 | A path has an extension exactly when its last component has a dot after some non-dot character. So ".bashrc" has none and "x.tar.gz" has ".gz". |
| `PyText.RFind` | merge.py:65 | The index found holds the character, and no later index does. -1 means the character is absent. |
| `PyText.DigitRuns` | merge.py:67 | Every string `re.findall(r'\d+')` returns is a non-empty run of decimal digits. Their order and multiplicity are fixed by `PyText.DigitRunsInOrder`. |
| `PyText.DigitRunsAreMaximalRuns` | merge.py:67 | A string is among the matches exactly when it is a digit run that cannot be extended on either side. Both directions are proved. |
| `PyText.DigitRunsInOrder` | merge.py:67 | The matches are the maximal digit runs from left to right, each listed once. The k-th match is the run at the k-th (start, end) pair. The pairs strictly increase and do not overlap. Every maximal run has a pair. So "01x01" gives `["01", "01"]`. |
| `PyText.RunBoundsSound` | merge.py:67 | The k-th match is the maximal digit run at the k-th (start, end) pair, and there are as many pairs as matches. |
| `PyText.RunBoundsOrdered` | merge.py:67 | Each run ends before the next one starts, so the matches come left to right without overlap or repetition. |
| `PyText.RunBoundsComplete` | merge.py:67 | Every maximal digit run of the name is one of the matches, at its own position. |
| `PyText.LeadingDigits` | merge.py:67 | The greedy `\d+` match at the start of a string covers only digits and stops at a non-digit or at the end. |
| `PyText.ZFill` | merge.py:69 | `zfill(width)` gives length max(len, width). It returns a long enough input unchanged, pads unsigned input with leading zeros, and keeps a leading sign in front of the zeros. |
| `PyText.ZFillNumeral` | merge.py:69 | `zfill(2)` of a digit run is a numeral of at least two digits with the same `int()` value. It never truncates, so "123" stays "123". |
| `PyText.Value` | merge.py:120 | `int()` of a string of n decimal digits is below 10^n. |
| `PyText.LeadingZerosValue` | merge.py:120 | Leading zeros do not change the value `int()` reads. |
| `PyText.OddPositions` | merge.py:141 | `s[1::2]` has len(s)//2 elements, and its k-th element is s[2k+1]. |
| `StrOrder.LessIrreflexive` | merge.py:70 | No string sorts before itself. |
| `StrOrder.LessTransitive` | merge.py:70 | Python string order is transitive. |
| `StrOrder.LessTotal` | merge.py:70 | Any two distinct strings are ordered one way or the other. |
| `StrOrder.Insert` | merge.py:63-69 | Adding a number to the sorted set listing keeps the listing strictly sorted. The result holds exactly the old elements and the new one. |
| `StrOrder.InsertAll` | merge.py:68-69 | Adding all digit runs keeps the listing strictly sorted, with exactly the union of the elements. |
| `StrOrder.SortedListingUnique` | merge.py:70 | Two strictly sorted lists with the same elements are equal. So a strictly sorted list with the right elements is `sorted()` of that set. |
| `Classify.ExtNeverBare` | merge.py:22 | No file name has the extension "ass" without a dot. |
| `Classify.PadAll` | merge.py:68-69 | The zero-filled runs of a name are exactly zfill(2) of its digit runs, and each is a numeral of length at least 2. |
| `Classify.FindUniqueNumbers` | merge.py:62-70 | The result is strictly sorted in Python string order. It holds exactly zfill(2) of every digit run of every ".mkv" name, and each entry is a numeral of two or more digits. |
| `Classify.FindUniqueNumbersIsSortedSet` | merge.py:70 | The result is the only strictly sorted listing of the candidate set. |
| `Classify.MatchCount` | merge.py:88-90 | The number of digit runs padding to the episode number is positive exactly when some run pads to it. |
| `Classify.MatchCountCounts` | merge.py:88-90 | The count is how many runs, with multiplicity, zero-fill to the number. |
| `Classify.MatchesCountsRuns` | merge.py:87-90 | A file is counted once for each maximal digit run of its name that zero-fills to the number. Each run is counted once because `PyText.DigitRunsInOrder` lists each one once. |
| `Classify.GroupFilesByNumber` | merge.py:82-91 | Every grouped file is in the listing, has a listed media extension, and has a digit run that zero-fills to the episode number. The exact multiplicities are in `Classify.GroupCounts` and the order in `Classify.GroupConcat`. |
| `Classify.RepeatCounts` | merge.py:84-90 | The output holds each input file as many times as the input does, multiplied by that file's count. |
| `Classify.RepeatConcat` | merge.py:84-91 | The per-file appending loop distributes over concatenation of its input. |
| `Classify.GroupCounts` | merge.py:84-90 | A file is appended once per matching digit run, for each time it is listed, and never if its extension is not listed. |
| `Classify.GroupConcat` | merge.py:84-91 | Grouping keeps the directory order: the grouping of a + b is the grouping of a followed by that of b. |
| `Classify.GroupIgnoresAssEntry` | merge.py:22 | With the list as written, grouping equals grouping against [".mka", ".mkv"]. The "ass" entry is dead. |
| `Classify.AssNeverGrouped` | merge.py:22 | With the list as written, a ".ass" subtitle is never grouped. |
| `Classify.AssGroupedWhenIntended` | merge.py:22 | With ".ass" in the list, a subtitle is grouped exactly once per matching digit run, for each time it is listed. So a listed subtitle with a matching run is grouped. |
| `Classify.FontFiles` | merge.py:75-77 | The font files are exactly the listed files whose extension is ".ttf", ".TTF" or ".otf". |
| `Classify.FontCheck` | merge.py:72-80 | There are two font arguments per font file. `Classify.FontCheckLayout` gives their order. |
| `Classify.FontCheckLayout` | merge.py:72-80 | The font arguments alternate "--add-attachment" and the input path of each font file, in directory order. |
| `Classify.AttachedFontPaths` | merge.py:134-141 | The odd positions of the font arguments are exactly the input paths of the font files, in order. |
| `EpisodeFilter.Select` | merge.py:118-121 | The selected list is no longer than the input. An element is in it exactly when it sits at a position the mask keeps. |
| `EpisodeFilter.KeepFrom` | merge.py:119-122 | The loop from any index yields the selection of the kept positions, and extends the list built so far. |
| `EpisodeFilter.Filte` | merge.py:117-122 | `filte` keeps, in order, the first number and every later one that passes the gap test. The first element survives, and the output is never longer than the input. |
| `EpisodeFilter.FilteStep` | merge.py:119-121 | Appending a number extends the result by it exactly when it is at most five above the last input number, whether or not that number was kept. |
| `EpisodeFilter.FilteMembership` | merge.py:117-122 | For duplicate-free input, a number survives exactly when it is first or is at most five above its predecessor in the input. |
| `EpisodeFilter.FilteDistinct` | merge.py:117-122 | Filtering duplicate-free input gives duplicate-free output. |
| `EpisodeFilter.FilteThree` | merge.py:117-122 | On three numbers, `filte` gives the first, then each of the others that passes its own gap test. |
| `EpisodeFilter.DropsFarNumber` | merge.py:120 | ["01","02","10"] gives ["01","02"]. |
| `EpisodeFilter.KeepsGapOfFive` | merge.py:120 | ["01","02","07","08"] is kept whole, since a gap of exactly five passes. |
| `EpisodeFilter.ComparesWithOriginalPredecessor` | merge.py:120 | ["01","09","10"] gives ["01","10"]. "10" is compared with the dropped "09", not with "01". |
| `EpisodeFilter.KeepsNegativeStep` | merge.py:120 | ["05","100","99"] gives ["05","99"], because the difference is signed. |
| `Status.Lookup` | merge.py:37-40 | A row for the number is found exactly when the table has one, and it carries that number. |
| `Status.LookupFindsRow` | merge.py:37-40 | In a table with unique numbers, the lookup finds the row at any position. |
| `Status.AppendLabel` | merge.py:37-40 | Every row with the number gets "\n" and the label appended to its Output cell. Every other cell and row is unchanged. |
| `Status.OutputInfo` | merge.py:28-43 | With an existing row, the label is appended to it and the table keeps its length. Otherwise one row [number, label, files joined with "\n" after each] is appended and the old rows stay. |
| `Status.OutputInfoLookup` | merge.py:28-43 | A report keeps numbers unique and changes only the reported episode's row. Other episodes' rows are unchanged. |
| `Status.ReportAllUnique` | merge.py:35-43 | Any run of reports keeps one row per episode. |
| `Status.ReportAllOther` | merge.py:37-40 | Reports for one episode never change another episode's row. |
| `Status.ReportAllSame` | merge.py:28-43 | After a run of reports, the episode's row holds the labels joined by newlines in call order, after any earlier output. A fresh row holds the file list of the first report. |
| `Status.ReportAllLookup` | merge.py:28-43 | The three facts above together. |
| `Status.ReportAllConcat` | merge.py:28-43 | Reporting xs then ys is reporting xs + ys. |
| `Status.TwoReportsOneRow` | merge.py:95-99 | "Merge: started" then "Merge: done" on an empty table leave one row with both labels on two lines. |
| `Status.ErrorInfo` | merge.py:57-60 | The error is appended at the end, earlier errors are kept in place, and the table is untouched. |
| `Job.ErrorText` | merge.py:104 | An error text starts with the line "<stage>: error" and then the line holding the episode number. It ends with a newline. |
| `Job.ErrorTextStages` | merge.py:104-115 | A merge failure and a font failure never leave the same error text. |
| `Job.OutputFilename` | merge.py:149 | The output file name starts with the output directory and a slash, and has the ".mkv" extension. |
| `Job.MergeCommand` | merge.py:94 | The merge argv is "mkvmerge --quiet -o <output>" followed by the grouped files in order. |
| `Job.PropeditCommand` | merge.py:107 | The propedit argv is "mkvpropedit <output>" followed by the font arguments. |
| `Job.Trail` | merge.py:95-115 | Every job's labels begin with "Merge: started" and hold at least two entries. |
| `Job.ChangeFont` | merge.py:106-115 | It runs exactly one `mkvpropedit`, and fails exactly when that exits nonzero. The row gets "Fonts: started" and then "Fonts: done" or "Fonts: error". One "Fonts: error" text is appended exactly on failure. |
| `Job.MergeFiles` | merge.py:93-104 | The first command is always the `mkvmerge` argv. The merge fails exactly on a nonzero exit. The job ends after the merge exactly when it succeeds with no fonts. The font stage fails exactly when the merge succeeded, fonts exist and `mkvpropedit` exits nonzero. `mkvpropedit` runs only in the font cases. |
| `Job.MergeFilesStore` | merge.py:93-115 | The episode's labels are reported in order. One error text is appended exactly when a stage failed, and it names that stage. |
| `Job.ProcessNumber` | merge.py:147-150 | The job runs one or two commands. The first is `mkvmerge` into the episode's output file on the files grouped for the number. The merge stage fails (`MergeFailed`) exactly when that exits nonzero. |
| `Job.ProcessNumberCommands` | merge.py:93-110 | A job's commands depend only on the exit codes, not on the store. It runs `mkvmerge` into the episode's output file on the grouped files. It then runs `mkvpropedit` exactly when the merge succeeded and there are fonts. |
| `Job.ProcessNumberStore` | merge.py:147-150 | Same as `MergeFilesStore`, for the grouped files and the episode's output name. |
| `Job.ProcessNumberIsolation` | merge.py:28-43 | A job keeps numbers unique and changes only its own episode's row, which gains its labels. Other episodes' rows are unchanged. |
| `Job.ProcessNumberOutcome` | merge.py:93-115 | How a job ends depends only on the two exit codes. What other jobs left in the store has no effect. |
| `Job.ProcessNumberErrors` | merge.py:104 | A job appends exactly its own error texts. |
| `Job.JobErrorsCount` | merge.py:101-115 | A job appends at most one error text: exactly one when a stage failed, none otherwise. |
| `Job.ProcessNumberRow` | merge.py:42-43 | An episode with no row ends up with the row its job alone would leave. |
| `Job.MergeInputsCarryNumber` | merge.py:148-150 | Every file passed to `mkvmerge` is in the directory, has a listed media extension, and has a digit run padding to the episode number. |
| `Job.OutputFilenameInjective` | merge.py:149 | Two episode numbers never share an output file. |
| `Batch.Configure` | merge.py:153-167 | A given `--filename`, `--output`, `--input` or `--season` replaces its default. A missing one keeps the default. The media list stays as written in merge.py:22. |
| `Batch.ConfigureWithoutArguments` | merge.py:16-22 | Without arguments the settings are the module-level values, including the media list as written. |
| `Batch.ConfiguredNeverGroupsSubtitles` | merge.py:153-167 | No argument reaches the media list. So whatever the arguments, a ".ass" subtitle is never passed to `mkvmerge`. |
| `Batch.RunJobs` | merge.py:139 | The commands run are exactly each job's commands, in job order. Each job's commands are read off the exit codes (`Job.JobCommands`). One or two per job, so between one and two per number in total. |
| `Batch.AllCommandsMerge` | merge.py:139-150 | For every number, `mkvmerge` runs into that episode's output file on the files grouped for it. |
| `Batch.RunJobsUnique` | merge.py:139 | The jobs keep one row per episode. |
| `Batch.RunJobsOthers` | merge.py:139 | Jobs leave the rows of episodes they are not for untouched. |
| `Batch.RunJobsOwnRow` | merge.py:139 | With distinct numbers and no prior rows, each episode's row is the one its job alone would leave. Jobs do not interfere. |
| `Batch.RunJobsErrors` | merge.py:139 | The error list is the failed jobs' texts in job order. |
| `Batch.Main` | merge.py:124-141 | `main` fails exactly when no episode number is found. Otherwise the kept numbers start with the smallest candidate and are no more than the candidates. The added fonts are half the font arguments. |
| `Batch.MainFailsIffNoNumbers` | merge.py:132-137 | `main` fails (`filte` indexes an empty list) exactly when no ".mkv" file name contains a digit. |
| `Batch.MainNumbers` | merge.py:133-137 | The kept numbers are distinct and were all found by `find_unique_numbers`. |
| `Batch.MainRows` | merge.py:133-139 | The table has a row for a number exactly when the number was kept. Each kept number's row is its job's labels and grouped files. |
| `Batch.MainAddedFonts` | merge.py:134-142 | The listed added fonts are the input paths of the font files, in directory order. |
| `Batch.MainCommands` | merge.py:137-139 | The commands `main` runs are the jobs' commands for the kept numbers, in order. |
| `Batch.MainErrors` | merge.py:139-145 | The printed errors are the failed jobs' texts in job order. |

## Left out

- Concurrency. The source runs the jobs on a joblib thread pool, and a lock
  guards each report. The model runs the jobs one after another in list
  order. Each job touches only its own row (`Job.ProcessNumberIsolation`),
  so every order gives the same rows; only the order of the rows, of the
  commands and of the errors may differ.
- Rendering. The PrettyTable drawing, the `clear` call, `time.sleep`, every
  `print` and the `base_info` banner are output only. The table's sort by
  the EP column affects drawing, not the stored rows.
- Subprocess I/O. `subprocess.Popen` is replaced by the `exec` oracle, and
  UTF-8 decoding of stdout and stderr is taken as already done.
- Exceptions from the external programs. `subprocess.Popen` raises when
  `mkvmerge` or `mkvpropedit` cannot be started (merge.py:96 and 109). The
  `.decode('utf-8')` call raises on output that is not UTF-8 (merge.py:104
  and 115). Either exception propagates out of `joblib.Parallel`
  (merge.py:139) and ends `main` before the added fonts and the errors are
  printed (merge.py:141-145). The model's `exec` always returns a result, so
  `Batch.Main` always reaches its end.
- The directory listing (`os.listdir`) and `multiprocessing.cpu_count()`.
  The listing is a parameter and the core count is not used.
- Argument parsing. `argparse` itself is not modelled; `Batch.Configure`
  models only how the four parsed values override the settings.
- Digits are ASCII '0'..'9'. Python's `\d` and `int()` also accept other
  Unicode decimal digits, and `int()` accepts surrounding whitespace and a
  sign. Digit runs never contain those.
- The outlier test is the signed difference `int(n[i]) - int(n[i-1]) <= 5`
  (merge.py:120). The comment on that line only says the difference between
  two episodes is less than 6. No absolute value is taken, so a number
  smaller than its predecessor is always kept
  (`EpisodeFilter.KeepsNegativeStep`).
- Episode numbers have at least two digits, not exactly two, because
  `zfill(2)` never truncates.
- Per-file language and track-name options for `mkvmerge` are not in
  merge.py and are not modelled.

## Findings

| source | as written | input that shows it | evidently intended | confidence | as-written member | corrected member |
|---|---|---|---|---|---|---|
| merge.py:22 | `media_extensions = ['.mka', '.mkv', 'ass']`. `os.path.splitext` always returns an extension starting with '.', so the entry 'ass' never matches. | A directory with "Show 01.mkv" and "Show 01.ass": the subtitle is never passed to `mkvmerge` for episode "01". | `'.ass'`, so that subtitles are grouped with their episode. | high, not executed | `Classify.GroupIgnoresAssEntry`, `Classify.AssNeverGrouped` (with `Classify.MediaExtensions`) | `Classify.AssGroupedWhenIntended` (with `Classify.IntendedMediaExtensions`) |

The job and batch modules take the extension list from `Settings`.
`Batch.Defaults` and `Batch.Configure` carry the list as written, so the
modelled program never groups a subtitle
(`Batch.ConfiguredNeverGroupsSubtitles`). A `Settings` value with
`Classify.IntendedMediaExtensions` gives the corrected program. Every job
and batch property is stated for any list, so it holds for both.
