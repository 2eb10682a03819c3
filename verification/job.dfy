/** One episode's job in merge.py: `process_number` groups the episode's
    media files and names the output, `merge_files` runs `mkvmerge` on them
    and, when that succeeds and there are fonts, `change_font` runs
    `mkvpropedit` to attach the fonts. Every stage is reported to the status
    table, and every failure appends an error text.

    The external programs are not run: `exec` maps an argument vector to
    the exit code and captured output the program would produce. */
module Job {
  import opened Wrappers
  import opened PyText
  import opened Status
  import opened Classify

  /** What `subprocess.Popen(...).communicate()` and `returncode` yield,
      with the output already decoded. */
  datatype ProcessResult = ProcessResult(returncode: int, stdout: string, stderr: string)

  /** The module-level settings `base_filename`, `outputPath`, `inputPath`,
      `Season`, and the media extension list the grouping uses. */
  datatype Settings = Settings(
    baseFilename: string,
    outputPath: string,
    inputPath: string,
    season: string,
    mediaExtensions: seq<string>)

  /** How a job ends. */
  datatype Outcome = MergeFailed | Merged | FontsAttached | FontsFailed

  /** A job's effect: the commands it ran in order, the store it leaves and
      how it ended. */
  datatype Run = Run(commands: seq<seq<string>>, store: Store, outcome: Outcome)

  function MergeCommand(outputFilename: string, fileList: seq<string>): (argv: seq<string>)
    ensures |argv| == 4 + |fileList|
    ensures argv[..4] == ["mkvmerge", "--quiet", "-o", outputFilename]
    ensures argv[4..] == fileList
  {
    ["mkvmerge", "--quiet", "-o", outputFilename] + fileList
  }

  function PropeditCommand(outputFilename: string, fontsList: seq<string>): (argv: seq<string>)
    ensures |argv| == 2 + |fontsList|
    ensures argv[..2] == ["mkvpropedit", outputFilename]
    ensures argv[2..] == fontsList
  {
    ["mkvpropedit", outputFilename] + fontsList
  }

  /** The text `error_info` receives when `stage` ("Merge" or "Fonts") fails. */
  function ErrorText(stage: string, number: string, p: ProcessResult): (text: string)
    ensures stage + ": error\n" + number + "\n" <= text
    ensures text[|text| - 1] == '\n'
  {
    var head := stage + ": error\n" + number + "\n";
    var text := head + p.stdout + "\n" + p.stderr + "\n";
    assert text == head + (p.stdout + "\n" + p.stderr + "\n");
    text
  }

  /** A merge failure and a font failure never leave the same error text. */
  lemma ErrorTextStages(a: string, pa: ProcessResult, b: string, pb: ProcessResult)
    ensures ErrorText("Merge", a, pa) != ErrorText("Fonts", b, pb)
  {
    assert ErrorText("Merge", a, pa)[0] == "Merge: error\n"[0];
    assert ErrorText("Fonts", b, pb)[0] == "Fonts: error\n"[0];
  }

  /** The labels the font stage reports, for each way a job can end. */
  function FontTrail(o: Outcome): seq<string> {
    match o
    case FontsAttached => ["Fonts: started", "Fonts: done"]
    case FontsFailed => ["Fonts: started", "Fonts: error"]
    case _ => []
  }

  /** All labels a job reports, in order, for each way it can end. */
  function Trail(o: Outcome): (labels: seq<string>)
    ensures |labels| >= 2 && labels[0] == "Merge: started"
  {
    (if o == MergeFailed then ["Merge: started", "Merge: error"] else ["Merge: started", "Merge: done"])
      + FontTrail(o)
  }

  /** The error texts a job appends, given what each stage returned. */
  function ErrorsOf(o: Outcome, number: string, merge: ProcessResult, fonts: ProcessResult): seq<string> {
    match o
    case MergeFailed => [ErrorText("Merge", number, merge)]
    case FontsFailed => [ErrorText("Fonts", number, fonts)]
    case _ => []
  }

  /** `f"{outputPath}/{base_filename} - S{Season}E{number}.mkv"`. */
  function OutputFilename(settings: Settings, number: string): (path: string)
    ensures settings.outputPath + "/" <= path
    ensures |path| >= 4 && path[|path| - 4..] == ContainerExtension
  {
    var dir := settings.outputPath + "/";
    var path := dir + (settings.baseFilename + " - S" + settings.season + "E" + number) + ".mkv";
    assert path[..|dir|] == dir;
    path
  }

  /** `change_font(output_filename, fonts_list, number, file_list)`. */
  function ChangeFont(outputFilename: string, fontsList: seq<string>, number: string, fileList: seq<string>,
                      store: Store, exec: seq<string> -> ProcessResult): (run: Run)
    ensures run.commands == [PropeditCommand(outputFilename, fontsList)]
    ensures run.outcome == FontsAttached || run.outcome == FontsFailed
    ensures run.outcome == FontsFailed <==> exec(PropeditCommand(outputFilename, fontsList)).returncode != 0
    ensures run.store.table == ReportAll(store.table, number, FontTrail(run.outcome), fileList)
    ensures run.store.errors ==
      store.errors + ErrorsOf(run.outcome, number, exec(PropeditCommand(outputFilename, fontsList)),
                              exec(PropeditCommand(outputFilename, fontsList)))
  {
    var command := PropeditCommand(outputFilename, fontsList);
    var started := Report(store, number, "Fonts: started", fileList);
    var p := exec(command);
    if p.returncode == 0 then
      ReportTwice(store.table, number, "Fonts: started", "Fonts: done", fileList);
      Run([command], Report(started, number, "Fonts: done", fileList), FontsAttached)
    else
      ReportTwice(store.table, number, "Fonts: started", "Fonts: error", fileList);
      var failed := Report(started, number, "Fonts: error", fileList);
      Run([command], ErrorInfo(failed, ErrorText("Fonts", number, p)), FontsFailed)
  }

  /** Two reports in a row are `ReportAll` of the two labels. */
  lemma ReportTwice(table: seq<Row>, number: string, a: string, b: string, fileList: seq<string>)
    ensures ReportAll(table, number, [a, b], fileList) ==
      OutputInfo(OutputInfo(table, number, a, fileList), number, b, fileList)
  {
    ReportAllSnoc(table, number, [], a, fileList);
    assert [] + [a] == [a];
    ReportAllSnoc(table, number, [a], b, fileList);
    assert [a] + [b] == [a, b];
  }

  /** `merge_files(file_list, output_filename, fonts_list, number)`. */
  function MergeFiles(fileList: seq<string>, outputFilename: string, fontsList: seq<string>, number: string,
                      store: Store, exec: seq<string> -> ProcessResult): (run: Run)
    ensures |run.commands| > 0 && run.commands[0] == MergeCommand(outputFilename, fileList)
    ensures run.outcome == MergeFailed <==> exec(MergeCommand(outputFilename, fileList)).returncode != 0
    ensures run.outcome == Merged <==>
      exec(MergeCommand(outputFilename, fileList)).returncode == 0 && |fontsList| == 0
    ensures run.outcome == FontsFailed <==>
      && exec(MergeCommand(outputFilename, fileList)).returncode == 0 && |fontsList| > 0
      && exec(PropeditCommand(outputFilename, fontsList)).returncode != 0
    ensures run.commands == [MergeCommand(outputFilename, fileList)] +
      (if run.outcome == MergeFailed || run.outcome == Merged then [] else [PropeditCommand(outputFilename, fontsList)])
  {
    var command := MergeCommand(outputFilename, fileList);
    var started := Report(store, number, "Merge: started", fileList);
    var p := exec(command);
    if p.returncode == 0 then
      var done := Report(started, number, "Merge: done", fileList);
      if |fontsList| > 0 then
        var fonts := ChangeFont(outputFilename, fontsList, number, fileList, done, exec);
        Run([command] + fonts.commands, fonts.store, fonts.outcome)
      else
        Run([command], done, Merged)
    else
      var failed := Report(started, number, "Merge: error", fileList);
      Run([command], ErrorInfo(failed, ErrorText("Merge", number, p)), MergeFailed)
  }

  /** What `merge_files` leaves in the store: the episode's stage labels
      reported in order, and one error text exactly when a stage failed. */
  lemma MergeFilesStore(fileList: seq<string>, outputFilename: string, fontsList: seq<string>, number: string,
                        store: Store, exec: seq<string> -> ProcessResult)
    ensures var run := MergeFiles(fileList, outputFilename, fontsList, number, store, exec);
      && run.store.table == ReportAll(store.table, number, Trail(run.outcome), fileList)
      && run.store.errors ==
           store.errors + ErrorsOf(run.outcome, number, exec(MergeCommand(outputFilename, fileList)),
                                   exec(PropeditCommand(outputFilename, fontsList)))
  {
    var run := MergeFiles(fileList, outputFilename, fontsList, number, store, exec);
    var started := Report(store, number, "Merge: started", fileList);
    if run.outcome == MergeFailed {
      ReportTwice(store.table, number, "Merge: started", "Merge: error", fileList);
      assert Trail(MergeFailed) == ["Merge: started", "Merge: error"];
    } else {
      ReportTwice(store.table, number, "Merge: started", "Merge: done", fileList);
      var done := Report(started, number, "Merge: done", fileList);
      if run.outcome == Merged {
        assert Trail(Merged) == ["Merge: started", "Merge: done"];
      } else {
        var fonts := ChangeFont(outputFilename, fontsList, number, fileList, done, exec);
        ReportAllConcat(store.table, number, ["Merge: started", "Merge: done"], FontTrail(fonts.outcome), fileList);
      }
    }
  }

  /** `process_number(number, file_list, fonts_list)`. */
  function ProcessNumber(settings: Settings, files: seq<string>, fontsList: seq<string>, number: string,
                         store: Store, exec: seq<string> -> ProcessResult): (run: Run)
    ensures 1 <= |run.commands| <= 2
    ensures run.commands[0] ==
      MergeCommand(OutputFilename(settings, number), GroupFilesByNumber(settings.mediaExtensions, files, number))
    ensures run.outcome == MergeFailed <==> exec(run.commands[0]).returncode != 0
  {
    MergeFiles(GroupFilesByNumber(settings.mediaExtensions, files, number), OutputFilename(settings, number),
               fontsList, number, store, exec)
  }

  /** What `process_number` leaves in the store: the labels reported for
      the episode in order, with the grouped files in a fresh row, and one
      error text exactly when a stage failed. */
  lemma ProcessNumberStore(settings: Settings, files: seq<string>, fontsList: seq<string>, number: string,
                           store: Store, exec: seq<string> -> ProcessResult)
    ensures var run := ProcessNumber(settings, files, fontsList, number, store, exec);
      var grouped := GroupFilesByNumber(settings.mediaExtensions, files, number);
      var output := OutputFilename(settings, number);
      && run.store.table == ReportAll(store.table, number, Trail(run.outcome), grouped)
      && run.store.errors ==
           store.errors + ErrorsOf(run.outcome, number, exec(MergeCommand(output, grouped)),
                                   exec(PropeditCommand(output, fontsList)))
  {
    var grouped := GroupFilesByNumber(settings.mediaExtensions, files, number);
    MergeFilesStore(grouped, OutputFilename(settings, number), fontsList, number, store, exec);
  }

  /** A job touches only its own episode's row: every other row is left as
      it was, and its own row gains the job's labels after any it had. */
  lemma ProcessNumberIsolation(settings: Settings, files: seq<string>, fontsList: seq<string>, number: string,
                               store: Store, exec: seq<string> -> ProcessResult, m: string)
    requires UniqueEps(store.table)
    ensures var run := ProcessNumber(settings, files, fontsList, number, store, exec);
      && UniqueEps(run.store.table)
      && (m != number ==> Lookup(run.store.table, m) == Lookup(store.table, m))
      && Lookup(run.store.table, number) ==
           Some(Updated(Lookup(store.table, number), number, Trail(run.outcome),
                        GroupFilesByNumber(settings.mediaExtensions, files, number)))
  {
    var run := ProcessNumber(settings, files, fontsList, number, store, exec);
    ProcessNumberStore(settings, files, fontsList, number, store, exec);
    ReportAllLookup(store.table, number, Trail(run.outcome),
                    GroupFilesByNumber(settings.mediaExtensions, files, number), m);
  }

  /** How a job ends is decided by the two exit codes alone, whatever the
      other jobs left in the store. */
  lemma ProcessNumberOutcome(settings: Settings, files: seq<string>, fontsList: seq<string>, number: string,
                             store: Store, exec: seq<string> -> ProcessResult)
    ensures ProcessNumber(settings, files, fontsList, number, store, exec).outcome ==
      JobOutcome(settings, files, fontsList, number, exec)
  {
    var grouped := GroupFilesByNumber(settings.mediaExtensions, files, number);
    var run := MergeFiles(grouped, OutputFilename(settings, number), fontsList, number, store, exec);
    assert ProcessNumber(settings, files, fontsList, number, store, exec) == run;
  }

  /** Every input `mkvmerge` receives is a file of the directory with a
      media extension and a digit run that pads to the episode number. */
  lemma MergeInputsCarryNumber(settings: Settings, files: seq<string>, fontsList: seq<string>, number: string,
                               store: Store, exec: seq<string> -> ProcessResult, k: int)
    requires 4 <= k < |ProcessNumber(settings, files, fontsList, number, store, exec).commands[0]|
    ensures var f := ProcessNumber(settings, files, fontsList, number, store, exec).commands[0][k];
      && f in files && Ext(f) in settings.mediaExtensions
      && exists d :: d in DigitRuns(f) && ZFill(d, 2) == number
  {
    var grouped := GroupFilesByNumber(settings.mediaExtensions, files, number);
    var argv := ProcessNumber(settings, files, fontsList, number, store, exec).commands[0];
    assert argv[4..] == grouped;
    assert argv[k] == grouped[k - 4];
    assert Matches(argv[k], number) > 0;
  }

  /** Two episode numbers never share an output file. */
  lemma OutputFilenameInjective(settings: Settings, a: string, b: string)
    requires OutputFilename(settings, a) == OutputFilename(settings, b)
    ensures a == b
  {
    var prefix := settings.outputPath + "/" + settings.baseFilename + " - S" + settings.season + "E";
    var x := OutputFilename(settings, a);
    assert x == prefix + a + ".mkv";
    assert OutputFilename(settings, b) == prefix + b + ".mkv";
    assert |a| == |b|;
    assert a == x[|prefix|..|prefix| + |a|];
  }

  /** How the job for `number` ends, read off the exit codes: `mkvmerge`
      decides first, then, if it succeeded and there are fonts, `mkvpropedit`. */
  function JobOutcome(settings: Settings, files: seq<string>, fontsList: seq<string>, number: string,
                      exec: seq<string> -> ProcessResult): Outcome
  {
    var output := OutputFilename(settings, number);
    var grouped := GroupFilesByNumber(settings.mediaExtensions, files, number);
    if exec(MergeCommand(output, grouped)).returncode != 0 then MergeFailed
    else if |fontsList| == 0 then Merged
    else if exec(PropeditCommand(output, fontsList)).returncode != 0 then FontsFailed
    else FontsAttached
  }

  /** The commands the job for `number` runs, read off the exit codes:
      `mkvmerge` into the episode's output file, then `mkvpropedit` only if
      the merge succeeded and there are fonts. */
  function JobCommands(settings: Settings, files: seq<string>, fontsList: seq<string>, number: string,
                       exec: seq<string> -> ProcessResult): seq<seq<string>>
  {
    var output := OutputFilename(settings, number);
    var merge := MergeCommand(output, GroupFilesByNumber(settings.mediaExtensions, files, number));
    [merge] + (if exec(merge).returncode == 0 && |fontsList| > 0 then [PropeditCommand(output, fontsList)] else [])
  }

  /** The commands a job runs are decided by the exit codes alone, whatever
      the other jobs left in the store. */
  lemma ProcessNumberCommands(settings: Settings, files: seq<string>, fontsList: seq<string>, number: string,
                              store: Store, exec: seq<string> -> ProcessResult)
    ensures ProcessNumber(settings, files, fontsList, number, store, exec).commands ==
      JobCommands(settings, files, fontsList, number, exec)
  {
    var grouped := GroupFilesByNumber(settings.mediaExtensions, files, number);
    var run := MergeFiles(grouped, OutputFilename(settings, number), fontsList, number, store, exec);
    assert ProcessNumber(settings, files, fontsList, number, store, exec) == run;
  }

  /** The row a job leaves for its episode when the episode had none. */
  function JobRow(settings: Settings, files: seq<string>, fontsList: seq<string>, number: string,
                  exec: seq<string> -> ProcessResult): Row
  {
    Row(number, JoinLines(Trail(JobOutcome(settings, files, fontsList, number, exec))),
        FilesCell(GroupFilesByNumber(settings.mediaExtensions, files, number)))
  }

  /** The error texts the job for `number` appends. */
  function JobErrors(settings: Settings, files: seq<string>, fontsList: seq<string>, number: string,
                     exec: seq<string> -> ProcessResult): seq<string>
  {
    var output := OutputFilename(settings, number);
    var grouped := GroupFilesByNumber(settings.mediaExtensions, files, number);
    ErrorsOf(JobOutcome(settings, files, fontsList, number, exec), number,
             exec(MergeCommand(output, grouped)), exec(PropeditCommand(output, fontsList)))
  }

  /** A job appends one error text when a stage failed and none otherwise. */
  lemma JobErrorsCount(settings: Settings, files: seq<string>, fontsList: seq<string>, number: string,
                       exec: seq<string> -> ProcessResult)
    ensures var o := JobOutcome(settings, files, fontsList, number, exec);
      |JobErrors(settings, files, fontsList, number, exec)| == if o == MergeFailed || o == FontsFailed then 1 else 0
  {
  }

  /** A job's errors are the error texts of its own outcome. */
  lemma ProcessNumberErrors(settings: Settings, files: seq<string>, fontsList: seq<string>, number: string,
                            store: Store, exec: seq<string> -> ProcessResult)
    ensures ProcessNumber(settings, files, fontsList, number, store, exec).store.errors ==
      store.errors + JobErrors(settings, files, fontsList, number, exec)
  {
    ProcessNumberStore(settings, files, fontsList, number, store, exec);
    ProcessNumberOutcome(settings, files, fontsList, number, store, exec);
  }

  /** An episode with no row gets the row its job alone would leave. */
  lemma ProcessNumberRow(settings: Settings, files: seq<string>, fontsList: seq<string>, number: string,
                         store: Store, exec: seq<string> -> ProcessResult)
    requires UniqueEps(store.table) && !HasRow(store.table, number)
    ensures Lookup(ProcessNumber(settings, files, fontsList, number, store, exec).store.table, number) ==
      Some(JobRow(settings, files, fontsList, number, exec))
  {
    ProcessNumberIsolation(settings, files, fontsList, number, store, exec, number);
    ProcessNumberOutcome(settings, files, fontsList, number, store, exec);
  }
}
