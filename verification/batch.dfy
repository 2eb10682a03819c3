/** The driver of merge.py: the command-line overrides of the settings and
    `main`, which lists the episode numbers, drops outliers, builds the font
    arguments once, runs one job per episode number and reports the added
    fonts and the collected errors.

    The jobs run one after another in the order of the numbers; the thread
    pool of the source is not modelled (see README). */
module Batch {
  import opened Wrappers
  import opened PyText
  import opened StrOrder
  import opened Classify
  import opened EpisodeFilter
  import opened Status
  import opened Job

  /** The optional arguments `--filename`, `--output`, `--input`, `--season`. */
  datatype Options = Options(
    filename: Option<string>,
    output: Option<string>,
    input: Option<string>,
    season: Option<string>)

  /** The module-level settings merge.py starts from before any argument
      is read, with `media_extensions` as written. */
  const Defaults: Settings :=
    Settings("Akashic Records of Bastard Magic Instructor", "/mnt/c/tmp", "/mnt/d/tmp", "01", MediaExtensions)

  /** Each given argument replaces its setting; a missing one keeps the
      default, and the media extension list is never configurable. */
  function Configure(options: Options): (settings: Settings)
    ensures options.filename.Some? ==> settings.baseFilename == options.filename.value
    ensures options.filename.None? ==> settings.baseFilename == Defaults.baseFilename
    ensures options.output.Some? ==> settings.outputPath == options.output.value
    ensures options.output.None? ==> settings.outputPath == Defaults.outputPath
    ensures options.input.Some? ==> settings.inputPath == options.input.value
    ensures options.input.None? ==> settings.inputPath == Defaults.inputPath
    ensures options.season.Some? ==> settings.season == options.season.value
    ensures options.season.None? ==> settings.season == Defaults.season
    ensures settings.mediaExtensions == MediaExtensions
  {
    Settings(
      (if options.filename.Some? then options.filename.value else Defaults.baseFilename),
      (if options.output.Some? then options.output.value else Defaults.outputPath),
      (if options.input.Some? then options.input.value else Defaults.inputPath),
      (if options.season.Some? then options.season.value else Defaults.season),
      Defaults.mediaExtensions)
  }

  /** Without arguments the program runs on its module-level settings. */
  lemma ConfigureWithoutArguments()
    ensures Configure(Options(None, None, None, None)) == Defaults
    ensures Defaults.season == "01" && Defaults.outputPath == "/mnt/c/tmp" && Defaults.inputPath == "/mnt/d/tmp"
    ensures Defaults.mediaExtensions == [".mka", ".mkv", "ass"]
  {
  }

  /** Whatever the arguments, the configured program never passes a ".ass"
      subtitle to `mkvmerge`: no option reaches the extension list. */
  lemma ConfiguredNeverGroupsSubtitles(options: Options, files: seq<string>, number: string, f: string)
    requires Ext(f) == ".ass"
    ensures f !in GroupFilesByNumber(Configure(options).mediaExtensions, files, number)
  {
    AssNeverGrouped(files, number, f);
  }

  /** The commands run and the store left by a sequence of jobs. */
  datatype Jobs = Jobs(commands: seq<seq<string>>, store: Store)

  /** The job for each of `numbers` in turn, each on the store the one
      before it left. */
  function RunAll(numbers: seq<string>, store: Store, job: (string, Store) -> Run): Jobs
    decreases |numbers|
  {
    if |numbers| == 0 then Jobs([], store)
    else
      var n := |numbers| - 1;
      var before := RunAll(numbers[..n], store, job);
      var run := job(numbers[n], before.store);
      Jobs(before.commands + run.commands, run.store)
  }

  /** `process_number` as a job. */
  function JobOf(settings: Settings, files: seq<string>, fontsList: seq<string>,
                 exec: seq<string> -> ProcessResult): (string, Store) -> Run
  {
    (m, st) => ProcessNumber(settings, files, fontsList, m, st, exec)
  }

  /** The outputs `part(m)` of every `m` in `numbers`, concatenated in order. */
  function Flatten<T>(numbers: seq<string>, part: string -> seq<T>): seq<T>
    decreases |numbers|
  {
    if |numbers| == 0 then []
    else
      var n := |numbers| - 1;
      Flatten(numbers[..n], part) + part(numbers[n])
  }

  /** The commands the job for each number decides on. */
  function JobCommandsOf(settings: Settings, files: seq<string>, fontsList: seq<string>,
                         exec: seq<string> -> ProcessResult): string -> seq<seq<string>>
  {
    m => JobCommands(settings, files, fontsList, m, exec)
  }

  /** The error texts the job for each number appends. */
  function JobErrorsOf(settings: Settings, files: seq<string>, fontsList: seq<string>,
                       exec: seq<string> -> ProcessResult): string -> seq<string>
  {
    m => JobErrors(settings, files, fontsList, m, exec)
  }

  /** The row the job for each number leaves when its episode had none. */
  function JobRowOf(settings: Settings, files: seq<string>, fontsList: seq<string>,
                    exec: seq<string> -> ProcessResult): string -> Row
  {
    m => JobRow(settings, files, fontsList, m, exec)
  }

  /** The commands of the jobs for `numbers`, in job order. */
  function AllCommands(settings: Settings, files: seq<string>, fontsList: seq<string>, numbers: seq<string>,
                       exec: seq<string> -> ProcessResult): seq<seq<string>>
  {
    Flatten(numbers, JobCommandsOf(settings, files, fontsList, exec))
  }

  /** The error texts of the jobs for `numbers`, in job order. */
  function AllErrors(settings: Settings, files: seq<string>, fontsList: seq<string>, numbers: seq<string>,
                     exec: seq<string> -> ProcessResult): seq<string>
  {
    Flatten(numbers, JobErrorsOf(settings, files, fontsList, exec))
  }

  /** `process_number` for each number in turn (the thread pool of the
      source, run sequentially): the commands run are exactly those each job
      decides on from the exit codes, in job order. */
  function RunJobs(settings: Settings, files: seq<string>, fontsList: seq<string>, numbers: seq<string>,
                   store: Store, exec: seq<string> -> ProcessResult): (jobs: Jobs)
    ensures jobs.commands == AllCommands(settings, files, fontsList, numbers, exec)
    ensures |numbers| <= |jobs.commands| <= 2 * |numbers|
  {
    var job := JobOf(settings, files, fontsList, exec);
    var commands := JobCommandsOf(settings, files, fontsList, exec);
    JobRunsCommands(settings, files, fontsList, exec);
    RunAllCommands(numbers, store, job, commands);
    JobCommandsCount(settings, files, fontsList, exec);
    FlattenBounds(numbers, commands);
    RunAll(numbers, store, job)
  }

  // ---------------------------------------------------------------------------
  // What each job guarantees, and what a run of jobs inherits from it
  // ---------------------------------------------------------------------------

  /** A job keeps the episode numbers of the table unique. */
  ghost predicate KeepsUnique(job: (string, Store) -> Run) {
    forall m: string, st: Store :: UniqueEps(st.table) ==> UniqueEps(job(m, st).store.table)
  }

  /** The job for `m` leaves the row of every other episode as it was. */
  ghost predicate Isolated(job: (string, Store) -> Run) {
    forall m: string, st: Store, x: string :: UniqueEps(st.table) && x != m ==> Lookup(job(m, st).store.table, x) == Lookup(st.table, x)
  }

  /** The job for `m` gives its episode, which had no row, the row `row(m)`. */
  ghost predicate FreshRow(job: (string, Store) -> Run, row: string -> Row) {
    forall m: string, st: Store :: UniqueEps(st.table) && !HasRow(st.table, m) ==> Lookup(job(m, st).store.table, m) == Some(row(m))
  }

  /** The job for `m` appends `errors(m)` to the error list and nothing else. */
  ghost predicate AppendsErrors(job: (string, Store) -> Run, errors: string -> seq<string>) {
    forall m: string, st: Store :: job(m, st).store.errors == st.errors + errors(m)
  }

  /** The job for `m` runs `commands(m)`, whatever the store. */
  ghost predicate RunsCommands(job: (string, Store) -> Run, commands: string -> seq<seq<string>>) {
    forall m: string, st: Store :: job(m, st).commands == commands(m)
  }

  lemma JobKeepsUnique(settings: Settings, files: seq<string>, fontsList: seq<string>, exec: seq<string> -> ProcessResult)
    ensures KeepsUnique(JobOf(settings, files, fontsList, exec))
  {
    forall m: string, st: Store | UniqueEps(st.table)
      ensures UniqueEps(ProcessNumber(settings, files, fontsList, m, st, exec).store.table)
    {
      ProcessNumberIsolation(settings, files, fontsList, m, st, exec, m);
    }
  }

  lemma JobIsolated(settings: Settings, files: seq<string>, fontsList: seq<string>, exec: seq<string> -> ProcessResult)
    ensures Isolated(JobOf(settings, files, fontsList, exec))
  {
    forall m: string, st: Store, x: string | UniqueEps(st.table) && x != m
      ensures Lookup(ProcessNumber(settings, files, fontsList, m, st, exec).store.table, x) == Lookup(st.table, x)
    {
      ProcessNumberIsolation(settings, files, fontsList, m, st, exec, x);
    }
  }

  lemma JobFreshRow(settings: Settings, files: seq<string>, fontsList: seq<string>, exec: seq<string> -> ProcessResult)
    ensures FreshRow(JobOf(settings, files, fontsList, exec), JobRowOf(settings, files, fontsList, exec))
  {
    forall m: string, st: Store | UniqueEps(st.table) && !HasRow(st.table, m)
      ensures Lookup(ProcessNumber(settings, files, fontsList, m, st, exec).store.table, m) ==
        Some(JobRow(settings, files, fontsList, m, exec))
    {
      ProcessNumberRow(settings, files, fontsList, m, st, exec);
    }
  }

  lemma JobAppendsErrors(settings: Settings, files: seq<string>, fontsList: seq<string>, exec: seq<string> -> ProcessResult)
    ensures AppendsErrors(JobOf(settings, files, fontsList, exec), JobErrorsOf(settings, files, fontsList, exec))
  {
    forall m: string, st: Store
      ensures ProcessNumber(settings, files, fontsList, m, st, exec).store.errors ==
        st.errors + JobErrors(settings, files, fontsList, m, exec)
    {
      ProcessNumberErrors(settings, files, fontsList, m, st, exec);
    }
  }

  lemma JobRunsCommands(settings: Settings, files: seq<string>, fontsList: seq<string>, exec: seq<string> -> ProcessResult)
    ensures RunsCommands(JobOf(settings, files, fontsList, exec), JobCommandsOf(settings, files, fontsList, exec))
  {
    forall m: string, st: Store
      ensures ProcessNumber(settings, files, fontsList, m, st, exec).commands ==
        JobCommands(settings, files, fontsList, m, exec)
    {
      ProcessNumberCommands(settings, files, fontsList, m, st, exec);
    }
  }

  /** A job runs one command or two. */
  lemma JobCommandsCount(settings: Settings, files: seq<string>, fontsList: seq<string>, exec: seq<string> -> ProcessResult)
    ensures forall m :: 1 <= |JobCommandsOf(settings, files, fontsList, exec)(m)| <= 2
  {
  }

  /** Jobs that keep numbers unique keep them unique together. */
  lemma {:induction false} RunAllUnique(numbers: seq<string>, store: Store, job: (string, Store) -> Run)
    requires KeepsUnique(job) && UniqueEps(store.table)
    ensures UniqueEps(RunAll(numbers, store, job).store.table)
    decreases |numbers|
  {
    if |numbers| > 0 {
      var n := |numbers| - 1;
      RunAllUnique(numbers[..n], store, job);
      var before := RunAll(numbers[..n], store, job);
      assert UniqueEps(job(numbers[n], before.store).store.table);
    }
  }

  /** Isolated jobs leave the row of an episode none of them is for as it was. */
  lemma {:induction false} RunAllOthers(numbers: seq<string>, store: Store, job: (string, Store) -> Run, x: string)
    requires KeepsUnique(job) && Isolated(job) && UniqueEps(store.table) && x !in numbers
    ensures Lookup(RunAll(numbers, store, job).store.table, x) == Lookup(store.table, x)
    decreases |numbers|
  {
    if |numbers| > 0 {
      var n := |numbers| - 1;
      NotInFront(numbers, x);
      RunAllOthers(numbers[..n], store, job, x);
      RunAllUnique(numbers[..n], store, job);
      var before := RunAll(numbers[..n], store, job);
      assert Lookup(job(numbers[n], before.store).store.table, x) == Lookup(before.store.table, x);
    }
  }

  lemma NotInFront(xs: seq<string>, m: string)
    requires |xs| > 0 && m !in xs
    ensures m !in xs[..|xs| - 1] && m != xs[|xs| - 1]
  {
    assert xs == xs[..|xs| - 1] + [xs[|xs| - 1]];
  }

  /** Isolated jobs for distinct numbers without rows each leave their own
      episode the row that job alone would leave. */
  lemma {:induction false} RunAllOwnRow(numbers: seq<string>, store: Store, job: (string, Store) -> Run,
                                        row: string -> Row, i: int)
    requires KeepsUnique(job) && Isolated(job) && FreshRow(job, row)
    requires UniqueEps(store.table) && Distinct(numbers) && 0 <= i < |numbers|
    requires forall k :: 0 <= k < |numbers| ==> !HasRow(store.table, numbers[k])
    ensures Lookup(RunAll(numbers, store, job).store.table, numbers[i]) == Some(row(numbers[i]))
    decreases |numbers|
  {
    var n := |numbers| - 1;
    var front := numbers[..n];
    var before := RunAll(front, store, job);
    assert numbers[n] !in front by {
      forall k | 0 <= k < n
        ensures front[k] != numbers[n]
      {
        assert numbers[k] != numbers[n];
      }
    }
    RunAllUnique(front, store, job);
    if i == n {
      RunAllOthers(front, store, job, numbers[n]);
      assert !HasRow(before.store.table, numbers[n]);
      assert Lookup(job(numbers[n], before.store).store.table, numbers[n]) == Some(row(numbers[n]));
    } else {
      assert forall k :: 0 <= k < n ==> front[k] == numbers[k];
      assert Distinct(front);
      RunAllOwnRow(front, store, job, row, i);
      assert front[i] == numbers[i];
      assert Lookup(job(numbers[n], before.store).store.table, numbers[i]) == Lookup(before.store.table, numbers[i]);
    }
  }

  /** Jobs that each append their own errors append them all, in job order. */
  lemma {:induction false} RunAllErrors(numbers: seq<string>, store: Store, job: (string, Store) -> Run,
                                        errors: string -> seq<string>)
    requires AppendsErrors(job, errors)
    ensures RunAll(numbers, store, job).store.errors == store.errors + Flatten(numbers, errors)
    decreases |numbers|
  {
    if |numbers| == 0 {
      assert store.errors + [] == store.errors;
    } else {
      var n := |numbers| - 1;
      RunAllErrors(numbers[..n], store, job, errors);
      var before := RunAll(numbers[..n], store, job);
      assert job(numbers[n], before.store).store.errors == before.store.errors + errors(numbers[n]);
      assert store.errors + Flatten(numbers[..n], errors) + errors(numbers[n]) ==
        store.errors + (Flatten(numbers[..n], errors) + errors(numbers[n]));
    }
  }

  /** Jobs whose commands do not depend on the store run them all, in job order. */
  lemma {:induction false} RunAllCommands(numbers: seq<string>, store: Store, job: (string, Store) -> Run,
                                          commands: string -> seq<seq<string>>)
    requires RunsCommands(job, commands)
    ensures RunAll(numbers, store, job).commands == Flatten(numbers, commands)
    decreases |numbers|
  {
    if |numbers| > 0 {
      var n := |numbers| - 1;
      RunAllCommands(numbers[..n], store, job, commands);
      var before := RunAll(numbers[..n], store, job);
      assert job(numbers[n], before.store).commands == commands(numbers[n]);
    }
  }

  /** Parts of one or two elements make a concatenation between one and two
      elements per number. */
  lemma {:induction false} FlattenBounds<T>(numbers: seq<string>, part: string -> seq<T>)
    requires forall m :: 1 <= |part(m)| <= 2
    ensures |numbers| <= |Flatten(numbers, part)| <= 2 * |numbers|
    decreases |numbers|
  {
    if |numbers| > 0 {
      var n := |numbers| - 1;
      FlattenBounds(numbers[..n], part);
      assert 1 <= |part(numbers[n])| <= 2;
    }
  }

  /** Everything a part holds is in the concatenation. */
  lemma {:induction false} FlattenHas<T>(numbers: seq<string>, part: string -> seq<T>, i: int, c: T)
    requires 0 <= i < |numbers| && c in part(numbers[i])
    ensures c in Flatten(numbers, part)
    decreases |numbers|
  {
    var n := |numbers| - 1;
    if i < n {
      assert numbers[..n][i] == numbers[i];
      FlattenHas(numbers[..n], part, i, c);
    }
    InConcat(Flatten(numbers[..n], part), part(numbers[n]), c);
  }

  lemma InConcat<T>(a: seq<T>, b: seq<T>, x: T)
    ensures x in a ==> x in a + b
    ensures x in b ==> x in a + b
  {
    if x in a {
      var k :| 0 <= k < |a| && a[k] == x;
      assert (a + b)[k] == x;
    }
    if x in b {
      var k :| 0 <= k < |b| && b[k] == x;
      assert (a + b)[|a| + k] == x;
    }
  }

  // ---------------------------------------------------------------------------
  // The jobs of merge.py
  // ---------------------------------------------------------------------------

  /** The jobs keep the episode numbers of the table unique. */
  lemma RunJobsUnique(settings: Settings, files: seq<string>, fontsList: seq<string>,
                      numbers: seq<string>, store: Store, exec: seq<string> -> ProcessResult)
    requires UniqueEps(store.table)
    ensures UniqueEps(RunJobs(settings, files, fontsList, numbers, store, exec).store.table)
  {
    JobKeepsUnique(settings, files, fontsList, exec);
    RunAllUnique(numbers, store, JobOf(settings, files, fontsList, exec));
  }

  /** The jobs leave the row of every episode they are not for as it was. */
  lemma RunJobsOthers(settings: Settings, files: seq<string>, fontsList: seq<string>,
                      numbers: seq<string>, store: Store, exec: seq<string> -> ProcessResult, m: string)
    requires UniqueEps(store.table) && m !in numbers
    ensures Lookup(RunJobs(settings, files, fontsList, numbers, store, exec).store.table, m) == Lookup(store.table, m)
  {
    JobKeepsUnique(settings, files, fontsList, exec);
    JobIsolated(settings, files, fontsList, exec);
    RunAllOthers(numbers, store, JobOf(settings, files, fontsList, exec), m);
  }

  /** After the jobs for distinct numbers that had no rows, each of them has
      exactly the row its job alone would leave: the jobs do not interfere
      with one another's rows. */
  lemma RunJobsOwnRow(settings: Settings, files: seq<string>, fontsList: seq<string>,
                      numbers: seq<string>, store: Store, exec: seq<string> -> ProcessResult, i: int)
    requires UniqueEps(store.table) && Distinct(numbers) && 0 <= i < |numbers|
    requires forall k :: 0 <= k < |numbers| ==> !HasRow(store.table, numbers[k])
    ensures Lookup(RunJobs(settings, files, fontsList, numbers, store, exec).store.table, numbers[i]) ==
      Some(JobRow(settings, files, fontsList, numbers[i], exec))
  {
    JobKeepsUnique(settings, files, fontsList, exec);
    JobIsolated(settings, files, fontsList, exec);
    JobFreshRow(settings, files, fontsList, exec);
    RunAllOwnRow(numbers, store, JobOf(settings, files, fontsList, exec), JobRowOf(settings, files, fontsList, exec), i);
  }

  /** The jobs append exactly their own error texts, in job order. */
  lemma RunJobsErrors(settings: Settings, files: seq<string>, fontsList: seq<string>,
                      numbers: seq<string>, store: Store, exec: seq<string> -> ProcessResult)
    ensures RunJobs(settings, files, fontsList, numbers, store, exec).store.errors ==
      store.errors + AllErrors(settings, files, fontsList, numbers, exec)
  {
    JobAppendsErrors(settings, files, fontsList, exec);
    RunAllErrors(numbers, store, JobOf(settings, files, fontsList, exec), JobErrorsOf(settings, files, fontsList, exec));
  }

  /** Every number's `mkvmerge` command runs, into that episode's output file. */
  lemma AllCommandsMerge(settings: Settings, files: seq<string>, fontsList: seq<string>,
                         numbers: seq<string>, exec: seq<string> -> ProcessResult, i: int)
    requires 0 <= i < |numbers|
    ensures MergeCommand(OutputFilename(settings, numbers[i]), GroupFilesByNumber(settings.mediaExtensions, files, numbers[i]))
      in AllCommands(settings, files, fontsList, numbers, exec)
  {
    var merge := MergeCommand(OutputFilename(settings, numbers[i]), GroupFilesByNumber(settings.mediaExtensions, files, numbers[i]));
    var part := JobCommandsOf(settings, files, fontsList, exec);
    assert part(numbers[i])[0] == merge;
    FlattenHas(numbers, part, i, merge);
  }

  /** `main` fails (`filte` indexes an empty list) when no episode number is found. */
  datatype BatchError = NoEpisodeNumbers

  /** What `main` produces: the kept numbers, the font arguments, the
      commands run, the final store, and the fonts it lists as added. */
  datatype Summary = Summary(
    numbers: seq<string>,
    fontsList: seq<string>,
    commands: seq<seq<string>>,
    store: Store,
    addedFonts: seq<string>)

  /** `main()` on the directory listing `files`. */
  function Main(settings: Settings, files: seq<string>, exec: seq<string> -> ProcessResult): (r: Result<Summary, BatchError>)
    ensures r.Failure? <==> |FindUniqueNumbers(files)| == 0
    ensures r.Success? ==>
      && |r.value.numbers| > 0
      && r.value.numbers[0] == FindUniqueNumbers(files)[0]
      && |r.value.numbers| <= |FindUniqueNumbers(files)|
      && |r.value.addedFonts| == |r.value.fontsList| / 2
  {
    var numbers := FindUniqueNumbers(files);
    if |numbers| == 0 then Failure(NoEpisodeNumbers)
    else
      var kept := Filte(numbers);
      var fontsList := FontCheck(settings.inputPath, files);
      var jobs := RunJobs(settings, files, fontsList, kept, Store([], []), exec);
      Success(Summary(kept, fontsList, jobs.commands, jobs.store, OddPositions(fontsList)))
  }

  /** `main` fails exactly when no ".mkv" file name contains a digit. */
  lemma MainFailsIffNoNumbers(settings: Settings, files: seq<string>, exec: seq<string> -> ProcessResult)
    ensures Main(settings, files, exec).Failure? <==>
      forall f :: f in files && Ext(f) == ContainerExtension ==> DigitRuns(f) == []
  {
    var numbers := FindUniqueNumbers(files);
    if |numbers| > 0 {
      assert numbers[0] in Candidates(files);
      var f, d :| f in files && Ext(f) == ContainerExtension && d in DigitRuns(f) && numbers[0] == ZFill(d, 2);
      assert DigitRuns(f) != [];
    } else {
      forall f | f in files && Ext(f) == ContainerExtension
        ensures DigitRuns(f) == []
      {
        CandidatesOfFile(files, f);
      }
    }
  }

  /** Every digit run of a ".mkv" file of the listing gives a candidate. */
  lemma CandidatesOfFile(files: seq<string>, f: string)
    requires f in files && Ext(f) == ContainerExtension
    ensures forall d :: d in DigitRuns(f) ==> ZFill(d, 2) in Candidates(files)
    ensures DigitRuns(f) != [] ==> ZFill(DigitRuns(f)[0], 2) in Candidates(files)
  {
  }

  /** A strictly sorted list has no duplicates. */
  lemma SortedDistinct(xs: seq<string>)
    requires StrictlySorted(xs)
    ensures Distinct(xs)
  {
    forall i, j | 0 <= i < j < |xs|
      ensures xs[i] != xs[j]
    {
      if xs[i] == xs[j] {
        LessIrreflexive(xs[i]);
      }
    }
  }

  /** The numbers `main` keeps are distinct and are among those
      `find_unique_numbers` found, so each comes from a ".mkv" file name. */
  lemma MainNumbers(settings: Settings, files: seq<string>, exec: seq<string> -> ProcessResult)
    requires Main(settings, files, exec).Success?
    ensures var s := Main(settings, files, exec).value;
      && Distinct(s.numbers)
      && forall m :: m in s.numbers ==> m in FindUniqueNumbers(files)
  {
    var numbers := FindUniqueNumbers(files);
    MainKept(settings, files, exec);
    assert Parsable(numbers) by {
      forall k | 0 <= k < |numbers|
        ensures IsNumeral(numbers[k])
      {
        assert numbers[k] in numbers;
      }
    }
    FilteOfSorted(numbers);
  }

  /** The numbers `main` keeps are `filte` of those `find_unique_numbers` found. */
  lemma MainKept(settings: Settings, files: seq<string>, exec: seq<string> -> ProcessResult)
    requires Main(settings, files, exec).Success?
    ensures |FindUniqueNumbers(files)| > 0
    ensures Main(settings, files, exec).value.numbers == Filte(FindUniqueNumbers(files))
  {
  }

  /** Filtering a sorted list of numerals keeps some of its elements, once each. */
  lemma FilteOfSorted(numbers: seq<string>)
    requires |numbers| > 0 && StrictlySorted(numbers) && Parsable(numbers)
    ensures Distinct(Filte(numbers))
    ensures forall m :: m in Filte(numbers) ==> m in numbers
  {
    SortedDistinct(numbers);
    FilteDistinct(numbers);
  }

  /** After `main`, the table has one row per kept episode number and no
      other, and each kept number's row is the one its job alone would
      leave. */
  lemma MainRows(settings: Settings, files: seq<string>, exec: seq<string> -> ProcessResult, m: string)
    requires Main(settings, files, exec).Success?
    ensures var s := Main(settings, files, exec).value;
      && UniqueEps(s.store.table)
      && (HasRow(s.store.table, m) <==> m in s.numbers)
      && (m in s.numbers ==> Lookup(s.store.table, m) == Some(JobRow(settings, files, s.fontsList, m, exec)))
  {
    var s := Main(settings, files, exec).value;
    MainNumbers(settings, files, exec);
    MainJobs(settings, files, s.fontsList, s.numbers, exec, m);
  }

  lemma MainJobs(settings: Settings, files: seq<string>, fontsList: seq<string>, numbers: seq<string>,
                 exec: seq<string> -> ProcessResult, m: string)
    requires Distinct(numbers)
    ensures var table := RunJobs(settings, files, fontsList, numbers, Store([], []), exec).store.table;
      && UniqueEps(table)
      && (HasRow(table, m) <==> m in numbers)
      && (m in numbers ==> Lookup(table, m) == Some(JobRow(settings, files, fontsList, m, exec)))
  {
    var empty := Store([], []);
    RunJobsUnique(settings, files, fontsList, numbers, empty, exec);
    if m in numbers {
      var i :| 0 <= i < |numbers| && numbers[i] == m;
      RunJobsOwnRow(settings, files, fontsList, numbers, empty, exec, i);
    } else {
      RunJobsOthers(settings, files, fontsList, numbers, empty, exec, m);
    }
  }

  /** The fonts `main` lists as added are the input paths of the font
      files, in directory order: the odd positions of the font arguments. */
  lemma MainAddedFonts(settings: Settings, files: seq<string>, exec: seq<string> -> ProcessResult)
    requires Main(settings, files, exec).Success?
    ensures var added := Main(settings, files, exec).value.addedFonts;
      var fonts := FontFiles(files);
      && |added| == |fonts|
      && forall k :: 0 <= k < |fonts| ==> added[k] == InputFilePath(settings.inputPath, fonts[k])
  {
    MainFontsList(settings, files, exec);
    AttachedFontPaths(settings.inputPath, files);
  }

  lemma MainFontsList(settings: Settings, files: seq<string>, exec: seq<string> -> ProcessResult)
    requires Main(settings, files, exec).Success?
    ensures Main(settings, files, exec).value.fontsList == FontCheck(settings.inputPath, files)
    ensures Main(settings, files, exec).value.addedFonts == OddPositions(FontCheck(settings.inputPath, files))
  {
  }

  /** The commands `main` runs are those of the jobs for the kept numbers,
      in order. */
  lemma MainCommands(settings: Settings, files: seq<string>, exec: seq<string> -> ProcessResult)
    requires Main(settings, files, exec).Success?
    ensures var s := Main(settings, files, exec).value;
      s.commands == AllCommands(settings, files, s.fontsList, s.numbers, exec)
  {
  }

  /** The errors `main` prints are those of the failed jobs, in job order. */
  lemma MainErrors(settings: Settings, files: seq<string>, exec: seq<string> -> ProcessResult)
    requires Main(settings, files, exec).Success?
    ensures var s := Main(settings, files, exec).value;
      s.store.errors == AllErrors(settings, files, s.fontsList, s.numbers, exec)
  {
    var s := Main(settings, files, exec).value;
    RunJobsErrors(settings, files, s.fontsList, s.numbers, Store([], []), exec);
  }
}
