/** The file classifier of merge.py: episode-number discovery
    (`find_unique_numbers`), font attachment arguments (`font_check`) and
    per-episode grouping (`group_files_by_number`). File names are plain
    strings; the extension is what `os.path.splitext` reports. */
module Classify {
  import opened PyText
  import opened StrOrder

  /** `media_extensions` as written in merge.py: its last entry lacks the dot. */
  const MediaExtensions: seq<string> := [".mka", ".mkv", "ass"]

  /** The same list with the subtitle entry spelled the way `splitext` reports it. */
  const IntendedMediaExtensions: seq<string> := [".mka", ".mkv", ".ass"]

  /** `font_extensions`: matched case-sensitively. */
  const FontExtensions: seq<string> := [".ttf", ".TTF", ".otf"]

  /** The container extension that drives episode-number discovery. */
  const ContainerExtension: string := ".mkv"

  function Ext(f: string): string {
    SplitExt(f).1
  }

  /** `splitext` never reports a bare "ass": an extension is empty or starts with a dot. */
  lemma ExtNeverBare(f: string)
    ensures Ext(f) != "ass"
  {
  }

  // ---------------------------------------------------------------------------
  // find_unique_numbers
  // ---------------------------------------------------------------------------

  /** `digit.zfill(2)` for every digit run, in order. */
  function PadAll(runs: seq<string>): (padded: seq<string>)
    requires forall k :: 0 <= k < |runs| ==> IsNumeral(runs[k])
    ensures forall y :: y in padded <==> exists d :: d in runs && y == ZFill(d, 2)
    ensures forall y :: y in padded ==> IsNumeral(y) && |y| >= 2
  {
    if |runs| == 0 then []
    else
      ZFillNumeral(runs[0]);
      assert forall k :: 0 <= k < |runs| - 1 ==> runs[1..][k] == runs[k + 1];
      var rest := PadAll(runs[1..]);
      assert forall d :: d in runs <==> d == runs[0] || d in runs[1..];
      [ZFill(runs[0], 2)] + rest
  }

  /** The episode-number candidates: `zfill(2)` of every digit run of every
      file whose extension is exactly ".mkv". */
  ghost function Candidates(files: seq<string>): set<string> {
    set f, d | f in files && Ext(f) == ContainerExtension && d in DigitRuns(f) :: ZFill(d, 2)
  }

  lemma CandidatesCons(files: seq<string>)
    requires |files| > 0
    ensures forall y :: y in Candidates(files) <==>
      || y in Candidates(files[1..])
      || (Ext(files[0]) == ContainerExtension && y in PadAll(DigitRuns(files[0])))
  {
    forall y
      ensures y in Candidates(files) <==>
        || y in Candidates(files[1..])
        || (Ext(files[0]) == ContainerExtension && y in PadAll(DigitRuns(files[0])))
    {
      if y in Candidates(files) {
        var f, d :| f in files && Ext(f) == ContainerExtension && d in DigitRuns(f) && y == ZFill(d, 2);
        if f != files[0] {
          assert f in files[1..];
        }
      }
      if y in Candidates(files[1..]) {
        var f, d :| f in files[1..] && Ext(f) == ContainerExtension && d in DigitRuns(f) && y == ZFill(d, 2);
        assert f in files;
      }
      if Ext(files[0]) == ContainerExtension && y in PadAll(DigitRuns(files[0])) {
        var d :| d in DigitRuns(files[0]) && y == ZFill(d, 2);
        assert files[0] in files;
      }
    }
  }

  /** `find_unique_numbers(file_list)`: the candidates as a sorted,
      duplicate-free list (Python string order, so "100" sorts before "99"). */
  function FindUniqueNumbers(files: seq<string>): (numbers: seq<string>)
    ensures StrictlySorted(numbers)
    ensures forall y :: y in numbers <==> y in Candidates(files)
    ensures forall y :: y in numbers ==> IsNumeral(y) && |y| >= 2
  {
    if |files| == 0 then []
    else
      var rest := FindUniqueNumbers(files[1..]);
      CandidatesCons(files);
      if Ext(files[0]) == ContainerExtension then InsertAll(rest, PadAll(DigitRuns(files[0])))
      else rest
  }

  /** `sorted(numbers)` is the one strictly sorted listing of the candidate set. */
  lemma FindUniqueNumbersIsSortedSet(files: seq<string>, listing: seq<string>)
    requires StrictlySorted(listing)
    requires forall y :: y in listing <==> y in Candidates(files)
    ensures FindUniqueNumbers(files) == listing
  {
    SortedListingUnique(FindUniqueNumbers(files), listing);
  }

  // ---------------------------------------------------------------------------
  // group_files_by_number
  // ---------------------------------------------------------------------------

  /** How many of the digit runs `runs` pad to `number`. */
  function MatchCount(runs: seq<string>, number: string): (c: nat)
    ensures c <= |runs|
    ensures c > 0 <==> exists d :: d in runs && ZFill(d, 2) == number
  {
    if |runs| == 0 then 0
    else
      assert forall d :: d in runs <==> d == runs[0] || d in runs[1..];
      (if ZFill(runs[0], 2) == number then 1 else 0) + MatchCount(runs[1..], number)
  }

  /** The count is the number of runs, with multiplicity, whose `zfill(2)`
      is `number`. */
  lemma {:induction false} MatchCountCounts(runs: seq<string>, number: string)
    requires forall k :: 0 <= k < |runs| ==> IsNumeral(runs[k])
    ensures MatchCount(runs, number) == multiset(PadAll(runs))[number]
  {
    if |runs| > 0 {
      assert forall k :: 0 <= k < |runs| - 1 ==> runs[1..][k] == runs[k + 1];
      MatchCountCounts(runs[1..], number);
      assert PadAll(runs) == [ZFill(runs[0], 2)] + PadAll(runs[1..]);
      assert multiset(PadAll(runs)) == multiset{ZFill(runs[0], 2)} + multiset(PadAll(runs[1..]));
    }
  }

  /** How many times `group_files_by_number` appends `f` for `number`. */
  function Matches(f: string, number: string): nat {
    MatchCount(DigitRuns(f), number)
  }

  /** `Matches` counts the maximal digit runs of `f` whose `zfill(2)` is
      `number`, each run once (see `DigitRunsInOrder`). */
  lemma MatchesCountsRuns(f: string, number: string)
    ensures Matches(f, number) == multiset(PadAll(DigitRuns(f)))[number]
  {
    MatchCountCounts(DigitRuns(f), number);
  }

  /** `count` copies of `f`. */
  function Copies(f: string, count: nat): (r: seq<string>)
    ensures |r| == count
    ensures forall g :: multiset(r)[g] == if g == f then count else 0
  {
    if count == 0 then [] else [f] + Copies(f, count - 1)
  }

  /** Each file of `files`, in order, repeated `count(f)` times. */
  function Repeat(files: seq<string>, count: string -> nat): seq<string> {
    if |files| == 0 then [] else Copies(files[0], count(files[0])) + Repeat(files[1..], count)
  }

  /** How many times `group_files_by_number` appends the file `f`: once per
      digit run padding to `number`, and only if its extension is listed. */
  function GroupCount(mediaExtensions: seq<string>, number: string): string -> nat {
    f => if Ext(f) in mediaExtensions then Matches(f, number) else 0
  }

  /** `group_files_by_number(file_list, number)` against the extension list
      `mediaExtensions`. */
  function GroupFilesByNumber(mediaExtensions: seq<string>, files: seq<string>, number: string): (grouped: seq<string>)
    ensures forall g :: g in grouped ==> g in files && Ext(g) in mediaExtensions && Matches(g, number) > 0
  {
    var count := GroupCount(mediaExtensions, number);
    forall g | g in Repeat(files, count)
      ensures g in files && count(g) > 0
    {
      RepeatMember(files, count, g);
    }
    Repeat(files, count)
  }

  /** A file of `Repeat`'s output is an input file with a positive count. */
  lemma RepeatMember(files: seq<string>, count: string -> nat, g: string)
    requires g in Repeat(files, count)
    ensures g in files && count(g) > 0
  {
    RepeatCounts(files, count, g);
    assert multiset(files)[g] * count(g) > 0;
  }

  /** A file occurs in `Repeat` as often as it occurs in the input, times its count. */
  lemma {:induction false} RepeatCounts(files: seq<string>, count: string -> nat, g: string)
    ensures multiset(Repeat(files, count))[g] == multiset(files)[g] * count(g)
    decreases |files|
  {
    if |files| > 0 {
      var f := files[0];
      var block := Copies(f, count(f));
      var rest := Repeat(files[1..], count);
      RepeatCounts(files[1..], count, g);
      assert files == [f] + files[1..];
      var m := multiset(files[1..])[g];
      assert multiset(files)[g] == (if g == f then 1 else 0) + m;
      assert multiset(block + rest)[g] == multiset(block)[g] + multiset(rest)[g];
      if g == f {
        MulSucc(m, count(g));
      }
    }
  }

  lemma MulSucc(m: nat, c: nat)
    ensures (m + 1) * c == m * c + c
  {
  }

  /** `Repeat` distributes over concatenation: the output keeps input order. */
  lemma {:induction false} RepeatConcat(a: seq<string>, b: seq<string>, count: string -> nat)
    ensures Repeat(a + b, count) == Repeat(a, count) + Repeat(b, count)
    decreases |a|
  {
    if |a| > 0 {
      RepeatConcat(a[1..], b, count);
      assert (a + b)[0] == a[0];
      assert (a + b)[1..] == a[1..] + b;
    } else {
      assert a + b == b;
    }
  }

  /** Counts that agree on every input file give the same output. */
  lemma {:induction false} RepeatAgree(files: seq<string>, c1: string -> nat, c2: string -> nat)
    requires forall k :: 0 <= k < |files| ==> c1(files[k]) == c2(files[k])
    ensures Repeat(files, c1) == Repeat(files, c2)
    decreases |files|
  {
    if |files| > 0 {
      assert forall k :: 0 <= k < |files| - 1 ==> files[1..][k] == files[k + 1];
      RepeatAgree(files[1..], c1, c2);
    }
  }

  /** Each input file appears exactly once per matching digit run, for each
      time it occurs in the input, and only when its extension qualifies. */
  lemma GroupCounts(mediaExtensions: seq<string>, files: seq<string>, number: string, g: string)
    ensures multiset(GroupFilesByNumber(mediaExtensions, files, number))[g] ==
      if Ext(g) in mediaExtensions then multiset(files)[g] * Matches(g, number) else 0
  {
    RepeatCounts(files, GroupCount(mediaExtensions, number), g);
  }

  /** Grouping preserves input order: it distributes over concatenation. */
  lemma GroupConcat(mediaExtensions: seq<string>, a: seq<string>, b: seq<string>, number: string)
    ensures GroupFilesByNumber(mediaExtensions, a + b, number) ==
      GroupFilesByNumber(mediaExtensions, a, number) + GroupFilesByNumber(mediaExtensions, b, number)
  {
    RepeatConcat(a, b, GroupCount(mediaExtensions, number));
  }

  /** With the list as written, the "ass" entry can never match, so grouping
      behaves exactly as if the list held only the two container extensions. */
  lemma GroupIgnoresAssEntry(files: seq<string>, number: string)
    ensures GroupFilesByNumber(MediaExtensions, files, number) ==
      GroupFilesByNumber([".mka", ".mkv"], files, number)
  {
    var c1 := GroupCount(MediaExtensions, number);
    var c2 := GroupCount([".mka", ".mkv"], number);
    forall k | 0 <= k < |files|
      ensures c1(files[k]) == c2(files[k])
    {
      ExtNeverBare(files[k]);
    }
    RepeatAgree(files, c1, c2);
  }

  /** So a ".ass" subtitle is never grouped with the list as written ... */
  lemma AssNeverGrouped(files: seq<string>, number: string, f: string)
    requires Ext(f) == ".ass"
    ensures f !in GroupFilesByNumber(MediaExtensions, files, number)
  {
    var grouped := GroupFilesByNumber(MediaExtensions, files, number);
    assert f in grouped ==> Ext(f) in MediaExtensions;
  }

  /** ... while the intended list groups it once per matching digit run,
      for each time it is listed. */
  lemma AssGroupedWhenIntended(files: seq<string>, number: string, f: string)
    requires Ext(f) == ".ass"
    ensures multiset(GroupFilesByNumber(IntendedMediaExtensions, files, number))[f] ==
      multiset(files)[f] * Matches(f, number)
    ensures f in files && Matches(f, number) > 0 ==> f in GroupFilesByNumber(IntendedMediaExtensions, files, number)
  {
    GroupCounts(IntendedMediaExtensions, files, number, f);
    assert Ext(f) in IntendedMediaExtensions;
    if f in files && Matches(f, number) > 0 {
      MulPositive(multiset(files)[f], Matches(f, number));
    }
  }

  lemma MulPositive(m: nat, c: nat)
    requires m > 0 && c > 0
    ensures m * c > 0
  {
  }

  // ---------------------------------------------------------------------------
  // font_check
  // ---------------------------------------------------------------------------

  /** The files whose extension is in `font_extensions`, in input order. */
  function FontFiles(files: seq<string>): (fonts: seq<string>)
    ensures |fonts| <= |files|
    ensures forall f :: f in fonts <==> f in files && Ext(f) in FontExtensions
  {
    if |files| == 0 then []
    else
      assert forall f :: f in files <==> f == files[0] || f in files[1..];
      (if Ext(files[0]) in FontExtensions then [files[0]] else []) + FontFiles(files[1..])
  }

  /** The absolute path merge.py builds for a file of the input directory. */
  function InputFilePath(inputPath: string, f: string): string {
    inputPath + "/" + f
  }

  /** `font_check(file_list)`: an "--add-attachment" flag before the path of
      every font file, in input order. */
  function FontCheck(inputPath: string, files: seq<string>): (args: seq<string>)
    ensures |args| == 2 * |FontFiles(files)|
  {
    if |files| == 0 then []
    else
      var rest := FontCheck(inputPath, files[1..]);
      if Ext(files[0]) in FontExtensions then ["--add-attachment", InputFilePath(inputPath, files[0])] + rest
      else rest
  }

  /** The font arguments alternate flag and path, one pair per font file. */
  lemma {:induction false} FontCheckLayout(inputPath: string, files: seq<string>)
    ensures FontLayout(inputPath, FontCheck(inputPath, files), FontFiles(files))
    decreases |files|
  {
    if |files| > 0 {
      FontCheckLayout(inputPath, files[1..]);
      var q := Ext(files[0]) in FontExtensions;
      var rest := FontCheck(inputPath, files[1..]);
      var restFonts := FontFiles(files[1..]);
      assert FontCheck(inputPath, files) ==
        (if q then ["--add-attachment", InputFilePath(inputPath, files[0])] else []) + rest;
      assert FontFiles(files) == (if q then [files[0]] else []) + restFonts;
      if q {
        FontLayoutCons(inputPath, files[0], rest, restFonts);
      }
    }
  }

  /** `args` holds an "--add-attachment" flag followed by the path of each of `fonts`. */
  predicate FontLayout(inputPath: string, args: seq<string>, fonts: seq<string>) {
    && |args| == 2 * |fonts|
    && forall k :: 0 <= k < |fonts| ==>
         args[2 * k] == "--add-attachment" && args[2 * k + 1] == InputFilePath(inputPath, fonts[k])
  }

  lemma FontLayoutCons(inputPath: string, f: string, args: seq<string>, fonts: seq<string>)
    requires FontLayout(inputPath, args, fonts)
    ensures FontLayout(inputPath, ["--add-attachment", InputFilePath(inputPath, f)] + args, [f] + fonts)
  {
    var args' := ["--add-attachment", InputFilePath(inputPath, f)] + args;
    var fonts' := [f] + fonts;
    forall k | 0 < k < |fonts'|
      ensures args'[2 * k] == "--add-attachment" && args'[2 * k + 1] == InputFilePath(inputPath, fonts'[k])
    {
      assert args'[2 * k] == args[2 * (k - 1)];
      assert args'[2 * k + 1] == args[2 * (k - 1) + 1];
    }
  }

  /** `fonts_list[1::2]` recovers exactly the attached font paths. */
  lemma AttachedFontPaths(inputPath: string, files: seq<string>)
    ensures OddPositions(FontCheck(inputPath, files)) ==
      seq(|FontFiles(files)|, k requires 0 <= k < |FontFiles(files)| => InputFilePath(inputPath, FontFiles(files)[k]))
  {
    FontCheckLayout(inputPath, files);
  }
}
