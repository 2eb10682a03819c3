/** Models of the Python string primitives the batch tool relies on:
    `os.path.splitext` (POSIX flavour), `re.findall(r'\d+', s)`, `str.zfill`,
    `int()` on a string of decimal digits, and the slice `s[1::2]`.
    Only ASCII digits '0'..'9' are treated as digits. */
module PyText {

  predicate IsDigit(c: char) {
    '0' <= c <= '9'
  }

  predicate AllDigits(s: string) {
    forall i :: 0 <= i < |s| ==> IsDigit(s[i])
  }

  /** A non-empty run of decimal digits: what `int()` accepts here. */
  predicate IsNumeral(s: string) {
    |s| > 0 && AllDigits(s)
  }

  // ---------------------------------------------------------------------------
  // os.path.splitext
  // ---------------------------------------------------------------------------

  /** `s.rfind(c)`: the index of the last occurrence of `c`, or -1. */
  function RFind(s: string, c: char): (r: int)
    ensures -1 <= r < |s|
    ensures 0 <= r ==> s[r] == c
    ensures forall k :: r < k < |s| ==> s[k] != c
  {
    if |s| == 0 then -1
    else if s[|s| - 1] == c then |s| - 1
    else RFind(s[..|s| - 1], c)
  }

  predicate HasNonDot(s: string) {
    exists k :: 0 <= k < |s| && s[k] != '.'
  }

  /** `os.path.splitext(p)` on POSIX: the extension starts at the last '.'
      of the last path component, provided some character before that dot
      in the component is not itself a dot; otherwise the extension is empty. */
  function SplitExt(p: string): (r: (string, string))
    ensures r.0 + r.1 == p
    ensures r.1 == [] || r.1[0] == '.'
    ensures forall k :: 0 < k < |r.1| ==> r.1[k] != '.' && r.1[k] != '/'
  {
    var sepIndex := RFind(p, '/');
    var dotIndex := RFind(p, '.');
    if dotIndex > sepIndex && HasNonDot(p[sepIndex + 1..dotIndex]) then SplitAt(p, sepIndex, dotIndex)
    else NoExtension(p)
  }

  /** The split at the dot `dot` that follows the last '/' at `sep`: the
      extension starts with that dot and holds no other dot and no '/'. */
  function SplitAt(p: string, sep: int, dot: int): (r: (string, string))
    requires -1 <= sep < dot < |p| && p[dot] == '.'
    requires forall k :: sep < k < |p| ==> p[k] != '/'
    requires forall k :: dot < k < |p| ==> p[k] != '.'
    ensures r.0 + r.1 == p
    ensures |r.1| > 0 && r.1[0] == '.'
    ensures forall k :: 0 < k < |r.1| ==> r.1[k] != '.' && r.1[k] != '/'
  {
    var ext := p[dot..];
    forall k | 0 < k < |ext|
      ensures ext[k] != '.' && ext[k] != '/'
    {
      assert ext[k] == p[dot + k];
    }
    (p[..dot], ext)
  }

  /** The split of a path without an extension. */
  function NoExtension(p: string): (r: (string, string))
    ensures r.0 + r.1 == p && r.1 == []
  {
    assert p + [] == p;
    (p, [])
  }

  /** Position `j` holds a dot that follows the non-dot character at `i`,
      both inside the last path component of `p`. */
  predicate DotAfterStem(p: string, i: int, j: int) {
    && 0 <= i < j < |p|
    && p[i] != '.'
    && p[j] == '.'
    && forall k :: i <= k < |p| ==> p[k] != '/'
  }

  /** A path has an extension exactly when its last component has a dot
      somewhere after a character that is not a dot: so ".bashrc" and
      "a/..." have none, "a.b/c" has none, "x.tar.gz" has one. */
  lemma ExtensionPresentIff(p: string)
    ensures SplitExt(p).1 != [] <==> exists i, j :: DotAfterStem(p, i, j)
  {
    SplitExtCases(p);
    if SplitExt(p).1 != [] {
      var i, j := StemOfExtension(p);
    }
    if exists i, j :: DotAfterStem(p, i, j) {
      var i, j :| DotAfterStem(p, i, j);
      ExtensionOfStem(p, i, j);
    }
  }

  /** A reported extension starts at a dot after a non-dot of the last component. */
  lemma StemOfExtension(p: string) returns (i: int, j: int)
    requires var sepIndex, dotIndex := RFind(p, '/'), RFind(p, '.');
      dotIndex > sepIndex && HasNonDot(p[sepIndex + 1..dotIndex])
    ensures DotAfterStem(p, i, j)
  {
    var sepIndex := RFind(p, '/');
    var dotIndex := RFind(p, '.');
    var stem := p[sepIndex + 1..dotIndex];
    var k :| 0 <= k < |stem| && stem[k] != '.';
    assert stem[k] == p[sepIndex + 1 + k];
    i, j := sepIndex + 1 + k, dotIndex;
  }

  /** A dot after a non-dot of the last component makes `splitext` report an extension. */
  lemma ExtensionOfStem(p: string, i: int, j: int)
    requires DotAfterStem(p, i, j)
    ensures var sepIndex, dotIndex := RFind(p, '/'), RFind(p, '.');
      dotIndex > sepIndex && HasNonDot(p[sepIndex + 1..dotIndex])
  {
    var sepIndex := RFind(p, '/');
    var dotIndex := RFind(p, '.');
    assert sepIndex < i;
    assert j <= dotIndex;
    var stem := p[sepIndex + 1..dotIndex];
    assert stem[i - sepIndex - 1] == p[i];
    assert HasNonDot(stem);
  }

  /** When `splitext` reports an extension: exactly when the body's test holds. */
  lemma SplitExtCases(p: string)
    ensures var sepIndex, dotIndex := RFind(p, '/'), RFind(p, '.');
      SplitExt(p).1 != [] <==> dotIndex > sepIndex && HasNonDot(p[sepIndex + 1..dotIndex])
  {
  }

  // ---------------------------------------------------------------------------
  // re.findall(r'\d+', s)
  // ---------------------------------------------------------------------------

  /** Length of the longest all-digit prefix of `s`. */
  function LeadingDigits(s: string): (n: nat)
    ensures n <= |s|
    ensures forall k :: 0 <= k < n ==> IsDigit(s[k])
    ensures n < |s| ==> !IsDigit(s[n])
  {
    if |s| == 0 || !IsDigit(s[0]) then 0
    else 1 + LeadingDigits(s[1..])
  }

  /** `re.findall(r'\d+', s)`: the maximal runs of digits, left to right. */
  function DigitRuns(s: string): (runs: seq<string>)
    ensures forall k :: 0 <= k < |runs| ==> IsNumeral(runs[k])
    decreases |s|
  {
    if |s| == 0 then []
    else if !IsDigit(s[0]) then DigitRuns(s[1..])
    else
      var n := LeadingDigits(s);
      assert AllDigits(s[..n]);
      [s[..n]] + DigitRuns(s[n..])
  }

  /** `s[i..j]` is a run of digits that cannot be extended on either side. */
  predicate MaximalRunAt(s: string, i: int, j: int) {
    && 0 <= i < j <= |s|
    && (forall k :: i <= k < j ==> IsDigit(s[k]))
    && (i == 0 || !IsDigit(s[i - 1]))
    && (j == |s| || !IsDigit(s[j]))
  }

  /** The strings `DigitRuns` returns are exactly the maximal digit runs of `s`. */
  lemma {:induction false} DigitRunsAreMaximalRuns(s: string, t: string)
    ensures t in DigitRuns(s) <==> exists i, j :: MaximalRunAt(s, i, j) && s[i..j] == t
    decreases |s|
  {
    if |s| == 0 {
    } else if !IsDigit(s[0]) {
      DigitRunsAreMaximalRuns(s[1..], t);
      RunsShiftPastNonDigit(s, t);
    } else {
      var n := LeadingDigits(s);
      DigitRunsAreMaximalRuns(s[n..], t);
      assert DigitRuns(s) == [s[..n]] + DigitRuns(s[n..]);
      if t in DigitRuns(s) && t != s[..n] {
        RunOfTailIsRun(s, n, t);
      }
      if t == s[..n] {
        assert MaximalRunAt(s, 0, n);
      }
      if exists i, j :: MaximalRunAt(s, i, j) && s[i..j] == t {
        var i, j :| MaximalRunAt(s, i, j) && s[i..j] == t;
        RunOfStringIsHeadOrTail(s, n, i, j);
      }
    }
  }

  /** Past a leading non-digit, the maximal runs of `s` are those of `s[1..]`. */
  lemma RunsShiftPastNonDigit(s: string, t: string)
    requires |s| > 0 && !IsDigit(s[0])
    ensures (exists i, j :: MaximalRunAt(s[1..], i, j) && s[1..][i..j] == t)
        <==> (exists i, j :: MaximalRunAt(s, i, j) && s[i..j] == t)
  {
    if exists i, j :: MaximalRunAt(s[1..], i, j) && s[1..][i..j] == t {
      var i, j :| MaximalRunAt(s[1..], i, j) && s[1..][i..j] == t;
      RunShiftsRight(s, i, j);
    }
    if exists i, j :: MaximalRunAt(s, i, j) && s[i..j] == t {
      var i, j :| MaximalRunAt(s, i, j) && s[i..j] == t;
      RunShiftsLeft(s, i, j);
    }
  }

  lemma RunShiftsRight(s: string, i: int, j: int)
    requires |s| > 0 && !IsDigit(s[0]) && MaximalRunAt(s[1..], i, j)
    ensures MaximalRunAt(s, i + 1, j + 1) && s[i + 1..j + 1] == s[1..][i..j]
  {
    var u := s[1..];
    assert forall k :: 0 <= k < |u| ==> u[k] == s[k + 1];
    forall k | i + 1 <= k < j + 1
      ensures IsDigit(s[k])
    {
      assert s[k] == u[k - 1];
    }
    assert s[i] == if i == 0 then s[0] else u[i - 1];
    assert j + 1 < |s| ==> s[j + 1] == u[j];
    assert s[i + 1..j + 1] == u[i..j];
  }

  lemma RunShiftsLeft(s: string, i: int, j: int)
    requires |s| > 0 && !IsDigit(s[0]) && MaximalRunAt(s, i, j)
    ensures 0 < i && MaximalRunAt(s[1..], i - 1, j - 1) && s[1..][i - 1..j - 1] == s[i..j]
  {
    var u := s[1..];
    assert IsDigit(s[i]);
    assert forall k :: 0 <= k < |u| ==> u[k] == s[k + 1];
    forall k | i - 1 <= k < j - 1
      ensures IsDigit(u[k])
    {
      assert u[k] == s[k + 1];
    }
    assert i - 1 > 0 ==> u[i - 2] == s[i - 1];
    assert j - 1 < |u| ==> u[j - 1] == s[j];
    assert u[i - 1..j - 1] == s[i..j];
  }

  /** A maximal run of the text after the leading digit run is one of `s`. */
  lemma RunOfTailIsRun(s: string, n: nat, t: string)
    requires 0 < n <= |s|
    requires forall k :: 0 <= k < n ==> IsDigit(s[k])
    requires n < |s| ==> !IsDigit(s[n])
    requires exists i, j :: MaximalRunAt(s[n..], i, j) && s[n..][i..j] == t
    ensures exists i, j :: MaximalRunAt(s, i, j) && s[i..j] == t
  {
    var u := s[n..];
    var i, j :| MaximalRunAt(u, i, j) && u[i..j] == t;
    assert i != 0;
    assert s[i + n..j + n] == u[i..j];
    assert s[i + n - 1] == u[i - 1];
    assert MaximalRunAt(s, i + n, j + n);
  }

  /** A maximal run of `s` is either its leading digit run or a run of the rest. */
  lemma RunOfStringIsHeadOrTail(s: string, n: nat, i: int, j: int)
    requires 0 < n <= |s|
    requires forall k :: 0 <= k < n ==> IsDigit(s[k])
    requires n < |s| ==> !IsDigit(s[n])
    requires MaximalRunAt(s, i, j)
    ensures (i == 0 && j == n) || (n < i && MaximalRunAt(s[n..], i - n, j - n))
    ensures n < i ==> s[n..][i - n..j - n] == s[i..j]
  {
    if n < i {
      var u := s[n..];
      assert u[i - n..j - n] == s[i..j];
      assert u[i - n - 1] == s[i - 1];
    }
  }

  /** Where the runs `DigitRuns` returns sit in `s`: `(start, end)` of each. */
  function RunBounds(s: string): seq<(int, int)>
    decreases |s|
  {
    if |s| == 0 then []
    else if !IsDigit(s[0]) then Shift(RunBounds(s[1..]), 1)
    else
      var n := LeadingDigits(s);
      [(0, n)] + Shift(RunBounds(s[n..]), n)
  }

  /** One step of `RunBounds` on a string that starts with a digit. */
  lemma RunBoundsOfDigit(s: string, n: int)
    requires |s| > 0 && IsDigit(s[0]) && n == LeadingDigits(s)
    ensures RunBounds(s) == [(0, n)] + Shift(RunBounds(s[n..]), n)
  {
  }

  /** One step of `RunBounds` on a string that starts with a non-digit. */
  lemma RunBoundsOfNonDigit(s: string)
    requires |s| > 0 && !IsDigit(s[0])
    ensures RunBounds(s) == Shift(RunBounds(s[1..]), 1)
  {
  }

  /** Every bound moved `d` characters to the right. */
  function Shift(bounds: seq<(int, int)>, d: int): (r: seq<(int, int)>)
    ensures |r| == |bounds|
    ensures forall k :: 0 <= k < |r| ==> r[k] == (bounds[k].0 + d, bounds[k].1 + d)
  {
    seq(|bounds|, k requires 0 <= k < |bounds| => (bounds[k].0 + d, bounds[k].1 + d))
  }

  /** `re.findall(r'\d+', s)` lists every maximal digit run of `s` exactly
      once, from left to right: the k-th string is the run at the k-th
      bound, the bounds are strictly increasing and do not overlap, and
      every maximal run has a bound. */
  lemma DigitRunsInOrder(s: string)
    ensures var runs, b := DigitRuns(s), RunBounds(s);
      && |b| == |runs|
      && (forall k :: 0 <= k < |b| ==> MaximalRunAt(s, b[k].0, b[k].1) && runs[k] == s[b[k].0..b[k].1])
      && (forall k :: 0 <= k < |b| - 1 ==> b[k].1 < b[k + 1].0)
      && (forall i, j :: MaximalRunAt(s, i, j) ==> exists k :: 0 <= k < |b| && b[k] == (i, j))
  {
    RunBoundsSound(s);
    RunBoundsOrdered(s);
    forall i, j | MaximalRunAt(s, i, j)
      ensures exists k :: 0 <= k < |RunBounds(s)| && RunBounds(s)[k] == (i, j)
    {
      var k := RunBoundsComplete(s, i, j);
    }
  }

  /** The k-th string of `runs` is the maximal run of `s` at the k-th bound. */
  predicate BoundsMatch(s: string, runs: seq<string>, b: seq<(int, int)>)
  {
    && |b| == |runs|
    && forall k :: 0 <= k < |b| ==> MaximalRunAt(s, b[k].0, b[k].1) && runs[k] == s[b[k].0..b[k].1]
  }

  /** Each bound marks a maximal run, and the k-th string is the run there. */
  lemma {:induction false} RunBoundsSound(s: string)
    ensures BoundsMatch(s, DigitRuns(s), RunBounds(s))
    decreases |s|
  {
    if |s| > 0 {
      if !IsDigit(s[0]) {
        var u := s[1..];
        RunBoundsSound(u);
        assert RunBounds(s) == Shift(RunBounds(u), 1);
        assert DigitRuns(s) == DigitRuns(u);
        ShiftKeepsMatch(s, 1, DigitRuns(u), RunBounds(u));
      } else {
        var n := LeadingDigits(s);
        var u := s[n..];
        RunBoundsSound(u);
        assert RunBounds(s) == [(0, n)] + Shift(RunBounds(u), n);
        assert DigitRuns(s) == [s[..n]] + DigitRuns(u);
        if n < |s| {
          NoRunAtNonDigit(u, DigitRuns(u), RunBounds(u));
        }
        ShiftKeepsMatch(s, n, DigitRuns(u), RunBounds(u));
        HeadRunMatches(s, n, DigitRuns(u), Shift(RunBounds(u), n));
      }
    }
  }

  /** No run starts on a non-digit. */
  lemma NoRunAtNonDigit(u: string, runs: seq<string>, c: seq<(int, int)>)
    requires BoundsMatch(u, runs, c) && |u| > 0 && !IsDigit(u[0])
    ensures forall k :: 0 <= k < |c| ==> c[k].0 != 0
  {
    forall k | 0 <= k < |c|
      ensures c[k].0 != 0
    {
      assert IsDigit(u[c[k].0]);
    }
  }

  /** Runs of `s[n..]` that cannot extend into `s[..n]` are runs of `s`. */
  lemma ShiftKeepsMatch(s: string, n: int, runs: seq<string>, c: seq<(int, int)>)
    requires 0 < n <= |s| && BoundsMatch(s[n..], runs, c)
    requires forall k :: 0 <= k < |c| && c[k].0 == 0 ==> !IsDigit(s[n - 1])
    ensures BoundsMatch(s, runs, Shift(c, n))
  {
    var b := Shift(c, n);
    forall k | 0 <= k < |b|
      ensures MaximalRunAt(s, b[k].0, b[k].1) && runs[k] == s[b[k].0..b[k].1]
    {
      RunShiftsBy(s, n, c[k].0, c[k].1);
    }
  }

  /** The leading run `s[..n]` goes in front. */
  lemma HeadRunMatches(s: string, n: int, runs: seq<string>, b: seq<(int, int)>)
    requires 0 < n <= |s| && (forall k :: 0 <= k < n ==> IsDigit(s[k]))
    requires n == |s| || !IsDigit(s[n])
    requires BoundsMatch(s, runs, b)
    ensures BoundsMatch(s, [s[..n]] + runs, [(0, n)] + b)
  {
    assert MaximalRunAt(s, 0, n);
    assert s[0..n] == s[..n];
  }

  /** The bounds are strictly increasing and do not overlap. */
  lemma {:induction false} RunBoundsOrdered(s: string)
    ensures forall k :: 0 <= k < |RunBounds(s)| - 1 ==> RunBounds(s)[k].1 < RunBounds(s)[k + 1].0
    decreases |s|
  {
    if |s| > 0 {
      if !IsDigit(s[0]) {
        RunBoundsOrdered(s[1..]);
        assert RunBounds(s) == Shift(RunBounds(s[1..]), 1);
      } else {
        var n := LeadingDigits(s);
        var u := s[n..];
        RunBoundsOrdered(u);
        RunBoundsSound(u);
        var c := RunBounds(u);
        assert RunBounds(s) == [(0, n)] + Shift(c, n);
        if |c| > 0 {
          assert IsDigit(u[c[0].0]);
          assert c[0].0 > 0;
        }
      }
    }
  }

  /** Every maximal run of `s` has a bound. */
  lemma {:induction false} RunBoundsComplete(s: string, i: int, j: int) returns (k: int)
    requires MaximalRunAt(s, i, j)
    ensures 0 <= k < |RunBounds(s)| && RunBounds(s)[k] == (i, j)
    decreases |s|, 1
  {
    if !IsDigit(s[0]) {
      RunShiftsLeft(s, i, j);
      var k' := RunBoundsComplete(s[1..], i - 1, j - 1);
      k := FoundPastNonDigit(s, i, j, k');
    } else {
      var n := LeadingDigits(s);
      RunOfStringIsHeadOrTail(s, n, i, j);
      if i == 0 && j == n {
        k := FoundAtHead(s, n);
      } else {
        k := FoundPastHead(s, n, i, j);
      }
    }
  }

  lemma FoundPastNonDigit(s: string, i: int, j: int, k': int) returns (k: int)
    requires |s| > 0 && !IsDigit(s[0])
    requires 0 <= k' < |RunBounds(s[1..])| && RunBounds(s[1..])[k'] == (i - 1, j - 1)
    ensures 0 <= k < |RunBounds(s)| && RunBounds(s)[k] == (i, j)
  {
    RunBoundsOfNonDigit(s);
    ShiftedBound([], RunBounds(s[1..]), 1, k', i, j);
    k := k';
  }

  lemma FoundAtHead(s: string, n: int) returns (k: int)
    requires |s| > 0 && IsDigit(s[0]) && n == LeadingDigits(s)
    ensures 0 <= k < |RunBounds(s)| && RunBounds(s)[k] == (0, n)
  {
    RunBoundsOfDigit(s, n);
    k := 0;
  }

  lemma {:induction false} FoundPastHead(s: string, n: int, i: int, j: int) returns (k: int)
    requires |s| > 0 && IsDigit(s[0]) && n == LeadingDigits(s)
    requires n < i && MaximalRunAt(s[n..], i - n, j - n)
    ensures 0 <= k < |RunBounds(s)| && RunBounds(s)[k] == (i, j)
    decreases |s|, 0
  {
    var k' := RunBoundsComplete(s[n..], i - n, j - n);
    RunBoundsOfDigit(s, n);
    ShiftedBound([(0, n)], RunBounds(s[n..]), n, k', i, j);
    k := k' + 1;
  }

  /** A bound of the shifted tail, behind a head of fixed length. */
  lemma ShiftedBound(head: seq<(int, int)>, c: seq<(int, int)>, d: int, k: int, i: int, j: int)
    requires 0 <= k < |c| && c[k] == (i - d, j - d)
    ensures 0 <= |head| + k < |head + Shift(c, d)| && (head + Shift(c, d))[|head| + k] == (i, j)
  {
  }

  /** A maximal run of `s[n..]` is one of `s`, `n` characters further right,
      provided it cannot be extended into `s[..n]`. */
  lemma RunShiftsBy(s: string, n: int, i: int, j: int)
    requires 0 < n <= |s| && MaximalRunAt(s[n..], i, j)
    requires i == 0 ==> !IsDigit(s[n - 1])
    ensures MaximalRunAt(s, i + n, j + n) && s[i + n..j + n] == s[n..][i..j]
  {
    var u := s[n..];
    forall k | i + n <= k < j + n
      ensures IsDigit(s[k])
    {
      assert s[k] == u[k - n];
    }
    assert i > 0 ==> s[i + n - 1] == u[i - 1];
    assert j < |u| ==> s[j + n] == u[j];
    assert s[i + n..j + n] == u[i..j];
  }

  // ---------------------------------------------------------------------------
  // str.zfill and int()
  // ---------------------------------------------------------------------------

  function Zeros(n: nat): string {
    seq(n, _ => '0')
  }

  /** `s.zfill(width)`: pad on the left with '0' up to `width` characters,
      keeping a leading sign in front; never truncates. */
  function ZFill(s: string, width: int): (r: string)
    ensures |r| == if |s| >= width then |s| else width
    ensures |s| >= width ==> r == s
    ensures (|s| == 0 || (s[0] != '+' && s[0] != '-')) ==>
              r[|r| - |s|..] == s && forall k :: 0 <= k < |r| - |s| ==> r[k] == '0'
    ensures |s| > 0 && (s[0] == '+' || s[0] == '-') ==>
              r[0] == s[0] && r[|r| - |s| + 1..] == s[1..] &&
              forall k :: 0 < k <= |r| - |s| ==> r[k] == '0'
  {
    if |s| >= width then s
    else
      var fill := width - |s|;
      if |s| > 0 && (s[0] == '+' || s[0] == '-') then [s[0]] + Zeros(fill) + s[1..]
      else Zeros(fill) + s
  }

  function Pow10(n: nat): nat {
    if n == 0 then 1 else 10 * Pow10(n - 1)
  }

  function DigitValue(c: char): nat
    requires IsDigit(c)
  {
    c as int - '0' as int
  }

  /** `int(s)` for a string of decimal digits (the empty string maps to 0
      here; `int('')` raises, so callers pass numerals). */
  function Value(s: string): (v: nat)
    requires AllDigits(s)
    ensures v < Pow10(|s|)
  {
    if |s| == 0 then 0
    else
      var d, p := DigitValue(s[0]), Pow10(|s| - 1);
      var rest := Value(s[1..]);
      DigitBound(d, p, rest);
      d * p + rest
  }

  /** A digit times a power of ten stays a full power below the next one. */
  lemma DigitBound(d: nat, p: nat, rest: nat)
    requires d <= 9 && rest < p
    ensures d * p + rest < 10 * p
  {
    assert d * p <= 9 * p;
  }

  /** Leading zeros do not change the value `int()` reads. */
  lemma {:induction false} LeadingZerosValue(k: nat, s: string)
    requires AllDigits(s)
    ensures AllDigits(Zeros(k) + s)
    ensures Value(Zeros(k) + s) == Value(s)
  {
    if k > 0 {
      LeadingZerosValue(k - 1, s);
      var z := Zeros(k) + s;
      assert z[0] == '0';
      assert DigitValue(z[0]) == 0;
      assert z[1..] == Zeros(k - 1) + s;
      assert AllDigits(z);
      assert Value(z) == DigitValue(z[0]) * Pow10(|z| - 1) + Value(z[1..]);
    } else {
      assert Zeros(k) + s == s;
    }
  }

  /** `zfill(2)` of a digit run is a numeral of at least two digits with
      the same value: it only pads. */
  lemma ZFillNumeral(d: string)
    requires IsNumeral(d)
    ensures IsNumeral(ZFill(d, 2))
    ensures |ZFill(d, 2)| >= 2
    ensures |d| >= 2 ==> ZFill(d, 2) == d
    ensures Value(ZFill(d, 2)) == Value(d)
  {
    if |d| < 2 {
      LeadingZerosValue(2 - |d|, d);
    }
  }

  // ---------------------------------------------------------------------------
  // s[1::2]
  // ---------------------------------------------------------------------------

  /** The slice `s[1::2]`: the elements at odd positions, in order. */
  function OddPositions<T>(s: seq<T>): (r: seq<T>)
    ensures |r| == |s| / 2
    ensures forall k :: 0 <= k < |r| ==> r[k] == s[2 * k + 1]
  {
    if |s| < 2 then [] else [s[1]] + OddPositions(s[2..])
  }
}
