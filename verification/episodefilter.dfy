/** The outlier filter `filte` of merge.py: it keeps the first episode
    number and every later one whose value exceeds its predecessor in the
    ORIGINAL list by at most five. The difference is signed, so a number
    smaller than its predecessor (as "99" after "100" in string order) is kept. */
module EpisodeFilter {
  import opened PyText

  /** Largest accepted step between neighbouring episode numbers. */
  const MaxGap: int := 5

  /** Every entry can be read by `int()`. */
  predicate Parsable(numbers: seq<string>) {
    forall k :: 0 <= k < |numbers| ==> IsNumeral(numbers[k])
  }

  /** No value occurs twice. */
  predicate Distinct<T(==)>(xs: seq<T>) {
    forall i, j :: 0 <= i < j < |xs| ==> xs[i] != xs[j]
  }

  /** The test `filte` applies at position `i >= 1`. */
  predicate Keeps(numbers: seq<string>, i: int)
    requires 0 < i < |numbers| && Parsable(numbers)
  {
    Value(numbers[i]) - Value(numbers[i - 1]) <= MaxGap
  }

  /** Which positions `filte` keeps: the first one, and each later one that passes `Keeps`. */
  function KeepMask(numbers: seq<string>): (mask: seq<bool>)
    requires |numbers| == 1 || Parsable(numbers)
  {
    seq(|numbers|, i requires 0 <= i < |numbers| => i == 0 || Keeps(numbers, i))
  }

  /** The elements of `xs` at the positions where `mask` is true, in order. */
  function Select<T(==,!new)>(xs: seq<T>, mask: seq<bool>): (r: seq<T>)
    requires |mask| == |xs|
    ensures |r| <= |xs|
    ensures forall x :: x in r <==> exists i :: 0 <= i < |xs| && mask[i] && xs[i] == x
    decreases |xs|
  {
    if |xs| == 0 then []
    else
      var n := |xs| - 1;
      var front := Select(xs[..n], mask[..n]);
      assert forall i :: 0 <= i < n ==> xs[..n][i] == xs[i] && mask[..n][i] == mask[i];
      front + (if mask[n] then [xs[n]] else [])
  }

  /** The loop of `filte` from index `i` on, with `kept` the list built so far. */
  function KeepFrom(numbers: seq<string>, i: nat, kept: seq<string>): (r: seq<string>)
    requires |numbers| == 1 || Parsable(numbers)
    requires 1 <= i <= |numbers|
    requires kept == Select(numbers[..i], KeepMask(numbers)[..i])
    ensures r == Select(numbers, KeepMask(numbers))
    ensures |kept| <= |r| && r[..|kept|] == kept
    decreases |numbers| - i
  {
    var mask := KeepMask(numbers);
    if i == |numbers| then
      assert numbers[..i] == numbers && mask[..i] == mask;
      kept
    else
      assert numbers[..i + 1][..i] == numbers[..i] && mask[..i + 1][..i] == mask[..i];
      var next := if Keeps(numbers, i) then kept + [numbers[i]] else kept;
      var r := KeepFrom(numbers, i + 1, next);
      assert r[..|kept|] == r[..|next|][..|kept|];
      r
  }

  /** `filte(numbers)`. */
  function Filte(numbers: seq<string>): (kept: seq<string>)
    requires |numbers| > 0
    requires |numbers| == 1 || Parsable(numbers)
    ensures kept == Select(numbers, KeepMask(numbers))
    ensures |kept| > 0 && kept[0] == numbers[0]
    ensures |kept| <= |numbers|
  {
    assert numbers[..1][..0] == [] && KeepMask(numbers)[..1][..0] == [];
    KeepFrom(numbers, 1, [numbers[0]])
  }

  /** Appending a number extends the result by that number exactly when it
      is at most five above the LAST NUMBER OF THE INPUT, whether or not
      that number was itself kept. */
  lemma FilteStep(numbers: seq<string>, x: string)
    requires |numbers| > 0 && Parsable(numbers) && IsNumeral(x)
    ensures Parsable(numbers + [x])
    ensures Filte(numbers + [x]) ==
      Filte(numbers) + (if Value(x) - Value(numbers[|numbers| - 1]) <= MaxGap then [x] else [])
  {
    var ys := numbers + [x];
    var n := |numbers|;
    assert forall k :: 0 <= k < n ==> numbers[k] == ys[k];
    assert ys[n] == x;
    assert ys[..n] == numbers;
    assert KeepMask(ys)[..n] == KeepMask(numbers);
    assert ys[n - 1] == numbers[n - 1];
  }

  /** For a duplicate-free input (as `find_unique_numbers` produces), a
      number survives exactly when it is first or passes the gap test. */
  lemma FilteMembership(numbers: seq<string>, i: int)
    requires Parsable(numbers) && Distinct(numbers)
    requires 0 <= i < |numbers|
    ensures numbers[i] in Filte(numbers) <==> i == 0 || Keeps(numbers, i)
  {
    var mask := KeepMask(numbers);
    if numbers[i] in Filte(numbers) {
      var j :| 0 <= j < |numbers| && mask[j] && numbers[j] == numbers[i];
      assert i == j;
    }
    if i == 0 || Keeps(numbers, i) {
      assert mask[i];
    }
  }

  /** Selecting from a duplicate-free sequence gives a duplicate-free sequence. */
  lemma {:induction false} SelectDistinct<T(!new)>(xs: seq<T>, mask: seq<bool>)
    requires |mask| == |xs| && Distinct(xs)
    ensures Distinct(Select(xs, mask))
    decreases |xs|
  {
    if |xs| > 0 {
      var n := |xs| - 1;
      SelectDistinct(xs[..n], mask[..n]);
      var front := Select(xs[..n], mask[..n]);
      forall i | 0 <= i < n
        ensures xs[..n][i] != xs[n]
      {
        assert xs[..n][i] == xs[i];
      }
      assert xs[n] !in front;
    }
  }

  /** The filtered numbers of a duplicate-free input are duplicate-free. */
  lemma FilteDistinct(numbers: seq<string>)
    requires |numbers| > 0 && Parsable(numbers) && Distinct(numbers)
    ensures Distinct(Filte(numbers))
  {
    SelectDistinct(numbers, KeepMask(numbers));
  }

  lemma TwoDigitValue(s: string)
    requires |s| == 2 && AllDigits(s)
    ensures Value(s) == 10 * DigitValue(s[0]) + DigitValue(s[1])
  {
    var t := s[1..];
    assert t[1..] == [];
    assert Value(t) == DigitValue(t[0]) * Pow10(0) + Value(t[1..]);
    assert Pow10(1) == 10;
    assert Value(s) == DigitValue(s[0]) * Pow10(1) + Value(t);
  }

  /** `filte` on three numbers, given the two gap tests. */
  lemma FilteThree(a: string, b: string, c: string)
    requires IsNumeral(a) && IsNumeral(b) && IsNumeral(c)
    ensures Filte([a, b, c]) ==
      [a] + (if Value(b) - Value(a) <= MaxGap then [b] else [])
          + (if Value(c) - Value(b) <= MaxGap then [c] else [])
  {
    FilteStep([a], b);
    assert [a] + [b] == [a, b];
    FilteStep([a, b], c);
    assert [a, b] + [c] == [a, b, c];
  }

  /** ["01","02","10"]: "10" is eight above "02" and is dropped. */
  lemma DropsFarNumber()
    ensures Filte(["01", "02", "10"]) == ["01", "02"]
  {
    TwoDigitValue("01");
    TwoDigitValue("02");
    TwoDigitValue("10");
    FilteThree("01", "02", "10");
  }

  /** ["01","02","07","08"]: every step is at most five, so all are kept. */
  lemma KeepsGapOfFive()
    ensures Filte(["01", "02", "07", "08"]) == ["01", "02", "07", "08"]
  {
    TwoDigitValue("01");
    TwoDigitValue("02");
    TwoDigitValue("07");
    TwoDigitValue("08");
    FilteThree("01", "02", "07");
    FilteStep(["01", "02", "07"], "08");
    assert ["01", "02", "07"] + ["08"] == ["01", "02", "07", "08"];
  }

  /** ["01","09","10"]: "09" is dropped, yet "10" is kept because it is
      compared with "09", not with the last kept number "01". */
  lemma ComparesWithOriginalPredecessor()
    ensures Filte(["01", "09", "10"]) == ["01", "10"]
  {
    TwoDigitValue("01");
    TwoDigitValue("09");
    TwoDigitValue("10");
    FilteThree("01", "09", "10");
  }

  /** ["05","100","99"] (Python string order): "100" is dropped, and "99"
      is kept because 99 - 100 is negative. */
  lemma KeepsNegativeStep()
    ensures Filte(["05", "100", "99"]) == ["05", "99"]
  {
    TwoDigitValue("05");
    TwoDigitValue("99");
    assert Value("100") == 100 by {
      assert "100"[1..] == "00";
      TwoDigitValue("00");
    }
    FilteThree("05", "100", "99");
  }
}
