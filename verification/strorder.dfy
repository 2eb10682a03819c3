/** Python's ordering of `str` values (code point by code point, a proper
    prefix first) and strictly sorted sequences built by insertion: the
    model of `sorted(numbers)` on a set of strings. */
module StrOrder {

  /** `a < b` on Python strings. */
  predicate Less(a: string, b: string)
    decreases |a|
  {
    if |a| == 0 then |b| > 0
    else if |b| == 0 then false
    else a[0] < b[0] || (a[0] == b[0] && Less(a[1..], b[1..]))
  }

  lemma {:induction false} LessIrreflexive(a: string)
    ensures !Less(a, a)
    decreases |a|
  {
    if |a| > 0 {
      LessIrreflexive(a[1..]);
    }
  }

  lemma {:induction false} LessTransitive(a: string, b: string, c: string)
    requires Less(a, b) && Less(b, c)
    ensures Less(a, c)
    decreases |a|
  {
    if |a| > 0 && a[0] == b[0] && b[0] == c[0] {
      LessTransitive(a[1..], b[1..], c[1..]);
    }
  }

  lemma {:induction false} LessTotal(a: string, b: string)
    ensures a == b || Less(a, b) || Less(b, a)
    decreases |a|
  {
    if |a| > 0 && |b| > 0 && a[0] == b[0] {
      LessTotal(a[1..], b[1..]);
      if a[1..] == b[1..] {
        assert a == [a[0]] + a[1..] && b == [b[0]] + b[1..];
      }
    }
  }

  lemma LessAsymmetric(a: string, b: string)
    requires Less(a, b)
    ensures !Less(b, a)
  {
    if Less(b, a) {
      LessTransitive(a, b, a);
      LessIrreflexive(a);
    }
  }

  /** Every element is smaller than every later one: sorted, no duplicates. */
  predicate StrictlySorted(xs: seq<string>) {
    forall i, j :: 0 <= i < j < |xs| ==> Less(xs[i], xs[j])
  }

  /** Adding `x` to the sorted, duplicate-free listing `xs` of a set. */
  function Insert(xs: seq<string>, x: string): (r: seq<string>)
    requires StrictlySorted(xs)
    ensures StrictlySorted(r)
    ensures forall y :: y in r <==> y in xs || y == x
  {
    if |xs| == 0 then [x]
    else if x == xs[0] then xs
    else if Less(x, xs[0]) then
      InsertFront(xs, x);
      [x] + xs
    else
      var rest := Insert(xs[1..], x);
      LessTotal(x, xs[0]);
      assert forall y :: y in rest ==> Less(xs[0], y);
      [xs[0]] + rest
  }

  lemma InsertFront(xs: seq<string>, x: string)
    requires StrictlySorted(xs) && |xs| > 0 && Less(x, xs[0])
    ensures StrictlySorted([x] + xs)
  {
    forall j | 0 < j < |xs|
      ensures Less(x, xs[j])
    {
      LessTransitive(x, xs[0], xs[j]);
    }
  }

  /** Adding every element of `ys` to the listing `xs`. */
  function InsertAll(xs: seq<string>, ys: seq<string>): (r: seq<string>)
    requires StrictlySorted(xs)
    ensures StrictlySorted(r)
    ensures forall y :: y in r <==> y in xs || y in ys
    decreases |ys|
  {
    if |ys| == 0 then xs else InsertAll(Insert(xs, ys[0]), ys[1..])
  }

  /** A set has only one strictly sorted listing: so a strictly sorted
      sequence with the right elements is `sorted()` of that set. */
  lemma {:induction false} SortedListingUnique(a: seq<string>, b: seq<string>)
    requires StrictlySorted(a) && StrictlySorted(b)
    requires forall y :: y in a <==> y in b
    ensures a == b
    decreases |a|
  {
    assert |a| > 0 ==> a[0] in b;
    assert |b| > 0 ==> b[0] in a;
    if |a| > 0 && |b| > 0 {
      if a[0] != b[0] {
        assert b[0] in a && a[0] in b;
        var k :| 0 <= k < |a| && a[k] == b[0];
        var m :| 0 <= m < |b| && b[m] == a[0];
        LessAsymmetric(a[0], a[k]);
      }
      forall y | y in a[1..]
        ensures y in b[1..]
      {
        var k :| 1 <= k < |a| && a[k] == y;
        assert y in b;
        var i :| 0 <= i < |b| && b[i] == y;
        if i == 0 {
          LessIrreflexive(a[0]);
        } else {
          assert b[1..][i - 1] == y;
        }
      }
      forall y | y in b[1..]
        ensures y in a[1..]
      {
        var k :| 1 <= k < |b| && b[k] == y;
        assert y in a;
        var i :| 0 <= i < |a| && a[i] == y;
        if i == 0 {
          LessIrreflexive(b[0]);
        } else {
          assert a[1..][i - 1] == y;
        }
      }
      SortedListingUnique(a[1..], b[1..]);
      assert a == [a[0]] + a[1..] && b == [b[0]] + b[1..];
    }
  }
}
