/** `sort(...)`: a top-down merge sort that keeps the left element on ties.
    The comparison may fail and may thread a state (the variable bindings a
    custom comparison writes), so both are parameters. */
module Sorting {
  import opened Wrappers
  import opened Values
  import opened Errors

  /** A three-way comparison: negative, zero or positive, or an error. */
  type Comparison<!S> = (S, Value, Value) -> Result<(int, S), Error>

  /** Merges two runs; on a tie (a comparison `<= 0`) the left element goes
      first. */
  function Merge<S>(left: seq<Value>, right: seq<Value>, s: S, cmp: Comparison<S>): (r: Result<(seq<Value>, S), Error>)
    ensures r.Success? ==> multiset(r.value.0) == multiset(left) + multiset(right)
    decreases |left| + |right|
  {
    if |left| == 0 then Success((right, s))
    else if |right| == 0 then Success((left, s))
    else
      var c :- cmp(s, left[0], right[0]);
      if c.0 <= 0 then
        var rest :- Merge(left[1..], right, c.1, cmp);
        assert left == [left[0]] + left[1..];
        Success(([left[0]] + rest.0, rest.1))
      else
        var rest :- Merge(left, right[1..], c.1, cmp);
        assert right == [right[0]] + right[1..];
        Success(([right[0]] + rest.0, rest.1))
  }

  /** Splits at `|xs| / 2`, sorts both halves (left first) and merges. A list
      of at most one element is returned as it is. */
  function MergeSort<S>(xs: seq<Value>, s: S, cmp: Comparison<S>): (r: Result<(seq<Value>, S), Error>)
    ensures r.Success? ==> multiset(r.value.0) == multiset(xs)
    decreases |xs|
  {
    if |xs| <= 1 then Success((xs, s))
    else
      var mid := |xs| / 2;
      var left :- MergeSort(xs[..mid], s, cmp);
      var right :- MergeSort(xs[mid..], left.1, cmp);
      assert xs == xs[..mid] + xs[mid..];
      Merge(left.0, right.0, right.1, cmp)
  }

  /*** The default comparison ***/

  /** Ascending numeric order; any other operand is an error. */
  function NumericCompare(u: (), a: Value, b: Value): (r: Result<(int, ()), Error>)
    ensures r.Success? <==> a.NumberValue? && b.NumberValue?
    ensures r.Success? ==> (r.value.0 <= 0 <==> a.number <= b.number)
  {
    if !a.NumberValue? || !b.NumberValue? then Failure(ExecFailure(SortNeedsNumbers))
    else if a.number < b.number then Success((-1, ()))
    else if a.number > b.number then Success((1, ()))
    else Success((0, ()))
  }

  /** `sort(list)` without a comparison. */
  function SortNumbers(xs: seq<Value>): Result<seq<Value>, Error> {
    var r :- MergeSort(xs, (), NumericCompare);
    Success(r.0)
  }

  predicate AllNumbers(xs: seq<Value>) {
    forall i :: 0 <= i < |xs| ==> xs[i].NumberValue?
  }

  predicate SortedNumbers(xs: seq<Value>) {
    AllNumbers(xs) && forall i, j :: 0 <= i < j < |xs| ==> xs[i].number <= xs[j].number
  }

  /** A number at most the head of a sorted run extends it. */
  lemma SortedCons(h: Value, rest: seq<Value>)
    requires h.NumberValue? && SortedNumbers(rest)
    requires |rest| > 0 ==> h.number <= rest[0].number
    ensures SortedNumbers([h] + rest)
  {
    var m := [h] + rest;
    forall i, j | 0 <= i < j < |m|
      ensures m[i].number <= m[j].number
    {
      assert m[j] == rest[j - 1];
      if i > 0 {
        assert m[i] == rest[i - 1];
      } else {
        assert rest[0].number <= rest[j - 1].number || j - 1 == 0;
      }
    }
  }

  /** Merging two sorted runs of numbers succeeds and gives a sorted run
      that starts with one of the two heads. */
  lemma {:induction false} MergeSorted(left: seq<Value>, right: seq<Value>)
    requires SortedNumbers(left) && SortedNumbers(right)
    ensures Merge(left, right, (), NumericCompare).Success?
    ensures var m := Merge(left, right, (), NumericCompare).value.0;
            SortedNumbers(m) && |m| == |left| + |right|
            && (|m| > 0 ==> (|left| > 0 && m[0] == left[0]) || (|right| > 0 && m[0] == right[0]))
    decreases |left| + |right|
  {
    if |left| > 0 && |right| > 0 {
      if left[0].number <= right[0].number {
        SortedSlice(left, 1, |left|);
        MergeSorted(left[1..], right);
        var rest := Merge(left[1..], right, (), NumericCompare).value.0;
        assert |rest| > 0 ==> (|left| > 1 && rest[0] == left[1]) || rest[0] == right[0];
        SortedCons(left[0], rest);
        assert Merge(left, right, (), NumericCompare).value.0 == [left[0]] + rest;
      } else {
        SortedSlice(right, 1, |right|);
        MergeSorted(left, right[1..]);
        var rest := Merge(left, right[1..], (), NumericCompare).value.0;
        assert |rest| > 0 ==> rest[0] == left[0] || (|right| > 1 && rest[0] == right[1]);
        SortedCons(right[0], rest);
        assert Merge(left, right, (), NumericCompare).value.0 == [right[0]] + rest;
      }
    }
  }

  /** The default sort of a list of numbers succeeds with an ascending
      permutation of it. */
  lemma {:induction false} SortNumbersSorted(xs: seq<Value>)
    requires AllNumbers(xs)
    ensures SortNumbers(xs).Success?
    ensures SortedNumbers(SortNumbers(xs).value)
    ensures multiset(SortNumbers(xs).value) == multiset(xs)
    decreases |xs|
  {
    if |xs| > 1 {
      var mid := |xs| / 2;
      assert AllNumbers(xs[..mid]) by {
        forall i | 0 <= i < mid ensures xs[..mid][i].NumberValue? { assert xs[..mid][i] == xs[i]; }
      }
      assert AllNumbers(xs[mid..]) by {
        forall i | 0 <= i < |xs| - mid ensures xs[mid..][i].NumberValue? { assert xs[mid..][i] == xs[mid + i]; }
      }
      SortNumbersSorted(xs[..mid]);
      SortNumbersSorted(xs[mid..]);
      var left := SortNumbers(xs[..mid]).value;
      var right := SortNumbers(xs[mid..]).value;
      MergeSorted(left, right);
      SortNumbersStep(xs);
    }
  }

  /** The default sort of two or more values sorts both halves and merges. */
  lemma SortNumbersStep(xs: seq<Value>)
    requires |xs| > 1
    ensures var mid := |xs| / 2;
            SortNumbers(xs).Success? <==>
              SortNumbers(xs[..mid]).Success? && SortNumbers(xs[mid..]).Success?
              && Merge(SortNumbers(xs[..mid]).value, SortNumbers(xs[mid..]).value, (), NumericCompare).Success?
    ensures var mid := |xs| / 2;
            SortNumbers(xs).Success? ==>
              SortNumbers(xs).value
              == Merge(SortNumbers(xs[..mid]).value, SortNumbers(xs[mid..]).value, (), NumericCompare).value.0
  {
    var mid := |xs| / 2;
    var l := MergeSort(xs[..mid], (), NumericCompare);
    var r := MergeSort(xs[mid..], (), NumericCompare);
    if l.Success? {
      assert l.value.1 == ();
      if r.Success? {
        assert r.value.1 == ();
      }
    }
  }

  /** A merge of two non-empty runs compares their heads first, so both
      heads are numbers when it succeeds. */
  lemma MergeHeadsAreNumbers(left: seq<Value>, right: seq<Value>)
    requires |left| > 0 && |right| > 0
    requires Merge(left, right, (), NumericCompare).Success?
    ensures left[0].NumberValue? && right[0].NumberValue?
  {
  }

  lemma AllNumbersSplit(xs: seq<Value>, mid: nat)
    requires mid <= |xs|
    ensures AllNumbers(xs) <==> AllNumbers(xs[..mid]) && AllNumbers(xs[mid..])
  {
    assert forall i :: 0 <= i < mid ==> xs[..mid][i] == xs[i];
    assert forall i :: mid <= i < |xs| ==> xs[mid..][i - mid] == xs[i];
  }

  /** One half of a successful default sort consists of numbers: a longer
      half by induction, a single element because it is the head of its
      sorted run. */
  lemma {:induction false} HalfNumbers(half: seq<Value>, sorted: seq<Value>)
    requires 0 < |half| < 2 ==> |sorted| > 0 && sorted[0].NumberValue?
    requires |half| >= 2 ==> SortNumbers(half).Success?
    requires SortNumbers(half) == Success(sorted)
    ensures AllNumbers(half)
    decreases |half|, 1
  {
    if |half| >= 2 {
      SortNumbersNeedsNumbers(half);
    }
  }

  /** Conversely, the default sort of two or more values fails as soon as
      one of them is not a number: every element meets a comparison. */
  lemma {:induction false} SortNumbersNeedsNumbers(xs: seq<Value>)
    requires |xs| >= 2 && SortNumbers(xs).Success?
    ensures AllNumbers(xs)
    decreases |xs|, 0
  {
    var mid := |xs| / 2;
    SortNumbersStep(xs);
    var left := SortNumbers(xs[..mid]).value;
    var right := SortNumbers(xs[mid..]).value;
    assert |left| == mid && |right| == |xs| - mid by {
      assert |multiset(left)| == |multiset(xs[..mid])|;
      assert |multiset(right)| == |multiset(xs[mid..])|;
    }
    MergeHeadsAreNumbers(left, right);
    HalfNumbers(xs[..mid], left);
    HalfNumbers(xs[mid..], right);
    AllNumbersSplit(xs, mid);
  }

  /** Sorting twice is sorting once. */
  lemma SortNumbersIdempotent(xs: seq<Value>)
    requires AllNumbers(xs)
    ensures SortNumbers(xs).Success?
    ensures SortNumbers(SortNumbers(xs).value) == SortNumbers(xs)
  {
    SortNumbersSorted(xs);
    var ys := SortNumbers(xs).value;
    SortedUnchanged(ys);
  }

  /** Sorting an already sorted list of numbers returns it unchanged: the
      merge of its two sorted halves keeps the left half first on ties. */
  lemma {:induction false} SortedUnchanged(xs: seq<Value>)
    requires SortedNumbers(xs)
    ensures SortNumbers(xs) == Success(xs)
    decreases |xs|
  {
    if |xs| > 1 {
      var mid := |xs| / 2;
      SortedSlice(xs, 0, mid);
      SortedSlice(xs, mid, |xs|);
      assert xs[0..mid] == xs[..mid] && xs[mid..|xs|] == xs[mid..];
      SortedUnchanged(xs[..mid]);
      SortedUnchanged(xs[mid..]);
      assert xs[..mid] + xs[mid..] == xs;
      MergeOrderedRuns(xs[..mid], xs[mid..]);
      SortNumbersStep(xs);
    }
  }

  lemma SortedSlice(xs: seq<Value>, a: nat, b: nat)
    requires SortedNumbers(xs) && a <= b <= |xs|
    ensures SortedNumbers(xs[a..b])
  {
    assert forall i :: 0 <= i < b - a ==> xs[a..b][i] == xs[a + i];
  }

  /** Two sorted runs where every left element is at most every right one
      merge into their concatenation. */
  lemma {:induction false} MergeOrderedRuns(left: seq<Value>, right: seq<Value>)
    requires SortedNumbers(left + right)
    ensures Merge(left, right, (), NumericCompare) == Success((left + right, ()))
    decreases |left|
  {
    if |left| > 0 && |right| > 0 {
      assert (left + right)[0] == left[0] && (left + right)[|left|] == right[0];
      assert left[1..] + right == (left + right)[1..];
      SortedSlice(left + right, 1, |left + right|);
      MergeOrderedRuns(left[1..], right);
      assert [left[0]] + (left[1..] + right) == left + right;
    } else if |left| == 0 {
      assert left + right == right;
    } else {
      assert left + right == left;
    }
  }
}
