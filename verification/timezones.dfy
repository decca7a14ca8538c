/** `get_common_timezones`: the zones offered in the settings form, the
    regional ones in code-point order with `UTC` in front. */
module Timezones {
  import opened PyStr

  const Utc: string := "UTC"

  /** The six region prefixes a common zone starts with. */
  const CommonPrefixes: seq<string> := ["America/", "Europe/", "Asia/", "Australia/", "Pacific/", "Africa/"]

  predicate IsCommon(zone: string) {
    (exists i :: 0 <= i < |CommonPrefixes| && StartsWith(zone, CommonPrefixes[i])) || zone == Utc
  }

  predicate Distinct(zones: seq<string>) {
    forall i, j :: 0 <= i < j < |zones| ==> zones[i] != zones[j]
  }

  /** Every zone strictly before every later one, as `sorted` leaves a
      list without repetitions. */
  predicate StrictlySorted(zones: seq<string>) {
    forall i, j :: 0 <= i < j < |zones| ==> LexLess(zones[i], zones[j])
  }

  /** The common zones, in the input's order. */
  function Common(zones: seq<string>): (r: seq<string>)
    ensures forall z :: z in r <==> z in zones && IsCommon(z)
    ensures Distinct(zones) ==> Distinct(r)
  {
    if |zones| == 0 then []
    else
      var rest := Common(zones[1..]);
      assert forall z :: z in zones <==> z == zones[0] || z in zones[1..];
      if IsCommon(zones[0]) then [zones[0]] + rest else rest
  }

  lemma LexLessAsymmetric(a: string, b: string)
    ensures !(LexLess(a, b) && LexLess(b, a))
  {
    if LexLess(a, b) && LexLess(b, a) {
      LexLessTransitive(a, b, a);
      LexLessIrreflexive(a);
    }
  }

  /** The head of a sorted list is below every later zone. */
  lemma SortedHead(zones: seq<string>)
    requires StrictlySorted(zones) && |zones| > 0
    ensures forall y :: y in zones[1..] ==> LexLess(zones[0], y)
    ensures zones[0] !in zones[1..]
  {
    forall y | y in zones[1..] ensures LexLess(zones[0], y) {
      var k :| 0 <= k < |zones| - 1 && zones[1..][k] == y;
      assert zones[k + 1] == y;
    }
    LexLessIrreflexive(zones[0]);
  }

  /** A zone below every zone of a sorted list goes in front of it. */
  lemma SortedCons(z: string, zones: seq<string>)
    requires StrictlySorted(zones) && forall y :: y in zones ==> LexLess(z, y)
    ensures StrictlySorted([z] + zones)
  {
    var r := [z] + zones;
    forall i, j | 0 <= i < j < |r| ensures LexLess(r[i], r[j]) {
      if i == 0 {
        assert r[j] == zones[j - 1] && zones[j - 1] in zones;
      } else {
        assert r[i] == zones[i - 1] && r[j] == zones[j - 1];
      }
    }
  }

  /** Inserting a new zone into a sorted list. */
  function Insert(z: string, sorted: seq<string>): (r: seq<string>)
    requires StrictlySorted(sorted) && z !in sorted
    ensures forall y :: y in r <==> y == z || y in sorted
    ensures StrictlySorted(r)
    ensures |r| == |sorted| + 1
  {
    if |sorted| == 0 then [z]
    else if LexLess(z, sorted[0]) then
      SortedHead(sorted);
      assert forall y :: y in sorted ==> LexLess(z, y) by {
        forall y | y in sorted[1..] ensures LexLess(z, y) {
          LexLessTransitive(z, sorted[0], y);
        }
        assert forall y :: y in sorted ==> y == sorted[0] || y in sorted[1..];
      }
      SortedCons(z, sorted);
      [z] + sorted
    else
      LexLessTotal(z, sorted[0]);
      SortedHead(sorted);
      assert forall y :: y in sorted <==> y == sorted[0] || y in sorted[1..];
      var rest := Insert(z, sorted[1..]);
      SortedCons(sorted[0], rest);
      [sorted[0]] + rest
  }

  /** `sorted` of a list without repetitions. */
  function Sort(zones: seq<string>): (r: seq<string>)
    requires Distinct(zones)
    ensures forall z :: z in r <==> z in zones
    ensures StrictlySorted(r)
  {
    if |zones| == 0 then []
    else
      assert forall z :: z in zones <==> z == zones[0] || z in zones[1..];
      Insert(zones[0], Sort(zones[1..]))
  }

  /** `list.remove`: the list without (the first occurrence of) `z`. */
  function Remove(zones: seq<string>, z: string): (r: seq<string>)
    ensures forall y :: y in r ==> y in zones
    ensures Distinct(zones) ==> forall y :: y in r <==> y in zones && y != z
    ensures StrictlySorted(zones) ==> StrictlySorted(r)
  {
    if |zones| == 0 then []
    else if zones[0] == z then zones[1..]
    else
      var rest := Remove(zones[1..], z);
      assert forall y :: y in zones <==> y == zones[0] || y in zones[1..];
      SortedHeadIf(zones);
      SortedConsIf(zones[0], rest);
      [zones[0]] + rest
  }

  lemma SortedHeadIf(zones: seq<string>)
    requires |zones| > 0
    ensures StrictlySorted(zones) ==> forall y :: y in zones[1..] ==> LexLess(zones[0], y)
  {
    if StrictlySorted(zones) {
      SortedHead(zones);
    }
  }

  lemma SortedConsIf(z: string, zones: seq<string>)
    ensures StrictlySorted(zones) && (forall y :: y in zones ==> LexLess(z, y)) ==> StrictlySorted([z] + zones)
  {
    if StrictlySorted(zones) && forall y :: y in zones ==> LexLess(z, y) {
      SortedCons(z, zones);
    }
  }

  /** A sorted list has no repetitions. */
  lemma SortedDistinct(zones: seq<string>)
    requires StrictlySorted(zones)
    ensures Distinct(zones)
  {
    forall i, j | 0 <= i < j < |zones| ensures zones[i] != zones[j] {
      LexLessIrreflexive(zones[i]);
    }
  }

  /** `get_common_timezones`, the available zones given as a list of the
      zone set's elements. */
  function CommonTimezones(zones: seq<string>): (r: seq<string>)
    requires Distinct(zones)
    ensures forall z :: z in r <==> z in zones && IsCommon(z)
    ensures Distinct(r)
    ensures Utc in zones ==> |r| > 0 && r[0] == Utc && StrictlySorted(r[1..])
    ensures Utc !in zones ==> StrictlySorted(r)
  {
    var sorted := Sort(Common(zones));
    SortedDistinct(sorted);
    if Utc in sorted then
      var rest := Remove(sorted, Utc);
      SortedDistinct(rest);
      var r := [Utc] + rest;
      assert r[1..] == rest;
      r
    else sorted
  }

  /*** Laws ***/

  /** Two sorted lists with the same zones are the same list. */
  lemma {:induction false} SortedUnique(a: seq<string>, b: seq<string>)
    requires StrictlySorted(a) && StrictlySorted(b)
    requires forall z :: z in a <==> z in b
    ensures a == b
    decreases |a|
  {
    if |a| > 0 {
      assert a[0] in b && b[0] in a;
      LexLessAsymmetric(a[0], b[0]);
      LexLessIrreflexive(a[0]);
      assert a[0] == b[0];
      forall z ensures z in a[1..] <==> z in b[1..] {
        assert z in a <==> z == a[0] || z in a[1..];
        assert z in b <==> z == b[0] || z in b[1..];
        assert forall j :: 0 < j < |a| ==> a[j] != a[0];
        assert forall j :: 0 < j < |b| ==> b[j] != b[0];
      }
      SortedUnique(a[1..], b[1..]);
      assert a == [a[0]] + a[1..] && b == [b[0]] + b[1..];
    } else {
      NoMembersEmpty(b);
    }
  }

  lemma NoMembersEmpty(zones: seq<string>)
    ensures (forall z :: z !in zones) ==> zones == []
  {
    if |zones| > 0 {
      assert zones[0] in zones;
    }
  }

  /** The result depends only on which zones exist, not on the order the
      zone set hands them out in. */
  lemma OrderIndependent(zones: seq<string>, other: seq<string>)
    requires Distinct(zones) && Distinct(other)
    requires forall z :: z in zones <==> z in other
    ensures CommonTimezones(zones) == CommonTimezones(other)
  {
    SortedUnique(Sort(Common(zones)), Sort(Common(other)));
  }
}
