/**
 * Which day files the log query reads: the directory listing, filtered
 * to `.json` names, sorted newest name first, cut to a week.
 */
module Listing {
  import opened Strings
  import opened Dict

  const Extension := ".json"

  /** How many day files one query reads at most. */
  const MaxDays := 7

  /** `names.filter(file => file.endsWith('.json'))`. */
  function JsonNames(names: seq<string>): (r: seq<string>)
    ensures forall n :: n in r <==> n in names && EndsWith(n, Extension)
    ensures Distinct(names) ==> Distinct(r)
  {
    if |names| == 0 then []
    else
      var rest := JsonNames(names[1..]);
      assert forall n :: n in names <==> n == names[0] || n in names[1..];
      if EndsWith(names[0], Extension) then [names[0]] + rest else rest
  }

  /** In the order the comparator `(a, b) => b.localeCompare(a)` asks for. */
  predicate SortedDescending(s: seq<string>) {
    forall i, j :: 0 <= i < j < |s| ==> AtLeast(s[i], s[j])
  }

  lemma AtLeastTransitive(a: string, b: string, c: string)
    requires AtLeast(a, b) && AtLeast(b, c)
    ensures AtLeast(a, c)
  {
    if a != b && b != c {
      BelowTransitive(c, b, a);
    }
  }

  lemma AtLeastAntisymmetric(a: string, b: string)
    requires AtLeast(a, b) && AtLeast(b, a)
    ensures a == b
  {
    if a != b {
      BelowAsymmetric(b, a);
    }
  }

  /** Something at least the head of a sorted sequence is at least all of it. */
  lemma AboveAll(x: string, s: seq<string>)
    requires SortedDescending(s) && |s| > 0 && AtLeast(x, s[0])
    ensures forall j :: 0 <= j < |s| ==> AtLeast(x, s[j])
  {
    forall j | 0 < j < |s|
      ensures AtLeast(x, s[j])
    {
      AtLeastTransitive(x, s[0], s[j]);
    }
  }

  /** The head of a sorted sequence stays in front of anything placed below it. */
  lemma BelowHead(h: string, x: string, rest: seq<string>, r: seq<string>)
    requires SortedDescending([h] + rest) && SortedDescending(r) && Below(x, h)
    requires multiset(r) == multiset(rest) + multiset{x}
    ensures SortedDescending([h] + r)
  {
    forall j | 0 <= j < |r|
      ensures AtLeast(h, r[j])
    {
      assert r[j] in multiset(r);
      if r[j] != x {
        assert r[j] in multiset(rest);
        var k :| 0 <= k < |rest| && rest[k] == r[j];
        assert ([h] + rest)[0] == h && ([h] + rest)[k + 1] == r[j];
        assert AtLeast(([h] + rest)[0], ([h] + rest)[k + 1]);
      }
    }
  }

  /** One step of the sort: `x` put into place in a sorted sequence. */
  function Insert(x: string, s: seq<string>): (r: seq<string>)
    requires SortedDescending(s)
    ensures SortedDescending(r)
    ensures multiset(r) == multiset(s) + multiset{x}
  {
    if |s| == 0 then [x]
    else if AtLeast(x, s[0]) then
      AboveAll(x, s);
      [x] + s
    else
      BelowTotal(x, s[0]);
      assert s == [s[0]] + s[1..];
      var r := Insert(x, s[1..]);
      BelowHead(s[0], x, s[1..], r);
      [s[0]] + r
  }

  /** `.sort((a, b) => b.localeCompare(a))`, string order standing for the locale's. */
  function SortDescending(s: seq<string>): (r: seq<string>)
    ensures SortedDescending(r)
    ensures multiset(r) == multiset(s)
  {
    if |s| == 0 then []
    else
      assert s == [s[0]] + s[1..];
      Insert(s[0], SortDescending(s[1..]))
  }

  /**
   * There is one descending arrangement of a multiset of names, so the
   * sort's result does not depend on the order it was given.
   */
  lemma {:induction false} SortedUnique(a: seq<string>, b: seq<string>)
    requires SortedDescending(a) && SortedDescending(b)
    requires multiset(a) == multiset(b)
    ensures a == b
  {
    if |a| > 0 {
      assert |b| == |multiset(b)| == |multiset(a)| == |a|;
      HeadIsGreatest(b, a[0]);
      HeadIsGreatest(a, b[0]);
      AtLeastAntisymmetric(a[0], b[0]);
      assert a == [a[0]] + a[1..] && b == [b[0]] + b[1..];
      assert multiset(a[1..]) == multiset(a) - multiset{a[0]};
      assert multiset(b[1..]) == multiset(b) - multiset{b[0]};
      SortedUnique(a[1..], b[1..]);
    } else {
      assert |multiset(b)| == 0;
    }
  }

  /** The head of a sorted sequence is at least each of its elements. */
  lemma HeadIsGreatest(s: seq<string>, x: string)
    requires SortedDescending(s) && x in multiset(s)
    ensures AtLeast(s[0], x)
  {
    var i :| 0 <= i < |s| && s[i] == x;
    if i > 0 {
      assert AtLeast(s[0], s[i]);
    }
  }

  /** A distinct sequence holds each of its elements once. */
  lemma {:induction false} DistinctCounts(s: seq<string>)
    requires Distinct(s)
    ensures forall x :: multiset(s)[x] == if x in s then 1 else 0
  {
    if |s| > 0 {
      assert Distinct(s[1..]);
      DistinctCounts(s[1..]);
      assert s == [s[0]] + s[1..];
    }
  }

  /** A repeated element is counted twice. */
  lemma Repeated(s: seq<string>, i: int, j: int)
    requires 0 <= i < j < |s| && s[i] == s[j]
    ensures multiset(s)[s[i]] >= 2
  {
    assert s == s[..j] + s[j..];
    assert s[..j][i] == s[i] && s[j..][0] == s[i];
    assert s[i] in multiset(s[..j]) && s[i] in multiset(s[j..]);
  }

  /** `.slice(0, 7)` of the sorted `.json` names. */
  function Select(listing: seq<string>): (r: seq<string>)
    ensures |r| <= MaxDays
    ensures SortedDescending(r)
    ensures forall n :: n in r ==> n in listing && EndsWith(n, Extension)
    ensures forall n :: n in listing && EndsWith(n, Extension) && n !in r ==>
      |r| == MaxDays && forall i :: 0 <= i < |r| ==> AtLeast(r[i], n)
    ensures Distinct(listing) ==> Distinct(r)
  {
    var s := SortDescending(JsonNames(listing));
    var r := if |s| <= MaxDays then s else s[..MaxDays];
    TopOfSorted(JsonNames(listing), s, r);
    r
  }

  /** What the cut keeps of a sorted arrangement of `names`. */
  lemma TopOfSorted(names: seq<string>, s: seq<string>, r: seq<string>)
    requires SortedDescending(s) && multiset(s) == multiset(names)
    requires r == if |s| <= MaxDays then s else s[..MaxDays]
    ensures forall n :: n in r ==> n in names
    ensures forall n :: n in names && n !in r ==>
      |r| == MaxDays && forall i :: 0 <= i < |r| ==> AtLeast(r[i], n)
    ensures Distinct(names) ==> Distinct(r)
  {
    assert forall i :: 0 <= i < |r| ==> r[i] == s[i];
    forall n | n in r
      ensures n in names
    {
      assert n in multiset(s);
    }
    forall n | n in names && n !in r
      ensures |r| == MaxDays && forall i :: 0 <= i < |r| ==> AtLeast(r[i], n)
    {
      assert n in multiset(names);
      assert n in multiset(s);
      var j :| 0 <= j < |s| && s[j] == n;
      assert forall i :: 0 <= i < |r| ==> s[i] != n;
      assert j >= |r|;
    }
    if Distinct(names) {
      DistinctCounts(names);
      forall i, j | 0 <= i < j < |r|
        ensures r[i] != r[j]
      {
        if r[i] == r[j] {
          Repeated(s, i, j);
        }
      }
    }
  }

  /** Distinct names of a sorted selection are strictly descending. */
  lemma StrictlyDescending(r: seq<string>)
    requires SortedDescending(r) && Distinct(r)
    ensures forall i, j :: 0 <= i < j < |r| ==> Below(r[j], r[i])
  {
  }

  /**
   * The directory lists its entries in an order of the file system's
   * choosing; the selection is the same for every order.
   */
  lemma SelectIndependent(l1: seq<string>, l2: seq<string>)
    requires Distinct(l1) && Distinct(l2)
    requires forall n :: n in l1 <==> n in l2
    ensures Select(l1) == Select(l2)
  {
    var j1, j2 := JsonNames(l1), JsonNames(l2);
    DistinctCounts(j1);
    DistinctCounts(j2);
    assert forall x :: multiset(j1)[x] == multiset(j2)[x];
    assert multiset(j1) == multiset(j2);
    SortedUnique(SortDescending(j1), SortDescending(j2));
  }
}
