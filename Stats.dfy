/** `safe_median`: the median of the values that are present. */
module Stats {
  import opened Base

  /** `[v for v in values if v is not None and not math.isnan(v)]` */
  function Defined(values: seq<Option<real>>): seq<real>
    decreases |values|
  {
    if values == [] then []
    else (if values[0].Some? then [values[0].value] else []) + Defined(values[1..])
  }

  /** Exactly the present values are kept, each as often as it is
      present, and nothing is added. */
  lemma {:induction false} DefinedMembers(values: seq<Option<real>>)
    ensures |Defined(values)| <= |values|
    ensures forall i :: 0 <= i < |values| && values[i].Some? ==> values[i].value in Defined(values)
    ensures forall x :: x in Defined(values) ==> Some(x) in values
    ensures forall x :: multiset(Defined(values))[x] == multiset(values)[Some(x)]
    decreases |values|
  {
    if values != [] {
      var rest := values[1..];
      DefinedMembers(rest);
      assert values == [values[0]] + rest;
      assert multiset(values) == multiset{values[0]} + multiset(rest);
      var h := if values[0].Some? then [values[0].value] else [];
      assert Defined(values) == h + Defined(rest);
      assert multiset(Defined(values)) == multiset(h) + multiset(Defined(rest));
      forall i | 1 <= i < |values| ensures values[i] == rest[i - 1] { }
    }
  }

  /** Dropping absent entries commutes with concatenation. */
  lemma {:induction false} DefinedConcat(a: seq<Option<real>>, b: seq<Option<real>>)
    ensures Defined(a + b) == Defined(a) + Defined(b)
    decreases |a|
  {
    if a != [] {
      DefinedConcat(a[1..], b);
      assert (a + b)[0] == a[0];
      assert (a + b)[1..] == a[1..] + b;
      var h := if a[0].Some? then [a[0].value] else [];
      assert Defined(a) == h + Defined(a[1..]);
      assert Defined(a + b) == h + Defined(a[1..] + b);
      assert h + (Defined(a[1..]) + Defined(b)) == (h + Defined(a[1..])) + Defined(b);
    } else {
      assert a + b == b;
    }
  }

  ghost predicate Sorted(s: seq<real>) {
    forall i, j :: 0 <= i < j < |s| ==> s[i] <= s[j]
  }

  /** Insertion of `x` into an ascending sequence. */
  function Insert(x: real, s: seq<real>): seq<real>
    decreases |s|
  {
    if s == [] || x <= s[0] then [x] + s else [s[0]] + Insert(x, s[1..])
  }

  /** The ascending order `np.median` works on (insertion sort). */
  function Sort(s: seq<real>): seq<real>
    decreases |s|
  {
    if s == [] then [] else Insert(s[0], Sort(s[1..]))
  }

  lemma SortedTail(s: seq<real>)
    requires Sorted(s) && s != []
    ensures Sorted(s[1..])
    ensures forall e :: e in s[1..] ==> s[0] <= e
  {
    forall i, j | 0 <= i < j < |s| - 1 ensures s[1..][i] <= s[1..][j] {
      assert s[1..][i] == s[i + 1] && s[1..][j] == s[j + 1];
    }
  }

  /** Insertion adds exactly `x`. */
  lemma {:induction false} InsertElements(x: real, s: seq<real>)
    ensures multiset(Insert(x, s)) == multiset(s) + multiset{x}
    ensures forall e :: e in Insert(x, s) <==> e == x || e in s
    decreases |s|
  {
    if s != [] && x > s[0] {
      InsertElements(x, s[1..]);
      assert s == [s[0]] + s[1..];
    }
  }

  /** Insertion keeps the order and adds exactly `x`. */
  lemma {:induction false} InsertSpec(x: real, s: seq<real>)
    requires Sorted(s)
    ensures Sorted(Insert(x, s))
    ensures multiset(Insert(x, s)) == multiset(s) + multiset{x}
    decreases |s|
  {
    InsertElements(x, s);
    if s == [] || x <= s[0] {
      if s != [] {
        SortedTail(s);
      }
      SortedCons(x, s);
    } else {
      SortedTail(s);
      InsertSpec(x, s[1..]);
      InsertElements(x, s[1..]);
      SortedCons(s[0], Insert(x, s[1..]));
    }
  }

  /** Prepending a lower bound keeps a sequence ascending. */
  lemma SortedCons(h: real, t: seq<real>)
    requires Sorted(t)
    requires forall e :: e in t ==> h <= e
    ensures Sorted([h] + t)
  {
    var r := [h] + t;
    forall i, j | 0 <= i < j < |r| ensures r[i] <= r[j] {
      assert r[j] == t[j - 1];
      assert t[j - 1] in t;
      if i > 0 { assert r[i] == t[i - 1]; }
    }
  }

  /** Sorting yields an ascending permutation of its input. */
  lemma {:induction false} SortSpec(s: seq<real>)
    ensures Sorted(Sort(s))
    ensures multiset(Sort(s)) == multiset(s)
    decreases |s|
  {
    if s != [] {
      SortSpec(s[1..]);
      InsertSpec(s[0], Sort(s[1..]));
      assert s == [s[0]] + s[1..];
    }
  }

  /** Removing the head removes one occurrence of it. */
  lemma MultisetTail(a: seq<real>)
    requires a != []
    ensures multiset(a[1..]) == multiset(a) - multiset{a[0]}
    ensures a[0] in multiset(a)
  {
    assert a == [a[0]] + a[1..];
  }

  /** The head of an ascending sequence is its least element. */
  lemma HeadIsLeast(a: seq<real>)
    requires Sorted(a) && a != []
    ensures forall e :: e in a ==> a[0] <= e
  {
    forall e | e in a ensures a[0] <= e {
      var i :| 0 <= i < |a| && a[i] == e;
      if i > 0 {
        assert a[0] <= a[i];
      }
    }
  }

  /** Two ascending arrangements of the same values are the same sequence. */
  lemma {:induction false} SortedUnique(a: seq<real>, b: seq<real>)
    requires Sorted(a) && Sorted(b)
    requires multiset(a) == multiset(b)
    ensures a == b
    decreases |a|
  {
    assert |a| == |multiset(a)| == |multiset(b)| == |b|;
    if a != [] {
      SortedTail(a);
      SortedTail(b);
      MultisetTail(a);
      MultisetTail(b);
      assert a[0] in b && b[0] in a;
      HeadIsLeast(a);
      HeadIsLeast(b);
      assert a[0] <= b[0] && b[0] <= a[0];
      SortedUnique(a[1..], b[1..]);
      assert a == [a[0]] + a[1..] && b == [b[0]] + b[1..];
    }
  }

  /** Middle element of an odd count, mean of the two middle elements of an even one. */
  function Median(s: seq<real>): real
    requires |s| > 0
  {
    if |s| % 2 == 1 then s[|s| / 2] else (s[|s| / 2 - 1] + s[|s| / 2]) / 2.0
  }

  /** `safe_median`: `None` when no value is present, otherwise the median
      of the present values. */
  function SafeMedian(values: seq<Option<real>>): (r: Option<real>)
    ensures r.None? <==> forall i :: 0 <= i < |values| ==> values[i].None?
  {
    var v := Defined(values);
    DefinedMembers(values);
    if v == [] then
      assert forall i :: 0 <= i < |values| ==> values[i].None? by {
        forall i | 0 <= i < |values| ensures values[i].None? {
          assert values[i] in values;
        }
      }
      None
    else
      assert v[0] in v;
      SortSpec(v);
      assert |Sort(v)| == |multiset(v)| == |v|;
      Some(Median(Sort(v)))
  }

  /** The median of an ascending sequence lies between its ends, and for
      an odd count it is one of its elements. */
  lemma MedianBetween(s: seq<real>)
    requires Sorted(s) && |s| > 0
    ensures s[0] <= Median(s) <= s[|s| - 1]
    ensures |s| % 2 == 1 ==> Median(s) in s
  {
    var m := |s| / 2;
    if |s| % 2 == 1 {
      assert Median(s) == s[m];
    } else {
      assert s[0] <= s[m - 1] <= s[m] <= s[|s| - 1];
    }
  }

  /** The median lies between the smallest and the largest present value,
      and for an odd count it is one of them. */
  lemma MedianInRange(values: seq<Option<real>>)
    requires SafeMedian(values).Some?
    ensures exists x :: Some(x) in values && x <= SafeMedian(values).value
    ensures exists y :: Some(y) in values && SafeMedian(values).value <= y
    ensures |Defined(values)| % 2 == 1 ==> Some(SafeMedian(values).value) in values
  {
    var v := Defined(values);
    var s := Sort(v);
    DefinedMembers(values);
    SortSpec(v);
    assert |multiset(s)| == |v|;
    MedianBetween(s);
    assert SafeMedian(values).value == Median(s);
    assert s[0] in multiset(v) && s[|s| - 1] in multiset(v);
    assert Some(s[0]) in values && Some(s[|s| - 1]) in values;
    if |v| % 2 == 1 {
      assert Median(s) in multiset(v);
    }
  }

  /** Only the multiset of present values matters: order and absent
      entries do not change the median. */
  lemma MedianOrderFree(a: seq<Option<real>>, b: seq<Option<real>>)
    requires multiset(Defined(a)) == multiset(Defined(b))
    ensures SafeMedian(a) == SafeMedian(b)
  {
    SortSpec(Defined(a));
    SortSpec(Defined(b));
    SortedUnique(Sort(Defined(a)), Sort(Defined(b)));
    if Defined(a) == [] {
      assert |multiset(Defined(b))| == 0;
    }
  }

  /** Inserting an absent value anywhere leaves the median unchanged. */
  lemma MedianIgnoresMissing(a: seq<Option<real>>, b: seq<Option<real>>)
    ensures SafeMedian(a + [None] + b) == SafeMedian(a + b)
  {
    DefinedConcat(a, [None]);
    DefinedConcat(a + [None], b);
    DefinedConcat(a, b);
    assert Defined([None]) == [];
    assert Defined(a + [None]) == Defined(a);
    MedianOrderFree(a + [None] + b, a + b);
  }

  /** When the present values are already ascending, the median is read
      off them directly. */
  lemma MedianOfSorted(values: seq<Option<real>>)
    requires Defined(values) != [] && Sorted(Defined(values))
    ensures SafeMedian(values) == Some(Median(Defined(values)))
  {
    SortSpec(Defined(values));
    SortedUnique(Sort(Defined(values)), Defined(values));
  }

  lemma DefinedThree(a: real, b: real, c: real)
    ensures Defined([Some(a), Some(b), Some(c)]) == [a, b, c]
  {
    var v := [Some(a), Some(b), Some(c)];
    assert v[1..] == [Some(b), Some(c)];
    assert v[1..][1..] == [Some(c)];
    assert v[1..][1..][1..] == [];
    assert Defined([Some(c)]) == [c] + Defined([]);
    assert Defined([Some(b), Some(c)]) == [b] + Defined([Some(c)]);
    assert Defined(v) == [a] + Defined([Some(b), Some(c)]);
  }

  lemma MedianOfThreeSorted(a: real, c: real, b: real)
    requires a <= c <= b
    ensures SafeMedian([Some(a), Some(c), Some(b)]) == Some(c)
  {
    DefinedThree(a, c, b);
    var d := [a, c, b];
    assert Sorted(d);
    MedianOfSorted([Some(a), Some(c), Some(b)]);
    assert |d| % 2 == 1 && |d| / 2 == 1;
    assert Median(d) == d[1];
  }

  /** The median of three present values is the middle one, whatever
      their order: `x`, `y`, `z` is any arrangement of `a <= c <= b`. */
  lemma MedianOfThree(x: real, y: real, z: real, a: real, c: real, b: real)
    requires a <= c <= b
    requires multiset([x, y, z]) == multiset([a, c, b])
    ensures SafeMedian([Some(x), Some(y), Some(z)]) == Some(c)
  {
    DefinedThree(x, y, z);
    DefinedThree(a, c, b);
    MedianOrderFree([Some(x), Some(y), Some(z)], [Some(a), Some(c), Some(b)]);
    MedianOfThreeSorted(a, c, b);
  }

  /** A single outlier does not drag the median: the median of 100000,
      1000000 and 110000 is 110000, not their mean. */
  lemma MedianResistsOutlier()
    ensures SafeMedian([Some(100000.0), Some(1000000.0), Some(110000.0)]) == Some(110000.0)
  {
    MedianOfThree(100000.0, 1000000.0, 110000.0, 100000.0, 110000.0, 1000000.0);
  }
}
