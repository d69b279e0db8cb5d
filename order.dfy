/** Python's ordering of `str` values and `sorted(set(xs))`: the strictly increasing list of the
    distinct elements of xs, which does not depend on the (unspecified) iteration order of the set. */
module Order {
  import opened Text

  /** `a < b` on Python strings: lexicographic by code point, a proper prefix first. */
  predicate Less(a: string, b: string)
    decreases |a|
  {
    if a == [] then b != []
    else if b == [] then false
    else if a[0] != b[0] then a[0] < b[0]
    else Less(a[1..], b[1..])
  }

  lemma {:induction false} LessIrreflexive(a: string)
    ensures !Less(a, a)
    decreases |a|
  {
    if a != [] { LessIrreflexive(a[1..]); }
  }

  lemma {:induction false} LessTransitive(a: string, b: string, c: string)
    requires Less(a, b) && Less(b, c)
    ensures Less(a, c)
    decreases |a|
  {
    if a != [] && a[0] == b[0] && b[0] == c[0] {
      LessTransitive(a[1..], b[1..], c[1..]);
    }
  }

  lemma {:induction false} LessTotal(a: string, b: string)
    ensures a == b || Less(a, b) || Less(b, a)
    decreases |a|
  {
    if a != [] && b != [] && a[0] == b[0] {
      LessTotal(a[1..], b[1..]);
      assert a == [a[0]] + a[1..] && b == [b[0]] + b[1..];
    }
  }

  lemma LessAsymmetric(a: string, b: string)
    ensures !(Less(a, b) && Less(b, a))
  {
    if Less(a, b) && Less(b, a) {
      LessTransitive(a, b, a);
      LessIrreflexive(a);
    }
  }

  predicate StrictlySorted(xs: seq<string>) {
    forall i, j :: 0 <= i < j < |xs| ==> Less(xs[i], xs[j])
  }

  /** Inserts x into a strictly sorted list, unless it is already there. */
  function Insert(x: string, xs: seq<string>): seq<string>
    decreases |xs|
  {
    if xs == [] then [x]
    else if x == xs[0] then xs
    else if Less(x, xs[0]) then [x] + xs
    else [xs[0]] + Insert(x, xs[1..])
  }

  lemma {:induction false} InsertElems(x: string, xs: seq<string>)
    ensures Elems(Insert(x, xs)) == Elems(xs) + {x}
    decreases |xs|
  {
    if xs != [] && x != xs[0] {
      if Less(x, xs[0]) {
        assert Elems([x] + xs) == Elems(xs) + {x};
      } else {
        InsertElems(x, xs[1..]);
        assert xs == [xs[0]] + xs[1..];
        assert Elems([xs[0]] + Insert(x, xs[1..])) == {xs[0]} + Elems(Insert(x, xs[1..]));
        assert Elems(xs) == {xs[0]} + Elems(xs[1..]);
      }
    }
  }

  lemma {:induction false} InsertSorted(x: string, xs: seq<string>)
    requires StrictlySorted(xs)
    ensures StrictlySorted(Insert(x, xs))
    decreases |xs|
  {
    if xs == [] {
    } else if x == xs[0] {
    } else if Less(x, xs[0]) {
      forall j | 0 < j < |xs| ensures Less(x, xs[j]) { LessTransitive(x, xs[0], xs[j]); }
    } else {
      var tail := xs[1..];
      InsertSorted(x, tail);
      var r := Insert(x, tail);
      assert forall j :: 0 <= j < |r| ==> Less(xs[0], r[j]) by {
        InsertElems(x, tail);
        LessTotal(x, xs[0]);
        forall j | 0 <= j < |r| ensures Less(xs[0], r[j]) {
          assert r[j] in Elems(tail) + {x};
          if r[j] != x {
            var k :| 0 <= k < |tail| && tail[k] == r[j];
            assert xs[k + 1] == r[j];
          }
        }
      }
      assert Insert(x, xs) == [xs[0]] + r;
      ConsSorted(xs[0], r);
    }
  }

  /** An element below every element of a strictly sorted list can be put in front of it. */
  lemma ConsSorted(h: string, r: seq<string>)
    requires StrictlySorted(r) && forall j :: 0 <= j < |r| ==> Less(h, r[j])
    ensures StrictlySorted([h] + r)
  {
    var y := [h] + r;
    forall i, j | 0 <= i < j < |y| ensures Less(y[i], y[j]) {
      assert y[j] == r[j - 1];
      if i > 0 { assert y[i] == r[i - 1]; }
    }
  }

  /** `sorted(set(xs))`. */
  function SortedDistinct(xs: seq<string>): (r: seq<string>)
    ensures StrictlySorted(r)
    ensures Elems(r) == Elems(xs)
    decreases |xs|
  {
    if xs == [] then []
    else
      var init := xs[..|xs| - 1];
      var rest := SortedDistinct(init);
      InsertSorted(xs[|xs| - 1], rest);
      InsertElems(xs[|xs| - 1], rest);
      assert xs == init + [xs[|xs| - 1]];
      assert Elems(xs) == Elems(init) + {xs[|xs| - 1]};
      Insert(xs[|xs| - 1], rest)
  }

  /** The head of a strictly sorted list is below every other element. */
  lemma HeadLeast(xs: seq<string>, y: string)
    requires StrictlySorted(xs) && xs != []
    ensures y in Elems(xs) && y != xs[0] ==> Less(xs[0], y)
  {
  }

  /** A strictly sorted list is determined by its set of elements: whatever order the set is
      iterated in, sorting it gives the same list. */
  lemma {:induction false} SortedUnique(xs: seq<string>, ys: seq<string>)
    requires StrictlySorted(xs) && StrictlySorted(ys) && Elems(xs) == Elems(ys)
    ensures xs == ys
    decreases |xs|
  {
    if xs != [] {
      assert xs[0] in Elems(ys);
      HeadLeast(xs, ys[0]);
      HeadLeast(ys, xs[0]);
      LessAsymmetric(xs[0], ys[0]);
      assert xs[0] == ys[0];
      forall y | y in Elems(xs[1..]) ensures y != xs[0] {
        var k :| 0 <= k < |xs[1..]| && xs[1..][k] == y;
        assert Less(xs[0], xs[k + 1]);
        LessIrreflexive(y);
      }
      forall y | y in Elems(ys[1..]) ensures y != ys[0] {
        var k :| 0 <= k < |ys[1..]| && ys[1..][k] == y;
        assert Less(ys[0], ys[k + 1]);
        LessIrreflexive(y);
      }
      assert xs == [xs[0]] + xs[1..] && ys == [ys[0]] + ys[1..];
      assert Elems(xs) == {xs[0]} + Elems(xs[1..]);
      assert Elems(ys) == {ys[0]} + Elems(ys[1..]);
      assert Elems(xs[1..]) == Elems(ys[1..]);
      SortedUnique(xs[1..], ys[1..]);
    } else {
      ElemsEmpty(ys);
    }
  }

  lemma ElemsEmpty(ys: seq<string>)
    ensures Elems(ys) == {} ==> ys == []
  {
    if ys != [] { assert ys[0] in Elems(ys); }
  }

  /** Keeping some elements of a strictly sorted list leaves it strictly sorted. */
  lemma {:induction false} FilterSorted(xs: seq<string>, keep: string -> bool)
    requires StrictlySorted(xs)
    ensures StrictlySorted(Filter(xs, keep))
    decreases |xs|
  {
    if xs != [] {
      FilterSorted(xs[1..], keep);
      var rest := Filter(xs[1..], keep);
      forall j | 0 <= j < |rest| ensures Less(xs[0], rest[j]) {
        assert rest[j] in rest;
        var k :| 0 <= k < |xs[1..]| && xs[1..][k] == rest[j];
        assert xs[k + 1] == rest[j];
      }
    }
  }

  lemma SortedNoDuplicates(xs: seq<string>)
    requires StrictlySorted(xs)
    ensures NoDuplicates(xs)
  {
    forall i, j | 0 <= i < j < |xs| ensures xs[i] != xs[j] { LessIrreflexive(xs[i]); }
  }
}
