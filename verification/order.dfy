/** The order the tool emits its lines in and how it gets there: byte-wise
    lexicographic comparison of strings (Go's string `<`, used by
    sort.Strings, and Python's str comparison, used by sorted), sorting a
    slice, listing the members of a set in whatever order the set yields them,
    and the one strictly ascending enumeration a set of strings has. */
module Order {

  /** The elements of a sequence. */
  function Elems(xs: seq<string>): set<string> {
    set x | x in xs
  }

  // ------------------------------------------------------ lexicographic order

  /** a < b, comparing character by character from the front. */
  predicate Less(a: string, b: string)
    decreases |a|
  {
    if a == [] then b != []
    else if b == [] then false
    else a[0] < b[0] || (a[0] == b[0] && Less(a[1..], b[1..]))
  }

  /** `a` and `b` agree before position `k`, and there `a` has the smaller
      character. */
  predicate FirstLessAt(a: string, b: string, k: int) {
    0 <= k < |a| && k < |b| && a[..k] == b[..k] && a[k] < b[k]
  }

  /** The textbook definition: `a` is a proper prefix of `b`, or `a` has the
      smaller character at the first position where the two differ. */
  ghost predicate LexLess(a: string, b: string) {
    || (|a| < |b| && a == b[..|a|])
    || exists k :: FirstLessAt(a, b, k)
  }

  lemma {:induction false} LessIsLexicographic(a: string, b: string)
    ensures Less(a, b) <==> LexLess(a, b)
    decreases |a|
  {
    if a == [] || b == [] {
    } else {
      LessIsLexicographic(a[1..], b[1..]);
      if a[0] < b[0] {
        assert FirstLessAt(a, b, 0);
      } else if a[0] == b[0] {
        if LexLess(a[1..], b[1..]) {
          if |a[1..]| < |b[1..]| && a[1..] == b[1..][..|a[1..]|] {
            assert a == [a[0]] + a[1..] && b[..|a|] == [b[0]] + b[1..][..|a[1..]|];
          } else {
            var k :| FirstLessAt(a[1..], b[1..], k);
            assert a[..k + 1] == [a[0]] + a[1..][..k] && b[..k + 1] == [b[0]] + b[1..][..k];
            assert FirstLessAt(a, b, k + 1);
          }
        }
        if LexLess(a, b) {
          if |a| < |b| && a == b[..|a|] {
            assert a[1..] == b[1..][..|a[1..]|];
          } else {
            var k :| FirstLessAt(a, b, k);
            assert k != 0;
            assert a[1..][..k - 1] == a[..k][1..] && b[1..][..k - 1] == b[..k][1..];
            assert FirstLessAt(a[1..], b[1..], k - 1);
          }
        }
      } else {
        forall k | 0 < k <= |a| && k <= |b|
          ensures a[..k] != b[..k]
        {
          assert a[..k][0] == a[0] && b[..k][0] == b[0];
        }
        assert !FirstLessAt(a, b, 0);
      }
    }
  }

  lemma {:induction false} LessIrreflexive(a: string)
    ensures !Less(a, a)
    decreases |a|
  {
    if a != [] {
      LessIrreflexive(a[1..]);
    }
  }

  lemma {:induction false} LessTransitive(a: string, b: string, c: string)
    requires Less(a, b) && Less(b, c)
    ensures Less(a, c)
    decreases |a|
  {
    if a != [] && a[0] == b[0] && b[0] == c[0] {
      LessTransitive(a[1..], b[1..], c[1..]);
    }
  }

  lemma {:induction false} LessTotal(a: string, b: string)
    requires a != b
    ensures Less(a, b) || Less(b, a)
    decreases |a|
  {
    if a != [] && b != [] && a[0] == b[0] {
      assert a == [a[0]] + a[1..] && b == [b[0]] + b[1..];
      LessTotal(a[1..], b[1..]);
    }
  }

  lemma LessAsymmetric(a: string, b: string)
    requires Less(a, b)
    ensures !Less(b, a)
  {
    if Less(b, a) {
      LessTransitive(a, b, a);
      LessIrreflexive(a);
    }
  }

  /** "Not greater" is transitive as well. */
  lemma NotLessTransitive(a: string, b: string, c: string)
    requires !Less(b, a) && !Less(c, b)
    ensures !Less(c, a)
  {
    if a != b && b != c {
      LessTotal(a, b);
      LessTotal(b, c);
      LessTransitive(a, b, c);
      LessAsymmetric(a, c);
    }
  }

  // ---------------------------------------------------------------- sorting

  /** Ascending, ties allowed: what sort.Strings and sorted promise. */
  predicate Sorted(xs: seq<string>) {
    forall i, j :: 0 <= i < j < |xs| ==> !Less(xs[j], xs[i])
  }

  /** Ascending with no ties. */
  predicate StrictlySorted(xs: seq<string>) {
    forall i, j :: 0 <= i < j < |xs| ==> Less(xs[i], xs[j])
  }

  predicate Distinct(xs: seq<string>) {
    forall i, j :: 0 <= i < j < |xs| ==> xs[i] != xs[j]
  }

  lemma SortedCons(h: string, t: seq<string>)
    requires Sorted(t)
    requires forall y :: y in t ==> !Less(y, h)
    ensures Sorted([h] + t)
  {
    var s := [h] + t;
    forall i, j | 0 <= i < j < |s|
      ensures !Less(s[j], s[i])
    {
      assert s[j] == t[j - 1];
      if i > 0 {
        assert s[i] == t[i - 1];
      }
    }
  }

  /** Places `x` after every element smaller than it. */
  function Insert(xs: seq<string>, x: string): (r: seq<string>)
    requires Sorted(xs)
    ensures Sorted(r)
    ensures multiset(r) == multiset(xs) + multiset{x}
    decreases |xs|
  {
    if xs == [] || !Less(xs[0], x) then
      assert forall y :: y in xs ==> !Less(y, x) by {
        forall y | y in xs
          ensures !Less(y, x)
        {
          var j :| 0 <= j < |xs| && xs[j] == y;
          if j > 0 {
            NotLessTransitive(x, xs[0], y);
          }
        }
      }
      SortedCons(x, xs);
      [x] + xs
    else
      var rest := Insert(xs[1..], x);
      assert xs == [xs[0]] + xs[1..];
      assert forall y :: y in rest ==> !Less(y, xs[0]) by {
        forall y | y in rest
          ensures !Less(y, xs[0])
        {
          assert y in multiset(rest);
          if y == x {
            LessAsymmetric(xs[0], x);
          } else {
            assert y in multiset(xs[1..]);
            var j :| 0 <= j < |xs[1..]| && xs[1..][j] == y;
            assert xs[j + 1] == y;
          }
        }
      }
      SortedCons(xs[0], rest);
      [xs[0]] + rest
  }

  /** sort.Strings, as an insertion sort. */
  method SortStrings(xs: seq<string>) returns (ys: seq<string>)
    ensures Sorted(ys)
    ensures multiset(ys) == multiset(xs)
  {
    ys := [];
    for i := 0 to |xs|
      invariant Sorted(ys)
      invariant multiset(ys) == multiset(xs[..i])
    {
      assert xs[..i + 1] == xs[..i] + [xs[i]];
      ys := Insert(ys, xs[i]);
    }
    assert xs[..|xs|] == xs;
  }

  /** Lists the members of a set, in whatever order the set yields them. */
  method Extract(m: set<string>) returns (xs: seq<string>)
    ensures Distinct(xs)
    ensures Elems(xs) == m
    ensures |xs| == |m|
  {
    xs := [];
    var rest := m;
    while rest != {}
      invariant rest <= m
      invariant Elems(xs) == m - rest
      invariant Distinct(xs)
      invariant |xs| + |rest| == |m|
      decreases |rest|
    {
      var x :| x in rest;
      assert x !in xs;
      assert Elems(xs + [x]) == Elems(xs) + {x};
      xs := xs + [x];
      rest := rest - {x};
    }
  }

  lemma {:induction false} DistinctAtMostOnce(xs: seq<string>, v: string)
    requires Distinct(xs)
    ensures multiset(xs)[v] <= 1
    decreases |xs|
  {
    if xs != [] {
      var init := xs[..|xs| - 1];
      assert xs == init + [xs[|xs| - 1]];
      DistinctAtMostOnce(init, v);
      if xs[|xs| - 1] == v {
        assert v !in init;
      }
    }
  }

  lemma TwiceCountsTwice(ys: seq<string>, i: int, j: int)
    requires 0 <= i < j < |ys| && ys[i] == ys[j]
    ensures multiset(ys)[ys[i]] >= 2
  {
    assert ys == ys[..j] + ys[j..];
    assert ys[i] in ys[..j];
    assert ys[j] in ys[j..];
  }

  /** A rearrangement of a duplicate-free sequence is duplicate-free. */
  lemma DistinctPermutation(xs: seq<string>, ys: seq<string>)
    requires Distinct(xs) && multiset(xs) == multiset(ys)
    ensures Distinct(ys)
  {
    forall i, j | 0 <= i < j < |ys|
      ensures ys[i] != ys[j]
    {
      DistinctAtMostOnce(xs, ys[i]);
      if ys[i] == ys[j] {
        TwiceCountsTwice(ys, i, j);
      }
    }
  }

  lemma SortedDistinctIsStrict(xs: seq<string>)
    requires Sorted(xs) && Distinct(xs)
    ensures StrictlySorted(xs)
  {
    forall i, j | 0 <= i < j < |xs|
      ensures Less(xs[i], xs[j])
    {
      LessTotal(xs[i], xs[j]);
    }
  }

  /** A strictly ascending sequence never repeats an element. */
  lemma StrictlySortedIsDistinct(xs: seq<string>)
    requires StrictlySorted(xs)
    ensures Distinct(xs)
  {
    forall i, j | 0 <= i < j < |xs|
      ensures xs[i] != xs[j]
    {
      LessIrreflexive(xs[i]);
    }
  }

  // -------------------------------------------- canonical order of a set

  ghost predicate IsLeast(m: string, s: set<string>) {
    m in s && forall y :: y in s ==> !Less(y, m)
  }

  lemma {:induction false} LeastExists(s: set<string>)
    requires s != {}
    ensures exists m :: IsLeast(m, s)
    decreases |s|
  {
    var x :| x in s;
    LessIrreflexive(x);
    if s == {x} {
      assert IsLeast(x, s);
    } else {
      LeastExists(s - {x});
      var m :| IsLeast(m, s - {x});
      if Less(x, m) {
        forall y | y in s
          ensures !Less(y, x)
        {
          if y != x && Less(y, x) {
            LessTransitive(y, x, m);
          }
        }
        assert IsLeast(x, s);
      } else {
        assert IsLeast(m, s);
      }
    }
  }

  lemma ElemsEmpty(xs: seq<string>)
    ensures Elems(xs) == {} <==> xs == []
  {
    if xs != [] {
      assert xs[0] in Elems(xs);
    }
  }

  /** Putting the least member in front of the enumeration of the others
      enumerates the whole set. */
  lemma CanonicalStep(m: string, s: set<string>, rest: seq<string>)
    requires IsLeast(m, s)
    requires StrictlySorted(rest) && Elems(rest) == s - {m} && |rest| == |s - {m}|
    ensures StrictlySorted([m] + rest)
    ensures Elems([m] + rest) == s
    ensures |[m] + rest| == |s|
  {
    var r := [m] + rest;
    forall i, j | 0 <= i < j < |r|
      ensures Less(r[i], r[j])
    {
      assert r[j] == rest[j - 1];
      if i > 0 {
        assert r[i] == rest[i - 1];
      } else {
        assert rest[j - 1] in Elems(rest);
        LessTotal(m, rest[j - 1]);
      }
    }
    assert Elems(r) == {m} + Elems(rest);
  }

  /** The members of `s` in strictly ascending order: the result of sorting
      the set's members, whatever order they were listed in. */
  ghost function Canonical(s: set<string>): (r: seq<string>)
    ensures StrictlySorted(r)
    ensures Elems(r) == s
    ensures |r| == |s|
    decreases |s|
  {
    if s == {} then
      ElemsEmpty([]);
      []
    else
      LeastExists(s);
      var m :| IsLeast(m, s);
      var rest := Canonical(s - {m});
      CanonicalStep(m, s, rest);
      [m] + rest
  }

  lemma CanonicalSingleton(x: string)
    ensures Canonical({x}) == [x]
  {
    var r := Canonical({x});
    assert r[0] in Elems(r);
  }

  lemma CanonicalPair(a: string, b: string)
    requires Less(a, b)
    ensures Canonical({a, b}) == [a, b]
  {
    assert Elems([a, b]) == {a, b};
    SortedUnique(Canonical({a, b}), [a, b]);
  }

  /** A set has only one strictly ascending enumeration. */
  lemma {:induction false} SortedUnique(a: seq<string>, b: seq<string>)
    requires StrictlySorted(a) && StrictlySorted(b)
    requires Elems(a) == Elems(b)
    ensures a == b
    decreases |a|
  {
    if a == [] {
      ElemsEmpty(a);
      ElemsEmpty(b);
    } else {
      assert a[0] in Elems(a);
      assert b != [];
      assert b[0] in Elems(b);
      if a[0] != b[0] {
        var i :| 0 <= i < |a| && a[i] == b[0];
        var j :| 0 <= j < |b| && b[j] == a[0];
        assert i > 0 && j > 0;
        LessAsymmetric(a[0], b[0]);
      }
      StrictlySortedIsDistinct(a);
      StrictlySortedIsDistinct(b);
      assert Elems(a[1..]) == Elems(a) - {a[0]} by {
        assert a == [a[0]] + a[1..];
      }
      assert Elems(b[1..]) == Elems(b) - {b[0]} by {
        assert b == [b[0]] + b[1..];
      }
      SortedUnique(a[1..], b[1..]);
      assert a == [a[0]] + a[1..] && b == [b[0]] + b[1..];
    }
  }

  /** Go's extraction of the map's keys followed by sort.Strings, and
      Python's sorted over a set: whatever order the members are listed in,
      the result is the set's canonical enumeration. */
  method Finalize(seen: set<string>) returns (subs: seq<string>)
    ensures subs == Canonical(seen)
    ensures StrictlySorted(subs)
    ensures Elems(subs) == seen
    ensures |subs| == |seen|
  {
    var listed := Extract(seen);
    subs := SortStrings(listed);
    DistinctPermutation(listed, subs);
    SortedDistinctIsStrict(subs);
    assert Elems(subs) == Elems(listed) by {
      forall x
        ensures x in subs <==> x in listed
      {
        assert x in subs <==> x in multiset(subs);
        assert x in listed <==> x in multiset(listed);
      }
    }
    SortedUnique(subs, Canonical(seen));
  }
}
