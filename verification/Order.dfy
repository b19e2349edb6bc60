/** Sorting by a total preorder, the model of JavaScript's `Array.prototype.sort`, and the
    lexicographic order that `<` is on strings. */
module Order {

  ghost predicate TotalPreorder<T(!new)>(le: (T, T) -> bool) {
    && (forall a, b :: le(a, b) || le(b, a))
    && (forall a, b, c :: le(a, b) && le(b, c) ==> le(a, c))
  }

  ghost predicate Sorted<T>(s: seq<T>, le: (T, T) -> bool) {
    forall i, j :: 0 <= i < j < |s| ==> le(s[i], s[j])
  }

  /** Stable insertion: `x` goes behind the elements it ties with. */
  function Insert<T>(x: T, s: seq<T>, le: (T, T) -> bool): (r: seq<T>)
    ensures multiset(r) == multiset(s) + multiset{x}
  {
    if s == [] || !le(s[0], x) then [x] + s
    else
      assert s == [s[0]] + s[1..];
      [s[0]] + Insert(x, s[1..], le)
  }

  function Sort<T>(s: seq<T>, le: (T, T) -> bool): (r: seq<T>)
    ensures multiset(r) == multiset(s)
    ensures |r| == |s|
  {
    if s == [] then []
    else
      assert s == s[..|s| - 1] + [s[|s| - 1]];
      var r := Insert(s[|s| - 1], Sort(s[..|s| - 1], le), le);
      assert |multiset(r)| == |multiset(s)|;
      r
  }

  lemma {:induction false} InsertKeepsSorted<T(!new)>(x: T, s: seq<T>, le: (T, T) -> bool)
    requires TotalPreorder(le) && Sorted(s, le)
    ensures Sorted(Insert(x, s, le), le)
  {
    if s != [] && le(s[0], x) {
      InsertKeepsSorted(x, s[1..], le);
      var r := Insert(x, s[1..], le);
      forall k | 0 <= k < |r| ensures le(s[0], r[k]) {
        assert r[k] in multiset(s[1..]) + multiset{x};
      }
    }
  }

  lemma {:induction false} SortSorts<T(!new)>(s: seq<T>, le: (T, T) -> bool)
    requires TotalPreorder(le)
    ensures Sorted(Sort(s, le), le) && multiset(Sort(s, le)) == multiset(s)
  {
    if s != [] {
      SortSorts(s[..|s| - 1], le);
      InsertKeepsSorted(s[|s| - 1], Sort(s[..|s| - 1], le), le);
    }
  }

  predicate Tie<T>(a: T, b: T, le: (T, T) -> bool) { le(a, b) && le(b, a) }

  /** The elements that tie with `x`, in order. */
  function Ties<T>(s: seq<T>, x: T, le: (T, T) -> bool): seq<T> {
    if s == [] then [] else (if Tie(s[0], x, le) then [s[0]] else []) + Ties(s[1..], x, le)
  }

  lemma {:induction false} TiesConcat<T>(s: seq<T>, t: seq<T>, x: T, le: (T, T) -> bool)
    ensures Ties(s + t, x, le) == Ties(s, x, le) + Ties(t, x, le)
  {
    hide Tie;
    if s == [] {
      assert s + t == t;
    } else {
      assert (s + t)[1..] == s[1..] + t && (s + t)[0] == s[0];
      TiesConcat(s[1..], t, x, le);
      ghost var own := if Tie(s[0], x, le) then [s[0]] else [];
      assert Ties(s, x, le) == own + Ties(s[1..], x, le);
      assert Ties(s + t, x, le) == own + Ties((s + t)[1..], x, le);
    }
  }

  lemma {:induction false} NoTies<T>(s: seq<T>, x: T, le: (T, T) -> bool)
    requires forall y :: y in s ==> !Tie(y, x, le)
    ensures Ties(s, x, le) == []
  {
    if s != [] { NoTies(s[1..], x, le); }
  }

  lemma NoTieAbove<T(!new)>(least: T, z: T, x: T, y: T, le: (T, T) -> bool)
    requires TotalPreorder(le) && le(least, z) && !le(least, y) && Tie(y, x, le)
    ensures !Tie(z, x, le)
  {
    assert le(z, x) && le(x, y) ==> le(z, y);
    assert le(least, z) && le(z, y) ==> le(least, y);
  }

  lemma TiesOfOne<T>(y: T, x: T, le: (T, T) -> bool)
    ensures Ties([y], x, le) == if Tie(y, x, le) then [y] else []
  {
    assert [y][1..] == [];
  }

  lemma {:induction false} InsertIsStable<T(!new)>(y: T, s: seq<T>, x: T, le: (T, T) -> bool)
    requires TotalPreorder(le) && Sorted(s, le)
    ensures Ties(Insert(y, s, le), x, le) == Ties(s, x, le) + (if Tie(y, x, le) then [y] else [])
  {
    if s == [] || !le(s[0], y) {
      assert ([y] + s)[1..] == s;
      if Tie(y, x, le) {
        forall z | z in s ensures !Tie(z, x, le) {
          var k :| 0 <= k < |s| && s[k] == z;
          assert k > 0 ==> le(s[0], s[k]);
          assert le(s[0], s[0]);
          NoTieAbove(s[0], z, x, y, le);
        }
        NoTies(s, x, le);
      }
    } else {
      InsertIsStable(y, s[1..], x, le);
      assert ([s[0]] + Insert(y, s[1..], le))[1..] == Insert(y, s[1..], le);
    }
  }

  /** Elements that tie keep their order, as the language promises of its sort. */
  lemma {:induction false} SortIsStable<T(!new)>(s: seq<T>, x: T, le: (T, T) -> bool)
    requires TotalPreorder(le)
    ensures Ties(Sort(s, le), x, le) == Ties(s, x, le)
  {
    hide Insert, Ties, Tie, Sorted, TotalPreorder;
    if s == [] {
      assert Sort(s, le) == s;
    } else {
      var front, last := s[..|s| - 1], s[|s| - 1];
      SortIsStable(front, x, le);
      SortSorts(front, le);
      InsertIsStable(last, Sort(front, le), x, le);
      assert s == front + [last];
      TiesConcat(front, [last], x, le);
      TiesOfOne(last, x, le);
    }
  }

  ghost predicate Antisymmetric<T>(s: seq<T>, le: (T, T) -> bool) {
    forall a, b :: a in s && b in s && le(a, b) && le(b, a) ==> a == b
  }

  lemma FirstIsLeast<T(!new)>(s: seq<T>, le: (T, T) -> bool, x: T)
    requires TotalPreorder(le) && Sorted(s, le) && x in s
    ensures le(s[0], x)
  {
    var i :| 0 <= i < |s| && s[i] == x;
    if i == 0 { assert le(x, x); }
  }

  lemma TailMultiset<T>(s: seq<T>)
    requires s != []
    ensures multiset(s[1..]) == multiset(s) - multiset{s[0]}
  {
    assert s == [s[0]] + s[1..];
  }

  /** A list has only one sorted arrangement when no two of its elements tie. */
  lemma {:induction false} SortedIsUnique<T(!new)>(s: seq<T>, t: seq<T>, le: (T, T) -> bool)
    requires TotalPreorder(le) && Sorted(s, le) && Sorted(t, le) && Antisymmetric(s, le)
    requires multiset(s) == multiset(t)
    ensures s == t
    decreases |s|
  {
    assert |multiset(s)| == |s| && |multiset(t)| == |t|;
    if s != [] {
      var x, y := s[0], t[0];
      assert y in s by { assert y in multiset(t); }
      assert x in t by { assert x in multiset(s); }
      FirstIsLeast(s, le, y);
      FirstIsLeast(t, le, x);
      assert x == y;
      TailMultiset(s);
      TailMultiset(t);
      assert s == [x] + s[1..] && t == [y] + t[1..];
      forall a | a in s[1..] ensures a in s {}
      SortedIsUnique(s[1..], t[1..], le);
    }
  }

  /** Sorting forgets the input order when no two elements tie. */
  lemma SortIgnoresOrder<T(!new)>(s: seq<T>, t: seq<T>, le: (T, T) -> bool)
    requires TotalPreorder(le) && Antisymmetric(s, le) && multiset(s) == multiset(t)
    ensures Sort(s, le) == Sort(t, le)
  {
    SortSorts(s, le);
    SortSorts(t, le);
    forall a | a in Sort(s, le) ensures a in s {
      assert a in multiset(Sort(s, le));
    }
    SortedIsUnique(Sort(s, le), Sort(t, le), le);
  }

  predicate Leq(a: string, b: string) {
    a == [] || (b != [] && (a[0] < b[0] || (a[0] == b[0] && Leq(a[1..], b[1..]))))
  }

  lemma {:induction false} LeqTotal(a: string, b: string)
    ensures Leq(a, b) || Leq(b, a)
  {
    if a != [] && b != [] { LeqTotal(a[1..], b[1..]); }
  }

  lemma {:induction false} LeqTransitive(a: string, b: string, c: string)
    requires Leq(a, b) && Leq(b, c)
    ensures Leq(a, c)
  {
    if a != [] && a[0] == b[0] == c[0] { LeqTransitive(a[1..], b[1..], c[1..]); }
  }

  lemma {:induction false} LeqAntisymmetric(a: string, b: string)
    requires Leq(a, b) && Leq(b, a)
    ensures a == b
  {
    if a != [] {
      LeqAntisymmetric(a[1..], b[1..]);
      assert a == [a[0]] + a[1..] && b == [b[0]] + b[1..];
    }
  }
}
