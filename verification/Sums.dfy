/** Sums over sequences and the facts the load and debt arguments need. */
module Sums {

  function Sum<T>(s: seq<T>, f: T -> real): real {
    if s == [] then 0.0 else Sum(s[..|s| - 1], f) + f(s[|s| - 1])
  }

  /** For sums of numbers as they are. */
  function Self(x: real): real { x }

  function Flatten<T>(parts: seq<seq<T>>): seq<T> {
    if parts == [] then [] else Flatten(parts[..|parts| - 1]) + parts[|parts| - 1]
  }

  lemma {:induction false} SumConcat<T>(s: seq<T>, t: seq<T>, f: T -> real)
    ensures Sum(s + t, f) == Sum(s, f) + Sum(t, f)
  {
    if t == [] {
      assert s + t == s;
    } else {
      assert (s + t)[..|s + t| - 1] == s + t[..|t| - 1];
      SumConcat(s, t[..|t| - 1], f);
    }
  }

  lemma SumWithout<T>(t: seq<T>, i: nat, f: T -> real)
    requires i < |t|
    ensures Sum(t, f) == Sum(t[..i] + t[i + 1..], f) + f(t[i])
  {
    assert t == t[..i + 1] + t[i + 1..];
    SumConcat(t[..i + 1], t[i + 1..], f);
    SumConcat(t[..i], t[i + 1..], f);
    assert t[..i + 1][..i] == t[..i];
  }

  lemma MultisetWithout<T>(t: seq<T>, i: nat)
    requires i < |t|
    ensures multiset(t[..i] + t[i + 1..]) == multiset(t) - multiset{t[i]}
  {
    assert t == t[..i] + [t[i]] + t[i + 1..];
  }

  /** A sum depends only on which elements occur, and how often. */
  lemma {:induction false} SumIgnoresOrder<T>(s: seq<T>, t: seq<T>, f: T -> real)
    requires multiset(s) == multiset(t)
    ensures Sum(s, f) == Sum(t, f)
    decreases |s|
  {
    assert |multiset(s)| == |s| && |multiset(t)| == |t|;
    if s != [] {
      var last := |s| - 1;
      assert s[last] in multiset(t);
      var i :| 0 <= i < |t| && t[i] == s[last];
      MultisetWithout(s, last);
      MultisetWithout(t, i);
      SumWithout(t, i, f);
      assert s[..last] + s[last + 1..] == s[..last];
      SumIgnoresOrder(s[..last], t[..i] + t[i + 1..], f);
    }
  }

  lemma {:induction false} SumAtLeastZero<T>(s: seq<T>, f: T -> real)
    requires forall x :: x in s ==> f(x) >= 0.0
    ensures Sum(s, f) >= 0.0
  {
    if s != [] { SumAtLeastZero(s[..|s| - 1], f); }
  }

  /** `n` times `c`. */
  function Times(n: nat, c: real): real { if n == 0 then 0.0 else Times(n - 1, c) + c }

  lemma {:induction false} TimesMonotone(n: nat, m: nat, c: real)
    requires n <= m && c >= 0.0
    ensures Times(n, c) <= Times(m, c)
  {
    if n < m { TimesMonotone(n, m - 1, c); }
  }

  lemma {:induction false} TimesOne(n: nat)
    ensures Times(n, 1.0) == n as real
  {
    if n > 0 { TimesOne(n - 1); }
  }

  /** Parts that each sum to at most `c` together sum to at most `c` times their number. */
  lemma {:induction false} FlattenAtMost<T>(parts: seq<seq<T>>, f: T -> real, c: real)
    requires forall k :: 0 <= k < |parts| ==> Sum(parts[k], f) <= c
    ensures Sum(Flatten(parts), f) <= Times(|parts|, c)
  {
    if parts != [] {
      var last := |parts| - 1;
      FlattenAtMost(parts[..last], f, c);
      SumConcat(Flatten(parts[..last]), parts[last], f);
    }
  }

  lemma {:induction false} FlattenConcat<T>(s: seq<seq<T>>, t: seq<seq<T>>)
    ensures Flatten(s + t) == Flatten(s) + Flatten(t)
  {
    if t == [] {
      assert s + t == s;
    } else {
      assert (s + t)[..|s + t| - 1] == s + t[..|t| - 1];
      FlattenConcat(s, t[..|t| - 1]);
    }
  }

  /** A sum over all parts splits at any part. */
  lemma FlattenSplit<T>(parts: seq<seq<T>>, j: nat, f: T -> real)
    requires j <= |parts|
    ensures Sum(Flatten(parts), f) == Sum(Flatten(parts[..j]), f) + Sum(Flatten(parts[j..]), f)
  {
    assert parts == parts[..j] + parts[j..];
    FlattenConcat(parts[..j], parts[j..]);
    SumConcat(Flatten(parts[..j]), Flatten(parts[j..]), f);
  }

  lemma SumOfNone<T>(f: T -> real)
    ensures Sum([], f) == 0.0
  {}

  lemma SumOneMore<T>(s: seq<T>, n: nat, f: T -> real)
    requires n < |s|
    ensures Sum(s[..n + 1], f) == Sum(s[..n], f) + f(s[n])
  {
    assert s[..n + 1][..n] == s[..n];
  }

  lemma SumPrefix<T>(s: seq<T>, n: nat, f: T -> real)
    requires n <= |s| && forall x :: x in s ==> f(x) >= 0.0
    ensures Sum(s[..n], f) <= Sum(s, f)
  {
    assert s == s[..n] + s[n..];
    SumConcat(s[..n], s[n..], f);
    SumAtLeastZero(s[n..], f);
  }

  lemma {:induction false} FlattenUpdate<T>(parts: seq<seq<T>>, g: nat, x: T)
    requires g < |parts|
    ensures multiset(Flatten(parts[g := parts[g] + [x]])) == multiset(Flatten(parts)) + multiset{x}
  {
    var grown := parts[g := parts[g] + [x]];
    var n := |parts| - 1;
    assert Flatten(grown) == Flatten(grown[..n]) + grown[n] && Flatten(parts) == Flatten(parts[..n]) + parts[n];
    if g == n {
      assert grown[..n] == parts[..n];
    } else {
      FlattenUpdate(parts[..n], g, x);
      assert grown[..n] == parts[..n][g := parts[g] + [x]];
    }
  }

  lemma {:induction false} InFlatten<T>(parts: seq<seq<T>>, k: nat, x: T)
    requires k < |parts| && x in parts[k]
    ensures x in Flatten(parts)
  {
    if k < |parts| - 1 { InFlatten(parts[..|parts| - 1], k, x); }
  }

  /** Every element of the flattened list sits in one of the parts. */
  lemma {:induction false} FlattenIn<T>(parts: seq<seq<T>>, x: T) returns (k: nat)
    requires x in Flatten(parts)
    ensures k < |parts| && x in parts[k]
  {
    if x in parts[|parts| - 1] { k := |parts| - 1; } else { k := FlattenIn(parts[..|parts| - 1], x); }
  }
}
