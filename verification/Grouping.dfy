/** Lists kept under keys in a map, as the seed scripts and the queue consumer build them, tied to
    the one list that was distributed. */
module Grouping {

  function Listed<K, V>(groups: map<K, seq<V>>, k: K): seq<V> { if k in groups then groups[k] else [] }

  function Push<K, V>(groups: map<K, seq<V>>, k: K, v: V): map<K, seq<V>> {
    groups[k := Listed(groups, k) + [v]]
  }

  /** The entries of `s` filed under `k`, in order. */
  function Having<K(==), V(!new)>(s: seq<V>, key: V -> K, k: K): (r: seq<V>)
    ensures |r| <= |s|
    ensures forall v :: v in r <==> v in s && key(v) == k
  {
    if s == [] then [] else
    var last := s[|s| - 1];
    Having(s[..|s| - 1], key, k) + (if key(last) == k then [last] else [])
  }

  /** `groups` distributes `s` by key, and has no empty group. */
  ghost predicate Groups<K(!new), V(!new)>(groups: map<K, seq<V>>, s: seq<V>, key: V -> K) {
    && (forall k :: Listed(groups, k) == Having(s, key, k))
    && (forall k :: k in groups ==> groups[k] != [])
  }

  lemma PushGroups<K(!new), V(!new)>(groups: map<K, seq<V>>, s: seq<V>, key: V -> K, v: V)
    requires Groups(groups, s, key)
    ensures Groups(Push(groups, key(v), v), s + [v], key)
  {
    var after := Push(groups, key(v), v);
    forall k ensures Listed(after, k) == Having(s + [v], key, k) {
      assert (s + [v])[..|s|] == s;
      assert Listed(groups, k) == Having(s, key, k);
    }
  }

  lemma NoGroups<K(!new), V(!new)>(key: V -> K)
    ensures Groups<K, V>(map[], [], key)
  {}

  /** How many entries of `s` have their key in `ks`. */
  function CountIn<K(==), V>(s: seq<V>, key: V -> K, ks: set<K>): (n: nat)
    ensures n <= |s|
  {
    if s == [] then 0
    else CountIn(s[..|s| - 1], key, ks) + (if key(s[|s| - 1]) in ks then 1 else 0)
  }

  /** Taking one key away takes its group's size away. */
  lemma {:induction false} CountInSplit<K(!new), V(!new)>(s: seq<V>, key: V -> K, ks: set<K>, k: K)
    requires k in ks
    ensures CountIn(s, key, ks) == CountIn(s, key, ks - {k}) + |Having(s, key, k)|
  {
    if s != [] { CountInSplit(s[..|s| - 1], key, ks, k); }
  }

  lemma {:induction false} CountInAll<K(!new), V(!new)>(s: seq<V>, key: V -> K, ks: set<K>)
    requires forall v :: v in s ==> key(v) in ks
    ensures CountIn(s, key, ks) == |s|
  {
    if s != [] { CountInAll(s[..|s| - 1], key, ks); }
  }

  lemma {:induction false} CountInNone<K(!new), V(!new)>(s: seq<V>, key: V -> K)
    ensures CountIn(s, key, {}) == 0
  {
    if s != [] { CountInNone(s[..|s| - 1], key); }
  }

  /** The groups' keys cover the list they distribute. */
  lemma GroupsCover<K(!new), V(!new)>(groups: map<K, seq<V>>, s: seq<V>, key: V -> K)
    requires Groups(groups, s, key)
    ensures forall v :: v in s ==> key(v) in groups
    ensures CountIn(s, key, groups.Keys) == |s|
  {
    forall v | v in s ensures key(v) in groups {
      assert v in Having(s, key, key(v)) && Listed(groups, key(v)) == Having(s, key, key(v));
    }
    CountInAll(s, key, groups.Keys);
  }
}
