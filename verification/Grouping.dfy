/** Lists that are grouped by a key, in a map of one value for each key (`BTreeMap`). */
module Grouping {
  import opened Ordering

  /** A tuple of strings. */
  type Key = seq<string>

  function Group<T(!new)>(s: seq<T>, keyOf: T -> Key, key: Key): seq<T> {
    Filter(s, x => keyOf(x) == key)
  }

  function KeySetOf<T>(s: seq<T>, keyOf: T -> Key): set<Key> { set i | 0 <= i < |s| :: keyOf(s[i]) }

  function KeysBy<T>(s: seq<T>, keyOf: T -> Key): (keys: seq<Key>)
    ensures |keys| == |s| && forall i :: 0 <= i < |s| ==> keys[i] == keyOf(s[i])
  {
    if s == [] then [] else [keyOf(s[0])] + KeysBy(s[1..], keyOf)
  }

  lemma GroupMore<T(!new)>(s: seq<T>, keyOf: T -> Key, x: T, key: Key)
    ensures Group(s + [x], keyOf, key) == if keyOf(x) == key then Group(s, keyOf, key) + [x] else Group(s, keyOf, key)
  {
    FilterMore(s, x, y => keyOf(y) == key);
  }

  lemma KeySetMore<T>(s: seq<T>, keyOf: T -> Key, x: T)
    ensures KeySetOf(s + [x], keyOf) == KeySetOf(s, keyOf) + {keyOf(x)}
  {
    var more := s + [x];
    assert forall i :: 0 <= i < |s| ==> more[i] == s[i];
    assert more[|s|] == x;
  }

  lemma KeyMember<T>(s: seq<T>, keyOf: T -> Key, key: Key)
    ensures key in KeySetOf(s, keyOf) <==> exists x :: x in s && keyOf(x) == key
  {
    if x :| x in s && keyOf(x) == key {
      var i :| 0 <= i < |s| && s[i] == x;
    }
  }

  lemma NoGroup<T(!new)>(s: seq<T>, keyOf: T -> Key, key: Key)
    requires key !in KeySetOf(s, keyOf)
    ensures Group(s, keyOf, key) == []
  {
    KeyMember(s, keyOf, key);
    SomeElement(Group(s, keyOf, key));
  }

  lemma GroupRearranged<T(!new)>(s: seq<T>, t: seq<T>, keyOf: T -> Key, key: Key)
    requires multiset(s) == multiset(t)
    ensures multiset(Group(s, keyOf, key)) == multiset(Group(t, keyOf, key))
  {
    FilterRearranged(s, t, x => keyOf(x) == key);
  }

  /** `into_values`: the values in the order of their keys. */
  method SortedValues<V>(groups: map<Key, V>) returns (values: seq<V>, keys: seq<Key>)
    ensures IsListing(keys, TextsLeq, groups.Keys)
    ensures |values| == |keys| && forall j :: 0 <= j < |keys| ==> keys[j] in groups && values[j] == groups[keys[j]]
  {
    TextsLeqOrder();
    keys := SortedElements(groups.Keys, TextsLeq);
    DistinctElements(keys, groups.Keys);
    values := [];
    for i := 0 to |keys|
      invariant |values| == i && forall j :: 0 <= j < i ==> keys[j] in groups && values[j] == groups[keys[j]]
    {
      values := values + [groups[keys[i]]];
    }
  }
}
