/**
  The part of the Redis command set that the session repository relies on,
  over a key space of list values.  A key space of lists is a map from key to
  list; Redis never keeps an empty list under a key (a list that becomes
  empty is deleted), so a well-formed key space maps no key to `[]`.
 */
module Redis {

  /** Redis deletes a list key as soon as its list becomes empty. */
  ghost predicate NoEmptyLists<K, V>(lists: map<K, seq<V>>)
  {
    forall k :: k in lists ==> lists[k] != []
  }

  /** `LRANGE key 0 -1`: the whole list stored under `key`; a missing key reads as empty. */
  function LRange<K, V>(lists: map<K, seq<V>>, key: K): (r: seq<V>)
    ensures key !in lists ==> r == []
    ensures NoEmptyLists(lists) ==> (r == [] <==> key !in lists)
  {
    if key in lists then lists[key] else []
  }

  /** A well-formed key space of lists is determined by what `LRANGE` reads from it. */
  lemma LRangeDeterminesKeySpace<K, V>(a: map<K, seq<V>>, b: map<K, seq<V>>)
    requires NoEmptyLists(a) && NoEmptyLists(b)
    requires forall k :: LRange(a, k) == LRange(b, k)
    ensures a == b
  {
    forall k | k in a
      ensures k in b && a[k] == b[k]
    {
      assert LRange(a, k) == a[k];
    }
    forall k | k in b
      ensures k in a
    {
      assert LRange(b, k) == b[k];
    }
  }

  /** `LPUSH key v`: `v` becomes the head of the list under `key`; a missing key starts empty. */
  function LPush<K(!new), V>(lists: map<K, seq<V>>, key: K, v: V): (r: map<K, seq<V>>)
    ensures LRange(r, key) == [v] + LRange(lists, key)
    ensures forall k :: k != key ==> LRange(r, k) == LRange(lists, k)
    ensures NoEmptyLists(lists) ==> NoEmptyLists(r)
  {
    lists[key := [v] + LRange(lists, key)]
  }

  /** The list that `LREM key 0 v` leaves behind: every element equal to `v` removed, the rest in order. */
  function RemoveAll<V(==,!new)>(list: seq<V>, v: V): (r: seq<V>)
    ensures forall x :: x in r <==> x in list && x != v
    ensures multiset(r) == multiset(list)[v := 0]
  {
    if list == [] then []
    else
      assert list == [list[0]] + list[1..];
      if list[0] == v then RemoveAll(list[1..], v)
      else [list[0]] + RemoveAll(list[1..], v)
  }

  /** `LREM key 0 v` keeps a single element exactly when it differs from `v`. */
  lemma RemoveAllSingle<V(!new)>(x: V, v: V)
    ensures RemoveAll([x], v) == if x == v then [] else [x]
  {
    assert [x][1..] == [];
  }

  /** `LREM key 0 v` works piecewise: the survivors of `a + b` are those of `a` followed by those of `b`, in order. */
  lemma {:induction false} RemoveAllAppend<V(!new)>(a: seq<V>, b: seq<V>, v: V)
    ensures RemoveAll(a + b, v) == RemoveAll(a, v) + RemoveAll(b, v)
  {
    if a == [] {
      assert a + b == b;
    } else {
      assert (a + b)[0] == a[0];
      assert (a + b)[1..] == a[1..] + b;
      RemoveAllAppend(a[1..], b, v);
    }
  }

  /** `LREM key 0 v` leaves a list that does not hold `v` exactly as it was. */
  lemma {:induction false} RemoveAllAbsent<V(!new)>(list: seq<V>, v: V)
    requires v !in list
    ensures RemoveAll(list, v) == list
  {
    if list != [] {
      RemoveAllAbsent(list[1..], v);
    }
  }

  /** `LREM key 0 v`: removes every element equal to `v`; an emptied list loses its key. */
  function LRem<K(!new), V(==,!new)>(lists: map<K, seq<V>>, key: K, v: V): (r: map<K, seq<V>>)
    ensures LRange(r, key) == RemoveAll(LRange(lists, key), v)
    ensures forall k :: k != key ==> LRange(r, k) == LRange(lists, k)
    ensures NoEmptyLists(lists) ==> NoEmptyLists(r)
  {
    if key !in lists then lists
    else
      var rest := RemoveAll(lists[key], v);
      if rest == [] then lists - {key} else lists[key := rest]
  }
}
