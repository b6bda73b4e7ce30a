/**
 The bounded LRU cache in front of the radix and regex tiers. The list has the most recently
 used item first; the hash map beside it in the original is an index into this list.
 */
module RouteCache {
  import opened Wrappers

  datatype Item<K, V> = Item(key: K, value: V)

  function Keys<K, V>(list: seq<Item<K, V>>): (ks: seq<K>)
    ensures |ks| == |list| && forall i :: 0 <= i < |list| ==> ks[i] == list[i].key
  {
    seq(|list|, i requires 0 <= i < |list| => list[i].key)
  }

  ghost predicate Distinct<K>(ks: seq<K>) { forall i, j :: 0 <= i < j < |ks| ==> ks[i] != ks[j] }

  /** Where `key` is, or the length of the list. */
  function Position<K(==), V>(list: seq<Item<K, V>>, key: K): (i: nat)
    ensures i <= |list| && (i < |list| ==> list[i].key == key)
    ensures forall j :: 0 <= j < i ==> list[j].key != key
  {
    if list == [] || list[0].key == key then 0 else 1 + Position(list[1..], key)
  }

  function Cut<T>(s: seq<T>, i: nat): (r: seq<T>) { if i < |s| then s[..i] + s[i + 1..] else s }

  function First<T>(n: nat, s: seq<T>): (r: seq<T>) { if |s| <= n then s else s[..n] }

  /** The list after `key` was found or stored: first, once, and at most `capacity` items in all. */
  function Touched<K(==), V>(list: seq<Item<K, V>>, capacity: nat, key: K, value: V): (r: seq<Item<K, V>>)
  {
    First(capacity, [Item(key, value)] + Cut(list, Position(list, key)))
  }

  class Lru<K(==), V> {
    const capacity: nat
    var list: seq<Item<K, V>>

    ghost predicate Valid()
      reads this
    {
      capacity > 0 && |list| <= capacity && Distinct(Keys(list))
    }

    constructor (capacity: nat)
      requires capacity > 0
      ensures Valid() && list == [] && this.capacity == capacity
    {
      this.capacity, list := capacity, [];
    }

    /** find_by_view; the bucket probe may miss an item that is there. */
    method Find(key: K, lands: bool) returns (r: Option<V>)
      requires Valid()
      modifies this
      ensures Valid()
      ensures r.Some? ==> lands && Item(key, r.value) in old(list) && list == Touched(old(list), capacity, key, r.value)
      ensures r.None? ==> list == old(list) && (lands ==> key !in Keys(list))
    {
      var i := Position(list, key);
      if lands && i < |list| {
        r := Some(list[i].value);
        TouchedKeeps(list, capacity, key, list[i].value);
        TouchedFound(list, capacity, key, list[i].value);
        list := [list[i]] + list[..i] + list[i + 1..];
      } else {
        r := None;
        if i == |list| && key in Keys(list) {
          assert false;
        }
      }
    }

    /** Stores or replaces, promotes, and drops the last item when one too many. */
    method Insert(key: K, value: V)
      requires Valid()
      modifies this
      ensures Valid() && list == Touched(old(list), capacity, key, value)
    {
      hide Keys, Distinct, Touched, Position;
      TouchedKeeps(list, capacity, key, value);
      var i := Position(list, key);
      if i < |list| {
        TouchedFound(list, capacity, key, value);
        list := [Item(key, value)] + list[..i] + list[i + 1..];
      } else {
        TouchedNew(list, capacity, key, value);
        list := [Item(key, value)] + list;
        if |list| > capacity { list := list[..|list| - 1]; }
      }
    }

    method Clear()
      requires Valid()
      modifies this
      ensures Valid() && list == []
    {
      list := [];
    }
  }

  lemma CutDistinct<K>(ks: seq<K>, i: nat)
    requires Distinct(ks)
    ensures Distinct(Cut(ks, i))
    ensures i < |ks| ==> ks[i] !in Cut(ks, i)
  {
  }

  lemma CutKeys<K, V>(list: seq<Item<K, V>>, i: nat)
    ensures Keys(Cut(list, i)) == Cut(Keys(list), i)
  {
  }

  lemma TouchedKeeps<K, V>(list: seq<Item<K, V>>, capacity: nat, key: K, value: V)
    requires capacity > 0 && |list| <= capacity && Distinct(Keys(list))
    ensures var r := Touched(list, capacity, key, value); 0 < |r| <= capacity && Distinct(Keys(r))
    ensures Position(list, key) < |list| ==> |Touched(list, capacity, key, value)| == |list|
  {
    var i := Position(list, key);
    CutDistinct(Keys(list), i);
    CutKeys(list, i);
    var r := [Item(key, value)] + Cut(list, i);
    forall a, b | 0 <= a < b < |r| ensures Keys(r)[a] != Keys(r)[b] {
      assert Keys(r)[b] == Keys(Cut(list, i))[b - 1];
      if a > 0 {
        assert Keys(r)[a] == Keys(Cut(list, i))[a - 1];
      } else if i < |list| {
        assert Keys(r)[b] in Cut(Keys(list), i);
      }
    }
  }

  lemma FrontAndCut<T>(x: T, s: seq<T>, i: nat, n: nat)
    requires i < |s| <= n
    ensures First(n, [x] + Cut(s, i)) == [x] + s[..i] + s[i + 1..]
  {
    var a, b := s[..i], s[i + 1..];
    assert [x] + a + b == [x] + (a + b);
  }

  /** The touched list as the source makes it: an item found is spliced to the front. */
  lemma TouchedFound<K, V>(list: seq<Item<K, V>>, capacity: nat, key: K, value: V)
    requires |list| <= capacity && Position(list, key) < |list|
    ensures var i := Position(list, key);
            Touched(list, capacity, key, value) == [Item(key, value)] + list[..i] + list[i + 1..]
  {
    hide Position, First, Cut;
    FrontAndCut(Item(key, value), list, Position(list, key), capacity);
  }

  /** A new one is pushed there, and the last item popped when one too many. */
  lemma TouchedNew<K, V>(list: seq<Item<K, V>>, capacity: nat, key: K, value: V)
    requires capacity > 0 && |list| <= capacity && Position(list, key) == |list|
    ensures var grown := [Item(key, value)] + list;
            Touched(list, capacity, key, value) == if |grown| > capacity then grown[..|grown| - 1] else grown
  {
    hide Position;
  }

  // ---- the cache holds the most recently used keys -----------------------------------------

  function CutKey<K(==)>(ks: seq<K>, key: K): (r: seq<K>)
  {
    if ks == [] then [] else if ks[0] == key then ks[1..] else [ks[0]] + CutKey(ks[1..], key)
  }

  /** The distinct keys of a history of uses, latest use first. */
  function MostRecent<K(==)>(uses: seq<K>): (ks: seq<K>)
  {
    if uses == [] then []
    else [uses[|uses| - 1]] + CutKey(MostRecent(uses[..|uses| - 1]), uses[|uses| - 1])
  }

  /** The cache after a history of stores and hits, the values being those stored or found. */
  function After<K(==), V>(capacity: nat, uses: seq<Item<K, V>>): (list: seq<Item<K, V>>)
  {
    if uses == [] then []
    else
      var last := uses[|uses| - 1];
      Touched(After(capacity, uses[..|uses| - 1]), capacity, last.key, last.value)
  }

  lemma CutSecond<K, V>(list: seq<Item<K, V>>, i: nat)
    requires list != []
    ensures Keys(Cut(list, i + 1)) == [list[0].key] + Keys(Cut(list[1..], i))
  {
    assert Cut(list, i + 1) == [list[0]] + Cut(list[1..], i);
  }

  lemma KeysTail<K, V>(list: seq<Item<K, V>>)
    requires list != []
    ensures Keys(list)[1..] == Keys(list[1..])
  {
  }

  lemma {:induction false} KeysOfCut<K, V>(list: seq<Item<K, V>>, key: K)
    ensures Keys(Cut(list, Position(list, key))) == CutKey(Keys(list), key)
  {
    if list == [] {
    } else if list[0].key == key {
      KeysTail(list);
      assert Cut(list, 0) == list[1..];
    } else {
      hide Cut, Keys;
      KeysOfCut(list[1..], key);
      KeysTail(list);
      CutSecond(list, Position(list[1..], key));
    }
  }

  /** Cutting a key out of the first `n` keys or out of all of them gives the same first `n - 1`. */
  lemma {:induction false} FirstOfCut<K>(n: nat, ks: seq<K>, key: K)
    ensures First(n, CutKey(First(n + 1, ks), key)) == First(n, CutKey(ks, key))
  {
    if ks == [] {
    } else if ks[0] == key {
      assert First(n + 1, ks)[1..] == First(n, ks[1..]);
    } else if n == 0 {
    } else {
      FirstOfCut(n - 1, ks[1..], key);
      assert First(n + 1, ks) == [ks[0]] + First(n, ks[1..]);
      assert First(n + 1, ks)[1..] == First(n, ks[1..]);
      FirstCons(n, ks[0], CutKey(ks[1..], key));
      FirstCons(n, ks[0], CutKey(First(n, ks[1..]), key));
    }
  }

  lemma FirstCons<T>(n: nat, x: T, s: seq<T>)
    requires n > 0
    ensures First(n, [x] + s) == [x] + First(n - 1, s)
  {
  }

  /** Whatever is evicted was used longer ago than everything that is kept. */
  lemma {:induction false} KeepsMostRecent<K, V>(capacity: nat, uses: seq<Item<K, V>>)
    requires capacity > 0
    ensures Keys(After(capacity, uses)) == First(capacity, MostRecent(Keys(uses)))
  {
    if uses == [] {
      assert Keys(uses) == [];
    } else {
      hide Touched, CutKey, First, Keys;
      var last, before := uses[|uses| - 1], uses[..|uses| - 1];
      KeepsMostRecent(capacity, before);
      KeysOfInit(uses);
      TouchedKeys(After(capacity, before), capacity, last.key, last.value);
      FirstOfCut(capacity - 1, MostRecent(Keys(before)), last.key);
      FirstCons(capacity, last.key, CutKey(MostRecent(Keys(before)), last.key));
    }
  }

  lemma KeysOfInit<K, V>(list: seq<Item<K, V>>)
    requires list != []
    ensures |Keys(list)| == |list| && Keys(list)[..|list| - 1] == Keys(list[..|list| - 1])
    ensures Keys(list)[|list| - 1] == list[|list| - 1].key
  {
  }

  lemma TouchedKeys<K, V>(list: seq<Item<K, V>>, capacity: nat, key: K, value: V)
    requires capacity > 0
    ensures Keys(Touched(list, capacity, key, value)) == [key] + First(capacity - 1, CutKey(Keys(list), key))
  {
    KeysOfCut(list, key);
    FirstCons(capacity, Item(key, value), Cut(list, Position(list, key)));
  }
}
