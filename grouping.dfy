/**
 * Grouping rows by an integer key, as `show_topic_questions`
 * (scripts/animated_gui_new.py:1880-1890) and `display_questions`
 * (scripts/quiz_functions.py:230-239) do with the difficulty column: a
 * dictionary filled by appending each row to the list of its key, then
 * listed in ascending key order with each group numbered from 1.
 */
module Grouping {
  import opened PyValues

  /** The keys that occur among the pairs. */
  function KeysOf<V>(pairs: seq<(int, V)>): (r: set<int>)
    ensures forall k :: k in r <==> exists i :: 0 <= i < |pairs| && pairs[i].0 == k
  {
    if pairs == [] then {}
    else
      var init := pairs[..|pairs| - 1];
      assert forall i :: 0 <= i < |init| ==> init[i] == pairs[i];
      KeysOf(init) + {pairs[|pairs| - 1].0}
  }

  /** The reference group of key `k`: the values paired with `k`, in the
      order of the pairs. */
  function Group<V>(pairs: seq<(int, V)>, k: int): seq<V> {
    if pairs == [] then []
    else
      var last := pairs[|pairs| - 1];
      Group(pairs[..|pairs| - 1], k) + if last.0 == k then [last.1] else []
  }

  lemma {:induction false} GroupMembers<V>(pairs: seq<(int, V)>, k: int, v: V)
    ensures v in Group(pairs, k) <==> (k, v) in pairs
  {
    if pairs != [] {
      var last := pairs[|pairs| - 1];
      GroupMembers(pairs[..|pairs| - 1], k, v);
      assert pairs == pairs[..|pairs| - 1] + [last];
    }
  }

  /** A group is empty exactly when its key does not occur. */
  lemma {:induction false} GroupEmpty<V>(pairs: seq<(int, V)>, k: int)
    ensures Group(pairs, k) == [] <==> k !in KeysOf(pairs)
  {
    if pairs != [] {
      GroupEmpty(pairs[..|pairs| - 1], k);
    }
  }

  /**
   * The loop that fills the dictionary: after it every key that occurs has
   * the list of its values, in order, and no other key is present.
   */
  method GroupBy<V>(pairs: seq<(int, V)>) returns (groups: map<int, seq<V>>)
    ensures groups.Keys == KeysOf(pairs)
    ensures forall k :: k in groups ==> groups[k] == Group(pairs, k)
  {
    groups := map[];
    for i := 0 to |pairs|
      invariant groups.Keys == KeysOf(pairs[..i])
      invariant forall k :: k in groups ==> groups[k] == Group(pairs[..i], k)
    {
      assert pairs[..i + 1][..i] == pairs[..i];
      var key := pairs[i].0;
      if key !in groups {
        GroupEmpty(pairs[..i], key);
        groups := groups[key := []];
      }
      groups := groups[key := groups[key] + [pairs[i].1]];
    }
    assert pairs[..|pairs|] == pairs;
  }

  predicate Increasing(s: seq<int>) {
    forall i, j :: 0 <= i < j < |s| ==> s[i] < s[j]
  }

  /** `x` put into its place in an ascending sequence of distinct keys. */
  function Insert(x: int, s: seq<int>): (r: seq<int>)
    ensures |s| <= |r| <= |s| + 1
  {
    if s == [] then [x]
    else if x < s[0] then [x] + s
    else if x == s[0] then s
    else [s[0]] + Insert(x, s[1..])
  }

  /** Inserting adds exactly the key. */
  lemma {:induction false} InsertMembers(x: int, s: seq<int>, k: int)
    ensures k in Insert(x, s) <==> k in s || k == x
  {
    if s != [] && x > s[0] {
      InsertMembers(x, s[1..], k);
      assert k in s <==> k == s[0] || k in s[1..] by {
        assert s == [s[0]] + s[1..];
      }
    }
  }

  /** Inserting into an ascending sequence keeps it ascending. */
  lemma {:induction false} InsertIncreasing(x: int, s: seq<int>)
    requires Increasing(s)
    ensures Increasing(Insert(x, s))
  {
    if s != [] && x > s[0] {
      var tail := s[1..];
      var rest := Insert(x, tail);
      InsertIncreasing(x, tail);
      var r := Insert(x, s);
      assert r == [s[0]] + rest;
      forall i, j | 0 <= i < j < |r|
        ensures r[i] < r[j]
      {
        assert r[j] == rest[j - 1];
        InsertMembers(x, tail, rest[j - 1]);
        assert rest[j - 1] in rest;
        if rest[j - 1] in tail {
          var m :| 0 <= m < |tail| && tail[m] == rest[j - 1];
          assert tail[m] == s[m + 1];
        }
        if i > 0 {
          assert r[i] == rest[i - 1];
        }
      }
    }
  }

  /** `sorted(keys)` by insertion, each key kept once. */
  function Sorted(ks: seq<int>): (r: seq<int>)
    ensures |r| <= |ks|
  {
    if ks == [] then [] else Insert(ks[|ks| - 1], Sorted(ks[..|ks| - 1]))
  }

  /** `sorted(keys)` is strictly ascending and has the same members. */
  lemma {:induction false} SortedShape(ks: seq<int>)
    ensures Increasing(Sorted(ks))
    ensures forall k :: k in Sorted(ks) <==> k in ks
  {
    if ks != [] {
      var init, last := ks[..|ks| - 1], ks[|ks| - 1];
      SortedShape(init);
      InsertIncreasing(last, Sorted(init));
      forall k
        ensures k in Sorted(ks) <==> k in ks
      {
        InsertMembers(last, Sorted(init), k);
        assert k in ks <==> k in init || k == last by {
          assert ks == init + [last];
        }
      }
    }
  }

  /** The keys of the dictionary in the order they are listed. */
  function SortedKeys<V>(pairs: seq<(int, V)>): seq<int> {
    Sorted(Keys(pairs))
  }

  /** The listed keys ascend strictly and are exactly the keys that occur. */
  lemma SortedKeysShape<V>(pairs: seq<(int, V)>)
    ensures Increasing(SortedKeys(pairs))
    ensures forall k :: k in SortedKeys(pairs) <==> k in KeysOf(pairs)
  {
    var ks := Keys(pairs);
    SortedShape(ks);
    assert forall k :: k in ks <==> exists i :: 0 <= i < |pairs| && pairs[i].0 == k;
  }

  /** What is listed: each key, in ascending order, with its group numbered from 1. */
  function Listing<V>(pairs: seq<(int, V)>): seq<(int, seq<(int, V)>)> {
    var keys := SortedKeys(pairs);
    seq(|keys|, i requires 0 <= i < |keys| => (keys[i], Enumerate(Group(pairs, keys[i]), 1)))
  }

  /** The dictionary filled by GroupBy, listed in ascending key order with
      each group numbered from 1. */
  method ListGroups<V>(pairs: seq<(int, V)>) returns (listing: seq<(int, seq<(int, V)>)>)
    ensures listing == Listing(pairs)
  {
    var groups := GroupBy(pairs);
    var keys := SortedKeys(pairs);
    SortedKeysShape(pairs);
    assert forall i :: 0 <= i < |keys| ==> keys[i] in groups;
    listing := seq(|keys|, i requires 0 <= i < |keys| => (keys[i], Enumerate(groups[keys[i]], 1)));
  }

  /** Nothing is listed exactly when there are no pairs. */
  lemma ListingEmpty<V>(pairs: seq<(int, V)>)
    ensures Listing(pairs) == [] <==> pairs == []
  {
    if pairs != [] {
      SortedKeysShape(pairs);
      assert pairs[0].0 in KeysOf(pairs);
      assert pairs[0].0 in SortedKeys(pairs);
    }
  }

  /** The groups are listed in strictly ascending key order, each key once. */
  lemma ListingAscending<V>(pairs: seq<(int, V)>)
    ensures forall i, j :: 0 <= i < j < |Listing(pairs)| ==> Listing(pairs)[i].0 < Listing(pairs)[j].0
  {
    var keys := SortedKeys(pairs);
    SortedKeysShape(pairs);
    assert forall i :: 0 <= i < |keys| ==> Listing(pairs)[i].0 == keys[i];
  }

  /** Every listed key occurs, and its entries are its group numbered from 1. */
  lemma ListingGroups<V>(pairs: seq<(int, V)>, i: nat)
    requires i < |Listing(pairs)|
    ensures Listing(pairs)[i].0 in KeysOf(pairs)
    ensures Listing(pairs)[i].1 == Enumerate(Group(pairs, Listing(pairs)[i].0), 1)
  {
    SortedKeysShape(pairs);
    assert Listing(pairs)[i].0 == SortedKeys(pairs)[i];
    assert SortedKeys(pairs)[i] in SortedKeys(pairs);
  }

  /** Every key that occurs is listed. */
  lemma ListingCovers<V>(pairs: seq<(int, V)>, k: int) returns (i: nat)
    requires k in KeysOf(pairs)
    ensures i < |Listing(pairs)| && Listing(pairs)[i].0 == k
  {
    var keys := SortedKeys(pairs);
    SortedKeysShape(pairs);
    i :| 0 <= i < |keys| && keys[i] == k;
  }

  /** The total size of the groups of the listed keys. */
  function Sizes<V>(pairs: seq<(int, V)>, keys: seq<int>): nat {
    if keys == [] then 0 else |Group(pairs, keys[0])| + Sizes(pairs, keys[1..])
  }

  function Occurrences(keys: seq<int>, k: int): nat {
    if keys == [] then 0 else (if keys[0] == k then 1 else 0) + Occurrences(keys[1..], k)
  }

  lemma {:induction false} OccurrencesDistinct(keys: seq<int>, k: int)
    requires forall i, j :: 0 <= i < j < |keys| ==> keys[i] != keys[j]
    ensures Occurrences(keys, k) == if k in keys then 1 else 0
  {
    if keys != [] {
      OccurrencesDistinct(keys[1..], k);
      assert k in keys <==> keys[0] == k || k in keys[1..];
    }
  }

  lemma {:induction false} SizesSnoc<V>(pairs: seq<(int, V)>, p: (int, V), keys: seq<int>)
    ensures Sizes(pairs + [p], keys) == Sizes(pairs, keys) + Occurrences(keys, p.0)
  {
    if keys != [] {
      assert (pairs + [p])[..|pairs|] == pairs;
      SizesSnoc(pairs, p, keys[1..]);
    }
  }

  /** Every pair is counted in exactly one group: over any list of distinct
      keys that holds all the keys, the group sizes add up to the number of
      pairs. */
  lemma {:induction false} SizesCover<V>(pairs: seq<(int, V)>, keys: seq<int>)
    requires forall i, j :: 0 <= i < j < |keys| ==> keys[i] != keys[j]
    requires forall k :: k in KeysOf(pairs) ==> k in keys
    ensures Sizes(pairs, keys) == |pairs|
  {
    if pairs == [] {
      SizesEmpty(pairs, keys);
    } else {
      var init, last := pairs[..|pairs| - 1], pairs[|pairs| - 1];
      assert pairs == init + [last];
      SizesCover(init, keys);
      SizesSnoc(init, last, keys);
      OccurrencesDistinct(keys, last.0);
    }
  }

  lemma {:induction false} SizesEmpty<V>(pairs: seq<(int, V)>, keys: seq<int>)
    requires pairs == []
    ensures Sizes(pairs, keys) == 0
  {
    if keys != [] {
      SizesEmpty(pairs, keys[1..]);
    }
  }

  /** The listed groups together hold exactly as many entries as there are
      pairs. */
  lemma ListingPartitions<V>(pairs: seq<(int, V)>)
    ensures Sizes(pairs, SortedKeys(pairs)) == |pairs|
  {
    SortedKeysShape(pairs);
    SizesCover(pairs, SortedKeys(pairs));
  }
}
