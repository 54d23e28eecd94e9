/**
 * Python values as the quiz scripts see them: the columns of a fetched row
 * (strings, None and integers), truthiness, slicing, indexing with negative
 * indices, `random.shuffle` and a list that is appended to in place.
 */
module PyValues {

  datatype Option<+T> = None | Some(value: T)

  /** One column of a database row or one element of a Python list. */
  datatype Cell = Null | Text(s: string) | Num(n: int)

  /** Python truthiness of a cell: `None`, `''` and `0` are false. */
  predicate Truthy(c: Cell) {
    match c
    case Null => false
    case Text(s) => s != ""
    case Num(n) => n != 0
  }

  function Min(a: int, b: int): int { if a <= b then a else b }

  /** `s[lo:hi]` for non-negative bounds: both bounds are clamped to the length. */
  function Slice<T>(s: seq<T>, lo: nat, hi: nat): (r: seq<T>)
    ensures |r| == if lo < Min(hi, |s|) then Min(hi, |s|) - lo else 0
    ensures forall k :: 0 <= k < |r| ==> r[k] == s[lo + k]
  {
    if lo < Min(hi, |s|) then s[lo..Min(hi, |s|)] else []
  }

  /** `list(filter(None, s))`: the truthy elements of `s`, in their order. */
  function FilterTruthy(s: seq<Cell>): (r: seq<Cell>)
    ensures |r| <= |s|
  {
    if s == [] then []
    else if Truthy(s[0]) then [s[0]] + FilterTruthy(s[1..])
    else FilterTruthy(s[1..])
  }

  /** The filter keeps exactly the truthy elements. */
  lemma {:induction false} FilterTruthyMembers(s: seq<Cell>, c: Cell)
    ensures c in FilterTruthy(s) <==> c in s && Truthy(c)
  {
    if s != [] {
      FilterTruthyMembers(s[1..], c);
      assert c in s <==> c == s[0] || c in s[1..];
    }
  }

  /** `s[i]` for any integer `i`: negative indices count from the end, and
      anything outside `-len(s) .. len(s)-1` raises IndexError (None here). */
  function PyIndex<T>(s: seq<T>, i: int): (r: Option<T>)
    ensures r.Some? <==> -|s| <= i < |s|
    ensures 0 <= i < |s| ==> r == Some(s[i])
    ensures -|s| <= i < 0 ==> r == Some(s[|s| + i])
  {
    if 0 <= i < |s| then Some(s[i])
    else if -|s| <= i < 0 then Some(s[|s| + i])
    else None
  }

  /** The 1-based menu choice shared by the console scripts: a number `n`
      read with `int(input())` (None when that raised ValueError) selects
      `s[n-1]` only when `1 <= n <= len(s)`. */
  function SelectOneBased<T>(s: seq<T>, n: Option<int>): (r: Option<T>)
    ensures r.Some? <==> n.Some? && 1 <= n.value <= |s|
    ensures r.Some? ==> r.value == s[n.value - 1]
  {
    if n.Some? && 1 <= n.value <= |s| then Some(s[n.value - 1]) else None
  }

  /** `list(enumerate(s, start))`: each element with its running number. */
  function Enumerate<T>(s: seq<T>, start: int): (r: seq<(int, T)>)
    ensures |r| == |s|
    ensures forall i :: 0 <= i < |s| ==> r[i] == (start + i, s[i])
  {
    seq(|s|, i requires 0 <= i < |s| => (start + i, s[i]))
  }

  /** `list(d.keys())` of a dict kept as its pairs in insertion order: the
      first components, in order. */
  function Keys<K, V>(pairs: seq<(K, V)>): (r: seq<K>)
    ensures |r| == |pairs| && forall i :: 0 <= i < |pairs| ==> r[i] == pairs[i].0
  {
    seq(|pairs|, i requires 0 <= i < |pairs| => pairs[i].0)
  }

  /** The choice code of a shuffle: its first entry, 0 when it is used up. */
  function Head(code: seq<nat>): nat { if code == [] then 0 else code[0] }
  function Tail(code: seq<nat>): seq<nat> { if code == [] then [] else code[1..] }

  /**
   * `random.shuffle`, with the randomness passed in: each entry of `code`
   * picks the next element by its index among those left (an index out of
   * range picks the first).
   * ShufflePermutes shows that every code gives a permutation, and
   * ShuffleReaches that every permutation is given by some code.
   */
  function Shuffle<T>(s: seq<T>, code: seq<nat>): (r: seq<T>)
    ensures |r| == |s|
    decreases |s|
  {
    if |s| == 0 then []
    else
      var k := if Head(code) < |s| then Head(code) else 0;
      [s[k]] + Shuffle(s[..k] + s[k + 1..], Tail(code))
  }

  /** Shuffle rearranges: it keeps every element with its multiplicity. */
  lemma {:induction false} ShufflePermutes<T>(s: seq<T>, code: seq<nat>)
    ensures multiset(Shuffle(s, code)) == multiset(s)
    decreases |s|
  {
    if |s| > 0 {
      var k := if Head(code) < |s| then Head(code) else 0;
      var rest := s[..k] + s[k + 1..];
      assert multiset(Shuffle(s, code)) == multiset{s[k]} + multiset(Shuffle(rest, Tail(code))) by {
        assert Shuffle(s, code) == [s[k]] + Shuffle(rest, Tail(code));
      }
      ShufflePermutes(rest, Tail(code));
      assert multiset(rest) == multiset(s) - multiset{s[k]} by { RemoveAt(s, k); }
      assert s[k] in multiset(s);
      PutBack(multiset(s), s[k]);
    }
  }

  /** An element is offered after shuffling exactly when it was there before. */
  lemma ShuffleKeeps<T>(s: seq<T>, code: seq<nat>, x: T)
    ensures x in Shuffle(s, code) <==> x in s
  {
    ShufflePermutes(s, code);
    assert x in Shuffle(s, code) <==> x in multiset(Shuffle(s, code));
    assert x in s <==> x in multiset(s);
  }

  /** Taking out the element at `k` takes one copy of it out of the multiset. */
  lemma RemoveAt<T>(s: seq<T>, k: nat)
    requires k < |s|
    ensures multiset(s[..k] + s[k + 1..]) == multiset(s) - multiset{s[k]}
  {
    assert s == s[..k] + [s[k]] + s[k + 1..];
  }

  lemma PutBack<T>(m: multiset<T>, x: T)
    requires x in m
    ensures multiset{x} + (m - multiset{x}) == m
  {
  }

  /** A code starting with `k < |s|` picks `s[k]` first. */
  lemma ShuffleFirst<T>(s: seq<T>, k: nat, more: seq<nat>)
    requires k < |s|
    ensures Shuffle(s, [k] + more) == [s[k]] + Shuffle(s[..k] + s[k + 1..], more)
  {
    var code := [k] + more;
    assert code[0] == k && code[1..] == more;
  }

  /** Where the first element of an arrangement of `s` sits in `s`. */
  lemma FindFirst<T>(s: seq<T>, r: seq<T>) returns (k: nat)
    requires multiset(r) == multiset(s) && r != []
    ensures k < |s| && s[k] == r[0]
    ensures multiset(r[1..]) == multiset(s[..k] + s[k + 1..])
  {
    assert r[0] in s by {
      assert r[0] in multiset(r);
    }
    k :| k < |s| && s[k] == r[0];
    assert multiset(s[..k] + s[k + 1..]) == multiset(s) - multiset{s[k]} by { RemoveAt(s, k); }
    assert multiset(r[1..]) == multiset(r) - multiset{r[0]} by {
      RemoveAt(r, 0);
      assert r[..0] + r[1..] == r[1..];
    }
  }

  /** Every arrangement of `s` is the result of Shuffle for some code. */
  lemma {:induction false} ShuffleReaches<T>(s: seq<T>, r: seq<T>) returns (code: seq<nat>)
    requires multiset(r) == multiset(s)
    ensures Shuffle(s, code) == r
    decreases |s|
  {
    assert |r| == |multiset(r)| == |s|;
    if |s| == 0 {
      code := [];
    } else {
      var k := FindFirst(s, r);
      var more := ShuffleReaches(s[..k] + s[k + 1..], r[1..]);
      ShuffleFirst(s, k, more);
      code := [k] + more;
      assert r == [r[0]] + r[1..];
    }
  }

  /** A Python list that a function appends to in place. */
  class PyList<T> {
    var items: seq<T>

    constructor (init: seq<T>)
      ensures items == init
    {
      items := init;
    }

    /** `list.append(x)`. */
    method Append(x: T)
      modifies this
      ensures items == old(items) + [x]
    {
      items := items + [x];
    }
  }
}
