/** The JavaScript array operations the question lists are edited with: `splice` (removing one
    element, inserting one element) on a copy of the list, and `filter` by position. */
module ArrayOps {

  /** How `splice` turns its `start` argument into a position: negative values count from the end,
      values past the end mean the end. */
  function SpliceStart(len: nat, start: int): (p: nat)
    ensures p <= len
    ensures 0 <= start <= len ==> p == start
    ensures start < 0 ==> p == if len + start < 0 then 0 else len + start
    ensures start > len ==> p == len
  {
    if start < 0 then (if len + start < 0 then 0 else len + start)
    else if start > len then len
    else start
  }

  /** `s.splice(i, 1)` for an index inside the list: the list without its element at `i`. */
  function RemoveAt<T>(s: seq<T>, i: nat): seq<T>
    requires i < |s|
  {
    s[..i] + s[i + 1..]
  }

  /** `s.splice(start, 0, x)`: `x` inserted before the position `start` denotes. */
  function InsertAt<T>(s: seq<T>, start: int, x: T): seq<T> {
    var p := SpliceStart(|s|, start);
    s[..p] + [x] + s[p..]
  }

  /** The move idiom shared by `moveQuestion` and `reorder`: copy the list, splice out the element
      at `from`, splice it back in at `to`. */
  function Reorder<T>(s: seq<T>, from: nat, to: int): seq<T>
    requires from < |s|
  {
    InsertAt(RemoveAt(s, from), to, s[from])
  }

  lemma RemoveAtMultiset<T>(s: seq<T>, i: nat)
    requires i < |s|
    ensures |RemoveAt(s, i)| == |s| - 1
    ensures multiset(RemoveAt(s, i)) + multiset{s[i]} == multiset(s)
  {
    assert s == s[..i] + [s[i]] + s[i + 1..];
  }

  /** Whatever the destination, even one out of bounds, a move keeps every element exactly once. */
  lemma ReorderPermutes<T>(s: seq<T>, from: nat, to: int)
    requires from < |s|
    ensures |Reorder(s, from, to)| == |s|
    ensures multiset(Reorder(s, from, to)) == multiset(s)
  {
    RemoveAtMultiset(s, from);
    var rest := RemoveAt(s, from);
    var p := SpliceStart(|rest|, to);
    assert rest == rest[..p] + rest[p..];
  }

  /** A move to an index inside the list puts the moved element at that index and leaves the
      others in their previous relative order. */
  lemma ReorderPlaces<T>(s: seq<T>, from: nat, to: int)
    requires from < |s| && 0 <= to < |s|
    ensures var r := Reorder(s, from, to);
      |r| == |s| && r[to] == s[from] && RemoveAt(r, to) == RemoveAt(s, from)
  {
    var rest := RemoveAt(s, from);
    var r := Reorder(s, from, to);
    assert SpliceStart(|rest|, to) == to;
    assert r[..to] == rest[..to] && r[to + 1..] == rest[to..];
    assert RemoveAt(r, to) == rest[..to] + rest[to..] == rest;
  }

  /** Moving an element onto its own index changes nothing. */
  lemma ReorderSame<T>(s: seq<T>, i: nat)
    requires i < |s|
    ensures Reorder(s, i, i) == s
  {
    assert s == s[..i] + [s[i]] + s[i + 1..];
  }

  /** `s.filter((_, i) => i !== idx)`, where `base` is the index of `s[0]` in the whole list. */
  function FilterOutIndex<T>(s: seq<T>, idx: int, base: int): seq<T>
    decreases |s|
  {
    if s == [] then []
    else (if base == idx then [] else [s[0]]) + FilterOutIndex(s[1..], idx, base + 1)
  }

  /** `s.filter((_, i) => i !== idx)`. */
  function WithoutIndex<T>(s: seq<T>, idx: int): seq<T> {
    FilterOutIndex(s, idx, 0)
  }

  lemma {:induction false} FilterOutIndexIs<T>(s: seq<T>, idx: int, base: int)
    ensures FilterOutIndex(s, idx, base)
         == if base <= idx < base + |s| then RemoveAt(s, idx - base) else s
    decreases |s|
  {
    if s != [] {
      FilterOutIndexIs(s[1..], idx, base + 1);
      if base == idx {
        assert RemoveAt(s, 0) == s[1..];
      } else if base < idx < base + |s| {
        assert RemoveAt(s, idx - base) == [s[0]] + RemoveAt(s[1..], idx - base - 1);
      } else {
        assert s == [s[0]] + s[1..];
      }
    }
  }

  /** Deleting by position removes exactly the element at `idx` and keeps the rest in order; an
      index outside the list removes nothing. */
  lemma WithoutIndexRemoves<T>(s: seq<T>, idx: int)
    ensures WithoutIndex(s, idx) == if 0 <= idx < |s| then RemoveAt(s, idx) else s
    ensures 0 <= idx < |s| ==> multiset(WithoutIndex(s, idx)) + multiset{s[idx]} == multiset(s)
  {
    FilterOutIndexIs(s, idx, 0);
    if 0 <= idx < |s| {
      RemoveAtMultiset(s, idx);
    }
  }
}
