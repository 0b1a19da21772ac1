/** The search box of the pick-from-list dialog: the items whose lower-cased text contains the
    lower-cased search text, in the order the list holds them. */
module ListFilter {
  import opened Text

  /** `item.toLowerCase().includes(search.toLowerCase())`. */
  predicate Matches(item: string, search: string) {
    Includes(ToLower(item), ToLower(search))
  }

  /** `items.filter(item => Matches(item, search))`. */
  function Filtered(items: seq<string>, search: string): (r: seq<string>)
    ensures |r| <= |items|
    ensures forall x :: x in r ==> x in items && Matches(x, search)
  {
    if items == [] then []
    else (if Matches(items[0], search) then [items[0]] else []) + Filtered(items[1..], search)
  }

  /** `a` is `b` with some elements left out, the rest in their order. */
  ghost predicate IsSubsequence<T>(a: seq<T>, b: seq<T>)
    decreases |b|
  {
    if b == [] then a == []
    else (a != [] && a[0] == b[0] && IsSubsequence(a[1..], b[1..])) || IsSubsequence(a, b[1..])
  }

  /** The result keeps the items in their original order. */
  lemma {:induction false} FilteredIsSubsequence(items: seq<string>, search: string)
    ensures IsSubsequence(Filtered(items, search), items)
    decreases |items|
  {
    if items != [] {
      var rest := Filtered(items[1..], search);
      FilteredIsSubsequence(items[1..], search);
      if Matches(items[0], search) {
        assert Filtered(items, search) == [items[0]] + rest;
        assert ([items[0]] + rest)[1..] == rest;
      } else {
        assert Filtered(items, search) == rest;
      }
    }
  }

  /** The filter is exact: every matching item is kept as often as it occurs, every other item
      is dropped. */
  lemma {:induction false} FilteredCounts(items: seq<string>, search: string)
    ensures forall x :: multiset(Filtered(items, search))[x]
                     == if Matches(x, search) then multiset(items)[x] else 0
    decreases |items|
  {
    if items != [] {
      FilteredCounts(items[1..], search);
      assert items == [items[0]] + items[1..];
    }
  }

  /** An item is in the result exactly when it is in the list and matches. */
  lemma FilteredMembers(items: seq<string>, search: string)
    ensures forall x :: x in Filtered(items, search) <==> x in items && Matches(x, search)
  {
    FilteredCounts(items, search);
    forall x | x in items && Matches(x, search) ensures x in Filtered(items, search) {
      assert x in multiset(items);
      assert multiset(Filtered(items, search))[x] > 0;
    }
  }

  /** An empty search keeps every item. */
  lemma {:induction false} EmptySearchKeepsAll(items: seq<string>)
    ensures Filtered(items, "") == items
    decreases |items|
  {
    if items != [] {
      IncludesEmpty(ToLower(items[0]));
      assert ToLower("") == "";
      EmptySearchKeepsAll(items[1..]);
    }
  }
}
