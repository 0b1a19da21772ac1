/** `embaralharAlternativas`: a Fisher–Yates shuffle of the index array `0..n-1`, the alternatives
    read through the shuffled indices, and the new position of the correct one found with
    `indexOf`. `Math.random` is replaced by `draw`: at step `i` the loop swaps with index
    `draw(i)`, which `Math.floor(Math.random() * (i + 1))` keeps between `0` and `i`. */
module Shuffle {
  import opened Wrappers
  import opened Questions

  /** The draws `Math.floor(Math.random() * (i + 1))` can produce: never above `i`. */
  ghost predicate ValidDraws(draw: nat -> nat) {
    forall i: nat :: draw(i) <= i
  }

  /** `alternativas.map((_, i) => i)`. */
  function Iota(n: nat): (r: seq<int>)
    ensures |r| == n && forall k :: 0 <= k < n ==> r[k] == k
  {
    if n == 0 then [] else Iota(n - 1) + [n - 1]
  }

  /** `[s[i], s[j]] = [s[j], s[i]]`. */
  function Swap<T>(s: seq<T>, i: nat, j: nat): seq<T>
    requires i < |s| && j < |s|
  {
    s[i := s[j]][j := s[i]]
  }

  /** The steps `i, i - 1, …, 1` of the downward loop, applied to `s`. */
  function FisherYates<T>(s: seq<T>, i: int, draw: nat -> nat): (r: seq<T>)
    requires i < |s| && ValidDraws(draw)
    ensures |r| == |s|
    decreases i
  {
    if i <= 0 then s else FisherYates(Swap(s, i, draw(i)), i - 1, draw)
  }

  lemma SwapMultiset<T>(s: seq<T>, i: nat, j: nat)
    requires i < |s| && j < |s|
    ensures |Swap(s, i, j)| == |s| && multiset(Swap(s, i, j)) == multiset(s)
  {
  }

  /** Every step is a swap, so the loop only rearranges. */
  lemma {:induction false} FisherYatesPermutes<T>(s: seq<T>, i: int, draw: nat -> nat)
    requires i < |s| && ValidDraws(draw)
    ensures multiset(FisherYates(s, i, draw)) == multiset(s)
    decreases i
  {
    if i > 0 {
      SwapMultiset(s, i, draw(i));
      FisherYatesPermutes(Swap(s, i, draw(i)), i - 1, draw);
    }
  }

  /** The value `x` occurs in `Iota(n)` exactly when it is an index `0 <= x < n`. */
  lemma IotaMembers(n: nat, x: int)
    ensures x in multiset(Iota(n)) <==> 0 <= x < n
  {
    if 0 <= x < n {
      assert Iota(n)[x] == x;
    }
  }

  /** A rearrangement of `Iota(n)` holds only indices `0 <= x < n`. */
  lemma PermutationInRange(perm: seq<int>, n: nat)
    requires multiset(perm) == multiset(Iota(n))
    ensures forall k :: 0 <= k < |perm| ==> 0 <= perm[k] < n
  {
    forall k | 0 <= k < |perm| ensures 0 <= perm[k] < n {
      assert perm[k] in multiset(perm);
      IotaMembers(n, perm[k]);
    }
  }

  /** The shuffled index array `indices`: a permutation of `0..n-1`. */
  function Permutation(n: nat, draw: nat -> nat): (perm: seq<int>)
    requires ValidDraws(draw)
    ensures |perm| == n && multiset(perm) == multiset(Iota(n))
    ensures forall k :: 0 <= k < n ==> 0 <= perm[k] < n
  {
    FisherYatesPermutes(Iota(n), n - 1, draw);
    PermutationInRange(FisherYates(Iota(n), n - 1, draw), n);
    FisherYates(Iota(n), n - 1, draw)
  }

  /** `indices.map(i => alternativas[i])`. */
  function Apply<T>(alts: seq<T>, perm: seq<int>): (r: seq<T>)
    requires forall k :: 0 <= k < |perm| ==> 0 <= perm[k] < |alts|
    ensures |r| == |perm|
  {
    seq(|perm|, k requires 0 <= k < |perm| => alts[perm[k]])
  }

  /** `indices.indexOf(x)`: the first position holding `x`, or `-1`. */
  function IndexOf(s: seq<int>, x: int): (r: int)
    ensures -1 <= r < |s|
    ensures r >= 0 ==> s[r] == x && forall k :: 0 <= k < r ==> s[k] != x
    ensures r == -1 <==> x !in s
  {
    if s == [] then -1
    else if s[0] == x then 0
    else
      var r := IndexOf(s[1..], x);
      if r == -1 then -1 else r + 1
  }

  /** What `embaralharAlternativas` returns for the draws `draw`. */
  function Shuffled(q: Question, draw: nat -> nat): Question
    requires ValidDraws(draw)
  {
    if q.alternativas.None? || q.correta.None? then q
    else
      var alts := q.alternativas.value;
      var perm := Permutation(|alts|, draw);
      q.(alternativas := Some(Apply(alts, perm)), correta := Some(IndexOf(perm, q.correta.value)))
  }

  /** The index array `alternativas.map((_, i) => i)` and the `for` loop that shuffles it in
      place, from the last index down to 1. */
  method ShuffleIndices(n: nat, draw: nat -> nat) returns (indices: array<int>)
    requires ValidDraws(draw)
    ensures fresh(indices)
    ensures indices[..] == Permutation(n, draw)
  {
    indices := new int[n](k => k);
    assert indices[..] == Iota(n);
    var i := n - 1;
    while i > 0
      invariant -1 <= i < n
      invariant FisherYates(indices[..], i, draw) == FisherYates(Iota(n), n - 1, draw)
      decreases i
    {
      var j := draw(i);
      ghost var before := indices[..];
      indices[i], indices[j] := indices[j], indices[i];
      assert indices[..] == Swap(before, i, j);
      i := i - 1;
    }
  }

  /** `embaralharAlternativas`. */
  method Embaralhar(q: Question, draw: nat -> nat) returns (r: Question)
    requires ValidDraws(draw)
    ensures r == Shuffled(q, draw)
    ensures q.alternativas.None? || q.correta.None? ==> r == q
  {
    if q.alternativas.None? || q.correta.None? {
      return q;
    }
    var alternativas := q.alternativas.value;
    var correta := q.correta.value;
    var indices := ShuffleIndices(|alternativas|, draw);
    var novasAlternativas := Apply(alternativas, indices[..]);
    var novaCorreta := IndexOf(indices[..], correta);
    return q.(alternativas := Some(novasAlternativas), correta := Some(novaCorreta));
  }

  lemma ApplySwap<T>(alts: seq<T>, perm: seq<int>, i: nat, j: nat)
    requires forall k :: 0 <= k < |perm| ==> 0 <= perm[k] < |alts|
    requires i < |perm| && j < |perm|
    ensures Apply(alts, Swap(perm, i, j)) == Swap(Apply(alts, perm), i, j)
  {
  }

  /** Shuffling the indices and then reading the alternatives through them is shuffling the
      alternatives themselves. */
  lemma {:induction false} ApplyFisherYates<T>(alts: seq<T>, perm: seq<int>, i: int, draw: nat -> nat)
    requires forall k :: 0 <= k < |perm| ==> 0 <= perm[k] < |alts|
    requires i < |perm| && ValidDraws(draw)
    ensures forall k :: 0 <= k < |perm| ==> 0 <= FisherYates(perm, i, draw)[k] < |alts|
    ensures Apply(alts, FisherYates(perm, i, draw)) == FisherYates(Apply(alts, perm), i, draw)
    decreases i
  {
    if i > 0 {
      var next := Swap(perm, i, draw(i));
      ApplySwap(alts, perm, i, draw(i));
      ApplyFisherYates(alts, next, i - 1, draw);
    }
  }

  /** Reading the alternatives through the unshuffled indices gives them back unchanged. */
  lemma ApplyIota<T>(alts: seq<T>)
    ensures Apply(alts, Iota(|alts|)) == alts
  {
    var iota := Iota(|alts|);
    assert forall k | 0 <= k < |alts| :: Apply(alts, iota)[k] == alts[k];
  }

  /** The alternatives read through the shuffled indices are the alternatives shuffled by the
      same draws, so each of them occurs as often as before. */
  lemma ShuffledAlternatives<T>(alts: seq<T>, draw: nat -> nat)
    requires ValidDraws(draw)
    ensures Apply(alts, Permutation(|alts|, draw)) == FisherYates(alts, |alts| - 1, draw)
    ensures multiset(Apply(alts, Permutation(|alts|, draw))) == multiset(alts)
  {
    var iota := Iota(|alts|);
    var perm := FisherYates(iota, |alts| - 1, draw);
    assert Permutation(|alts|, draw) == perm;
    ApplyIota(alts);
    ApplyFisherYates(alts, iota, |alts| - 1, draw);
    FisherYatesPermutes(alts, |alts| - 1, draw);
  }

  /** `indexOf` on the shuffled indices finds the new position of an index inside the list, and
      -1 for any other value. */
  lemma ShuffledIndexOf(n: nat, c: int, draw: nat -> nat)
    requires ValidDraws(draw)
    ensures var perm := Permutation(n, draw);
      && (0 <= c < n ==> 0 <= IndexOf(perm, c) < n && perm[IndexOf(perm, c)] == c)
      && (!(0 <= c < n) ==> IndexOf(perm, c) == -1)
  {
    var perm := Permutation(n, draw);
    IotaMembers(n, c);
    assert c in perm <==> c in multiset(perm);
  }

  /** The shuffled question has the same alternatives, each as often as before, and the new
      `correta` points at the text the old one pointed at; a `correta` outside the list becomes -1.
      The statement, explanation and open answer are copied unchanged. */
  lemma ShuffleKeepsAnswer(q: Question, draw: nat -> nat)
    requires ValidDraws(draw) && q.alternativas.Some? && q.correta.Some?
    ensures var r := Shuffled(q, draw);
      var alts, c := q.alternativas.value, q.correta.value;
      && r.alternativas.Some? && r.correta.Some?
      && |r.alternativas.value| == |alts|
      && multiset(r.alternativas.value) == multiset(alts)
      && (0 <= c < |alts| ==>
            0 <= r.correta.value < |alts| && r.alternativas.value[r.correta.value] == alts[c])
      && (!(0 <= c < |alts|) ==> r.correta.value == -1)
      && r.enunciado == q.enunciado && r.explicacao == q.explicacao && r.resposta == q.resposta
  {
    ShuffledAlternatives(q.alternativas.value, draw);
    ShuffledIndexOf(|q.alternativas.value|, q.correta.value, draw);
  }
}
