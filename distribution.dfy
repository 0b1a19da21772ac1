/** The answer-distribution check of the generation route (`verificaDistribuicaoRespostas`): the
    histogram of correct-answer positions of a batch, and its two verdicts, "some position holds
    more than 60% of the batch" and "all marked questions share one position". */
module Distribution {
  import opened Wrappers
  import opened Questions

  /** The reducer of the histogram: a question that has a `correta` adds one to its position. */
  function Tally(acc: map<int, nat>, q: Question): map<int, nat> {
    if q.correta.Some? then
      var c := q.correta.value;
      acc[c := Count(acc, c) + 1]
    else
      acc
  }

  /** `qs.reduce(Tally, acc)`, folding from the left. */
  function Fold(acc: map<int, nat>, qs: seq<Question>): map<int, nat>
    decreases |qs|
  {
    if qs == [] then acc else Fold(Tally(acc, qs[0]), qs[1..])
  }

  /** The histogram `contagem`: position to number of questions marking it. */
  function Histogram(qs: seq<Question>): map<int, nat> {
    Fold(map[], qs)
  }

  function Count(m: map<int, nat>, k: int): nat {
    if k in m then m[k] else 0
  }

  /** Reference count: how many questions of the batch mark position `k` as correct. */
  function CountAt(qs: seq<Question>, k: int): nat {
    if qs == [] then 0 else (if qs[0].correta == Some(k) then 1 else 0) + CountAt(qs[1..], k)
  }

  /** How many questions of the batch have a `correta` at all. */
  function Marked(qs: seq<Question>): nat {
    if qs == [] then 0 else (if qs[0].correta.Some? then 1 else 0) + Marked(qs[1..])
  }

  lemma {:induction false} FoldCounts(acc: map<int, nat>, qs: seq<Question>)
    ensures forall k :: Count(Fold(acc, qs), k) == Count(acc, k) + CountAt(qs, k)
    ensures forall k :: k in Fold(acc, qs) <==> k in acc || CountAt(qs, k) > 0
    decreases |qs|
  {
    if qs != [] {
      FoldCounts(Tally(acc, qs[0]), qs[1..]);
    }
  }

  /** The histogram holds exactly the marked positions, each with its number of questions. */
  lemma HistogramCounts(qs: seq<Question>)
    ensures forall k :: k in Histogram(qs) <==> CountAt(qs, k) > 0
    ensures forall k :: Count(Histogram(qs), k) == CountAt(qs, k)
  {
    FoldCounts(map[], qs);
  }

  lemma NonEmptyHasKey(keys: set<int>)
    requires keys != {}
    ensures exists k :: k in keys
  {
    if forall k :: k !in keys {
      assert false;
    }
  }

  ghost function PickKey(keys: set<int>): int
    requires keys != {}
  {
    NonEmptyHasKey(keys);
    var k :| k in keys; k
  }

  /** The sum of the counts of a histogram. */
  ghost function SumValues(m: map<int, nat>): nat
    decreases m.Keys
  {
    if m.Keys == {} then 0 else var k := PickKey(m.Keys); m[k] + SumValues(m - {k})
  }

  /** The sum does not depend on which key is taken out first. */
  lemma SumRemove(m: map<int, nat>, k: int)
    requires k in m
    ensures SumValues(m) == m[k] + SumValues(m - {k})
    decreases m.Keys
  {
    var j := PickKey(m.Keys);
    if j != k {
      SumRemove(m - {j}, k);
      SumRemove(m - {k}, j);
      assert m - {j} - {k} == m - {k} - {j};
    }
  }

  lemma SumTally(acc: map<int, nat>, q: Question)
    ensures SumValues(Tally(acc, q)) == SumValues(acc) + (if q.correta.Some? then 1 else 0)
  {
    if q.correta.Some? {
      var c := q.correta.value;
      var m := Tally(acc, q);
      SumRemove(m, c);
      assert m - {c} == acc - {c};
      if c in acc {
        SumRemove(acc, c);
      } else {
        assert acc - {c} == acc;
      }
    }
  }

  lemma {:induction false} FoldSum(acc: map<int, nat>, qs: seq<Question>)
    ensures SumValues(Fold(acc, qs)) == SumValues(acc) + Marked(qs)
    decreases |qs|
  {
    if qs != [] {
      SumTally(acc, qs[0]);
      FoldSum(Tally(acc, qs[0]), qs[1..]);
    }
  }

  /** The counts of the histogram add up to the number of questions that have a `correta`, which
      is at most the length of the batch. */
  lemma HistogramSum(qs: seq<Question>)
    ensures SumValues(Histogram(qs)) == Marked(qs) <= |qs|
  {
    FoldSum(map[], qs);
    MarkedBounded(qs);
  }

  lemma {:induction false} MarkedBounded(qs: seq<Question>)
    ensures Marked(qs) <= |qs|
  {
    if qs != [] {
      MarkedBounded(qs[1..]);
    }
  }

  /** Two different positions together never hold more questions than are marked. */
  lemma {:induction false} CountPair(qs: seq<Question>, j: int, k: int)
    requires j != k
    ensures CountAt(qs, j) + CountAt(qs, k) <= Marked(qs)
  {
    if qs != [] {
      CountPair(qs[1..], j, k);
    }
  }

  /** The result of `verificaDistribuicaoRespostas`. */
  datatype Verdict = Verdict(distribuicaoRuim: bool, todasMesmaPosicao: bool, contagem: map<int, nat>)

  /** `verificaDistribuicaoRespostas`: the share of a position is compared with 60% of the whole
      batch (questions without `correta` included) as `100 * count > 60 * total`, which is
      `count / total * 100 > 60` over exact arithmetic. */
  function Verify(qs: seq<Question>): Verdict {
    var contagem := Histogram(qs);
    var total := |qs|;
    Verdict(
      exists k | k in contagem :: 100 * contagem[k] > 60 * total,
      |contagem.Keys| == 1,
      contagem)
  }

  /** A batch the retry loop accepts: neither verdict holds. */
  predicate Balanced(qs: seq<Question>) {
    var v := Verify(qs); !v.distribuicaoRuim && !v.todasMesmaPosicao
  }

  /** The skew verdict holds exactly when some position is marked by more than 60% of the batch. */
  lemma SkewIff(qs: seq<Question>)
    ensures Verify(qs).distribuicaoRuim <==> exists k :: 100 * CountAt(qs, k) > 60 * |qs|
  {
    HistogramCounts(qs);
    var h := Histogram(qs);
    assert Verify(qs).distribuicaoRuim == exists k | k in h :: 100 * h[k] > 60 * |qs|;
    if exists k :: 100 * CountAt(qs, k) > 60 * |qs| {
      var k :| 100 * CountAt(qs, k) > 60 * |qs|;
      assert k in h && Count(h, k) == h[k];
    }
    if exists k | k in h :: 100 * h[k] > 60 * |qs| {
      var k :| k in h && 100 * h[k] > 60 * |qs|;
      assert Count(h, k) == h[k];
      assert 100 * CountAt(qs, k) > 60 * |qs|;
    }
  }

  /** The single-position verdict holds exactly when at least one question is marked and all
      marked questions mark the same position. */
  lemma SingleIff(qs: seq<Question>)
    ensures Verify(qs).todasMesmaPosicao <==> Marked(qs) > 0 && exists k :: CountAt(qs, k) == Marked(qs)
  {
    var h := Histogram(qs);
    HistogramCounts(qs);
    HistogramSum(qs);
    assert Verify(qs).todasMesmaPosicao == (|h.Keys| == 1);
    if |h.Keys| == 1 {
      NonEmptyHasKey(h.Keys);
      var k :| k in h;
      SumRemove(h, k);
      assert h.Keys - {k} == {} by {
        assert |h.Keys - {k}| == 0;
      }
      assert h - {k} == map[];
      assert Count(h, k) == h[k] == Marked(qs);
      assert CountAt(qs, k) == Marked(qs) > 0;
    }
    if Marked(qs) > 0 && exists k :: CountAt(qs, k) == Marked(qs) {
      var k :| CountAt(qs, k) == Marked(qs);
      forall j | j != k ensures j !in h {
        CountPair(qs, j, k);
      }
      assert k in h;
      assert h.Keys == {k};
      assert |h.Keys| == 1;
      assert Verify(qs).todasMesmaPosicao == (|h.Keys| == 1);
    }
  }

  /** A batch in which no question has a `correta` gets both verdicts false. */
  lemma NoMarksNoVerdict(qs: seq<Question>)
    requires Marked(qs) == 0
    ensures !Verify(qs).distribuicaoRuim && !Verify(qs).todasMesmaPosicao
  {
    SingleIff(qs);
    HistogramCounts(qs);
    assert Histogram(qs).Keys == {} by {
      forall k ensures k !in Histogram(qs) {
        CountPair(qs, k, k + 1);
      }
    }
  }

  /** A batch of one question that has a `correta` always gets both verdicts. */
  lemma SingleQuestionVerdict(qs: seq<Question>)
    requires |qs| == 1 && qs[0].correta.Some?
    ensures Verify(qs).distribuicaoRuim && Verify(qs).todasMesmaPosicao
  {
    var c := qs[0].correta.value;
    assert qs[1..] == [];
    assert Histogram(qs) == Fold(Tally(map[], qs[0]), []) == map[c := 1];
    assert map[c := 1].Keys == {c};
  }
}
