/** What `gerarQuestoes` does with the language model's reply once it has it: reject a missing or
    empty content, find the JSON array with the regular expression `/\[\s*{[\s\S]*}\s*\]/`, and
    hand the matched text to `JSON.parse`. */
module Extraction {
  import opened Wrappers
  import opened Text
  import opened Questions

  /** `s[a..b]` is white space only. */
  predicate AllSpace(s: string, a: int, b: int)
    requires 0 <= a <= b <= |s|
  {
    forall k :: a <= k < b ==> IsSpace(s[k])
  }

  /** `s[i..e]` is a match of the pattern: `[`, white space, `{`, anything, `}`, white space, `]`. */
  ghost predicate MatchesAt(s: string, i: int, e: int) {
    0 <= i < e <= |s| && s[i] == '[' && s[e - 1] == ']' &&
    exists p, q :: i < p < q < e - 1 && AllSpace(s, i + 1, p) && s[p] == '{' && s[q] == '}' && AllSpace(s, q + 1, e - 1)
  }

  /** The match a JavaScript `match` reports: it starts at the leftmost index where some match
      starts, and, the quantifier being greedy, is the longest match from there. */
  ghost predicate LeftmostLongest(s: string, i: int, e: int) {
    MatchesAt(s, i, e)
    && (forall i', e' :: 0 <= i' < i ==> !MatchesAt(s, i', e'))
    && (forall e' :: e < e' ==> !MatchesAt(s, i, e'))
  }

  /** The first index at or after `k` that does not hold white space (or `|s|`). */
  function SkipSpace(s: string, k: nat): (r: nat)
    requires k <= |s|
    ensures k <= r <= |s| && AllSpace(s, k, r) && (r == |s| || !IsSpace(s[r]))
    decreases |s| - k
  {
    if k < |s| && IsSpace(s[k]) then SkipSpace(s, k + 1) else k
  }

  /** The last index before `k` that does not hold white space (or -1). */
  function SkipSpaceBack(s: string, k: nat): (r: int)
    requires k <= |s|
    ensures -1 <= r < k && AllSpace(s, r + 1, k) && (r == -1 || !IsSpace(s[r]))
    decreases k
  {
    if k > 0 && IsSpace(s[k - 1]) then SkipSpaceBack(s, k - 1) else k - 1
  }

  /** A match starting at `i` must have its `{` at `SkipSpace(s, i + 1)`. */
  function OpenBrace(s: string, i: nat): Option<nat>
    requires i < |s|
  {
    if s[i] != '[' then None
    else
      var p := SkipSpace(s, i + 1);
      if p < |s| && s[p] == '{' then Some(p) else None
  }

  /** With the `{` at `p`, `s[..e]` ends the match: `]`, preceded by white space, preceded by a `}`
      after `p`. */
  predicate ClosesAt(s: string, p: nat, e: nat)
    requires p < e <= |s|
  {
    s[e - 1] == ']' && var q := SkipSpaceBack(s, e - 1); q > p && s[q] == '}'
  }

  /** The greedy search for the end: the largest `e <= hi` that closes the match. */
  function LastClose(s: string, p: nat, hi: nat): (r: Option<nat>)
    requires hi <= |s|
    ensures r.Some? ==> p < r.value <= hi && ClosesAt(s, p, r.value)
    ensures r.Some? ==> forall e :: r.value < e <= hi ==> !ClosesAt(s, p, e)
    ensures r.None? ==> forall e :: p < e <= hi ==> !ClosesAt(s, p, e)
    decreases hi
  {
    if hi <= p then None
    else if ClosesAt(s, p, hi) then Some(hi)
    else LastClose(s, p, hi - 1)
  }

  /** A span `s[start..end]` of the content. */
  datatype Span = Span(start: nat, end: nat)

  /** The matches from `i`: none unless `OpenBrace` and `LastClose` succeed, and then the one
      ending where `LastClose` says is the longest. */
  function LongestFrom(s: string, i: nat): (r: Option<nat>)
    requires i < |s|
    ensures r.Some? ==> Found(s, i, r.value)
    ensures forall e :: Found(s, i, e) ==> r.Some? && e <= r.value
  {
    var open := OpenBrace(s, i);
    if open.None? then None else LastClose(s, open.value, |s|)
  }

  /** The leftmost match starting at or after `i`. */
  function FindFrom(s: string, i: nat): (r: Option<Span>)
    ensures r.Some? ==> i <= r.value.start < r.value.end <= |s|
    decreases |s| - i
  {
    if i >= |s| then None
    else match LongestFrom(s, i)
      case Some(e) => Some(Span(i, e))
      case None => FindFrom(s, i + 1)
  }

  /** `content.match(/\[\s*{[\s\S]*}\s*\]/)`, as the span of the match. */
  function FindArray(s: string): (r: Option<Span>)
    ensures r.Some? ==> r.value.start < r.value.end <= |s|
  {
    FindFrom(s, 0)
  }

  lemma SkipSpaceFirst(s: string, k: nat, p: nat)
    requires k <= p < |s| && AllSpace(s, k, p) && !IsSpace(s[p])
    ensures SkipSpace(s, k) == p
  {
  }

  lemma SkipSpaceBackLast(s: string, k: nat, q: nat)
    requires q < k <= |s| && AllSpace(s, q + 1, k) && !IsSpace(s[q])
    ensures SkipSpaceBack(s, k) == q
  {
  }

  /** A match from `i` to `e` as the search sees it: the `{` found by `OpenBrace`, then an end
      accepted by `ClosesAt`. */
  predicate Found(s: string, i: int, e: int) {
    0 <= i < |s| && 0 <= e <= |s|
    && var open := OpenBrace(s, i); open.Some? && open.value < e && ClosesAt(s, open.value, e)
  }

  lemma MatchesAtFound(s: string, i: int, e: int)
    requires MatchesAt(s, i, e)
    ensures Found(s, i, e)
  {
    var p, q :| i < p < q < e - 1 && AllSpace(s, i + 1, p) && s[p] == '{' && s[q] == '}' && AllSpace(s, q + 1, e - 1);
    SkipSpaceFirst(s, i + 1, p);
    SkipSpaceBackLast(s, e - 1, q);
  }

  lemma FoundMatchesAt(s: string, i: int, e: int)
    requires Found(s, i, e)
    ensures MatchesAt(s, i, e)
  {
    var p := OpenBrace(s, i).value;
    var q := SkipSpaceBack(s, e - 1);
    assert i < p < q < e - 1 && AllSpace(s, i + 1, p) && s[p] == '{' && s[q] == '}' && AllSpace(s, q + 1, e - 1);
  }

  /** The pattern's existential positions are determined: a match from `i` to `e` is exactly a
      `{` found by `OpenBrace` and an end accepted by `ClosesAt`. */
  lemma MatchesAtIff(s: string, i: int, e: int)
    ensures MatchesAt(s, i, e) <==> Found(s, i, e)
  {
    if MatchesAt(s, i, e) {
      MatchesAtFound(s, i, e);
    }
    if Found(s, i, e) {
      FoundMatchesAt(s, i, e);
    }
  }

  /** The search from `i` stops at the first index from which a match starts. */
  lemma {:induction false} FindFromSpec(s: string, i: nat)
    ensures var r := FindFrom(s, i);
      && (r.None? ==> forall k :: i <= k < |s| ==> LongestFrom(s, k).None?)
      && (r.Some? ==>
            && LongestFrom(s, r.value.start) == Some(r.value.end)
            && forall k :: i <= k < r.value.start ==> LongestFrom(s, k).None?)
    decreases |s| - i
  {
    if i < |s| {
      FindFromSpec(s, i + 1);
    }
  }

  /** The search finds a match exactly when the content has one, and what it finds is the match
      JavaScript reports: leftmost, longest, beginning with `[` and ending with `]`. */
  lemma FindArraySpec(s: string)
    ensures FindArray(s).None? <==> forall i, e :: !MatchesAt(s, i, e)
    ensures FindArray(s).Some? ==>
      var sp := FindArray(s);
      LeftmostLongest(s, sp.value.start, sp.value.end)
      && sp.value.start < sp.value.end <= |s|
      && s[sp.value.start..sp.value.end][0] == '['
      && s[sp.value.start..sp.value.end][sp.value.end - sp.value.start - 1] == ']'
  {
    FindFromSpec(s, 0);
    var r := FindArray(s);
    if r.None? {
      forall i, e ensures !MatchesAt(s, i, e) {
        MatchesAtIff(s, i, e);
        if 0 <= i < |s| {
          assert LongestFrom(s, i).None?;
        }
      }
    } else {
      var sp := r.value;
      MatchesAtIff(s, sp.start, sp.end);
      forall i, e | 0 <= i < sp.start ensures !MatchesAt(s, i, e) {
        MatchesAtIff(s, i, e);
        assert LongestFrom(s, i).None?;
      }
      forall e | sp.end < e ensures !MatchesAt(s, sp.start, e) {
        MatchesAtIff(s, sp.start, e);
      }
    }
  }

  const EmptyContentError := "Erro ao gerar questões com a OpenAI"
  const NoJsonError := "JSON não encontrado na resposta da OpenAI"

  /** `gerarQuestoes` after the request: `content` is `choices[0].message.content` of the reply
      (absent when the reply has none) and `parse` is `JSON.parse`. */
  function GerarQuestoes(content: Option<string>, parse: string -> Result<seq<Question>>): Result<seq<Question>> {
    if content.None? || content.value == "" then
      Err(EmptyContentError)
    else
      match FindArray(content.value)
      case None => Err(NoJsonError)
      case Some(sp) => parse(content.value[sp.start..sp.end])
  }

  /** The three outcomes of `gerarQuestoes`: a missing or empty content fails, content without a
      match fails, and otherwise the leftmost-longest match is what gets parsed. */
  lemma GerarQuestoesOutcome(content: Option<string>, parse: string -> Result<seq<Question>>)
    ensures content.None? || content.value == "" ==> GerarQuestoes(content, parse) == Err(EmptyContentError)
    ensures content.Some? && content.value != "" && (forall i, e :: !MatchesAt(content.value, i, e))
      ==> GerarQuestoes(content, parse) == Err(NoJsonError)
    ensures forall i, e ::
      (content.Some? && content.value != "" && LeftmostLongest(content.value, i, e))
      ==> GerarQuestoes(content, parse) == parse(content.value[i..e])
  {
    if content.Some? && content.value != "" {
      var s := content.value;
      FindArraySpec(s);
      forall i, e | LeftmostLongest(s, i, e)
        ensures FindArray(s) == Some(Span(i, e))
      {
        var sp := FindArray(s).value;
        assert sp.start < i ==> !MatchesAt(s, sp.start, sp.end);
        assert sp.start > i ==> !MatchesAt(s, i, e);
        assert sp.end < e ==> !MatchesAt(s, i, e);
        assert sp.end > e ==> !MatchesAt(s, i, sp.end);
      }
    }
  }
}
