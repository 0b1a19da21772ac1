# Quiz generator core, modelled in Dafny

The repository is a Next.js application that has a language model write school quiz questions.
A teacher then edits, reorders, shuffles and exports them. This project models the parts of it
that are logic rather than UI or backend plumbing:

- **The generation route** (`POST /api/generate`):
  - the tier-guidance lookups and the prompt template filled from the request body;
  - the extraction of the JSON array from the model's free-text reply (`gerarQuestoes`);
  - the answer-position histogram with its two verdicts (`verificaDistribuicaoRespostas`);
  - the bounded retry loop, which asks again when the correct answers are badly spread.
- **The dashboard page**:
  - the Fisher–Yates shuffle of a question's alternatives, with the remapping of the correct index (`embaralharAlternativas`);
  - moving, editing, saving, cancelling and deleting questions;
  - the text of the two exports: the XLSX rows, the DOCX paragraphs of the exam (`Prova`) and of the answer key (`Gabarito`), and the normalised DOCX file name.
- **The drag-and-drop question board**: the same list operations with a drop reorder, no bounds check and no re-shuffle on save.
- **The search filter** of the pick-from-list dialog.

Modules:

| file | module | models |
|---|---|---|
| `wrappers.dfy` | `Wrappers` | `Option` and `Result` |
| `text.dfy` | `Text` | `toLowerCase`, `includes`, `trim`, `replace(/C+/g, c)`, number to string, over ASCII |
| `questions.dfy` | `Questions` | the `Question` record, the partial `EditData`, the spread `{ ...q, ...edit }` |
| `array_ops.dfy` | `ArrayOps` | `splice` on a copy (the move idiom) and `filter` by index |
| `distribution.dfy` | `Distribution` | `verificaDistribuicaoRespostas` |
| `prompt.dfy` | `Prompt` | `getNivelQuestaoPrompt`, `getNivelExplicacaoPrompt`, the two prompt templates |
| `extraction.dfy` | `Extraction` | the regular expression `/\[\s*{[\s\S]*}\s*\]/` and `gerarQuestoes` |
| `generate_route.dfy` | `GenerateRoute` | the `do … while` retry loop and `POST` |
| `shuffle.dfy` | `Shuffle` | `embaralharAlternativas`: the in-place index shuffle on an `array`, then the remap |
| `dashboard.dfy` | `Dashboard` | the dashboard's question state as a class `Page` |
| `board.dfy` | `Board` | `reorder` and the board's state as a class `QuestionsBoard` |
| `export.dfy` | `Export` | the XLSX row mapping, the DOCX paragraph text, the file name |
| `list_filter.dfy` | `ListFilter` | the `filtered` expression |

Randomness, the language model and `JSON.parse` are parameters:

- `embaralharAlternativas` takes `draw`, the index `Math.floor(Math.random() * (i + 1))` chooses at step `i`. `ValidDraws` keeps every draw between `0` and `i`.
- The language model is an oracle `reply(n, prompt)`. It gives the content of the reply to attempt `n`, or nothing.
- `JSON.parse` is a function `parse` from the matched text to a batch of questions or an error.
- `POST` takes `apiKeySet`, which says whether the key is configured, and the parsed body as a map from field names to values: a JSON `null`, boolean, string or integer. A field that is absent reads as `undefined`.

In these places the code is more lenient than its callers might expect, and the model follows the code:

- Editing or deleting an index outside the list raises no error: `handleDelete` is a positional `filter`, so it removes nothing.
- Saving an edit without a `correta` does not fail either.
- `handleEdit` copies every field of the question into the edit object. So saving a multiple-choice question re-shuffles it even when the teacher changed nothing (`Dashboard.UntouchedSave`).
- The route reads `numQuestoes` and `numAlternativas === 'Aberta'`, whatever the dashboard sends. The model takes the route as written.

## Model

| member | source | states |
|---|---|---|
| Distribution.Tally | src/app/api/generate/route.ts:8-11 | the reducer step; no contract of its own, `SumTally` and `FoldCounts` state what it adds |
| Distribution.Histogram | src/app/api/generate/route.ts:7-12 | `contagem`; no contract of its own, `HistogramCounts` and `HistogramSum` state what it holds |
| Distribution.HistogramCounts | src/app/api/generate/route.ts:7-12 | the histogram holds exactly the positions some question marks, each with the number of questions marking it |
| Distribution.FoldCounts | src/app/api/generate/route.ts:7-12 | folding the reducer over a batch adds each question's position to the count already in the accumulator |
| Distribution.HistogramSum | src/app/api/generate/route.ts:7-14 | the counts add up to the number of questions with a `correta`, which is at most the batch length `total` |
| Distribution.FoldSum | src/app/api/generate/route.ts:7-12 | each fold step raises the sum of the counts by one for a marked question and by nothing for an unmarked one |
| Distribution.SumTally | src/app/api/generate/route.ts:8-10 | one reducer step raises the sum of the counts by one exactly when the question has a `correta` |
| Distribution.MarkedBounded | src/app/api/generate/route.ts:14 | no more questions are marked than the batch holds |
| Distribution.CountPair | src/app/api/generate/route.ts:7-12 | two different positions together hold at most the marked questions |
| Distribution.SkewIff | src/app/api/generate/route.ts:14-20 | `distribuicaoRuim` holds iff some position is marked by more than 60% of the whole batch (`100 * count > 60 * total`) |
| Distribution.SingleIff | src/app/api/generate/route.ts:21 | `todasMesmaPosicao` holds iff at least one question is marked and all marked questions share one position |
| Distribution.Verify | src/app/api/generate/route.ts:6-28 | `verificaDistribuicaoRespostas`; no contract of its own, `SkewIff` and `SingleIff` state both verdicts over the reference count `CountAt` |
| Distribution.Balanced | src/app/api/generate/route.ts:157-158 | the accept test `!distribuicaoRuim && !todasMesmaPosicao`; no contract of its own, its meaning follows from `SkewIff` and `SingleIff` |
| Distribution.NoMarksNoVerdict | src/app/api/generate/route.ts:6-21 | a batch without any `correta` gets both verdicts false |
| Distribution.SingleQuestionVerdict | src/app/api/generate/route.ts:6-21 | a batch of one question with a `correta` gets both verdicts true |
| Prompt.Field | src/app/api/generate/route.ts:102-134 | `body.key`, `undefined` for a missing key; no contract of its own |
| Prompt.Render | src/app/api/generate/route.ts:114-140 | what `${v}` prints for each value; no contract of its own |
| Prompt.Truthy | src/app/api/generate/route.ts:134 | JavaScript truthiness; no contract of its own, `MissingCountIsFour` relies on it |
| Prompt.AlternativesCount | src/app/api/generate/route.ts:134 | `${body.numAlternativas || 4}`; no contract of its own, `MissingCountIsFour` states its effect |
| Prompt.Lookup | src/app/api/generate/route.ts:62-90 | a `switch` on strict equality with `default: return ''`; no contract of its own, `LookupEmptyIff` states it |
| Prompt.NivelQuestaoPrompt | src/app/api/generate/route.ts:62-75 | `getNivelQuestaoPrompt`; no contract of its own, `TierLookups` states it |
| Prompt.NivelExplicacaoPrompt | src/app/api/generate/route.ts:77-90 | `getNivelExplicacaoPrompt`; no contract of its own, `TierLookups` states it |
| Prompt.LookupEmptyIff | src/app/api/generate/route.ts:62-90 | a `switch` whose cases all have text yields `''` exactly for values that are not a case name |
| Prompt.TierLookups | src/app/api/generate/route.ts:62-90 | both tier lookups give guidance text exactly for their four tier names and `''` for any other value, a missing field included |
| Prompt.Names | src/app/api/generate/route.ts:62-90 | the case names of a tier table, in the order of the cases |
| Prompt.IsOpen | src/app/api/generate/route.ts:112 | `body.numAlternativas === 'Aberta'`; no contract of its own |
| Prompt.OpenPrompt | src/app/api/generate/route.ts:113-130 | the open-response template; no contract of its own |
| Prompt.ChoicePrompt | src/app/api/generate/route.ts:132-151 | the multiple-choice template; no contract of its own |
| Prompt.ComposePrompt | src/app/api/generate/route.ts:110-152 | the `if` choosing the template; no contract of its own, `PromptReadsOnlyItsFields`, `OtherFieldsIgnored` and `MissingCountIsFour` state what it depends on |
| Prompt.RoutePrompt | src/app/api/generate/route.ts:102-152 | the prompt of a body, from the two tier lookups and the template; no contract of its own, the same three lemmas state it |
| Prompt.PromptReadsOnlyItsFields | src/app/api/generate/route.ts:102-152 | two bodies that agree on the six fields the prompt reads get the same prompt |
| Prompt.OtherFieldsIgnored | src/app/api/generate/route.ts:110-152 | changing any other field of the body leaves the prompt unchanged |
| Prompt.MissingCountIsFour | src/app/api/generate/route.ts:134 | a missing or falsy `numAlternativas` produces the prompt that `4` produces |
| Extraction.SkipSpace | src/app/api/generate/route.ts:53 | the first index at or after `k` that is not white space, with white space only before it |
| Extraction.SkipSpaceBack | src/app/api/generate/route.ts:53 | the last index before `k` that is not white space, with white space only after it |
| Extraction.LastClose | src/app/api/generate/route.ts:53 | the largest end at which a `}`, white space and `]` close the match, and that no larger end does |
| Extraction.LongestFrom | src/app/api/generate/route.ts:53 | from a start index, the longest end of a match, and none when no match starts there |
| Extraction.MatchesAtIff | src/app/api/generate/route.ts:53 | the scanner's notion of a match agrees, in both directions, with the pattern `[`, white space, `{`, anything, `}`, white space, `]` |
| Extraction.FindFrom | src/app/api/generate/route.ts:53 | the search from a start index; no contract of its own, `FindFromSpec` states it |
| Extraction.FindFromSpec | src/app/api/generate/route.ts:53 | the search stops at the first index from which a match starts, and reports the longest match from there |
| Extraction.FindArraySpec | src/app/api/generate/route.ts:53-58 | there is a result iff the text has a match; the result is the leftmost, longest match, and it begins with `[` and ends with `]` |
| Extraction.FindArray | src/app/api/generate/route.ts:53 | `content.match(/\[\s*{[\s\S]*}\s*\]/)` as a span; its contract bounds the span, `FindArraySpec` states that it is the leftmost-longest match |
| Extraction.GerarQuestoes | src/app/api/generate/route.ts:46-58 | `gerarQuestoes` after the request; no contract of its own, `GerarQuestoesOutcome` states its three outcomes |
| Extraction.GerarQuestoesOutcome | src/app/api/generate/route.ts:47-58 | a missing or empty content fails with the first message; content without a match fails with the second; otherwise the leftmost-longest match is what gets parsed |
| GenerateRoute.Outcome | src/app/api/generate/route.ts:154 | the result of one attempt; no contract of its own |
| GenerateRoute.Accepted | src/app/api/generate/route.ts:156-164 | an attempt ends the loop when the request is open or the batch is balanced; no contract of its own, `RetrySpec` states its role |
| GenerateRoute.Retry | src/app/api/generate/route.ts:105-167 | the loop makes at least one and at most three attempts |
| GenerateRoute.RetrySpec | src/app/api/generate/route.ts:105-176 | every attempt before the last produced a batch that was rejected; a failing last attempt is a 500 with its message; otherwise the last batch is returned and was accepted or was the third; an open-response request makes exactly one attempt |
| GenerateRoute.Generate | src/app/api/generate/route.ts:105-169 | the imperative loop gives the response and attempt count of `Retry`, and sends the same prompt on every attempt |
| GenerateRoute.Post | src/app/api/generate/route.ts:92-176 | a missing key answers 500 before any attempt; otherwise the response is the retry loop's, and every attempt sends the prompt built from the body |
| Questions.Merge | src/app/dashboard/page.tsx:375-380 | the spread `{ ...q, ...e }`; no contract of its own, `MergeLaws` and `BoardSaveKeepsEdit` state it |
| Questions.EditOf | src/app/dashboard/page.tsx:367 | the copy `{ ...questions[idx] }`; no contract of its own, `MergeLaws` states that merging it back changes nothing |
| Questions.MergeLaws | src/app/dashboard/page.tsx:365-381 | the spread with the empty edit, or with an untouched copy of the question, gives the question back; applying an edit twice equals applying it once |
| Shuffle.Iota | src/app/dashboard/page.tsx:45 | the index array holds `k` at position `k` |
| Shuffle.FisherYates | src/app/dashboard/page.tsx:48-51 | the loop's steps as a function of the draws; its contract keeps the length, `FisherYatesPermutes` states that it only rearranges |
| Shuffle.FisherYatesPermutes | src/app/dashboard/page.tsx:48-51 | the swap loop only rearranges its array |
| Shuffle.IotaMembers | src/app/dashboard/page.tsx:45 | a value occurs in the index array iff it is an index of the list |
| Shuffle.PermutationInRange | src/app/dashboard/page.tsx:45-51 | a rearranged index array holds only indices of the list |
| Shuffle.Permutation | src/app/dashboard/page.tsx:45-51 | the shuffled index array is a permutation of `0..n-1` |
| Shuffle.IndexOf | src/app/dashboard/page.tsx:56 | `indexOf` gives the first position holding the value, and -1 iff the value is absent |
| Shuffle.ShuffleIndices | src/app/dashboard/page.tsx:45-51 | the in-place loop over the `array` leaves it holding the permutation the draws determine |
| Shuffle.Embaralhar | src/app/dashboard/page.tsx:37-63 | the method computes the shuffled question, and returns its input unchanged when `alternativas` or `correta` is missing |
| Shuffle.ApplyFisherYates | src/app/dashboard/page.tsx:48-54 | reading the alternatives through the shuffled indices equals shuffling the alternatives by the same draws |
| Shuffle.ShuffledAlternatives | src/app/dashboard/page.tsx:43-54 | the new alternatives are the old ones shuffled, so each occurs as often as before |
| Shuffle.ShuffledIndexOf | src/app/dashboard/page.tsx:56 | the new index of an in-range `correta` points at it in the permutation; an out-of-range `correta` becomes -1 |
| Shuffle.Shuffled | src/app/dashboard/page.tsx:37-63 | what `embaralharAlternativas` returns; no contract of its own, `ShuffleKeepsAnswer` states it and `Embaralhar` computes it |
| Shuffle.ShuffleKeepsAnswer | src/app/dashboard/page.tsx:37-63 | same length and multiset of alternatives; the new `correta` marks the old correct text, or is -1 when out of range; every other field is copied |
| ArrayOps.SpliceStart | src/app/dashboard/page.tsx:360 | `splice`'s start position lies inside the list: the argument itself when in range, counted from the end (and at least 0) when negative, the end when past it |
| ArrayOps.RemoveAt | src/app/dashboard/page.tsx:359 | `splice(i, 1)` for an index of the list; no contract of its own, `RemoveAtMultiset` states it |
| ArrayOps.InsertAt | src/app/dashboard/page.tsx:360 | `splice(start, 0, x)`, with the start clamped by `SpliceStart`; no contract of its own |
| ArrayOps.Reorder | src/components/QuestionsBoard.tsx:26-31 | `reorder` and the two splices of `moveQuestion`; no contract of its own, `ReorderPermutes`, `ReorderPlaces` and `ReorderSame` state it |
| ArrayOps.RemoveAtMultiset | src/app/dashboard/page.tsx:359 | splicing one element out shortens the list by one and removes exactly that element |
| ArrayOps.ReorderPermutes | src/app/dashboard/page.tsx:358-360 | a move keeps the length and the multiset, whatever the destination |
| ArrayOps.ReorderPlaces | src/app/dashboard/page.tsx:358-360 | a move to an in-range index puts the element there and keeps the others in their relative order |
| ArrayOps.ReorderSame | src/components/QuestionsBoard.tsx:26-31 | moving an element onto its own index changes nothing |
| ArrayOps.FilterOutIndexIs | src/app/dashboard/page.tsx:396 | the positional filter over a slice starting at `base` removes the element numbered `idx`, or nothing when `idx` is outside the slice |
| ArrayOps.WithoutIndex | src/app/dashboard/page.tsx:396 | `filter((_, i) => i !== idx)`; no contract of its own, `WithoutIndexRemoves` states it |
| ArrayOps.WithoutIndexRemoves | src/app/dashboard/page.tsx:396 | deleting by position removes exactly the element at `idx` and keeps the rest in order; outside the list it removes nothing |
| Dashboard.Page.constructor | src/app/dashboard/page.tsx:66-79 | the page starts with no questions and no edit in progress |
| Dashboard.Page.MoveQuestion | src/app/dashboard/page.tsx:356-362 | an out-of-range destination changes nothing; otherwise the move keeps length and multiset, puts the question at `to` and keeps the others in order |
| Dashboard.Page.HandleEdit | src/app/dashboard/page.tsx:365-368 | the editor opens on `idx` with a copy of every field of the question |
| Dashboard.Page.HandleSave | src/app/dashboard/page.tsx:370-385 | only position `idx` changes, to the merged question, shuffled again iff the edit holds alternatives; the editor closes |
| Dashboard.Page.HandleCancelEdit | src/app/dashboard/page.tsx:388-391 | the editor closes and the list is unchanged |
| Dashboard.Page.HandleDelete | src/app/dashboard/page.tsx:394-398 | after confirmation the list loses the element at `idx`; otherwise it is unchanged |
| Dashboard.Saved | src/app/dashboard/page.tsx:373-381 | the question `handleSave` stores; no contract of its own, `SavedQuestion` and `UntouchedSave` state it |
| Dashboard.SavedQuestion | src/app/dashboard/page.tsx:370-381 | the saved question keeps the edited statement, explanation and answer; with edited alternatives it holds the same alternatives rearranged, with `correta` marking the same text or -1 |
| Dashboard.UntouchedSave | src/app/dashboard/page.tsx:365-381 | saving an untouched copy re-shuffles a multiple-choice question and leaves an open one unchanged |
| Board.QuestionsBoard.constructor | src/components/QuestionsBoard.tsx:21-23 | the board shows the given questions with no edit in progress |
| Board.QuestionsBoard.OnDragEnd | src/components/QuestionsBoard.tsx:26-38 | a drop without destination changes nothing; otherwise `reorder` moves the card, keeping length and multiset, placing it at an in-range destination with the other cards in their order, and changing nothing when it is dropped on its own place |
| Board.QuestionsBoard.HandleEdit | src/components/QuestionsBoard.tsx:41-44 | the editor opens on `idx` with a copy of the question |
| Board.QuestionsBoard.HandleSave | src/components/QuestionsBoard.tsx:47-53 | only position `idx` changes, to the merged question, never re-shuffled; the editor closes |
| Board.QuestionsBoard.HandleDelete | src/components/QuestionsBoard.tsx:56-60 | after confirmation the element at `idx` is removed; otherwise the list is unchanged |
| Board.BoardSaveKeepsEdit | src/components/QuestionsBoard.tsx:47-49 | a board save stores the edited alternatives and `correta` exactly as the edit has them, and the question's own where the edit has none |
| Export.XlsxRow | src/app/dashboard/page.tsx:171-188 | the row object of one question; no contract of its own, `XlsxRowShows`, `XlsxAnswer` and `XlsxAlternatives` state it |
| Export.XlsxSheet | src/app/dashboard/page.tsx:170-189 | no sheet for an empty list; otherwise row `k` shows question `k`: seven columns exactly for a question with alternatives and a numeric `correta`, the first four alternatives or `''`, `Resposta` the correct alternative's text or `''` (the answer or `''` for an open question), statement and explanation copied |
| Export.XlsxRowShows | src/app/dashboard/page.tsx:171-189 | the row built for a question shows it in that sense |
| Export.RowShowsUnique | src/app/dashboard/page.tsx:171-189 | at most one row shows a given question, so the description fixes every cell |
| Export.XlsxAnswer | src/app/dashboard/page.tsx:171-189 | `Resposta` is the correct alternative's text, or `''` when `correta` is out of range; for open questions it is `resposta` or `''`; multiple choice gets seven columns |
| Export.XlsxAlternatives | src/app/dashboard/page.tsx:175-178 | the four alternative columns hold the first four alternatives, and `''` where there are fewer |
| Export.XlsxDropsLaterAlternatives | src/app/dashboard/page.tsx:175-179 | a fifth or later alternative never reaches the sheet unless it is the correct one |
| Export.QuestionParagraphs | src/app/dashboard/page.tsx:222-304 | the paragraphs pushed for one question; no contract of its own, `ExamAndAnswerKey` states them |
| Export.AlternativeLines | src/app/dashboard/page.tsx:244-257 | one paragraph per alternative |
| Export.ExamAndAnswerKey | src/app/dashboard/page.tsx:222-304 | the exam shows heading, statement and alternative lines only; the answer key shows those plus the answer line, when there is one, and the explanation |
| Export.AlternativeLetters | src/app/dashboard/page.tsx:246-250 | alternative `i` is written after the letters A to E and after the word "undefined" from the sixth on |
| Export.FlatMapAppend | src/app/dashboard/page.tsx:222 | an indexed `flatMap` over a concatenation is the `flatMap` of the first part followed by that of the second, its indices continuing |
| Export.FlatMapAt | src/app/dashboard/page.tsx:222 | in an indexed `flatMap`, element `k`'s part sits between the parts of the elements before and after it, right after the former |
| Export.Body | src/app/dashboard/page.tsx:222 | `corpoQuestoes`, the indexed `flatMap`; no contract of its own, `BodyAppend` and `BodyAt` state it |
| Export.BodyAppend | src/app/dashboard/page.tsx:222 | the paragraphs of a concatenation of question lists are those of the first list followed by those of the second, numbered on |
| Export.BodyAt | src/app/dashboard/page.tsx:222-304 | the paragraphs of question `k` sit, numbered `k + 1`, between those of the questions before and after it, starting right after the former |
| Export.QuestionsInPlace | src/app/dashboard/page.tsx:201-304 | after any leading paragraphs, each question's paragraphs start right after those of the questions before it |
| Export.ExportsAgree | src/app/dashboard/page.tsx:171-287 | where both exports state an answer they state the same text; for an out-of-range `correta` the sheet has `''` and the document "undefined" |
| Export.HeaderLines | src/app/dashboard/page.tsx:201-220 | one `label: value` paragraph per header field, in order; no contract of its own |
| Export.Document | src/app/dashboard/page.tsx:201-329 | the document is the title, the seven header fields, an empty paragraph and the question paragraphs, the paragraphs of question `k` (numbered `k + 1`) starting right after those of the questions before it |
| Export.AlunoNome | src/app/dashboard/page.tsx:331 | a blank student name becomes "geral", any other is kept as typed |
| Export.ExportDocx | src/app/dashboard/page.tsx:196-336 | no document exactly when there are no questions or no exam details; otherwise a document that opens with its title and a file name with no white space, no upper-case letter and no two `_` in a row, ending in `_questoes_prova.docx` or `_questoes_gabarito.docx` |
| Export.Sufixo | src/app/dashboard/page.tsx:332 | `isProva ? 'prova' : 'gabarito'`; no contract of its own |
| Export.Tail | src/app/dashboard/page.tsx:333 | the fixed end of the name; no contract of its own, `TailLiterals` writes it out |
| Export.Head | src/app/dashboard/page.tsx:333 | the part of the name before the tail; no contract of its own |
| Export.RawFileName | src/app/dashboard/page.tsx:333 | the template literal of the name; no contract of its own |
| Export.Normalise | src/app/dashboard/page.tsx:334-336 | the two `replace` calls and `toLowerCase`; no contract of its own, `NormalisedShape` and `NormaliseTail` state it |
| Export.FileName | src/app/dashboard/page.tsx:331-336 | `nomeArquivo`; no contract of its own, `FileNameClean` and `FileNameEnds` state it |
| Export.NormalisedShape | src/app/dashboard/page.tsx:334-336 | the normalised text has no white space, no upper-case letter and no two `_` in a row |
| Export.NormaliseTail | src/app/dashboard/page.tsx:333-336 | a tail that starts with `_` and is already normal survives normalisation after a head that ends in a digit |
| Export.TailLiterals | src/app/dashboard/page.tsx:332-333 | the fixed tail is `_questoes_prova.docx` for the exam and `_questoes_gabarito.docx` for the key |
| Export.ProvaTailShape | src/app/dashboard/page.tsx:333 | the exam tail needs no normalisation |
| Export.GabaritoTailShape | src/app/dashboard/page.tsx:333 | the answer-key tail needs no normalisation |
| Export.FileNameClean | src/app/dashboard/page.tsx:331-336 | the file name has no white space, no upper-case letter and no two `_` in a row |
| Export.FileNameEnds | src/app/dashboard/page.tsx:331-336 | the file name ends in `_questoes_prova.docx` or `_questoes_gabarito.docx` |
| ListFilter.Matches | src/components/SelectFromListModal.tsx:40 | `item.toLowerCase().includes(search.toLowerCase())`; no contract of its own, `FilteredMembers` states the filter through it |
| ListFilter.Filtered | src/components/SelectFromListModal.tsx:39-41 | the result is no longer than the list and holds only listed items that match |
| ListFilter.FilteredIsSubsequence | src/components/SelectFromListModal.tsx:39-41 | the result is a subsequence of the items, in their original order |
| ListFilter.FilteredCounts | src/components/SelectFromListModal.tsx:39-41 | every matching item is kept as often as it occurs and every other item is dropped |
| ListFilter.FilteredMembers | src/components/SelectFromListModal.tsx:39-41 | an item is in the result iff it is listed and its lower-cased text contains the lower-cased search |
| ListFilter.EmptySearchKeepsAll | src/components/SelectFromListModal.tsx:39-41 | an empty search keeps every item |
| Text.Lower | src/components/SelectFromListModal.tsx:40 | lower-casing a character leaves no upper-case letter, keeps white space and `_` as they are, and changes nothing else |
| Text.ToLower | src/components/SelectFromListModal.tsx:40 | `toLowerCase` lower-cases every character and keeps the length |
| Text.ToLowerAppend | src/app/dashboard/page.tsx:336 | lower-casing distributes over concatenation |
| Text.Includes | src/components/SelectFromListModal.tsx:40 | `includes` holds iff the needle occurs at some index |
| Text.OccursShift | src/components/SelectFromListModal.tsx:40 | when the needle does not start at index 0, it occurs in the rest iff it occurs in the text |
| Text.IncludesEmpty | src/components/SelectFromListModal.tsx:40 | every text includes the empty string |
| Text.NatToString | src/app/dashboard/page.tsx:333 | a number renders as a non-empty string of decimal digits, without a leading zero, whose decimal value is the number |
| Text.TrimStart | src/app/dashboard/page.tsx:331 | after trimming the start, the text is empty iff it was blank, and otherwise starts with a non-space |
| Text.TrimStartDrops | src/app/dashboard/page.tsx:331 | trimming the start removes a white-space prefix and nothing else: the result is the rest of the text |
| Text.TrimEnd | src/app/dashboard/page.tsx:331 | after trimming the end, the text is empty iff it was blank, and otherwise ends in a non-space |
| Text.TrimEndDrops | src/app/dashboard/page.tsx:331 | trimming the end removes a white-space suffix and nothing else: the result is the text before it |
| Text.Trim | src/app/dashboard/page.tsx:331 | `trim()` as `trimEnd` after `trimStart`; no contract of its own, `TrimEmptyIffBlank` states it |
| Text.TrimEmptyIffBlank | src/app/dashboard/page.tsx:331 | `trim()` is empty iff the text is white space only |
| Text.Squeeze | src/app/dashboard/page.tsx:334-335 | `replace(/C+/g, r)` as one pass carrying whether it is inside a run; no contract of its own, the `Squeeze…` lemmas state it |
| Text.SqueezeCons | src/app/dashboard/page.tsx:334-335 | the replacement of one character followed by a text is its own output followed by the text's, in the state it leaves |
| Text.SqueezeAppend | src/app/dashboard/page.tsx:334-335 | replacing in a concatenation replaces in the parts, the second resuming in the state the first ended in |
| Text.SqueezeChars | src/app/dashboard/page.tsx:334-335 | every output character is the replacement or a non-class character of the input |
| Text.SqueezeAfterRun | src/app/dashboard/page.tsx:334-335 | inside a run the output does not start with a class character |
| Text.SqueezeNoAdjacent | src/app/dashboard/page.tsx:334-335 | the output never has two class characters in a row |
| Text.SqueezeIdentity | src/app/dashboard/page.tsx:334-335 | a text whose class characters are single replacements is left unchanged |
| Text.SqueezeEndsOutsideRun | src/app/dashboard/page.tsx:334-335 | a text ending in another character gives an output ending in that character |

## Left out

- The OpenAI request and its HTTP status, and `JSON.parse`: they are the parameters `reply` and `parse`. `req.json()` failing on a malformed body is not modelled; the body is given already parsed. A rejected `fetch` or a reply that is not JSON (`openaiRes.json()` throwing) would make the route answer 500 with that error's message; `reply` only gives content or nothing, so those messages do not occur in the model.
- `Math.random`: it is replaced by the draws `draw`. Nothing is stated about how uniform the shuffle is.
- Floating point: the 60% test `quantidade / total * 100 > 60` is the exact comparison `100 * count > 60 * total`. Rounding at the boundary is not modelled.
- Unicode: `toLowerCase`, `trim` and `\s` act on ASCII only. Other white space and letters outside ASCII are left as they are.
- Fractional numbers, arrays and objects in the request body are not modelled. A number is an integer, so `2.5` cannot be rendered, and an array or object field would render through its `toString` and is always truthy.
- JSON values of `correta` other than integers are not modelled: `correta` is an optional integer. The source would count a `null` `correta` in the histogram under its own key, and a string `correta` would fail its `typeof` checks.
- Dashboard.Page.MoveQuestion: requires `from` to be an index of the list. The buttons only pass indices of rendered cards; JavaScript would splice `undefined` in for a `from` at or past the end, and a negative `from` counts from the end.
- Dashboard.Page.HandleSave: requires `idx` to be an index of the list. The editor only saves the card it opened; an assignment past the end would grow the array.
- Board.QuestionsBoard.OnDragEnd: requires the drag source to be an index of the list, as the drag library's source always is.
- Board.QuestionsBoard.HandleSave: requires `idx` to be an index of the list, for the same reason as the dashboard's save.
- Board.QuestionsBoard: the board's `questions` are a prop the parent owns and updates through `setQuestions`; the model keeps them as a field of the board.
- GenerateRoute.Post: the prompt is identical on every attempt, so the model builds it once before the loop. The source rebuilds the same text inside the loop.
- `console.log` in the retry loop, the toasts, the loading flags and all rendering are left out.
- The field edits the editor form makes through `setEditData`, field by field, are left out. `Dashboard.Page.HandleEdit` models only the initial copy.
- `handleCreateQuiz` and `handleGenerateMore` on the dashboard, which post to the route and map the shuffle over the returned batch, are not part of this model. Their network calls and toasts are the bulk of them.
- Supabase persistence and authentication are not part of this model.
- The byte formats of the files `XLSX.writeFile` and `Packer.toBlob` produce, and the download through `window.URL`, are left out. Only the text of the rows and paragraphs is modelled, without bold, size, colour or spacing.
