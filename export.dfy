/** The text content of the two exports of the dashboard: the rows of the XLSX sheet, the
    paragraphs of the DOCX exam (`Prova`) or answer key (`Gabarito`), and the normalised name of
    the DOCX file. Only the text is modelled; formatting runs (bold, size, colour) and the bytes of
    the files are not. */
module Export {
  import opened Wrappers
  import opened Questions
  import opened Text

  // ---------------------------------------------------------------------------------------------
  // XLSX

  /** One row of the sheet: the object `exportXLSX` builds for a question, with one field per
      key. `json_to_sheet` turns the keys into column headers (see `Columns`). */
  datatype SheetRow =
    | ChoiceRow(enunciado: string, alternativaA: string, alternativaB: string, alternativaC: string,
                alternativaD: string, resposta: string, explicacao: string)
    | OpenRow(enunciado: string, resposta: string, explicacao: string)

  /** The keys of the row object, in order. */
  function Columns(row: SheetRow): seq<string> {
    if row.ChoiceRow? then
      ["Enunciado", "Alternativa A", "Alternativa B", "Alternativa C", "Alternativa D", "Resposta", "Explicação"]
    else
      ["Enunciado", "Resposta", "Explicação"]
  }

  /** `x || ''` on an optional string: a missing value becomes `''`, an empty one stays `''`. */
  function OrEmpty(s: Option<string>): string {
    if s.Some? then s.value else ""
  }

  /** `alternativas[k] || ''`: an index outside the list reads `undefined`, which becomes `''`. */
  function ItemOrEmpty(alts: seq<string>, k: int): string {
    if 0 <= k < |alts| then alts[k] else ""
  }

  /** `q.alternativas && typeof q.correta === 'number'` (an array is truthy even when empty). */
  predicate IsChoice(q: Question) {
    q.alternativas.Some? && q.correta.Some?
  }

  /** The row `exportXLSX` builds for one question. */
  function XlsxRow(q: Question): SheetRow {
    if IsChoice(q) then
      var alts := q.alternativas.value;
      ChoiceRow(q.enunciado, ItemOrEmpty(alts, 0), ItemOrEmpty(alts, 1), ItemOrEmpty(alts, 2),
                ItemOrEmpty(alts, 3), ItemOrEmpty(alts, q.correta.value), q.explicacao)
    else
      OpenRow(q.enunciado, OrEmpty(q.resposta), q.explicacao)
  }

  /** The four alternative cells of a multiple-choice row. */
  function AlternativeCells(row: SheetRow): seq<string>
    requires row.ChoiceRow?
  {
    [row.alternativaA, row.alternativaB, row.alternativaC, row.alternativaD]
  }

  /** What the row of a question shows: its statement and explanation; for a question with
      alternatives and a numeric `correta`, the seven columns with the first four alternatives
      (`''` where the list is shorter) and the text of the correct alternative (`''` when
      `correta` is outside the list); for any other question, the three columns with its answer
      (`''` when it has none). */
  predicate RowShows(row: SheetRow, q: Question) {
    && row.enunciado == q.enunciado && row.explicacao == q.explicacao
    && (row.ChoiceRow? <==> IsChoice(q))
    && (IsChoice(q) ==>
          var alts, c := q.alternativas.value, q.correta.value;
          && row.resposta == (if 0 <= c < |alts| then alts[c] else "")
          && forall i :: 0 <= i < 4 ==> AlternativeCells(row)[i] == if i < |alts| then alts[i] else "")
    && (!IsChoice(q) ==> row.resposta == if q.resposta.Some? then q.resposta.value else "")
  }

  /** `RowShows` leaves no freedom: at most one row shows a question. */
  lemma RowShowsUnique(a: SheetRow, b: SheetRow, q: Question)
    requires RowShows(a, q) && RowShows(b, q)
    ensures a == b
  {
    if IsChoice(q) {
      assert AlternativeCells(a) == AlternativeCells(b) by {
        forall i | 0 <= i < 4 ensures AlternativeCells(a)[i] == AlternativeCells(b)[i] {
        }
      }
      assert a.alternativaA == AlternativeCells(a)[0] && b.alternativaA == AlternativeCells(b)[0];
      assert a.alternativaD == AlternativeCells(a)[3] && b.alternativaD == AlternativeCells(b)[3];
    }
  }

  /** `exportXLSX`: nothing for an empty list, otherwise one row per question in list order,
      each showing its question. */
  function XlsxSheet(qs: seq<Question>): (r: Option<seq<SheetRow>>)
    ensures r.None? <==> qs == []
    ensures r.Some? ==> |r.value| == |qs| && forall k :: 0 <= k < |qs| ==> RowShows(r.value[k], qs[k])
    ensures r.Some? ==> forall k :: 0 <= k < |qs| ==> r.value[k] == XlsxRow(qs[k])
  {
    if qs == [] then None
    else
      var rows := seq(|qs|, k requires 0 <= k < |qs| => XlsxRow(qs[k]));
      assert forall k :: 0 <= k < |qs| ==> RowShows(rows[k], qs[k]) by {
        forall k | 0 <= k < |qs| ensures RowShows(rows[k], qs[k]) {
          XlsxRowShows(qs[k]);
        }
      }
      Some(rows)
  }

  /** The row built for a question shows it. */
  lemma XlsxRowShows(q: Question)
    ensures RowShows(XlsxRow(q), q)
  {
    if IsChoice(q) {
      XlsxAlternatives(q);
    }
    XlsxAnswer(q);
  }

  /** The `Resposta` cell holds the text of the correct alternative (empty when `correta` is
      outside the list) or, for an open question, its answer or the empty string; the statement
      and the explanation are copied. A multiple-choice question gets the seven columns, an open
      one three. */
  lemma XlsxAnswer(q: Question)
    ensures var row := XlsxRow(q);
      && row.enunciado == q.enunciado && row.explicacao == q.explicacao
      && (IsChoice(q) <==> |Columns(row)| == 7)
      && (IsChoice(q) && 0 <= q.correta.value < |q.alternativas.value| ==>
            row.resposta == q.alternativas.value[q.correta.value])
      && (IsChoice(q) && !(0 <= q.correta.value < |q.alternativas.value|) ==> row.resposta == "")
      && (!IsChoice(q) && q.resposta.Some? ==> row.resposta == q.resposta.value)
      && (!IsChoice(q) && q.resposta.None? ==> row.resposta == "")
  {
  }

  /** The alternative columns hold the first four alternatives, and `''` where the list is
      shorter. */
  lemma XlsxAlternatives(q: Question)
    requires IsChoice(q)
    ensures var cells, alts := AlternativeCells(XlsxRow(q)), q.alternativas.value;
      forall k :: 0 <= k < 4 ==> cells[k] == if k < |alts| then alts[k] else ""
  {
  }

  /** A fifth or later alternative is not exported, unless it is the correct one: the row of a
      question with at least four alternatives and a `correta` among the first four does not
      depend on what follows the fourth. */
  lemma XlsxDropsLaterAlternatives(q: Question, extra: seq<string>)
    requires IsChoice(q) && |q.alternativas.value| >= 4 && 0 <= q.correta.value < 4
    ensures XlsxRow(q.(alternativas := Some(q.alternativas.value + extra))) == XlsxRow(q)
  {
    var alts := q.alternativas.value;
    forall k | 0 <= k < 4 ensures (alts + extra)[k] == alts[k] {
    }
  }

  // ---------------------------------------------------------------------------------------------
  // DOCX

  /** `letras`. */
  const Letras: seq<string> := ["A", "B", "C", "D", "E"]

  /** `${letras[i]}`: past the fifth alternative the letter is `undefined`, which a template
      literal renders as the word "undefined". */
  function Letra(i: nat): string {
    if i < |Letras| then Letras[i] else "undefined"
  }

  /** `${alternativas[correta]}`: the alternative, or "undefined" outside the list. */
  function Interpolated(alts: seq<string>, c: int): string {
    if 0 <= c < |alts| then alts[c] else "undefined"
  }

  /** `q.alternativas && q.alternativas.length > 0`. */
  predicate HasAlternatives(q: Question) {
    q.alternativas.Some? && |q.alternativas.value| > 0
  }

  /** `q.resposta` is truthy: present and not empty. */
  predicate HasResposta(q: Question) {
    q.resposta.Some? && q.resposta.value != ""
  }

  /** One `${letras[i]}) ${alt}` paragraph per alternative, in stored order. */
  function AlternativeLines(alts: seq<string>): (r: seq<string>)
    ensures |r| == |alts|
  {
    seq(|alts|, i requires 0 <= i < |alts| => Letra(i) + ") " + alts[i])
  }

  /** The paragraphs of question `idx` (0-based) in the `flatMap` of `exportDOCX`, following its
      pushes: heading and statement, then the alternatives and (in the answer key, with a numeric
      `correta`) their answer, or else (in the answer key) the open answer when it is truthy, and
      finally (in the answer key) the explanation. */
  function QuestionParagraphs(q: Question, idx: nat, isProva: bool): seq<string> {
    var questoes := ["Questão " + NatToString(idx + 1) + ":", q.enunciado];
    var questoes :=
      if HasAlternatives(q) then
        var alts := q.alternativas.value;
        var withAlts := questoes + AlternativeLines(alts);
        if !isProva && q.correta.Some? then withAlts + ["Resposta: " + Interpolated(alts, q.correta.value)]
        else withAlts
      else if !isProva && HasResposta(q) then questoes + ["Resposta: " + q.resposta.value]
      else questoes;
    if !isProva then questoes + ["Explicação: " + q.explicacao] else questoes
  }

  /** The exam paragraphs of a question: heading, statement and alternative lines. */
  function ExamLines(q: Question, idx: nat): seq<string> {
    ["Questão " + NatToString(idx + 1) + ":", q.enunciado]
      + (if HasAlternatives(q) then AlternativeLines(q.alternativas.value) else [])
  }

  /** The answer line the answer key adds to a question, if any. */
  function AnswerLines(q: Question): seq<string> {
    if HasAlternatives(q) then
      (if q.correta.Some? then ["Resposta: " + Interpolated(q.alternativas.value, q.correta.value)] else [])
    else if HasResposta(q) then ["Resposta: " + q.resposta.value]
    else []
  }

  /** The exam shows exactly the heading, the statement and the alternatives; the answer key shows
      the same paragraphs followed by the answer line (when there is one) and always the
      explanation. */
  lemma ExamAndAnswerKey(q: Question, idx: nat)
    ensures QuestionParagraphs(q, idx, true) == ExamLines(q, idx)
    ensures QuestionParagraphs(q, idx, false) == ExamLines(q, idx) + AnswerLines(q) + ["Explicação: " + q.explicacao]
  {
  }

  /** Alternative `i` is written after letter `i` (A to E) and the word "undefined" after that. */
  lemma AlternativeLetters(alts: seq<string>, i: nat)
    requires i < |alts|
    ensures i < 5 ==> AlternativeLines(alts)[i] == ["A", "B", "C", "D", "E"][i] + ") " + alts[i]
    ensures i >= 5 ==> AlternativeLines(alts)[i] == "undefined) " + alts[i]
  {
  }

  /** `xs.flatMap((x, i) => f(x, i))`, with the index `i` starting at `start`. */
  function FlatMapIndexed<T>(xs: seq<T>, f: (T, nat) -> seq<string>, start: nat): seq<string>
    decreases |xs|
  {
    if xs == [] then [] else f(xs[0], start) + FlatMapIndexed(xs[1..], f, start + 1)
  }

  lemma {:induction false} FlatMapAppend<T>(a: seq<T>, b: seq<T>, f: (T, nat) -> seq<string>, start: nat)
    ensures FlatMapIndexed(a + b, f, start) == FlatMapIndexed(a, f, start) + FlatMapIndexed(b, f, start + |a|)
    decreases |a|
  {
    if a == [] {
      assert a + b == b;
    } else {
      assert (a + b)[0] == a[0] && (a + b)[1..] == a[1..] + b;
      FlatMapAppend(a[1..], b, f, start + 1);
    }
  }

  /** `r` holds `ps` from position `o` on. */
  predicate SitsAt(r: seq<string>, o: int, ps: seq<string>) {
    0 <= o && o + |ps| <= |r| && r[o..o + |ps|] == ps
  }

  /** Paragraphs that sit at `o` in `b` sit at `|a| + o` once `a` is put in front. */
  lemma SitsShift(a: seq<string>, b: seq<string>, o: int, ps: seq<string>)
    requires SitsAt(b, o, ps)
    ensures SitsAt(a + b, |a| + o, ps)
  {
    assert (a + b)[|a| + o..|a| + o + |ps|] == b[o..o + |ps|];
  }

  /** Element `k` contributes its part between the parts of the elements before and after it,
      and so right after the parts of the elements before it. */
  lemma FlatMapAt<T>(xs: seq<T>, f: (T, nat) -> seq<string>, start: nat, k: nat)
    requires k < |xs|
    ensures FlatMapIndexed(xs, f, start)
         == FlatMapIndexed(xs[..k], f, start) + f(xs[k], start + k) + FlatMapIndexed(xs[k + 1..], f, start + k + 1)
    ensures SitsAt(FlatMapIndexed(xs, f, start), |FlatMapIndexed(xs[..k], f, start)|, f(xs[k], start + k))
  {
    var before, part, after := FlatMapIndexed(xs[..k], f, start), f(xs[k], start + k), FlatMapIndexed(xs[k + 1..], f, start + k + 1);
    assert xs == xs[..k] + ([xs[k]] + xs[k + 1..]);
    FlatMapAppend(xs[..k], [xs[k]] + xs[k + 1..], f, start);
    FlatMapAppend([xs[k]], xs[k + 1..], f, start + k);
    assert FlatMapIndexed([xs[k]], f, start + k) == part by {
      assert [xs[k]][1..] == [];
    }
    assert (before + part + after)[|before|..|before| + |part|] == part;
  }

  /** The paragraphs of one question, as a function of the question and its index. */
  function Paragraphs(isProva: bool): (Question, nat) -> seq<string> {
    (q: Question, idx: nat) => QuestionParagraphs(q, idx, isProva)
  }

  /** `questions.flatMap((q, idx) => …)` with `idx` starting at `start`. */
  function Body(qs: seq<Question>, isProva: bool, start: nat): seq<string> {
    FlatMapIndexed(qs, Paragraphs(isProva), start)
  }

  lemma BodyAppend(a: seq<Question>, b: seq<Question>, isProva: bool, start: nat)
    ensures Body(a + b, isProva, start) == Body(a, isProva, start) + Body(b, isProva, start + |a|)
  {
    FlatMapAppend(a, b, Paragraphs(isProva), start);
  }

  /** The paragraphs of question `k` sit between those of the questions before and after it, so
      they start right after those of the questions before it. */
  lemma BodyAt(qs: seq<Question>, isProva: bool, k: nat)
    requires k < |qs|
    ensures Body(qs, isProva, 0)
         == Body(qs[..k], isProva, 0) + QuestionParagraphs(qs[k], k, isProva) + Body(qs[k + 1..], isProva, k + 1)
    ensures SitsAt(Body(qs, isProva, 0), |Body(qs[..k], isProva, 0)|, QuestionParagraphs(qs[k], k, isProva))
  {
    FlatMapAt(qs, Paragraphs(isProva), 0, k);
  }

  /** Where both exports state an answer, they state the same text: the DOCX answer line is
      `Resposta: ` followed by the XLSX `Resposta` cell. They differ for a `correta` outside the
      list (an empty cell against "undefined") and for an empty list of alternatives (treated as
      multiple choice by the sheet and as an open question by the document). */
  lemma ExportsAgree(q: Question)
    ensures HasAlternatives(q) && q.correta.Some? && 0 <= q.correta.value < |q.alternativas.value| ==>
      AnswerLines(q) == ["Resposta: " + XlsxRow(q).resposta]
    ensures q.alternativas.None? && HasResposta(q) ==>
      AnswerLines(q) == ["Resposta: " + XlsxRow(q).resposta]
    ensures HasAlternatives(q) && q.correta.Some? && !(0 <= q.correta.value < |q.alternativas.value|) ==>
      AnswerLines(q) == ["Resposta: undefined"] && XlsxRow(q).resposta == ""
  {
    XlsxAnswer(q);
    assert "Resposta: " + "undefined" == "Resposta: undefined";
  }

  /** The exam details the teacher enters before an export. */
  datatype ExamData = ExamData(
    escola: string, professor: string, aluno: string, turma: string,
    disciplina: string, area: string, tema: string)

  /** `${label}: ` followed by `value || ''`, which for a string is the value itself. */
  function HeaderLines(d: ExamData): seq<string> {
    [ "Escola: " + d.escola, "Professor: " + d.professor, "Aluno: " + d.aluno,
      "Turma: " + d.turma, "Disciplina: " + d.disciplina, "Área: " + d.area, "Tema: " + d.tema ]
  }

  /** After any leading paragraphs, the paragraphs of each question start right after those of
      the questions before it. */
  lemma QuestionsInPlace(pre: seq<string>, qs: seq<Question>, isProva: bool)
    ensures forall k :: 0 <= k < |qs| ==>
      SitsAt(pre + Body(qs, isProva, 0), |pre| + |Body(qs[..k], isProva, 0)|, QuestionParagraphs(qs[k], k, isProva))
  {
    forall k | 0 <= k < |qs|
      ensures SitsAt(pre + Body(qs, isProva, 0), |pre| + |Body(qs[..k], isProva, 0)|, QuestionParagraphs(qs[k], k, isProva))
    {
      BodyAt(qs, isProva, k);
      SitsShift(pre, Body(qs, isProva, 0), |Body(qs[..k], isProva, 0)|, QuestionParagraphs(qs[k], k, isProva));
    }
  }

  /** The paragraphs of the document: title, the seven header fields, an empty paragraph and the
      questions, each question's paragraphs following those of the questions before it. */
  function Document(qs: seq<Question>, d: ExamData, isProva: bool): (r: seq<string>)
    ensures |r| == 9 + |Body(qs, isProva, 0)|
    ensures r[0] == (if isProva then "Prova" else "Gabarito") && r[8] == ""
    ensures r[1..8] == HeaderLines(d) && r[9..] == Body(qs, isProva, 0)
    ensures forall k :: 0 <= k < |qs| ==>
      SitsAt(r, 9 + |Body(qs[..k], isProva, 0)|, QuestionParagraphs(qs[k], k, isProva))
  {
    var pre := [if isProva then "Prova" else "Gabarito"] + HeaderLines(d) + [""];
    QuestionsInPlace(pre, qs, isProva);
    pre + Body(qs, isProva, 0)
  }

  // ---------------------------------------------------------------------------------------------
  // File name

  predicate IsUnderscore(c: char) {
    c == '_'
  }

  /** No white space and no upper-case letter. */
  predicate Plain(s: string) {
    forall i :: 0 <= i < |s| ==> !IsSpace(s[i]) && !IsUpper(s[i])
  }

  /** `aluno?.trim() ? aluno : 'geral'`: the name as typed, or "geral" when it is blank. */
  function AlunoNome(aluno: string): (r: string)
    ensures IsBlank(aluno) ==> r == "geral"
    ensures !IsBlank(aluno) ==> r == aluno
  {
    TrimEmptyIffBlank(aluno);
    if Trim(aluno) != "" then aluno else "geral"
  }

  function Sufixo(isProva: bool): string {
    if isProva then "prova" else "gabarito"
  }

  /** The fixed tail of every file name. */
  function Tail(isProva: bool): string {
    "_questoes_" + Sufixo(isProva) + ".docx"
  }

  /** The name before the tail: the subject, topic and class, the student and the number of
      questions, joined by `_`. */
  function Head(d: ExamData, n: nat): string {
    d.disciplina + "_" + d.tema + "_" + d.turma + "_" + AlunoNome(d.aluno) + "_" + NatToString(n)
  }

  /** The template literal, before normalisation. */
  function RawFileName(d: ExamData, n: nat, isProva: bool): string {
    Head(d, n) + Tail(isProva)
  }

  /** `.replace(/\s+/g, '_').replace(/_+/g, '_').toLowerCase()`. */
  function Normalise(s: string): string {
    ToLower(Squeeze(Squeeze(s, IsSpace, '_', false), IsUnderscore, '_', false))
  }

  function FileName(d: ExamData, n: nat, isProva: bool): string {
    Normalise(RawFileName(d, n, isProva))
  }

  predicate EndsWith(s: string, suffix: string) {
    |suffix| <= |s| && s[|s| - |suffix|..] == suffix
  }

  /** `exportDOCX`: nothing without questions or without exam details, otherwise the document
      paragraphs, which open with the title, and a file name with no white space, no upper-case
      letter and no two `_` in a row, ending in the fixed tail of the export. */
  function ExportDocx(qs: seq<Question>, d: Option<ExamData>, isProva: bool): (r: Option<(seq<string>, string)>)
    ensures r.None? <==> qs == [] || d.None?
    ensures r.Some? ==> |r.value.0| > 9 && r.value.0[0] == (if isProva then "Prova" else "Gabarito")
    ensures r.Some? ==> Plain(r.value.1) && NoAdjacent(r.value.1, IsUnderscore)
    ensures r.Some? ==>
      EndsWith(r.value.1, if isProva then "_questoes_prova.docx" else "_questoes_gabarito.docx")
  {
    if qs == [] || d.None? then None
    else
      FileNameClean(d.value, |qs|, isProva);
      FileNameEnds(d.value, |qs|, isProva);
      BodyAt(qs, isProva, 0);
      Some((Document(qs, d.value, isProva), FileName(d.value, |qs|, isProva)))
  }

  /** A normalised name has no white space, no upper-case letter and no two `_` in a row. */
  lemma NormalisedShape(s: string)
    ensures Plain(Normalise(s)) && NoAdjacent(Normalise(s), IsUnderscore)
  {
    var s1 := Squeeze(s, IsSpace, '_', false);
    var s2 := Squeeze(s1, IsUnderscore, '_', false);
    SqueezeChars(s, IsSpace, '_', false);
    SqueezeChars(s1, IsUnderscore, '_', false);
    SqueezeNoAdjacent(s1, IsUnderscore, '_', false);
    forall i | 0 <= i < |s2| ensures !IsSpace(s2[i]) {
      assert s2[i] in s2;
    }
  }

  /** A tail that starts with `_`, has no white space, no upper-case letter and no two `_` in a
      row comes through normalisation unchanged, after a head that ends in a digit. */
  lemma NormaliseTail(h: string, t: string)
    requires h != [] && '0' <= h[|h| - 1] <= '9'
    requires t != [] && t[0] == '_'
    requires Plain(t) && NoAdjacent(t, IsUnderscore)
    ensures exists p :: Normalise(h + t) == p + t
  {
    var a := Squeeze(h, IsSpace, '_', false);
    SqueezeAppend(h, t, IsSpace, '_', false);
    SqueezeIdentity(t, IsSpace, '_', RunStateAfter(h, IsSpace, false));
    assert Squeeze(h + t, IsSpace, '_', false) == a + t;
    SqueezeEndsOutsideRun(h, IsSpace, '_', false);
    var b := Squeeze(a, IsUnderscore, '_', false);
    SqueezeAppend(a, t, IsUnderscore, '_', false);
    assert RunStateAfter(a, IsUnderscore, false) == false;
    SqueezeIdentity(t, IsUnderscore, '_', false);
    assert Squeeze(a + t, IsUnderscore, '_', false) == b + t;
    ToLowerAppend(b, t);
    assert ToLower(t) == t;
    assert Normalise(h + t) == ToLower(b) + t;
  }

  /** The tail a file name ends in, written out. */
  lemma TailLiterals()
    ensures Tail(true) == "_questoes_prova.docx" && Tail(false) == "_questoes_gabarito.docx"
  {
  }

  lemma ProvaTailShape()
    ensures Plain("_questoes_prova.docx") && NoAdjacent("_questoes_prova.docx", IsUnderscore)
  {
  }

  lemma GabaritoTailShape()
    ensures Plain("_questoes_gabarito.docx") && NoAdjacent("_questoes_gabarito.docx", IsUnderscore)
  {
  }

  /** The file name has no white space, no upper-case letter and no two `_` in a row. */
  lemma FileNameClean(d: ExamData, n: nat, isProva: bool)
    ensures var f := FileName(d, n, isProva); Plain(f) && NoAdjacent(f, IsUnderscore)
  {
    NormalisedShape(RawFileName(d, n, isProva));
  }

  /** The file name ends in `_questoes_prova.docx` for the exam and `_questoes_gabarito.docx` for
      the answer key. */
  lemma FileNameEnds(d: ExamData, n: nat, isProva: bool)
    ensures EndsWith(FileName(d, n, isProva), if isProva then "_questoes_prova.docx" else "_questoes_gabarito.docx")
  {
    var h, t := Head(d, n), Tail(isProva);
    var digits := NatToString(n);
    assert h == (d.disciplina + "_" + d.tema + "_" + d.turma + "_" + AlunoNome(d.aluno) + "_") + digits;
    assert h[|h| - 1] == digits[|digits| - 1];
    TailLiterals();
    if isProva { ProvaTailShape(); } else { GabaritoTailShape(); }
    NormaliseTail(h, t);
    var p :| Normalise(h + t) == p + t;
    assert (p + t)[|p + t| - |t|..] == t;
  }
}
