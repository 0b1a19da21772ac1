/** The prompt the generation route sends to the language model: the two tier-guidance lookups and
    the two prompt templates (open-response and multiple choice), filled in from the request body. */
module Prompt {
  import opened Text

  /** A value of the request body, as far as the templates can tell values apart: a missing
      field, or a JSON `null`, boolean, string or integer. */
  datatype JsValue = Undefined | Null | Bool(b: bool) | Str(s: string) | Num(n: int)

  /** The parsed request body: a JSON object. */
  type Body = map<string, JsValue>

  /** `body.key`: `undefined` when the key is absent. */
  function Field(body: Body, key: string): JsValue {
    if key in body then body[key] else Undefined
  }

  /** What `${v}` prints inside a template literal. */
  function Render(v: JsValue): string {
    match v
    case Undefined => "undefined"
    case Null => "null"
    case Bool(b) => if b then "true" else "false"
    case Str(s) => s
    case Num(n) => IntToString(n)
  }

  /** JavaScript truthiness: `undefined`, `null`, `false`, `''` and `0` are falsy. */
  predicate Truthy(v: JsValue) {
    match v
    case Undefined => false
    case Null => false
    case Bool(b) => b
    case Str(s) => s != ""
    case Num(n) => n != 0
  }

  /** `${body.numAlternativas || 4}`. */
  function AlternativesCount(v: JsValue): string {
    if Truthy(v) then Render(v) else "4"
  }

  // The long texts below are written as concatenations of short literals, which the verifier
  // handles far more cheaply than one long literal.

  /** `getNivelQuestaoPrompt`'s `switch`: tier name and guidance text, in the order of the cases. */
  const QuestionLevels: seq<(string, string)> := [
    ("Nível Fundamental I " + "(até 11 anos)",
     "As questões devem " + "ser adequadas para " + "crianças até 11 " + "anos, com linguagem "
       + "simples e exemplos " + "do cotidiano " + "escolar ou familiar."),
    ("Nível Fundamental " + "II (até 15 anos)",
     "As questões devem " + "ser adequadas para " + "adolescentes até 15 " + "anos, com linguagem "
       + "acessível e " + "exemplos do " + "cotidiano escolar, " + "podendo abordar "
       + "temas um pouco mais " + "complexos."),
    ("Nível Médio (Ensino " + "Médio)",
     "As questões devem " + "ser adequadas para " + "estudantes do " + "Ensino Médio, com "
       + "linguagem " + "apropriada para " + "jovens de 15 a 18 " + "anos, podendo "
       + "abordar temas mais " + "aprofundados e " + "críticos."),
    ("Nível Avançado " + "(Ensino Superior)",
     "As questões devem " + "ser adequadas para " + "estudantes " + "universitários, com "
       + "linguagem técnica e " + "abordagem " + "aprofundada dos " + "temas.")]

  /** `getNivelExplicacaoPrompt`'s `switch`: tier name and guidance text, in the order of the cases. */
  const ExplanationLevels: seq<(string, string)> := [
    ("Direta e curta.",
     "A explicação deve " + "ser direta e muito " + "curta, apenas o " + "essencial para "
       + "justificar a " + "resposta."),
    ("Explicação curta.",
     "A explicação deve " + "ser curta, clara e " + "objetiva, com uma " + "frase simples."),
    ("Explicação " + "intermediária.",
     "A explicação deve " + "ser intermediária, " + "com detalhes " + "suficientes para "
       + "justificar a " + "resposta, mas sem " + "se alongar demais."),
    ("Explicação detalhada.",
     "A explicação deve " + "ser detalhada, com " + "justificativas " + "completas, exemplos "
       + "e aprofundamento no " + "tema.")]

  /** The names a lookup table recognises. */
  function Names(table: seq<(string, string)>): (names: seq<string>)
    ensures |names| == |table|
    ensures forall i :: 0 <= i < |table| ==> names[i] == table[i].0
  {
    if table == [] then [] else [table[0].0] + Names(table[1..])
  }

  /** A `switch` on a string with strict equality: the text of the first case whose name is the
      value, or the `default` `''`. */
  function Lookup(table: seq<(string, string)>, nivel: JsValue): string {
    if table == [] then ""
    else if nivel == Str(table[0].0) then table[0].1
    else Lookup(table[1..], nivel)
  }

  /** When every case has a non-empty text, a lookup is `''` exactly for the values that are not
      one of the case names. */
  lemma {:induction false} LookupEmptyIff(table: seq<(string, string)>, nivel: JsValue)
    requires forall i :: 0 <= i < |table| ==> table[i].1 != ""
    ensures Lookup(table, nivel) == "" <==> !(nivel.Str? && nivel.s in Names(table))
  {
    if table != [] {
      LookupEmptyIff(table[1..], nivel);
      assert Names(table) == [table[0].0] + Names(table[1..]);
    }
  }

  /** `getNivelQuestaoPrompt`. */
  function NivelQuestaoPrompt(nivel: JsValue): string {
    Lookup(QuestionLevels, nivel)
  }

  /** `getNivelExplicacaoPrompt`. */
  function NivelExplicacaoPrompt(nivel: JsValue): string {
    Lookup(ExplanationLevels, nivel)
  }

  /** A tier lookup gives guidance text exactly for the four known names, and `''` for anything
      else (another string, a number, a missing field). */
  lemma TierLookups(nivel: JsValue)
    ensures NivelQuestaoPrompt(nivel) == "" <==> !(nivel.Str? && nivel.s in Names(QuestionLevels))
    ensures NivelExplicacaoPrompt(nivel) == "" <==> !(nivel.Str? && nivel.s in Names(ExplanationLevels))
  {
    assert forall i :: 0 <= i < |QuestionLevels| ==> QuestionLevels[i].1 != "" by {
      assert |QuestionLevels[0].1| > 0 && |QuestionLevels[1].1| > 0;
      assert |QuestionLevels[2].1| > 0 && |QuestionLevels[3].1| > 0;
    }
    assert forall i :: 0 <= i < |ExplanationLevels| ==> ExplanationLevels[i].1 != "" by {
      assert |ExplanationLevels[0].1| > 0 && |ExplanationLevels[1].1| > 0;
      assert |ExplanationLevels[2].1| > 0 && |ExplanationLevels[3].1| > 0;
    }
    LookupEmptyIff(QuestionLevels, nivel);
    LookupEmptyIff(ExplanationLevels, nivel);
  }

  /** The request is for open-response questions: `body.numAlternativas === 'Aberta'`. */
  predicate IsOpen(body: Body) {
    Field(body, "numAlternativas") == Str("Aberta")
  }

  // The fixed text of the two templates, between the interpolated values.
  const GenerateText := "\nGere "
  const OpenTopicText := " questões abertas " + "sobre o tema \""
  const ChoiceTopicText := " questões de " + "múltipla escolha " + "sobre o tema \""
  const AreaText := "\" na área \""
  const OpenShapeText := "\".\nCada questão " + "deve conter:\n1. O " + "enunciado da "
    + "questão\n2. A " + "resposta correta\n3. " + "Uma explicação da " + "resposta\n"
  const ChoiceCountText := "\".\nCada questão " + "deve ter "
  const ChoiceRulesText :=
    " alternativas, " + "apenas uma correta.\n"
    + "IMPORTANTE: " + "Distribua as " + "respostas corretas " + "de forma aleatória " + "entre as "
      + "alternativas.\n"
    + "Evite colocar " + "muitas respostas " + "corretas na mesma " + "posição.\n"
    + "Escreva as " + "alternativas como " + "uma lista de " + "strings, sem "
      + "letras, números ou " + "símbolos antes do " + "texto (apenas o " + "texto da "
      + "alternativa).\n"
    + "Indique o índice da " + "alternativa correta " + "após o " + "embaralhamento, "
      + "usando o campo " + "\"correta\" (de 0 a " + "3).\n"
  const CriterionText := "\nA explicação deve " + "seguir este " + "critério: "
  const OpenFormatText :=
    "\n"
    + "Responda apenas com " + "o JSON, sem " + "explicações, sem " + "comentários, sem "
      + "texto antes ou " + "depois.\n"
    + "Exemplo de formato " + "esperado:\n"
    + "[\n"
    + "  {\n"
    + "    \"enunciado\": " + "\"Pergunta " + "aberta...\",\n"
    + "    \"resposta\": " + "\"Resposta correta " + "da pergunta...\",\n"
    + "    \"explicacao\": " + "\"Explicação " + "detalhada da " + "resposta...\"\n"
    + "  }\n"
    + "]\n"
  const ChoiceFormatText :=
    "\n"
    + "Responda apenas com " + "o JSON, sem " + "explicações, sem " + "comentários, sem "
      + "texto antes ou " + "depois.\n"
    + "Exemplo de formato " + "esperado:\n"
    + "[\n"
    + "  {\n"
    + "    \"enunciado\": " + "\"Qual é a capital " + "da França?\",\n"
    + "    \"alternativas\": " + "[\"Paris\", " + "\"Londres\", " + "\"Berlim\", \"Roma\"],\n"
    + "    \"correta\": 0,\n"
    + "    \"explicacao\": " + "\"Paris é a capital " + "da França.\"\n"
    + "  }\n"
    + "]\n"

  /** The open-response template with its interpolated values. */
  function OpenPrompt(numQuestoes: string, tema: string, area: string, nivelQuestao: string, nivelExplicacao: string): string {
    GenerateText + numQuestoes + OpenTopicText + tema + AreaText + area + OpenShapeText
    + nivelQuestao + CriterionText + nivelExplicacao + OpenFormatText
  }

  /** The multiple-choice template with its interpolated values. */
  function ChoicePrompt(numQuestoes: string, tema: string, area: string, count: string, nivelQuestao: string, nivelExplicacao: string): string {
    GenerateText + numQuestoes + ChoiceTopicText + tema + AreaText + area + ChoiceCountText
    + count + ChoiceRulesText + nivelQuestao + CriterionText + nivelExplicacao + ChoiceFormatText
  }

  /** The prompt template for the request, given the two tier-guidance texts. */
  function ComposePrompt(body: Body, nivelQuestao: string, nivelExplicacao: string): string {
    var numQuestoes := Render(Field(body, "numQuestoes"));
    var tema := Render(Field(body, "tema"));
    var area := Render(Field(body, "area"));
    if IsOpen(body) then
      OpenPrompt(numQuestoes, tema, area, nivelQuestao, nivelExplicacao)
    else
      ChoicePrompt(numQuestoes, tema, area, AlternativesCount(Field(body, "numAlternativas")), nivelQuestao, nivelExplicacao)
  }

  /** The prompt every attempt of the route sends: the template filled with the tier texts looked
      up once from `body.nivelQuestao` and `body.nivelExplicacao`. */
  function RoutePrompt(body: Body): string {
    ComposePrompt(body,
      NivelQuestaoPrompt(Field(body, "nivelQuestao")),
      NivelExplicacaoPrompt(Field(body, "nivelExplicacao")))
  }

  /** The body fields the prompt reads. */
  const PromptFields: set<string> :=
    {"numQuestoes", "tema", "area", "numAlternativas", "nivelQuestao", "nivelExplicacao"}

  /** Two bodies that agree on the fields the prompt reads get the same prompt: every other field
      of the request (such as the `quantidade` and `alternativas` the dashboard sends) is ignored. */
  lemma PromptReadsOnlyItsFields(b1: Body, b2: Body)
    requires forall key :: key in PromptFields ==> Field(b1, key) == Field(b2, key)
    ensures RoutePrompt(b1) == RoutePrompt(b2)
  {
    assert Field(b1, "numQuestoes") == Field(b2, "numQuestoes");
    assert Field(b1, "tema") == Field(b2, "tema");
    assert Field(b1, "area") == Field(b2, "area");
    assert Field(b1, "numAlternativas") == Field(b2, "numAlternativas");
    assert Field(b1, "nivelQuestao") == Field(b2, "nivelQuestao");
    assert Field(b1, "nivelExplicacao") == Field(b2, "nivelExplicacao");
  }

  /** Setting a field the prompt does not read leaves the prompt as it was. */
  lemma OtherFieldsIgnored(body: Body, key: string, v: JsValue)
    requires key !in PromptFields
    ensures RoutePrompt(body[key := v]) == RoutePrompt(body)
  {
    PromptReadsOnlyItsFields(body[key := v], body);
  }

  /** A missing (or otherwise falsy) `numAlternativas` asks for exactly what `4` asks for. */
  lemma MissingCountIsFour(body: Body)
    requires !Truthy(Field(body, "numAlternativas"))
    ensures RoutePrompt(body) == RoutePrompt(body["numAlternativas" := Num(4)])
  {
    var b4 := body["numAlternativas" := Num(4)];
    assert NatToString(4) == [DigitChar(4)] == "4";
    assert AlternativesCount(Field(b4, "numAlternativas")) == "4";
    assert !IsOpen(body) && !IsOpen(b4);
    assert Field(b4, "numQuestoes") == Field(body, "numQuestoes");
    assert Field(b4, "tema") == Field(body, "tema");
    assert Field(b4, "area") == Field(body, "area");
    assert Field(b4, "nivelQuestao") == Field(body, "nivelQuestao");
    assert Field(b4, "nivelExplicacao") == Field(body, "nivelExplicacao");
  }

}
