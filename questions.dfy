/** The question record shared by the dashboard and the drag-and-drop board, the partial record
    an edit form holds, and the object spread `{ ...question, ...edit }` that applies an edit. */
module Questions {
  import opened Wrappers

  /** A question as the generation service returns it and the editor stores it: multiple choice
      when `alternativas` and a numeric `correta` are present, open-response otherwise. */
  datatype Question = Question(
    enunciado: string,
    alternativas: Option<seq<string>>,
    correta: Option<int>,
    explicacao: string,
    resposta: Option<string>)

  /** The fields an edit form has filled in: a `Some` field is present in the edit object. */
  datatype EditData = EditData(
    enunciado: Option<string>,
    alternativas: Option<seq<string>>,
    correta: Option<int>,
    explicacao: Option<string>,
    resposta: Option<string>)

  /** The empty edit object `{}`. */
  const NoEdits := EditData(None, None, None, None, None)

  function Override<T>(edited: Option<T>, current: T): T {
    if edited.Some? then edited.value else current
  }

  function OverrideOptional<T>(edited: Option<T>, current: Option<T>): Option<T> {
    if edited.Some? then edited else current
  }

  /** `{ ...q, ...e }`: each field present in the edit replaces the question's field. */
  function Merge(q: Question, e: EditData): Question {
    Question(
      Override(e.enunciado, q.enunciado),
      OverrideOptional(e.alternativas, q.alternativas),
      OverrideOptional(e.correta, q.correta),
      Override(e.explicacao, q.explicacao),
      OverrideOptional(e.resposta, q.resposta))
  }

  /** `{ ...q }`: the edit object `handleEdit` starts from, holding every field the question has. */
  function EditOf(q: Question): EditData {
    EditData(Some(q.enunciado), q.alternativas, q.correta, Some(q.explicacao), q.resposta)
  }

  /** Merging the empty edit, or an untouched copy of the question itself, gives the question back;
      merging the same edit twice is the same as merging it once. */
  lemma MergeLaws(q: Question, e: EditData)
    ensures Merge(q, NoEdits) == q
    ensures Merge(q, EditOf(q)) == q
    ensures Merge(Merge(q, e), e) == Merge(q, e)
  {
  }
}
