/** The question list of the dashboard page and the operations its buttons run on it: moving a
    question up or down, opening it in the editor, saving the edit (re-shuffling the alternatives
    when the edit holds them), cancelling the edit and deleting a question after confirmation. */
module Dashboard {
  import opened Wrappers
  import opened Questions
  import opened ArrayOps
  import opened Shuffle

  /** The question a save stores at the edited position: the spread of the edit over the old
      question, shuffled again when the edit holds alternatives. */
  function Saved(q: Question, e: EditData, draw: nat -> nat): Question
    requires ValidDraws(draw)
  {
    if e.alternativas.Some? then Shuffled(Merge(q, e), draw) else Merge(q, e)
  }

  /** The state of the page that these operations read and write. */
  class Page {
    var questions: seq<Question>
    var editingIdx: Option<int>
    var editData: EditData

    /** The page before any quiz is generated: no questions and no edit in progress. */
    constructor ()
      ensures questions == [] && editingIdx == None && editData == NoEdits
    {
      questions := [];
      editingIdx := None;
      editData := NoEdits;
    }

    /** `moveQuestion(from, to)`: a destination outside the list changes nothing; otherwise the
        question at `from` is moved to `to` and the others keep their order. */
    method MoveQuestion(from: nat, to: int)
      requires from < |questions|
      modifies this
      ensures to < 0 || to >= |old(questions)| ==> questions == old(questions)
      ensures 0 <= to < |old(questions)| ==> questions == Reorder(old(questions), from, to)
      ensures |questions| == |old(questions)| && multiset(questions) == multiset(old(questions))
      ensures 0 <= to < |questions| ==>
        questions[to] == old(questions)[from] && RemoveAt(questions, to) == RemoveAt(old(questions), from)
      ensures editingIdx == old(editingIdx) && editData == old(editData)
    {
      if to < 0 || to >= |questions| {
        return;
      }
      var updated := questions;
      var removed := updated[from];
      updated := RemoveAt(updated, from);
      updated := InsertAt(updated, to, removed);
      ReorderPermutes(questions, from, to);
      ReorderPlaces(questions, from, to);
      questions := updated;
    }

    /** `handleEdit(idx)`: the editor opens on `idx` with a copy of every field of the question
        (the spread of `questions[idx]`, which is `{}` for an index outside the list). */
    method HandleEdit(idx: int)
      modifies this
      ensures editingIdx == Some(idx)
      ensures editData == if 0 <= idx < |questions| then EditOf(questions[idx]) else NoEdits
      ensures questions == old(questions)
    {
      editingIdx := Some(idx);
      if 0 <= idx < |questions| {
        editData := EditOf(questions[idx]);
      } else {
        editData := NoEdits;
      }
    }

    /** `handleSave(idx)`: only position `idx` changes, to the saved question, and the editor
        closes. `draw` supplies the random draws of the re-shuffle. */
    method HandleSave(idx: nat, draw: nat -> nat)
      requires idx < |questions| && ValidDraws(draw)
      modifies this
      ensures questions == old(questions)[idx := Saved(old(questions)[idx], old(editData), draw)]
      ensures editingIdx == None && editData == NoEdits
    {
      var updated := questions;
      if editData.alternativas.Some? {
        var questaoAtualizada := Embaralhar(Merge(updated[idx], editData), draw);
        updated := updated[idx := questaoAtualizada];
      } else {
        updated := updated[idx := Merge(updated[idx], editData)];
      }
      questions := updated;
      editingIdx := None;
      editData := NoEdits;
    }

    /** `handleCancelEdit`: the editor closes and the list stays as it was. */
    method HandleCancelEdit()
      modifies this
      ensures editingIdx == None && editData == NoEdits && questions == old(questions)
    {
      editingIdx := None;
      editData := NoEdits;
    }

    /** `handleDelete(idx)`; `confirmed` is the answer to `window.confirm`. */
    method HandleDelete(idx: int, confirmed: bool)
      modifies this
      ensures questions == if confirmed then WithoutIndex(old(questions), idx) else old(questions)
      ensures editingIdx == old(editingIdx) && editData == old(editData)
    {
      if confirmed {
        questions := WithoutIndex(questions, idx);
      }
    }
  }

  /** A saved question keeps the edited statement and explanation; when the edit holds
      alternatives, the stored alternatives are those of the edit rearranged, and the stored
      `correta` marks the same text the edit's `correta` (or the question's) marked. */
  lemma SavedQuestion(q: Question, e: EditData, draw: nat -> nat)
    requires ValidDraws(draw)
    ensures var r, m := Saved(q, e, draw), Merge(q, e);
      && r.enunciado == m.enunciado && r.explicacao == m.explicacao && r.resposta == m.resposta
      && (e.alternativas.None? ==> r == m)
      && (e.alternativas.Some? && m.correta.Some? ==>
            var alts, c := e.alternativas.value, m.correta.value;
            && r.alternativas.Some? && multiset(r.alternativas.value) == multiset(alts)
            && r.correta.Some?
            && (0 <= c < |alts| ==> 0 <= r.correta.value < |alts| && r.alternativas.value[r.correta.value] == alts[c])
            && (!(0 <= c < |alts|) ==> r.correta.value == -1))
      && (e.alternativas.Some? && m.correta.None? ==> r == m)
  {
    if e.alternativas.Some? && Merge(q, e).correta.Some? {
      ShuffleKeepsAnswer(Merge(q, e), draw);
    }
  }

  /** Opening the editor and saving without typing anything still re-shuffles a multiple-choice
      question, because the copy the editor starts from holds the alternatives; an open question
      is stored unchanged. */
  lemma UntouchedSave(q: Question, draw: nat -> nat)
    requires ValidDraws(draw)
    ensures q.alternativas.Some? ==> Saved(q, EditOf(q), draw) == Shuffled(q, draw)
    ensures q.alternativas.None? ==> Saved(q, EditOf(q), draw) == q
  {
    MergeLaws(q, NoEdits);
  }
}
