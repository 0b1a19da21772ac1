/** The drag-and-drop question board: the same list operations as the dashboard, except that a
    drop position is not checked against the list and a save never re-shuffles. `questions` stands
    for the list the board receives from its parent and hands back through `setQuestions`. */
module Board {
  import opened Wrappers
  import opened Questions
  import opened ArrayOps

  class QuestionsBoard {
    var questions: seq<Question>
    var editingIdx: Option<int>
    var editData: EditData

    /** A board showing `questions`, with no edit in progress. */
    constructor (questions: seq<Question>)
      ensures this.questions == questions && editingIdx == None && editData == NoEdits
    {
      this.questions := questions;
      editingIdx := None;
      editData := NoEdits;
    }

    /** `onDragEnd`: a drop outside the list (no destination) changes nothing; otherwise the
        dragged card moves to the destination index through `reorder`, which copies the list,
        splices out the card at the source and splices it back in at the destination, whatever
        the destination is. */
    method OnDragEnd(source: nat, destination: Option<int>)
      requires source < |questions|
      modifies this
      ensures destination.None? ==> questions == old(questions)
      ensures destination.Some? ==> questions == Reorder(old(questions), source, destination.value)
      ensures |questions| == |old(questions)| && multiset(questions) == multiset(old(questions))
      ensures destination.Some? && 0 <= destination.value < |questions| ==>
        questions[destination.value] == old(questions)[source]
        && RemoveAt(questions, destination.value) == RemoveAt(old(questions), source)
      ensures destination == Some(source) ==> questions == old(questions)
      ensures editingIdx == old(editingIdx) && editData == old(editData)
    {
      if destination.None? {
        return;
      }
      var endIndex := destination.value;
      ReorderPermutes(questions, source, endIndex);
      if 0 <= endIndex < |questions| {
        ReorderPlaces(questions, source, endIndex);
      }
      if endIndex == source {
        ReorderSame(questions, source);
      }
      questions := Reorder(questions, source, endIndex);
    }

    /** `handleEdit(idx)`: the editor opens on `idx` with a copy of the question's fields. */
    method HandleEdit(idx: int)
      modifies this
      ensures editingIdx == Some(idx)
      ensures editData == if 0 <= idx < |questions| then EditOf(questions[idx]) else NoEdits
      ensures questions == old(questions)
    {
      editingIdx := Some(idx);
      if 0 <= idx < |questions| {
        editData := EditOf(questions[idx]);
      } else {
        editData := NoEdits;
      }
    }

    /** `handleSave(idx)`: only position `idx` changes, to the spread of the edit over it; the
        alternatives are stored as the edit has them, without a re-shuffle. */
    method HandleSave(idx: nat)
      requires idx < |questions|
      modifies this
      ensures questions == old(questions)[idx := Merge(old(questions)[idx], old(editData))]
      ensures editingIdx == None && editData == NoEdits
    {
      var updated := questions;
      updated := updated[idx := Merge(updated[idx], editData)];
      questions := updated;
      editingIdx := None;
      editData := NoEdits;
    }

    /** `handleDelete(idx)`; `confirmed` is the answer to `window.confirm`. */
    method HandleDelete(idx: int, confirmed: bool)
      modifies this
      ensures questions == if confirmed then WithoutIndex(old(questions), idx) else old(questions)
      ensures editingIdx == old(editingIdx) && editData == old(editData)
    {
      if confirmed {
        questions := WithoutIndex(questions, idx);
      }
    }
  }

  /** A board save stores exactly what the edit says: the edited alternatives in the order the
      edit has them and the edited `correta`, with the question's own value for every field the
      edit leaves out. Saving an untouched copy changes nothing. */
  lemma BoardSaveKeepsEdit(q: Question, e: EditData)
    ensures var r := Merge(q, e);
      && (e.alternativas.Some? ==> r.alternativas == e.alternativas)
      && (e.correta.Some? ==> r.correta == e.correta)
      && (e.alternativas.None? ==> r.alternativas == q.alternativas)
      && (e.correta.None? ==> r.correta == q.correta)
    ensures Merge(q, EditOf(q)) == q
  {
    MergeLaws(q, e);
  }
}
