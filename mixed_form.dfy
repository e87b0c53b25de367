/** The other variant of the assignment editor (app/mixed/page.tsx): the list
    starts with one question of each kind, new questions are spliced in,
    deletion goes through a confirmation popup, and each input writes straight
    into its slot of the question it belongs to. */
module Mixed {

  import opened Wrappers
  import opened Payload
  import ListOps

  /** A question of this page. An essay's `answer` is optional in the type the
      page's initial list gives its entries, hence the `|| ''` on submit. */
  datatype Question =
    | Mcq(questionText: string, answers: seq<string>, correct: seq<bool>)
    | Essay(questionText: string, answer: Option<string>)
  {
    function Kind(): Kind {
      if Mcq? then McqKind else EssayKind
    }
  }

  /** A fresh question of the given kind: empty text, and for a
      multiple-choice question four empty answers, none marked correct. */
  function NewQuestion(kind: Kind): (q: Question)
    ensures q.Kind() == kind && q.questionText == ""
    ensures q.Mcq? ==> q.answers == ["", "", "", ""] && q.correct == [false, false, false, false]
    ensures q.Essay? ==> q.answer == Some("")
  {
    match kind
    case McqKind => Mcq("", ["", "", "", ""], [false, false, false, false])
    case EssayKind => Essay("", Some(""))
  }

  /** Every multiple-choice question has four answers and four flags, and
      every essay has an answer. */
  predicate Shaped(qs: seq<Question>)
  {
    forall q :: q in qs ==>
      (q.Mcq? ==> |q.answers| == 4 && |q.correct| == 4) && (q.Essay? ==> q.answer.Some?)
  }

  /** `prev.filter((_, qIndex) => qIndex !== deleteIndex)`: with no pending
      index every position differs from `null`, so everything is kept. */
  function RemovePending(qs: seq<Question>, pending: Option<int>): seq<Question>
  {
    match pending
    case None => qs
    case Some(index) => ListOps.FilterOutIndex(qs, index)
  }

  /** Deleting removes exactly the pending entry when it is in range, and
      leaves the list alone when nothing is pending or the index is stale. */
  lemma RemovePendingEffect(qs: seq<Question>, pending: Option<int>)
    ensures pending.None? ==> RemovePending(qs, pending) == qs
    ensures pending.Some? && 0 <= pending.value < |qs| ==>
              RemovePending(qs, pending) == qs[..pending.value] + qs[pending.value + 1..]
    ensures pending.Some? && !(0 <= pending.value < |qs|) ==> RemovePending(qs, pending) == qs
    ensures Shaped(qs) ==> Shaped(RemovePending(qs, pending))
  {
    if pending.Some? {
      ListOps.FilterOutIndexRemovesOne(qs, pending.value);
      ListOps.FilterOutIndexSubset(qs, pending.value);
    }
  }

  /** `q.answer || ''`. */
  function AnswerOrEmpty(answer: Option<string>): (r: string)
    ensures answer.None? ==> r == ""
    ensures answer.Some? ==> r == answer.value
  {
    match answer
    case None => ""
    case Some(a) => if a == "" then "" else a
  }

  function FormatQuestion(q: Question): FormattedQuestion
  {
    match q
    case Mcq(text, answers, correct) => McqItem(text, ZipOptions(answers, correct))
    case Essay(text, answer) => EssayItem(text, AnswerOrEmpty(answer))
  }

  /** `formattedQuestions`: as many as in the list, in the same order, each
      with its kind and text; a multiple-choice question's options zip its
      answers with its flags, an essay's answer defaults to the empty string. */
  function FormatQuestions(qs: seq<Question>): (r: seq<FormattedQuestion>)
    ensures |r| == |qs|
    ensures forall i :: 0 <= i < |qs| ==>
              r[i].Kind() == qs[i].Kind() && r[i].questionText == qs[i].questionText
    ensures forall i :: 0 <= i < |qs| && qs[i].Mcq? ==>
              r[i].McqItem? && r[i].options == ZipOptions(qs[i].answers, qs[i].correct)
    ensures forall i :: 0 <= i < |qs| && qs[i].Essay? ==>
              r[i].EssayItem? && r[i].answer == qs[i].answer.GetOr("")
  {
    seq(|qs|, i requires 0 <= i < |qs| => FormatQuestion(qs[i]))
  }

  /** On a shaped list the body loses nothing: option k of question i is
      (answers[k], correct[k]) and an essay carries the answer it holds. */
  lemma FormatShapedQuestions(qs: seq<Question>)
    requires Shaped(qs)
    ensures forall i, k :: 0 <= i < |qs| && qs[i].Mcq? && 0 <= k < 4 ==>
              FormatQuestions(qs)[i].options[k] == OptionEntry(qs[i].answers[k], Some(qs[i].correct[k]))
    ensures forall i :: 0 <= i < |qs| && qs[i].Essay? ==>
              Some(FormatQuestions(qs)[i].answer) == qs[i].answer
  {
    forall i | 0 <= i < |qs| && qs[i].Mcq?
      ensures forall k :: 0 <= k < 4 ==>
                FormatQuestions(qs)[i].options[k] == OptionEntry(qs[i].answers[k], Some(qs[i].correct[k]))
    {
      assert qs[i] in qs;
      ZipOptionsRoundTrip(qs[i].answers, qs[i].correct);
    }
    forall i | 0 <= i < |qs| && qs[i].Essay?
      ensures Some(FormatQuestions(qs)[i].answer) == qs[i].answer
    {
      assert qs[i] in qs;
    }
  }

  /** The body `handleSubmit` assembles. */
  datatype MixedPayload = MixedPayload(title: string, description: string, questions: seq<FormattedQuestion>)

  class MixedForm {
    var questions: seq<Question>
    var title: string
    var description: string
    var isSubmitting: bool
    var showDeletePopup: bool
    var deleteIndex: Option<int>

    ghost predicate Valid()
      reads this
    {
      Shaped(questions)
    }

    /** The page opens with one empty multiple-choice question followed by
        one empty essay, the same two questions `NewQuestion` builds. */
    constructor ()
      ensures Valid()
      ensures questions == [Mcq("", ["", "", "", ""], [false, false, false, false]), Essay("", Some(""))]
      ensures title == "" && description == "" && !isSubmitting
      ensures !showDeletePopup && deleteIndex == None
    {
      questions := [Mcq("", ["", "", "", ""], [false, false, false, false]), Essay("", Some(""))];
      title := "";
      description := "";
      isSubmitting := false;
      showDeletePopup := false;
      deleteIndex := None;
    }

    /** Appends a fresh question, or splices it in right after `afterIndex`. */
    method AddQuestion(kind: Kind, afterIndex: Option<int>)
      requires Valid()
      modifies this`questions
      ensures Valid()
      ensures afterIndex.None? ==> questions == old(questions) + [NewQuestion(kind)]
      ensures afterIndex.Some? ==>
                questions == ListOps.SpliceInsert(old(questions), afterIndex.value + 1, NewQuestion(kind))
      ensures afterIndex.Some? && 0 <= afterIndex.value < |old(questions)| ==>
                && |questions| == |old(questions)| + 1
                && questions[afterIndex.value + 1] == NewQuestion(kind)
                && questions[..afterIndex.value + 1] == old(questions)[..afterIndex.value + 1]
                && questions[afterIndex.value + 2..] == old(questions)[afterIndex.value + 1..]
    {
      var q := NewQuestion(kind);
      if afterIndex.None? {
        questions := questions + [q];
      } else {
        var updated := ListOps.SpliceInsert(questions, afterIndex.value + 1, q);
        assert forall x :: x in updated ==> x == q || x in questions by {
          assert multiset(updated) == multiset(questions) + multiset{q};
          forall x | x in updated ensures x == q || x in questions {
            assert x in multiset(updated);
          }
        }
        questions := updated;
      }
    }

    /** Remembers which question to delete and opens the popup. */
    method ConfirmDeleteQuestion(index: int)
      modifies this`deleteIndex, this`showDeletePopup
      ensures deleteIndex == Some(index) && showDeletePopup
    {
      deleteIndex := Some(index);
      showDeletePopup := true;
    }

    /** The popup's Delete button: removes the pending question, closes the
        popup and clears the pending index. */
    method DeleteQuestion()
      requires Valid()
      modifies this`questions, this`deleteIndex, this`showDeletePopup
      ensures Valid()
      ensures questions == RemovePending(old(questions), old(deleteIndex))
      ensures !showDeletePopup && deleteIndex == None
    {
      RemovePendingEffect(questions, deleteIndex);
      questions := RemovePending(questions, deleteIndex);
      showDeletePopup := false;
      deleteIndex := None;
    }

    /** The popup's Cancel button: only closes the popup; the pending index
        stays as it was. */
    method CancelDelete()
      modifies this`showDeletePopup
      ensures !showDeletePopup
    {
      showDeletePopup := false;
    }

    /** `updated[qIndex].questionText = value` (both kinds of question). */
    method EditQuestionText(qIndex: int, text: string)
      requires Valid() && 0 <= qIndex < |questions|
      modifies this`questions
      ensures Valid()
      ensures |questions| == |old(questions)|
      ensures forall j :: 0 <= j < |questions| && j != qIndex ==> questions[j] == old(questions)[j]
      ensures questions[qIndex] == old(questions)[qIndex].(questionText := text)
    {
      var q := questions[qIndex];
      assert q in questions;
      questions := questions[qIndex := q.(questionText := text)];
    }

    /** `updated[qIndex].answers[aIndex] = value`. */
    method EditOptionText(qIndex: int, aIndex: int, text: string)
      requires Valid() && 0 <= qIndex < |questions| && questions[qIndex].Mcq?
      requires 0 <= aIndex < |questions[qIndex].answers|
      modifies this`questions
      ensures Valid()
      ensures |questions| == |old(questions)|
      ensures forall j :: 0 <= j < |questions| && j != qIndex ==> questions[j] == old(questions)[j]
      ensures questions[qIndex].Mcq?
      ensures questions[qIndex].questionText == old(questions)[qIndex].questionText
      ensures questions[qIndex].correct == old(questions)[qIndex].correct
      ensures |questions[qIndex].answers| == |old(questions)[qIndex].answers|
      ensures questions[qIndex].answers[aIndex] == text
      ensures forall k :: 0 <= k < |questions[qIndex].answers| && k != aIndex ==>
                questions[qIndex].answers[k] == old(questions)[qIndex].answers[k]
    {
      var q := questions[qIndex];
      assert q in questions;
      questions := questions[qIndex := q.(answers := q.answers[aIndex := text])];
    }

    /** `updated[qIndex].correct[aIndex] = checked`. */
    method EditCorrect(qIndex: int, aIndex: int, checked: bool)
      requires Valid() && 0 <= qIndex < |questions| && questions[qIndex].Mcq?
      requires 0 <= aIndex < |questions[qIndex].answers|
      modifies this`questions
      ensures Valid()
      ensures |questions| == |old(questions)|
      ensures forall j :: 0 <= j < |questions| && j != qIndex ==> questions[j] == old(questions)[j]
      ensures questions[qIndex].Mcq?
      ensures questions[qIndex].questionText == old(questions)[qIndex].questionText
      ensures questions[qIndex].answers == old(questions)[qIndex].answers
      ensures |questions[qIndex].correct| == |old(questions)[qIndex].correct|
      ensures questions[qIndex].correct[aIndex] == checked
      ensures forall k :: 0 <= k < |questions[qIndex].correct| && k != aIndex ==>
                questions[qIndex].correct[k] == old(questions)[qIndex].correct[k]
    {
      var q := questions[qIndex];
      assert q in questions;
      questions := questions[qIndex := q.(correct := q.correct[aIndex := checked])];
    }

    /** `updated[qIndex].answer = value` for an essay. */
    method EditEssayAnswer(qIndex: int, text: string)
      requires Valid() && 0 <= qIndex < |questions| && questions[qIndex].Essay?
      modifies this`questions
      ensures Valid()
      ensures |questions| == |old(questions)|
      ensures forall j :: 0 <= j < |questions| && j != qIndex ==> questions[j] == old(questions)[j]
      ensures questions[qIndex] == Essay(old(questions)[qIndex].questionText, Some(text))
    {
      var q := questions[qIndex];
      questions := questions[qIndex := q.(answer := Some(text))];
    }

    /** Marks the form as submitting and returns the body it would send. */
    method HandleSubmit() returns (payload: MixedPayload)
      modifies this`isSubmitting
      ensures isSubmitting
      ensures payload == MixedPayload(title, description, FormatQuestions(questions))
    {
      isSubmitting := true;
      payload := MixedPayload(title, description, FormatQuestions(questions));
    }
  }
}
