/** The assignment editor of the "Create Mixed Assignment" page
    (app/addingquiz/page.tsx): an ordered list of typed questions that the
    teacher grows, edits and prunes, a validation pass with a fixed order of
    checks, and the request body built on submit. */
module AddingQuiz {

  import opened Wrappers
  import opened JsText
  import opened Payload
  import ListOps

  /** A question id; the page makes one from the clock, here it is given. */
  type Id = string

  datatype Question =
    | Mcq(id: Id, questionText: string, answers: seq<string>, correct: seq<bool>)
    | Essay(id: Id, questionText: string, answer: string)
  {
    function Kind(): Kind {
      if Mcq? then McqKind else EssayKind
    }
  }

  /** The fields a `Partial<Question>` update may name; an absent field is
      left alone by the merge. */
  datatype Patch = Patch(
    id: Option<Id>,
    questionText: Option<string>,
    answers: Option<seq<string>>,
    correct: Option<seq<bool>>,
    answer: Option<string>)

  const NoChange := Patch(None, None, None, None, None)

  /** A fresh question of the given kind: empty text, and for a
      multiple-choice question four empty answers, none marked correct. */
  function NewQuestion(kind: Kind, id: Id): (q: Question)
    ensures q.Kind() == kind && q.id == id && q.questionText == ""
    ensures q.Mcq? ==> q.answers == ["", "", "", ""] && q.correct == [false, false, false, false]
    ensures q.Essay? ==> q.answer == ""
  {
    match kind
    case McqKind => Mcq(id, "", ["", "", "", ""], [false, false, false, false])
    case EssayKind => Essay(id, "", "")
  }

  /** Every multiple-choice question has four answers and four flags. */
  predicate Shaped(qs: seq<Question>)
  {
    forall q :: q in qs && q.Mcq? ==> |q.answers| == 4 && |q.correct| == 4
  }

  // ---------------------------------------------------------------------
  // List operations

  /** `[...prev.slice(0, index + 1), q, ...prev.slice(index + 1)]`. */
  function InsertAfter(qs: seq<Question>, index: int, q: Question): seq<Question>
  {
    ListOps.InsertBySlices(qs, index + 1, q)
  }

  /** Inserting after an in-range index puts the question right behind it:
      the list grows by one, the entries up to `index` keep their places and
      the rest move one place right. */
  lemma InsertAfterInRange(qs: seq<Question>, index: int, q: Question)
    requires 0 <= index < |qs|
    ensures InsertAfter(qs, index, q) == qs[..index + 1] + [q] + qs[index + 1..]
    ensures |InsertAfter(qs, index, q)| == |qs| + 1
  {
    ListOps.SlicesMatchSplice(qs, index + 1, q);
  }

  /** Inserting after the last question (or any later index) is appending. */
  lemma InsertAfterLastIsAppend(qs: seq<Question>, index: int, q: Question)
    requires index >= |qs| - 1
    ensures InsertAfter(qs, index, q) == qs + [q]
  {
    ListOps.SlicesMatchSplice(qs, index + 1, q);
  }

  /** `prev.filter((_, qIndex) => qIndex !== index)`. */
  function RemoveAt(qs: seq<Question>, index: int): seq<Question>
  {
    ListOps.FilterOutIndex(qs, index)
  }

  /** Deleting the question just inserted after `index` restores the list. */
  lemma RemoveUndoesInsert(qs: seq<Question>, index: int, q: Question)
    requires -1 <= index < |qs|
    ensures RemoveAt(InsertAfter(qs, index, q), index + 1) == qs
  {
    ListOps.SlicesMatchSplice(qs, index + 1, q);
    ListOps.FilterUndoesSplice(qs, index + 1, q);
  }

  /** `{ ...q, ...p }`: each field named in the patch is replaced, every other
      field keeps its value, and the question keeps its kind. A field that
      the question's kind does not have is never read for it, so it is
      dropped. */
  function Merge(q: Question, p: Patch): (r: Question)
    ensures r.Kind() == q.Kind()
    ensures r.id == p.id.GetOr(q.id)
    ensures r.questionText == p.questionText.GetOr(q.questionText)
    ensures r.Mcq? ==> r.answers == p.answers.GetOr(q.answers) && r.correct == p.correct.GetOr(q.correct)
    ensures r.Essay? ==> r.answer == p.answer.GetOr(q.answer)
  {
    match q
    case Mcq(id, text, answers, correct) =>
      Mcq(p.id.GetOr(id), p.questionText.GetOr(text), p.answers.GetOr(answers), p.correct.GetOr(correct))
    case Essay(id, text, answer) =>
      Essay(p.id.GetOr(id), p.questionText.GetOr(text), p.answer.GetOr(answer))
  }

  /** An update naming no field changes nothing, and applying an update a
      second time changes nothing more. */
  lemma MergeIdentityAndIdempotence(q: Question, p: Patch)
    ensures Merge(q, NoChange) == q
    ensures Merge(Merge(q, p), p) == Merge(q, p)
  {
  }

  /** `updated[index] = { ...updated[index], ...updates }` on a copy: only the
      entry at `index` changes, and it becomes the merge. */
  function UpdateAt(qs: seq<Question>, index: int, p: Patch): (r: seq<Question>)
    requires 0 <= index < |qs|
    ensures |r| == |qs|
    ensures r[index] == Merge(qs[index], p)
    ensures forall j :: 0 <= j < |qs| && j != index ==> r[j] == qs[j]
  {
    qs[index := Merge(qs[index], p)]
  }

  /** The update the answer box at slot `aIndex` sends:
      `newAnswers = [...question.answers]; newAnswers[aIndex] = value`. */
  function AnswerPatch(q: Question, aIndex: int, text: string): Patch
    requires q.Mcq? && 0 <= aIndex < |q.answers|
  {
    NoChange.(answers := Some(q.answers[aIndex := text]))
  }

  /** The update the "Correct" checkbox at slot `aIndex` sends. */
  function CorrectPatch(q: Question, aIndex: int, checked: bool): Patch
    requires q.Mcq? && 0 <= aIndex < |q.correct|
  {
    NoChange.(correct := Some(q.correct[aIndex := checked]))
  }

  /** Typing into answer slot `aIndex` of question `index` changes that one
      slot and nothing else in the list. */
  lemma AnswerEditTouchesOneSlot(qs: seq<Question>, index: int, aIndex: int, text: string)
    requires 0 <= index < |qs| && qs[index].Mcq? && 0 <= aIndex < |qs[index].answers|
    ensures var r := UpdateAt(qs, index, AnswerPatch(qs[index], aIndex, text));
      && |r| == |qs|
      && (forall j :: 0 <= j < |qs| && j != index ==> r[j] == qs[j])
      && r[index].Mcq? && r[index].id == qs[index].id
      && r[index].questionText == qs[index].questionText
      && r[index].correct == qs[index].correct
      && |r[index].answers| == |qs[index].answers|
      && r[index].answers[aIndex] == text
      && (forall k :: 0 <= k < |qs[index].answers| && k != aIndex ==> r[index].answers[k] == qs[index].answers[k])
      && (Shaped(qs) ==> Shaped(r))
  {
  }

  /** Ticking the checkbox at slot `aIndex` of question `index` changes that
      one flag and nothing else in the list. */
  lemma CorrectEditTouchesOneSlot(qs: seq<Question>, index: int, aIndex: int, checked: bool)
    requires 0 <= index < |qs| && qs[index].Mcq? && 0 <= aIndex < |qs[index].correct|
    ensures var r := UpdateAt(qs, index, CorrectPatch(qs[index], aIndex, checked));
      && |r| == |qs|
      && (forall j :: 0 <= j < |qs| && j != index ==> r[j] == qs[j])
      && r[index].Mcq? && r[index].id == qs[index].id
      && r[index].questionText == qs[index].questionText
      && r[index].answers == qs[index].answers
      && |r[index].correct| == |qs[index].correct|
      && r[index].correct[aIndex] == checked
      && (forall k :: 0 <= k < |qs[index].correct| && k != aIndex ==> r[index].correct[k] == qs[index].correct[k])
      && (Shaped(qs) ==> Shaped(r))
  {
  }

  // ---------------------------------------------------------------------
  // Validation

  /** The checks `validateForm` makes, each with the alert it raises. */
  datatype ValidationError =
    | TitleRequired
    | QuestionTextRequired
    | McqAnswersRequired
    | McqCorrectRequired
    | EssayAnswerRequired
    | PasswordRequired
  {
    function Message(): string {
      match this
      case TitleRequired => "Quiz title is required."
      case QuestionTextRequired => "All questions must have text."
      case McqAnswersRequired => "All MCQ answers must have text."
      case McqCorrectRequired => "Each MCQ must have at least one correct answer."
      case EssayAnswerRequired => "All essay questions must have an answer."
      case PasswordRequired => "Password is required."
    }

    predicate AboutQuestion() {
      !TitleRequired? && !PasswordRequired?
    }
  }

  /** `answers.some(answer => !answer.trim())`. */
  predicate HasBlank(answers: seq<string>)
  {
    exists k :: 0 <= k < |answers| && IsBlank(answers[k])
  }

  /** The first check one question fails, in the order the loop body makes
      them: its text, then for a multiple-choice question its answers and
      then its flags, for an essay its model answer. */
  function QuestionFailure(q: Question): Option<ValidationError>
  {
    if IsBlank(q.questionText) then Some(QuestionTextRequired)
    else match q
      case Mcq(_, _, answers, correct) =>
        if HasBlank(answers) then Some(McqAnswersRequired)
        else if true !in correct then Some(McqCorrectRequired)
        else None
      case Essay(_, _, answer) =>
        if IsBlank(answer) then Some(EssayAnswerRequired) else None
  }

  /** The first failure among the questions from position `i` on. */
  function FirstQuestionFailure(qs: seq<Question>, i: nat): Option<ValidationError>
    requires i <= |qs|
    decreases |qs| - i
  {
    if i == |qs| then None
    else if QuestionFailure(qs[i]).Some? then QuestionFailure(qs[i])
    else FirstQuestionFailure(qs, i + 1)
  }

  /** The first check the whole form fails: the title, then the questions in
      list order, then the password; `None` when the form may be submitted. */
  function FirstFailure(title: string, qs: seq<Question>, password: string): Option<ValidationError>
  {
    if IsBlank(title) then Some(TitleRequired)
    else if FirstQuestionFailure(qs, 0).Some? then FirstQuestionFailure(qs, 0)
    else if IsBlank(password) then Some(PasswordRequired)
    else None
  }

  /** What a submittable question is, stated directly: non-blank text, and
      for a multiple-choice question non-blank answers and at least one
      correct flag, for an essay a non-blank model answer. */
  predicate WellFormed(q: Question)
  {
    && !AllWhiteSpace(q.questionText)
    && match q
       case Mcq(_, _, answers, correct) =>
         (forall k :: 0 <= k < |answers| ==> !AllWhiteSpace(answers[k]))
         && (exists k :: 0 <= k < |correct| && correct[k])
       case Essay(_, _, answer) => !AllWhiteSpace(answer)
  }

  /** What a submittable form is, stated directly. */
  predicate Submittable(title: string, qs: seq<Question>, password: string)
  {
    && !AllWhiteSpace(title)
    && (forall i :: 0 <= i < |qs| ==> WellFormed(qs[i]))
    && !AllWhiteSpace(password)
  }

  /** A question passes its checks exactly when it is well formed, and the
      check it fails first follows the fixed order. */
  lemma QuestionFailureOrder(q: Question)
    ensures QuestionFailure(q).None? <==> WellFormed(q)
    ensures QuestionFailure(q) == Some(QuestionTextRequired) <==> AllWhiteSpace(q.questionText)
    ensures QuestionFailure(q) == Some(McqAnswersRequired) <==>
              !AllWhiteSpace(q.questionText) && q.Mcq?
              && exists k :: 0 <= k < |q.answers| && AllWhiteSpace(q.answers[k])
    ensures QuestionFailure(q) == Some(McqCorrectRequired) <==>
              !AllWhiteSpace(q.questionText) && q.Mcq?
              && (forall k :: 0 <= k < |q.answers| ==> !AllWhiteSpace(q.answers[k]))
              && forall k :: 0 <= k < |q.correct| ==> !q.correct[k]
    ensures QuestionFailure(q) == Some(EssayAnswerRequired) <==>
              !AllWhiteSpace(q.questionText) && q.Essay? && AllWhiteSpace(q.answer)
    ensures QuestionFailure(q).Some? ==> QuestionFailure(q).value.AboutQuestion()
  {
    BlankIffAllWhiteSpace(q.questionText);
    if q.Mcq? {
      forall k | 0 <= k < |q.answers| ensures IsBlank(q.answers[k]) <==> AllWhiteSpace(q.answers[k]) {
        BlankIffAllWhiteSpace(q.answers[k]);
      }
      if true in q.correct {
        var k :| 0 <= k < |q.correct| && q.correct[k] == true;
      }
    } else {
      BlankIffAllWhiteSpace(q.answer);
    }
  }

  /** The failure reported for the questions from `i` on belongs to the first
      question there that fails a check, all before it pass, and there is none
      exactly when every one of them passes. */
  lemma {:induction false} FirstQuestionFailureIsFirst(qs: seq<Question>, i: nat)
    requires i <= |qs|
    ensures FirstQuestionFailure(qs, i).None? <==> forall k :: i <= k < |qs| ==> QuestionFailure(qs[k]).None?
    ensures FirstQuestionFailure(qs, i).Some? ==>
              exists k :: i <= k < |qs| && QuestionFailure(qs[k]) == FirstQuestionFailure(qs, i)
                          && forall j :: i <= j < k ==> QuestionFailure(qs[j]).None?
    decreases |qs| - i
  {
    if i < |qs| {
      FirstQuestionFailureIsFirst(qs, i + 1);
      var here := QuestionFailure(qs[i]);
      if here.Some? {
        assert FirstQuestionFailure(qs, i) == here;
      } else {
        assert FirstQuestionFailure(qs, i) == FirstQuestionFailure(qs, i + 1);
        if FirstQuestionFailure(qs, i + 1).Some? {
          var k :| i + 1 <= k < |qs| && QuestionFailure(qs[k]) == FirstQuestionFailure(qs, i + 1)
                   && forall j :: i + 1 <= j < k ==> QuestionFailure(qs[j]).None?;
          assert forall j :: i <= j < k ==> QuestionFailure(qs[j]).None?;
        }
      }
    }
  }

  /** `validateForm` returns true exactly when the title is non-blank, every
      question is well formed and the password is non-blank. */
  lemma FormValidIff(title: string, qs: seq<Question>, password: string)
    ensures FirstFailure(title, qs, password).None? <==> Submittable(title, qs, password)
  {
    BlankIffAllWhiteSpace(title);
    BlankIffAllWhiteSpace(password);
    FirstQuestionFailureIsFirst(qs, 0);
    forall i | 0 <= i < |qs| ensures QuestionFailure(qs[i]).None? <==> WellFormed(qs[i]) {
      QuestionFailureOrder(qs[i]);
    }
  }

  /** The check reported is the first one that fails: a blank title before
      anything else, then the first question that fails (its own first check),
      and a blank password only when the title and all questions pass. */
  lemma FirstFailureOrder(title: string, qs: seq<Question>, password: string)
    ensures FirstFailure(title, qs, password) == Some(TitleRequired) <==> AllWhiteSpace(title)
    ensures FirstFailure(title, qs, password) == Some(PasswordRequired) <==>
              && !AllWhiteSpace(title)
              && (forall k :: 0 <= k < |qs| ==> WellFormed(qs[k]))
              && AllWhiteSpace(password)
    ensures FirstFailure(title, qs, password).Some? && FirstFailure(title, qs, password).value.AboutQuestion() ==>
              && !AllWhiteSpace(title)
              && exists k :: 0 <= k < |qs| && QuestionFailure(qs[k]) == FirstFailure(title, qs, password)
                             && forall j :: 0 <= j < k ==> WellFormed(qs[j])
  {
    BlankIffAllWhiteSpace(title);
    BlankIffAllWhiteSpace(password);
    FirstQuestionFailureIsFirst(qs, 0);
    forall i | 0 <= i < |qs| ensures QuestionFailure(qs[i]).None? <==> WellFormed(qs[i]) {
      QuestionFailureOrder(qs[i]);
    }
    if FirstQuestionFailure(qs, 0).Some? {
      var k :| 0 <= k < |qs| && QuestionFailure(qs[k]) == FirstQuestionFailure(qs, 0)
               && forall j :: 0 <= j < k ==> QuestionFailure(qs[j]).None?;
      QuestionFailureOrder(qs[k]);
    }
  }

  // ---------------------------------------------------------------------
  // Request body

  /** One entry of `questions.map(q => ({ type, questionText, ...options or answer }))`. */
  function FormatQuestion(q: Question): FormattedQuestion
  {
    match q
    case Mcq(_, text, answers, correct) => McqItem(text, ZipOptions(answers, correct))
    case Essay(_, text, answer) => EssayItem(text, answer)
  }

  /** The submitted questions: as many as in the list, in the same order,
      each with its kind and text; a multiple-choice question's options zip
      its answers with its flags, an essay's answer is passed unchanged. */
  function FormatQuestions(qs: seq<Question>): (r: seq<FormattedQuestion>)
    ensures |r| == |qs|
    ensures forall i :: 0 <= i < |qs| ==>
              r[i].Kind() == qs[i].Kind() && r[i].questionText == qs[i].questionText
    ensures forall i :: 0 <= i < |qs| && qs[i].Mcq? ==>
              r[i].McqItem? && |r[i].options| == |qs[i].answers|
              && forall k :: 0 <= k < |qs[i].answers| ==> r[i].options[k].text == qs[i].answers[k]
    ensures forall i :: 0 <= i < |qs| && qs[i].Mcq? ==> r[i].McqItem? && r[i].options == ZipOptions(qs[i].answers, qs[i].correct)
    ensures forall i :: 0 <= i < |qs| && qs[i].Essay? ==> r[i].EssayItem? && r[i].answer == qs[i].answer
  {
    seq(|qs|, i requires 0 <= i < |qs| => FormatQuestion(qs[i]))
  }

  /** On a shaped list every option of the body carries its own flag:
      option k of question i is (answers[k], correct[k]). */
  lemma FormatShapedQuestions(qs: seq<Question>)
    requires Shaped(qs)
    ensures forall i, k :: 0 <= i < |qs| && qs[i].Mcq? && 0 <= k < 4 ==>
              FormatQuestions(qs)[i].options[k] == OptionEntry(qs[i].answers[k], Some(qs[i].correct[k]))
  {
    forall i | 0 <= i < |qs| && qs[i].Mcq? {
      ZipOptionsRoundTrip(qs[i].answers, qs[i].correct);
    }
  }

  /** The body sent to the "create mixed quiz" endpoint; the teacher id and the
      conversion of the time limit to text are not modelled. */
  datatype QuizData = QuizData(
    title: string,
    description: string,
    timeLimit: int,
    questions: seq<FormattedQuestion>,
    password: string)

  /** Where `handleSubmit` stops before its request completes. */
  datatype SubmitStep =
    | Rejected(error: ValidationError)   // validation failed: alert and return
    | LoginRequired                      // no token: alert and go to the login page
    | Post(data: QuizData)               // the request is sent with this body

  /** The text of the page's transient alert. */
  datatype Notice = NoNotice | DeletedQuestion(number: int) | QuizCreated | CreateFailed

  // ---------------------------------------------------------------------
  // The page's state

  class QuizForm {
    var title: string
    var description: string
    var questions: seq<Question>
    var timeLimit: int
    var password: string
    var alertMessage: Notice
    var showAlert: bool

    /** Every multiple-choice question in the list has four answers and four
        flags; the page's own add, insert, delete and edit paths keep this. */
    ghost predicate Valid()
      reads this
    {
      Shaped(questions)
    }

    constructor ()
      ensures Valid()
      ensures title == "" && description == "Test your basic skills"
      ensures questions == [] && timeLimit == 30 && password == ""
      ensures alertMessage == NoNotice && !showAlert
    {
      title := "";
      description := "Test your basic skills";
      questions := [];
      timeLimit := 30;
      password := "";
      alertMessage := NoNotice;
      showAlert := false;
    }

    /** Appends a fresh multiple-choice question; the questions already there
        keep their places. */
    method AddMcqQuestion(id: Id)
      requires Valid()
      modifies this`questions
      ensures Valid()
      ensures |questions| == |old(questions)| + 1
      ensures questions[..|old(questions)|] == old(questions)
      ensures questions[|old(questions)|] == NewQuestion(McqKind, id)
      ensures Valid()
    {
      questions := questions + [NewQuestion(McqKind, id)];
    }

    /** Appends a fresh essay question; the questions already there keep
        their places. */
    method AddEssayQuestion(id: Id)
      requires Valid()
      modifies this`questions
      ensures Valid()
      ensures |questions| == |old(questions)| + 1
      ensures questions[..|old(questions)|] == old(questions)
      ensures questions[|old(questions)|] == NewQuestion(EssayKind, id)
      ensures Valid()
    {
      questions := questions + [NewQuestion(EssayKind, id)];
    }

    method InsertQuestion(index: int, kind: Kind, id: Id)
      requires Valid()
      modifies this`questions
      ensures Valid()
      ensures questions == InsertAfter(old(questions), index, NewQuestion(kind, id))
      ensures Valid()
    {
      var q := NewQuestion(kind, id);
      ListOps.SlicesMatchSplice(questions, index + 1, q);
      var p := ListOps.RelativeIndex(index + 1, |questions|);
      var r := InsertAfter(questions, index, q);
      assert forall j :: 0 <= j < |r| ==> r[j] == q || r[j] in questions by {
        forall j | 0 <= j < |r| ensures r[j] == q || r[j] in questions {
          if j < p { assert r[j] == questions[j]; }
          else if j > p { assert r[j] == questions[j - 1]; }
        }
      }
      questions := r;
    }

    /** Removes the question at `index` (none when out of range) and raises
        the "Deleted question n" alert, numbering from one. */
    method DeleteQuestion(index: int)
      requires Valid()
      modifies this`questions, this`alertMessage, this`showAlert
      ensures questions == RemoveAt(old(questions), index)
      ensures alertMessage == DeletedQuestion(index + 1) && showAlert
      ensures Valid()
    {
      ListOps.FilterOutIndexSubset(questions, index);
      questions := RemoveAt(questions, index);
      alertMessage := DeletedQuestion(index + 1);
      showAlert := true;
    }

    method UpdateQuestion(index: int, updates: Patch)
      requires 0 <= index < |questions|
      modifies this`questions
      ensures questions == UpdateAt(old(questions), index, updates)
    {
      questions := UpdateAt(questions, index, updates);
    }

    /** The answer box of slot `aIndex` of question `index`. */
    method EditAnswer(index: int, aIndex: int, text: string)
      requires Valid()
      requires 0 <= index < |questions| && questions[index].Mcq? && 0 <= aIndex < |questions[index].answers|
      modifies this`questions
      ensures Valid()
      ensures questions == UpdateAt(old(questions), index, AnswerPatch(old(questions)[index], aIndex, text))
    {
      AnswerEditTouchesOneSlot(questions, index, aIndex, text);
      UpdateQuestion(index, AnswerPatch(questions[index], aIndex, text));
    }

    /** The "Correct" checkbox of slot `aIndex` of question `index`. */
    method EditCorrect(index: int, aIndex: int, checked: bool)
      requires Valid()
      requires 0 <= index < |questions| && questions[index].Mcq? && 0 <= aIndex < |questions[index].answers|
      modifies this`questions
      ensures Valid()
      ensures questions == UpdateAt(old(questions), index, CorrectPatch(old(questions)[index], aIndex, checked))
    {
      assert questions[index] in questions;
      CorrectEditTouchesOneSlot(questions, index, aIndex, checked);
      UpdateQuestion(index, CorrectPatch(questions[index], aIndex, checked));
    }

    /** `validateForm`: returns the first check that fails, `None` for true. */
    method ValidateForm() returns (failure: Option<ValidationError>)
      ensures failure == FirstFailure(title, questions, password)
    {
      if IsBlank(title) {
        return Some(TitleRequired);
      }
      var i := 0;
      while i < |questions|
        invariant 0 <= i <= |questions|
        invariant FirstQuestionFailure(questions, 0) == FirstQuestionFailure(questions, i)
      {
        var q := questions[i];
        if IsBlank(q.questionText) {
          return Some(QuestionTextRequired);
        }
        if q.Mcq? {
          if HasBlank(q.answers) {
            return Some(McqAnswersRequired);
          }
          if true !in q.correct {
            return Some(McqCorrectRequired);
          }
        } else if IsBlank(q.answer) {
          return Some(EssayAnswerRequired);
        }
        i := i + 1;
      }
      if IsBlank(password) {
        return Some(PasswordRequired);
      }
      return None;
    }

    /** `handleSubmit` up to the request: a failed validation stops it at once,
        a missing or empty token sends the teacher to log in, and otherwise
        the body holds the form's fields and the formatted questions. */
    method HandleSubmit(token: Option<string>) returns (step: SubmitStep)
      ensures step.Rejected? <==> FirstFailure(title, questions, password).Some?
      ensures step.Rejected? ==> step.error == FirstFailure(title, questions, password).value
      ensures step.LoginRequired? <==>
                FirstFailure(title, questions, password).None? && (token.None? || token.value == "")
      ensures step.Post? ==>
                step.data == QuizData(title, description, timeLimit, FormatQuestions(questions), password)
    {
      var failure := ValidateForm();
      if failure.Some? {
        return Rejected(failure.value);
      }
      if token.None? || token.value == "" {
        return LoginRequired;
      }
      return Post(QuizData(title, description, timeLimit, FormatQuestions(questions), password));
    }

    /** The alert raised once the request has succeeded or failed. */
    method ShowSubmitResult(succeeded: bool)
      modifies this`alertMessage, this`showAlert
      ensures alertMessage == (if succeeded then QuizCreated else CreateFailed) && showAlert
    {
      alertMessage := if succeeded then QuizCreated else CreateFailed;
      showAlert := true;
    }
  }
}
