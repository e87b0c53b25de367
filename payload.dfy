/** The shape of a question in the request body both editors build on
    submit: `{ type, questionText, options }` for a multiple-choice question,
    `{ type, questionText, answer }` for an essay. */
module Payload {

  import opened Wrappers
  import ListOps

  /** The `'mcq' | 'essay'` tag of a question. */
  datatype Kind = McqKind | EssayKind

  /** One option of a multiple-choice question, `{ text, isCorrect }`;
      `isCorrect` is `undefined` when the flag array is shorter than the
      answer array. */
  datatype OptionEntry = OptionEntry(text: string, isCorrect: Option<bool>)

  datatype FormattedQuestion =
    | McqItem(questionText: string, options: seq<OptionEntry>)
    | EssayItem(questionText: string, answer: string)
  {
    function Kind(): Kind {
      if McqItem? then McqKind else EssayKind
    }
  }

  /** `answers.map((answer, idx) => ({ text: answer, isCorrect: correct[idx] }))`:
      one option per answer, in answer order, each carrying the flag at the
      same position. */
  function ZipOptions(answers: seq<string>, correct: seq<bool>): (r: seq<OptionEntry>)
    ensures |r| == |answers|
    ensures forall i :: 0 <= i < |r| ==> r[i].text == answers[i]
    ensures forall i :: 0 <= i < |r| && i < |correct| ==> r[i].isCorrect == Some(correct[i])
    ensures forall i :: |correct| <= i < |r| ==> r[i].isCorrect == None
  {
    seq(|answers|, i requires 0 <= i < |answers| => OptionEntry(answers[i], ListOps.At(correct, i)))
  }

  /** The answer texts of a list of options. */
  function Texts(options: seq<OptionEntry>): seq<string>
  {
    seq(|options|, i requires 0 <= i < |options| => options[i].text)
  }

  /** The flags of a list of options, `false` where a flag is missing. */
  function Flags(options: seq<OptionEntry>): seq<bool>
  {
    seq(|options|, i requires 0 <= i < |options| => options[i].isCorrect.GetOr(false))
  }

  /** When the two parallel arrays have the same length, the options carry
      all of both: taking the texts and the flags back out restores them, and
      no option has a missing flag. */
  lemma ZipOptionsRoundTrip(answers: seq<string>, correct: seq<bool>)
    requires |answers| == |correct|
    ensures Texts(ZipOptions(answers, correct)) == answers
    ensures Flags(ZipOptions(answers, correct)) == correct
    ensures forall i :: 0 <= i < |answers| ==>
              ZipOptions(answers, correct)[i] == OptionEntry(answers[i], Some(correct[i]))
  {
  }
}
