# Question-list editor of the assignment authoring pages

This project models, in Dafny, the in-browser editor a teacher uses to author
an assignment made of multiple-choice questions (MCQ: text, four answers and
four correctness flags) and essay questions (text and a model answer). The
editor exists in two variants, and both are modelled:

- **Create Mixed Assignment** (`app/addingquiz/page.tsx`, module `AddingQuiz`):
  questions carry an id. The teacher appends a question of either kind or
  inserts one after a given question by two `slice`s, deletes one (with a
  "Deleted question n" notice), and edits one by merging a partial update.
  Before submitting, `validateForm` runs its checks in a fixed order: title,
  then each question in list order, then password. The request body turns each
  MCQ's parallel `answers`/`correct` arrays into `{ text, isCorrect }` options.
  The page is the class `AddingQuiz.QuizForm`. The list operations are
  functions with lemmas. `ValidateForm` is a loop proved equal to the
  specification `FirstFailure`, which is proved equivalent to the
  "submittable" predicate stated directly.
- **Mixed form** (`app/mixed/page.tsx`, module `Mixed`): the list starts
  with one empty MCQ and one empty essay. New questions are appended or
  spliced in after an index. Deletion is a two-step popup flow over the
  `deleteIndex` and `showDeletePopup` fields. Each input writes straight into
  its slot. The body it submits defaults an essay's missing answer to `''`.
  The page is the class `Mixed.MixedForm`, whose invariant `Valid()` (every
  MCQ has four answers and four flags, every essay an answer) every method
  preserves.

Shared pieces:
- `ListOps` holds the JavaScript array semantics both pages rely on: relative
  index resolution of `slice`/`splice`, `filter` on the element's position,
  and indexed reads that may be `undefined`.
- `JsText` holds `String.prototype.trim` and the blank test `!s.trim()`.
- `Payload` holds the shape of a submitted question and the zip of answers
  with flags.

The ECMAScript white-space set used by `trim` follows section 12.2
(White Space) and 12.3 (Line Terminators) of ECMA-262.

Neither page reorders questions (the only repositioning is insertion after
an index) and neither retries a failed submission.

## Model

| member | source | states |
|---|---|---|
| `ListOps.RelativeIndex` | app/mixed/page.tsx:32 | the index `splice`/`slice` use lies in [0, len]; an in-range index is itself, a too-large one is len, a negative one counts back from the end and stops at 0 |
| `ListOps.SpliceInsert` | app/mixed/page.tsx:31-33 | splicing one element in gives a list one longer: the element sits at the resolved index, the elements before it are unchanged, the later ones move one place right, and the multiset grows by exactly that element |
| `ListOps.SlicesMatchSplice` | app/addingquiz/page.tsx:78-82 | for every index, inserting by `[...slice(0,k), x, ...slice(k)]` builds the same list as `splice(k, 0, x)` |
| `ListOps.FilterOutIndexRemovesOne` | app/addingquiz/page.tsx:86 | filtering out position `index` removes exactly that element and keeps the rest in order, one shorter, when the index is in range; it leaves the list unchanged otherwise |
| `ListOps.FilterUndoesSplice` | app/mixed/page.tsx:30-46 | deleting the element just spliced in gives back the original list |
| `ListOps.At` | app/addingquiz/page.tsx:162 | an indexed read yields the element exactly when the index is in range, and `undefined` otherwise |
| `JsText.SkipForward` | app/addingquiz/page.tsx:104 | the scan `trim` makes from the left stops at the first character that is not white space; everything it passes is white space |
| `JsText.SkipBackward` | app/addingquiz/page.tsx:104 | the scan `trim` makes from the right stops after the last character that is not white space; everything it passes is white space |
| `JsText.BlankIffAllWhiteSpace` | app/addingquiz/page.tsx:104 | `!s.trim()` holds exactly when every character of `s` is white space |
| `Payload.ZipOptions` | app/addingquiz/page.tsx:160-163 | one option per answer, in answer order; option i has `answers[i]` as text and `correct[i]` as flag, or an undefined flag past the end of `correct` |
| `Payload.ZipOptionsRoundTrip` | app/mixed/page.tsx:56-59 | with parallel arrays of equal length no flag is missing, and taking texts and flags back out of the options restores `answers` and `correct` |
| `AddingQuiz.NewQuestion` | app/addingquiz/page.tsx:62-76 | a new MCQ has the given id, empty text, four empty answers and four false flags; a new essay has empty text and an empty answer |
| `AddingQuiz.InsertAfterInRange` | app/addingquiz/page.tsx:78-82 | inserting after an in-range index yields `prev[..index+1] + [new] + prev[index+1..]`, one longer |
| `AddingQuiz.InsertAfterLastIsAppend` | app/addingquiz/page.tsx:78-82 | inserting after the last index (or any later one) is the same as appending |
| `AddingQuiz.RemoveUndoesInsert` | app/addingquiz/page.tsx:78-86 | deleting the question just inserted after `index` restores the list |
| `AddingQuiz.Merge` | app/addingquiz/page.tsx:98 | merging a partial update replaces exactly the fields it names, keeps every other field and keeps the question's kind |
| `AddingQuiz.MergeIdentityAndIdempotence` | app/addingquiz/page.tsx:98 | an update naming no field changes nothing; applying the same update twice equals applying it once |
| `AddingQuiz.UpdateAt` | app/addingquiz/page.tsx:95-101 | updating position `index` keeps the length, replaces that entry by the merge, and leaves every other position unchanged |
| `AddingQuiz.AnswerEditTouchesOneSlot` | app/addingquiz/page.tsx:289-293 | typing into answer slot `aIndex` changes only that answer of that question; ids, text, flags, other questions and the answer count stay; four-and-four shapes are kept |
| `AddingQuiz.CorrectEditTouchesOneSlot` | app/addingquiz/page.tsx:297-300 | ticking flag slot `aIndex` changes only that flag of that question; everything else stays and four-and-four shapes are kept |
| `AddingQuiz.QuestionFailureOrder` | app/addingquiz/page.tsx:110-127 | a question passes exactly when it is well formed; blank text is reported first, then a blank MCQ answer, then a missing correct flag, and a blank essay answer only for an essay with text |
| `AddingQuiz.FirstQuestionFailureIsFirst` | app/addingquiz/page.tsx:109-128 | the loop reports the failure of the first failing question, all questions before it pass, and it reports none exactly when every question passes |
| `AddingQuiz.FormValidIff` | app/addingquiz/page.tsx:103-135 | validation succeeds iff the title is non-blank, every question is well formed (non-blank text; MCQ: all answers non-blank and some flag true; essay: non-blank answer) and the password is non-blank |
| `AddingQuiz.FirstFailureOrder` | app/addingquiz/page.tsx:103-135 | a blank title is reported before anything else; a question failure only with a non-blank title, for the first failing question; a blank password only when title and all questions pass |
| `AddingQuiz.FormatQuestions` | app/addingquiz/page.tsx:156-167 | the body has as many questions as the list, in order, with the same kind and text; MCQ options zip answers with flags (one per answer); an essay's answer is passed unchanged |
| `AddingQuiz.FormatShapedQuestions` | app/addingquiz/page.tsx:156-167 | for questions with four answers and four flags, option k of question i is exactly (answers[k], correct[k]) |
| `AddingQuiz.QuizForm.constructor` | app/addingquiz/page.tsx:32-38 | the invariant (every MCQ four answers and four flags) holds; the form starts with empty title and password, description "Test your basic skills", no questions, a 30-minute limit and no alert |
| `AddingQuiz.QuizForm.AddMcqQuestion` | app/addingquiz/page.tsx:41-50 | appends exactly one fresh MCQ at the end and leaves every existing entry in place; the invariant is kept |
| `AddingQuiz.QuizForm.AddEssayQuestion` | app/addingquiz/page.tsx:52-60 | appends exactly one fresh essay at the end and leaves every existing entry in place; the invariant is kept |
| `AddingQuiz.QuizForm.InsertQuestion` | app/addingquiz/page.tsx:62-83 | the list becomes the slice insertion of a fresh question after `index`; nothing else in the form changes and the invariant is kept |
| `AddingQuiz.QuizForm.DeleteQuestion` | app/addingquiz/page.tsx:85-88 | the list loses the question at `index` (none when out of range) and the alert "Deleted question index+1" is shown; the invariant is kept |
| `AddingQuiz.QuizForm.UpdateQuestion` | app/addingquiz/page.tsx:95-101 | the list becomes the merge of the update into position `index`; nothing else in the form changes |
| `AddingQuiz.QuizForm.EditAnswer` | app/addingquiz/page.tsx:289-293 | the answer box sends a copy of the answers with slot `aIndex` replaced, through `UpdateQuestion`, for every rendered slot; the invariant is kept |
| `AddingQuiz.QuizForm.EditCorrect` | app/addingquiz/page.tsx:297-300 | the checkbox sends a copy of the flags with slot `aIndex` replaced, through `UpdateQuestion`, for every rendered slot; the invariant is kept |
| `AddingQuiz.QuizForm.ValidateForm` | app/addingquiz/page.tsx:103-135 | the loop with early returns reports exactly the first failing check, in the order title, questions in list order, password |
| `AddingQuiz.QuizForm.HandleSubmit` | app/addingquiz/page.tsx:137-170 | a failed validation stops submission with that failure; a missing or empty token leads to login; otherwise the body holds title, description, time limit, the formatted questions and the password |
| `AddingQuiz.QuizForm.ShowSubmitResult` | app/addingquiz/page.tsx:179-189 | the alert shows success or failure of the request |
| `Mixed.NewQuestion` | app/mixed/page.tsx:23-26 | a new MCQ has empty text, four empty answers and four false flags; a new essay has empty text and an empty answer |
| `Mixed.RemovePendingEffect` | app/mixed/page.tsx:43 | with no pending index the list is unchanged; with an in-range one exactly that entry goes; a stale index changes nothing; the shape invariant is kept |
| `Mixed.AnswerOrEmpty` | app/mixed/page.tsx:65 | a missing essay answer becomes `''`, a present one is passed as it is |
| `Mixed.FormatQuestions` | app/mixed/page.tsx:51-68 | the body has as many questions as the list, in order, with the same kind and text; MCQ options zip answers with flags; an essay's answer defaults to `''` |
| `Mixed.FormatShapedQuestions` | app/mixed/page.tsx:51-68 | on a list satisfying the invariant, option k is exactly (answers[k], correct[k]) and each essay carries the answer it holds |
| `Mixed.MixedForm.constructor` | app/mixed/page.tsx:9-19 | the list is exactly [empty MCQ with four empty answers and four false flags, empty essay]; the popup is closed, nothing is pending, nothing is submitting |
| `Mixed.MixedForm.AddQuestion` | app/mixed/page.tsx:22-35 | with no index a fresh question is appended; with index i it is spliced in at i+1, earlier entries unchanged and later ones shifted right by one; the invariant is kept |
| `Mixed.MixedForm.ConfirmDeleteQuestion` | app/mixed/page.tsx:37-40 | records the pending index and opens the popup without touching the list |
| `Mixed.MixedForm.DeleteQuestion` | app/mixed/page.tsx:42-46 | removes the entry at the pending index (nothing when none is pending), then closes the popup and clears the pending index |
| `Mixed.MixedForm.CancelDelete` | app/mixed/page.tsx:357-359 | closes the popup; the list and the pending index are unchanged |
| `Mixed.MixedForm.EditQuestionText` | app/mixed/page.tsx:238-291 | the text box of an MCQ (lines 238-244) and of an essay (lines 285-291) run the same handler: it changes only the text of question `qIndex`; every other question and field is unchanged |
| `Mixed.MixedForm.EditOptionText` | app/mixed/page.tsx:256-262 | changes only answer slot `aIndex` of question `qIndex`; other slots, the flags, the text and other questions are unchanged |
| `Mixed.MixedForm.EditCorrect` | app/mixed/page.tsx:267-273 | changes only flag slot `aIndex` of question `qIndex`; other flags, the answers, the text and other questions are unchanged |
| `Mixed.MixedForm.EditEssayAnswer` | app/mixed/page.tsx:298-304 | changes only the answer of essay `qIndex`; other questions are unchanged |
| `Mixed.MixedForm.HandleSubmit` | app/mixed/page.tsx:48-74 | marks the form as submitting and yields the body of title, description and the formatted questions |

## Left out

- Rendering: JSX, styling, framer-motion animation, and the assignment-type dropdown with its `showDropdown` and `type` state (app/mixed/page.tsx:104-172) are user interface only.
- I/O: router navigation, the `axios.post` request, the `console.log` of the body and the choice of API URL are not modelled. The stored token is a parameter of `AddingQuiz.QuizForm.HandleSubmit`, and the request's outcome is a parameter of `ShowSubmitResult`.
- `teacherId` comes from the admin session context (app/context/AdminContext.tsx), which is not part of this model.
- Timers: the one-second hiding of alerts and the simulated two-second submit delay are timer-driven, so `isSubmitting` is never reset.
- `window.alert`: a failed validation returns the failing check instead. `ValidationError.Message` gives the alert's text.
- Question ids from `Date.now()` are given as a parameter.
- `timeLimit`: the page stores `Number(e.target.value)`, a JavaScript number that may be fractional or NaN; the model keeps it as an integer, and `timeLimit.toString()` is not modelled, so the body carries that integer.
- The title, description, time-limit and password inputs are plain assignments to the form's fields, so they have no methods.
- AddingQuiz.QuizForm.UpdateQuestion: requires an in-range index. An out-of-range index would make JavaScript grow a sparse array or set a non-index property. Every caller passes the index of a rendered question.
- AddingQuiz.Merge: the `type` field of a partial update is not modelled, since no caller passes it. A field the question's kind does not have (answers on an essay) is dropped. JavaScript would attach it as a stray property, which nothing reads.
- AddingQuiz.QuizForm.UpdateQuestion: does not require or ensure the class invariant `Valid()`, since an arbitrary partial update may change the number of answers or flags; the page's own edit paths (`EditAnswer`, `EditCorrect`) keep it.
- Mixed.MixedForm.EditQuestionText, Mixed.MixedForm.EditOptionText, Mixed.MixedForm.EditCorrect, Mixed.MixedForm.EditEssayAnswer: the page writes into the question objects of the previous state in place. The model replaces the question value instead. Every question object is freshly built, so no two list entries share one, and the list's contents come out the same. The aliasing with React's previous state is not captured.
- Strings are sequences of Unicode scalar values, where JavaScript uses UTF-16 code units. All white space that `trim` removes lies in the Basic Multilingual Plane, so blankness is unaffected.
- app/components/Navbar/Navbar.tsx, app/page.tsx, app/edit/[id]/page.tsx and app/editessay/[id]/page.tsx are not part of this model: they hold navigation, sign-in form binding and editors of stored assignments.
