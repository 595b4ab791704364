# TNPSC quiz: question runner and registration form

A Dafny model of the two pieces of logic in the TNPSC quiz web application.
The rest of the application is markup, styling and routing.

- **The question runner** (`src/components/QuestionInterface.jsx`) runs over a fixed,
  non-empty list of questions. It keeps the current question index, a map from question
  index to the chosen option value, a running score, the number highlighted in the jump
  grid, the selection the radio group shows, and two dialog flags. The flags are
  "confirmation open" and "success notice shown". Each event handler is one transition.
  Module `Quiz` (`quiz.dfy`) models this in two layers:
  - value-level transitions over a `Session` datatype (`AnswerChange`, `Next`, `Previous`,
    `NumberClick`, `Submit`, `CancelSubmit`, `ConfirmSubmit`, `CloseSnackbar`), with
    `Apply`/`Run` folding a sequence of user gestures;
  - the component as a class, `Quiz.QuestionInterface`. Its fields are the component's
    state variables, and each handler method is proved to produce exactly the
    corresponding transition of its old state.

  A question counts as correct when the selected value is strictly equal (`===`) to the
  question's **own** `id`. The model keeps this as written. Identifiers are JSON strings or
  numbers, and the value a radio button reports is always a string, so a question with a
  numeric `id` can never be scored. Only Next scores, and it scores the question being left.
  The Next button is disabled on the last question, so the last question's answer is
  never scored, and a one-question quiz always ends with score 0. Going back and pressing
  Next again scores the same question again. So the score is **not** bounded by the
  number of questions, and `Quiz.ScoreCanExceedQuestionCount` exhibits a trace where it
  is not.

  `Quiz.Offered` says which gestures the screen delivers in a given session. Previous is
  disabled on the first question and Next on the last. The grid shows only 1..n. The
  dialog's buttons exist only while the dialog is open. The radio group reports only the
  value of one of the current question's options (`Quiz.RadioValue`). `Quiz.Apply`
  ignores a gesture that is not offered, as a disabled button ignores a click.
- **The registration form** (`src/pages/QuizForm.jsx`) is module `Registration`
  (`registration.dfy`). It holds a four-field record (`name`, `contactNo`, `whatsappNo`,
  `email`) that `handleChange` updates one field at a time; this is class
  `Registration.QuizForm`. It also has two pure functions: the label derived from a
  camelCase field name (`Label`) and the HTML input type chosen for a field (`InputType`).
  Module `JsString` (`js_string.dfy`) models the JavaScript string built-ins these use:
  one-character `toUpperCase`, `replace(/([A-Z])/g, " $1")`, `trim` and `includes`.

The question data (`questions.json`) is not part of this model. The runner takes the
question list as a constructor parameter and requires it to be non-empty, because the view
reads `questions[currentQuestionIndex]` unconditionally.

Facts about the code that the model keeps as written:
- The form has no field validation, touched tracking or error tracking of its own.
- `handleNumberClick` does no range check. Only grid numbers reach it.
- `handleNext` itself would score the current question even on the last one. Only the
  disabled Next button keeps that from happening.
- Nothing stops further changes after the submission is confirmed.

## Model

| member | source | states |
|---|---|---|
| `Quiz.IsCorrect` | src/components/QuestionInterface.jsx:44 | a selection is correct exactly when it equals the question's string identifier; a question with a numeric identifier is never answered correctly |
| `Quiz.Offered` | src/components/QuestionInterface.jsx:134-236 | an offered grid click carries a grid number; an offered Next always moves forward and an offered Previous always moves back, because the buttons are disabled on the last and the first question (195, 205); the dialog's Confirm and Cancel are offered only while it is open (214-229); an offered answer is the radio value of one of the current question's options (177-186) |
| `Quiz.RadioValue` | src/components/QuestionInterface.jsx:178-184 | the string a radio button reports for an option: a string identifier as it is, a number `k` as `DecimalDigits(|k|)`, after a minus sign when `k < 0` |
| `Quiz.DecimalDigits` | src/components/QuestionInterface.jsx:181 | `String(n)` for a non-negative integer is a non-empty string of decimal digits |
| `Quiz.DecimalDigitsSpec` | src/components/QuestionInterface.jsx:181 | `String(n)` for a non-negative integer spells `n` when its digits are read from the left, and has no leading zero ("0" for zero) |
| `Quiz.RadioValueSpellsNumber` | src/components/QuestionInterface.jsx:181 | the value reported for a non-negative numeric option spells that number, with no leading zero |
| `Quiz.RadioValueSpellsNegative` | src/components/QuestionInterface.jsx:181 | the value reported for a negative numeric option is "-" followed by the digits of its magnitude, with no leading zero |
| `Quiz.NumericOptionMatchesStringId` | src/components/QuestionInterface.jsx:181 | option 12 reports "12" and option -7 reports "-7", so option 12 answers a question whose id is the string "12" |
| `Quiz.Recorded` | src/components/QuestionInterface.jsx:51-53 | `answers[i] \|\| ""` is the recorded answer of question `i`, or `""` when none is recorded |
| `Quiz.JumpGrid` | src/components/QuestionInterface.jsx:27-29 | the grid holds exactly the numbers 1..n, number `i + 1` at position `i` |
| `Quiz.Initial` | src/components/QuestionInterface.jsx:22-32 | at mount: index 0, no answers, score 0, empty selection, no highlighted number, both dialogs closed |
| `Quiz.AnswerChange` | src/components/QuestionInterface.jsx:35-49 | the current question's answer becomes the chosen option and the displayed selection follows it; every other answer, the index, the score and the flags are unchanged |
| `Quiz.Next` | src/components/QuestionInterface.jsx:55-67 | below the last index the index advances by exactly one and the grid highlights the new number; at the last index neither changes; the score rises by 1 exactly when the left question's `id` equals the displayed selection, which the handler does at the last index too (the screen never calls it there, see `Quiz.Offered`); answers unchanged |
| `Quiz.Previous` | src/components/QuestionInterface.jsx:69-73 | the index drops by one exactly when it is above 0, otherwise nothing changes; score, answers and highlighted number never change |
| `Quiz.NumberClick` | src/components/QuestionInterface.jsx:75-78 | clicking grid number k sets the index to k-1 and highlights k; score and answers unchanged |
| `Quiz.Submit` | src/components/QuestionInterface.jsx:80-82 | opens the confirmation dialog and changes nothing else |
| `Quiz.ConfirmSubmit` | src/components/QuestionInterface.jsx:84-93 | closes the confirmation, shows the success notice and emits `{totalQuestions: n, score}` with the current score; nothing else changes |
| `Quiz.CancelSubmit` | src/components/QuestionInterface.jsx:95-97 | closes the confirmation dialog; answers, score and index are unchanged |
| `Quiz.CloseSnackbar` | src/components/QuestionInterface.jsx:99-101 | hides the success notice and changes nothing else |
| `Quiz.Apply` | src/components/QuestionInterface.jsx:35-101 | a gesture the screen does not offer changes nothing; every handler keeps the session consistent: index in [0, n), displayed selection equal to the recorded answer of the current question, answers only at valid indices, and a score that never decreases |
| `Quiz.Run` | src/components/QuestionInterface.jsx:35-101 | any sequence of gestures from a consistent session stays consistent and never lowers the score |
| `Quiz.ScoreAtMostNextClicks` | src/components/QuestionInterface.jsx:64-66 | over any sequence of gestures the score grows by at most the number of Next clicks |
| `Quiz.NoNextNoScore` | src/components/QuestionInterface.jsx:69-78 | answering, going back, jumping and the dialogs never change the score |
| `Quiz.NextScoresRecordedAnswer` | src/components/QuestionInterface.jsx:51-66 | in a consistent session, Next scores the recorded answer of the question being left |
| `Quiz.NextClicksReach` | src/components/QuestionInterface.jsx:55-62 | k Next clicks take index i to min(i + k, n - 1) |
| `Quiz.OnlyNextBeforeLastScores` | src/components/QuestionInterface.jsx:55-67 | one gesture raises the score, by one, exactly when it is a Next click below the last question with a correct displayed selection |
| `Quiz.SingleQuestionNeverScores` | src/components/QuestionInterface.jsx:64-66 | with one question no sequence of gestures ever changes the score |
| `Quiz.ScoreCanExceedQuestionCount` | src/components/QuestionInterface.jsx:55-73 | with two questions, the first offering an option with its own id, choosing that option and then Next, Previous, Next, Previous, Next gives score 3 > 2 questions |
| `Quiz.ThreeQuestionWalkthrough` | src/components/QuestionInterface.jsx:35-93 | three questions, each offering its own id as an option and the second one a wrong option too; right/wrong/right answers, Next after each (the last press meets the disabled button), then Submit: Confirm emits `{3, 1}` |
| `Quiz.SubmitThenCancel` | src/components/QuestionInterface.jsx:80-97 | Submit then Cancel gives back the original session |
| `Quiz.QuestionInterface.constructor` | src/components/QuestionInterface.jsx:21-32 | mounting on a non-empty list: grid 1..n, initial session |
| `Quiz.QuestionInterface.SyncSelection` | src/components/QuestionInterface.jsx:51-53 | the effect sets the displayed selection to the recorded answer of the current index |
| `Quiz.QuestionInterface.HandleAnswerChange` | src/components/QuestionInterface.jsx:35-49 | the new state is `AnswerChange` of the old one |
| `Quiz.QuestionInterface.HandleNext` | src/components/QuestionInterface.jsx:55-67 | the new state is `Next` of the old one, scoring the question being left |
| `Quiz.QuestionInterface.HandlePrevious` | src/components/QuestionInterface.jsx:69-73 | the new state is `Previous` of the old one |
| `Quiz.QuestionInterface.HandleNumberClick` | src/components/QuestionInterface.jsx:75-78 | for a grid number, the new state is `NumberClick` of the old one |
| `Quiz.QuestionInterface.HandleSubmit` | src/components/QuestionInterface.jsx:80-82 | the new state is `Submit` of the old one |
| `Quiz.QuestionInterface.HandleConfirmSubmit` | src/components/QuestionInterface.jsx:84-93 | the new state and the emitted result are `ConfirmSubmit` of the old state |
| `Quiz.QuestionInterface.HandleCancelSubmit` | src/components/QuestionInterface.jsx:95-97 | the new state is `CancelSubmit` of the old one |
| `Quiz.QuestionInterface.HandleCloseSnackbar` | src/components/QuestionInterface.jsx:99-101 | the new state is `CloseSnackbar` of the old one |
| `Registration.FieldOrder` | src/pages/QuizForm.jsx:142 | `Object.keys(formData)` lists every field of the form data exactly once |
| `Registration.InitialFormData` | src/pages/QuizForm.jsx:81-86 | the form starts with exactly the keys name, contactNo, whatsappNo and email, all `""` |
| `Registration.QuizForm.constructor` | src/pages/QuizForm.jsx:81-86 | the component mounts with the initial form data |
| `Registration.QuizForm.HandleChange` | src/pages/QuizForm.jsx:97-100 | the named field takes the new value and every other field keeps its value and presence |
| `Registration.QuizForm.HandleSubmit` | src/pages/QuizForm.jsx:102-105 | submitting changes nothing and logs the current form data |
| `Registration.Label` | src/pages/QuizForm.jsx:151-157 | the label of an empty name is empty; otherwise its first character is the upper-cased first character of the name |
| `Registration.LabelUnspaced` | src/pages/QuizForm.jsx:151-157 | for a name without whitespace, deleting the label's spaces gives back the name with its first character upper-cased |
| `Registration.LabelSpacing` | src/pages/QuizForm.jsx:151-157 | for a name without whitespace, the label is the upper-cased first character, the second character, then the rest with one space before each upper-case letter, so an upper-case letter in second position gets no space |
| `Registration.LabelOneWord` | src/pages/QuizForm.jsx:151-157 | a lower-case word ("name", "email") is labelled by the word capitalised |
| `Registration.LabelTwoWords` | src/pages/QuizForm.jsx:151-157 | a lower-case word of two or more letters followed by a capitalised word ("contactNo", "whatsappNo") is labelled "First Second" ("Contact No", "Whatsapp No") |
| `Registration.InputType` | src/pages/QuizForm.jsx:163-169 | "tel" exactly when the name contains "No"; otherwise "email" exactly for the name "email"; otherwise "text" |
| `Registration.EmailTypeOnlyForEmail` | src/pages/QuizForm.jsx:163-169 | the input type is "email" exactly for the field named "email" |
| `Registration.FieldInputTypes` | src/pages/QuizForm.jsx:142-169 | the four fields, in the form's order, get "text", "tel", "tel", "email" |
| `JsString.ToUpperChar` | src/pages/QuizForm.jsx:152 | an ASCII lower-case letter becomes the matching upper-case letter; any other character is unchanged |
| `JsString.Trim` | src/pages/QuizForm.jsx:156 | the result neither starts nor ends with whitespace, and a string without whitespace is unchanged |
| `JsString.TrimSpec` | src/pages/QuizForm.jsx:156 | `trim` keeps a contiguous part of the string and cuts only whitespace on either side |
| `JsString.TrimStartSpec` | src/pages/QuizForm.jsx:156 | removing leading whitespace leaves a suffix, cuts only whitespace and stops at the first non-whitespace character |
| `JsString.TrimEndSpec` | src/pages/QuizForm.jsx:156 | removing trailing whitespace leaves a prefix, cuts only whitespace and stops at the last non-whitespace character |
| `JsString.TrimUntouched` | src/pages/QuizForm.jsx:156 | `trim` leaves alone a string that neither starts nor ends with whitespace |
| `JsString.SpaceBeforeUpper` | src/pages/QuizForm.jsx:155 | the replacement adds one character per upper-case letter and keeps the last character |
| `JsString.SpaceBeforeUpperUnspaced` | src/pages/QuizForm.jsx:155 | the replacement only inserts spaces |
| `JsString.SpaceBeforeUpperAt` | src/pages/QuizForm.jsx:155 | character i of the input lands at i plus the number of upper-case letters up to it, preceded by a space when it is upper-case |
| `JsString.SpaceBeforeUpperAppend` | src/pages/QuizForm.jsx:155 | the replacement works character by character: it distributes over concatenation |
| `JsString.Includes` | src/pages/QuizForm.jsx:164 | `s.includes(sub)` holds exactly when `sub` occurs in `s` at some index |

## Left out

- Layout, styling, themes, animations, the Snackbar's auto-hide timer and the form's
  `isReady` timer are not modelled. They are presentation only. The auto-hide ends in the
  same `handleCloseSnackbar` that `CloseSnackbar` models.
- The 1000 ms delay before navigating to the results screen, and the navigation itself,
  are not modelled. Confirm emits the result directly. The results screen only reads the
  message, with a `{0, 0}` default.
- `console.log` calls are not modelled. The correct/incorrect log in `handleAnswerChange`
  has no effect on state. `HandleSubmit` returns the logged data.
- `questions.json` and its import are not part of this model. The question list is a
  constructor parameter. JSON identifiers are strings or integers. Non-integer numbers
  are not modelled.
- `Quiz.RadioValue`: a numeric option identifier is an unbounded integer written out in
  decimal. JSON numbers with a fraction or an exponent are not modelled. JavaScript's
  double precision is not modelled either: it rounds integers beyond 2^53, and `String`
  writes magnitudes of 1e21 or more in exponent form ("1e+21").
- The selected-answer effect is run inside the handler, at the point where React would
  run it after the render: only when the index or the answers changed. Render timing and
  batching are not modelled beyond this.
- `Quiz.NumberClick`: numbers outside 1..n are excluded by its precondition and not
  modelled. The code does no range check, and its only caller is the jump grid, which
  offers exactly 1..n.
- `Quiz.Run`: no terminal state after confirmation. The code does not stop changes after
  Confirm, so the model does not either.
- `Quiz.Offered`: the confirmation dialog is modal, so the question screen behind it takes
  no clicks while it is open. The model does not exclude those gestures. It therefore
  allows somewhat more sequences than the screen does.
- `JsString.ToUpperChar`: maps only ASCII letters. JavaScript's `toUpperCase` also maps
  other scripts and can expand one character into two (for example "ß" becomes "SS").
- Characters are Unicode scalar values, not the UTF-16 code units JavaScript strings are
  made of. For field names outside the Basic Multilingual Plane, `charAt(0)` and
  `slice(1)` would split a surrogate pair.
- The order of the form's fields, given by `Object.keys` on the record, is
  `Registration.FieldOrder`. The form data itself is a map, which has no order.
- The browser's own constraint validation is not modelled. It blocks submitting while a
  `required` field is empty, and while the `type="email"` field does not hold an email
  address. It happens in the browser before
  `handleSubmit` runs, and the form code does no validation of its own.
