/** The question runner: a session over a fixed, non-empty list of questions
    that keeps the current question index, the option chosen for each
    visited question, a running score, the number highlighted in the jump
    grid and the two dialog flags. Each handler of the screen is a
    transition of that state. */
module Quiz {

  datatype Option<T> = None | Some(value: T)

  /** An identifier as the question data carries it: a JSON string or a
      JSON number. */
  datatype Id = Str(text: string) | Num(number: int)

  datatype Choice = Choice(id: Id, caption: string)

  datatype Question = Question(id: Id, text: string, options: seq<Choice>)

  /** The message handed to the results screen. */
  datatype QuizResult = QuizResult(totalQuestions: nat, score: nat)

  /** The state the question runner keeps. `selectedAnswer` is the value the
      radio group shows; the value a radio button reports is always a
      string. */
  datatype Session = Session(
    index: int,
    answers: map<int, string>,
    score: nat,
    selectedAnswer: string,
    selectedNumber: Option<int>,
    confirmationOpen: bool,
    successOpen: bool)

  /** The correctness test of the source, kept as written: the selected value
      is strictly equal to the question's own identifier. A question with a
      numeric identifier is never answered correctly. */
  predicate IsCorrect(q: Question, selected: string): (b: bool)
    ensures q.id.Num? ==> !b
    ensures q.id.Str? ==> (b <==> selected == q.id.text)
  {
    q.id == Str(selected)
  }

  /** The number a string of decimal digits spells, read from the left. */
  function DigitsValue(r: string): int {
    if r == [] then 0 else 10 * DigitsValue(r[..|r| - 1]) + (r[|r| - 1] as int - '0' as int)
  }

  /** The decimal digits of `n`, as `String(n)` writes a non-negative
      integer. */
  function DecimalDigits(n: nat): (r: string)
    ensures r != [] && forall i :: 0 <= i < |r| ==> '0' <= r[i] <= '9'
    decreases n
  {
    (if n < 10 then [] else DecimalDigits(n / 10)) + [('0' as int + n % 10) as char]
  }

  /** `DecimalDigits(n)` spells `n` when read from the left and has no
      leading zero: it is "0" for zero and starts with a non-zero digit
      otherwise. */
  lemma {:induction false} DecimalDigitsSpec(n: nat)
    ensures var r := DecimalDigits(n);
            DigitsValue(r) == n && (n == 0 ==> r == "0") && (n > 0 ==> r[0] != '0')
    decreases n
  {
    var prefix := if n < 10 then [] else DecimalDigits(n / 10);
    var r := DecimalDigits(n);
    assert r == prefix + [('0' as int + n % 10) as char];
    assert r[..|r| - 1] == prefix;
    if n >= 10 {
      DecimalDigitsSpec(n / 10);
    }
  }

  /** The string a radio button reports for an option identifier: the
      identifier itself when it is a string, `String(k)` when it is the
      number `k`. */
  function RadioValue(id: Id): (r: string)
    ensures id.Str? ==> r == id.text
    ensures id.Num? && id.number >= 0 ==> r == DecimalDigits(id.number)
    ensures id.Num? && id.number < 0 ==> r == "-" + DecimalDigits(-id.number)
  {
    match id
    case Str(text) => text
    case Num(k) => if k < 0 then "-" + DecimalDigits(-k) else DecimalDigits(k)
  }

  /** A non-negative numeric option reports the number it carries: its
      decimal digits, with no leading zero. */
  lemma RadioValueSpellsNumber(k: nat)
    ensures var r := RadioValue(Num(k));
            DigitsValue(r) == k && (r[0] != '0' || r == "0")
  {
    DecimalDigitsSpec(k);
  }

  /** A negative numeric option reports a minus sign followed by the digits
      of its magnitude, with no leading zero. */
  lemma RadioValueSpellsNegative(k: int)
    requires k < 0
    ensures var r := RadioValue(Num(k));
            |r| >= 2 && r[0] == '-' && r[1] != '0' && DigitsValue(r[1..]) == -k
  {
    var d := DecimalDigits(-k);
    DecimalDigitsSpec(-k);
    MinusSign(d);
  }

  /** A minus sign in front of `d` leaves `d` in place after it. */
  lemma MinusSign(d: string)
    requires d != []
    ensures var r := "-" + d; |r| >= 2 && r[0] == '-' && r[1..] == d && r[1] == d[0]
  {
  }

  /** A numeric option can match a question whose identifier is the same
      number written as a string: option 12 answers question "12". */
  lemma NumericOptionMatchesStringId()
    ensures RadioValue(Num(12)) == "12" && RadioValue(Num(-7)) == "-7"
    ensures IsCorrect(Question(Str("12"), "", []), RadioValue(Num(12)))
  {
    assert DecimalDigits(1) == "1";
    assert DecimalDigits(12) == DecimalDigits(1) + "2";
    assert DecimalDigits(7) == "7";
  }

  /** `answers[i] || ""`: the recorded answer for question `i`, or the empty
      string when there is none. */
  function Recorded(answers: map<int, string>, i: int): (r: string)
    ensures i in answers ==> r == answers[i]
    ensures i !in answers ==> r == ""
  {
    if i in answers && answers[i] != "" then answers[i] else ""
  }

  /** The numbers of the jump grid for `n` questions. */
  function JumpGrid(n: nat): (r: seq<int>)
    ensures |r| == n
    ensures forall k :: k in r <==> 1 <= k <= n
    ensures forall i :: 0 <= i < n ==> r[i] == i + 1
  {
    if n == 0 then [] else JumpGrid(n - 1) + [n]
  }

  /** What every reachable session satisfies: the index is a valid question
      index, the displayed selection is the recorded answer of the current
      question, answers are only recorded for valid indices and the
      highlighted number is one of the grid's. */
  predicate Consistent(qs: seq<Question>, s: Session) {
    && 0 <= s.index < |qs|
    && s.selectedAnswer == Recorded(s.answers, s.index)
    && (forall k :: k in s.answers ==> 0 <= k < |qs|)
    && (s.selectedNumber.Some? ==> 1 <= s.selectedNumber.value <= |qs|)
  }

  /** The session when the runner is mounted. */
  function Initial(): (s: Session)
    ensures s.index == 0 && s.answers == map[] && s.score == 0
    ensures s.selectedAnswer == "" && s.selectedNumber == None
    ensures !s.confirmationOpen && !s.successOpen
  {
    Session(0, map[], 0, "", None, false, false)
  }

  /** Choosing `option` for the current question: the answer of the current
      question becomes `option` and the displayed selection follows it;
      nothing else changes. */
  function AnswerChange(qs: seq<Question>, s: Session, option: string): (r: Session)
    requires 0 <= s.index < |qs|
    ensures r.answers == s.answers[s.index := option]
    ensures forall k :: k != s.index && k in s.answers ==> k in r.answers && r.answers[k] == s.answers[k]
    ensures forall k :: k != s.index && k !in s.answers ==> k !in r.answers
    ensures r.selectedAnswer == option == Recorded(r.answers, r.index)
    ensures r.index == s.index && r.score == s.score && r.selectedNumber == s.selectedNumber
    ensures r.confirmationOpen == s.confirmationOpen && r.successOpen == s.successOpen
  {
    var answers := s.answers[s.index := option];
    s.(answers := answers, selectedAnswer := Recorded(answers, s.index))
  }

  /** The Next button. Below the last index the index moves forward by one
      and the grid highlights the new question's number; at the last index
      neither changes. In both cases the question being left is scored: one
      point when the displayed selection is correct. */
  function Next(qs: seq<Question>, s: Session): (r: Session)
    requires 0 <= s.index < |qs|
    ensures s.index < |qs| - 1 ==> r.index == s.index + 1 && r.selectedNumber == Some(r.index + 1)
    ensures s.index == |qs| - 1 ==> r.index == s.index && r.selectedNumber == s.selectedNumber
    ensures 0 <= r.index < |qs|
    ensures r.score == if IsCorrect(qs[s.index], s.selectedAnswer) then s.score + 1 else s.score
    ensures r.answers == s.answers
    ensures r.confirmationOpen == s.confirmationOpen && r.successOpen == s.successOpen
  {
    var advance := s.index < |qs| - 1;
    var i := if advance then s.index + 1 else s.index;
    s.(index := i,
       selectedNumber := if advance then Some(i + 1) else s.selectedNumber,
       score := if IsCorrect(qs[s.index], s.selectedAnswer) then s.score + 1 else s.score,
       selectedAnswer := if advance then Recorded(s.answers, i) else s.selectedAnswer)
  }

  /** The Previous button: the index moves back by one exactly when it is
      above 0; score, answers and the highlighted number never change. */
  function Previous(s: Session): (r: Session)
    ensures s.index > 0 ==> r.index == s.index - 1
    ensures s.index <= 0 ==> r == s
    ensures r.score == s.score && r.answers == s.answers && r.selectedNumber == s.selectedNumber
    ensures r.confirmationOpen == s.confirmationOpen && r.successOpen == s.successOpen
  {
    if s.index > 0 then
      s.(index := s.index - 1, selectedAnswer := Recorded(s.answers, s.index - 1))
    else s
  }

  /** A click on number `number` of the jump grid: the index becomes
      `number - 1` and the number is highlighted, without scoring and without
      touching the answers. */
  function NumberClick(qs: seq<Question>, s: Session, number: int): (r: Session)
    requires number in JumpGrid(|qs|)
    ensures r.index == number - 1 && 0 <= r.index < |qs|
    ensures r.selectedNumber == Some(number)
    ensures r.score == s.score && r.answers == s.answers
    ensures r.confirmationOpen == s.confirmationOpen && r.successOpen == s.successOpen
  {
    var i := number - 1;
    s.(selectedNumber := Some(number),
       index := i,
       selectedAnswer := if i != s.index then Recorded(s.answers, i) else s.selectedAnswer)
  }

  /** The Submit button opens the confirmation dialog and changes nothing
      else. */
  function Submit(s: Session): (r: Session)
    ensures r.confirmationOpen
    ensures r.(confirmationOpen := s.confirmationOpen) == s
  {
    s.(confirmationOpen := true)
  }

  /** Cancel closes the confirmation dialog and changes nothing else. */
  function CancelSubmit(s: Session): (r: Session)
    ensures !r.confirmationOpen
    ensures r.(confirmationOpen := s.confirmationOpen) == s
  {
    s.(confirmationOpen := false)
  }

  /** Confirm closes the confirmation dialog, shows the success notice and
      emits the result: the number of questions and the current score. */
  function ConfirmSubmit(qs: seq<Question>, s: Session): (r: (Session, QuizResult))
    ensures !r.0.confirmationOpen && r.0.successOpen
    ensures r.0.(confirmationOpen := s.confirmationOpen, successOpen := s.successOpen) == s
    ensures r.1.totalQuestions == |qs| && r.1.score == s.score
  {
    (s.(confirmationOpen := false, successOpen := true), QuizResult(|qs|, s.score))
  }

  /** Closing the success notice hides it and changes nothing else. */
  function CloseSnackbar(s: Session): (r: Session)
    ensures !r.successOpen
    ensures r.(successOpen := s.successOpen) == s
  {
    s.(successOpen := false)
  }

  /** A user gesture on the question screen. */
  datatype Event =
    | AnswerChosen(option: string)
    | NextClicked
    | PreviousClicked
    | NumberClicked(number: int)
    | SubmitClicked
    | CancelClicked
    | ConfirmClicked
    | SnackbarClosed

  /** Whether the screen delivers gesture `e` in session `s`. The Previous
      button is disabled on the first question and the Next button on the
      last one; the grid only shows the numbers 1..n; the dialog's buttons
      (and its backdrop and Escape key, which cancel) exist only while the
      dialog is open; the notice closes only while it is shown; the radio
      group reports only the values of the current question's options. An
      offered Next always moves forward and an offered Previous always moves
      back. */
  predicate Offered(qs: seq<Question>, s: Session, e: Event): (b: bool)
    ensures b && e.NumberClicked? ==> e.number in JumpGrid(|qs|)
    ensures b && e.NextClicked? && 0 <= s.index < |qs| ==> Next(qs, s).index == s.index + 1
    ensures b && e.PreviousClicked? ==> Previous(s).index == s.index - 1
    ensures b && (e.ConfirmClicked? || e.CancelClicked?) ==> s.confirmationOpen
    ensures b && e.AnswerChosen? ==>
              0 <= s.index < |qs| && exists c :: c in qs[s.index].options && e.option == RadioValue(c.id)
  {
    match e
    case NextClicked => s.index < |qs| - 1
    case PreviousClicked => s.index > 0
    case NumberClicked(number) => 1 <= number <= |qs|
    case ConfirmClicked => s.confirmationOpen
    case CancelClicked => s.confirmationOpen
    case SnackbarClosed => s.successOpen
    case AnswerChosen(option) =>
      0 <= s.index < |qs| && exists c :: c in qs[s.index].options && option == RadioValue(c.id)
    case SubmitClicked => true
  }

  /** The session after one gesture: a gesture the screen does not offer (a
      click on a disabled button) changes nothing, any other one runs its
      handler. Every gesture keeps the session consistent. */
  function Apply(qs: seq<Question>, s: Session, e: Event): (r: Session)
    requires Consistent(qs, s)
    ensures Consistent(qs, r)
    ensures r.score >= s.score
  {
    if !Offered(qs, s, e) then s
    else match e
      case AnswerChosen(option) => AnswerChange(qs, s, option)
      case NextClicked => Next(qs, s)
      case PreviousClicked => Previous(s)
      case NumberClicked(number) => NumberClick(qs, s, number)
      case SubmitClicked => Submit(s)
      case CancelClicked => CancelSubmit(s)
      case ConfirmClicked => ConfirmSubmit(qs, s).0
      case SnackbarClosed => CloseSnackbar(s)
  }

  /** The session after a sequence of gestures. */
  function Run(qs: seq<Question>, s: Session, es: seq<Event>): (r: Session)
    requires Consistent(qs, s)
    ensures Consistent(qs, r)
    ensures r.score >= s.score
    decreases |es|
  {
    if es == [] then s else Run(qs, Apply(qs, s, es[0]), es[1..])
  }

  /** The number of Next clicks in `es`. */
  function CountNext(es: seq<Event>): nat {
    if es == [] then 0 else (if es[0].NextClicked? then 1 else 0) + CountNext(es[1..])
  }

  /** One gesture scores exactly when it is a Next click below the last
      question with a correct displayed selection: the last question's
      answer is never scored, because Next is disabled there. */
  lemma OnlyNextBeforeLastScores(qs: seq<Question>, s: Session, e: Event)
    requires Consistent(qs, s)
    ensures Apply(qs, s, e).score ==
            if e.NextClicked? && s.index < |qs| - 1 && IsCorrect(qs[s.index], s.selectedAnswer)
            then s.score + 1 else s.score
  {
  }

  /** With a single question nothing ever scores: its answer is on the last
      question, where Next is disabled. */
  lemma {:induction false} SingleQuestionNeverScores(qs: seq<Question>, s: Session, es: seq<Event>)
    requires |qs| == 1 && Consistent(qs, s)
    ensures Run(qs, s, es).score == s.score
    decreases |es|
  {
    if es != [] {
      OnlyNextBeforeLastScores(qs, s, es[0]);
      SingleQuestionNeverScores(qs, Apply(qs, s, es[0]), es[1..]);
    }
  }

  /** Only Next scores, and by at most one point per click: the score grows
      by at most the number of Next clicks. */
  lemma {:induction false} ScoreAtMostNextClicks(qs: seq<Question>, s: Session, es: seq<Event>)
    requires Consistent(qs, s)
    ensures Run(qs, s, es).score <= s.score + CountNext(es)
    decreases |es|
  {
    if es != [] {
      ScoreAtMostNextClicks(qs, Apply(qs, s, es[0]), es[1..]);
    }
  }

  /** A user who only answers, jumps, goes back and opens or closes dialogs
      never scores. */
  lemma {:induction false} NoNextNoScore(qs: seq<Question>, s: Session, es: seq<Event>)
    requires Consistent(qs, s)
    requires forall i :: 0 <= i < |es| ==> !es[i].NextClicked?
    ensures Run(qs, s, es).score == s.score
  {
    ScoreAtMostNextClicks(qs, s, es);
    NoNextCount(es);
  }

  lemma {:induction false} NoNextCount(es: seq<Event>)
    requires forall i :: 0 <= i < |es| ==> !es[i].NextClicked?
    ensures CountNext(es) == 0
  {
    if es != [] {
      NoNextCount(es[1..]);
    }
  }

  /** In a consistent session Next scores the recorded answer of the question
      being left. */
  lemma NextScoresRecordedAnswer(qs: seq<Question>, s: Session)
    requires Consistent(qs, s)
    ensures Next(qs, s).score ==
            if IsCorrect(qs[s.index], Recorded(s.answers, s.index)) then s.score + 1 else s.score
  {
  }

  /** `k` Next clicks move the index forward by `k`, but never past the last
      question. */
  lemma {:induction false} NextClicksReach(qs: seq<Question>, s: Session, k: nat)
    requires Consistent(qs, s)
    ensures var r := Run(qs, s, seq(k, _ => NextClicked));
            r.index == if s.index + k < |qs| then s.index + k else |qs| - 1
    decreases k
  {
    var es := seq(k, _ => NextClicked);
    if k > 0 {
      assert es[1..] == seq(k - 1, _ => NextClicked);
      NextClicksReach(qs, Apply(qs, s, NextClicked), k - 1);
    }
  }

  /** The score is not bounded by the number of questions: with two questions
      of which the first has identifier "a", choosing "a" and then going
      Next, Previous, Next, Previous, Next scores the first question three
      times. */
  lemma ScoreCanExceedQuestionCount(other: Question)
    ensures var qs := [Question(Str("a"), "", [Choice(Str("a"), "")]), other];
            var es := [AnswerChosen("a"), NextClicked, PreviousClicked, NextClicked,
                       PreviousClicked, NextClicked];
            Run(qs, Initial(), es).score == 3 > |qs|
  {
    var qs := [Question(Str("a"), "", [Choice(Str("a"), "")]), other];
    var es := [AnswerChosen("a"), NextClicked, PreviousClicked, NextClicked,
               PreviousClicked, NextClicked];
    var pair := [NextClicked, PreviousClicked];
    assert es == [AnswerChosen("a")] + (pair + (pair + [NextClicked]));
    var s0 := AnswerChange(qs, Initial(), "a");
    assert Run(qs, Initial(), [AnswerChosen("a")]) == s0 by {
      assert Choice(Str("a"), "") in qs[0].options;
      assert Offered(qs, Initial(), AnswerChosen("a"));
    }
    RunAppend(qs, Initial(), [AnswerChosen("a")], pair + (pair + [NextClicked]));
    NextThenPrevious(qs, s0);
    var s1 := Run(qs, s0, pair);
    RunAppend(qs, s0, pair, pair + [NextClicked]);
    NextThenPrevious(qs, s1);
    var s2 := Run(qs, s1, pair);
    RunAppend(qs, s1, pair, [NextClicked]);
    assert Run(qs, s2, [NextClicked]).score == 3 by {
      assert IsCorrect(qs[0], s2.selectedAnswer);
    }
  }

  /** On the first of two questions with its correct answer displayed, Next
      and then Previous score it once and come back to it. */
  lemma NextThenPrevious(qs: seq<Question>, s: Session)
    requires |qs| == 2 && Consistent(qs, s) && s.index == 0
    requires IsCorrect(qs[0], s.selectedAnswer)
    ensures var r := Run(qs, s, [NextClicked, PreviousClicked]);
            Consistent(qs, r) && r.index == 0 && r.score == s.score + 1 &&
            r.selectedAnswer == s.selectedAnswer
  {
    var n := Next(qs, s);
    assert Run(qs, s, [NextClicked, PreviousClicked]) == Run(qs, n, [PreviousClicked]) by {
      assert [NextClicked, PreviousClicked][1..] == [PreviousClicked];
    }
    assert Run(qs, n, [PreviousClicked]) == Previous(n) by {
      assert n.index == 1;
    }
  }

  /** Running two sequences one after the other is running their
      concatenation. */
  lemma {:induction false} RunAppend(qs: seq<Question>, s: Session, xs: seq<Event>, ys: seq<Event>)
    requires Consistent(qs, s)
    ensures Run(qs, s, xs + ys) == Run(qs, Run(qs, s, xs), ys)
    decreases |xs|
  {
    if xs == [] {
      assert xs + ys == ys;
    } else {
      assert (xs + ys)[0] == xs[0] && (xs + ys)[1..] == xs[1..] + ys;
      RunAppend(qs, Apply(qs, s, xs[0]), xs[1..], ys);
    }
  }

  /** Three questions with string identifiers, each offering its own
      identifier as an option; the second also offers another option `rb`.
      The matching option is chosen for the first and third and `rb` for the
      second, and Next is pressed after each. The last press meets the
      disabled Next button, so the third answer is never scored: Submit and
      Confirm emit three questions and a score of one. */
  lemma ThreeQuestionWalkthrough(a: Question, b: Question, c: Question, ra: Choice, rb: Choice, rc: Choice)
    requires a.id.Str? && b.id.Str? && c.id.Str?
    requires ra in a.options && ra.id == a.id
    requires rb in b.options && rb.id.Str? && rb.id != b.id
    requires rc in c.options && rc.id == c.id
    ensures var qs := [a, b, c];
            var es := [AnswerChosen(a.id.text), NextClicked, AnswerChosen(rb.id.text), NextClicked,
                       AnswerChosen(c.id.text), NextClicked, SubmitClicked];
            ConfirmSubmit(qs, Run(qs, Initial(), es)).1 == QuizResult(3, 1)
  {
    var qs := [a, b, c];
    var head := [AnswerChosen(a.id.text), NextClicked, AnswerChosen(rb.id.text), NextClicked];
    var tail := [AnswerChosen(c.id.text), NextClicked, SubmitClicked];
    assert head + tail == [AnswerChosen(a.id.text), NextClicked, AnswerChosen(rb.id.text), NextClicked,
                           AnswerChosen(c.id.text), NextClicked, SubmitClicked];
    FirstTwoAnswers(qs, Initial(), ra, rb);
    var s2 := Run(qs, Initial(), head);
    LastAnswerAndSubmit(qs, s2, rc);
    RunAppend(qs, Initial(), head, tail);
  }

  /** On the first of three questions, the right answer to the first
      question and a wrong one to the second, each followed by Next, score
      one point and reach the last question. */
  lemma FirstTwoAnswers(qs: seq<Question>, s: Session, ra: Choice, rb: Choice)
    requires |qs| == 3 && Consistent(qs, s) && s.index == 0
    requires ra in qs[0].options && ra.id.Str? && ra.id == qs[0].id
    requires rb in qs[1].options && rb.id.Str? && rb.id != qs[1].id
    ensures var r := Run(qs, s, [AnswerChosen(ra.id.text), NextClicked,
                                 AnswerChosen(rb.id.text), NextClicked]);
            r.score == s.score + 1 && r.index == 2
  {
    var first := [AnswerChosen(ra.id.text), NextClicked];
    var second := [AnswerChosen(rb.id.text), NextClicked];
    AnswerThenNext(qs, s, ra);
    AnswerThenNext(qs, Run(qs, s, first), rb);
    RunAppend(qs, s, first, second);
  }

  /** The last step of the walkthrough: an answer to the last question, a
      press of the disabled Next button and Submit leave the score alone. */
  lemma LastAnswerAndSubmit(qs: seq<Question>, s: Session, rc: Choice)
    requires Consistent(qs, s) && s.index == |qs| - 1
    requires rc in qs[s.index].options && rc.id.Str?
    ensures Run(qs, s, [AnswerChosen(rc.id.text), NextClicked, SubmitClicked]).score == s.score
  {
    var tail := [AnswerChosen(rc.id.text), NextClicked, SubmitClicked];
    var s3 := AnswerChange(qs, s, rc.id.text);
    assert Offered(qs, s, tail[0]) by {
      assert RadioValue(rc.id) == rc.id.text;
    }
    assert Run(qs, s, tail) == Run(qs, s3, tail[1..]);
    assert s3.index == |qs| - 1 && !Offered(qs, s3, NextClicked);
    assert Run(qs, s3, tail[1..]) == Run(qs, s3, [SubmitClicked]) by {
      assert tail[1..][1..] == [SubmitClicked];
    }
  }

  /** Choosing the option `ch` of the current question, not the last one,
      and pressing Next moves to the next question and scores one point
      exactly when `ch` carries the question's own identifier. */
  lemma AnswerThenNext(qs: seq<Question>, s: Session, ch: Choice)
    requires Consistent(qs, s) && s.index < |qs| - 1
    requires ch in qs[s.index].options && ch.id.Str?
    ensures var r := Run(qs, s, [AnswerChosen(ch.id.text), NextClicked]);
            r.index == s.index + 1 &&
            r.score == if ch.id == qs[s.index].id then s.score + 1 else s.score
  {
    var es := [AnswerChosen(ch.id.text), NextClicked];
    assert Offered(qs, s, es[0]) by {
      assert RadioValue(ch.id) == ch.id.text;
    }
    var r := AnswerChange(qs, s, ch.id.text);
    assert Run(qs, s, es) == Run(qs, r, [NextClicked]) by {
      assert es[1..] == [NextClicked];
    }
    assert Run(qs, r, [NextClicked]) == Next(qs, r);
  }

  /** Submit followed by Cancel restores the session exactly, when the
      confirmation dialog was closed before. */
  lemma SubmitThenCancel(s: Session)
    requires !s.confirmationOpen
    ensures CancelSubmit(Submit(s)) == s
  {
  }

  /** The question runner as a component with mutable state. */
  class QuestionInterface {
    const questions: seq<Question>
    const numbers: seq<int>
    var selectedAnswer: string
    var selectedNumber: Option<int>
    var currentQuestionIndex: int
    var openConfirmation: bool
    var openSuccess: bool
    var answers: map<int, string>
    var score: nat

    /** The component's state as a session value. */
    function State(): Session
      reads this
    {
      Session(currentQuestionIndex, answers, score, selectedAnswer, selectedNumber,
              openConfirmation, openSuccess)
    }

    ghost predicate Valid()
      reads this
    {
      numbers == JumpGrid(|questions|) && Consistent(questions, State())
    }

    /** Mounting the screen on a non-empty question list: the grid holds
        1..n and the session is the initial one. */
    constructor (questions: seq<Question>)
      requires |questions| > 0
      ensures Valid() && this.questions == questions
      ensures numbers == JumpGrid(|questions|)
      ensures State() == Initial()
    {
      this.questions := questions;
      numbers := JumpGrid(|questions|);
      selectedAnswer := "";
      selectedNumber := None;
      currentQuestionIndex := 0;
      openConfirmation := false;
      openSuccess := false;
      answers := map[];
      score := 0;
    }

    /** The effect that re-reads the displayed selection whenever the index
        or the answers change. */
    method SyncSelection()
      modifies this`selectedAnswer
      ensures selectedAnswer == Recorded(answers, currentQuestionIndex)
    {
      selectedAnswer := Recorded(answers, currentQuestionIndex);
    }

    method HandleAnswerChange(option: string)
      requires Valid()
      modifies this
      ensures Valid() && State() == AnswerChange(questions, old(State()), option)
    {
      selectedAnswer := option;
      answers := answers[currentQuestionIndex := option];
      SyncSelection();
    }

    method HandleNext()
      requires Valid()
      modifies this
      ensures Valid() && State() == Next(questions, old(State()))
    {
      var leaving := currentQuestionIndex;
      if currentQuestionIndex < |questions| - 1 {
        currentQuestionIndex := currentQuestionIndex + 1;
        selectedNumber := Some(currentQuestionIndex + 1);
      }
      if IsCorrect(questions[leaving], selectedAnswer) {
        score := score + 1;
      }
      if currentQuestionIndex != leaving {
        SyncSelection();
      }
    }

    method HandlePrevious()
      requires Valid()
      modifies this
      ensures Valid() && State() == Previous(old(State()))
    {
      if currentQuestionIndex > 0 {
        currentQuestionIndex := currentQuestionIndex - 1;
        SyncSelection();
      }
    }

    method HandleNumberClick(number: int)
      requires Valid() && number in numbers
      modifies this
      ensures Valid() && State() == NumberClick(questions, old(State()), number)
    {
      var leaving := currentQuestionIndex;
      selectedNumber := Some(number);
      currentQuestionIndex := number - 1;
      if currentQuestionIndex != leaving {
        SyncSelection();
      }
    }

    method HandleSubmit()
      requires Valid()
      modifies this
      ensures Valid() && State() == Submit(old(State()))
    {
      openConfirmation := true;
    }

    method HandleConfirmSubmit() returns (result: QuizResult)
      requires Valid()
      modifies this
      ensures Valid() && (State(), result) == ConfirmSubmit(questions, old(State()))
    {
      openConfirmation := false;
      openSuccess := true;
      result := QuizResult(|questions|, score);
    }

    method HandleCancelSubmit()
      requires Valid()
      modifies this
      ensures Valid() && State() == CancelSubmit(old(State()))
    {
      openConfirmation := false;
    }

    method HandleCloseSnackbar()
      requires Valid()
      modifies this
      ensures Valid() && State() == CloseSnackbar(old(State()))
    {
      openSuccess := false;
    }
  }
}
