/**
 * The exercise panel (components/Exercises.tsx): requesting a generated
 * exercise, answering it once, and the letters shown beside the options.
 * The request to the exercise endpoint is not made here: its outcome is a
 * parameter of the handler that receives it.
 */
module Exercises {
  import opened Types
  import opened ExerciseRoute

  /**
   * `String.fromCharCode(65 + index)`: the letter shown beside the option at
   * `index`. For the four labelled positions it reads back, through the
   * endpoint's `charCodeAt(0) - 65`, as the same index.
   */
  function OptionLabel(index: nat): (c: char)
    requires 65 + index < 0xD800
    ensures c as int == 65 + index
    ensures index < 4 <==> IsLetter(c)
    ensures LetterIndex(c) == index
  {
    (65 + index) as char
  }

  /** Every letter the endpoint accepts is the label of the index it stands for. */
  lemma LetterLabelRoundTrip(c: char)
    requires IsLetter(c)
    ensures 0 <= LetterIndex(c) < 4 && OptionLabel(LetterIndex(c)) == c
  {
  }

  /** How an option button is drawn (lines 94-109). */
  datatype Feedback = Selectable | MarkedCorrect | MarkedWrong | Dimmed

  function OptionFeedback(index: int, selected: Option<int>, correctAnswer: int, showResult: bool): Feedback {
    if !showResult then Selectable
    else if index == correctAnswer then MarkedCorrect
    else if selected == Some(index) then MarkedWrong
    else Dimmed
  }

  /**
   * Once the result is shown, the correct option is the one marked correct,
   * and an option is marked wrong exactly when it was the learner's wrong pick.
   */
  lemma FeedbackMarksAnswer(n: nat, selected: Option<int>, correctAnswer: int)
    ensures forall i :: 0 <= i < n ==>
      (OptionFeedback(i, selected, correctAnswer, true) == MarkedCorrect <==> i == correctAnswer)
    ensures forall i :: 0 <= i < n ==>
      (OptionFeedback(i, selected, correctAnswer, true) == MarkedWrong <==> selected == Some(i) && i != correctAnswer)
    ensures forall i, j :: 0 <= i < j < n && OptionFeedback(i, selected, correctAnswer, true) == MarkedWrong ==>
      OptionFeedback(j, selected, correctAnswer, true) != MarkedWrong
  {
  }

  class ExercisePanel {
    var exercise: Option<GeneratedExercise>
    var selectedAnswer: Option<int>
    var showResult: bool
    var isLoading: bool
    /** How often `onStatsUpdate` has fired since the current exercise was requested. */
    ghost var reports: nat

    /** An answer has been reported exactly when the result is on show. */
    ghost predicate Valid()
      reads this
    {
      reports == (if showResult then 1 else 0)
    }

    /** The initial state of the four `useState` hooks (lines 14-17). */
    constructor ()
      ensures Valid()
      ensures exercise == None && selectedAnswer == None && !showResult && !isLoading && reports == 0
    {
      exercise := None;
      selectedAnswer := None;
      showResult := false;
      isLoading := false;
      reports := 0;
    }

    /** The resets `generateExercise` makes before it sends the request (lines 20-23). */
    method StartRequest()
      modifies this
      ensures Valid()
      ensures isLoading && exercise == None && selectedAnswer == None && !showResult && reports == 0
    {
      isLoading := true;
      exercise := None;
      selectedAnswer := None;
      showResult := false;
      reports := 0;
    }

    /**
     * The response handling of `generateExercise` (lines 32-40): the exercise
     * is taken only when the response carries one, and loading ends whatever
     * the outcome. An error body, or a request that throws, is `ErrorBody`.
     */
    method CompleteRequest(response: Response)
      requires Valid()
      modifies this
      ensures Valid()
      ensures exercise == (if response.ExerciseBody? then Some(response.exercise) else old(exercise))
      ensures !isLoading
      ensures selectedAnswer == old(selectedAnswer) && showResult == old(showResult) && reports == old(reports)
    {
      if response.ExerciseBody? {
        exercise := Some(response.exercise);
      }
      isLoading := false;
    }

    /** The whole of `generateExercise`, from the click to the end of the request. */
    method GenerateExercise(response: Response)
      modifies this
      ensures Valid()
      ensures exercise == (if response.ExerciseBody? then Some(response.exercise) else None)
      ensures selectedAnswer == None && !showResult && !isLoading && reports == 0
    {
      StartRequest();
      CompleteRequest(response);
    }

    /**
     * `checkAnswer(index)` (lines 44-52). Returns the value passed to
     * `onStatsUpdate`, or None when the handler returns early because the
     * result is already shown.
     */
    method CheckAnswer(index: int) returns (report: Option<bool>)
      requires Valid()
      modifies this
      ensures Valid() && reports <= 1
      ensures old(showResult) ==> report == None && selectedAnswer == old(selectedAnswer) && reports == old(reports)
      ensures !old(showResult) ==>
        && report == Some(exercise.Some? && index == exercise.value.correctAnswer)
        && selectedAnswer == Some(index) && reports == 1
      ensures showResult && exercise == old(exercise) && isLoading == old(isLoading)
    {
      if showResult {
        return None;
      }
      selectedAnswer := Some(index);
      showResult := true;
      reports := reports + 1;
      var isCorrect := exercise.Some? && index == exercise.value.correctAnswer;
      report := Some(isCorrect);
    }
  }
}
