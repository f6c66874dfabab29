/**
 * The question payload the sentence screen receives (server/question.py): a prompt, the slot row
 * (fixed words, blanks "" and line breaks "\n"), the word bank and the expected answer.
 */
module Questions {
  /** `QuestionData`; `initialMovable` defaults to false. */
  datatype QuestionData = QuestionData(prompt: string, slots: seq<string>, bankWords: seq<string>, correct: seq<string>,
                                       initialMovable: bool)

  /** A question built with the default `initialMovable`. */
  function Question(prompt: string, slots: seq<string>, bankWords: seq<string>, correct: seq<string>): (q: QuestionData)
    ensures !q.initialMovable
    ensures q.prompt == prompt && q.slots == slots && q.bankWords == bankWords && q.correct == correct
  {
    QuestionData(prompt, slots, bankWords, correct, false)
  }
}
