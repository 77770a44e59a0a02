/** What every score is about: a benchmark question and the verdict on it. */
module Questions {
  /** Ids are only compared; the wrapper keeps their text out of the set reasoning. */
  datatype QuestionId = QuestionId(name: string)

  datatype Verdict = Correct | Incorrect | ManualReview | Error
}
