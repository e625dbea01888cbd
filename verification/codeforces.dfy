/** The judge's submission records, as both the backend (through Python dicts) and the
    live view (through JavaScript objects) read them. Every key the code reads with a
    default or may find missing is an `Option`. */
module Codeforces {
  import opened Wrappers

  datatype Problem = Problem(
    name: Option<string>,
    index: Option<string>,
    rating: Option<int>,
    tags: Option<seq<string>>)

  datatype Submission = Submission(
    id: Option<int>,
    contestId: Option<int>,
    problem: Option<Problem>,
    verdict: Option<string>,
    passedTestCount: Option<int>,
    testCount: Option<int>)

  /** The decoded body of a `user.status` reply. */
  datatype UserStatus = UserStatus(status: Option<string>, result: Option<seq<Submission>>)

  /** The verdict the judge gives an accepted submission. */
  const ACCEPTED: string := "OK"

  /** The `status` of a successful `user.status` reply. It is a different field from a
      verdict that happens to use the same text. */
  const STATUS_OK: string := "OK"

  /** A submission counts as a mistake unless its verdict is exactly "OK"; a submission
      with no verdict yet (still in the queue) is a mistake too. Python's `!=` on the
      result of `.get` and JavaScript's `!==` on an absent property agree on this. */
  predicate IsMistake(s: Submission)
  {
    s.verdict != Some(ACCEPTED)
  }
}
