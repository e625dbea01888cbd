/** The backend's `GET /mistakes/{handle}`: keep the non-accepted submissions among the
    last fetched ones and project each onto a mistake record. */
module MistakesApi {
  import opened Wrappers
  import opened Codeforces
  import Seqs

  /** The dict the endpoints build per submission. `handle` is only set by the
      contest endpoint; `None` there means the key is absent. */
  datatype Mistake = Mistake(
    problemName: Option<string>,
    difficulty: Option<int>,
    tags: seq<string>,
    verdict: Option<string>,
    passedTestCount: Option<int>,
    message: string,
    handle: Option<string>)

  /** The placeholder note every freshly fetched mistake carries. */
  const BLANK: string := "Blank"

  /** FastAPI's `HTTPException(status_code, detail)`. */
  datatype HttpException = HttpException(status: int, detail: string)

  /** What `fetch_last_submissions` produced: the decoded reply, or the text of the
      exception it raised. */
  type FetchReply = Result<UserStatus, string>

  /** `str(KeyError('result'))`, the detail when the reply has no `result` key. */
  const MISSING_RESULT: string := "'result'"

  /** The projection of one submission; a missing problem reads as `{}`. */
  function Project(sub: Submission): (m: Mistake)
    ensures m.message == BLANK && m.handle.None?
    ensures m.verdict == sub.verdict && m.passedTestCount == sub.passedTestCount
    ensures sub.problem.None? ==> m.problemName.None? && m.difficulty.None? && m.tags == []
    ensures sub.problem.Some? ==>
      m.problemName == sub.problem.value.name && m.difficulty == sub.problem.value.rating
    ensures sub.problem.Some? ==> m.tags == sub.problem.value.tags.GetOr([])
  {
    var problem := sub.problem.GetOr(Problem(None, None, None, None));
    Mistake(problem.name, problem.rating, problem.tags.GetOr([]), sub.verdict,
            sub.passedTestCount, BLANK, None)
  }

  /** The reference: project every non-accepted submission, in order. */
  function Mistakes(subs: seq<Submission>): seq<Mistake>
  {
    Seqs.Map(Project, Seqs.Filter(IsMistake, subs))
  }

  /** The filter-and-append loop of the endpoint. */
  method CollectMistakes(subs: seq<Submission>) returns (mistakes: seq<Mistake>)
    ensures mistakes == Mistakes(subs)
    ensures |mistakes| == Seqs.Count(IsMistake, subs)
    ensures forall m :: m in mistakes ==> m.message == BLANK
  {
    mistakes := [];
    var i := 0;
    while i < |subs|
      invariant 0 <= i <= |subs|
      invariant mistakes == Mistakes(subs[..i])
    {
      var sub := subs[i];
      Seqs.FilterAppend(IsMistake, subs[..i], [sub]);
      assert subs[..i + 1] == subs[..i] + [sub];
      if sub.verdict != Some(ACCEPTED) {
        mistakes := mistakes + [Project(sub)];
      }
      i := i + 1;
    }
    assert subs[..i] == subs;
    Seqs.FilterLength(IsMistake, subs);
  }

  /** A submission's projection is listed whenever the submission is not accepted, and
      every listed record is the projection of some non-accepted submission. */
  lemma MistakesMembership(subs: seq<Submission>)
    ensures forall s :: s in subs && IsMistake(s) ==> Project(s) in Mistakes(subs)
    ensures forall m :: m in Mistakes(subs) ==> exists s :: s in subs && IsMistake(s) && m == Project(s)
  {
    var kept := Seqs.Filter(IsMistake, subs);
    forall s | s in subs && IsMistake(s)
      ensures Project(s) in Mistakes(subs)
    {
      Seqs.FilterMembership(IsMistake, subs, s);
      var k :| 0 <= k < |kept| && kept[k] == s;
      assert Mistakes(subs)[k] == Project(s);
    }
    forall m | m in Mistakes(subs)
      ensures exists s :: s in subs && IsMistake(s) && m == Project(s)
    {
      var k :| 0 <= k < |Mistakes(subs)| && Mistakes(subs)[k] == m;
      assert kept[k] in subs && IsMistake(kept[k]);
    }
  }

  /** Results for consecutive stretches of submissions concatenate: the output keeps
      the input's order. */
  lemma MistakesAppend(a: seq<Submission>, b: seq<Submission>)
    ensures Mistakes(a + b) == Mistakes(a) + Mistakes(b)
  {
    Seqs.FilterAppend(IsMistake, a, b);
  }

  /** The endpoint: a failed fetch or a reply without `result` becomes HTTP 500 with the
      exception's text; otherwise the projected mistakes are returned. */
  method GetMistakes(reply: FetchReply) returns (r: Result<seq<Mistake>, HttpException>)
    ensures reply.Err? ==> r == Err(HttpException(500, reply.error))
    ensures reply.Ok? && reply.value.result.None? ==> r == Err(HttpException(500, MISSING_RESULT))
    ensures reply.Ok? && reply.value.result.Some? ==> r == Ok(Mistakes(reply.value.result.value))
  {
    if reply.Err? {
      return Err(HttpException(500, reply.error));
    }
    if reply.value.result.None? {
      return Err(HttpException(500, MISSING_RESULT));
    }
    var mistakes := CollectMistakes(reply.value.result.value);
    r := Ok(mistakes);
  }
}
