/** The backend's `GET /contests/{handle}`: collect the fetched submissions of one
    contest, then acknowledge without returning them. */
module ContestsApi {
  import opened Wrappers
  import opened Codeforces
  import opened MistakesApi
  import Seqs

  /** The acknowledgement the endpoint returns on success, `{"message": "success"}`. */
  datatype Ack = Ack(message: string)

  const SUCCESS: string := "success"
  const FAILED: string := "Failed to fetch data"

  /** Whether the submission belongs to the requested contest; the verdict plays no part. */
  predicate InContest(contestNumber: int, s: Submission)
  {
    s.contestId == Some(contestNumber)
  }

  /** The record for one collected submission. The endpoint reads `problem` without a
      default, so a submission without one raises (`None` has no `.get`). */
  function ProjectContest(sub: Submission, handle: string): (r: Option<Mistake>)
    ensures r.None? <==> sub.problem.None?
    ensures r.Some? ==>
      && r.value.handle == Some(handle)
      && r.value.message == BLANK
      && r.value.problemName == sub.problem.value.name
      && r.value.difficulty == sub.problem.value.rating
      && r.value.tags == sub.problem.value.tags.GetOr([])
      && r.value.verdict == sub.verdict
      && r.value.passedTestCount == sub.passedTestCount
  {
    match sub.problem
    case None => None
    case Some(problem) =>
      Some(Mistake(problem.name, problem.rating, problem.tags.GetOr([]), sub.verdict,
                   sub.passedTestCount, BLANK, Some(handle)))
  }

  /** A collected record is the backlog projection with the handle filled in. */
  lemma ProjectContestExtendsProject(sub: Submission, handle: string)
    requires sub.problem.Some?
    ensures ProjectContest(sub, handle) == Some(Project(sub).(handle := Some(handle)))
  {
  }

  /** The submissions of one contest, in input order. */
  function OfContest(subs: seq<Submission>, contestNumber: int): seq<Submission>
  {
    Seqs.Filter(s => InContest(contestNumber, s), subs)
  }

  /** The collection loop would fail on this input: some submission of the contest has
      no problem. */
  predicate CollectFails(subs: seq<Submission>, contestNumber: int)
  {
    exists k :: 0 <= k < |subs| && InContest(contestNumber, subs[k]) && subs[k].problem.None?
  }

  /** The `contestData` loop. On success its result holds one record per submission of
      the contest, in input order, each with the request's handle. */
  method CollectContest(subs: seq<Submission>, contestNumber: int, handle: string)
    returns (r: Option<seq<Mistake>>)
    ensures r.None? <==> CollectFails(subs, contestNumber)
    ensures r.Some? ==> |r.value| == |OfContest(subs, contestNumber)|
    ensures r.Some? ==> forall k :: 0 <= k < |r.value| ==>
      ProjectContest(OfContest(subs, contestNumber)[k], handle) == Some(r.value[k])
    ensures r.Some? ==> forall m :: m in r.value ==> m.handle == Some(handle) && m.message == BLANK
  {
    var data: seq<Mistake> := [];
    var i := 0;
    while i < |subs|
      invariant 0 <= i <= |subs|
      invariant !CollectFails(subs[..i], contestNumber)
      invariant |data| == |OfContest(subs[..i], contestNumber)|
      invariant forall k :: 0 <= k < |data| ==>
        ProjectContest(OfContest(subs[..i], contestNumber)[k], handle) == Some(data[k])
    {
      var fact := subs[i];
      Seqs.FilterAppend(s => InContest(contestNumber, s), subs[..i], [fact]);
      assert subs[..i + 1] == subs[..i] + [fact];
      if fact.contestId == Some(contestNumber) {
        if fact.problem.None? {
          assert subs[..i + 1][i] == fact;
          assert CollectFails(subs, contestNumber) by {
            assert subs[i] == fact;
          }
          return None;
        }
        var problem := fact.problem.value;
        data := data + [Mistake(problem.name, problem.rating, problem.tags.GetOr([]),
                                fact.verdict, fact.passedTestCount, BLANK, Some(handle))];
      }
      i := i + 1;
    }
    assert subs[..i] == subs;
    r := Some(data);
  }

  /** The endpoint: any failure is HTTP 500 with a fixed detail; on success the
      acknowledgement is returned and the collected records are dropped. */
  method GetContestSubmissions(reply: FetchReply, handle: string, contestNumber: int)
    returns (r: Result<Ack, HttpException>)
    ensures r.Err? ==> r.error == HttpException(500, FAILED)
    ensures r.Ok? ==> r.value == Ack(SUCCESS)
    ensures r.Ok? <==>
      && reply.Ok?
      && reply.value.result.Some?
      && !CollectFails(reply.value.result.value, contestNumber)
  {
    if reply.Err? || reply.value.result.None? {
      return Err(HttpException(500, FAILED));
    }
    var collected := CollectContest(reply.value.result.value, contestNumber, handle);
    if collected.None? {
      return Err(HttpException(500, FAILED));
    }
    r := Ok(Ack(SUCCESS));
  }
}
