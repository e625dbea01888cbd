/** The by-verdict view: stored mistakes of every handle with one verdict. */
module MistakesByVerdict {
  import opened Wrappers
  import opened Fetching
  import opened MistakeItems
  import Badges

  datatype Row = Row(
    handle: Option<string>,
    problemName: Option<string>,
    difficulty: int,
    verdict: Option<string>,
    customMessage: Option<string>,
    passedTestCount: Option<int>)

  /** The difficulty shown for an unrated problem. */
  const DEFAULT_DIFFICULTY: int := 800

  const FALLBACK_TEXT: string := "Failed to fetch mistakes by verdict. Please try again."

  /** Only an empty selection is refused; the verdict is not trimmed. */
  function Validate(selectedVerdict: string): (r: Result<Request, Invalid>)
    ensures r.Err? <==> selectedVerdict == ""
    ensures r.Err? ==> r.error == VerdictRequired
    ensures r.Ok? ==> r.value == Get(Backend, ["mistakes", "mistakes", "verdict", selectedVerdict], [])
  {
    if selectedVerdict == "" then Err(VerdictRequired)
    else Ok(Get(Backend, ["mistakes", "mistakes", "verdict", selectedVerdict], []))
  }

  /** The row for one reply item: `problem_name`, `message` and `passedtestcount` are
      renamed, and a falsy difficulty becomes 800. */
  function ToRow(item: Item): (r: Row)
    ensures r.difficulty == DEFAULT_DIFFICULTY <==> !Truthy(item.difficulty) || item.difficulty.n == DEFAULT_DIFFICULTY
    ensures Truthy(item.difficulty) ==> r.difficulty == item.difficulty.n
    ensures r.difficulty != 0
    ensures r.handle == item.handle && r.problemName == item.problemName
    ensures r.verdict == item.verdict && r.customMessage == item.message
    ensures r.passedTestCount == item.passedtestcount
  {
    Row(item.handle, item.problemName,
        if Truthy(item.difficulty) then item.difficulty.n else DEFAULT_DIFFICULTY,
        item.verdict, item.message, item.passedtestcount)
  }

  /** `response.data.map(...)`: one row per item, in reply order. */
  function Format(items: seq<Item>): (rows: seq<Row>)
    ensures |rows| == |items|
    ensures forall k :: 0 <= k < |items| ==> rows[k] == ToRow(items[k])
  {
    seq(|items|, k requires 0 <= k < |items| => ToRow(items[k]))
  }

  /** Formatting works item by item: the rows of two replies back to back are the rows
      of each, back to back. */
  lemma FormatAppend(a: seq<Item>, b: seq<Item>)
    ensures Format(a + b) == Format(a) + Format(b)
  {
    var l := Format(a + b);
    var r := Format(a) + Format(b);
    assert |l| == |r|;
    forall k | 0 <= k < |l|
      ensures l[k] == r[k]
    {
      if k < |a| {
        assert (a + b)[k] == a[k];
      } else {
        assert (a + b)[k] == b[k - |a|];
      }
    }
  }

  /** One click of "Search" against a given reply; the success toast counts the rows. */
  function Fetch(p: Panel<Row>, selectedVerdict: string, reply: Result<seq<Item>, HttpError>): (s: Step<Row>)
    ensures selectedVerdict == "" ==> s == Refuse(p, VerdictRequired)
    ensures selectedVerdict != "" ==> s.request == Some(Validate(selectedVerdict).value) && !s.panel.loading
    ensures selectedVerdict != "" && reply.Ok? ==>
      s.panel.rows == Format(reply.value) && s.toast == Some(Found(|reply.value|))
    ensures selectedVerdict != "" && reply.Err? ==>
      s.panel.rows == p.rows && s.toast == Some(Failed(Describe(reply.error, FALLBACK_TEXT)))
  {
    match Validate(selectedVerdict)
    case Err(reason) => Refuse(p, reason)
    case Ok(req) =>
      match reply
      case Ok(items) =>
        var rows := Format(items);
        Settle(p, req, Ok(rows))
      case Err(e) => Settle(p, req, Err(Describe(e, FALLBACK_TEXT)))
  }

  /** A missing, null or zero difficulty is shown as 800, in the lowest band; every row
      therefore gets a real band, never the fallback. */
  lemma DefaultDifficultyIsLowestBand(item: Item)
    ensures !Truthy(item.difficulty) ==>
      Badges.DifficultyColour(Badges.Num(ToRow(item).difficulty)) == Badges.Grey
    ensures Badges.DifficultyColour(Badges.Num(ToRow(item).difficulty)) != Badges.Fallback
  {
  }
}
