/** The saved view: the stored, annotated mistakes of one handle. */
module SavedMistakes {
  import opened Wrappers
  import opened Fetching
  import opened MistakeItems
  import JsText
  import Cells

  datatype Row = Row(
    id: int,
    problemName: Option<string>,
    difficulty: Loose,
    verdict: Option<string>,
    customMessage: Option<string>,
    passedTestCount: Option<int>)

  const FALLBACK_TEXT: string := "Failed to fetch saved mistakes. Please try again."

  function Validate(handle: string): (r: Result<Request, Invalid>)
    ensures r.Err? <==> JsText.IsBlank(handle)
    ensures r.Err? ==> r.error == HandleRequired
    ensures r.Ok? ==> r.value == Get(Backend, ["mistakes", "mistakes", handle], [])
  {
    if JsText.Trim(handle) == [] then Err(HandleRequired)
    else Ok(Get(Backend, ["mistakes", "mistakes", handle], []))
  }

  /** The field renaming: `problem_name`, `message` and `passedtestcount` become
      `problemName`, `customMessage` and `passedTestCount`. */
  function Format(items: seq<Item>): (rows: seq<Row>)
    ensures |rows| == |items|
    ensures forall k :: 0 <= k < |items| ==>
      && rows[k].id == RowId(items[k].id, k)
      && rows[k].problemName == items[k].problemName
      && rows[k].difficulty == items[k].difficulty
      && rows[k].verdict == items[k].verdict
      && rows[k].customMessage == items[k].message
      && rows[k].passedTestCount == items[k].passedtestcount
  {
    seq(|items|, k requires 0 <= k < |items| =>
      Row(RowId(items[k].id, k), items[k].problemName, items[k].difficulty,
          items[k].verdict, items[k].message, items[k].passedtestcount))
  }

  /** One click of "Load Mistakes" against a given reply. */
  function Fetch(p: Panel<Row>, handle: string, reply: Result<seq<Item>, HttpError>): (s: Step<Row>)
    ensures JsText.IsBlank(handle) ==> s == Refuse(p, HandleRequired)
    ensures !JsText.IsBlank(handle) ==> s.request == Some(Validate(handle).value) && !s.panel.loading
    ensures !JsText.IsBlank(handle) && reply.Ok? ==>
      s.panel.rows == Format(reply.value) && s.toast == Some(Found(|reply.value|))
    ensures !JsText.IsBlank(handle) && reply.Err? ==>
      s.panel.rows == p.rows && s.toast == Some(Failed(Describe(reply.error, FALLBACK_TEXT)))
  {
    match Validate(handle)
    case Err(reason) => Refuse(p, reason)
    case Ok(req) =>
      match reply
      case Ok(items) => Settle(p, req, Ok(Format(items)))
      case Err(e) => Settle(p, req, Err(Describe(e, FALLBACK_TEXT)))
  }

  /** The difficulty cell: a badge only for a truthy difficulty, otherwise a dash. */
  function DifficultyCell(r: Row): (c: Cells.DifficultyCell)
    ensures c.Badge? <==> Truthy(r.difficulty)
    ensures c.Badge? ==> c.rating == r.difficulty.n
  {
    Cells.DifficultyCellOf(if r.difficulty.Number? then Some(r.difficulty.n) else None)
  }
}
