/** The advanced filter view: stored mistakes of one handle, by verdict or by problem. */
module FilteredMistakes {
  import opened Wrappers
  import opened Fetching
  import opened MistakeItems
  import JsText
  import Badges

  datatype FilterType = ByVerdict | ByProblem

  datatype Form = Form(handle: string, filterType: FilterType, selectedVerdict: string, problemName: string)

  datatype Row = Row(
    id: int,
    handle: Option<string>,
    problemName: Option<string>,
    difficulty: Loose,
    verdict: Option<string>,
    customMessage: Option<string>,
    passedTestCount: Option<int>)

  const FAILURE_TEXT: string := "Failed to fetch filtered mistakes. Please try again."

  /** The checks of `fetchFilteredMistakes`, in order, and the URL it then builds. */
  function Validate(f: Form): (r: Result<Request, Invalid>)
    ensures r == Err(HandleRequired) <==> JsText.IsBlank(f.handle)
    ensures r == Err(VerdictRequired) <==>
      !JsText.IsBlank(f.handle) && f.filterType == ByVerdict && f.selectedVerdict == ""
    ensures r == Err(ProblemNameRequired) <==>
      !JsText.IsBlank(f.handle) && f.filterType == ByProblem && JsText.IsBlank(f.problemName)
    ensures r.Ok? && f.filterType == ByVerdict ==>
      r.value == Get(Backend, ["mistakes", "mistakes", f.handle, "verdict", f.selectedVerdict], [])
    ensures r.Ok? && f.filterType == ByProblem ==>
      r.value == Get(Backend, ["mistakes", "mistakes", f.handle, "problem", f.problemName], [])
  {
    if JsText.Trim(f.handle) == [] then Err(HandleRequired)
    else if f.filterType == ByVerdict && f.selectedVerdict == "" then Err(VerdictRequired)
    else if f.filterType == ByProblem && JsText.Trim(f.problemName) == [] then Err(ProblemNameRequired)
    else if f.filterType == ByVerdict then
      Ok(Get(Backend, ["mistakes", "mistakes", f.handle, "verdict", f.selectedVerdict], []))
    else
      Ok(Get(Backend, ["mistakes", "mistakes", f.handle, "problem", f.problemName], []))
  }

  /** A form is sent exactly when the handle and the active criterion are filled in. */
  lemma ValidateAccepts(f: Form)
    ensures Validate(f).Ok? <==>
      && !JsText.IsBlank(f.handle)
      && (f.filterType == ByVerdict ==> f.selectedVerdict != "")
      && (f.filterType == ByProblem ==> !JsText.IsBlank(f.problemName))
  {
  }

  /** The row for the reply item at position `idx`. */
  function ToRow(item: Item, idx: nat): Row
  {
    Row(RowId(item.id, idx), item.handle, item.problemName, item.difficulty,
        item.verdict, item.message, item.passedtestcount)
  }

  /** `response.data.map(...)`: one row per item, in reply order. */
  function Format(items: seq<Item>): (rows: seq<Row>)
    ensures |rows| == |items|
    ensures forall k :: 0 <= k < |items| ==>
      && rows[k].id == RowId(items[k].id, k)
      && rows[k].handle == items[k].handle
      && rows[k].problemName == items[k].problemName
      && rows[k].difficulty == items[k].difficulty
      && rows[k].verdict == items[k].verdict
      && rows[k].customMessage == items[k].message
      && rows[k].passedTestCount == items[k].passedtestcount
  {
    seq(|items|, k requires 0 <= k < |items| => ToRow(items[k], k))
  }

  /** One click of "Apply Filter" against a given reply. */
  function Fetch(p: Panel<Row>, f: Form, reply: Result<seq<Item>, HttpError>): (s: Step<Row>)
    ensures Validate(f).Err? ==> s == Refuse(p, Validate(f).error)
    ensures Validate(f).Ok? ==> s.request == Some(Validate(f).value) && !s.panel.loading
    ensures Validate(f).Ok? && reply.Ok? ==>
      s.panel.rows == Format(reply.value) && s.toast == Some(Found(|reply.value|))
    ensures Validate(f).Ok? && reply.Err? ==>
      s.panel.rows == p.rows && s.toast == Some(Failed(FAILURE_TEXT))
  {
    match Validate(f)
    case Err(reason) => Refuse(p, reason)
    case Ok(req) =>
      match reply
      case Ok(items) => Settle(p, req, Ok(Format(items)))
      case Err(_) => Settle(p, req, Err(FAILURE_TEXT))
  }

  /** The difficulty badge of a row. A `null` difficulty reads as 0 and is grey; only a
      missing one falls through every range test to the fallback style. */
  lemma RowDifficultyColour(r: Row)
    ensures r.difficulty.Null? ==> Badges.DifficultyColour(ToNumber(r.difficulty)) == Badges.Grey
    ensures Badges.DifficultyColour(ToNumber(r.difficulty)) == Badges.Fallback <==> r.difficulty.Undefined?
  {
  }
}
