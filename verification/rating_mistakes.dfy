/** The rating-range view: live mistakes of one handle whose problem rating lies in
    a range typed as text. */
module RatingMistakes {
  import opened Wrappers
  import opened Fetching
  import opened MistakeItems
  import JsText
  import Decimal
  import Badges

  datatype Form = Form(handle: string, minRating: string, maxRating: string)

  /** `item.difficulty || 'null'`: a falsy difficulty is replaced by the text `'null'`. */
  datatype Difficulty = Rated(rating: int) | NullText

  datatype Row = Row(
    id: int,
    problemName: Option<string>,
    problemIndex: string,
    difficulty: Difficulty,
    verdict: Option<string>,
    tags: seq<string>,
    passedTestCount: Option<int>)

  const FALLBACK_TEXT: string := "Failed to fetch mistakes by rating. Please try again."

  /** The range the form denotes, when both bounds parse and are ordered. */
  predicate ValidRange(f: Form)
  {
    && Decimal.ParseInt(f.minRating).Some?
    && Decimal.ParseInt(f.maxRating).Some?
    && Decimal.ParseInt(f.minRating).value <= Decimal.ParseInt(f.maxRating).value
  }

  /** The checks of `fetchRatingMistakes`, in order, and the request it then sends. */
  function Validate(f: Form): (r: Result<Request, Invalid>)
    ensures r == Err(HandleRequired) <==> JsText.IsBlank(f.handle)
    ensures r == Err(RatingRangeRequired) <==>
      !JsText.IsBlank(f.handle) && (f.minRating == "" || f.maxRating == "")
    ensures r == Err(InvalidRatingRange) <==>
      !JsText.IsBlank(f.handle) && f.minRating != "" && f.maxRating != "" && !ValidRange(f)
    ensures r.Ok? <==>
      !JsText.IsBlank(f.handle) && f.minRating != "" && f.maxRating != "" && ValidRange(f)
    ensures r.Ok? ==> r.value == Get(Backend, ["mistakes", "mistakes", "live", f.handle, "rating"],
      [("A", NumberParam(Decimal.ParseInt(f.minRating).value)), ("B", NumberParam(Decimal.ParseInt(f.maxRating).value))])
  {
    if JsText.Trim(f.handle) == [] then Err(HandleRequired)
    else if f.minRating == "" || f.maxRating == "" then Err(RatingRangeRequired)
    else
      var min := Decimal.ParseInt(f.minRating);
      var max := Decimal.ParseInt(f.maxRating);
      if min.None? || max.None? || min.value > max.value then Err(InvalidRatingRange)
      else Ok(Get(Backend, ["mistakes", "mistakes", "live", f.handle, "rating"],
                  [("A", NumberParam(min.value)), ("B", NumberParam(max.value))]))
  }

  /** Bounds typed as the decimal text of two numbers are accepted exactly when they are
      ordered, equal bounds included, and are sent as those numbers. */
  lemma ValidateRenderedBounds(handle: string, a: int, b: int)
    requires !JsText.IsBlank(handle)
    ensures Validate(Form(handle, Decimal.IntToString(a), Decimal.IntToString(b))).Ok? <==> a <= b
    ensures a <= b ==>
      Validate(Form(handle, Decimal.IntToString(a), Decimal.IntToString(b))).value.query
        == [("A", NumberParam(a)), ("B", NumberParam(b))]
  {
    Decimal.ParseIntRoundTrip(a);
    Decimal.ParseIntRoundTrip(b);
  }

  function ToDifficulty(v: Loose): (d: Difficulty)
    ensures d.Rated? <==> Truthy(v)
    ensures d.Rated? ==> d.rating == v.n
  {
    if Truthy(v) then Rated(v.n) else NullText
  }

  function ToRow(item: Item, idx: nat): Row
  {
    Row(RowId(item.id, idx), item.problemName,
        if item.problemIndex.Some? && item.problemIndex.value != "" then item.problemIndex.value else "-",
        ToDifficulty(item.difficulty), item.verdict, item.tags.GetOr([]), item.passedTestCount)
  }

  /** `response.data.map(...)` with its defaults: a missing or empty problem index shows
      as `-`, missing tags as none. */
  function Format(items: seq<Item>): (rows: seq<Row>)
    ensures |rows| == |items|
    ensures forall k :: 0 <= k < |items| ==>
      && rows[k].id == RowId(items[k].id, k)
      && rows[k].problemName == items[k].problemName
      && (rows[k].problemIndex == "-" <==> items[k].problemIndex.None? || items[k].problemIndex.value in {"", "-"})
      && (items[k].problemIndex.Some? && items[k].problemIndex.value != "" ==>
            rows[k].problemIndex == items[k].problemIndex.value)
      && rows[k].difficulty == ToDifficulty(items[k].difficulty)
      && rows[k].tags == items[k].tags.GetOr([])
      && rows[k].verdict == items[k].verdict
      && rows[k].passedTestCount == items[k].passedTestCount
  {
    seq(|items|, k requires 0 <= k < |items| => ToRow(items[k], k))
  }

  /** One click of "Search Rating Range" against a given reply. */
  function Fetch(p: Panel<Row>, f: Form, reply: Result<seq<Item>, HttpError>): (s: Step<Row>)
    ensures Validate(f).Err? ==> s == Refuse(p, Validate(f).error)
    ensures Validate(f).Ok? ==> s.request == Some(Validate(f).value) && !s.panel.loading
    ensures Validate(f).Ok? && reply.Ok? ==>
      s.panel.rows == Format(reply.value) && s.toast == Some(Found(|reply.value|))
    ensures Validate(f).Ok? && reply.Err? ==>
      s.panel.rows == p.rows && s.toast == Some(Failed(Describe(reply.error, FALLBACK_TEXT)))
  {
    match Validate(f)
    case Err(reason) => Refuse(p, reason)
    case Ok(req) =>
      match reply
      case Ok(items) => Settle(p, req, Ok(Format(items)))
      case Err(e) => Settle(p, req, Err(Describe(e, FALLBACK_TEXT)))
  }

  /** What the dot colour function receives: the rating, or the text `'null'`, which
      converts to NaN. */
  function DotInput(d: Difficulty): Badges.JsNumber
  {
    match d
    case Rated(n) => Badges.Num(n)
    case NullText => Badges.NaN
  }

  /** An unrated problem fails every range test and gets the top (red) dot, as does a
      rating of 2400 or more. */
  lemma UnratedDotIsRed(d: Difficulty)
    ensures Badges.RatingDifficultyColor(DotInput(d)) == Badges.RedDot <==>
      d.NullText? || d.rating >= 2400
  {
  }
}
