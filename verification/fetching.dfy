/** What every view does around its one HTTP call: validate the form, describe the
    request, then settle the reply into the table and a toast. The network itself is
    not modelled: a reply is an input. */
module Fetching {
  import opened Wrappers

  datatype Host = Backend | Judge

  datatype QueryValue = TextParam(s: string) | NumberParam(n: int)

  /** A GET request: the host, the path segments after the base URL, the query
      parameters. Segments are placed verbatim, as the template literals do. */
  datatype Request = Get(host: Host, path: seq<string>, query: seq<(string, QueryValue)>)

  /** The reason a form is refused before any request is made. */
  datatype Invalid =
    | HandleRequired | VerdictRequired | ProblemNameRequired
    | RatingRangeRequired | InvalidRatingRange | MessageRequired

  /** The toasts the views raise. */
  datatype Toast =
    | Refused(reason: Invalid)
    | Found(count: nat)
    | Failed(description: string)
    | Saved

  /** An HTTP failure as axios reports it: the server's `detail`, when the error
      response carries one. */
  datatype HttpError = HttpError(detail: Option<string>)

  /** `error?.response?.data?.detail || fallback`: an empty detail counts as none. */
  function Describe(e: HttpError, fallback: string): (d: string)
    ensures e.detail.Some? && e.detail.value != "" ==> d == e.detail.value
    ensures e.detail.None? || e.detail.value == "" ==> d == fallback
  {
    match e.detail
    case Some(text) => if text != "" then text else fallback
    case None => fallback
  }

  /** A view's table and its loading flag. */
  datatype Panel<T> = Panel(rows: seq<T>, loading: bool)

  /** The effect of one click: the panel afterwards, the request sent, the toast shown. */
  datatype Step<T> = Step(panel: Panel<T>, request: Option<Request>, toast: Option<Toast>)

  /** A refused form: nothing is sent and the panel, loading flag included, is left as it was. */
  function Refuse<T>(p: Panel<T>, reason: Invalid): (s: Step<T>)
    ensures s.panel == p && s.request.None? && s.toast == Some(Refused(reason))
  {
    Step(p, None, Some(Refused(reason)))
  }

  /** A sent request that settled: rows are replaced on success and kept on failure, and
      the `finally` block clears the loading flag either way. */
  function Settle<T>(p: Panel<T>, req: Request, reply: Result<seq<T>, string>): (s: Step<T>)
    ensures !s.panel.loading && s.request == Some(req)
    ensures reply.Ok? ==> s.panel.rows == reply.value && s.toast == Some(Found(|reply.value|))
    ensures reply.Err? ==> s.panel.rows == p.rows && s.toast == Some(Failed(reply.error))
  {
    match reply
    case Ok(rows) => Step(Panel(rows, false), Some(req), Some(Found(|rows|)))
    case Err(description) => Step(Panel(p.rows, false), Some(req), Some(Failed(description)))
  }
}
