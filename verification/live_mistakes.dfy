/** The live view: recent non-accepted submissions fetched straight from the judge,
    and the note dialog opened from a row. */
module LiveMistakes {
  import opened Wrappers
  import opened Fetching
  import opened Codeforces
  import JsText
  import Seqs

  /** At most this many mistakes are listed. */
  const LIMIT: nat := 20
  /** How many recent submissions are requested. */
  const REQUEST_COUNT: int := 100

  const FAILURE_TEXT: string := "Failed to fetch submissions. Please check the handle and try again."

  function Validate(handle: string): (r: Result<Request, Invalid>)
    ensures r.Err? <==> JsText.IsBlank(handle)
    ensures r.Err? ==> r.error == HandleRequired
    ensures r.Ok? ==> r.value == Get(Judge, ["api", "user.status"],
      [("handle", TextParam(handle)), ("from", NumberParam(1)), ("count", NumberParam(REQUEST_COUNT))])
  {
    if JsText.Trim(handle) == [] then Err(HandleRequired)
    else Ok(Get(Judge, ["api", "user.status"],
                [("handle", TextParam(handle)), ("from", NumberParam(1)), ("count", NumberParam(REQUEST_COUNT))]))
  }

  /** `result.filter(sub => sub.verdict !== 'OK').slice(0, 20)` */
  function RecentMistakes(subs: seq<Submission>): (r: seq<Submission>)
    ensures |r| <= LIMIT
    ensures |r| == if Seqs.Count(IsMistake, subs) < LIMIT then Seqs.Count(IsMistake, subs) else LIMIT
    ensures forall k :: 0 <= k < |r| ==> IsMistake(r[k]) && r[k] in subs
  {
    Seqs.FilterLength(IsMistake, subs);
    Seqs.Take(Seqs.Filter(IsMistake, subs), LIMIT)
  }

  /** The listed mistakes are the earliest ones: all the mistakes of some prefix of the
      reply, in reply order. */
  lemma RecentMistakesArePrefixMistakes(subs: seq<Submission>)
    ensures exists n :: 0 <= n <= |subs| && RecentMistakes(subs) == Seqs.Filter(IsMistake, subs[..n])
  {
    Seqs.TakeFilterIsFilterOfPrefix(IsMistake, subs, LIMIT);
  }

  /** One click of "Fetch Mistakes" against a given reply. The rows change only when
      the judge answers with status "OK"; a reply of that status without a `result`
      makes `filter` throw, which reads as a failed request. */
  function Fetch(p: Panel<Submission>, handle: string, reply: Result<UserStatus, HttpError>): (s: Step<Submission>)
    ensures JsText.IsBlank(handle) ==> s == Refuse(p, HandleRequired)
    ensures !JsText.IsBlank(handle) ==> s.request == Some(Validate(handle).value) && !s.panel.loading
    ensures (!JsText.IsBlank(handle) && reply.Ok? && reply.value.status == Some(STATUS_OK)
             && reply.value.result.Some?) ==>
      s.panel.rows == RecentMistakes(reply.value.result.value)
      && s.toast == Some(Found(|s.panel.rows|))
    ensures !JsText.IsBlank(handle) && reply.Ok? && reply.value.status != Some(STATUS_OK) ==>
      s.panel.rows == p.rows && s.toast.None?
    ensures !JsText.IsBlank(handle) && (reply.Err? || (reply.value.status == Some(STATUS_OK) && reply.value.result.None?)) ==>
      s.panel.rows == p.rows && s.toast == Some(Failed(FAILURE_TEXT))
  {
    match Validate(handle)
    case Err(reason) => Refuse(p, reason)
    case Ok(req) =>
      if reply.Err? then Settle(p, req, Err(FAILURE_TEXT))
      else if reply.value.status != Some(STATUS_OK) then Step(Panel(p.rows, false), Some(req), None)
      else if reply.value.result.None? then Settle(p, req, Err(FAILURE_TEXT))
      else Settle(p, req, Ok(RecentMistakes(reply.value.result.value)))
  }

  /** The note dialog's state: the chosen submission and whether the dialog is shown. */
  datatype NoteDialog = NoteDialog(selected: Option<Submission>, show: bool)

  /** The dialog is mounted only when it is both requested and has a submission. */
  predicate DialogVisible(d: NoteDialog)
  {
    d.show && d.selected.Some?
  }

  /** "Add Note" on a row. */
  function OpenNote(d: NoteDialog, s: Submission): (r: NoteDialog)
    ensures DialogVisible(r) && r.selected == Some(s)
  {
    NoteDialog(Some(s), true)
  }

  /** The dialog's `onClose`. */
  function CloseNote(d: NoteDialog): (r: NoteDialog)
    ensures !DialogVisible(r) && !r.show && r.selected.None?
  {
    NoteDialog(None, false)
  }

  /** Closing after opening returns to the initial state, whatever the prior state was. */
  lemma OpenThenClose(d: NoteDialog, s: Submission)
    ensures CloseNote(OpenNote(d, s)) == NoteDialog(None, false)
    ensures OpenNote(CloseNote(d), s) == OpenNote(d, s)
  {
  }
}
