/** The note dialog: attach a free-text note to a live submission and store it. */
module AddMessageModal {
  import opened Wrappers
  import opened Fetching
  import opened Codeforces
  import JsText
  import LiveMistakes

  /** The body of `POST /mistakes`. Optional fields are absent from the JSON when the
      submission lacks them. */
  datatype Payload = Payload(
    handle: string,
    problemName: Option<string>,
    problemIndex: Option<string>,
    difficulty: Option<int>,
    tags: Option<seq<string>>,
    verdict: Option<string>,
    passedtestcount: Option<int>,
    totaltestcount: Option<int>,
    message: string,
    submissionId: Option<int>,
    timestamp: string)

  /** The dialog's own state: the note being typed and the loading flag. */
  datatype Modal = Modal(message: string, loading: bool)

  /** The effect of one click of "Save Mistake": the dialog state afterwards, the body
      posted, the toast, and whether the dialog asked its parent to close. */
  datatype SaveStep = SaveStep(modal: Modal, posted: Option<Payload>, toast: Toast, closed: bool)

  const FALLBACK_TEXT: string := "Failed to save the mistake. Please try again."

  /** The stored record built from the submission. Reading `submission.problem.name`
      throws when there is no problem, which the `catch` turns into a failure. */
  function MakePayload(handle: string, sub: Submission, message: string, now: string): (r: Option<Payload>)
    ensures r.None? <==> sub.problem.None?
    ensures r.Some? ==>
      && r.value.handle == handle
      && r.value.problemName == sub.problem.value.name
      && r.value.problemIndex == sub.problem.value.index
      && r.value.difficulty == sub.problem.value.rating
      && r.value.tags == sub.problem.value.tags
      && r.value.verdict == sub.verdict
      && r.value.passedtestcount == sub.passedTestCount
      && r.value.totaltestcount == sub.testCount
      && r.value.submissionId == sub.id
      && r.value.message == message
      && r.value.timestamp == now
  {
    match sub.problem
    case None => None
    case Some(problem) =>
      Some(Payload(handle, problem.name, problem.index, problem.rating, problem.tags,
                   sub.verdict, sub.passedTestCount, sub.testCount, message, sub.id, now))
  }

  /** `handleSave` with the clock reading `now` and the server's `reply` as inputs. */
  function Save(m: Modal, handle: string, sub: Submission, now: string, reply: Result<(), HttpError>): (s: SaveStep)
    // A blank note is refused: nothing is posted and nothing changes.
    ensures JsText.IsBlank(m.message) ==>
      s == SaveStep(m, None, Refused(MessageRequired), false)
    // Otherwise the loading flag ends cleared, whatever happens.
    ensures !JsText.IsBlank(m.message) ==> !s.modal.loading
    // The note is posted as typed, untrimmed.
    ensures s.posted.Some? ==> s.posted.value.message == m.message
    // Success closes the dialog and clears the note.
    ensures s.toast == Saved <==> s.closed
    ensures s.closed ==> s.modal.message == "" && s.posted.Some?
    // Failure keeps the note and the dialog.
    ensures !s.closed ==> s.modal.message == m.message
    ensures !JsText.IsBlank(m.message) && sub.problem.Some? ==>
      (s.closed <==> reply.Ok?)
    // Anything posted is the record built from the submission and the typed note.
    ensures !JsText.IsBlank(m.message) ==> s.posted == MakePayload(handle, sub, m.message, now)
    // Which failure toast is raised.
    ensures !JsText.IsBlank(m.message) && sub.problem.None? ==> s.toast == Failed(FALLBACK_TEXT)
    ensures !JsText.IsBlank(m.message) && sub.problem.Some? && reply.Err? ==>
      s.toast == Failed(Describe(reply.error, FALLBACK_TEXT))
  {
    if JsText.Trim(m.message) == [] then
      SaveStep(m, None, Refused(MessageRequired), false)
    else
      match MakePayload(handle, sub, m.message, now)
      case None => SaveStep(Modal(m.message, false), None, Failed(FALLBACK_TEXT), false)
      case Some(payload) =>
        match reply
        case Ok(_) => SaveStep(Modal("", false), Some(payload), Saved, true)
        case Err(e) => SaveStep(Modal(m.message, false), Some(payload), Failed(Describe(e, FALLBACK_TEXT)), false)
  }

  /** A note is stored as typed: whenever a save posts, the posted note is the typed one,
      and a note with whitespace at either end therefore differs from its trimmed text.
      The trimmed text is only used to decide whether the note is empty. */
  lemma PostedNoteIsUntrimmed(m: Modal, handle: string, sub: Submission, now: string, reply: Result<(), HttpError>)
    requires !JsText.IsBlank(m.message) && sub.problem.Some?
    ensures Save(m, handle, sub, now, reply).posted.Some?
    ensures Save(m, handle, sub, now, reply).posted.value.message == m.message
    ensures JsText.IsJsWhitespace(m.message[0]) || JsText.IsJsWhitespace(m.message[|m.message| - 1]) ==>
      Save(m, handle, sub, now, reply).posted.value.message != JsText.Trim(m.message)
  {
    JsText.TrimEnds(m.message);
  }

  /** The live view's dialog after a save: the parent's `onClose` runs exactly when the
      save asked for it. */
  function AfterSave(d: LiveMistakes.NoteDialog, s: SaveStep): (r: LiveMistakes.NoteDialog)
    ensures s.closed ==> r == LiveMistakes.CloseNote(d) && !LiveMistakes.DialogVisible(r)
    ensures !s.closed ==> r == d
  {
    if s.closed then LiveMistakes.CloseNote(d) else d
  }

  /** Saving from an open dialog hides it exactly when the note was stored. */
  lemma SaveClosesDialogOnSuccess(sub: Submission, m: Modal, handle: string, now: string, reply: Result<(), HttpError>)
    requires !JsText.IsBlank(m.message) && sub.problem.Some?
    ensures var d := LiveMistakes.OpenNote(LiveMistakes.NoteDialog(None, false), sub);
      LiveMistakes.DialogVisible(AfterSave(d, Save(m, handle, sub, now, reply))) <==> reply.Err?
  {
  }
}
