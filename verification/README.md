# AlgoTracker Buddy — a Dafny model of its pure core

AlgoTracker Buddy is a dashboard for reviewing and annotating the mistakes (non-accepted
submissions) a competitive programmer made on Codeforces. Almost all of it is HTTP and
React plumbing. This project models the few pure, sequential functions inside that
plumbing and proves what they promise.

- **The float sanitiser.** `clean_floats` exists twice in the backend. Before a judge
  reply is sent on, it turns every NaN or infinity reachable through dicts and lists into
  `None`. A Python value is a `JsonValue.Json` tree. Floats are abstract
  (`Finite(r) | NaN | PosInf | NegInf`), dicts keep insertion order, and `Tuple` stands
  for a container the sanitiser does not enter. `Cleaner` models the utility copy and
  `SubmissionsCleaner` models the endpoint copy. The two are proved equal on every
  input.
- **The backend list endpoints.** `GET /mistakes/{handle}` keeps the submissions whose
  verdict is not `"OK"` and projects each into a mistake record (`MistakesApi`).
  `GET /contests/{handle}` collects the submissions of one contest and then answers
  `{"message": "success"}`, dropping what it collected (`ContestsApi`). The judge reply
  is an input: `Ok(body)`, or `Err(text)` for the exception the fetch raised. A missing
  key is an `Option` in the `Codeforces` records, so every `.get(..., default)` is
  explicit.
- **The frontend views.** Each React component is a module. Its validation chain
  returns a refusal reason or a request descriptor (host, path segments, query
  parameters). Its response mapping produces rows, and its click handler is a pure step
  from panel state and server reply to new panel state, request and toast. The shared
  pieces are:
  - `Fetching`: the validate / request / settle lifecycle, the loading flag and toasts.
  - `Badges`: the difficulty bands and verdict colours.
  - `Cells`: tag truncation, the `passed/total` cell and the difficulty cell.
  - `JsText`: JavaScript's `trim()` and the underscore-to-space display.
  - `Decimal`: base-10 `parseInt` and number rendering.

`getVerdictColor` appears identically in `FilteredMistakes.tsx:108-123`,
`MistakesByVerdict.tsx:74-89`, `SavedMistakes.tsx:66-82` and `RatingMistakes.tsx:98-112`.
It is modelled once, as `Badges.TableVerdictStyle`. `getDifficultyColour` appears
identically in `FilteredMistakes.tsx:126-144` and `MistakesByVerdict.tsx:91-109`. It is
modelled once, as `Badges.DifficultyColour`.

JavaScript's `null` and `undefined` are kept apart only where they change behaviour. The
case is a difficulty passed to a colour function: `null` compares as 0 and gets the
lowest band, while `undefined` compares as NaN, fails every range test and reaches the
fallback style. In the rating view a falsy difficulty becomes the text `'null'`, which
also compares as NaN. The final `return` there is red, so an unrated problem gets the
red dot (`RatingMistakes.UnratedDotIsRed`).

## Model

| member | source | states |
|---|---|---|
| `Cleaner.CleanFloats` | backend/app/utility/cleaner.py:3-14 | No non-finite float stays reachable through dicts and lists. A finite float is returned as is and a non-finite one becomes `None`. A list keeps its length, a dict keeps its keys in order, and every other value (tuples included) is returned unchanged |
| `Cleaner.CleanFloatsListElement` | backend/app/utility/cleaner.py:11-12 | The k-th element of a cleaned list is the cleaned k-th element |
| `Cleaner.CleanFloatsDictEntry` | backend/app/utility/cleaner.py:9-10 | Each dict entry keeps its key, and its value is cleaned |
| `Cleaner.CleanFloatsFixpoint` | backend/app/utility/cleaner.py:3-14 | The sanitiser leaves a value unchanged exactly when no non-finite float is reachable in it |
| `Cleaner.CleanFloatsIdempotent` | backend/app/utility/cleaner.py:3-14 | Cleaning a cleaned value changes nothing |
| `SubmissionsCleaner.CleanFloats` | backend/app/api/submissions.py:8-15 | The endpoint's copy also yields a sanitised value and keeps list lengths and dict keys |
| `SubmissionsCleaner.CopiesAgree` | backend/app/api/submissions.py:8-15 | The endpoint's copy returns what the utility copy returns, on every input |
| `SubmissionsCleaner.SubmissionsCleanFloatsFixpoint` | backend/app/api/submissions.py:8-15 | The endpoint's copy is idempotent and fixes exactly the sanitised values |
| `Seqs.Filter` | backend/app/api/mistakes.py:13-14 | The filter keeps only input elements that satisfy the test, and it never lengthens the input |
| `Seqs.FilterMembership` | backend/app/api/mistakes.py:13-14 | An element is kept if and only if it is in the input and satisfies the test |
| `Seqs.FilterAppend` | backend/app/api/mistakes.py:12-16 | Filtering a concatenation concatenates the filtered parts, so input order is preserved |
| `Seqs.FilterLength` | backend/app/api/mistakes.py:12-16 | The filtered length is the number of positions that satisfy the test |
| `Seqs.Take` | frontend/src/components/LiveMistakes.tsx:56 | `slice(0, n)` is a prefix of length `min(n, length)` |
| `Seqs.TakeFilterIsFilterOfPrefix` | frontend/src/components/LiveMistakes.tsx:54-56 | The first `n` matches are all the matches of some input prefix, so none is skipped |
| `Codeforces.IsMistake` | backend/app/api/mistakes.py:14 | A submission is a mistake unless its verdict is exactly `"OK"`; one with no verdict is a mistake too, as `!== 'OK'` in LiveMistakes.tsx line 55 also decides |
| `MistakesApi.Project` | backend/app/api/mistakes.py:15-23 | The message is `"Blank"` and verdict and passed count are copied. Name, rating and tags come from the problem, with a missing problem read as `{}` and missing tags as `[]` |
| `MistakesApi.CollectMistakes` | backend/app/api/mistakes.py:12-23 | The loop returns the projections of the non-`"OK"` submissions, in order. Their number is the count of such submissions, and each says `"Blank"` |
| `MistakesApi.MistakesMembership` | backend/app/api/mistakes.py:13-16 | Every non-`"OK"` submission (one without a verdict included) is listed. Every listed record comes from such a submission |
| `MistakesApi.MistakesAppend` | backend/app/api/mistakes.py:12-16 | Results for consecutive runs of input concatenate, so order follows the input |
| `MistakesApi.GetMistakes` | backend/app/api/mistakes.py:9-28 | A failed fetch gives HTTP 500 with the exception text. A reply without `result` gives HTTP 500 with `'result'`. Otherwise the list of mistakes is returned |
| `ContestsApi.InContest` | backend/app/api/contests.py:18 | A submission is collected exactly when its `contestId` equals the requested number; its verdict plays no part |
| `ContestsApi.ProjectContest` | backend/app/api/contests.py:19-28 | A submission without a problem fails. Otherwise the record carries the request handle, `"Blank"`, the problem's fields, tags defaulting to `[]`, and the copied verdict and passed count |
| `ContestsApi.ProjectContestExtendsProject` | backend/app/api/contests.py:19-28 | A contest record is the backlog record with `handle` added |
| `ContestsApi.CollectContest` | backend/app/api/contests.py:16-28 | The loop fails if and only if some submission of the contest has no problem. Otherwise it yields one record per submission whose `contestId` matches, whatever the verdict, in input order |
| `ContestsApi.GetContestSubmissions` | backend/app/api/contests.py:12-54 | Success is exactly a good fetch with `result` and no failing record, and it returns `{"message":"success"}` rather than the records. Every failure is HTTP 500 `"Failed to fetch data"` |
| `JsText.IsJsWhitespace` | frontend/src/components/FilteredMistakes.tsx:43 | What `trim()` removes: ECMAScript white space and line terminators (tab to carriage return, space, no-break space, the U+2000 family, line and paragraph separators, U+1680, U+202F, U+205F, U+3000 and the byte order mark) |
| `JsText.TrimStart` | frontend/src/components/FilteredMistakes.tsx:43 | The result is a suffix, it does not start with whitespace, and only whitespace was dropped |
| `JsText.TrimEnd` | frontend/src/components/FilteredMistakes.tsx:43 | The result is a prefix, it does not end with whitespace, and only whitespace was dropped |
| `JsText.TrimStartEmptyIffBlank` | frontend/src/components/FilteredMistakes.tsx:43 | Trimming the start empties a string exactly when the string is all whitespace |
| `JsText.Trim` | frontend/src/components/FilteredMistakes.tsx:43 | `!s.trim()` holds exactly when `s` is all JavaScript whitespace |
| `JsText.TrimEnds` | frontend/src/components/FilteredMistakes.tsx:43 | A trimmed string neither starts nor ends with whitespace |
| `JsText.TrimEndKeepsStart` | frontend/src/components/FilteredMistakes.tsx:43 | Trimming the end keeps a non-whitespace start and leaves a non-whitespace end |
| `JsText.UnderscoresToSpaces` | frontend/src/components/FilteredMistakes.tsx:257 | The length is unchanged, each `_` becomes a space, and every other character is kept |
| `JsText.UnderscoresToSpacesResult` | frontend/src/components/FilteredMistakes.tsx:257 | No underscore remains, underscore-free text is shown as is, and the replacement is idempotent |
| `Decimal.DigitPrefix` | frontend/src/components/RatingMistakes.tsx:50-51 | The result is the longest all-digit prefix |
| `Decimal.ParseDigits` | frontend/src/components/RatingMistakes.tsx:50-51 | Reading digits fails exactly when the text does not start with a digit |
| `Decimal.ParseInt` | frontend/src/components/RatingMistakes.tsx:50-51 | `parseInt` is NaN exactly when no digit follows the optional sign |
| `Decimal.ParseIntUnsigned` | frontend/src/components/RatingMistakes.tsx:50-51 | Text that starts with a digit is read as it stands |
| `Decimal.ParseIntNegative` | frontend/src/components/RatingMistakes.tsx:50-51 | Text after a leading `-` is read, then negated |
| `Decimal.ParseIntPlus` | frontend/src/components/RatingMistakes.tsx:50-51 | Text after a leading `+` is read as it stands |
| `Decimal.NatToString` | frontend/src/components/LiveMistakes.tsx:183 | A rendered number is non-empty digits without a leading zero |
| `Decimal.IntToString` | frontend/src/components/LiveMistakes.tsx:183 | A rendered number starts with `-` exactly when it is negative |
| `Decimal.NatToStringValue` | frontend/src/components/LiveMistakes.tsx:183 | The rendered digits have the number's value |
| `Decimal.DigitPrefixOfDigitsThen` | frontend/src/components/RatingMistakes.tsx:50-51 | `parseInt` stops reading at the first non-digit |
| `Decimal.ParseDigitsOfDigitsThen` | frontend/src/components/RatingMistakes.tsx:50-51 | A run of digits followed by a non-digit is read as the run's value |
| `Decimal.ParseIntOfRendered` | frontend/src/components/RatingMistakes.tsx:50-51 | `parseInt` reads back a rendered integer, whatever non-digit text follows it |
| `Decimal.ParseIntRoundTrip` | frontend/src/components/RatingMistakes.tsx:50-51 | `parseInt(String(n)) == n` |
| `Badges.CountAtMost` | frontend/src/components/FilteredMistakes.tsx:126-142 | A band rank never exceeds the number of thresholds |
| `Badges.CountAtMostMonotone` | frontend/src/components/FilteredMistakes.tsx:126-142 | A larger value never gets a lower rank |
| `Badges.CountAtMostBand` | frontend/src/components/FilteredMistakes.tsx:126-142 | For ascending thresholds the rank is `k` exactly on `[t[k-1], t[k])` |
| `Badges.CountAtMostBelow` | frontend/src/components/FilteredMistakes.tsx:127 | A value below the first threshold has rank 0 |
| `Badges.CountAtMostStep` | frontend/src/components/FilteredMistakes.tsx:126-142 | The count unfolds one threshold at a time |
| `Badges.DifficultyColour` | frontend/src/components/FilteredMistakes.tsx:126-143 | The fallback is reached exactly for NaN. For every number the band's rank is the count of thresholds 1200, 1400, 1600, 1900, 2200, 2300 and 2400 that are at most the difficulty |
| `Badges.TableThresholdsCount` | frontend/src/components/FilteredMistakes.tsx:126-142 | The rank counts thresholds case by case |
| `Badges.DifficultyColourMonotone` | frontend/src/components/FilteredMistakes.tsx:126-142 | The band is monotone in the difficulty |
| `Badges.DifficultyColourPartition` | frontend/src/components/FilteredMistakes.tsx:126-143 | The eight bands partition the integers at the thresholds, and no integer reaches the fallback |
| `Badges.RatingDifficultyColor` | frontend/src/components/RatingMistakes.tsx:116-125 | For a number the dot's rank counts thresholds 1000, 1200, 1400, 1600, 1900, 2100 and 2400. NaN falls through to red |
| `Badges.RatingThresholdsCount` | frontend/src/components/RatingMistakes.tsx:116-125 | The rank counts the rating view's thresholds case by case |
| `Badges.RatingDifficultyColorMonotone` | frontend/src/components/RatingMistakes.tsx:116-125 | The dot is monotone in the rating |
| `Badges.RatingDifficultyColorPartition` | frontend/src/components/RatingMistakes.tsx:116-125 | The eight dots partition the integers at the rating view's thresholds |
| `Badges.Lookup` | frontend/src/components/FilteredMistakes.tsx:108-123 | A found style is listed for the verdict. Not found means no entry has that verdict |
| `Badges.TableVerdictStyle` | frontend/src/components/FilteredMistakes.tsx:108-123 | The switch agrees with the palette table and gives the default for any unlisted verdict |
| `Badges.TableVerdictStyleOfPalette` | frontend/src/components/FilteredMistakes.tsx:108-123 | Each listed verdict gets the style listed with it |
| `Badges.TableVerdictStyleDistinct` | frontend/src/components/FilteredMistakes.tsx:108-123 | The five listed verdicts get five distinct styles, none of them the default |
| `Badges.TableVerdictStyleOmitted` | frontend/src/components/FilteredMistakes.tsx:108-123 | The selectable MEMORY_LIMIT_EXCEEDED and RUNTIME_ERROR get the default style |
| `Badges.LiveVerdictVariant` | frontend/src/components/LiveMistakes.tsx:80-95 | The badge is destructive exactly for WA, TLE, MLE, RE and CE, and secondary otherwise |
| `Badges.LiveVerdictVariantOfOptions` | frontend/src/components/LiveMistakes.tsx:80-95 | Of the six selectable verdicts, all but IDLENESS_LIMIT_EXCEEDED are destructive |
| `Fetching.Describe` | frontend/src/components/RatingMistakes.tsx:89 | A non-empty server `detail` is shown. Otherwise the fallback text is shown |
| `Fetching.Refuse` | frontend/src/components/RatingMistakes.tsx:32-60 | A refused form sends nothing, leaves the panel (and its loading flag) unchanged, and raises the refusal toast |
| `Fetching.Settle` | frontend/src/components/RatingMistakes.tsx:62-94 | After the call the loading flag is false. Rows are replaced and counted on success, and kept with an error toast on failure |
| `Cells.TagBadgesOf` | frontend/src/components/LiveMistakes.tsx:165-174 | At most the first three tags are shown. A `+n` badge appears exactly when there are more than three, with n = tags − 3 |
| `Cells.TagBadgesAccountForAll` | frontend/src/components/LiveMistakes.tsx:165-174 | Shown tags plus the `+n` count equal the number of tags |
| `Cells.TestsCell` | frontend/src/components/LiveMistakes.tsx:183 | The cell is the passed count, then `/`, then the total's decimal text, or `?` exactly when the total is missing or zero |
| `Cells.TestsCellParsesToPassed` | frontend/src/components/LiveMistakes.tsx:183 | The rendering is unambiguous: reading the cell's leading number back gives the passed count, whatever the total. The program never parses the cell; this is the round-trip partner of `TestsCell` |
| `Cells.DifficultyCellOf` | frontend/src/components/LiveMistakes.tsx:157-161 | A badge is shown exactly for a present, non-zero rating. Otherwise `-` is shown |
| `MistakeItems.ToNumber` | frontend/src/components/FilteredMistakes.tsx:247 | A difficulty compares as NaN exactly when it is `undefined`. `null` compares as 0 and a number as itself |
| `MistakeItems.RowId` | frontend/src/components/FilteredMistakes.tsx:82 | A missing or zero id falls back to the index |
| `MistakeItems.RowIdsDistinctWithoutIds` | frontend/src/components/FilteredMistakes.tsx:82 | Without ids in the reply, the row keys are distinct |
| `MistakeItems.RowIdsCollideInMixedReply` | frontend/src/components/FilteredMistakes.tsx:82 | In a reply that mixes ids and missing ids, keys can repeat: id 1 at position 0 and no id at position 1 both give key 1 |
| `FilteredMistakes.Validate` | frontend/src/components/FilteredMistakes.tsx:43-77 | A blank handle is refused first. Then an empty verdict is refused in verdict mode, and a blank problem name in problem mode. A valid form targets the verdict or problem path with the untrimmed handle |
| `FilteredMistakes.ValidateAccepts` | frontend/src/components/FilteredMistakes.tsx:43-68 | A form is sent exactly when the handle and the active criterion are filled in |
| `FilteredMistakes.Format` | frontend/src/components/FilteredMistakes.tsx:81-89 | There is one row per item, in order. The id falls back to the index, handle, name, difficulty, verdict and message are copied, and `passedtestcount` is the passed count |
| `FilteredMistakes.Fetch` | frontend/src/components/FilteredMistakes.tsx:42-105 | A refused form changes nothing. A sent request ends not loading, with rows and a count toast equal to the reply's length on success, or the fixed failure text |
| `FilteredMistakes.RowDifficultyColour` | frontend/src/components/FilteredMistakes.tsx:126-143 | A `null` difficulty gets grey. Only an absent difficulty reaches the fallback style |
| `RatingMistakes.Validate` | frontend/src/components/RatingMistakes.tsx:32-68 | A blank handle is refused, then an empty bound. Bounds that do not both parse, or parse with min > max, are refused as an invalid range. Otherwise the request sends `A = min`, `B = max` |
| `RatingMistakes.ValidateRenderedBounds` | frontend/src/components/RatingMistakes.tsx:50-67 | Bounds typed as two numbers are accepted exactly when ordered (equal allowed) and are sent as those numbers |
| `RatingMistakes.ToDifficulty` | frontend/src/components/RatingMistakes.tsx:74 | A truthy difficulty is kept. Anything else becomes the text `'null'` |
| `RatingMistakes.Format` | frontend/src/components/RatingMistakes.tsx:70-78 | There is one row per item, in order. Id falls back to the index. A truthy problem index is kept and a falsy one shows `-`. The difficulty is kept when truthy and becomes `'null'` otherwise. Tags default to `[]`, and `passedTestCount` is read |
| `RatingMistakes.Fetch` | frontend/src/components/RatingMistakes.tsx:31-95 | A refused form changes nothing. A sent request ends not loading, with rows and a count on success, or the server detail / fallback on failure |
| `RatingMistakes.UnratedDotIsRed` | frontend/src/components/RatingMistakes.tsx:116-125 | The dot is red exactly for ratings of 2400 or more and for the `'null'` text |
| `MistakesByVerdict.Validate` | frontend/src/components/MistakesByVerdict.tsx:38-49 | Only an empty verdict is refused. Otherwise the request targets `/mistakes/mistakes/verdict/{verdict}` |
| `MistakesByVerdict.ToRow` | frontend/src/components/MistakesByVerdict.tsx:50-57 | A truthy difficulty is kept and a falsy one becomes 800, so the shown value is never 0. Handle, name, verdict, message and `passedtestcount` are copied under the row's names |
| `MistakesByVerdict.Format` | frontend/src/components/MistakesByVerdict.tsx:50-57 | There is one row per item, in order, each built from its own item |
| `MistakesByVerdict.FormatAppend` | frontend/src/components/MistakesByVerdict.tsx:50-57 | The mapping works item by item, so the rows of concatenated replies are the concatenated rows |
| `MistakesByVerdict.Fetch` | frontend/src/components/MistakesByVerdict.tsx:37-72 | A refused form changes nothing. A selected verdict sends the verdict request and ends not loading. On success the rows are the formatted reply and the toast counts them, and on failure the rows stay and the detail or fallback is shown |
| `MistakesByVerdict.DefaultDifficultyIsLowestBand` | frontend/src/components/MistakesByVerdict.tsx:91-108 | A defaulted difficulty (line 53) falls in the lowest band, and no row reaches the fallback |
| `LiveMistakes.Validate` | frontend/src/components/LiveMistakes.tsx:35-50 | A blank handle is refused. Otherwise the judge's `user.status` is asked for 100 submissions from 1 |
| `LiveMistakes.RecentMistakes` | frontend/src/components/LiveMistakes.tsx:54-56 | At most 20 submissions, all non-`'OK'` and from the input. The length is min(20, number of mistakes) |
| `LiveMistakes.RecentMistakesArePrefixMistakes` | frontend/src/components/LiveMistakes.tsx:54-56 | The listed mistakes are all the mistakes of a prefix of the reply, in order |
| `LiveMistakes.Fetch` | frontend/src/components/LiveMistakes.tsx:34-73 | Rows are replaced only on status `'OK'`. Another status leaves rows unchanged with no toast. A missing `result` or failed call shows the fixed error, and loading always ends false |
| `LiveMistakes.OpenNote` | frontend/src/components/LiveMistakes.tsx:75-78 | Opening a note selects the submission and shows the dialog |
| `LiveMistakes.CloseNote` | frontend/src/components/LiveMistakes.tsx:207-210 | Closing clears both the selection and the show flag |
| `LiveMistakes.OpenThenClose` | frontend/src/components/LiveMistakes.tsx:75-78 | Close after open returns to the initial dialog state, and open after close is open |
| `SavedMistakes.Validate` | frontend/src/components/SavedMistakes.tsx:29-40 | A blank handle is refused. Otherwise the request targets `/mistakes/mistakes/{handle}` |
| `SavedMistakes.Format` | frontend/src/components/SavedMistakes.tsx:42-49 | `problem_name`, `message` and `passedtestcount` map to the row fields, the id falls back to the index, and length and order are kept |
| `SavedMistakes.Fetch` | frontend/src/components/SavedMistakes.tsx:28-64 | The reported count equals the reply length, which equals the row count |
| `SavedMistakes.DifficultyCell` | frontend/src/components/SavedMistakes.tsx:143-147 | The difficulty is shown only when truthy. Otherwise `-` is shown |
| `AddMessageModal.MakePayload` | frontend/src/components/AddMessageModal.tsx:49-60 | The payload copies the handle, problem name/index, rating as difficulty, tags, verdict, passed/total counts, id, message and timestamp. A submission without a problem fails |
| `AddMessageModal.Save` | frontend/src/components/AddMessageModal.tsx:37-78 | A blank note is refused with no change. Otherwise the body posted is the payload built from the submission and the raw note. Success closes and clears the note. A missing problem raises the fixed failure text, and a failed POST shows the server detail or that text. Failure keeps the dialog open, and loading ends false |
| `AddMessageModal.PostedNoteIsUntrimmed` | frontend/src/components/AddMessageModal.tsx:38-58 | Every non-blank note for a submission with a problem is posted exactly as typed, so a note with whitespace at either end is not posted in its trimmed form |
| `AddMessageModal.AfterSave` | frontend/src/components/AddMessageModal.tsx:67 | The parent's `onClose` runs exactly when the save asked for it, and then clears both the selection and the show flag |
| `AddMessageModal.SaveClosesDialogOnSuccess` | frontend/src/components/AddMessageModal.tsx:62-74 | Saving from an open dialog hides it exactly when the POST succeeded |

## Left out

- Network I/O: `fetch_last_submissions`, `requests.get`, axios and the judge's API. A reply is an input to the model and a request is a returned descriptor. The submissions endpoint (`get_submissions`) is just such a fetch followed by `clean_floats`, so only the sanitiser is modelled.
- React rendering, hooks and toast titles. A toast is modelled by its kind, its count, or its failure description. The success descriptions also embed the handle, verdict or bounds, and that text is not modelled.
- The class strings that style the tables are kept as constants (`Badges.TableBandClass`, `Badges.VerdictStyleClass`, `Badges.RatingDotClass`). Layout markup is not modelled.
- IEEE-754 arithmetic. A float only records whether it is finite.
- JavaScript number precision. Integers are unbounded, so a rating beyond 2^53 parses exactly in the model but rounds in the browser.
- `Decimal.ParseInt`: leading whitespace and a `0x` prefix are not modelled. The rating inputs are `type="number"` fields, and the browser's value sanitisation never yields either. Fractional and exponent text end the digit prefix, as in the browser (`"1.5"` and `"1e3"` both read as 1).
- `MistakesApi.GetMistakes`: a reply whose `result` is JSON `null` is read as one without `result` and answered with HTTP 500 and the detail `'result'`. The source reads `None` there and fails when it iterates it, with the detail `'NoneType' object is not iterable`. The status is the same and only the detail text differs.
- `MistakesApi.Project`: a `problem` key whose value is JSON `null` is read as absent. The source then raises (`None` has no `.get`), which becomes an HTTP 500. The model does not distinguish a null key from a missing one in any submission field.
- Other exceptions that the backend's `except Exception` would catch (a non-dict submission, a non-list `result`) cannot occur with the typed records.
- Rendering-time crashes, such as `verdict.replace` on a missing verdict, happen outside the click handlers and are not modelled.
- The base URL (`API_BASE_URL`, in `frontend/src/lib/api`) is not part of this model. Paths are the segments after it, placed verbatim, as template literals do.
- `new Date().toISOString()` in the payload is the `now` parameter.
- Error details that are not strings, such as FastAPI's list-valued validation details, are not modelled. `Fetching.Describe` takes an optional string.
- `frontend/src/pages/Dashboard.tsx` and `frontend/src/pages/Login.tsx` hold only view switching and the sign-in form. They are not part of this model.
- `backend/app/models/mistake.py`, `backend/backend/app/models/mistake.py`, `backend/app/schemas/mistakes.py`, `backend/app/crud/mistakes.py`, `backend/app/services/mistakes.py`, `backend/backend/app/api/mistakes.py` and `backend/backend/app/core/db.py` are ORM persistence and connection set-up. They are not part of this model.
- `backend/app/main.py`, `backend/app/routers/codeforces.py` and `backend/app/services/codeforces.py` are application wiring and fetch wrappers. They are not part of this model.
