# Student records: a Dafny model of the request decisions

The application is a small student-records site: an Express server
(`server.js`) over a MongoDB collection `estudiantes`, and a browser page
(`public/script.js`) with an insert form, a query selector and a connection
indicator. The database does the searching; the code itself only decides
what to accept, how to normalise a new record, which store operation to
issue and which status and envelope to answer with, and, on the page, what
to send, which URL to ask for and when to (re)probe the server.

This project models those decisions as pure functions and proves what they
guarantee.

- `js_text.dfy` (module `JsText`): the ECMAScript white-space set,
  `String.prototype.trim`, and `split`/`join` on a one-character separator.
- `js_numbers.dfy` (module `JsNumbers`): the global `parseInt` with no radix
  (section 19.2.5 of ECMA-262, including the `0x` prefix), the decision
  `isNaN` makes on a string (StringToNumber, section 7.1.4.1.1), and the
  decimal text of an integer.
- `js_values.dfy` (module `JsValues`): the JSON values a request body can
  hold, plus `undefined`, with JavaScript truthiness and ToString.
- `server.dfy` (module `Server`): the seven API handlers. Each handler maps
  the request fields and an injected `Store` to an `Exchange`: the store
  operation issued (if any) and the response (status and envelope). The
  `Store` is a record of functions giving whatever the driver would return
  or that it threw.
- `client.dfy` (module `Client`): the page's decisions: form validation, the
  query validator and URL dispatch, filter visibility, reply handling, the
  status auto-hide rule, and the `isConnected` state machine.
- `interplay.dfy` (module `Interplay`): properties of the page and the server
  together.

The page and the server split validation between them, and two
consequences of that split are stated as properties rather than defects:
- the age check at public/script.js:84 is a range test, and NaN compares
  false on both sides: an unreadable age passes the page
  (`Client.UnreadableAgeIsSent`) and the server refuses it
  (`Interplay.UnreadableAgeRefusedByServer`);
- public/script.js:79 tests `carrera` untrimmed while server.js:155 trims
  it, so a major of blanks passes the page and is stored empty
  (`Interplay.BlankMajorStoredEmpty`).

Three places where the code does less than it evidently means to are
listed under "## Findings", each modelled as written and corrected.

## Model

| member | source | states |
|---|---|---|
| `JsText.Trim` | server.js:152-155 | The result has no white space at either end, is no longer than the input, and sits in the input with only white space before and after it. |
| `JsText.TrimOfPadded` | public/script.js:71-72 | Trim is determined by its padding: any white space around a trimmed core is removed and the core returned whole. |
| `JsText.TrimOfTrimmed` | server.js:152-155 | Text with no white space at either end comes back from trim unchanged. |
| `JsText.TrimOfBlank` | server.js:155 | Text made only of white space trims to the empty string. |
| `JsText.TrimIdempotent` | public/script.js:71-72 | Trimming what is already trimmed changes nothing, so names the page trimmed reach the store unchanged. |
| `JsText.Split` | server.js:148 | `split(',')` yields at least one piece, and no piece contains the separator. |
| `JsText.JoinSplit` | server.js:148 | Joining the pieces of a split with the separator restores the original text. |
| `JsText.SplitJoin` | server.js:148 | Splitting a join of separator-free pieces returns exactly those pieces: split and join are inverse. |
| `JsNumbers.NatToDecimal` | server.js:104 | The decimal text of a natural number is a non-empty digit string with no leading zero whose value is the number. |
| `JsNumbers.ParseIntOfDecimal` | server.js:154 | parseInt reads back exactly the integer whose decimal text it is given, negative numbers included. |
| `JsNumbers.ParseIntSkipsWhitespace` | server.js:87 | Leading white space does not change what parseInt returns. |
| `JsNumbers.ParseIntWithoutDigits` | server.js:87-89 | Text with no decimal digit parses to NaN; hexadecimal letters alone never count. |
| `JsNumbers.ParseIntOfNonDigitStart` | server.js:87-89 | Text starting with anything but white space, a sign or a digit parses to NaN. |
| `JsNumbers.ParseIntOfDigitsThenRest` | server.js:87 | parseInt reads the leading digit run and ignores whatever follows it ("21 años" and "21x" are 21); only a lone `0` followed by `x` or `X` starts a hexadecimal number instead. |
| `JsNumbers.ParseIntNegative` | public/script.js:150 | When the text after a leading minus starts with neither white space nor a sign, the minus negates the parsed value and keeps NaN as NaN ("- 5" and "--5" are NaN). |
| `JsNumbers.DigitsAreNumeric` | public/script.js:150 | A non-empty digit string is never NaN to `isNaN`. |
| `JsNumbers.LettersAreNaN` | public/script.js:150 | Digit-free text other than blanks and the Infinity spellings is NaN to `isNaN`. |
| `JsValues.Or` | server.js:156 | `a \|\| b` is `a` when `a` is truthy and `b` otherwise, and it is truthy exactly when either operand is. |
| `JsValues.ParseIntOfNumber` | server.js:154 | parseInt of a number gives the number back. So does parseInt of its decimal text, or of a one-element array holding it. |
| `JsValues.ParseIntOfNonNumericValues` | server.js:154 | Booleans, objects, null, undefined and NaN all parse to NaN. |
| `Server.Listed` | server.js:46-58 | A settled find answers 200 with the documents and a `total` equal to their count; a throw answers 500. |
| `Server.ListAll` | server.js:44-59 | Listing issues the unfiltered find; a settled find answers 200 with exactly its documents and their count, with no filter text, and a throw answers the 500 envelope. |
| `Server.ByCarrera` | server.js:62-82 | The major search issues a find with the path parameter as pattern; a settled find answers 200 with exactly its documents, their count and the filter text `Carrera: <parameter>`, and a throw answers the 500 envelope. |
| `Server.ByMinAge` | server.js:85-113 | A parameter parseInt cannot read is a 400 with no query, and this is the only 400. Otherwise the filter is `edad >=` the parsed value; a settled find answers 200 with exactly its documents, their count and the filter text `Edad mínima: <value>`, and a throw answers the 500 envelope. |
| `Server.Count` | server.js:116-130 | Counting issues countDocuments and answers 200 with its total; if countDocuments threw, the answer is the 500 envelope. |
| `Server.CleanPieces` | server.js:148 | Every kept subject is non-empty and trimmed, and no more subjects are kept than pieces given. |
| `Server.MateriasOfEmpty` | server.js:147-148 | An empty subjects text splits into one empty piece, which the filter drops: it is stored as the empty list. |
| `Server.Kept` | server.js:148 | A piece contributes its trim when that is non-empty, and nothing otherwise. |
| `Server.NormaliseMaterias` | server.js:146-156 | A string becomes the list of its cleaned pieces. Any other truthy value is kept as given, and any falsy value (the empty string included) becomes the empty list; the result is always truthy. |
| `Server.PrepareStudent` | server.js:135-168 | Exactly the bodies missing a truthy `nombre`, `apellido`, `edad` or `carrera` get the 400 envelope. Any other refusal is the 500 envelope: it happens exactly when a truthy name or major is not a string, because `trim` throws. Otherwise the names and major are stored trimmed, `edad` as parseInt of the input, `materias` normalised, the creation time set, and the message quotes the names as sent. |
| `Server.Create` | server.js:133-178 | The insert is issued exactly when validation passes; otherwise the validation's 400 or 500 is the answer. The response is 201 exactly when the insert returned an id, and the 201 envelope carries that id, the inserted record and the message; an insert that threw answers the 500 envelope. |
| `Server.Stamped` | server.js:184-199 | The `$set` document holds every payload key plus `fechaModificacion`, which is set to the handler's Date. Every other payload value passes through untouched. |
| `Server.Settled` | server.js:202-220 | A matched or deleted count of 0 gives a 404. A positive count gives a 200 with `success` true. A throw gives the 500 envelope. |
| `Server.Update` | server.js:181-221 | An invalid id is a 400 with no store call. Otherwise updateOne is issued with the stamped payload; the answer is 404 exactly when nothing matched, a 200 confirmation when something did, and the 500 envelope when updateOne threw. |
| `Server.Remove` | server.js:224-259 | An invalid id is a 400 with no store call. Otherwise deleteOne is issued; the answer is 404 exactly when nothing was deleted, a 200 confirmation when something was, and the 500 envelope when deleteOne threw. |
| `Server.Handle` | server.js:44-259 | On every route: the envelope discipline holds, a 400 never touches the store, a request that skips the store is a 400 or 500, a 404 comes only from update or delete, and a 201 only from an insert. |
| `Server.CleanPiecesAppend` | server.js:148 | Cleaning distributes over concatenation, so kept subjects keep their input order. |
| `Server.CleanPiecesMembers` | server.js:148 | A string is kept exactly when it is the non-empty trim of some piece. |
| `Server.CleanPiecesOfClean` | server.js:148 | A list already made of non-empty trimmed subjects is kept as it is. |
| `Server.MateriasRoundTrip` | server.js:147-148 | Any stored subject list, the empty one included, sent back as its comma-joined text is stored as the same list. |
| `Server.CreateKeepsNumericAge` | server.js:154 | An age sent as a number, or as its decimal text, is stored as that number. |
| `Server.CreateRefusesFalsyFields` | server.js:138-143 | An age of 0 or an empty name, surname or major gives a 400 and no insert. |
| `Server.CreateStoresNaNAge` | server.js:138-160 | The server only checks presence: every non-empty age text without a digit, sent with valid names and major, passes and is inserted with a NaN age. |
| `Client.FilterAfterChanges` | public/script.js:49-58 | After any run of select changes the filter input is shown exactly when the last mode is the major or minimum-age mode; it keeps what was typed only if no mode on the way hid it, and a hidden filter is empty. |
| `Client.QueryTypeChangeIdempotent` | public/script.js:49-58 | Re-selecting the same mode changes nothing further. |
| `Client.JsonNumber` | public/script.js:73-98 | After JSON serialisation a NaN age reaches the server as a falsy null, and any readable age as a number that parseInt gives back unchanged. |
| `Client.PlanSubmit` | public/script.js:61-99 | The form is sent exactly when connected, the trimmed name and surname and the untrimmed major are non-empty, and the parsed age is not outside 18..65. A sent readable age lies in 18..65, and every refusal is an error status that schedules no hide of its own. |
| `Client.AdultAgesPass` | public/script.js:84-87 | Every whole age from 18 to 65 typed as digits passes, and is sent as that number. |
| `Client.UnreadableAgeIsSent` | public/script.js:73-87 | An age field with no digit in it, the empty field included, passes the range check because NaN compares false. It is sent as null. |
| `Client.SentFields` | public/script.js:70-76 | A sent body has exactly the five form keys, holding the trimmed names, the serialised parsed age, and the major and subjects as typed. |
| `Client.OnInsertReply` | public/script.js:103-129 | Only a successful reply resets the form and shows the record. The list reload is scheduled exactly for a successful reply while the mode is "all". Failures write an error status that schedules no hide of its own. |
| `Client.PlanQuery` | public/script.js:134-180 | Nothing is requested while disconnected, for a filtered mode with a blank filter, or for a minimum age that is not a number or is negative. An accepted query maps each mode to its URL: `/api/estudiantes`, `.../carrera/<encoded filter>`, `.../edad/<filter>`, `.../count`. |
| `Client.DigitFilterIsRequested` | public/script.js:150-173 | A minimum age typed as plain digits, even padded with blanks, is requested as those digits. |
| `Client.NegativeFilterIsRefused` | public/script.js:150-153 | A negative minimum age is refused. |
| `Client.EmptyResultShownAsOne` | public/script.js:186 | As written, `total \|\| 1` reports a total of 0 as one result; the corrected count reports 0. |
| `Client.OnQueryReply` | public/script.js:185-202 | Only a successful reply gives a success status, and that status quotes `total \|\| 1`. Anything else is an error status. |
| `Client.OwnHideExactlyOnSuccess` | public/script.js:264-276 | For every submit, query, insert reply and query reply, the status schedules a hide of its own exactly when it reports progress or success; a refusal or failure schedules none. |
| `Client.PendingAfterMessages` | public/script.js:264-276 | `mostrarEstado` as written cancels nothing: after any run of messages the last one is displayed, and a hide is pending exactly when one was pending before or some message of the run scheduled one. |
| `Client.SettledDisplayAsWritten` | public/script.js:264-276 | As written, a message is still displayed once the timers have fired exactly when it scheduled no hide and no earlier hide was pending. |
| `Client.SubmitFailureIsHidden` | public/script.js:91-128 | As written, a failure answer to a sent form that arrives before the progress message's hide fires is displayed as an error and then hidden by that hide. |
| `Client.SlowSubmitFailureStays` | public/script.js:91-128 | As written, a failure answer to a sent form that arrives after the progress message's hide has fired stays displayed. |
| `Client.QueryFailureIsHidden` | public/script.js:156-201 | As written, a failure answer to a requested query that arrives before the progress message's hide fires is displayed as an error and then hidden by that hide. |
| `Client.PendingAfterMessagesCancelling` | public/script.js:264-276 | Corrected `mostrarEstado`, which cancels the pending hide: after any non-empty run of messages the last one is displayed, and a hide is pending exactly when that last message scheduled one. |
| `Client.SettledDisplayCancelling` | public/script.js:264-276 | Corrected: whether a message stays once the timers have fired depends on the message alone: it stays exactly when it scheduled no hide. |
| `Client.SubmitFailureStaysWhenCancelled` | public/script.js:91-128 | Corrected: after a sent form, the answer stays displayed exactly when it is a failure. |
| `Client.QueryFailureStaysWhenCancelled` | public/script.js:156-201 | Corrected: after a requested query, the answer stays displayed exactly when it is a failure. |
| `Client.LoadList` | public/script.js:205-211 | The list is fetched only while `isConnected` is true, and that changes neither the flag nor the probes. |
| `Client.Next` | public/script.js:25-39 | Only an ok probe turns the flag from false to true. A failed probe or an offline event sets it false. Interval and online events probe exactly while it is false. A list is fetched only while it is true. |
| `Client.ConnectedOnlyAfterProbe` | public/script.js:306-322 | Over any run of events starting disconnected, the flag ends true only if some probe succeeded. |
| `Client.NoListWithoutProbe` | public/script.js:205-211 | A run from a disconnected state with no successful probe fetches no list and stays disconnected. |
| `Client.PageLoadFetchesNoList` | public/script.js:18-21 | As written: loading the page and then a successful probe issue the probe only, never a list request, though the flag ends true. |
| `Client.AwaitedPageLoad` | public/script.js:18-21 | Corrected load handler, which awaits the probe: the list is fetched exactly when the probe succeeds. |
| `Interplay.InsertReplyOf` | public/script.js:101-103 | The page reads `success` from the server's envelope unchanged. |
| `Interplay.QueryReplyOf` | public/script.js:183-186 | The page reads `success` and, for a listing, `total` from the envelope unchanged. |
| `Interplay.SentFormIsInserted` | server.js:151-158 | A form the page sends with a readable age is inserted with the page's trimmed names, the page's parsed age (hence within 18..65), the trimmed major and the cleaned subjects. |
| `Interplay.UnreadableAgeRefusedByServer` | server.js:138-143 | A form sent with an unreadable age is refused by the server with 400 and nothing is inserted. |
| `Interplay.RefusedAgeErrorDisappears` | public/script.js:91-123 | As written, the server's missing-fields refusal of a form sent with an unreadable age, when it arrives before the progress message's hide fires, is displayed and then hidden by that hide. |
| `Interplay.BlankMajorStoredEmpty` | server.js:155 | A major of blanks passes the page's check and is stored as the empty string. |
| `Interplay.AcceptedMinAgeIsNotNegative` | server.js:87-97 | A non-blank minimum age that is neither NaN to `isNaN` nor negative is requested by the page. The server then either refuses it or filters on a bound of at least 0. |
| `Interplay.InfinityPassesPageButNotServer` | server.js:87-94 | "Infinity" passes the page's `isNaN` test but parseInt cannot read it, so the server answers 400. |
| `Interplay.EmptyListingReportedAsOne` | public/script.js:186 | As written, an empty listing from the server is reported on the page as one result. |
| `Interplay.FixedCountMatchesListing` | public/script.js:186 | With the corrected count, the page reports exactly the number of records any listing carries. |
| `Interplay.ReloadOnlyAfterCreated` | public/script.js:119-121 | After a create, the list reload is scheduled exactly when the server answered 201 and the mode is "all". |

## Left out

- The MongoDB driver is a parameter (`Server.Store`). This covers `find` with
  its case-insensitive `$regex` and `$gte` matching, `countDocuments`,
  `insertOne`, `updateOne` and `deleteOne`. The properties that relate a
  create to a later search, update, delete or count depend on the database,
  so they are not stated.
- `ObjectId.isValid` and `new ObjectId(id)` are left out: the validity test
  is a function parameter. A constructor that throws after `isValid` passed
  is not modelled.
- Express routing, JSON body parsing, static files, the catch-all 404, the
  global error handler, `connectDB`, the seed-data call and SIGINT handling
  are left out. A request body that is a JSON array rather than an object is
  not modelled.
- Dates are integer timestamps supplied by the caller.
- JavaScript numbers are NaN or integers. Fractions, infinities, negative
  zero, values beyond 2^53, and the exponent form `toString` uses from 1e21
  are not modelled. So `parseInt` of a fractional JSON number is not covered.
- ToString of an object assumes the default `[object Object]`. A body object
  whose own `toString`/`valueOf` keys make ToPrimitive throw is not modelled.
- On the page, these are left out:
  - `fetch`, `async` interleaving and the timers: only the decision to
    request or to schedule is modelled.
  - DOM reads and writes, focus, the keyboard shortcuts, and the live
    field-border validators.
  - `mostrarResultado`'s text, `JSON.stringify` formatting,
    `toLocaleString`, `mostrarError` and `limpiarResultados`.
  - Console logging.
- `encodeURIComponent` is a function parameter.
- Strings are sequences of Unicode scalar values, while JavaScript strings
  are UTF-16 code units: a lone surrogate in a JSON body cannot be
  represented.
- The query select is assumed to offer only the four modes that
  `executeQuery` switches on. The page markup is not part of this model.
  The initial indicator class also comes from the markup, so it is a
  parameter.
- Status hide timers are modelled as a pending flag and one step in which
  every pending timer fires (`Client.TimersFire`); the 4-second delay itself
  is not modelled. Whether an answer arrives before or after the progress
  message's hide fires is expressed by where that step is placed:
  `Client.SubmitFailureIsHidden` and `Client.QueryFailureIsHidden` place
  the answer first, `Client.SlowSubmitFailureStays` places it after.
- `Client.OnQueryReply`: only the status text is modelled. The result area's
  `datos`, `total` and `filtro` are not.

## Findings

| source | as written | input that shows it | evidently intended | confidence | as-written member | corrected member |
|---|---|---|---|---|---|---|
| public/script.js:18-21 | The load handler calls `verificarConexion()` without awaiting it, then calls `cargarEstudiantes()`. That function returns at once because `isConnected` is still its initial false. | Page load while the server is reachable: the probe succeeds, but no list request is made until `cargarEstudiantes` is called again (the reload button, F5, or a successful insert while the mode is "all"). | Load the list once the probe has succeeded (await the probe). | high, not executed | `Client.PageLoadFetchesNoList` | `Client.AwaitedPageLoad` |
| public/script.js:186 | `result.total \|\| 1` treats a total of 0 as missing. | A major search with no matches: the server answers `total: 0`, and the page reports "(1 resultado(s))". | Use the server's total whenever it is present (`??` instead of `\|\|`). | high, not executed | `Interplay.EmptyListingReportedAsOne` | `Interplay.FixedCountMatchesListing` |
| public/script.js:271-275 | The hide timer a success or warning message schedules is never cancelled, and the submit and query handlers write a warning just before their request (public/script.js:91, 156). | A form whose age field is empty: the page sends it, the server answers 400 within 4 s, and "Error: Faltan campos obligatorios…" disappears 4 s after the submit, although an error schedules no hide. | A new message cancels the pending hide (`clearTimeout`), so errors stay until replaced. | medium, not executed | `Client.SubmitFailureIsHidden` | `Client.SubmitFailureStaysWhenCancelled` |
