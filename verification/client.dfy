/**
 The decisions public/script.js makes in the browser, without the DOM or
 fetch: what the insert form sends or refuses, which URL a query asks for,
 when the filter input is shown, what a reply leaves on screen, and the
 `isConnected` flag driven by count probes and by online/offline events.
 A status element's hide timers are modelled as a pending flag and a step
 in which they fire; the reload and interval timers only as the decision
 to schedule or the event they deliver.
 */
module Client {
  import opened JsText
  import opened JsNumbers
  import opened JsValues

  datatype QueryMode = All | ByCarrera | ByEdad | CountAll

  datatype StatusKind = Success | Warning | Error

  /** What mostrarEstado leaves in a status element: the text and its kind,
      and whether a timer to hide it again was scheduled. */
  datatype StatusView = StatusView(element: string, text: string, kind: StatusKind, hideScheduled: bool)

  const InsertStatus := "insertStatus"
  const QueryStatus := "queryStatus"
  const Cross := "\U{274C} "
  const WarningSign := "\U{26A0}\U{FE0F} "
  const Hourglass := "\U{23F3} "
  const Check := "\U{2705} "
  const NoConnectionText := Cross + "No hay conexi\U{f3}n con el servidor"
  const InvalidAgeText := WarningSign + "La edad debe ser un n\U{fa}mero v\U{e1}lido"
  const RunningQueryText := Hourglass + "Ejecutando consulta..."

  /** The warning for a filtered mode whose filter is blank. */
  function MissingValueText(mode: QueryMode): string {
    WarningSign + "Ingrese el valor para " + (if mode == ByCarrera then "carrera" else "edad m\U{ed}nima")
  }

  /** The message mostrarEstado writes: a success or warning schedules its
      own hide after a delay, an error schedules none. Hides that earlier
      messages scheduled are the element's concern (StatusElement). */
  function ShowStatus(element: string, text: string, kind: StatusKind): (v: StatusView)
    ensures v.element == element && v.text == text && v.kind == kind
    ensures v.hideScheduled <==> kind == Success || kind == Warning
  {
    StatusView(element, text, kind, kind == Success || kind == Warning)
  }

  /** A status element on screen: its last message, whether it is displayed,
      and whether a hide timer scheduled by some message is still pending. */
  datatype StatusElement = StatusElement(view: StatusView, displayed: bool, hidePending: bool)

  /** mostrarEstado as written: the message is displayed, its own hide timer
      (if any) is added, and timers already pending are not cancelled. */
  function Show(e: StatusElement, v: StatusView): (e': StatusElement)
    ensures e'.view == v && e'.displayed
    ensures e'.hidePending <==> e.hidePending || v.hideScheduled
  {
    StatusElement(v, true, e.hidePending || v.hideScheduled)
  }

  /** mostrarEstado as evidently intended: a new message cancels the hide
      still pending from an earlier one before scheduling its own. */
  function ShowCancelling(e: StatusElement, v: StatusView): (e': StatusElement)
    ensures e'.view == v && e'.displayed
    ensures e'.hidePending <==> v.hideScheduled
  {
    StatusElement(v, true, v.hideScheduled)
  }

  /** The element once every pending hide timer has fired, with no message
      written in between: hidden exactly when some hide was pending. */
  function TimersFire(e: StatusElement): (e': StatusElement)
    ensures e'.view == e.view && !e'.hidePending
    ensures e'.displayed <==> e.displayed && !e.hidePending
  {
    if e.hidePending then StatusElement(e.view, false, false) else e
  }

  /** The element after a sequence of messages written as is. */
  function ShowAll(e: StatusElement, vs: seq<StatusView>): StatusElement
    decreases |vs|
  {
    if vs == [] then e else ShowAll(Show(e, vs[0]), vs[1..])
  }

  /** The element after a sequence of messages, each cancelling the pending hide. */
  function ShowAllCancelling(e: StatusElement, vs: seq<StatusView>): StatusElement
    decreases |vs|
  {
    if vs == [] then e else ShowAllCancelling(ShowCancelling(e, vs[0]), vs[1..])
  }

  /** Some message of the sequence schedules a hide. */
  predicate AnyHides(vs: seq<StatusView>) {
    exists k :: 0 <= k < |vs| && vs[k].hideScheduled
  }

  /** As written nothing is ever cancelled: after any messages a hide is
      pending exactly when one was before or some message scheduled one. */
  lemma {:induction false} PendingAfterMessages(e: StatusElement, vs: seq<StatusView>)
    ensures ShowAll(e, vs).hidePending <==> e.hidePending || AnyHides(vs)
    ensures vs != [] ==> ShowAll(e, vs).displayed && ShowAll(e, vs).view == vs[|vs| - 1]
    decreases |vs|
  {
    if vs != [] {
      var tail := vs[1..];
      PendingAfterMessages(Show(e, vs[0]), tail);
      assert AnyHides(vs) <==> vs[0].hideScheduled || AnyHides(tail) by {
        if AnyHides(tail) {
          var k :| 0 <= k < |tail| && tail[k].hideScheduled;
          assert vs[k + 1] == tail[k];
        }
        if AnyHides(vs) && !vs[0].hideScheduled {
          var k :| 0 <= k < |vs| && vs[k].hideScheduled;
          assert tail[k - 1] == vs[k];
        }
      }
      if tail != [] {
        assert tail[|tail| - 1] == vs[|vs| - 1];
      }
    }
  }

  /** With cancelling, after a non-empty sequence of messages a hide is
      pending exactly when the last message scheduled one. */
  lemma {:induction false} PendingAfterMessagesCancelling(e: StatusElement, vs: seq<StatusView>)
    requires vs != []
    ensures ShowAllCancelling(e, vs).hidePending <==> vs[|vs| - 1].hideScheduled
    ensures ShowAllCancelling(e, vs).displayed && ShowAllCancelling(e, vs).view == vs[|vs| - 1]
    decreases |vs|
  {
    var tail := vs[1..];
    if tail == [] {
      assert ShowAllCancelling(e, vs) == ShowCancelling(e, vs[0]);
    } else {
      PendingAfterMessagesCancelling(ShowCancelling(e, vs[0]), tail);
      assert tail[|tail| - 1] == vs[|vs| - 1];
    }
  }

  /** As written, a message is still displayed after the timers fire exactly
      when it scheduled no hide and no earlier hide was pending. */
  lemma SettledDisplayAsWritten(e: StatusElement, v: StatusView)
    ensures TimersFire(Show(e, v)).displayed <==> !v.hideScheduled && !e.hidePending
  {
  }

  /** With cancelling, what stays depends on the message alone. */
  lemma SettledDisplayCancelling(e: StatusElement, v: StatusView)
    ensures TimersFire(ShowCancelling(e, v)).displayed <==> !v.hideScheduled
  {
  }

  // ---- the query-type select ----

  datatype FilterInput = FilterInput(shown: bool, placeholder: string, value: string)

  predicate NeedsFilter(mode: QueryMode) {
    mode == ByCarrera || mode == ByEdad
  }

  /** The change handler of the query-type select: the filter input is shown,
      with a hint, only for the two filtered modes; any other mode hides it
      and clears what was typed. */
  function OnQueryTypeChange(mode: QueryMode, f: FilterInput): (g: FilterInput)
    ensures g.shown <==> NeedsFilter(mode)
    ensures NeedsFilter(mode) ==> g.value == f.value
    ensures !NeedsFilter(mode) ==> g.value == [] && g.placeholder == f.placeholder
    ensures mode == ByCarrera ==> g.placeholder == "Nombre de la carrera"
    ensures mode == ByEdad ==> g.placeholder == "Edad m\U{ed}nima"
  {
    if NeedsFilter(mode) then
      FilterInput(true, if mode == ByCarrera then "Nombre de la carrera" else "Edad m\U{ed}nima", f.value)
    else
      FilterInput(false, f.placeholder, [])
  }

  /** Every mode of the list needs the filter input. */
  predicate AllNeedFilter(modes: seq<QueryMode>) {
    forall k :: 0 <= k < |modes| ==> NeedsFilter(modes[k])
  }

  /** The filter input after the select has changed to each mode in turn. */
  function AfterChanges(modes: seq<QueryMode>, f: FilterInput): FilterInput
    decreases |modes|
  {
    if modes == [] then f else AfterChanges(modes[1..], OnQueryTypeChange(modes[0], f))
  }

  /** After any run of changes the filter input is shown exactly when the
      last mode needs it, and it still holds what was typed only if no mode
      on the way hid it; once hidden it is empty. */
  lemma {:induction false} FilterAfterChanges(modes: seq<QueryMode>, f: FilterInput)
    requires modes != []
    ensures AfterChanges(modes, f).shown <==> NeedsFilter(modes[|modes| - 1])
    ensures AfterChanges(modes, f).value == if AllNeedFilter(modes) then f.value else []
    ensures !AfterChanges(modes, f).shown ==> AfterChanges(modes, f).value == []
    decreases |modes|
  {
    var g := OnQueryTypeChange(modes[0], f);
    var tail := modes[1..];
    if tail == [] {
      assert AfterChanges(modes, f) == g;
    } else {
      FilterAfterChanges(tail, g);
      assert tail[|tail| - 1] == modes[|modes| - 1];
      assert AllNeedFilter(modes) <==> NeedsFilter(modes[0]) && AllNeedFilter(tail) by {
        if NeedsFilter(modes[0]) && AllNeedFilter(tail) {
          forall k | 0 <= k < |modes| ensures NeedsFilter(modes[k]) {
            if k > 0 { assert modes[k] == tail[k - 1]; }
          }
        }
      }
    }
  }

  /** Selecting the same mode again changes nothing more. */
  lemma QueryTypeChangeIdempotent(mode: QueryMode, f: FilterInput)
    ensures OnQueryTypeChange(mode, OnQueryTypeChange(mode, f)) == OnQueryTypeChange(mode, f)
  {
  }

  // ---- the insert form ----

  /** The raw texts of the five inputs. */
  datatype InsertForm = InsertForm(nombre: string, apellido: string, edad: string, carrera: string, materias: string)

  datatype SubmitPlan =
    | Blocked(status: StatusView)
    | Send(body: map<string, Value>, status: StatusView)

  /** A number as the server reads it back from JSON.stringify: NaN is
      written as null. */
  function JsonNumber(n: JsNumber): (v: Value)
    ensures n.NaN? ==> v == Null
    ensures n.Finite? ==> v == Num(n)
    ensures n.NaN? ==> !Truthy(v)
    ensures n.Finite? ==> ParseInt(ToString(v)) == n
  {
    match n
    case NaN => Null
    case Finite(i) =>
      ParseIntOfNumber(i);
      Num(Finite(i))
  }

  /** `edad < 18 || edad > 65`: both comparisons are false for NaN. */
  predicate AgeOutOfRange(edad: JsNumber) {
    edad.Finite? && (edad.value < 18 || edad.value > 65)
  }

  /** The submit handler: nothing is sent while disconnected, nor when the
      trimmed name, the trimmed surname or the (untrimmed) major is empty,
      nor when the parsed age is below 18 or above 65. Otherwise the body is
      the trimmed names, the parsed age, and the major and subjects as typed. */
  function PlanSubmit(connected: bool, form: InsertForm): (p: SubmitPlan)
    ensures !connected ==> p == Blocked(ShowStatus(InsertStatus, NoConnectionText, Error))
    ensures p.Send? <==> && connected
                         && Trim(form.nombre) != [] && Trim(form.apellido) != [] && form.carrera != []
                         && !AgeOutOfRange(ParseInt(form.edad))
    ensures p.Blocked? ==> p.status.kind == Error && !p.status.hideScheduled
    ensures p.Send? ==> p.body == map[
                          "nombre" := Str(Trim(form.nombre)),
                          "apellido" := Str(Trim(form.apellido)),
                          "edad" := JsonNumber(ParseInt(form.edad)),
                          "carrera" := Str(form.carrera),
                          "materias" := Str(form.materias)]
    ensures p.Send? && ParseInt(form.edad).Finite? ==> 18 <= ParseInt(form.edad).value <= 65
  {
    if !connected then
      Blocked(ShowStatus(InsertStatus, NoConnectionText, Error))
    else
      var nombre := Trim(form.nombre);
      var apellido := Trim(form.apellido);
      var edad := ParseInt(form.edad);
      if nombre == [] || apellido == [] || form.carrera == [] then
        Blocked(ShowStatus(InsertStatus, WarningSign + "Todos los campos obligatorios deben completarse", Error))
      else if AgeOutOfRange(edad) then
        Blocked(ShowStatus(InsertStatus, WarningSign + "La edad debe estar entre 18 y 65 a\U{f1}os", Error))
      else
        Send(map["nombre" := Str(nombre), "apellido" := Str(apellido), "edad" := JsonNumber(edad),
                 "carrera" := Str(form.carrera), "materias" := Str(form.materias)],
             ShowStatus(InsertStatus, Hourglass + "Insertando estudiante...", Warning))
  }

  /** What each key of a sent body holds. */
  lemma SentFields(form: InsertForm)
    requires PlanSubmit(true, form).Send?
    ensures var body := PlanSubmit(true, form).body;
            && body.Keys == {"nombre", "apellido", "edad", "carrera", "materias"}
            && body["nombre"] == Str(Trim(form.nombre))
            && body["apellido"] == Str(Trim(form.apellido))
            && body["edad"] == JsonNumber(ParseInt(form.edad))
            && body["carrera"] == Str(form.carrera)
            && body["materias"] == Str(form.materias)
  {
    BodyKeysDistinct();
  }

  lemma BodyKeysDistinct()
    ensures "nombre" != "apellido" && "nombre" != "edad" && "nombre" != "carrera" && "nombre" != "materias"
    ensures "apellido" != "edad" && "apellido" != "carrera" && "apellido" != "materias"
    ensures "edad" != "carrera" && "edad" != "materias" && "carrera" != "materias"
  {
    assert "nombre"[0] != "apellido"[0] && "nombre"[0] != "edad"[0];
    assert "nombre"[0] != "carrera"[0] && "nombre"[0] != "materias"[0];
    assert "apellido"[0] != "edad"[0] && "apellido"[0] != "carrera"[0] && "apellido"[0] != "materias"[0];
    assert "edad"[0] != "carrera"[0] && "edad"[0] != "materias"[0] && "carrera"[0] != "materias"[0];
  }

  /** Every whole age from 18 to 65, typed as digits, passes the age check. */
  lemma AdultAgesPass(form: InsertForm, age: int)
    requires 18 <= age <= 65 && form.edad == IntToDecimal(age)
    requires Trim(form.nombre) != [] && Trim(form.apellido) != [] && form.carrera != []
    ensures PlanSubmit(true, form).Send?
    ensures PlanSubmit(true, form).body["edad"] == Num(Finite(age))
  {
    assert ParseInt(form.edad) == Finite(age) by { ParseIntOfDecimal(age); }
    assert !AgeOutOfRange(ParseInt(form.edad));
    SentFields(form);
  }

  /** An age field parseInt cannot read is not caught here: the form is sent
      with a null age. */
  lemma UnreadableAgeIsSent(form: InsertForm)
    requires forall i :: 0 <= i < |form.edad| ==> !IsDecimalDigit(form.edad[i])
    requires Trim(form.nombre) != [] && Trim(form.apellido) != [] && form.carrera != []
    ensures PlanSubmit(true, form).Send?
    ensures PlanSubmit(true, form).body["edad"] == Null
  {
    assert ParseInt(form.edad) == NaN by { ParseIntWithoutDigits(form.edad); }
    assert !AgeOutOfRange(ParseInt(form.edad));
    SentFields(form);
  }

  /** What the page does with the server's answer to a create. */
  datatype ServerReply = Answered(success: bool, mensaje: string, error: string) | Unreachable

  datatype InsertEffects = InsertEffects(status: StatusView, showsRecord: bool, resetsForm: bool, reloadScheduled: bool)

  /** After a successful insert the record is shown and the form reset, and
      the list is reloaded only when the selected mode is "all". */
  function OnInsertReply(reply: ServerReply, mode: QueryMode): (e: InsertEffects)
    ensures e.reloadScheduled <==> reply.Answered? && reply.success && mode == All
    ensures e.resetsForm <==> reply.Answered? && reply.success
    ensures e.showsRecord == e.resetsForm
    ensures e.status.kind == Success <==> reply.Answered? && reply.success
    ensures e.status.kind != Success ==> e.status.kind == Error && !e.status.hideScheduled
  {
    match reply
    case Answered(true, mensaje, _) =>
      InsertEffects(ShowStatus(InsertStatus, Check + mensaje, Success), true, true, mode == All)
    case Answered(false, _, error) =>
      InsertEffects(ShowStatus(InsertStatus, Cross + "Error: " + error, Error), false, false, false)
    case Unreachable =>
      InsertEffects(ShowStatus(InsertStatus, Cross + "Error de conexi\U{f3}n al insertar estudiante", Error),
                    false, false, false)
  }

  // ---- executeQuery ----

  /** The URL each mode asks for; `encode` stands for encodeURIComponent,
      which only the major search applies. */
  function QueryUrl(mode: QueryMode, filter: string, encode: string -> string): string {
    match mode
    case All => "/api/estudiantes"
    case ByCarrera => "/api/estudiantes/carrera/" + encode(filter)
    case ByEdad => "/api/estudiantes/edad/" + filter
    case CountAll => "/api/estudiantes/count"
  }

  function QueryDescription(mode: QueryMode, filter: string): string {
    match mode
    case All => "Obtener todos los estudiantes"
    case ByCarrera => "Buscar estudiantes por carrera: " + filter
    case ByEdad => "Buscar estudiantes con edad m\U{ed}nima: " + filter
    case CountAll => "Contar total de estudiantes"
  }

  /** `isNaN(filter) || parseInt(filter) < 0`; NaN is not below 0. */
  predicate InvalidMinAge(filter: string) {
    IsNaNString(filter) || (ParseInt(filter).Finite? && ParseInt(filter).value < 0)
  }

  datatype QueryPlan =
    | Refused(status: StatusView)
    | Fetch(url: string, descripcion: string, status: StatusView)

  /** executeQuery up to the fetch: refuse while disconnected, refuse a
      filtered mode with a blank filter, refuse a minimum age that is not a
      number or is negative; otherwise request the mode's URL with the
      trimmed filter. */
  function PlanQuery(connected: bool, mode: QueryMode, filterText: string, encode: string -> string): (p: QueryPlan)
    ensures !connected ==> p == Refused(ShowStatus(QueryStatus, NoConnectionText, Error))
    ensures connected && NeedsFilter(mode) && Trim(filterText) == [] ==> p.Refused?
    ensures connected && mode == ByEdad && InvalidMinAge(Trim(filterText)) ==> p.Refused?
    ensures p.Refused? ==> p.status.kind == Error && !p.status.hideScheduled
    ensures p.Fetch? <==> && connected
                          && (NeedsFilter(mode) ==> Trim(filterText) != [])
                          && (mode == ByEdad ==> !InvalidMinAge(Trim(filterText)))
    ensures p.Fetch? && mode == All ==> p.url == "/api/estudiantes"
    ensures p.Fetch? && mode == ByCarrera ==> p.url == "/api/estudiantes/carrera/" + encode(Trim(filterText))
    ensures p.Fetch? && mode == ByEdad ==> p.url == "/api/estudiantes/edad/" + Trim(filterText)
    ensures p.Fetch? && mode == CountAll ==> p.url == "/api/estudiantes/count"
  {
    var filter := Trim(filterText);
    if !connected then
      Refused(ShowStatus(QueryStatus, NoConnectionText, Error))
    else if NeedsFilter(mode) && filter == [] then
      Refused(ShowStatus(QueryStatus, MissingValueText(mode), Error))
    else if mode == ByEdad && InvalidMinAge(filter) then
      Refused(ShowStatus(QueryStatus, InvalidAgeText, Error))
    else
      Fetch(QueryUrl(mode, filter, encode), QueryDescription(mode, filter),
            ShowStatus(QueryStatus, RunningQueryText, Warning))
  }

  /** A minimum age typed as plain digits, possibly padded, is requested as is. */
  lemma DigitFilterIsRequested(filterText: string, digits: string, encode: string -> string)
    requires |digits| >= 1 && AllRadixDigits(digits, 10)
    requires Trim(filterText) == digits
    ensures PlanQuery(true, ByEdad, filterText, encode) == Fetch(
              "/api/estudiantes/edad/" + digits,
              "Buscar estudiantes con edad m\U{ed}nima: " + digits,
              ShowStatus(QueryStatus, RunningQueryText, Warning))
  {
    DigitsAreNumeric(digits);
    ParseIntOfDigitsThenRest(digits, []);
    assert digits + [] == digits;
  }

  /** A negative minimum age is refused. */
  lemma NegativeFilterIsRefused(age: int, encode: string -> string)
    requires age < 0
    ensures PlanQuery(true, ByEdad, IntToDecimal(age), encode).Refused?
  {
    var s := IntToDecimal(age);
    DecimalIsTrimmed(age);
    assert ParseInt(s) == Finite(age) by { ParseIntOfDecimal(age); }
    assert InvalidMinAge(Trim(s));
  }

  /** The server's answer to a query, as the page reads it. */
  datatype QueryReply = Reply(success: bool, total: Option<int>, error: string) | NoReply

  /** `result.total || 1`, the count the page reports for a successful query. */
  function DisplayedCount(total: Option<int>): int {
    if total.Some? && total.value != 0 then total.value else 1
  }

  /** The count the page evidently means to report: the total the server
      sent, and 1 only when it sent none. */
  function DisplayedCountFixed(total: Option<int>): (n: int)
    ensures total.Some? ==> n == total.value
  {
    if total.Some? then total.value else 1
  }

  /** A server total of zero is reported as one result. */
  lemma EmptyResultShownAsOne()
    ensures DisplayedCount(Some(0)) == 1
    ensures DisplayedCountFixed(Some(0)) == 0
  {
  }

  /** The status a query answer leaves on screen. */
  function OnQueryReply(reply: QueryReply): (v: StatusView)
    ensures v.kind == Success <==> reply.Reply? && reply.success
    ensures v.kind != Success ==> v.kind == Error
    ensures reply.Reply? && reply.success ==>
              v.text == Check + "Consulta ejecutada (" + IntToDecimal(DisplayedCount(reply.total)) + " resultado(s))"
  {
    match reply
    case Reply(true, total, _) =>
      ShowStatus(QueryStatus, Check + "Consulta ejecutada (" + IntToDecimal(DisplayedCount(total)) + " resultado(s))", Success)
    case Reply(false, _, error) =>
      ShowStatus(QueryStatus, Cross + "Error: " + error, Error)
    case NoReply =>
      ShowStatus(QueryStatus, Cross + "Error de conexi\U{f3}n al ejecutar consulta", Error)
  }

  /** Across every message the page shows for a submit or a query, a status
      schedules a hide of its own exactly when it reports progress or
      success; a refusal or failure schedules none. */
  lemma OwnHideExactlyOnSuccess(connected: bool, form: InsertForm, mode: QueryMode, filterText: string,
                                    encode: string -> string, insertReply: ServerReply, queryReply: QueryReply)
    ensures PlanSubmit(connected, form).status.hideScheduled <==> PlanSubmit(connected, form).Send?
    ensures PlanQuery(connected, mode, filterText, encode).status.hideScheduled
            <==> PlanQuery(connected, mode, filterText, encode).Fetch?
    ensures OnInsertReply(insertReply, mode).status.hideScheduled <==> insertReply.Answered? && insertReply.success
    ensures OnQueryReply(queryReply).hideScheduled <==> queryReply.Reply? && queryReply.success
  {
  }

  /** As written: the progress message of a sent form schedules a hide, and
      a failure answer written before it fires does not cancel it, so the
      error is displayed at first and hidden once the timers have fired. */
  lemma SubmitFailureIsHidden(e: StatusElement, form: InsertForm, reply: ServerReply, mode: QueryMode)
    requires PlanSubmit(true, form).Send?
    requires !(reply.Answered? && reply.success)
    ensures var shown := Show(Show(e, PlanSubmit(true, form).status), OnInsertReply(reply, mode).status);
            && shown.displayed && shown.view.kind == Error
            && !TimersFire(shown).displayed
  {
  }

  /** As written, a failure answer that arrives only after the progress
      message's hide has fired stays displayed. */
  lemma SlowSubmitFailureStays(e: StatusElement, form: InsertForm, reply: ServerReply, mode: QueryMode)
    requires PlanSubmit(true, form).Send?
    requires !(reply.Answered? && reply.success)
    ensures var shown := Show(TimersFire(Show(e, PlanSubmit(true, form).status)), OnInsertReply(reply, mode).status);
            && shown.view.kind == Error
            && TimersFire(shown).displayed
  {
  }

  /** As written, the same holds for a query that was requested and failed. */
  lemma QueryFailureIsHidden(e: StatusElement, mode: QueryMode, filterText: string,
                             encode: string -> string, reply: QueryReply)
    requires PlanQuery(true, mode, filterText, encode).Fetch?
    requires !(reply.Reply? && reply.success)
    ensures var shown := Show(Show(e, PlanQuery(true, mode, filterText, encode).status), OnQueryReply(reply));
            && shown.displayed && shown.view.kind == Error
            && !TimersFire(shown).displayed
  {
  }

  /** Corrected: when a message cancels the pending hide, a failure answer
      to a sent form stays displayed after the timers fire, and a success
      answer is hidden. */
  lemma SubmitFailureStaysWhenCancelled(e: StatusElement, form: InsertForm, reply: ServerReply, mode: QueryMode)
    requires PlanSubmit(true, form).Send?
    ensures var shown := ShowCancelling(ShowCancelling(e, PlanSubmit(true, form).status),
                                        OnInsertReply(reply, mode).status);
            TimersFire(shown).displayed <==> !(reply.Answered? && reply.success)
  {
  }

  /** Corrected, for queries: a failure answer stays, a success is hidden. */
  lemma QueryFailureStaysWhenCancelled(e: StatusElement, mode: QueryMode, filterText: string,
                                       encode: string -> string, reply: QueryReply)
    requires PlanQuery(true, mode, filterText, encode).Fetch?
    ensures var shown := ShowCancelling(ShowCancelling(e, PlanQuery(true, mode, filterText, encode).status),
                                        OnQueryReply(reply));
            TimersFire(shown).displayed <==> !(reply.Reply? && reply.success)
  {
  }

  // ---- connectivity ----

  /** The connection indicator's three classes. */
  datatype Indicator = Connected | Connecting | Disconnected

  /** `isConnected` and the indicator. */
  datatype Conn = Conn(isConnected: bool, indicator: Indicator)

  datatype Event =
    | PageLoad                 // the window's load handler
    | ProbeAnswered(ok: bool)  // verificarConexion's count request settled
    | IntervalTick             // the 30-second interval fired
    | WentOnline
    | WentOffline
    | ReloadRequested          // cargarEstudiantes called by a button, F5 or the post-insert timer
    | ListAnswered(ok: bool)   // cargarEstudiantes's list request settled

  datatype Action = ProbeCount | FetchList

  datatype Transition = Transition(next: Conn, actions: seq<Action>)

  /** cargarEstudiantes up to its request: nothing happens while
      disconnected. */
  function LoadList(c: Conn): (t: Transition)
    ensures t.next.isConnected == c.isConnected
    ensures FetchList in t.actions <==> c.isConnected
    ensures ProbeCount !in t.actions
  {
    if c.isConnected then Transition(Conn(true, Connecting), [FetchList]) else Transition(c, [])
  }

  /** verificarConexion up to its request. */
  function Probe(c: Conn): Transition {
    Transition(c, [ProbeCount])
  }

  /** One event. The load handler starts a probe and then, without waiting
      for it, calls cargarEstudiantes. */
  function Next(c: Conn, e: Event): (t: Transition)
    ensures !c.isConnected && t.next.isConnected ==> e == ProbeAnswered(true)
    ensures e == ProbeAnswered(true) ==> t.next.isConnected
    ensures e == ProbeAnswered(false) || e == WentOffline ==> !t.next.isConnected
    ensures !e.ProbeAnswered? && e != WentOffline ==> t.next.isConnected == c.isConnected
    ensures e == IntervalTick || e == WentOnline ==> (ProbeCount in t.actions <==> !c.isConnected)
    ensures ProbeCount in t.actions ==> !c.isConnected || e == PageLoad
    ensures FetchList in t.actions ==> c.isConnected
  {
    match e
    case PageLoad =>
      var l := LoadList(c);
      Transition(l.next, [ProbeCount] + l.actions)
    case ProbeAnswered(ok) =>
      Transition(Conn(ok, if ok then Connected else Disconnected), [])
    case IntervalTick => if c.isConnected then Transition(c, []) else Probe(c)
    case WentOnline => if c.isConnected then Transition(c, []) else Probe(c)
    case WentOffline => Transition(Conn(false, Disconnected), [])
    case ReloadRequested => LoadList(c)
    case ListAnswered(ok) => Transition(Conn(c.isConnected, if ok then Connected else Disconnected), [])
  }

  /** A sequence of events from a state: the final state and every request
      made on the way, in order. */
  function Run(c: Conn, events: seq<Event>): Transition
    decreases |events|
  {
    if events == [] then Transition(c, [])
    else
      var t := Next(c, events[0]);
      var rest := Run(t.next, events[1..]);
      Transition(rest.next, t.actions + rest.actions)
  }

  /** Over any run, the flag goes from false to true only through a
      successful probe. */
  lemma {:induction false} ConnectedOnlyAfterProbe(c: Conn, events: seq<Event>)
    requires !c.isConnected
    requires Run(c, events).next.isConnected
    ensures exists k :: 0 <= k < |events| && events[k] == ProbeAnswered(true)
    decreases |events|
  {
    var t := Next(c, events[0]);
    if events[0] != ProbeAnswered(true) {
      ConnectedOnlyAfterProbe(t.next, events[1..]);
      var k :| 0 <= k < |events[1..]| && events[1..][k] == ProbeAnswered(true);
      assert events[k + 1] == ProbeAnswered(true);
    }
  }

  /** A list request is only made while the flag is true: from a
      disconnected state, a run without a successful probe fetches nothing. */
  lemma {:induction false} NoListWithoutProbe(c: Conn, events: seq<Event>)
    requires !c.isConnected
    requires forall k :: 0 <= k < |events| ==> events[k] != ProbeAnswered(true)
    ensures FetchList !in Run(c, events).actions
    ensures !Run(c, events).next.isConnected
    decreases |events|
  {
    if events != [] {
      NoListWithoutProbe(Next(c, events[0]).next, events[1..]);
    }
  }

  /** The page as written: the load handler's list request is decided while
      the flag still has its initial false value, so loading the page and a
      successful probe fetch no list. */
  lemma PageLoadFetchesNoList(indicator: Indicator)
    ensures Run(Conn(false, indicator), [PageLoad, ProbeAnswered(true)]).actions == [ProbeCount]
    ensures Run(Conn(false, indicator), [PageLoad, ProbeAnswered(true)]).next.isConnected
  {
    var events := [PageLoad, ProbeAnswered(true)];
    assert events[1..] == [ProbeAnswered(true)];
    assert events[1..][1..] == [];
  }

  /** The load handler evidently intended: await the probe, then load the
      list with the flag the probe left. */
  function AwaitedPageLoad(c: Conn, probeOk: bool): (t: Transition)
    ensures FetchList in t.actions <==> probeOk
    ensures |t.actions| >= 1 && t.actions[0] == ProbeCount
    ensures t.next.isConnected == probeOk
  {
    var probed := Next(c, ProbeAnswered(probeOk)).next;
    var loaded := LoadList(probed);
    Transition(loaded.next, [ProbeCount] + loaded.actions)
  }
}
