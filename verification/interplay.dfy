/**
 What the page and the server do together: a form the page sends, as the
 create handler stores it; a minimum age the page asks for, as the age
 handler reads it; and a server envelope, as the page reports it.
 */
module Interplay {
  import opened JsText
  import opened JsNumbers
  import opened JsValues
  import opened Server
  import opened Client

  /** The page's view of a create response: `result.success`,
      `result.mensaje` and `result.error`. */
  function InsertReplyOf(r: Response): (reply: ServerReply)
    ensures reply.Answered? && (reply.success <==> r.envelope.Success())
  {
    match r.envelope
    case Failure(error) => Answered(false, [], error)
    case Created(_, _, mensaje) => Answered(true, mensaje, [])
    case Confirmed(mensaje) => Answered(true, mensaje, [])
    case _ => Answered(true, [], [])
  }

  /** The page's view of a query response: `result.success`, `result.total`
      and `result.error`. */
  function QueryReplyOf(r: Response): (reply: QueryReply)
    ensures reply.Reply? && (reply.success <==> r.envelope.Success())
    ensures r.envelope.Listing? ==> reply.total == Some(r.envelope.total as int)
  {
    match r.envelope
    case Failure(error) => Reply(false, None, error)
    case Listing(_, total, _) => Reply(true, Some(total), [])
    case Tally(total) => Reply(true, Some(total), [])
    case _ => Reply(true, None, [])
  }

  /** The server's validation of a body the page sent with a readable age. */
  lemma SentBodyIsReady(form: InsertForm, now: Timestamp)
    requires PlanSubmit(true, form).Send?
    requires ParseInt(form.edad).Finite?
    ensures var p := PrepareStudent(PlanSubmit(true, form).body, now);
            && p.Ready?
            && p.doc.nombre == Trim(Trim(form.nombre))
            && p.doc.apellido == Trim(Trim(form.apellido))
            && p.doc.edad == ParseInt(ToString(Num(ParseInt(form.edad))))
            && p.doc.carrera == Trim(form.carrera)
            && p.doc.materias == NormaliseMaterias(Str(form.materias))
  {
    var body := PlanSubmit(true, form).body;
    var age := ParseInt(form.edad).value;
    assert Trim(form.nombre) != [] && Trim(form.apellido) != [] && form.carrera != [];
    assert 18 <= age <= 65;
    SentFields(form);
    assert Field(body, "nombre") == Str(Trim(form.nombre));
    assert Field(body, "apellido") == Str(Trim(form.apellido));
    assert Field(body, "edad") == Num(Finite(age));
    assert Field(body, "carrera") == Str(form.carrera);
    assert Field(body, "materias") == Str(form.materias);
    assert HasRequiredFields(body);
  }

  /** A form the page sends with a readable age is inserted as the page
      normalised it: the names as trimmed on the page, the age the page
      parsed (so within 18..65), and the subjects cleaned by the server. */
  lemma SentFormIsInserted(form: InsertForm, now: Timestamp, db: Store)
    requires PlanSubmit(true, form).Send?
    requires ParseInt(form.edad).Finite?
    ensures Create(PlanSubmit(true, form).body, now, db).issued.Some?
    ensures var doc := Create(PlanSubmit(true, form).body, now, db).issued.value.doc;
            && doc.nombre == Trim(form.nombre)
            && doc.apellido == Trim(form.apellido)
            && doc.edad == ParseInt(form.edad)
            && 18 <= doc.edad.value <= 65
            && doc.carrera == Trim(form.carrera)
            && doc.materias == Arr(Strs(MateriasList(form.materias)))
  {
    SentBodyIsReady(form, now);
    TrimIdempotent(form.nombre);
    TrimIdempotent(form.apellido);
    ParseIntOfNumber(ParseInt(form.edad).value);
  }

  /** The page sends an unreadable age as null, and the server refuses it. */
  lemma UnreadableAgeRefusedByServer(form: InsertForm, now: Timestamp, db: Store)
    requires PlanSubmit(true, form).Send?
    requires ParseInt(form.edad).NaN?
    ensures Create(PlanSubmit(true, form).body, now, db).issued.None?
    ensures Create(PlanSubmit(true, form).body, now, db).response == Server.Fail(400, MissingFieldsError)
  {
    SentFields(form);
    assert Field(PlanSubmit(true, form).body, "edad") == Null;
  }

  /** As written, the server's refusal of an unreadable age is displayed and
      then hidden by the hide the progress message scheduled. */
  lemma RefusedAgeErrorDisappears(form: InsertForm, now: Timestamp, db: Store, mode: QueryMode, e: StatusElement)
    requires PlanSubmit(true, form).Send?
    requires ParseInt(form.edad).NaN?
    ensures var reply := InsertReplyOf(Create(PlanSubmit(true, form).body, now, db).response);
            var shown := Show(Show(e, PlanSubmit(true, form).status), OnInsertReply(reply, mode).status);
            && shown.displayed
            && shown.view.text == Cross + "Error: " + MissingFieldsError
            && !TimersFire(shown).displayed
  {
    UnreadableAgeRefusedByServer(form, now, db);
  }

  /** The page checks the major untrimmed, the server trims it: a major of
      blanks passes the page and is stored empty. */
  lemma BlankMajorStoredEmpty(form: InsertForm, now: Timestamp, db: Store)
    requires PlanSubmit(true, form).Send?
    requires ParseInt(form.edad).Finite?
    requires AllWhitespace(form.carrera)
    ensures var x := Create(PlanSubmit(true, form).body, now, db);
            x.issued.Some? && x.issued.value.doc.carrera == []
  {
    SentFormIsInserted(form, now, db);
    TrimOfBlank(form.carrera);
  }

  /** A minimum age the page accepts never reaches the store as a negative
      bound: the server either refuses it or filters on a bound of 0 or more. */
  lemma AcceptedMinAgeIsNotNegative(filterText: string, encode: string -> string, db: Store)
    requires Trim(filterText) != [] && !InvalidMinAge(Trim(filterText))
    ensures PlanQuery(true, ByEdad, filterText, encode).Fetch?
    ensures var x := ByMinAge(Trim(filterText), db);
            x.response.status == 400 || (x.issued.Some? && x.issued.value.filter.min >= 0)
  {
  }

  /** "Infinity" is a number to isNaN but not to parseInt: the page sends it
      and the server answers 400. */
  lemma InfinityPassesPageButNotServer(encode: string -> string, db: Store)
    ensures PlanQuery(true, ByEdad, "Infinity", encode).Fetch?
    ensures ByMinAge("Infinity", db).response.status == 400
  {
    var s := "Infinity";
    assert Trim(s) == s by { TrimOfTrimmed(s); }
    assert ParseInt(s) == NaN by { ParseIntOfNonDigitStart(s); }
    assert !IsNaNString(s) by { assert IsStrDecimalLiteral(s); }
    assert !InvalidMinAge(Trim(s));
  }

  /** The page reports an empty listing as one result. */
  lemma EmptyListingReportedAsOne(db: Store)
    requires db.find(Everything) == Ok([])
    ensures ListAll(db).response.envelope.data == []
    ensures DisplayedCount(QueryReplyOf(ListAll(db).response).total) == 1
  {
  }

  /** With the evident fix, the count the page reports for any listing is
      the number of records the server sent. */
  lemma FixedCountMatchesListing(r: Response)
    requires WellFormed(r) && r.envelope.Listing?
    ensures DisplayedCountFixed(QueryReplyOf(r).total) == |r.envelope.data|
  {
  }

  /** After a create, the page reloads the list exactly when the server
      answered 201 and the selected mode is "all". */
  lemma ReloadOnlyAfterCreated(body: map<string, Value>, now: Timestamp, db: Store, mode: QueryMode)
    ensures OnInsertReply(InsertReplyOf(Create(body, now, db).response), mode).reloadScheduled
            <==> Create(body, now, db).response.status == 201 && mode == All
  {
  }
}
