/**
 The REST handlers of server.js over the "estudiantes" collection. Each
 handler is a function from the request fields and an injected store to an
 exchange: the one store operation it issued, if any, and the response it
 sent. The store is a record of functions supplying whatever the driver
 returns (documents, counts, the inserted id, matched and deleted counts) or
 that it threw; what the database does with a filter is not modelled.
 */
module Server {
  import opened JsText
  import opened JsNumbers
  import opened JsValues

  /** A Date, as milliseconds since the epoch. */
  type Timestamp = int

  /** The document the create handler inserts. */
  datatype Student = Student(
    nombre: string,
    apellido: string,
    edad: JsNumber,
    carrera: string,
    materias: Value,
    fechaCreacion: Timestamp)

  /** A value in an update's `$set` document: a payload value, or the Date
      the handler adds. */
  datatype SetValue = Plain(v: Value) | Date(time: Timestamp)

  datatype Filter =
    | Everything
    | CarreraLike(pattern: string)   // case-insensitive regular-expression match on carrera
    | EdadAtLeast(min: int)          // edad at least min

  datatype StoreOp =
    | Find(filter: Filter)
    | CountDocuments
    | InsertOne(doc: Student)
    | UpdateOne(id: string, changes: map<string, SetValue>)
    | DeleteOne(id: string)

  /** What an awaited driver call produced: a value, or a rejection. */
  datatype Reply<T> = Ok(value: T) | Threw

  /** The collection as the handlers see it. */
  datatype Store = Store(
    find: Filter -> Reply<seq<Value>>,
    countDocuments: Reply<nat>,
    insertOne: Student -> Reply<string>,                       // insertedId
    updateOne: (string, map<string, SetValue>) -> Reply<nat>,  // matchedCount
    deleteOne: string -> Reply<nat>)                           // deletedCount

  /** The JSON body of a response. `success` is false exactly for Failure. */
  datatype Envelope =
    | Failure(error: string)
    | Listing(data: seq<Value>, total: nat, filtro: Option<string>)
    | Tally(total: nat)
    | Created(id: string, record: Student, mensaje: string)
    | Confirmed(mensaje: string)
  {
    predicate Success() {
      !Failure?
    }
  }

  datatype Response = Response(status: int, envelope: Envelope)

  /** The store operation a request issued, if any, and the response sent. */
  datatype Exchange = Exchange(issued: Option<StoreOp>, response: Response)

  datatype Request =
    | GetAll
    | GetByCarrera(carrera: string)
    | GetByMinAge(edadMin: string)
    | GetCount
    | Post(body: map<string, Value>)
    | Put(id: string, payload: map<string, Value>)
    | Delete(id: string)

  const InternalError := "Error interno del servidor"
  const InvalidAgeError := "La edad debe ser un n\U{fa}mero v\U{e1}lido"
  const MissingFieldsError := "Faltan campos obligatorios: nombre, apellido, edad, carrera"
  const InvalidIdError := "ID de estudiante inv\U{e1}lido"
  const NotFoundError := "Estudiante no encontrado"
  const UpdatedMessage := "Estudiante actualizado correctamente"
  const DeletedMessage := "Estudiante eliminado correctamente"
  const ModifiedKey := "fechaModificacion"

  function Fail(status: int, error: string): Response {
    Response(status, Failure(error))
  }

  /** The envelope discipline every handler keeps: the status is one of the
      five the server uses, `success` is true exactly for 200 and 201, 201
      carries a created record, and a listing's `total` is its length. */
  predicate WellFormed(r: Response) {
    && r.status in {200, 201, 400, 404, 500}
    && (r.envelope.Success() <==> r.status == 200 || r.status == 201)
    && (r.status == 201 <==> r.envelope.Created?)
    && (r.envelope.Listing? ==> r.envelope.total == |r.envelope.data|)
  }

  // ---- GET handlers ----

  /** The response of a GET handler once its find has settled. */
  function Listed(reply: Reply<seq<Value>>, filtro: Option<string>): (r: Response)
    ensures WellFormed(r)
    ensures reply.Threw? ==> r == Fail(500, InternalError)
    ensures reply.Ok? ==> r.status == 200 && r.envelope.Listing?
                          && r.envelope.data == reply.value
                          && r.envelope.total == |reply.value|
                          && r.envelope.filtro == filtro
  {
    match reply
    case Threw => Fail(500, InternalError)
    case Ok(docs) => Response(200, Listing(docs, |docs|, filtro))
  }

  /** GET /api/estudiantes */
  function ListAll(db: Store): (x: Exchange)
    ensures x.issued == Some(Find(Everything))
    ensures WellFormed(x.response)
    ensures db.find(Everything).Ok? ==>
              x.response == Response(200, Listing(db.find(Everything).value, |db.find(Everything).value|, None))
    ensures db.find(Everything).Threw? ==> x.response == Fail(500, InternalError)
  {
    Exchange(Some(Find(Everything)), Listed(db.find(Everything), None))
  }

  /** GET /api/estudiantes/carrera/:carrera: the path parameter is the regular
      expression, and the listing reports it as its filter. */
  function ByCarrera(carrera: string, db: Store): (x: Exchange)
    ensures x.issued == Some(Find(CarreraLike(carrera)))
    ensures WellFormed(x.response)
    ensures x.response.envelope.Listing? ==> x.response.envelope.filtro == Some("Carrera: " + carrera)
    ensures db.find(CarreraLike(carrera)).Ok? ==>
              x.response == Response(200, Listing(db.find(CarreraLike(carrera)).value,
                                                  |db.find(CarreraLike(carrera)).value|,
                                                  Some("Carrera: " + carrera)))
    ensures db.find(CarreraLike(carrera)).Threw? ==> x.response == Fail(500, InternalError)
  {
    var f := CarreraLike(carrera);
    Exchange(Some(Find(f)), Listed(db.find(f), Some("Carrera: " + carrera)))
  }

  /** GET /api/estudiantes/edad/:edadMin: a parameter parseInt cannot read is
      refused before the store is asked; otherwise the filter is `edad >=` the
      parsed number. */
  function ByMinAge(edadMin: string, db: Store): (x: Exchange)
    ensures WellFormed(x.response)
    ensures ParseInt(edadMin).NaN? ==> x.issued.None? && x.response == Fail(400, InvalidAgeError)
    ensures ParseInt(edadMin).Finite? ==> x.issued == Some(Find(EdadAtLeast(ParseInt(edadMin).value)))
    ensures x.response.status == 400 <==> ParseInt(edadMin).NaN?
    ensures ParseInt(edadMin).Finite? && db.find(EdadAtLeast(ParseInt(edadMin).value)).Ok? ==>
              var docs := db.find(EdadAtLeast(ParseInt(edadMin).value)).value;
              x.response == Response(200, Listing(docs, |docs|,
                                                  Some("Edad m\U{ed}nima: " + IntToDecimal(ParseInt(edadMin).value))))
    ensures ParseInt(edadMin).Finite? && db.find(EdadAtLeast(ParseInt(edadMin).value)).Threw? ==>
              x.response == Fail(500, InternalError)
  {
    match ParseInt(edadMin)
    case NaN => Exchange(None, Fail(400, InvalidAgeError))
    case Finite(min) =>
      var f := EdadAtLeast(min);
      Exchange(Some(Find(f)), Listed(db.find(f), Some("Edad m\U{ed}nima: " + IntToDecimal(min))))
  }

  /** GET /api/estudiantes/count */
  function Count(db: Store): (x: Exchange)
    ensures x.issued == Some(CountDocuments)
    ensures WellFormed(x.response)
    ensures db.countDocuments.Ok? ==> x.response == Response(200, Tally(db.countDocuments.value))
    ensures db.countDocuments.Threw? ==> x.response == Fail(500, InternalError)
  {
    Exchange(Some(CountDocuments),
      match db.countDocuments
      case Threw => Fail(500, InternalError)
      case Ok(n) => Response(200, Tally(n)))
  }

  // ---- POST: validation and normalisation ----

  /** A stored subject: non-empty, with no white space at either end. */
  predicate IsSubject(x: string) {
    x != [] && IsTrimmed(x)
  }

  predicate AllSubjects(xs: seq<string>) {
    forall k :: 0 <= k < |xs| ==> IsSubject(xs[k])
  }

  lemma AllSubjectsAppend(a: seq<string>, b: seq<string>)
    requires AllSubjects(a) && AllSubjects(b)
    ensures AllSubjects(a + b)
  {
    forall k | 0 <= k < |a + b|
      ensures IsSubject((a + b)[k])
    {
      if k < |a| {
        assert (a + b)[k] == a[k];
      } else {
        assert (a + b)[k] == b[k - |a|];
      }
    }
  }

  /** The `materias` text after split(','), trim and dropping empty pieces. */
  function CleanPieces(pieces: seq<string>): (r: seq<string>)
    ensures |r| <= |pieces|
    ensures AllSubjects(r)
  {
    if pieces == [] then []
    else
      var head := Kept(pieces[0]);
      var rest := CleanPieces(pieces[1..]);
      AllSubjectsAppend(head, rest);
      head + rest
  }

  /** One piece after `m.trim()` and the `m.length > 0` filter. */
  function Kept(piece: string): (r: seq<string>)
    ensures |r| <= 1
    ensures r == [] <==> Trim(piece) == []
    ensures r != [] ==> r[0] == Trim(piece)
    ensures AllSubjects(r)
  {
    var t := Trim(piece);
    if t == [] then [] else [t]
  }

  function MateriasList(s: string): seq<string> {
    CleanPieces(Split(s, ','))
  }

  /** An empty subjects text splits into one empty piece, which is dropped. */
  lemma MateriasOfEmpty()
    ensures MateriasList([]) == []
  {
    assert Split([], ',') == [[]];
    assert Trim([]) == [];
    assert CleanPieces([[]]) == Kept([]) + CleanPieces([]);
  }

  function Strs(xs: seq<string>): (r: seq<Value>)
    ensures |r| == |xs|
    ensures forall k :: 0 <= k < |r| ==> r[k] == Str(xs[k])
  {
    seq(|xs|, k requires 0 <= k < |xs| => Str(xs[k]))
  }

  /** The stored `materias`: a string becomes the list of its cleaned
      comma-separated pieces, any other truthy value is stored as given, and
      a falsy one becomes the empty list. */
  function NormaliseMaterias(m: Value): (r: Value)
    ensures r.Arr? || r == m
    ensures Truthy(r)
    ensures m.Str? ==> r == Arr(Strs(MateriasList(m.s)))
    ensures !m.Str? && Truthy(m) ==> r == m
    ensures !Truthy(m) ==> r == Arr([])
  {
    MateriasOfEmpty();
    var materiasArray := if m.Str? then Arr(Strs(MateriasList(m.s))) else m;
    Or(materiasArray, Arr([]))
  }

  /** The create handler before the store call: a response that ends the
      request, or the document to insert with the confirmation message. */
  datatype Prepared = Rejected(response: Response) | Ready(doc: Student, mensaje: string)

  predicate HasRequiredFields(body: map<string, Value>) {
    && Truthy(Field(body, "nombre"))
    && Truthy(Field(body, "apellido"))
    && Truthy(Field(body, "edad"))
    && Truthy(Field(body, "carrera"))
  }

  /** Validation and normalisation of a create payload. A missing or falsy
      required field is a 400. A truthy `nombre`, `apellido` or `carrera`
      that is not a string has no trim method: the TypeError is caught as a
      500. Otherwise the names and the major are trimmed, the age is
      parseInt of whatever was sent, and `materias` is normalised. */
  function PrepareStudent(body: map<string, Value>, now: Timestamp): (p: Prepared)
    ensures !HasRequiredFields(body) <==> p.Rejected? && p.response.status == 400
    ensures !HasRequiredFields(body) ==> p == Rejected(Fail(400, MissingFieldsError))
    ensures p.Rejected? ==> WellFormed(p.response) && !p.response.envelope.Success()
    ensures p.Ready? <==> HasRequiredFields(body) && Field(body, "nombre").Str?
                          && Field(body, "apellido").Str? && Field(body, "carrera").Str?
    ensures HasRequiredFields(body) && p.Rejected? ==> p == Rejected(Fail(500, InternalError))
    ensures p.Ready? ==>
              && p.doc.nombre == Trim(Field(body, "nombre").s)
              && p.doc.apellido == Trim(Field(body, "apellido").s)
              && p.doc.edad == ParseInt(ToString(Field(body, "edad")))
              && p.doc.carrera == Trim(Field(body, "carrera").s)
              && p.doc.materias == NormaliseMaterias(Field(body, "materias"))
              && p.doc.fechaCreacion == now
    ensures p.Ready? ==>
              p.mensaje == "Estudiante " + Field(body, "nombre").s + " " + Field(body, "apellido").s
                           + " creado correctamente"
  {
    var nombre := Field(body, "nombre");
    var apellido := Field(body, "apellido");
    var edad := Field(body, "edad");
    var carrera := Field(body, "carrera");
    if !Truthy(nombre) || !Truthy(apellido) || !Truthy(edad) || !Truthy(carrera) then
      Rejected(Fail(400, MissingFieldsError))
    else if !nombre.Str? || !apellido.Str? || !carrera.Str? then
      Rejected(Fail(500, InternalError))
    else
      var doc := Student(Trim(nombre.s), Trim(apellido.s), ParseInt(ToString(edad)),
                         Trim(carrera.s), NormaliseMaterias(Field(body, "materias")), now);
      Ready(doc, "Estudiante " + nombre.s + " " + apellido.s + " creado correctamente")
  }

  /** POST /api/estudiantes: insert only what PrepareStudent let through, and
      answer 201 with the inserted document and its new id. */
  function Create(body: map<string, Value>, now: Timestamp, db: Store): (x: Exchange)
    ensures WellFormed(x.response)
    ensures !HasRequiredFields(body) ==> x.issued.None? && x.response == Fail(400, MissingFieldsError)
    ensures x.issued.Some? <==> PrepareStudent(body, now).Ready?
    ensures x.issued.Some? ==> x.issued == Some(InsertOne(PrepareStudent(body, now).doc))
    ensures x.response.status == 201 <==>
              x.issued.Some? && db.insertOne(x.issued.value.doc).Ok?
    ensures x.issued.None? ==> x.response == PrepareStudent(body, now).response
    ensures x.issued.Some? && db.insertOne(x.issued.value.doc).Threw? ==> x.response == Fail(500, InternalError)
    ensures x.response.status == 201 ==>
              x.response.envelope.id == db.insertOne(x.issued.value.doc).value
              && x.response.envelope.record == x.issued.value.doc
              && x.response.envelope.mensaje == PrepareStudent(body, now).mensaje
  {
    match PrepareStudent(body, now)
    case Rejected(r) => Exchange(None, r)
    case Ready(doc, mensaje) =>
      Exchange(Some(InsertOne(doc)),
        match db.insertOne(doc)
        case Threw => Fail(500, InternalError)
        case Ok(id) => Response(201, Created(id, doc, mensaje)))
  }

  // ---- PUT and DELETE ----

  /** The `$set` document of an update: the payload with the modification
      Date added, replacing any `fechaModificacion` the client sent. */
  function Stamped(payload: map<string, Value>, now: Timestamp): (changes: map<string, SetValue>)
    ensures changes.Keys == payload.Keys + {ModifiedKey}
    ensures changes[ModifiedKey] == Date(now)
    ensures forall k :: k in payload && k != ModifiedKey ==> changes[k] == Plain(payload[k])
  {
    (map k | k in payload :: Plain(payload[k]))[ModifiedKey := Date(now)]
  }

  /** The answer to an update or delete once the store reported how many
      documents it matched or deleted. */
  function Settled(reply: Reply<nat>, mensaje: string): (r: Response)
    ensures WellFormed(r)
    ensures reply == Ok(0) ==> r == Fail(404, NotFoundError)
    ensures reply.Ok? && reply.value > 0 ==> r == Response(200, Confirmed(mensaje))
    ensures reply.Threw? ==> r == Fail(500, InternalError)
  {
    match reply
    case Threw => Fail(500, InternalError)
    case Ok(n) => if n == 0 then Fail(404, NotFoundError) else Response(200, Confirmed(mensaje))
  }

  /** PUT /api/estudiantes/:id. `isValidId` stands for ObjectId.isValid. */
  function Update(id: string, payload: map<string, Value>, now: Timestamp,
                  isValidId: string -> bool, db: Store): (x: Exchange)
    ensures WellFormed(x.response)
    ensures !isValidId(id) ==> x.issued.None? && x.response == Fail(400, InvalidIdError)
    ensures isValidId(id) ==> x.issued == Some(UpdateOne(id, Stamped(payload, now)))
    ensures x.response.status == 404 <==> isValidId(id) && db.updateOne(id, Stamped(payload, now)) == Ok(0)
    ensures x.response.status == 200 ==> x.response.envelope == Confirmed(UpdatedMessage)
    ensures isValidId(id) && db.updateOne(id, Stamped(payload, now)).Ok?
            && db.updateOne(id, Stamped(payload, now)).value > 0
            ==> x.response == Response(200, Confirmed(UpdatedMessage))
    ensures isValidId(id) && db.updateOne(id, Stamped(payload, now)).Threw?
            ==> x.response == Fail(500, InternalError)
  {
    if !isValidId(id) then Exchange(None, Fail(400, InvalidIdError))
    else
      var changes := Stamped(payload, now);
      Exchange(Some(UpdateOne(id, changes)), Settled(db.updateOne(id, changes), UpdatedMessage))
  }

  /** DELETE /api/estudiantes/:id */
  function Remove(id: string, isValidId: string -> bool, db: Store): (x: Exchange)
    ensures WellFormed(x.response)
    ensures !isValidId(id) ==> x.issued.None? && x.response == Fail(400, InvalidIdError)
    ensures isValidId(id) ==> x.issued == Some(DeleteOne(id))
    ensures x.response.status == 404 <==> isValidId(id) && db.deleteOne(id) == Ok(0)
    ensures x.response.status == 200 ==> x.response.envelope == Confirmed(DeletedMessage)
    ensures isValidId(id) && db.deleteOne(id).Ok? && db.deleteOne(id).value > 0
            ==> x.response == Response(200, Confirmed(DeletedMessage))
    ensures isValidId(id) && db.deleteOne(id).Threw? ==> x.response == Fail(500, InternalError)
  {
    if !isValidId(id) then Exchange(None, Fail(400, InvalidIdError))
    else Exchange(Some(DeleteOne(id)), Settled(db.deleteOne(id), DeletedMessage))
  }

  /** Routing of the seven API routes. */
  function Handle(req: Request, now: Timestamp, isValidId: string -> bool, db: Store): (x: Exchange)
    ensures WellFormed(x.response)
    ensures x.response.status == 400 ==> x.issued.None?
    ensures x.issued.None? ==> x.response.status == 400 || x.response.status == 500
    ensures x.response.status == 404 ==> (req.Put? || req.Delete?) && x.issued.Some?
    ensures x.response.status == 201 ==> req.Post? && x.issued.Some? && x.issued.value.InsertOne?
  {
    match req
    case GetAll => ListAll(db)
    case GetByCarrera(c) => ByCarrera(c, db)
    case GetByMinAge(e) => ByMinAge(e, db)
    case GetCount => Count(db)
    case Post(body) => Create(body, now, db)
    case Put(id, payload) => Update(id, payload, now, isValidId, db)
    case Delete(id) => Remove(id, isValidId, db)
  }

  // ---- properties ----

  /** Cleaning distributes over concatenation, so the kept pieces appear in
      the order of the input. */
  lemma {:induction false} CleanPiecesAppend(a: seq<string>, b: seq<string>)
    ensures CleanPieces(a + b) == CleanPieces(a) + CleanPieces(b)
    decreases |a|
  {
    if a != [] {
      var ab := a + b;
      assert ab[0] == a[0];
      assert ab[1..] == a[1..] + b;
      assert CleanPieces(ab) == Kept(a[0]) + CleanPieces(a[1..] + b);
      CleanPiecesAppend(a[1..], b);
      assert CleanPieces(a) == Kept(a[0]) + CleanPieces(a[1..]);
    } else {
      assert a + b == b;
    }
  }

  /** Some piece trims to `x`. */
  predicate SomeTrimsTo(pieces: seq<string>, x: string) {
    exists k :: 0 <= k < |pieces| && Trim(pieces[k]) == x
  }

  lemma SomeTrimsToCons(pieces: seq<string>, x: string)
    requires pieces != []
    ensures SomeTrimsTo(pieces, x) <==> Trim(pieces[0]) == x || SomeTrimsTo(pieces[1..], x)
  {
    SomeImageCons(pieces, Trim, x);
  }

  lemma SomeImageCons(xs: seq<string>, f: string -> string, y: string)
    requires xs != []
    ensures (exists k :: 0 <= k < |xs| && f(xs[k]) == y)
        <==> f(xs[0]) == y || (exists k :: 0 <= k < |xs[1..]| && f(xs[1..][k]) == y)
  {
    var tail := xs[1..];
    if exists k :: 0 <= k < |tail| && f(tail[k]) == y {
      var k :| 0 <= k < |tail| && f(tail[k]) == y;
      assert xs[k + 1] == tail[k];
    }
    if f(xs[0]) != y && exists k :: 0 <= k < |xs| && f(xs[k]) == y {
      var k :| 0 <= k < |xs| && f(xs[k]) == y;
      assert tail[k - 1] == xs[k];
    }
  }

  /** A string is kept exactly when it is the non-empty trim of some piece. */
  lemma {:induction false} CleanPiecesMembers(pieces: seq<string>, x: string)
    ensures x in CleanPieces(pieces) <==> x != [] && SomeTrimsTo(pieces, x)
    decreases |pieces|
  {
    if pieces != [] {
      var head := Kept(pieces[0]);
      var tail := pieces[1..];
      assert CleanPieces(pieces) == head + CleanPieces(tail);
      assert x in head + CleanPieces(tail) <==> x in head || x in CleanPieces(tail);
      assert x in head <==> x != [] && Trim(pieces[0]) == x;
      CleanPiecesMembers(tail, x);
      SomeTrimsToCons(pieces, x);
    }
  }

  /** A list that is already clean is left as it is. */
  lemma {:induction false} CleanPiecesOfClean(pieces: seq<string>)
    requires AllSubjects(pieces)
    ensures CleanPieces(pieces) == pieces
    decreases |pieces|
  {
    if pieces != [] {
      TrimOfTrimmed(pieces[0]);
      CleanPiecesOfClean(pieces[1..]);
      assert [pieces[0]] + pieces[1..] == pieces;
    }
  }

  /** A stored subject list, sent back as its comma-joined text, is stored
      as the same list. */
  lemma MateriasRoundTrip(materias: seq<string>)
    requires AllSubjects(materias)
    requires forall k :: 0 <= k < |materias| ==> ',' !in materias[k]
    ensures MateriasList(Join(materias, ',')) == materias
  {
    if materias == [] {
      MateriasOfEmpty();
    } else {
      SplitJoin(materias, ',');
      CleanPiecesOfClean(materias);
    }
  }

  /** A numeric age is stored as sent, and so is its decimal text. */
  lemma CreateKeepsNumericAge(body: map<string, Value>, now: Timestamp, i: int)
    requires Field(body, "edad") == Num(Finite(i)) || Field(body, "edad") == Str(IntToDecimal(i))
    requires PrepareStudent(body, now).Ready?
    ensures PrepareStudent(body, now).doc.edad == Finite(i)
  {
    ParseIntOfNumber(i);
  }

  /** An age of 0, or an empty name, is missing as far as the handler is
      concerned: the request is refused with 400 and nothing is inserted. */
  lemma CreateRefusesFalsyFields(body: map<string, Value>, now: Timestamp, db: Store)
    requires Field(body, "edad") == Num(Finite(0)) || Field(body, "nombre") == Str([])
             || Field(body, "apellido") == Str([]) || Field(body, "carrera") == Str([])
    ensures Create(body, now, db).issued.None?
    ensures Create(body, now, db).response.status == 400
  {
  }

  /** The server checks presence only: any non-empty age text without a
      digit passes and is inserted with a NaN age. */
  lemma CreateStoresNaNAge(body: map<string, Value>, edad: string, now: Timestamp, db: Store)
    requires Field(body, "nombre").Str? && Field(body, "nombre").s != []
    requires Field(body, "apellido").Str? && Field(body, "apellido").s != []
    requires Field(body, "carrera").Str? && Field(body, "carrera").s != []
    requires Field(body, "edad") == Str(edad) && edad != []
    requires forall i :: 0 <= i < |edad| ==> !IsDecimalDigit(edad[i])
    ensures Create(body, now, db).issued.Some?
    ensures Create(body, now, db).issued.value.doc.edad == NaN
  {
    ParseIntWithoutDigits(edad);
  }
}
