/** The enrollment endpoints of the backend: `POST /inscripciones`, a fixed
    cascade of checks ending in one insert, and `GET /inscripciones`, an
    optionally filtered listing. The database is the abstract `Db`; the
    provincial registry ("padrón") is an oracle from CUIL to answer. */
module InscripcionController {
  import opened Common
  import opened Models
  import opened JsonValues

  const MsgRequired := "CUIL y curso_id son requeridos"
  const MsgPersonaNoEncontrada := "Persona no encontrada en padrón provincial"
  const MsgDatosIncompletos := "Datos incompletos de la persona desde el padrón provincial"
  const MsgCursoNoEncontrado := "Curso no encontrado"
  const MsgDuplicada := "La persona ya está inscrita en este curso"
  const MsgNoSePudo := "No se pudo inscribir"
  const MsgExito := "Inscripción exitosa"

  /** The request body after JSON decoding; a field may be absent. */
  datatype RawRequest = RawRequest(cuil: Option<string>, cursoId: Option<int>)

  /** A bound request: both fields present and non-zero. */
  datatype InscripcionRequest = InscripcionRequest(cuil: string, cursoId: nat)

  /** `ShouldBindJSON` with `binding:"required"`: a field that is absent or
      holds its zero value fails, and so does a `curso_id` outside `uint`. */
  function Bind(body: RawRequest): (r: Option<InscripcionRequest>)
    ensures r.Some? ==> r.value.cuil != "" && 0 < r.value.cursoId < UINT64_LIMIT
  {
    if body.cuil.Some? && body.cuil.value != "" && body.cursoId.Some? && 0 < body.cursoId.value < UINT64_LIMIT
    then Some(InscripcionRequest(body.cuil.value, body.cursoId.value))
    else None
  }

  /** Binding a body that carries a well-formed request gives that request
      back, and a body missing either field never binds. */
  lemma BindRoundTrip(q: InscripcionRequest, c: Option<string>, id: Option<int>)
    requires q.cuil != "" && 0 < q.cursoId < UINT64_LIMIT
    ensures Bind(RawRequest(Some(q.cuil), Some(q.cursoId))) == Some(q)
    ensures c.None? || id.None? ==> Bind(RawRequest(c, id)).None?
  {
  }

  /** How `encoding/json` fills one field of the request struct: the key is
      absent (or `null`) and the field keeps its zero value, or it holds a
      value of the field's type, or a value of another type, which is an
      error. */
  datatype Decoded<T> = Missing | Value(v: T) | WrongType

  /** A `string` field accepts only a JSON string. */
  function StringField(body: Json, key: string): (d: Decoded<string>)
    ensures d.Value? <==> Prop(body, key).Some? && Prop(body, key).value.JStr?
    ensures d.Value? ==> Prop(body, key) == Some(JStr(d.v))
    ensures d.Missing? <==> Prop(body, key).None? || Prop(body, key) == Some(JNull)
  {
    match Prop(body, key)
    case None => Missing
    case Some(JNull) => Missing
    case Some(JStr(t)) => Value(t)
    case Some(_) => WrongType
  }

  /** A `uint` field accepts only a JSON integer in the 64-bit unsigned
      range; a string, even one of digits, is a type error. */
  function UintField(body: Json, key: string): (d: Decoded<int>)
    ensures d.Value? <==> Prop(body, key).Some? && Prop(body, key).value.JNum?
                          && 0 <= Prop(body, key).value.n < UINT64_LIMIT
    ensures d.Value? ==> Prop(body, key) == Some(JNum(d.v))
    ensures d.Missing? <==> Prop(body, key).None? || Prop(body, key) == Some(JNull)
  {
    match Prop(body, key)
    case None => Missing
    case Some(JNull) => Missing
    case Some(JNum(n)) => if 0 <= n < UINT64_LIMIT then Value(n) else WrongType
    case Some(_) => WrongType
  }

  /** Decoding the JSON body into `InscripcionRequest`: `null` leaves both
      fields at their zero values, anything but an object or a field of the
      wrong type is an error. Keys are matched exactly. */
  function DecodeRequest(body: Json): (r: Option<RawRequest>)
    ensures body.JObj? && Prop(body, "curso_id").Some? && Prop(body, "curso_id").value.JStr? ==> r.None?
    ensures r.Some? && r.value.cursoId.Some? ==> Prop(body, "curso_id") == Some(JNum(r.value.cursoId.value))
    ensures r.Some? && r.value.cuil.Some? ==> Prop(body, "cuil") == Some(JStr(r.value.cuil.value))
    ensures !body.JObj? && !body.JNull? ==> r.None?
  {
    if body.JNull? then Some(RawRequest(None, None))
    else if !body.JObj? then None
    else
      var cuil := StringField(body, "cuil");
      var cursoId := UintField(body, "curso_id");
      if cuil.WrongType? || cursoId.WrongType? then None
      else Some(RawRequest(if cuil.Value? then Some(cuil.v) else None,
                           if cursoId.Value? then Some(cursoId.v) else None))
  }

  /** The body a client writes for a request when it sends the course id as
      a JSON number. */
  function EncodeRequest(q: InscripcionRequest): (j: Json)
    ensures j.JObj? && j.fields.Keys == {"cuil", "curso_id"}
  {
    JObj(map["cuil" := JStr(q.cuil), "curso_id" := JNum(q.cursoId)])
  }

  /** `ShouldBindJSON`: decode, then apply the `required` rules. */
  function BindJson(body: Json): (r: Option<InscripcionRequest>)
    ensures r.Some? <==>
      && Prop(body, "cuil").Some? && Prop(body, "cuil").value.JStr? && Prop(body, "cuil").value.s != ""
      && Prop(body, "curso_id").Some? && Prop(body, "curso_id").value.JNum?
      && 0 < Prop(body, "curso_id").value.n < UINT64_LIMIT
    ensures r.Some? ==> r.value == InscripcionRequest(Prop(body, "cuil").value.s, Prop(body, "curso_id").value.n)
  {
    match DecodeRequest(body)
    case None => None
    case Some(raw) => Bind(raw)
  }

  /** Encoding then binding gives back every well-formed request. */
  lemma BindJsonRoundTrip(q: InscripcionRequest)
    requires q.cuil != "" && 0 < q.cursoId < UINT64_LIMIT
    ensures BindJson(EncodeRequest(q)) == Some(q)
  {
    var j := EncodeRequest(q);
    assert Prop(j, "cuil") == Some(JStr(q.cuil)) && Prop(j, "curso_id") == Some(JNum(q.cursoId));
  }

  /** A course id sent as a JSON string never binds, whatever its digits. */
  lemma StringCourseIdNeverBinds(cuil: string, courseId: string)
    ensures BindJson(JObj(map["cuil" := JStr(cuil), "curso_id" := JStr(courseId)])).None?
  {
    var j := JObj(map["cuil" := JStr(cuil), "curso_id" := JStr(courseId)]);
    assert Prop(j, "curso_id") == Some(JStr(courseId));
  }

  /** `POST /inscripciones` from the raw JSON body: a body that does not bind
      is refused with 400 before anything is looked up, and a request is only
      ever recorded when the body carried the course id as a number. */
  function InscribirJson(db: Db, body: Json, padron: string -> PadronAnswer, insertOk: bool, now: Timestamp): (r: (Outcome, Db))
    ensures DecodeRequest(body).None? ==> r == (Rejected(400, MsgRequired), db)
    ensures r.0.Enrolled? ==> Prop(body, "curso_id") == Some(JNum(r.0.inscripcion.cursoId))
    ensures DecodeRequest(body).Some? ==> r == InscribirPersona(db, DecodeRequest(body).value, padron, insertOk, now)
  {
    match DecodeRequest(body)
    case None => (Rejected(400, MsgRequired), db)
    case Some(raw) => InscribirPersona(db, raw, padron, insertOk, now)
  }

  /** What the padrón answers for a CUIL. */
  datatype PadronAnswer = PadronPersona(persona: Persona) | PadronError

  /** Outcome of finding the person to enroll. */
  datatype Resolution = Resolved(persona: Persona) | NotFound | Incomplete

  /** The person step: the database first; on a miss, the padrón, whose
      answer must carry a CUIL, a first name and a last name. */
  function ResolvePersona(db: Db, cuil: string, padron: string -> PadronAnswer): (r: Resolution)
    ensures cuil in db.personas ==> r == Resolved(db.personas[cuil])
    ensures cuil !in db.personas && r.Resolved? ==>
      padron(cuil).PadronPersona?
      && r.persona.cuil == padron(cuil).persona.cuil != ""
      && r.persona.nombre == padron(cuil).persona.nombre != ""
      && r.persona.apellido == padron(cuil).persona.apellido != ""
    ensures r.NotFound? <==> cuil !in db.personas && padron(cuil).PadronError?
    ensures cuil !in db.personas && padron(cuil).PadronPersona? ==>
      var p := padron(cuil).persona;
      (r.Incomplete? <==> p.cuil == "" || p.nombre == "" || p.apellido == "")
      && (r.Resolved? ==> r.persona == Persona(p.cuil, p.nombre, p.apellido, "", ""))
  {
    if cuil in db.personas then Resolved(db.personas[cuil])
    else
      match padron(cuil)
      case PadronError => NotFound
      case PadronPersona(p) =>
        if p.cuil == "" || p.nombre == "" || p.apellido == "" then Incomplete
        else Resolved(Persona(p.cuil, p.nombre, p.apellido, "", ""))
  }

  /** The handler's reply: an error status with its message, or 200 with the
      new row. */
  datatype Outcome = Rejected(status: int, error: string) | Enrolled(message: string, inscripcion: Inscripcion)

  function StatusOf(o: Outcome): int {
    if o.Rejected? then o.status else 200
  }

  /** `POST /inscripciones`: bind, find the person, find the course, refuse a
      duplicate (course, requested CUIL) pair, insert. `insertOk` is whether
      the database accepts the insert, `now` the creation time it stamps. */
  function InscribirPersona(db: Db, body: RawRequest, padron: string -> PadronAnswer, insertOk: bool, now: Timestamp): (r: (Outcome, Db))
    ensures r.0.Rejected? ==> r.1 == db && r.0.status in {400, 404, 409, 500}
    ensures r.0.Enrolled? ==>
      && Bind(body).Some?
      && r.1 == db.(inscripciones := db.inscripciones + [r.0.inscripcion],
                    nextInscripcionId := db.nextInscripcionId + 1)
      && r.0.inscripcion.id == db.nextInscripcionId
      && r.0.inscripcion.cursoId == Bind(body).value.cursoId
      && FindCurso(db.cursos, r.0.inscripcion.cursoId).Some?
      && r.0.inscripcion.nombreCurso == FindCurso(db.cursos, r.0.inscripcion.cursoId).value.nombre
      && r.0.inscripcion.fechaInscripcion == now
  {
    match Bind(body)
    case None => (Rejected(400, MsgRequired), db)
    case Some(q) =>
      match ResolvePersona(db, q.cuil, padron)
      case NotFound => (Rejected(404, MsgPersonaNoEncontrada), db)
      case Incomplete => (Rejected(400, MsgDatosIncompletos), db)
      case Resolved(persona) =>
        match FindCurso(db.cursos, q.cursoId)
        case None => (Rejected(404, MsgCursoNoEncontrado), db)
        case Some(curso) =>
          if HasPair(db.inscripciones, q.cursoId, q.cuil) then (Rejected(409, MsgDuplicada), db)
          else if !insertOk then (Rejected(500, MsgNoSePudo), db)
          else
            var row := Inscripcion(db.nextInscripcionId, q.cursoId, curso.nombre,
                                   persona.cuil, persona.nombre, persona.apellido, now);
            (Enrolled(MsgExito, row),
             db.(inscripciones := db.inscripciones + [row],
                 nextInscripcionId := db.nextInscripcionId + 1))
  }

  /** A body without both fields is refused with 400 whatever the database
      and the padrón hold: no lookup decides it. */
  lemma MissingFieldsRejectedFirst(db: Db, body: RawRequest, padron: string -> PadronAnswer, insertOk: bool, now: Timestamp)
    requires body.cuil.None? || body.cursoId.None?
    ensures InscribirPersona(db, body, padron, insertOk, now) == (Rejected(400, MsgRequired), db)
  {
  }

  /** The outcome of every step of the cascade, in the order the handler
      takes them: person before course, course before duplicate. */
  lemma CascadeOrder(db: Db, body: RawRequest, padron: string -> PadronAnswer, insertOk: bool, now: Timestamp)
    requires Bind(body).Some?
    ensures var q := Bind(body).value;
      var r := InscribirPersona(db, body, padron, insertOk, now);
      && (ResolvePersona(db, q.cuil, padron).NotFound? ==> r == (Rejected(404, MsgPersonaNoEncontrada), db))
      && (ResolvePersona(db, q.cuil, padron).Incomplete? ==> r == (Rejected(400, MsgDatosIncompletos), db))
      && (ResolvePersona(db, q.cuil, padron).Resolved? && FindCurso(db.cursos, q.cursoId).None? ==>
            r == (Rejected(404, MsgCursoNoEncontrado), db))
      && ((ResolvePersona(db, q.cuil, padron).Resolved? && FindCurso(db.cursos, q.cursoId).Some?
           && HasPair(db.inscripciones, q.cursoId, q.cuil)) ==> r == (Rejected(409, MsgDuplicada), db))
  {
  }

  /** The handler inserts exactly when every check passes, and the new row
      carries the resolved person's CUIL and names. */
  lemma EnrolledIff(db: Db, body: RawRequest, padron: string -> PadronAnswer, insertOk: bool, now: Timestamp)
    ensures var r := InscribirPersona(db, body, padron, insertOk, now);
      r.0.Enrolled? <==>
        && Bind(body).Some?
        && ResolvePersona(db, Bind(body).value.cuil, padron).Resolved?
        && FindCurso(db.cursos, Bind(body).value.cursoId).Some?
        && !HasPair(db.inscripciones, Bind(body).value.cursoId, Bind(body).value.cuil)
        && insertOk
    ensures var r := InscribirPersona(db, body, padron, insertOk, now);
      r.0.Enrolled? ==>
        var p := ResolvePersona(db, Bind(body).value.cuil, padron).persona;
        r.0.inscripcion.cuil == p.cuil && r.0.inscripcion.nombre == p.nombre
        && r.0.inscripcion.apellido == p.apellido
  {
  }

  /** A person the database does not hold is enrolled from a complete padrón
      answer, under the padrón's CUIL and names. */
  lemma PadronPersonEnrolled(db: Db, cuil: string, cursoId: nat, padron: string -> PadronAnswer, now: Timestamp)
    requires cuil != "" && 0 < cursoId < UINT64_LIMIT
    requires cuil !in db.personas && padron(cuil).PadronPersona?
    requires padron(cuil).persona.cuil != "" && padron(cuil).persona.nombre != "" && padron(cuil).persona.apellido != ""
    requires FindCurso(db.cursos, cursoId).Some? && !HasPair(db.inscripciones, cursoId, cuil)
    ensures var r := InscribirPersona(db, RawRequest(Some(cuil), Some(cursoId)), padron, true, now);
      && r.0.Enrolled?
      && r.0.inscripcion.cuil == padron(cuil).persona.cuil
      && r.0.inscripcion.nombre == padron(cuil).persona.nombre
      && r.0.inscripcion.apellido == padron(cuil).persona.apellido
  {
  }

  /** The person the handler will enroll carries the CUIL that was asked
      for: always true of database rows keyed by CUIL, and an assumption
      about the padrón. */
  predicate ResolvesToRequestedCuil(db: Db, cuil: string, padron: string -> PadronAnswer) {
    ResolvePersona(db, cuil, padron).Resolved? ==> ResolvePersona(db, cuil, padron).persona.cuil == cuil
  }

  /** The (course, CUIL) uniqueness of the enrollment table survives one
      handler call, applied on its own, as long as the resolved person's CUIL
      is the requested one: the duplicate test looks at the requested CUIL,
      the insert writes the resolved one. Two calls interleaved between the
      duplicate test and the insert are not covered. */
  lemma InscribirPreservesUniqueness(db: Db, body: RawRequest, padron: string -> PadronAnswer, insertOk: bool, now: Timestamp)
    requires UniquePairs(db.inscripciones)
    requires Bind(body).Some? ==> ResolvesToRequestedCuil(db, Bind(body).value.cuil, padron)
    ensures UniquePairs(InscribirPersona(db, body, padron, insertOk, now).1.inscripciones)
  {
    var r := InscribirPersona(db, body, padron, insertOk, now);
    if r.0.Enrolled? {
      var q := Bind(body).value;
      var rows := r.1.inscripciones;
      var n := |db.inscripciones|;
      assert rows == db.inscripciones + [r.0.inscripcion];
      assert r.0.inscripcion.cuil == q.cuil && r.0.inscripcion.cursoId == q.cursoId;
      forall i, j | 0 <= i < j < |rows|
        ensures !(rows[i].cursoId == rows[j].cursoId && rows[i].cuil == rows[j].cuil)
      {
        if j == n {
          assert rows[i] == db.inscripciones[i];
          assert !(db.inscripciones[i].cursoId == q.cursoId && db.inscripciones[i].cuil == q.cuil);
        } else {
          assert rows[i] == db.inscripciones[i] && rows[j] == db.inscripciones[j];
        }
      }
    }
  }

  /** With keys compared exactly, database rows keyed by their own CUIL
      always resolve to the requested CUIL, so only a padrón answer can break
      the uniqueness premise. */
  lemma DatabasePersonResolvesToRequest(db: Db, cuil: string, padron: string -> PadronAnswer)
    requires PersonasKeyed(db)
    requires cuil in db.personas
    ensures ResolvesToRequestedCuil(db, cuil, padron)
  {
  }

  /** Without that premise the table can gain a duplicate pair: the padrón
      answers for "1" with a person whose CUIL is "2", who is already
      enrolled in course 7; the duplicate test looks for ("1", 7), finds
      nothing, and the insert writes a second (7, "2") row. */
  lemma PadronCuilMismatchDuplicates()
    ensures var row := Inscripcion(1, 7, "C", "2", "N", "A", "t0");
      var db := Db(map[], [Curso(7, "C", "", Dates.ZeroDate, Dates.ZeroDate, 60, 10, "", "")], [row], 1, 2);
      var padron := (c: string) => PadronPersona(Persona("2", "N", "A", "", ""));
      var r := InscribirPersona(db, RawRequest(Some("1"), Some(7)), padron, true, "t1");
      && UniquePairs(db.inscripciones)
      && r.0.Enrolled?
      && !UniquePairs(r.1.inscripciones)
  {
    var row := Inscripcion(1, 7, "C", "2", "N", "A", "t0");
    var curso := Curso(7, "C", "", Dates.ZeroDate, Dates.ZeroDate, 60, 10, "", "");
    var db := Db(map[], [curso], [row], 1, 2);
    var padron := (c: string) => PadronPersona(Persona("2", "N", "A", "", ""));
    assert FindCurso(db.cursos, 7) == Some(curso) by {
      assert db.cursos[0].id == 7;
    }
    assert !HasPair(db.inscripciones, 7, "1") by {
      assert db.inscripciones[0].cuil == "2";
    }
    var r := InscribirPersona(db, RawRequest(Some("1"), Some(7)), padron, true, "t1");
    assert r.1.inscripciones[0].cuil == r.1.inscripciones[1].cuil;
  }

  /** Repeating a successful request conflicts: the second attempt finds the
      first attempt's row and answers 409 without touching the table. */
  lemma SecondAttemptConflicts(db: Db, body: RawRequest, padron: string -> PadronAnswer, ok1: bool, ok2: bool, t1: Timestamp, t2: Timestamp)
    requires Bind(body).Some? ==> ResolvesToRequestedCuil(db, Bind(body).value.cuil, padron)
    requires InscribirPersona(db, body, padron, ok1, t1).0.Enrolled?
    ensures var db1 := InscribirPersona(db, body, padron, ok1, t1).1;
      InscribirPersona(db1, body, padron, ok2, t2) == (Rejected(409, MsgDuplicada), db1)
  {
    var r := InscribirPersona(db, body, padron, ok1, t1);
    var q := Bind(body).value;
    var db1 := r.1;
    assert db1.inscripciones[|db.inscripciones|] == r.0.inscripcion;
    assert HasPair(db1.inscripciones, q.cursoId, q.cuil);
    assert db1.personas == db.personas && db1.cursos == db.cursos;
  }

  /** Go's `c.Query(key)`: the first value given for `key`, or "". */
  function QueryParam(query: seq<(string, string)>, key: string): (v: string)
    ensures (forall i :: 0 <= i < |query| ==> query[i].0 != key) ==> v == ""
    ensures forall i :: (0 <= i < |query| && query[i].0 == key
      && forall j :: 0 <= j < i ==> query[j].0 != key) ==> v == query[i].1
  {
    match FindFirst(query, (kv: (string, string)) => kv.0 == key)
    case Some(i) => query[i].1
    case None => ""
  }

  /** `curso_id = ?` for a parameter in plain decimal form: the row's course
      id, written in decimal, is the parameter. MySQL compares the integer
      column with a string by first converting the string to a number, so
      "05", "+5" or "5abc" select course 5 too; here they select nothing. */
  predicate MatchesCursoParam(x: Inscripcion, param: string) {
    NatToString(x.cursoId) == param
  }

  /** `GET /inscripciones`: every row when `curso_id` is absent or empty,
      otherwise the rows whose course id prints as the parameter, in table
      order. */
  function ObtenerInscritos(db: Db, query: seq<(string, string)>): (r: seq<Inscripcion>)
    ensures QueryParam(query, "curso_id") == "" ==> r == db.inscripciones
    ensures QueryParam(query, "curso_id") != "" ==>
      forall x :: x in r <==> x in db.inscripciones && MatchesCursoParam(x, QueryParam(query, "curso_id"))
    ensures |r| <= |db.inscripciones|
  {
    var param := QueryParam(query, "curso_id");
    if param == "" then db.inscripciones
    else Filter(db.inscripciones, (x: Inscripcion) => MatchesCursoParam(x, param))
  }

  /** The filtered listing keeps table order: rows added after a listing
      appear after it. */
  lemma ObtenerInscritosKeepsOrder(db: Db, more: seq<Inscripcion>, query: seq<(string, string)>)
    ensures ObtenerInscritos(db.(inscripciones := db.inscripciones + more), query)
         == ObtenerInscritos(db, query) + ObtenerInscritos(db.(inscripciones := more), query)
  {
    var param := QueryParam(query, "curso_id");
    if param != "" {
      FilterAppend(db.inscripciones, more, (x: Inscripcion) => MatchesCursoParam(x, param));
    }
  }

  /** A listing filtered by a course holds only that course's rows, each once
      per table row, and all of them when the table has one course. */
  lemma ObtenerInscritosByCourse(db: Db, id: nat)
    ensures var r := ObtenerInscritos(db, [("curso_id", NatToString(id))]);
      && (forall i :: 0 <= i < |r| ==> r[i].cursoId == id)
      && |r| == Count(db.inscripciones, (x: Inscripcion) => x.cursoId == id)
  {
    var param := NatToString(id);
    var keep := (x: Inscripcion) => MatchesCursoParam(x, param);
    var same := (x: Inscripcion) => x.cursoId == id;
    var r := ObtenerInscritos(db, [("curso_id", param)]);
    assert QueryParam([("curso_id", param)], "curso_id") == param by {
      assert [("curso_id", param)][0].0 == "curso_id";
    }
    assert r == Filter(db.inscripciones, keep);
    forall i | 0 <= i < |r| ensures r[i].cursoId == id {
      assert keep(r[i]);
      NatToStringInjective(r[i].cursoId, id);
    }
    FilterLength(db.inscripciones, keep);
    CountSame(db.inscripciones, keep, same, id, param);
  }

  lemma {:induction false} CountSame(s: seq<Inscripcion>, keep: Inscripcion -> bool, same: Inscripcion -> bool, id: nat, param: string)
    requires param == NatToString(id)
    requires forall x :: keep(x) == MatchesCursoParam(x, param)
    requires forall x :: same(x) == (x.cursoId == id)
    ensures Count(s, keep) == Count(s, same)
    decreases |s|
  {
    if |s| > 0 {
      if keep(s[0]) {
        NatToStringInjective(s[0].cursoId, id);
      }
      CountSame(s[1..], keep, same, id, param);
    }
  }
}
