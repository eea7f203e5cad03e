/** The course endpoints of the backend: `GET /cursos` lists the course table
    in the shape the client reads, `POST /curso` validates and inserts, and
    `EliminarCurso` removes by id from the in-memory catalogue that the CSV
    loader fills (a different store from the database table). */
module CursoController {
  import opened Common
  import opened Dates
  import opened Models

  const MsgDatosInvalidos := "Datos inválidos"
  const MsgFaltanCampos := "Faltan campos obligatorios o duración menor a 15 minutos"
  const MsgFechaInicio := "Fecha de inicio inválida"
  const MsgFechaFin := "Fecha de fin inválida"
  const MsgNoSePudoCrear := "No se pudo crear el curso"
  const MsgCreado := "Curso creado"
  const MsgIdInvalido := "ID de curso inválido"
  const MsgNoEncontrado := "Curso no encontrado"
  const MsgEliminado := "Curso eliminado correctamente"

  /** The shortest course `POST /curso` accepts, in minutes. */
  const MIN_DURATION: int := 15

  /** One entry of the `GET /cursos` reply, under the client's key names. */
  datatype CursoView = CursoView(
    id: nat,
    title: string,
    description: string,
    startDate: Date,
    endDate: Date,
    durationMinutes: int,
    capacity: int,
    location: string,
    modalidad: string)

  function View(c: Curso): CursoView {
    CursoView(c.id, c.nombre, c.descripcion, c.fechaInicio, c.fechaFin,
              c.duracionMin, c.capacidad, c.lugar, c.modalidad)
  }

  /** `GET /cursos`: one entry per stored course, in table order. */
  function ObtenerCursos(db: Db): (r: seq<CursoView>)
    ensures |r| == |db.cursos|
    ensures forall i :: 0 <= i < |r| ==>
      && r[i].id == db.cursos[i].id
      && r[i].title == db.cursos[i].nombre
      && r[i].description == db.cursos[i].descripcion
      && r[i].startDate == db.cursos[i].fechaInicio
      && r[i].endDate == db.cursos[i].fechaFin
      && r[i].durationMinutes == db.cursos[i].duracionMin
      && r[i].capacity == db.cursos[i].capacidad
      && r[i].location == db.cursos[i].lugar
      && r[i].modalidad == db.cursos[i].modalidad
  {
    seq(|db.cursos|, i requires 0 <= i < |db.cursos| => View(db.cursos[i]))
  }

  /** The JSON body of `POST /curso`, once decoded. */
  datatype CursoInput = CursoInput(
    nombre: string,
    descripcion: string,
    fechaInicio: string,
    fechaFin: string,
    duracionMin: int,
    capacidad: int,
    modalidad: string)

  datatype CrearOutcome = CrearRejected(status: int, error: string) | Creado(message: string, curso: Curso)

  /** The field checks of `POST /curso`, taken together. */
  predicate FieldsPresent(input: CursoInput) {
    input.nombre != "" && input.fechaInicio != "" && input.fechaFin != ""
    && input.capacidad > 0 && input.duracionMin >= MIN_DURATION
  }

  /** `POST /curso`. `body` is `None` when the JSON cannot be decoded;
      `insertOk` is whether the database accepts the insert. */
  function CrearCurso(db: Db, body: Option<CursoInput>, insertOk: bool): (r: (CrearOutcome, Db))
    ensures r.0.CrearRejected? ==> r.1 == db && r.0.status in {400, 500}
    ensures r.0.Creado? ==>
      && body.Some? && FieldsPresent(body.value)
      && ParseDate(body.value.fechaInicio) == Some(r.0.curso.fechaInicio)
      && ParseDate(body.value.fechaFin) == Some(r.0.curso.fechaFin)
      && r.0.curso.nombre == body.value.nombre
      && r.0.curso.descripcion == body.value.descripcion
      && r.0.curso.duracionMin == body.value.duracionMin
      && r.0.curso.capacidad == body.value.capacidad
      && r.0.curso.modalidad == body.value.modalidad
      && r.0.curso.lugar == ""
      && r.0.curso.id == db.nextCursoId
      && r.1 == db.(cursos := db.cursos + [r.0.curso], nextCursoId := db.nextCursoId + 1)
  {
    match body
    case None => (CrearRejected(400, MsgDatosInvalidos), db)
    case Some(input) =>
      if input.nombre == "" || input.fechaInicio == "" || input.fechaFin == ""
         || input.capacidad <= 0 || input.duracionMin < MIN_DURATION then
        (CrearRejected(400, MsgFaltanCampos), db)
      else
        match ParseDate(input.fechaInicio)
        case None => (CrearRejected(400, MsgFechaInicio), db)
        case Some(inicio) =>
          match ParseDate(input.fechaFin)
          case None => (CrearRejected(400, MsgFechaFin), db)
          case Some(fin) =>
            if !insertOk then (CrearRejected(500, MsgNoSePudoCrear), db)
            else
              var curso := Curso(db.nextCursoId, input.nombre, input.descripcion, inicio, fin,
                                 input.duracionMin, input.capacidad, "", input.modalidad);
              (Creado(MsgCreado, curso),
               db.(cursos := db.cursos + [curso], nextCursoId := db.nextCursoId + 1))
  }

  /** A course is created exactly when the body decodes, every field check
      passes, both dates parse and the insert succeeds. */
  lemma CrearCursoAcceptsIff(db: Db, body: Option<CursoInput>, insertOk: bool)
    ensures CrearCurso(db, body, insertOk).0.Creado? <==>
      && body.Some? && FieldsPresent(body.value)
      && ParseDate(body.value.fechaInicio).Some? && ParseDate(body.value.fechaFin).Some?
      && insertOk
  {
  }

  /** A course with an empty name or date, no positive capacity, or fewer
      than 15 minutes is refused with 400 whatever its dates hold. */
  lemma ShortOrEmptyCourseRejected(db: Db, input: CursoInput, insertOk: bool)
    requires !FieldsPresent(input)
    ensures CrearCurso(db, Some(input), insertOk) == (CrearRejected(400, MsgFaltanCampos), db)
  {
  }

  /** The start date is checked before the end date: when both are malformed
      the reply names the start date. */
  lemma StartDateCheckedFirst(db: Db, input: CursoInput, insertOk: bool)
    requires FieldsPresent(input)
    requires ParseDate(input.fechaInicio).None?
    ensures CrearCurso(db, Some(input), insertOk) == (CrearRejected(400, MsgFechaInicio), db)
  {
  }

  /** With every field present and a valid start date, a malformed end date
      gets its own 400, whatever the insert would do. */
  lemma BadEndDateRejected(db: Db, input: CursoInput, insertOk: bool)
    requires FieldsPresent(input)
    requires ParseDate(input.fechaInicio).Some? && ParseDate(input.fechaFin).None?
    ensures CrearCurso(db, Some(input), insertOk) == (CrearRejected(400, MsgFechaFin), db)
  {
  }

  /** No order between the dates is enforced: a course ending a year before
      it starts is accepted. */
  lemma ReversedDatesAccepted(db: Db)
    ensures var input := CursoInput("Curso", "", "2025-06-01", "2024-06-01", 60, 10, "presencial");
      var r := CrearCurso(db, Some(input), true);
      r.0.Creado? && r.0.curso.fechaFin.year < r.0.curso.fechaInicio.year
  {
    ParseDateDigits("2025-06-01");
    ParseDateDigits("2024-06-01");
  }

  /** Outcome of `EliminarCurso`: its status and message. */
  datatype EliminarOutcome = EliminarOutcome(status: int, message: string)

  /** Go's `strconv.ParseUint(s, 10, 64)`: the empty string is a syntax
      error; otherwise the bytes are read left to right, and the first one
      that is not a digit is a syntax error, while a value past 64 bits is a
      range error as soon as the digit that causes it is read. */
  datatype UintParse = Parsed(n: nat) | SyntaxError | RangeError

  function ParseUint(s: string): (r: UintParse)
    ensures r.RangeError? <==> DigitsValue(LeadingDigits(s)) >= UINT64_LIMIT
    ensures r.SyntaxError? <==> DigitsValue(LeadingDigits(s)) < UINT64_LIMIT && (|s| == 0 || !AllDigits(s))
    ensures |s| > 0 && AllDigits(s) && DigitsValue(s) < UINT64_LIMIT ==> r == Parsed(DigitsValue(s))
    ensures r.Parsed? ==> |s| > 0 && AllDigits(s) && r.n == DigitsValue(s) < UINT64_LIMIT
  {
    if |s| == 0 then SyntaxError
    else
      ScanUintReads("", s);
      assert "" + s == s;
      ScanUint(s, 0)
  }

  /** The loop of `ParseUint` after the digits worth `acc`. */
  function ScanUint(s: string, acc: nat): UintParse
    requires acc < UINT64_LIMIT
    decreases |s|
  {
    if |s| == 0 then Parsed(acc)
    else if !IsDigit(s[0]) then SyntaxError
    else
      var next := acc * 10 + DigitValue(s[0]);
      if next >= UINT64_LIMIT then RangeError else ScanUint(s[1..], next)
  }

  /** What the scan decides, in terms of the whole text: the leading digits
      overflow, or some byte is not a digit, or the text is a number. */
  function ScanVerdict(t: string): UintParse {
    if DigitsValue(LeadingDigits(t)) >= UINT64_LIMIT then RangeError
    else if !AllDigits(t) then SyntaxError
    else Parsed(DigitsValue(t))
  }

  /** Scanning the rest of a text after its digits `p` gives the verdict on
      the whole text. */
  lemma {:induction false} ScanUintReads(p: string, s: string)
    requires AllDigits(p) && DigitsValue(p) < UINT64_LIMIT
    ensures ScanUint(s, DigitsValue(p)) == ScanVerdict(p + s)
    decreases |s|
  {
    var t := p + s;
    if |s| == 0 {
      assert t == p;
      LeadingDigitsOf(p, s);
    } else if !IsDigit(s[0]) {
      LeadingDigitsOf(p, s);
      assert !IsDigit(t[|p|]);
    } else {
      var p' := p + [s[0]];
      assert p'[..|p|] == p;
      assert DigitsValue(p') == DigitsValue(p) * 10 + DigitValue(s[0]);
      assert p' + s[1..] == t;
      var r := LeadingDigits(t);
      assert |r| > |p|;
      assert r[..|p'|] == p';
      DigitsValuePrefix(r, |p'|);
      if DigitsValue(p') < UINT64_LIMIT {
        ScanUintReads(p', s[1..]);
      }
    }
  }

  /** An overflowing run of digits is a range error whatever follows it: the
      scan stops before it reaches a later non-digit. */
  lemma OverflowBeforeSyntax(d: string, rest: string)
    requires AllDigits(d) && DigitsValue(d) >= UINT64_LIMIT
    ensures ParseUint(d + rest) == RangeError
  {
    var t := d + rest;
    var r := LeadingDigits(t);
    assert |r| >= |d|;
    assert r[..|d|] == d;
    DigitsValuePrefix(r, |d|);
  }

  /** Every 64-bit value parses back from its decimal rendering. */
  lemma ParseUintRoundTrip(n: nat)
    requires n < UINT64_LIMIT
    ensures ParseUint(NatToString(n)) == Parsed(n)
  {
  }

  /** `EliminarCurso`: parse the id, drop every course with that id from the
      catalogue, answer 404 if there was none. The new catalogue replaces the
      old one only on success. */
  function EliminarCurso(catalogue: seq<Curso>, idStr: string): (r: (EliminarOutcome, seq<Curso>))
    ensures r.0.status in {200, 400, 404}
    ensures r.0.status != 200 ==> r.1 == catalogue
    ensures r.0.status == 400 <==> !ParseUint(idStr).Parsed?
    ensures r.0.status == 404 <==>
      ParseUint(idStr).Parsed? && forall i :: 0 <= i < |catalogue| ==> catalogue[i].id != ParseUint(idStr).n
    ensures r.0.status == 200 ==>
      && (forall c :: c in r.1 <==> c in catalogue && c.id != ParseUint(idStr).n)
      && |r.1| < |catalogue|
  {
    match ParseUint(idStr)
    case SyntaxError => (EliminarOutcome(400, MsgIdInvalido), catalogue)
    case RangeError => (EliminarOutcome(400, MsgIdInvalido), catalogue)
    case Parsed(id) =>
      var kept := Filter(catalogue, (c: Curso) => c.id != id);
      if forall i :: 0 <= i < |catalogue| ==> catalogue[i].id != id then
        (EliminarOutcome(404, MsgNoEncontrado), catalogue)
      else
        assert |kept| < |catalogue| by {
          var i :| 0 <= i < |catalogue| && catalogue[i].id == id;
          FilterDropsOne(catalogue, (c: Curso) => c.id != id, i);
        }
        (EliminarOutcome(200, MsgEliminado), kept)
  }

  /** Filtering out an element that fails the test shortens the sequence. */
  lemma {:induction false} FilterDropsOne<T(!new)>(s: seq<T>, keep: T -> bool, i: nat)
    requires i < |s| && !keep(s[i])
    ensures |Filter(s, keep)| < |s|
    decreases |s|
  {
    if i > 0 {
      FilterDropsOne(s[1..], keep, i - 1);
    }
  }

  /** Removal keeps the surviving courses in catalogue order: removing from a
      catalogue split in two is removing from each half. */
  lemma EliminarKeepsOrder(a: seq<Curso>, b: seq<Curso>, idStr: string)
    requires EliminarCurso(a + b, idStr).0.status == 200
    ensures var id := ParseUint(idStr).n;
      EliminarCurso(a + b, idStr).1
        == Filter(a, (c: Curso) => c.id != id) + Filter(b, (c: Curso) => c.id != id)
  {
    var id := ParseUint(idStr).n;
    FilterAppend(a, b, (c: Curso) => c.id != id);
  }

  /** Removing the same id twice: the second attempt answers 404 and leaves
      the catalogue as the first attempt left it. */
  lemma EliminarTwiceNotFound(catalogue: seq<Curso>, idStr: string)
    requires EliminarCurso(catalogue, idStr).0.status == 200
    ensures var after := EliminarCurso(catalogue, idStr).1;
      EliminarCurso(after, idStr) == (EliminarOutcome(404, MsgNoEncontrado), after)
  {
    var after := EliminarCurso(catalogue, idStr).1;
    var id := ParseUint(idStr).n;
    forall i | 0 <= i < |after| ensures after[i].id != id {
      assert after[i] in after;
    }
  }
}
