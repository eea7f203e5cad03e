/** The enrollment list of a course: loading and normalising the records the
    backend returns, the heading, and the two exports reduced to the rows and
    file name they produce (the spreadsheet library and the download are left
    out). */
module EnrollmentList {
  import opened Common
  import opened JsonValues
  import Models

  /** A normalised record. Each field is whatever the response held, and may
      be `undefined` (`None`). */
  datatype FlatEnrollment = FlatEnrollment(
    id: Option<Json>,
    cursoId: Option<Json>,
    nombreCurso: Option<Json>,
    cuil: Option<Json>,
    nombre: Option<Json>,
    apellido: Option<Json>,
    fechaInscripcion: Option<Json>)

  /** One field: the snake_case key unless it is null or undefined, otherwise
      the Go field name. */
  function Field(item: Json, snake: string, pascal: string): (r: Option<Json>)
    ensures !Nullish(Prop(item, snake)) ==> r == Prop(item, snake)
    ensures Nullish(Prop(item, snake)) ==> r == Prop(item, pascal)
  {
    Coalesce(Prop(item, snake), Prop(item, pascal))
  }

  function Normalise(item: Json): FlatEnrollment {
    FlatEnrollment(
      Field(item, "id", "ID"),
      Field(item, "curso_id", "CursoID"),
      Field(item, "nombre_curso", "NombreCurso"),
      Field(item, "cuil", "Cuil"),
      Field(item, "nombre", "Nombre"),
      Field(item, "apellido", "Apellido"),
      Field(item, "fecha_inscripcion", "FechaInscripcion"))
  }

  /** `loadEnrollments`: the normalised records, one per response element in
      order. Data that is not an array, or an array holding `null` (reading a
      field of it throws), leaves the list empty. */
  function LoadEnrollments(data: Json): (r: seq<FlatEnrollment>)
    ensures !data.JArr? ==> r == []
    ensures data.JArr? && (exists i :: 0 <= i < |data.items| && data.items[i].JNull?) ==> r == []
    ensures data.JArr? && (forall i :: 0 <= i < |data.items| ==> !data.items[i].JNull?) ==>
      |r| == |data.items| && forall i :: 0 <= i < |r| ==> r[i] == Normalise(data.items[i])
  {
    if !data.JArr? then []
    else if exists i :: 0 <= i < |data.items| && data.items[i].JNull? then []
    else seq(|data.items|, i requires 0 <= i < |data.items| => Normalise(data.items[i]))
  }

  /** The flat record a backend row becomes. */
  function FlatOf(x: Models.Inscripcion): FlatEnrollment {
    FlatEnrollment(Some(JNum(x.id)), Some(JNum(x.cursoId)), Some(JStr(x.nombreCurso)),
      Some(JStr(x.cuil)), Some(JStr(x.nombre)), Some(JStr(x.apellido)), Some(JStr(x.fechaInscripcion)))
  }

  /** The backend writes Go field names and no snake_case key, so every field
      comes from the fallback, and loading the backend's rows yields exactly
      those rows, in order. */
  lemma LoadRecoversBackendRows(rows: seq<Models.Inscripcion>)
    ensures var es := LoadEnrollments(Models.InscripcionesJson(rows));
      |es| == |rows| && forall i :: 0 <= i < |rows| ==> es[i] == FlatOf(rows[i])
  {
    var data := Models.InscripcionesJson(rows);
    forall i | 0 <= i < |data.items|
      ensures !data.items[i].JNull? && Normalise(data.items[i]) == FlatOf(rows[i])
    {
      NormaliseBackendRow(rows[i]);
    }
  }

  lemma NormaliseBackendRow(x: Models.Inscripcion)
    ensures Normalise(Models.InscripcionJson(x)) == FlatOf(x)
  {
    var keys := Models.InscripcionJson(x).fields.Keys;
    assert "id" !in keys && "curso_id" !in keys && "nombre_curso" !in keys && "cuil" !in keys;
    assert "nombre" !in keys && "apellido" !in keys && "fecha_inscripcion" !in keys;
  }

  /** A record carrying both spellings of a key shows the snake_case one. */
  lemma SnakeCaseWins(item: Json, snake: string, pascal: string, v: Json)
    requires item.JObj? && snake in item.fields && item.fields[snake] == v && !v.JNull?
    ensures Field(item, snake, pascal) == Some(v)
  {
  }

  /** The heading above the table: the first record's course name when it is
      truthy, "-" otherwise. */
  function Heading(es: seq<FlatEnrollment>): (h: Json)
    ensures |es| == 0 ==> h == JStr("-")
    ensures |es| > 0 && TruthyOpt(es[0].nombreCurso) ==> h == es[0].nombreCurso.value
    ensures |es| > 0 && !TruthyOpt(es[0].nombreCurso) ==> h == JStr("-")
  {
    if |es| > 0 && TruthyOpt(es[0].nombreCurso) then es[0].nombreCurso.value else JStr("-")
  }

  /** Over the backend's rows the heading names the first row's course, or
      "-" when that name is empty or there are no rows. */
  lemma HeadingOfBackendRows(rows: seq<Models.Inscripcion>)
    ensures var h := Heading(LoadEnrollments(Models.InscripcionesJson(rows)));
      h == (if |rows| > 0 && rows[0].nombreCurso != "" then JStr(rows[0].nombreCurso) else JStr("-"))
  {
    LoadRecoversBackendRows(rows);
  }

  // ---------------------------------------------------------------------------
  // Exports

  /** One exported row: a value per column, in column order. */
  type Row = seq<(string, Option<Json>)>

  /** An export: the file name and the rows. */
  datatype ExportFile = ExportFile(name: string, rows: seq<Row>)

  const EXCEL_COLUMNS: seq<string> := ["CUIL", "Nombre", "Apellido", "Fecha de Inscripción", "Nombre del Curso", "ID del Curso"]
  const CSV_COLUMNS: seq<string> := ["CUIL", "Nombre", "Apellido", "FechaInscripcion", "NombreCurso", "IDCurso"]

  /** The values every export row carries, in column order. */
  function RowValues(e: FlatEnrollment): seq<Option<Json>> {
    [e.cuil, e.nombre, e.apellido, e.fechaInscripcion, e.nombreCurso, e.cursoId]
  }

  function MakeRow(columns: seq<string>, e: FlatEnrollment): (r: Row)
    requires |columns| == 6
    ensures |r| == 6 && forall k :: 0 <= k < 6 ==> r[k] == (columns[k], RowValues(e)[k])
  {
    seq(6, k requires 0 <= k < 6 => (columns[k], RowValues(e)[k]))
  }

  function Rows(columns: seq<string>, es: seq<FlatEnrollment>): (r: seq<Row>)
    requires |columns| == 6
    ensures |r| == |es| && forall i :: 0 <= i < |es| ==> r[i] == MakeRow(columns, es[i])
  {
    seq(|es|, i requires 0 <= i < |es| => MakeRow(columns, es[i]))
  }

  /** `exportToExcel`: nothing for an empty list, otherwise a sheet named
      after the course with one row per enrollment. */
  function ExportToExcel(courseId: string, es: seq<FlatEnrollment>): (r: Option<ExportFile>)
    ensures r.None? <==> |es| == 0
    ensures r.Some? ==> r.value.name == "inscripciones_curso_" + courseId + ".xlsx"
    ensures r.Some? ==> |r.value.rows| == |es|
    ensures r.Some? ==> forall i :: 0 <= i < |es| ==> r.value.rows[i] == MakeRow(EXCEL_COLUMNS, es[i])
  {
    if |es| == 0 then None
    else Some(ExportFile("inscripciones_curso_" + courseId + ".xlsx", Rows(EXCEL_COLUMNS, es)))
  }

  /** `exportToCSV`: the same rows under shorter headers, in a `.csv` file. */
  function ExportToCsv(courseId: string, es: seq<FlatEnrollment>): (r: Option<ExportFile>)
    ensures r.None? <==> |es| == 0
    ensures r.Some? ==> r.value.name == "inscripciones_curso_" + courseId + ".csv"
    ensures r.Some? ==> |r.value.rows| == |es|
    ensures r.Some? ==> forall i :: 0 <= i < |es| ==> r.value.rows[i] == MakeRow(CSV_COLUMNS, es[i])
  {
    if |es| == 0 then None
    else Some(ExportFile("inscripciones_curso_" + courseId + ".csv", Rows(CSV_COLUMNS, es)))
  }

  /** The two exports hold the same values row by row and column by column;
      only the headers and the file extension differ. */
  lemma ExportsAgree(courseId: string, es: seq<FlatEnrollment>)
    requires |es| > 0
    ensures var x := ExportToExcel(courseId, es).value;
      var c := ExportToCsv(courseId, es).value;
      |x.rows| == |c.rows| &&
      forall i, k :: 0 <= i < |x.rows| && 0 <= k < 6 ==> x.rows[i][k].1 == c.rows[i][k].1
  {
  }
}
