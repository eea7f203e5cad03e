/** The backend's persistent records (persons, courses, enrollments), the
    database that holds them, and the JSON the backend writes for them. */
module Models {
  import opened Common
  import opened Dates
  import opened JsonValues

  /** An instant as the database stores it and `encoding/json` writes it
      (an RFC 3339 string); the clock itself is outside the model. */
  type Timestamp = string

  /** A person; `cuil` is the primary key. */
  datatype Persona = Persona(
    cuil: string,
    nombre: string,
    apellido: string,
    email: string,
    telefono: string)

  /** A course; `id` is the auto-increment primary key. */
  datatype Curso = Curso(
    id: nat,
    nombre: string,
    descripcion: string,
    fechaInicio: Date,
    fechaFin: Date,
    duracionMin: int,
    capacidad: int,
    lugar: string,
    modalidad: string)

  /** An enrollment row, denormalised: it copies the course name and the
      person's name at enrollment time. */
  datatype Inscripcion = Inscripcion(
    id: nat,
    cursoId: nat,
    nombreCurso: string,
    cuil: string,
    nombre: string,
    apellido: string,
    fechaInscripcion: Timestamp)

  /** The database: the persons table keyed by CUIL, the course and enrollment
      tables in row order, and the next value of each auto-increment counter. */
  datatype Db = Db(
    personas: map<string, Persona>,
    cursos: seq<Curso>,
    inscripciones: seq<Inscripcion>,
    nextCursoId: nat,
    nextInscripcionId: nat)

  /** `DB.First(&curso, id)`: the course row with that primary key. */
  function FindCurso(cursos: seq<Curso>, id: nat): (r: Option<Curso>)
    ensures r.Some? ==> r.value in cursos && r.value.id == id
    ensures r.None? <==> forall i :: 0 <= i < |cursos| ==> cursos[i].id != id
  {
    Find(cursos, (c: Curso) => c.id == id)
  }

  /** Some enrollment row links course `cursoId` to the person `cuil`. */
  predicate HasPair(rows: seq<Inscripcion>, cursoId: nat, cuil: string) {
    exists i :: 0 <= i < |rows| && rows[i].cursoId == cursoId && rows[i].cuil == cuil
  }

  /** At most one enrollment row per (course, CUIL) pair. */
  predicate UniquePairs(rows: seq<Inscripcion>) {
    forall i, j :: 0 <= i < j < |rows| ==>
      !(rows[i].cursoId == rows[j].cursoId && rows[i].cuil == rows[j].cuil)
  }

  /** Number of enrollment rows for one (course, CUIL) pair. */
  function PairCount(rows: seq<Inscripcion>, cursoId: nat, cuil: string): nat {
    Count(rows, (x: Inscripcion) => x.cursoId == cursoId && x.cuil == cuil)
  }

  /** Every stored person sits under its own CUIL, as a primary key does. */
  predicate PersonasKeyed(db: Db) {
    forall k :: k in db.personas ==> db.personas[k].cuil == k
  }

  /** `encoding/json` output for an enrollment row: `models.Inscripcion` has
      no json tags, so every key is the Go field name. */
  function InscripcionJson(x: Inscripcion): (j: Json)
    ensures j.JObj?
    ensures j.fields.Keys == {"ID", "CursoID", "NombreCurso", "Cuil", "Nombre", "Apellido", "FechaInscripcion"}
  {
    JObj(map[
      "ID" := JNum(x.id),
      "CursoID" := JNum(x.cursoId),
      "NombreCurso" := JStr(x.nombreCurso),
      "Cuil" := JStr(x.cuil),
      "Nombre" := JStr(x.nombre),
      "Apellido" := JStr(x.apellido),
      "FechaInscripcion" := JStr(x.fechaInscripcion)])
  }

  /** A JSON array of enrollment rows, in order. */
  function InscripcionesJson(rows: seq<Inscripcion>): (j: Json)
    ensures j.JArr? && |j.items| == |rows|
    ensures forall i :: 0 <= i < |rows| ==> j.items[i] == InscripcionJson(rows[i])
  {
    JArr(seq(|rows|, i requires 0 <= i < |rows| => InscripcionJson(rows[i])))
  }
}
