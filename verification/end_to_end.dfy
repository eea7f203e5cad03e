/** How the client and the backend fit together: each lemma feeds what one
    side sends or returns into the model of the other side. */
module EndToEnd {
  import opened Common
  import opened JsonValues
  import opened Models
  import InscripcionController
  import CursoController
  import ClientApi
  import CourseForm
  import EnrollmentList
  import QrForm
  import ManualForm
  import Registration
  import Types

  /** The client names the query parameter `cursoId` and the backend reads
      `curso_id`, so the client's listing of one course is the whole table. */
  lemma ListingIgnoresClientCourse(db: Db, courseId: string)
    ensures InscripcionController.ObtenerInscritos(db, ClientApi.EnrollmentsQuery(courseId)) == db.inscripciones
  {
    assert ClientApi.EnrollmentsQuery(courseId)[0].0 != "curso_id";
  }

  /** The backend writes the person's CUIL under `Cuil`, and the client looks
      for `cuil`: no backend row ever matches, whatever the table holds. */
  lemma BackendRowsNeverMatchCuil(rows: seq<Inscripcion>, cuil: string)
    ensures ClientApi.CheckEnrollment(InscripcionesJson(rows), cuil) == ClientApi.Returned(false)
  {
    var data := InscripcionesJson(rows);
    forall i | 0 <= i < |data.items|
      ensures !data.items[i].JNull? && !ClientApi.CuilMatches(data.items[i], cuil)
    {
      BackendRowHasNoCuilKey(rows[i], cuil);
    }
  }

  lemma BackendRowHasNoCuilKey(x: Inscripcion, cuil: string)
    ensures InscripcionJson(x).JObj? && !ClientApi.CuilMatches(InscripcionJson(x), cuil)
  {
    assert "cuil" !in InscripcionJson(x).fields.Keys;
  }

  /** So the client's enrollment check answers "not enrolled" even for a
      person the table holds for that very course. */
  lemma CheckEnrollmentAlwaysFalse(db: Db, courseId: string, cuil: string)
    ensures ClientApi.CheckEnrollment(
              InscripcionesJson(InscripcionController.ObtenerInscritos(db, ClientApi.EnrollmentsQuery(courseId))), cuil)
         == ClientApi.Returned(false)
  {
    ListingIgnoresClientCourse(db, courseId);
    BackendRowsNeverMatchCuil(db.inscripciones, cuil);
  }

  /** Through the backend, the QR form's search always ends with the Confirm
      button shown (unless an earlier enrollment already succeeded), so an
      enrolled person is offered it too. */
  lemma QrFormOffersConfirmToEnrolled(s: QrForm.State, db: Db, courseId: string, u: Types.User)
    requires QrForm.Inv(s) && s.search.AwaitCheck? && s.search.found == u
    ensures var answer := ClientApi.CheckEnrollment(
              InscripcionesJson(InscripcionController.ObtenerInscritos(db, ClientApi.EnrollmentsQuery(courseId))),
              s.search.cuil);
      var next := QrForm.Step(s, courseId, QrForm.CheckLoaded(Registration.CheckData(answer.found))).0;
      && answer == ClientApi.Returned(false)
      && next.user == Some(u)
      && (QrForm.ConfirmShown(next) <==> !s.success)
  {
    CheckEnrollmentAlwaysFalse(db, courseId, s.search.cuil);
  }

  /** Both forms send the course id as a JSON string, which the `uint` field
      refuses: through either form every enrollment is answered 400
      "CUIL y curso_id son requeridos" and the table is left as it was. */
  lemma ClientEnrollmentRefusedAtBind(db: Db, courseId: string, cuil: string, u: Types.User,
                                      padron: string -> InscripcionController.PadronAnswer,
                                      insertOk: bool, now: Timestamp)
    ensures InscripcionController.InscribirJson(db, ClientApi.CreateEnrollmentBody(courseId, cuil), padron, insertOk, now)
         == (InscripcionController.Rejected(400, InscripcionController.MsgRequired), db)
    ensures InscripcionController.InscribirJson(db, ManualForm.EnrollBody(courseId, u), padron, insertOk, now)
         == (InscripcionController.Rejected(400, InscripcionController.MsgRequired), db)
  {
    assert Prop(ClientApi.CreateEnrollmentBody(courseId, cuil), "curso_id") == Some(JStr(courseId));
    assert Prop(ManualForm.EnrollBody(courseId, u), "curso_id") == Some(JStr(courseId));
  }

  /** For a request whose course id arrives as a number (not what the forms
      send, see above), the second request for the same person and course is
      refused with 409, which the QR form would show as "Ya está inscripto". */
  lemma RepeatShownAsAlreadyEnrolled(db: Db, body: InscripcionController.RawRequest,
                                     padron: string -> InscripcionController.PadronAnswer,
                                     ok1: bool, ok2: bool, t1: Timestamp, t2: Timestamp, message: string)
    requires InscripcionController.Bind(body).Some? ==>
      InscripcionController.ResolvesToRequestedCuil(db, InscripcionController.Bind(body).value.cuil, padron)
    requires InscripcionController.InscribirPersona(db, body, padron, ok1, t1).0.Enrolled?
    ensures var db1 := InscripcionController.InscribirPersona(db, body, padron, ok1, t1).1;
      var second := InscripcionController.InscribirPersona(db1, body, padron, ok2, t2);
      && InscripcionController.StatusOf(second.0) == 409
      && QrForm.EnrollError(Some(InscripcionController.StatusOf(second.0)), message) == QrForm.MsgYaInscripto
  {
    InscripcionController.SecondAttemptConflicts(db, body, padron, ok1, ok2, t1, t2);
  }

  /** The course form sends no duration, and the backend requires at least
      15 minutes: every course the form submits is refused with 400. */
  lemma CourseFormAlwaysRejected(db: Db, f: CourseForm.FormData, storage: map<string, string>,
                                 result: CourseForm.CreateResult, insertOk: bool)
    requires CourseForm.IsValid(f)
    ensures CursoController.CrearCurso(db, CourseForm.HandleSubmit(f, storage, result).sent, insertOk)
         == (CursoController.CrearRejected(400, CursoController.MsgFaltanCampos), db)
  {
    CourseForm.SubmittedCourseHasNoDuration(f, storage, result);
  }

  /** The enrollment list of one course loads every row of the table, in
      table order, those of other courses included. */
  lemma CourseListShowsWholeTable(db: Db, courseId: string)
    ensures var es := EnrollmentList.LoadEnrollments(
              InscripcionesJson(InscripcionController.ObtenerInscritos(db, ClientApi.EnrollmentsQuery(courseId))));
      && |es| == |db.inscripciones|
      && forall i :: 0 <= i < |es| ==> es[i] == EnrollmentList.FlatOf(db.inscripciones[i])
  {
    ListingIgnoresClientCourse(db, courseId);
    EnrollmentList.LoadRecoversBackendRows(db.inscripciones);
  }

  /** A concrete case: with one row for course 2, the list page of course 1
      shows that row and names course 2's title in its heading. */
  lemma OtherCourseRowListed()
    ensures var row := Inscripcion(1, 2, "Otro curso", "20123456789", "Ana", "Paz", "t");
      var db := Db(map[], [], [row], 1, 2);
      var es := EnrollmentList.LoadEnrollments(
        InscripcionesJson(InscripcionController.ObtenerInscritos(db, ClientApi.EnrollmentsQuery("1"))));
      && |es| == 1 && es[0].cursoId == Some(JNum(2))
      && EnrollmentList.Heading(es) == JStr("Otro curso")
  {
    var row := Inscripcion(1, 2, "Otro curso", "20123456789", "Ana", "Paz", "t");
    var db := Db(map[], [], [row], 1, 2);
    CourseListShowsWholeTable(db, "1");
    EnrollmentList.HeadingOfBackendRows(db.inscripciones);
  }
}
