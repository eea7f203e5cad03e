/** The client's HTTP layer over the real backend: the request interceptor
    that adds the bearer token, and the request and response mappings of the
    calls the forms use. Transport is left out; each call is the pure step
    from its arguments to the request it sends, or from the response data to
    what it returns. */
module ClientApi {
  import opened Common
  import opened JsonValues
  import opened Types
  import CursoController

  // ---------------------------------------------------------------------------
  // Request interceptor

  const AUTHORIZATION := "Authorization"

  /** The request interceptor. `browser` is whether a `window` exists and
      `token` is what `localStorage` holds under "token" (`None` for null).
      A stored, non-empty token sets the Authorization header; in every other
      case the headers pass through untouched. */
  function Intercept(browser: bool, token: Option<string>, headers: map<string, string>): (r: map<string, string>)
    ensures forall k :: k != AUTHORIZATION ==> (k in r <==> k in headers)
    ensures forall k :: k != AUTHORIZATION && k in r ==> r[k] == headers[k]
    ensures browser && token.Some? && token.value != "" ==>
      AUTHORIZATION in r && r[AUTHORIZATION] == "Bearer " + token.value
    ensures !(browser && token.Some? && token.value != "") ==> r == headers
  {
    if browser && token.Some? && token.value != "" then headers[AUTHORIZATION := "Bearer " + token.value]
    else headers
  }

  /** The token reaches the backend exactly when one is stored and the code
      runs in a browser; the rest of the request is never touched. */
  lemma InterceptSetsHeaderIff(browser: bool, token: Option<string>, headers: map<string, string>)
    requires AUTHORIZATION !in headers
    ensures AUTHORIZATION in Intercept(browser, token, headers) <==> browser && token.Some? && token.value != ""
    ensures Intercept(browser, token, headers) - {AUTHORIZATION} == headers
  {
  }

  // ---------------------------------------------------------------------------
  // checkEnrollment

  /** The query string of `GET /inscripciones` as the client writes it. The
      parameter is named `cursoId`. */
  function EnrollmentsQuery(courseId: string): (q: seq<(string, string)>)
    ensures |q| == 1 && q[0].0 == "cursoId" && q[0].1 == courseId
  {
    [("cursoId", courseId)]
  }

  /** The result of a call that may throw inside the client code itself. */
  datatype CheckOutcome = Returned(found: bool) | Threw

  /** Element `e` is a record whose `cuil` is that string. */
  predicate CuilMatches(e: Json, cuil: string) {
    Prop(e, "cuil") == Some(JStr(cuil))
  }

  /** `items.some(enr => enr.cuil === cuil)`: the scan stops at the first
      match; reading `cuil` from a `null` element before any match throws. */
  function SomeCuil(items: seq<Json>, cuil: string): (r: CheckOutcome)
    ensures r == Returned(true) <==> exists i :: (0 <= i < |items| && CuilMatches(items[i], cuil)
      && forall j :: 0 <= j < i ==> !items[j].JNull?)
    ensures r.Threw? <==> exists i :: (0 <= i < |items| && items[i].JNull?
      && forall j :: 0 <= j < i ==> !CuilMatches(items[j], cuil))
    decreases |items|
  {
    if |items| == 0 then Returned(false)
    else if items[0].JNull? then Threw
    else if CuilMatches(items[0], cuil) then
      MatchFirst(items, cuil);
      Returned(true)
    else
      NullScanSkipsHead(items, cuil);
      MatchScanSkipsHead(items, cuil);
      SomeCuil(items[1..], cuil)
  }

  /** A match at the head answers before any `null` is read. */
  lemma MatchFirst(items: seq<Json>, cuil: string)
    requires |items| > 0 && CuilMatches(items[0], cuil)
    ensures !exists i :: (0 <= i < |items| && items[i].JNull?
      && forall j :: 0 <= j < i ==> !CuilMatches(items[j], cuil))
  {
    forall i | 0 <= i < |items| && items[i].JNull?
      ensures exists j :: 0 <= j < i && CuilMatches(items[j], cuil)
    {
      assert i > 0 && CuilMatches(items[0], cuil);
    }
  }

  /** A head that is neither `null` nor a match leaves the question "is a
      `null` read before any match" to the tail. */
  lemma NullScanSkipsHead(items: seq<Json>, cuil: string)
    requires |items| > 0 && !items[0].JNull? && !CuilMatches(items[0], cuil)
    ensures (exists i :: (0 <= i < |items| && items[i].JNull?
              && forall j :: 0 <= j < i ==> !CuilMatches(items[j], cuil)))
        <==> (exists i :: (0 <= i < |items[1..]| && items[1..][i].JNull?
              && forall j :: 0 <= j < i ==> !CuilMatches(items[1..][j], cuil)))
  {
    var t := items[1..];
    if exists i :: (0 <= i < |items| && items[i].JNull?
        && forall j :: 0 <= j < i ==> !CuilMatches(items[j], cuil)) {
      var i :| 0 <= i < |items| && items[i].JNull?
        && forall j :: 0 <= j < i ==> !CuilMatches(items[j], cuil);
      assert i > 0 && t[i - 1] == items[i];
      forall j | 0 <= j < i - 1 ensures !CuilMatches(t[j], cuil) {
        assert t[j] == items[j + 1];
      }
    }
    if exists i :: (0 <= i < |t| && t[i].JNull? && forall j :: 0 <= j < i ==> !CuilMatches(t[j], cuil)) {
      var i :| 0 <= i < |t| && t[i].JNull? && forall j :: 0 <= j < i ==> !CuilMatches(t[j], cuil);
      assert items[i + 1] == t[i];
      forall j | 0 <= j < i + 1 ensures !CuilMatches(items[j], cuil) {
        if j > 0 { assert items[j] == t[j - 1]; }
      }
    }
  }

  /** A head that is neither `null` nor a match leaves the question "is a
      match found before any `null`" to the tail. */
  lemma MatchScanSkipsHead(items: seq<Json>, cuil: string)
    requires |items| > 0 && !items[0].JNull? && !CuilMatches(items[0], cuil)
    ensures (exists i :: (0 <= i < |items| && CuilMatches(items[i], cuil)
              && forall j :: 0 <= j < i ==> !items[j].JNull?))
        <==> (exists i :: (0 <= i < |items[1..]| && CuilMatches(items[1..][i], cuil)
              && forall j :: 0 <= j < i ==> !items[1..][j].JNull?))
  {
    var t := items[1..];
    if exists i :: (0 <= i < |items| && CuilMatches(items[i], cuil)
        && forall j :: 0 <= j < i ==> !items[j].JNull?) {
      var i :| 0 <= i < |items| && CuilMatches(items[i], cuil)
        && forall j :: 0 <= j < i ==> !items[j].JNull?;
      assert i > 0 && t[i - 1] == items[i];
      forall j | 0 <= j < i - 1 ensures !t[j].JNull? {
        assert t[j] == items[j + 1];
      }
    }
    if exists i :: (0 <= i < |t| && CuilMatches(t[i], cuil) && forall j :: 0 <= j < i ==> !t[j].JNull?) {
      var i :| 0 <= i < |t| && CuilMatches(t[i], cuil) && forall j :: 0 <= j < i ==> !t[j].JNull?;
      assert items[i + 1] == t[i];
      forall j | 0 <= j < i + 1 ensures !items[j].JNull? {
        if j > 0 { assert items[j] == t[j - 1]; }
      }
    }
  }

  /** `checkEnrollment` on the response data: not an array gives false;
      otherwise some record's `cuil` equals the CUIL. No record's course is
      compared. */
  function CheckEnrollment(data: Json, cuil: string): (r: CheckOutcome)
    ensures !data.JArr? ==> r == Returned(false)
    ensures data.JArr? && (forall i :: 0 <= i < |data.items| ==> !data.items[i].JNull?) ==>
      r == Returned(exists i :: 0 <= i < |data.items| && CuilMatches(data.items[i], cuil))
    ensures data.JArr? ==> (r.Threw? <==> exists i :: (0 <= i < |data.items| && data.items[i].JNull?
      && forall j :: 0 <= j < i ==> !CuilMatches(data.items[j], cuil)))
  {
    if !data.JArr? then Returned(false) else SomeCuil(data.items, cuil)
  }

  /** The answer depends only on the `cuil` fields: two responses with the
      same elements under different course ids answer alike. */
  lemma CheckEnrollmentIgnoresCourse(items: seq<Json>, cuil: string, courseKey: string, other: Json)
    requires courseKey != "cuil"
    requires forall i :: 0 <= i < |items| ==> items[i].JObj?
    ensures CheckEnrollment(JArr(items), cuil)
         == CheckEnrollment(JArr(seq(|items|, i requires 0 <= i < |items| =>
              JObj(items[i].fields[courseKey := other]))), cuil)
  {
    var changed := seq(|items|, i requires 0 <= i < |items| => JObj(items[i].fields[courseKey := other]));
    assert forall i :: 0 <= i < |items| ==> (CuilMatches(items[i], cuil) <==> CuilMatches(changed[i], cuil));
  }

  // ---------------------------------------------------------------------------
  // createEnrollment and createCourse

  /** The body `createEnrollment` posts: the CUIL and the course id, both as
      strings, and nothing else. */
  function CreateEnrollmentBody(courseId: string, cuil: string): (j: Json)
    ensures j.JObj? && j.fields.Keys == {"cuil", "curso_id"}
    ensures Prop(j, "cuil") == Some(JStr(cuil)) && Prop(j, "curso_id") == Some(JStr(courseId))
  {
    JObj(map["cuil" := JStr(cuil), "curso_id" := JStr(courseId)])
  }

  /** What `createCourse` is given: the course form's values, and the two
      duration fields the form does not have (`None` when absent). */
  datatype CourseData = CourseData(values: CourseFormValues, durationHours: Option<int>, durationMinutes: Option<int>)

  /** `x || 0` on an optional number. */
  function OrZero(x: Option<int>): (n: int)
    ensures x.None? ==> n == 0
    ensures x.Some? ==> n == x.value
  {
    if x.Some? && x.value != 0 then x.value else 0
  }

  /** The body `createCourse` posts, as the backend decodes it: the duration
      in minutes from hours and minutes (absent counts as 0), the modality
      always "presencial", and a missing description arriving as "" (the key
      is dropped when undefined). */
  function CreateCourseBody(data: CourseData): (b: CursoController.CursoInput)
    ensures b.duracionMin == OrZero(data.durationHours) * 60 + OrZero(data.durationMinutes)
    ensures b.modalidad == "presencial"
    ensures b.nombre == data.values.title && b.capacidad == data.values.capacity
    ensures b.fechaInicio == data.values.startDate && b.fechaFin == data.values.endDate
    ensures b.descripcion == (if data.values.description.Some? then data.values.description.value else "")
  {
    var totalMinutes := OrZero(data.durationHours) * 60 + OrZero(data.durationMinutes);
    CursoController.CursoInput(
      data.values.title,
      if data.values.description.Some? then data.values.description.value else "",
      data.values.startDate, data.values.endDate, totalMinutes, data.values.capacity, "presencial")
  }

  /** The chosen location never reaches the backend. */
  lemma CreateCourseIgnoresLocation(data: CourseData, location: Location)
    ensures CreateCourseBody(data) == CreateCourseBody(data.(values := data.values.(location := location)))
  {
  }

  // ---------------------------------------------------------------------------
  // getCourse

  /** `getCourse` on the `GET /cursos` list: the first course whose id,
      converted to a string, equals the argument; null when there is none. */
  function GetCourse(cursos: seq<CursoController.CursoView>, id: string): (r: Option<CursoController.CursoView>)
    ensures r.None? <==> forall i :: 0 <= i < |cursos| ==> NatToString(cursos[i].id) != id
    ensures r.Some? ==> NatToString(r.value.id) == id
    ensures r.Some? ==> exists i :: (0 <= i < |cursos| && cursos[i] == r.value
      && forall j :: 0 <= j < i ==> NatToString(cursos[j].id) != id)
  {
    match FindFirst(cursos, (c: CursoController.CursoView) => NatToString(c.id) == id)
    case None => None
    case Some(i) => Some(cursos[i])
  }

  /** Looking up a course by its printed id finds the first stored course
      with that id, and a string that is not a printed id finds nothing. */
  lemma GetCourseFindsStored(cursos: seq<CursoController.CursoView>, n: nat)
    ensures GetCourse(cursos, NatToString(n)).Some? <==> exists i :: 0 <= i < |cursos| && cursos[i].id == n
    ensures GetCourse(cursos, NatToString(n)).Some? ==> GetCourse(cursos, NatToString(n)).value.id == n
  {
    if GetCourse(cursos, NatToString(n)).Some? {
      NatToStringInjective(GetCourse(cursos, NatToString(n)).value.id, n);
    } else {
      forall i | 0 <= i < |cursos| ensures cursos[i].id != n {
        assert NatToString(cursos[i].id) != NatToString(n);
      }
    }
  }

  /** Ids are compared as printed, so an id written with a leading zero
      never matches. */
  lemma GetCourseLeadingZero(cursos: seq<CursoController.CursoView>)
    ensures GetCourse(cursos, "01").None?
  {
    forall i | 0 <= i < |cursos| ensures NatToString(cursos[i].id) != "01" {
      NatToStringNoLeadingZero(cursos[i].id);
    }
  }
}
