/** The operator's registration form, as a state machine. The search is the
    QR form's; enrolling posts with `fetch` directly and reports through two
    message fields of its own. Each event is a user action or the settling of
    a request in flight. A search and an enrollment can be in flight at the
    same time: neither control looks at the other's busy flag. */
module ManualForm {
  import opened Common
  import opened JsonValues
  import opened Types
  import opened Registration

  const MsgExito := "Alumno inscripto con éxito"
  const MsgYaInscripto := "Este alumno ya está inscripto en este curso"
  const MsgErrorInscribir := "Error al inscribir alumno"

  /** The component state, plus the requests in flight: the search's, and
      whether the enrollment post is awaited. `error` receives the search
      errors; `successMsg` and `errorMsg` receive the enrollment's. */
  datatype State = State(
    cuil: string,
    user: Option<User>,
    isLoading: bool,
    isEnrolled: bool,
    error: Option<string>,
    success: bool,
    isInscribiendo: bool,
    successMsg: string,
    errorMsg: string,
    search: Search,
    enrolling: bool)

  const Initial := State("", None, false, false, None, false, false, "", "", NoSearch, false)

  /** How the enrollment `fetch` settled: a response with its status and body
      text, or a thrown error. */
  datatype FetchResult = FetchResponse(status: int, text: string) | FetchThrew

  datatype Event =
    | Typed(raw: string)
    | SearchSubmitted
    | UserLoaded(lookup: LookupResult)
    | CheckLoaded(check: CheckResult)
    | EnrollClicked(token: Option<string>)
    | EnrollSettled(result: FetchResult)

  /** The Search button is enabled (and so is submitting the form). */
  predicate SearchEnabled(s: State) {
    !s.isLoading && |s.cuil| == CUIL_LENGTH && !s.success
  }

  /** The "Inscribir al curso" button is rendered: whenever a person is shown. */
  predicate EnrollShown(s: State) {
    s.user.Some?
  }

  /** ... and it is disabled only while saving. */
  predicate EnrollEnabled(s: State) {
    EnrollShown(s) && !s.isInscribiendo
  }

  /** The messages on screen. The search's `error` is not among them. */
  function Alerts(s: State): (r: seq<string>)
    ensures forall m :: m in r ==> m == s.successMsg || m == s.errorMsg
    ensures s.successMsg != "" ==> s.successMsg in r
    ensures s.errorMsg != "" ==> s.errorMsg in r
  {
    (if s.successMsg != "" then [s.successMsg] else []) + (if s.errorMsg != "" then [s.errorMsg] else [])
  }

  /** `handleCuilSearch` up to its first request: clear the person, the
      error, the enrolled flag and the success flag, then check the format. */
  function BeginSearch(s: State): (r: (State, seq<Call>))
    ensures r.0.user.None? && !r.0.isEnrolled && !r.0.success && r.0.cuil == s.cuil
    ensures r.0.successMsg == s.successMsg && r.0.errorMsg == s.errorMsg
    ensures r.0.isInscribiendo == s.isInscribiendo && r.0.enrolling == s.enrolling
    ensures !ValidCuil(s.cuil) ==> r.1 == [] && r.0.error == Some(MsgFormatoCuil) && !r.0.isLoading
    ensures ValidCuil(s.cuil) ==> r.1 == [GetUser(s.cuil)] && r.0.error.None? && r.0.search == AwaitUser(s.cuil)
  {
    var cleared := s.(isLoading := true, error := None, user := None, isEnrolled := false, success := false);
    if !ValidCuil(s.cuil) then (cleared.(error := Some(MsgFormatoCuil), isLoading := false), [])
    else (cleared.(search := AwaitUser(s.cuil)), [GetUser(s.cuil)])
  }

  /** The request body: the shown person's CUIL, trimmed, and the course id. */
  function EnrollBody(courseId: string, u: User): (j: Json)
    ensures j.JObj? && j.fields.Keys == {"cuil", "curso_id"}
    ensures Prop(j, "cuil") == Some(JStr(Trim(u.cuil))) && Prop(j, "curso_id") == Some(JStr(courseId))
  {
    JObj(map["cuil" := JStr(Trim(u.cuil)), "curso_id" := JStr(courseId)])
  }

  /** The Authorization header: the stored token interpolated into the
      template, which prints a missing one as "null". The header is always
      sent. */
  function ManualAuthorization(token: Option<string>): (a: string)
    ensures token.Some? ==> a == "Bearer " + token.value
    ensures token.None? ==> a == "Bearer null"
  {
    "Bearer " + (if token.Some? then token.value else "null")
  }

  /** A 2xx response is `res.ok`. */
  predicate Ok(status: int) {
    200 <= status <= 299
  }

  /** The state after the enrollment request settles. */
  function Settle(s: State, result: FetchResult): (r: State)
    requires s.enrolling
    ensures !r.isInscribiendo && !r.enrolling && r.success == s.success
    ensures r.search == s.search && r.isLoading == s.isLoading
    ensures result.FetchResponse? && Ok(result.status) ==>
      r.successMsg == MsgExito && r.user.None? && r.cuil == "" && r.errorMsg == s.errorMsg
    ensures result.FetchResponse? && result.status == 409 ==>
      r.errorMsg == MsgYaInscripto && r.user == s.user && r.successMsg == s.successMsg
    ensures result.FetchResponse? && !Ok(result.status) && result.status != 409 ==>
      r.errorMsg == OrElse(result.text, MsgErrorInscribir) && r.user == s.user
    ensures result.FetchThrew? ==> r.errorMsg == MsgErrorInscribir && r.user == s.user
  {
    var done := s.(isInscribiendo := false, enrolling := false);
    match result
    case FetchThrew => done.(errorMsg := MsgErrorInscribir)
    case FetchResponse(status, text) =>
      if Ok(status) then done.(successMsg := MsgExito, user := None, cuil := "")
      else if status == 409 then done.(errorMsg := MsgYaInscripto)
      else done.(errorMsg := OrElse(text, MsgErrorInscribir))
  }

  /** One event. A control that is disabled or not rendered does nothing; a
      response arrives only for a request in flight, and a search's responses
      are applied whatever happened to the form in between. */
  function Step(s: State, courseId: string, e: Event): (r: (State, seq<Call>))
    ensures !s.success ==> !r.0.success
    ensures r.0.user.Some? && s.user.None? ==>
      && s.search.AwaitCheck? && e.CheckLoaded? && e.check.CheckData?
      && r.0.user == Some(s.search.found) && r.0.isEnrolled == e.check.enrolled
  {
    match e
    case Typed(raw) =>
      if s.isLoading || s.success then (s, []) else (s.(cuil := Sanitise(raw)), [])
    case SearchSubmitted =>
      if !SearchEnabled(s) then (s, []) else BeginSearch(s)
    case UserLoaded(lookup) =>
      if !s.search.AwaitUser? then (s, [])
      else
        (match AfterLookup(lookup)
         case LookupFailed(msg) => (s.(error := Some(msg), isLoading := false, search := NoSearch), [])
         case LookupFound(u) =>
           (s.(search := AwaitCheck(s.search.cuil, u)), [CheckCall(courseId, s.search.cuil)]))
    case CheckLoaded(check) =>
      if !s.search.AwaitCheck? then (s, [])
      else
        (match AfterCheck(s.search.found, check)
         case CheckFailed(msg) => (s.(error := Some(msg), isLoading := false, search := NoSearch), [])
         case Shown(u, enrolled) =>
           (s.(isEnrolled := enrolled, user := Some(u), isLoading := false, search := NoSearch), []))
    case EnrollClicked(token) =>
      if !EnrollEnabled(s) then (s, [])
      else
        (s.(isInscribiendo := true, successMsg := "", errorMsg := "", enrolling := true),
         [PostEnrollment(Some(ManualAuthorization(token)), EnrollBody(courseId, s.user.value))])
    case EnrollSettled(result) =>
      if !s.enrolling then (s, []) else (Settle(s, result), [])
  }

  /** The states the form can reach: at most eleven digits in the input, busy
      flags that match the requests in flight, every search on a well-formed
      CUIL, no person shown while a search runs, and `success` never set. */
  predicate Inv(s: State) {
    && |s.cuil| <= CUIL_LENGTH && AllDigits(s.cuil)
    && (s.isLoading <==> !s.search.NoSearch?)
    && (s.isInscribiendo <==> s.enrolling)
    && (!s.search.NoSearch? ==> ValidCuil(s.search.cuil))
    && (s.isLoading ==> s.user.None?)
    && !s.success
  }

  lemma InitialInv()
    ensures Inv(Initial)
  {
  }

  /** Every event keeps the invariant. */
  lemma StepKeepsInv(s: State, courseId: string, e: Event)
    requires Inv(s)
    ensures Inv(Step(s, courseId, e).0)
  {
  }

  function Run(s: State, courseId: string, events: seq<Event>): (r: (State, seq<Call>))
    decreases |events|
  {
    if |events| == 0 then (s, [])
    else
      var step := Step(s, courseId, events[0]);
      var rest := Run(step.0, courseId, events[1..]);
      (rest.0, step.1 + rest.1)
  }

  /** `success` is never set, so the inputs never lock after an enrollment. */
  lemma {:induction false} RunNeverSucceeds(s: State, courseId: string, events: seq<Event>)
    requires Inv(s)
    ensures Inv(Run(s, courseId, events).0) && !Run(s, courseId, events).0.success
    decreases |events|
  {
    if |events| > 0 {
      StepKeepsInv(s, courseId, events[0]);
      RunNeverSucceeds(Step(s, courseId, events[0]).0, courseId, events[1..]);
    }
  }

  /** A shown person who is already enrolled can still be sent to the
      backend: the button ignores the enrolled flag. */
  lemma EnrolledPersonCanBePosted(s: State, courseId: string, token: Option<string>)
    requires Inv(s) && s.user.Some? && s.isEnrolled && !s.isInscribiendo
    ensures Step(s, courseId, EnrollClicked(token)).1
         == [PostEnrollment(Some(ManualAuthorization(token)), EnrollBody(courseId, s.user.value))]
  {
  }

  /** Search failures never reach the screen: a failed lookup changes
      neither rendered message, only the unrendered `error`. */
  lemma SearchErrorInvisible(s: State, courseId: string, lookup: LookupResult)
    requires Inv(s) && s.search.AwaitUser? && AfterLookup(lookup).LookupFailed?
    ensures var r := Step(s, courseId, UserLoaded(lookup)).0;
      && Alerts(r) == Alerts(s) && r.user.None?
      && r.error == Some(AfterLookup(lookup).error)
  {
  }

  /** With no stored token the request still carries an Authorization
      header, "Bearer null". */
  lemma MissingTokenSendsNull(s: State, courseId: string)
    requires EnrollEnabled(s)
    ensures Step(s, courseId, EnrollClicked(None)).1[0].authorization == Some("Bearer null")
  {
  }

  /** Every enrollment request carries the shown person's trimmed CUIL and the
      form's course, and is never sent while another one is in flight; the
      enrolled flag is not consulted. */
  lemma PostOnlyForShown(s: State, courseId: string, e: Event)
    requires Inv(s)
    ensures forall c :: c in Step(s, courseId, e).1 && c.PostEnrollment? ==>
      && EnrollShown(s) && !s.enrolling
      && c.body == EnrollBody(courseId, s.user.value)
  {
  }

  /** Searching stays possible while an enrollment is being saved. When the
      save succeeds first it empties the input, yet the search goes on with
      the CUIL it started with: its enrollment check asks about that CUIL
      while the box is blank, and the person it finds is then shown under the
      success message of the earlier enrollment. */
  lemma SaveOvertakesSearch(s: State, courseId: string, token: Option<string>, text: string,
                            v: User, enrolled: bool)
    requires Inv(s) && EnrollEnabled(s) && SearchEnabled(s)
    ensures var s1 := Step(s, courseId, EnrollClicked(token)).0;
      var s2 := Step(s1, courseId, SearchSubmitted).0;
      var s3 := Step(s2, courseId, EnrollSettled(FetchResponse(200, text))).0;
      var r4 := Step(s3, courseId, UserLoaded(LookupData(Some(v))));
      var s5 := Step(r4.0, courseId, CheckLoaded(CheckData(enrolled))).0;
      && SearchEnabled(s1)
      && s3.cuil == "" && s3.isLoading && s3.successMsg == MsgExito
      && r4.1 == [CheckCall(courseId, s.cuil)] && r4.0.cuil == ""
      && s5.user == Some(v) && s5.isEnrolled == enrolled && s5.successMsg == MsgExito
  {
    assert ValidCuil(s.cuil);
  }
}
