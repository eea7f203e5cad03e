/** The self-service registration form reached through a course's QR code, as
    a state machine. Each event is a user action or the settling of a request
    in flight. A search and an enrollment can be in flight at the same time:
    the Search button does not look at `isLoading`. */
module QrForm {
  import opened Common
  import opened JsonValues
  import opened Types
  import opened Registration
  import ClientApi

  const MsgYaInscripto := "Ya está inscripto"
  const MsgErrorInscripcion := "Error al realizar la inscripción"

  /** The component state, plus the requests in flight: the search's, and
      whether the enrollment post is awaited. */
  datatype State = State(
    cuil: string,
    user: Option<User>,
    isLoading: bool,
    isSearching: bool,
    isEnrolled: bool,
    error: Option<string>,
    success: bool,
    search: Search,
    enrolling: bool)

  const Initial := State("", None, false, false, false, None, false, NoSearch, false)

  /** How `createEnrollment` settled: fulfilled, or rejected with the HTTP
      status of the response (`None` when there was no response) and the
      error's message. */
  datatype EnrollResult = EnrollOk | EnrollFailed(status: Option<int>, message: string)

  datatype Event =
    | Typed(raw: string)
    | SearchClicked
    | UserLoaded(lookup: LookupResult)
    | CheckLoaded(check: CheckResult)
    | ConfirmClicked(token: Option<string>)
    | EnrollSettled(result: EnrollResult)

  /** The Search button is enabled. */
  predicate SearchEnabled(s: State) {
    !s.isSearching && |s.cuil| == CUIL_LENGTH && !s.success
  }

  /** The Confirm button is rendered. */
  predicate ConfirmShown(s: State) {
    s.user.Some? && !s.isEnrolled && !s.success
  }

  /** `handleCuilSearch` up to its first request: clear the person, the error
      and the enrolled flag, then check the format. A malformed CUIL stops
      here with no request. */
  function BeginSearch(s: State): (r: (State, seq<Call>))
    ensures r.0.user.None? && !r.0.isEnrolled && r.0.cuil == s.cuil && r.0.success == s.success
    ensures r.0.isLoading == s.isLoading && r.0.enrolling == s.enrolling
    ensures !ValidCuil(s.cuil) ==> r.1 == [] && r.0.error == Some(MsgFormatoCuil) && !r.0.isSearching
    ensures ValidCuil(s.cuil) ==> r.1 == [GetUser(s.cuil)] && r.0.error.None? && r.0.search == AwaitUser(s.cuil)
  {
    var cleared := s.(isSearching := true, error := None, user := None, isEnrolled := false);
    if !ValidCuil(s.cuil) then (cleared.(error := Some(MsgFormatoCuil), isSearching := false), [])
    else (cleared.(search := AwaitUser(s.cuil)), [GetUser(s.cuil)])
  }

  /** The Authorization header `createEnrollment` sends, after the
      interceptor. */
  function QrAuthorization(token: Option<string>): (a: Option<string>)
    ensures a.Some? <==> token.Some? && token.value != ""
    ensures a.Some? ==> a.value == "Bearer " + token.value
  {
    var headers := ClientApi.Intercept(true, token, map[]);
    if ClientApi.AUTHORIZATION in headers then Some(headers[ClientApi.AUTHORIZATION]) else None
  }

  /** The message the form shows when enrolling fails. */
  function EnrollError(status: Option<int>, message: string): (e: string)
    ensures status == Some(409) ==> e == MsgYaInscripto
    ensures status != Some(409) && message != "" ==> e == message
    ensures status != Some(409) && message == "" ==> e == MsgErrorInscripcion
  {
    if status == Some(409) then MsgYaInscripto else OrElse(message, MsgErrorInscripcion)
  }

  /** One event. A control that is disabled or not rendered does nothing; a
      response arrives only for a request in flight, and a search's responses
      are applied whatever happened to the form in between. */
  function Step(s: State, courseId: string, e: Event): (r: (State, seq<Call>))
    ensures s.success ==> r.0.success
    ensures r.0.success && !s.success ==> e == EnrollSettled(EnrollOk) && s.enrolling
    ensures r.0.user.Some? && s.user.None? ==>
      && s.search.AwaitCheck? && e.CheckLoaded? && e.check.CheckData?
      && r.0.user == Some(s.search.found) && r.0.isEnrolled == e.check.enrolled
  {
    match e
    case Typed(raw) =>
      if s.isSearching || s.success then (s, []) else (s.(cuil := Sanitise(raw)), [])
    case SearchClicked =>
      if !SearchEnabled(s) then (s, []) else BeginSearch(s)
    case UserLoaded(lookup) =>
      if !s.search.AwaitUser? then (s, [])
      else
        (match AfterLookup(lookup)
         case LookupFailed(msg) => (s.(error := Some(msg), isSearching := false, search := NoSearch), [])
         case LookupFound(u) =>
           (s.(search := AwaitCheck(s.search.cuil, u)), [CheckCall(courseId, s.search.cuil)]))
    case CheckLoaded(check) =>
      if !s.search.AwaitCheck? then (s, [])
      else
        (match AfterCheck(s.search.found, check)
         case CheckFailed(msg) => (s.(error := Some(msg), isSearching := false, search := NoSearch), [])
         case Shown(u, enrolled) =>
           (s.(isEnrolled := enrolled, user := Some(u), isSearching := false, search := NoSearch), []))
    case ConfirmClicked(token) =>
      if !ConfirmShown(s) || s.isLoading then (s, [])
      else
        (s.(isLoading := true, error := None, enrolling := true),
         [PostEnrollment(QrAuthorization(token), ClientApi.CreateEnrollmentBody(courseId, s.user.value.cuil))])
    case EnrollSettled(result) =>
      if !s.enrolling then (s, [])
      else
        var done := s.(isLoading := false, enrolling := false);
        match result
        case EnrollOk => (done.(success := true), [])
        case EnrollFailed(status, message) => (done.(error := Some(EnrollError(status, message))), [])
  }

  /** The states the form can reach: the input holds at most eleven digits,
      the busy flags match the requests in flight, a search runs on the CUIL
      in the (locked) input, a person is never shown while a search runs, and
      no enrollment is in flight once it has succeeded. */
  predicate Inv(s: State) {
    && |s.cuil| <= CUIL_LENGTH && AllDigits(s.cuil)
    && (s.isSearching <==> !s.search.NoSearch?)
    && (s.isLoading <==> s.enrolling)
    && (!s.search.NoSearch? ==> s.search.cuil == s.cuil && ValidCuil(s.cuil))
    && (s.user.Some? ==> !s.isSearching)
    && (s.isSearching ==> !s.isEnrolled && s.user.None?)
    && (s.success ==> !s.enrolling)
  }

  lemma InitialInv()
    ensures Inv(Initial)
  {
  }

  /** Every event keeps the invariant. */
  lemma StepKeepsInv(s: State, courseId: string, e: Event)
    requires Inv(s)
    ensures Inv(Step(s, courseId, e).0)
  {
  }

  /** The state after a series of events, and every request sent on the way. */
  function Run(s: State, courseId: string, events: seq<Event>): (r: (State, seq<Call>))
    decreases |events|
  {
    if |events| == 0 then (s, [])
    else
      var step := Step(s, courseId, events[0]);
      var rest := Run(step.0, courseId, events[1..]);
      (rest.0, step.1 + rest.1)
  }

  /** Every series of events keeps the invariant. */
  lemma {:induction false} RunKeepsInv(s: State, courseId: string, events: seq<Event>)
    requires Inv(s)
    ensures Inv(Run(s, courseId, events).0)
    decreases |events|
  {
    if |events| > 0 {
      StepKeepsInv(s, courseId, events[0]);
      RunKeepsInv(Step(s, courseId, events[0]).0, courseId, events[1..]);
    }
  }

  /** Whenever the Search button can be pressed, the CUIL already has the
      right format: through the UI the format error is never raised. */
  lemma EnabledSearchIsValid(s: State)
    requires Inv(s) && SearchEnabled(s)
    ensures ValidCuil(s.cuil)
  {
  }

  /** Once the enrollment succeeded, no user action changes the form again;
      only the responses of a search started before the success still do. */
  lemma SuccessIsFinal(s: State, courseId: string, e: Event)
    requires Inv(s) && s.success
    ensures !e.UserLoaded? && !e.CheckLoaded? ==> Step(s, courseId, e) == (s, [])
    ensures !s.isSearching ==> Step(s, courseId, e) == (s, [])
  {
  }

  /** Every enrollment request carries the shown person's CUIL and the
      form's course, is only sent for a person not already enrolled, and
      never while another one is in flight. */
  lemma PostOnlyForShownUnenrolled(s: State, courseId: string, e: Event)
    requires Inv(s)
    ensures forall c :: c in Step(s, courseId, e).1 && c.PostEnrollment? ==>
      && ConfirmShown(s) && !s.enrolling
      && c.body == ClientApi.CreateEnrollmentBody(courseId, s.user.value.cuil)
  {
  }

  /** A well-formed search that finds an enrolled person shows them, with the
      enrolled notice and without the Confirm button. */
  lemma EnrolledPersonHasNoConfirm(s: State, courseId: string, u: User)
    requires Inv(s) && SearchEnabled(s)
    ensures var r := Run(s, courseId, [SearchClicked, UserLoaded(LookupData(Some(u))), CheckLoaded(CheckData(true))]);
      && r.0.user == Some(u) && r.0.isEnrolled && !ConfirmShown(r.0)
      && r.1 == [GetUser(s.cuil), CheckCall(courseId, s.cuil)]
  {
    EnabledSearchIsValid(s);
    var events := [SearchClicked, UserLoaded(LookupData(Some(u))), CheckLoaded(CheckData(true))];
    var s1 := BeginSearch(s).0;
    var s2 := s1.(search := AwaitCheck(s.cuil, u));
    var s3 := s2.(isEnrolled := true, user := Some(u), isSearching := false, search := NoSearch);
    var c1, c2, none: seq<Call> := [GetUser(s.cuil)], [CheckCall(courseId, s.cuil)], [];
    assert Step(s, courseId, events[0]) == (s1, c1);
    assert Step(s1, courseId, events[1]) == (s2, c2);
    assert Step(s2, courseId, events[2]) == (s3, none);
    assert events[1..][1..][1..] == [];
    assert none + none == none && c2 + none == c2 && c1 + c2 == [GetUser(s.cuil), CheckCall(courseId, s.cuil)];
    assert Run(s2, courseId, events[1..][1..]) == (s3, none);
    assert Run(s1, courseId, events[1..]) == (s3, c2);
  }

  /** Search stays enabled while the enrollment is being saved. A search
      started then, and overtaken by the enrollment's success, leaves the form
      in success with no person on screen (the success notice is drawn inside
      the person's card, so nothing is shown) and the search still running. */
  lemma SearchDuringEnrollment(s: State, courseId: string, token: Option<string>)
    requires Inv(s) && ConfirmShown(s) && !s.isLoading && |s.cuil| == CUIL_LENGTH
    ensures var s1 := Step(s, courseId, ConfirmClicked(token)).0;
      var s2 := Step(s1, courseId, SearchClicked).0;
      var s3 := Step(s2, courseId, EnrollSettled(EnrollOk)).0;
      && SearchEnabled(s1)
      && s3.success && s3.user.None? && s3.isSearching && s3.search == AwaitUser(s.cuil)
  {
  }

  /** When that search then completes, its person is shown beside the success
      notice, whoever they are and whatever their enrolled flag. */
  lemma SearchCompletesAfterSuccess(s: State, courseId: string, v: User, enrolled: bool)
    requires Inv(s) && s.success && s.search.AwaitUser?
    ensures var s1 := Step(s, courseId, UserLoaded(LookupData(Some(v)))).0;
      var s2 := Step(s1, courseId, CheckLoaded(CheckData(enrolled))).0;
      && s2.success && s2.user == Some(v) && s2.isEnrolled == enrolled && !s2.isSearching
  {
  }
}
