/** The course creation form: its validator, the per-field edit handler, and
    the submit handler with its outcomes. Rendering, toasts and the capacity
    input's number parsing are left out; the router's destination is kept. */
module CourseForm {
  import opened Common
  import opened Types
  import CursoController
  import ClientApi

  const MsgTituloObligatorio := "El nombre del curso es obligatorio"
  const MsgTituloCorto := "El nombre del curso debe tener al menos 3 caracteres"
  const MsgInicioObligatorio := "La fecha de inicio es obligatoria"
  const MsgFinObligatorio := "La fecha de fin es obligatoria"
  const MsgFinAnterior := "La fecha de fin debe ser posterior a la de inicio"
  const MsgErrorInesperado := "Error inesperado"

  /** The shortest title the form accepts, after trimming. */
  const MIN_TITLE: nat := 3

  datatype Field = Title | StartDate | EndDate | LocationField | Description | Capacity

  /** The form's values. */
  datatype FormData = FormData(
    title: string,
    startDate: string,
    endDate: string,
    location: Location,
    description: string,
    capacity: int)

  const InitialForm := FormData("", "", "", Presencial, "", 20)

  /** The error object: a key per field that failed, holding its message; a
      key may hold `undefined` (`None`). */
  type Errors = map<Field, Option<string>>

  /** The title's error, if any. */
  function TitleError(title: string): (e: Option<string>)
    ensures e.None? <==> |Trim(title)| >= MIN_TITLE
    ensures |Trim(title)| == 0 ==> e == Some(MsgTituloObligatorio)
    ensures 0 < |Trim(title)| < MIN_TITLE ==> e == Some(MsgTituloCorto)
  {
    var t := Trim(title);
    if |t| == 0 then Some(MsgTituloObligatorio)
    else if |t| < MIN_TITLE then Some(MsgTituloCorto)
    else None
  }

  /** The end date's error, if any: missing, or before the start date in
      string order. When both dates are present the order check wins. */
  function EndDateError(startDate: string, endDate: string): (e: Option<string>)
    ensures e.None? <==> endDate != "" && !(startDate != "" && LexLess(endDate, startDate))
    ensures endDate == "" ==> e == Some(MsgFinObligatorio)
    ensures e.Some? && endDate != "" ==> e == Some(MsgFinAnterior)
  {
    if startDate != "" && endDate != "" && LexLess(endDate, startDate) then Some(MsgFinAnterior)
    else if endDate == "" then Some(MsgFinObligatorio)
    else None
  }

  /** `validateForm`: the error object it builds. */
  function Validate(f: FormData): (errors: Errors)
    ensures Title in errors <==> |Trim(f.title)| < MIN_TITLE
    ensures Title in errors ==> errors[Title] == TitleError(f.title)
    ensures StartDate in errors <==> f.startDate == ""
    ensures StartDate in errors ==> errors[StartDate] == Some(MsgInicioObligatorio)
    ensures EndDate in errors <==> EndDateError(f.startDate, f.endDate).Some?
    ensures EndDate in errors ==> errors[EndDate] == EndDateError(f.startDate, f.endDate)
    ensures Capacity in errors <==> f.capacity <= 0
    ensures Capacity in errors ==> errors[Capacity].None?
    ensures LocationField !in errors && Description !in errors
  {
    var e0: Errors := map[];
    var e1 := if TitleError(f.title).Some? then e0[Title := TitleError(f.title)] else e0;
    var e2 := if f.startDate == "" then e1[StartDate := Some(MsgInicioObligatorio)] else e1;
    var e3 := if EndDateError(f.startDate, f.endDate).Some? then e2[EndDate := EndDateError(f.startDate, f.endDate)] else e2;
    if f.capacity <= 0 then e3[Capacity := None] else e3
  }

  /** The form is valid when the error object has no keys at all, so a
      capacity key holding `undefined` still blocks it. */
  predicate IsValid(f: FormData) {
    |Validate(f).Keys| == 0
  }

  /** The form passes exactly when the trimmed title has at least three
      characters, both dates are given, the end date does not sort before
      the start date, and the capacity is positive. */
  lemma ValidIff(f: FormData)
    ensures IsValid(f) <==>
      && |Trim(f.title)| >= MIN_TITLE
      && f.startDate != "" && f.endDate != ""
      && !LexLess(f.endDate, f.startDate)
      && f.capacity > 0
  {
    var e := Validate(f);
    if |Trim(f.title)| < MIN_TITLE { assert Title in e.Keys; }
    if f.startDate == "" { assert StartDate in e.Keys; }
    if EndDateError(f.startDate, f.endDate).Some? { assert EndDate in e.Keys; }
    if f.capacity <= 0 { assert Capacity in e.Keys; }
  }

  /** A course may end on the day it starts. */
  lemma SameDayAccepted(f: FormData)
    requires |Trim(f.title)| >= MIN_TITLE && f.startDate != "" && f.capacity > 0
    ensures IsValid(f.(endDate := f.startDate))
  {
    LexLessIrreflexive(f.startDate);
    ValidIff(f.(endDate := f.startDate));
  }

  /** The initial form is not valid: title and both dates are missing. */
  lemma InitialFormInvalid()
    ensures InitialForm.capacity == 20 && InitialForm.location == Presencial
    ensures Validate(InitialForm).Keys == {Title, StartDate, EndDate}
  {
    var e := Validate(InitialForm);
    assert Title in e && StartDate in e && EndDate in e;
    assert Capacity !in e && LocationField !in e && Description !in e;
    KeysOfDateAndTitleErrors(e);
  }

  /** An error object with exactly the title and date keys. */
  lemma KeysOfDateAndTitleErrors(e: Errors)
    requires Title in e && StartDate in e && EndDate in e
    requires Capacity !in e && LocationField !in e && Description !in e
    ensures e.Keys == {Title, StartDate, EndDate}
  {
    forall k: Field ensures k in e.Keys <==> k in {Title, StartDate, EndDate} {
      match k
      case Title =>
      case StartDate =>
      case EndDate =>
      case LocationField =>
      case Description =>
      case Capacity =>
    }
  }

  // ---------------------------------------------------------------------------
  // Editing

  /** A change to one field, with its new value. */
  datatype Edit =
    | SetTitle(title: string)
    | SetStartDate(startDate: string)
    | SetEndDate(endDate: string)
    | SetLocation(location: Location)
    | SetDescription(description: string)
    | SetCapacity(capacity: int)

  function FieldOf(e: Edit): Field {
    match e
    case SetTitle(_) => Title
    case SetStartDate(_) => StartDate
    case SetEndDate(_) => EndDate
    case SetLocation(_) => LocationField
    case SetDescription(_) => Description
    case SetCapacity(_) => Capacity
  }

  /** The value a field holds, as a comparable datum. */
  datatype Value = Text(s: string) | Loc(l: Location) | Num(n: int)

  function ValueOf(f: FormData, field: Field): Value {
    match field
    case Title => Text(f.title)
    case StartDate => Text(f.startDate)
    case EndDate => Text(f.endDate)
    case LocationField => Loc(f.location)
    case Description => Text(f.description)
    case Capacity => Num(f.capacity)
  }

  function NewValue(e: Edit): Value {
    match e
    case SetTitle(t) => Text(t)
    case SetStartDate(d) => Text(d)
    case SetEndDate(d) => Text(d)
    case SetLocation(l) => Loc(l)
    case SetDescription(d) => Text(d)
    case SetCapacity(c) => Num(c)
  }

  /** `handleInputChange`: store the new value; if the field's error is a
      non-empty message, replace it with `undefined`. */
  function HandleInputChange(f: FormData, errors: Errors, e: Edit): (r: (FormData, Errors))
    ensures ValueOf(r.0, FieldOf(e)) == NewValue(e)
    ensures forall g :: g != FieldOf(e) ==> ValueOf(r.0, g) == ValueOf(f, g)
    ensures r.1.Keys == errors.Keys
    ensures forall g :: g in errors && g != FieldOf(e) ==> r.1[g] == errors[g]
    ensures FieldOf(e) in errors ==> r.1[FieldOf(e)] == (if TruthyError(errors[FieldOf(e)]) then None else errors[FieldOf(e)])
  {
    var f' := match e
      case SetTitle(t) => f.(title := t)
      case SetStartDate(d) => f.(startDate := d)
      case SetEndDate(d) => f.(endDate := d)
      case SetLocation(l) => f.(location := l)
      case SetDescription(d) => f.(description := d)
      case SetCapacity(c) => f.(capacity := c);
    var field := FieldOf(e);
    if field in errors && TruthyError(errors[field]) then (f', errors[field := None]) else (f', errors)
  }

  /** `errors[field]` is truthy: present and a non-empty message. */
  predicate TruthyError(e: Option<string>) {
    e.Some? && e.value != ""
  }

  /** After an edit the field shows no error; every other field keeps its
      value and its error. */
  lemma EditClearsOnlyItsError(f: FormData, errors: Errors, e: Edit)
    ensures var r := HandleInputChange(f, errors, e);
      && (FieldOf(e) in r.1 ==> !TruthyError(r.1[FieldOf(e)]))
      && (forall g :: g != FieldOf(e) ==> ValueOf(r.0, g) == ValueOf(f, g) && (g in r.1 <==> g in errors))
  {
  }

  // ---------------------------------------------------------------------------
  // Submitting

  /** How `createCourse` settled: fulfilled, or rejected with the response's
      status and its `error` field (`None` when absent). */
  datatype CreateResult = CreateOk | CreateFailed(status: Option<int>, error: Option<string>)

  /** What submitting did: the errors shown, the request sent (if any), the
      storage afterwards, where the router went, and the error notice. */
  datatype SubmitOutcome = SubmitOutcome(
    errors: Errors,
    sent: Option<CursoController.CursoInput>,
    storage: map<string, string>,
    navigate: Option<string>,
    notice: Option<string>)

  /** The session keys a 401 removes. */
  const SESSION_KEYS: set<string> := {"token", "rol", "usuario"}

  /** The course form's values as `createCourse` receives them. */
  function Values(f: FormData): CourseFormValues {
    CourseFormValues(f.title, f.startDate, f.endDate, f.location, Some(f.description), f.capacity)
  }

  /** `handleSubmit`: an invalid form only shows its errors; a valid one
      clears them and sends the course, then goes to the course list on
      success, to the login page with the session removed on a 401, or stays
      with the backend's error (or a generic one) otherwise. */
  function HandleSubmit(f: FormData, storage: map<string, string>, result: CreateResult): (r: SubmitOutcome)
    ensures !IsValid(f) ==> r == SubmitOutcome(Validate(f), None, storage, None, None)
    ensures IsValid(f) ==> r.sent == Some(ClientApi.CreateCourseBody(ClientApi.CourseData(Values(f), None, None)))
    ensures IsValid(f) ==> r.errors == map[]
    ensures IsValid(f) && result.CreateOk? ==> r.navigate == Some("/cursos") && r.storage == storage && r.notice.None?
    ensures IsValid(f) && result.CreateFailed? && result.status == Some(401) ==>
      r.navigate == Some("/login") && r.storage == storage - SESSION_KEYS && r.notice.None?
    ensures IsValid(f) && result.CreateFailed? && result.status != Some(401) ==>
      r.navigate.None? && r.storage == storage && r.notice.Some? && r.notice.value != ""
    ensures IsValid(f) && result.CreateFailed? && result.status != Some(401) ==>
      (result.error.Some? && result.error.value != "" ==> r.notice == Some(result.error.value))
    ensures IsValid(f) && result.CreateFailed? && result.status != Some(401) ==>
      (result.error.None? || result.error.value == "" ==> r.notice == Some(MsgErrorInesperado))
  {
    if !IsValid(f) then SubmitOutcome(Validate(f), None, storage, None, None)
    else
      var sent := Some(ClientApi.CreateCourseBody(ClientApi.CourseData(Values(f), None, None)));
      match result
      case CreateOk => SubmitOutcome(map[], sent, storage, Some("/cursos"), None)
      case CreateFailed(status, error) =>
        if status == Some(401) then SubmitOutcome(map[], sent, storage - SESSION_KEYS, Some("/login"), None)
        else
          var message := if error.Some? then OrElse(error.value, MsgErrorInesperado) else MsgErrorInesperado;
          SubmitOutcome(map[], sent, storage, None, Some(message))
  }

  /** The form never sends a duration, so every request it makes carries a
      duration of zero minutes and the "presencial" modality. */
  lemma SubmittedCourseHasNoDuration(f: FormData, storage: map<string, string>, result: CreateResult)
    requires IsValid(f)
    ensures var sent := HandleSubmit(f, storage, result).sent.value;
      sent.duracionMin == 0 && sent.modalidad == "presencial"
  {
  }
}
