/** What the two registration forms share: the CUIL input filter and
    validator, the answers of the calls a search makes, the calls a form can
    issue, and the two steps of a search (find the person, then ask whether
    they are already enrolled). */
module Registration {
  import opened Common
  import opened JsonValues
  import opened Types

  /** A CUIL has exactly this many digits. */
  const CUIL_LENGTH: nat := 11

  const MsgFormatoCuil := "El CUIL debe contener 11 dígitos numéricos"
  const MsgUsuarioNoEncontrado := "No se encontró un usuario con ese CUIL"
  const MsgErrorBusqueda := "Error al buscar el usuario"

  /** `/^\d{11}$/.test(s)`: eleven ASCII digits and nothing else. */
  predicate ValidCuil(s: string) {
    |s| == CUIL_LENGTH && AllDigits(s)
  }

  /** The CUIL input: the browser keeps at most 11 characters (`maxLength`)
      and the change handler deletes every non-digit. */
  function Sanitise(raw: string): (r: string)
    ensures |r| <= CUIL_LENGTH && AllDigits(r)
    ensures forall c :: c in r <==> c in Take(raw, CUIL_LENGTH) && IsDigit(c)
  {
    Filter(Take(raw, CUIL_LENGTH), IsDigit)
  }

  /** Typing one character at the end of a short input: a digit is appended
      to the filtered value, anything else leaves it as it was. */
  lemma SanitiseTyped(raw: string, c: char)
    requires |raw| < CUIL_LENGTH
    ensures IsDigit(c) ==> Sanitise(raw + [c]) == Sanitise(raw) + [c]
    ensures !IsDigit(c) ==> Sanitise(raw + [c]) == Sanitise(raw)
  {
    FilterAppend(raw, [c], IsDigit);
    assert Filter([c], IsDigit) == (if IsDigit(c) then [c] else []) by {
      assert [c][1..] == [];
    }
  }

  /** Once 11 characters are in the box, whatever is typed or pasted after
      them is cut off before the filter sees it. */
  lemma SanitiseFullIgnoresMore(raw: string, more: string)
    requires |raw| >= CUIL_LENGTH
    ensures Sanitise(raw + more) == Sanitise(raw)
  {
    assert Take(raw + more, CUIL_LENGTH) == (raw + more)[..CUIL_LENGTH] == raw[..CUIL_LENGTH];
    assert Take(raw, CUIL_LENGTH) == raw[..CUIL_LENGTH];
  }

  /** A string the filter would produce passes through it unchanged; in
      particular the filter is idempotent. */
  lemma SanitiseKeepsDigits(s: string)
    requires |s| <= CUIL_LENGTH && AllDigits(s)
    ensures Sanitise(s) == s
  {
    FilterAll(s, IsDigit);
  }

  lemma SanitiseIdempotent(raw: string)
    ensures Sanitise(Sanitise(raw)) == Sanitise(raw)
  {
    SanitiseKeepsDigits(Sanitise(raw));
  }

  /** After filtering, the length test the Search button applies is the
      whole format test: a filtered input of length 11 is a valid CUIL. */
  lemma SanitisedValidIff(raw: string)
    ensures ValidCuil(Sanitise(raw)) <==> |Sanitise(raw)| == CUIL_LENGTH
  {
  }

  // ---------------------------------------------------------------------------
  // Call answers

  /** The answer of `getUserByCuil`: the returned data (`None` when falsy),
      or the message of the error it threw. */
  datatype LookupResult = LookupData(user: Option<User>) | LookupThrew(message: string)

  /** The answer of `checkEnrollment`: whether the person is enrolled, or the
      message of the error it threw. */
  datatype CheckResult = CheckData(enrolled: bool) | CheckThrew(message: string)

  /** The requests a form sends: the two lookups of a search, and the
      enrollment post with its Authorization header (if any) and body. */
  datatype Call =
    | GetUser(cuil: string)
    | CheckCall(courseId: string, cuil: string)
    | PostEnrollment(authorization: Option<string>, body: Json)

  // ---------------------------------------------------------------------------
  // The two steps of a search

  /** Where a form's search stands: nothing in flight, waiting for the
      person, or waiting for the enrollment check of the person found. The
      CUIL is the one the search was started with; the input box may have
      changed since. */
  datatype Search = NoSearch | AwaitUser(cuil: string) | AwaitCheck(cuil: string, found: User)

  /** Outcome of the first step: a person to check, or the message the
      `catch` block stores. */
  datatype LookupStep = LookupFailed(error: string) | LookupFound(user: User)

  /** Data that is not a user raises "not found"; a thrown error shows its
      own message, or the generic one when that is empty. */
  function AfterLookup(lookup: LookupResult): (r: LookupStep)
    ensures r.LookupFound? <==> lookup.LookupData? && lookup.user.Some?
    ensures r.LookupFound? ==> r.user == lookup.user.value
    ensures lookup == LookupData(None) ==> r == LookupFailed(MsgUsuarioNoEncontrado)
    ensures lookup.LookupThrew? ==> r.LookupFailed? && r.error != ""
    ensures lookup.LookupThrew? && lookup.message != "" ==> r.error == lookup.message
    ensures lookup == LookupThrew("") ==> r == LookupFailed(MsgErrorBusqueda)
  {
    match lookup
    case LookupThrew(m) => LookupFailed(OrElse(m, MsgErrorBusqueda))
    case LookupData(None) => LookupFailed(MsgUsuarioNoEncontrado)
    case LookupData(Some(u)) => LookupFound(u)
  }

  /** Outcome of the second step: the person is shown together with the
      enrolled flag, or the search fails. */
  datatype CheckStep = CheckFailed(error: string) | Shown(user: User, enrolled: bool)

  function AfterCheck(found: User, check: CheckResult): (r: CheckStep)
    ensures r.Shown? <==> check.CheckData?
    ensures r.Shown? ==> r.user == found && r.enrolled == check.enrolled
    ensures r.CheckFailed? ==> r.error != ""
    ensures r.CheckFailed? && check.message != "" ==> r.error == check.message
    ensures check == CheckThrew("") ==> r == CheckFailed(MsgErrorBusqueda)
  {
    match check
    case CheckThrew(m) => CheckFailed(OrElse(m, MsgErrorBusqueda))
    case CheckData(b) => Shown(found, b)
  }
}
