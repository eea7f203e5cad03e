/** The client's stand-in API: an in-memory store of courses, users and
    enrollments with the operations the pages call. Every call awaits a fixed
    delay first; the delay is left out, so each call is one step on the store. */
module MockApi {
  import opened Common
  import opened Types

  /** The three module-level collections: the course list, the users keyed by
      CUIL, and the enrollment list, all in insertion order. */
  datatype Store = Store(courses: seq<Course>, users: map<string, User>, enrollments: seq<Enrollment>)

  function InitialStore(): Store {
    Store(
      [ Course("1", "Introducción a la Programación", "Curso básico de programación para principiantes",
               "2024-06-01", "2024-07-30", 30, 15, Presencial),
        Course("2", "Desarrollo Web Frontend", "HTML, CSS y JavaScript para crear sitios web interactivos",
               "2024-06-15", "2024-08-15", 25, 10, Virtual),
        Course("3", "Bases de Datos SQL", "Fundamentos de bases de datos relacionales y SQL",
               "2024-07-01", "2024-08-30", 20, 8, Presencial),
        Course("4", "Desarrollo de Aplicaciones Móviles", "Creación de apps para iOS y Android con React Native",
               "2024-07-15", "2024-09-15", 15, 5, Virtual) ],
      map[
        "20123456789" := User("20123456789", "Juan", "Pérez", Some("juan.perez@example.com"), Some("1123456789")),
        "27987654321" := User("27987654321", "María", "González", Some("maria.gonzalez@example.com"), Some("1187654321")),
        "20456789012" := User("20456789012", "Carlos", "Rodríguez", Some("carlos.rodriguez@example.com"), Some("1145678901")),
        "27345678901" := User("27345678901", "Laura", "Fernández", Some("laura.fernandez@example.com"), Some("1134567890"))],
      [ Enrollment("1", "1", "20123456789", "2024-05-15"),
        Enrollment("2", "2", "27987654321", "2024-05-16"),
        Enrollment("3", "1", "20456789012", "2024-05-17"),
        Enrollment("4", "3", "27345678901", "2024-05-18"),
        Enrollment("5", "3", "20123456789", "2024-05-19") ])
  }

  // ---------------------------------------------------------------------------
  // Queries

  /** `getCourses`: a copy of the course list, in order. */
  function GetCourses(store: Store): (r: seq<Course>)
    ensures |r| == |store.courses|
    ensures forall i :: 0 <= i < |r| ==> r[i] == store.courses[i]
  {
    store.courses[..]
  }

  /** `getCourse`: the first course with that id, or null. */
  function GetCourse(store: Store, id: string): (r: Option<Course>)
    ensures r.None? <==> forall i :: 0 <= i < |store.courses| ==> store.courses[i].id != id
    ensures r.Some? ==> r.value.id == id
    ensures r.Some? ==> exists i :: (0 <= i < |store.courses| && store.courses[i] == r.value
      && forall j :: 0 <= j < i ==> store.courses[j].id != id)
  {
    match FindFirst(store.courses, (c: Course) => c.id == id)
    case None => None
    case Some(i) => Some(store.courses[i])
  }

  /** `getUserByCuil`: the user stored under that CUIL, or null. A stored
      user is an object, so `|| null` never replaces it. */
  function GetUserByCuil(store: Store, cuil: string): (r: Option<User>)
    ensures r.Some? <==> cuil in store.users
    ensures r.Some? ==> r.value == store.users[cuil]
  {
    if cuil in store.users then Some(store.users[cuil]) else None
  }

  /** Some enrollment links the course to the CUIL. */
  predicate Enrolled(store: Store, courseId: string, cuil: string) {
    exists i :: 0 <= i < |store.enrollments| && store.enrollments[i].courseId == courseId
      && store.enrollments[i].userId == cuil
  }

  /** `checkEnrollment`: whether some enrollment matches both the course and
      the CUIL, found by a scan that stops at the first match. */
  function CheckEnrollment(store: Store, courseId: string, cuil: string): (r: bool)
    ensures r <==> Enrolled(store, courseId, cuil)
  {
    FindFirst(store.enrollments, (e: Enrollment) => e.courseId == courseId && e.userId == cuil).Some?
  }

  // ---------------------------------------------------------------------------
  // Updates

  const MsgAlreadyEnrolled := "El usuario ya está inscrito en este curso"

  datatype EnrollResult = EnrollThrew(message: string) | EnrollCreated(enrollment: Enrollment)

  /** `createEnrollment`: throw when the pair is already enrolled, otherwise
      append an enrollment numbered one past the list's length. `today` is the
      date part of the current ISO timestamp. Neither the course nor the user
      is looked up. */
  function CreateEnrollment(store: Store, courseId: string, cuil: string, today: string): (r: (EnrollResult, Store))
    ensures r.0.EnrollThrew? <==> Enrolled(store, courseId, cuil)
    ensures r.0.EnrollThrew? ==> r.0.message == MsgAlreadyEnrolled && r.1 == store
    ensures r.0.EnrollCreated? ==>
      && r.0.enrollment == Enrollment(NatToString(|store.enrollments| + 1), courseId, cuil, today)
      && r.1 == store.(enrollments := store.enrollments + [r.0.enrollment])
  {
    if CheckEnrollment(store, courseId, cuil) then (EnrollThrew(MsgAlreadyEnrolled), store)
    else
      var e := Enrollment(NatToString(|store.enrollments| + 1), courseId, cuil, today);
      (EnrollCreated(e), store.(enrollments := store.enrollments + [e]))
  }

  /** `createCourse`: append a course numbered one past the list's length,
      with nobody enrolled and an empty description when none was given. */
  function CreateCourse(store: Store, data: CourseFormValues): (r: (Course, Store))
    ensures r.0.id == NatToString(|store.courses| + 1)
    ensures r.0.enrolled == 0
    ensures r.0.title == data.title && r.0.startDate == data.startDate && r.0.endDate == data.endDate
    ensures r.0.capacity == data.capacity && r.0.location == data.location
    ensures r.0.description == (if data.description.Some? then data.description.value else "")
    ensures r.1 == store.(courses := store.courses + [r.0])
  {
    var description := if data.description.Some? then OrElse(data.description.value, "") else "";
    var c := Course(NatToString(|store.courses| + 1), data.title, description,
                    data.startDate, data.endDate, data.capacity, 0, data.location);
    (c, store.(courses := store.courses + [c]))
  }

  // ---------------------------------------------------------------------------
  // Enrollment listings

  /** An enrollment together with its user and course. Entries whose user or
      course is missing are dropped from the listings, so both are present. */
  datatype EnrollmentWithUserData = WithData(enrollment: Enrollment, user: User, course: Course)

  /** The listing entry for one enrollment, if its user and course exist. */
  function Join(store: Store, e: Enrollment): (r: Option<EnrollmentWithUserData>)
    ensures r.Some? <==> e.userId in store.users && GetCourse(store, e.courseId).Some?
    ensures r.Some? ==> r.value.enrollment == e && r.value.user == store.users[e.userId]
    ensures r.Some? ==> Some(r.value.course) == GetCourse(store, e.courseId)
  {
    match GetUserByCuil(store, e.userId)
    case None => None
    case Some(u) =>
      match GetCourse(store, e.courseId)
      case None => None
      case Some(c) => Some(WithData(e, u, c))
  }

  /** An enrollment the listings keep: its user and course both exist. */
  predicate Joinable(store: Store, e: Enrollment) {
    Join(store, e).Some?
  }

  /** The `map` then `filter` of both listings: join every enrollment and drop
      the ones that do not join. The result is the joinable enrollments, in
      input order and each once, each joined with its user and course. */
  function JoinAll(store: Store, es: seq<Enrollment>): (r: seq<EnrollmentWithUserData>)
    ensures |r| <= |es|
    ensures forall i :: 0 <= i < |r| ==> r[i].enrollment in es && Join(store, r[i].enrollment) == Some(r[i])
    ensures |r| == |Filter(es, e => Joinable(store, e))|
    ensures forall i :: 0 <= i < |r| ==> Some(r[i]) == Join(store, Filter(es, e => Joinable(store, e))[i])
    decreases |es|
  {
    if |es| == 0 then []
    else
      var rest := JoinAll(store, es[1..]);
      match Join(store, es[0])
      case None => rest
      case Some(w) => [w] + rest
  }

  /** Listing a concatenation lists the first part, then the second. */
  lemma {:induction false} JoinAllAppend(store: Store, a: seq<Enrollment>, b: seq<Enrollment>)
    ensures JoinAll(store, a + b) == JoinAll(store, a) + JoinAll(store, b)
    decreases |a|
  {
    if |a| > 0 {
      assert (a + b)[0] == a[0];
      assert (a + b)[1..] == a[1..] + b;
      JoinAllAppend(store, a[1..], b);
    } else {
      assert a + b == b;
    }
  }

  /** A single enrollment lists as its joined entry, or as nothing. */
  lemma JoinAllSingle(store: Store, e: Enrollment)
    ensures JoinAll(store, [e]) == (if Joinable(store, e) then [Join(store, e).value] else [])
  {
    assert [e][1..] == [];
  }

  /** Every enrollment whose user and course exist is listed. */
  lemma {:induction false} JoinAllComplete(store: Store, es: seq<Enrollment>, e: Enrollment)
    requires e in es && Join(store, e).Some?
    ensures Join(store, e).value in JoinAll(store, es)
    decreases |es|
  {
    if es[0] != e {
      JoinAllComplete(store, es[1..], e);
    }
  }

  predicate InCourse(courseId: string, e: Enrollment) {
    e.courseId == courseId
  }

  predicate EntryInCourse(courseId: string, w: EnrollmentWithUserData) {
    w.enrollment.courseId == courseId
  }

  /** `getCourseEnrollments`: the course's enrollments, joined, in store
      order, one entry per stored enrollment of the course whose user and
      course exist. */
  function GetCourseEnrollments(store: Store, courseId: string): (r: seq<EnrollmentWithUserData>)
    ensures forall i :: 0 <= i < |r| ==> r[i].enrollment.courseId == courseId && r[i].course.id == courseId
    ensures |r| == |Filter(store.enrollments, e => InCourse(courseId, e) && Joinable(store, e))|
    ensures forall i :: 0 <= i < |r| ==>
      Some(r[i]) == Join(store, Filter(store.enrollments, e => InCourse(courseId, e) && Joinable(store, e))[i])
  {
    FilterFilter(store.enrollments, e => InCourse(courseId, e), e => Joinable(store, e),
                 e => InCourse(courseId, e) && Joinable(store, e));
    JoinAll(store, Filter(store.enrollments, e => InCourse(courseId, e)))
  }

  /** `getAllEnrollments`: every stored enrollment whose user and course
      exist, joined, in store order and each once. */
  function GetAllEnrollments(store: Store): (r: seq<EnrollmentWithUserData>)
    ensures forall i :: 0 <= i < |r| ==> r[i].enrollment in store.enrollments
    ensures |r| == |Filter(store.enrollments, e => Joinable(store, e))|
    ensures forall i :: 0 <= i < |r| ==> Some(r[i]) == Join(store, Filter(store.enrollments, e => Joinable(store, e))[i])
  {
    JoinAll(store, store.enrollments)
  }

  /** Joining then selecting a course is selecting then joining. */
  lemma {:induction false} JoinAllFilter(store: Store, es: seq<Enrollment>, courseId: string)
    ensures JoinAll(store, Filter(es, e => InCourse(courseId, e)))
         == Filter(JoinAll(store, es), w => EntryInCourse(courseId, w))
    decreases |es|
  {
    if |es| > 0 {
      JoinAllFilter(store, es[1..], courseId);
      var rest := JoinAll(store, es[1..]);
      if InCourse(courseId, es[0]) {
        assert Filter(es, e => InCourse(courseId, e)) == [es[0]] + Filter(es[1..], e => InCourse(courseId, e));
        assert ([es[0]] + Filter(es[1..], e => InCourse(courseId, e)))[1..] == Filter(es[1..], e => InCourse(courseId, e));
        match Join(store, es[0])
        case None =>
        case Some(w) =>
          assert ([w] + rest)[1..] == rest;
      } else {
        match Join(store, es[0])
        case None =>
        case Some(w) =>
          assert ([w] + rest)[1..] == rest;
      }
    }
  }

  /** One course's listing is the full listing restricted to that course, in
      the same order. */
  lemma CourseListingIsRestriction(store: Store, courseId: string)
    ensures GetCourseEnrollments(store, courseId)
         == Filter(GetAllEnrollments(store), w => EntryInCourse(courseId, w))
  {
    JoinAllFilter(store, store.enrollments, courseId);
  }

  // ---------------------------------------------------------------------------
  // Invariants of the store

  /** Ids are positions: the i-th course and the i-th enrollment are numbered
      i + 1, as the `length + 1` numbering produces when nothing is removed. */
  predicate SequentialIds(store: Store) {
    && (forall i :: 0 <= i < |store.courses| ==> store.courses[i].id == NatToString(i + 1))
    && (forall i :: 0 <= i < |store.enrollments| ==> store.enrollments[i].id == NatToString(i + 1))
  }

  /** At most one enrollment per (course, CUIL) pair. */
  predicate NoDuplicatePairs(store: Store) {
    forall i, j :: 0 <= i < j < |store.enrollments| ==>
      !(store.enrollments[i].courseId == store.enrollments[j].courseId
        && store.enrollments[i].userId == store.enrollments[j].userId)
  }

  predicate Inv(store: Store) {
    SequentialIds(store) && NoDuplicatePairs(store)
  }

  lemma InitialStoreInv()
    ensures Inv(InitialStore())
  {
    InitialIdsSequential();
    InitialPairsDistinct();
  }

  lemma InitialIdsSequential()
    ensures SequentialIds(InitialStore())
  {
    var s := InitialStore();
    assert NatToString(1) == "1" && NatToString(2) == "2" && NatToString(3) == "3";
    assert NatToString(4) == "4" && NatToString(5) == "5";
    forall i | 0 <= i < |s.courses| ensures s.courses[i].id == NatToString(i + 1) {
      if i == 0 {} else if i == 1 {} else if i == 2 {} else {}
    }
    forall i | 0 <= i < |s.enrollments| ensures s.enrollments[i].id == NatToString(i + 1) {
      if i == 0 {} else if i == 1 {} else if i == 2 {} else if i == 3 {} else {}
    }
  }

  lemma InitialPairsDistinct()
    ensures NoDuplicatePairs(InitialStore())
  {
    var e := InitialStore().enrollments;
    assert e[0].courseId[0] == '1' && e[1].courseId[0] == '2' && e[2].courseId[0] == '1';
    assert e[3].courseId[0] == '3' && e[4].courseId[0] == '3';
    assert e[0].userId[2] == '1' && e[2].userId[2] == '4';
    assert e[3].userId[2] == '3' && e[4].userId[2] == '1';
  }

  /** Sequential ids make every id unique. */
  lemma SequentialIdsUnique(store: Store, i: nat, j: nat)
    requires SequentialIds(store)
    requires i < j < |store.enrollments|
    ensures store.enrollments[i].id != store.enrollments[j].id
  {
  }

  /** Both updates keep the invariant. */
  lemma CreateEnrollmentKeepsInv(store: Store, courseId: string, cuil: string, today: string)
    requires Inv(store)
    ensures Inv(CreateEnrollment(store, courseId, cuil, today).1)
  {
  }

  lemma CreateCourseKeepsInv(store: Store, data: CourseFormValues)
    requires Inv(store)
    ensures Inv(CreateCourse(store, data).1)
  {
  }

  /** Whatever `createEnrollment` answers, afterwards exactly one enrollment
      holds the pair. */
  lemma EnrolledExactlyOnceAfterCreate(store: Store, courseId: string, cuil: string, today: string)
    requires Inv(store)
    ensures var s := CreateEnrollment(store, courseId, cuil, today).1;
      exists i :: 0 <= i < |s.enrollments| && s.enrollments[i].courseId == courseId && s.enrollments[i].userId == cuil
        && forall j :: 0 <= j < |s.enrollments| && s.enrollments[j].courseId == courseId && s.enrollments[j].userId == cuil ==> j == i
  {
    var s := CreateEnrollment(store, courseId, cuil, today).1;
    CreateEnrollmentKeepsInv(store, courseId, cuil, today);
    var i :| 0 <= i < |s.enrollments| && s.enrollments[i].courseId == courseId && s.enrollments[i].userId == cuil;
  }

  /** One enrollment attempt: course, CUIL and date. */
  datatype Attempt = Attempt(courseId: string, cuil: string, today: string)

  /** The store after a series of enrollment attempts, thrown ones included. */
  function AfterAttempts(store: Store, attempts: seq<Attempt>): (r: Store)
    ensures r.courses == store.courses && r.users == store.users
    ensures |r.enrollments| <= |store.enrollments| + |attempts|
    decreases |attempts|
  {
    if |attempts| == 0 then store
    else
      var a := attempts[0];
      AfterAttempts(CreateEnrollment(store, a.courseId, a.cuil, a.today).1, attempts[1..])
  }

  /** No series of attempts ever enrolls a pair twice, and the numbering stays
      sequential. */
  lemma {:induction false} AttemptsKeepInv(store: Store, attempts: seq<Attempt>)
    requires Inv(store)
    ensures Inv(AfterAttempts(store, attempts))
    decreases |attempts|
  {
    if |attempts| > 0 {
      var a := attempts[0];
      CreateEnrollmentKeepsInv(store, a.courseId, a.cuil, a.today);
      AttemptsKeepInv(CreateEnrollment(store, a.courseId, a.cuil, a.today).1, attempts[1..]);
    }
  }

  /** Enrollments are only ever added: a pair enrolled before a series of
      attempts is still enrolled after it. */
  lemma {:induction false} AttemptsKeepEnrolled(store: Store, attempts: seq<Attempt>, courseId: string, cuil: string)
    requires Enrolled(store, courseId, cuil)
    ensures Enrolled(AfterAttempts(store, attempts), courseId, cuil)
    decreases |attempts|
  {
    if |attempts| > 0 {
      var a := attempts[0];
      var next := CreateEnrollment(store, a.courseId, a.cuil, a.today).1;
      var i :| 0 <= i < |store.enrollments| && store.enrollments[i].courseId == courseId
        && store.enrollments[i].userId == cuil;
      assert next.enrollments[i] == store.enrollments[i];
      AttemptsKeepEnrolled(next, attempts[1..], courseId, cuil);
    }
  }

  /** Neither the course nor the user is checked: an unknown pair is
      enrolled, and the new entry is then missing from both listings. */
  lemma UnknownCourseEnrolledButUnlisted(today: string)
    ensures var r := CreateEnrollment(InitialStore(), "99", "20123456789", today);
      && r.0.EnrollCreated?
      && Join(r.1, r.0.enrollment).None?
  {
    var s := InitialStore();
    assert !Enrolled(s, "99", "20123456789");
    assert GetCourse(s, "99").None?;
  }
}
