# Course enrollment system — a Dafny model

This project models a small government course-enrollment application in
Dafny. It has three parts.

- **A Go backend** (gin and GORM). It lists and creates courses and deletes
  them from an in-memory catalogue. That catalogue can be loaded from a CSV
  file. It enrolls a person in a course after a fixed cascade of checks:
  - the request binds;
  - the person is found, in the database or else in the provincial registry (the "padrón");
  - the course exists;
  - the (course, CUIL) pair is not already enrolled.
- **A Next.js client.** Its HTTP layer talks to that backend. It has two
  registration forms:
  - a self-service form reached through a course's QR code;
  - an operator's form.

  It also has a course-creation form, and an enrollment list with Excel and
  CSV export.
- **A stand-alone mock API.** It keeps courses, users and enrollments in
  memory and rejects duplicate enrollments.

The model is functional:
- Records are immutable datatypes. Databases and stores are sequences and maps.
- Each handler is a pure function from its inputs to a tagged outcome and the
  next store. The forms are state machines with one transition function each.
- The forms record which requests are in flight: a search (with the CUIL it
  was started with) and an enrollment post, which can overlap. The settling
  of each request is an event of its own.

Module `EndToEnd` feeds what one side sends into the model of the other. It
proves five things about how the two halves fit together:
- The client queries `?cursoId=`, but the backend filters on `curso_id`. So
  the client's per-course listing is the whole table.
- The backend writes Go field names (`Cuil`), but the client looks for
  `cuil`. So the client's "already enrolled?" check always answers no. The
  QR form therefore offers Confirm even to an enrolled person.
- Both forms send `curso_id` as a JSON string, and the backend's `uint` field
  refuses it. So every enrollment made through either form is answered 400
  "CUIL y curso_id son requeridos". A repeated enrollment is answered 409
  only for a body that carries the course id as a number.
- The course form has no duration fields, so it sends zero minutes. The
  backend requires 15, so every course the form submits is refused with 400.
- The enrollment list's `?? PascalCase` fallback recovers every backend row
  exactly.

## Model

| member | source | states |
|---|---|---|
| `Models.FindCurso` | Backend/controllers/inscripcion_contoller.go:56-60 | `DB.First` by primary key finds a stored course with that id, or none exactly when no row has it |
| `Models.InscripcionJson` | Backend/models/inscripto.go:7-15 | an enrollment row is written with the Go field names as keys (no json tags), and only those seven keys |
| `Models.InscripcionesJson` | Backend/controllers/inscripcion_contoller.go:99 | the listing reply is an array with one encoded row per table row, in order |
| `InscripcionController.Bind` | Backend/controllers/inscripcion_contoller.go:19-30 | a request binds only with a non-empty CUIL and a non-zero course id that fits `uint` |
| `InscripcionController.BindRoundTrip` | Backend/controllers/inscripcion_contoller.go:19-30 | a well-formed request binds to itself; a body missing either field never binds |
| `InscripcionController.StringField` | Backend/controllers/inscripcion_contoller.go:20 | the `string` field takes a JSON string; absent or `null` keeps it empty; anything else is an error |
| `InscripcionController.UintField` | Backend/controllers/inscripcion_contoller.go:21 | the `uint` field takes only an integer in the 64-bit unsigned range; a string is an error |
| `InscripcionController.DecodeRequest` | Backend/controllers/inscripcion_contoller.go:26 | a string course id, or a body that is neither an object nor `null`, fails to decode; decoded fields are the body's own |
| `InscripcionController.BindJson` | Backend/controllers/inscripcion_contoller.go:19-30 | a body binds exactly when it has a non-empty string `cuil` and a numeric `curso_id` in 1..2^64-1, and binds to those |
| `InscripcionController.BindJsonRoundTrip` | Backend/controllers/inscripcion_contoller.go:19-30 | every well-formed request, written with a numeric course id, binds back to itself |
| `InscripcionController.StringCourseIdNeverBinds` | Backend/controllers/inscripcion_contoller.go:21-27 | a course id sent as a JSON string never binds |
| `InscripcionController.InscribirJson` | Backend/controllers/inscripcion_contoller.go:25-30 | an undecodable body gets 400 "CUIL y curso_id son requeridos" and changes nothing; an enrollment happens only for a numeric `curso_id` |
| `InscripcionController.ResolvePersona` | Backend/controllers/inscripcion_contoller.go:32-53 | the database row wins; otherwise a padrón person resolves, with its CUIL, first and last name and empty contact fields, exactly when those three are non-empty; "not found" exactly when both sources miss |
| `InscripcionController.PadronPersonEnrolled` | Backend/controllers/inscripcion_contoller.go:32-84 | a person only the padrón knows, complete, is enrolled in an existing course under the padrón's CUIL and names |
| `InscripcionController.InscribirPersona` | Backend/controllers/inscripcion_contoller.go:25-85 | every refusal leaves the database unchanged with status 400/404/409/500; a success appends exactly one row carrying the requested course id, that course's name and the stamp |
| `InscripcionController.MissingFieldsRejectedFirst` | Backend/controllers/inscripcion_contoller.go:26-30 | a body without CUIL or course id gets 400 whatever the database and padrón hold |
| `InscripcionController.CascadeOrder` | Backend/controllers/inscripcion_contoller.go:33-67 | padrón miss gives 404, incomplete padrón data 400, unknown course 404 (only after the person), existing pair 409 (only after the course), each with no change |
| `InscripcionController.EnrolledIff` | Backend/controllers/inscripcion_contoller.go:69-84 | a row is inserted exactly when every check passes and the insert succeeds; it carries the resolved person's CUIL and names |
| `InscripcionController.InscribirPreservesUniqueness` | Backend/controllers/inscripcion_contoller.go:62-76 | for one handler call applied on its own, with lookups that never fail, at most one row per (course, CUIL) remains whenever the resolved person's CUIL is the requested one |
| `InscripcionController.DatabasePersonResolvesToRequest` | Backend/controllers/inscripcion_contoller.go:34 | with keys compared exactly, a person found in the database under its primary key always carries the requested CUIL |
| `InscripcionController.PadronCuilMismatchDuplicates` | Backend/controllers/inscripcion_contoller.go:64-72 | the duplicate test uses the requested CUIL and the insert the resolved one: a padrón answer with another CUIL creates a duplicate pair |
| `InscripcionController.SecondAttemptConflicts` | Backend/controllers/inscripcion_contoller.go:62-67 | repeating a successful request answers 409 and leaves the table as the first request left it |
| `InscripcionController.QueryParam` | Backend/controllers/inscripcion_contoller.go:89 | a present key reads as its first value; an absent one as the empty string |
| `InscripcionController.ObtenerInscritos` | Backend/controllers/inscripcion_contoller.go:88-99 | an empty `curso_id` returns every row; otherwise exactly the rows whose course id prints as the parameter |
| `InscripcionController.ObtenerInscritosKeepsOrder` | Backend/controllers/inscripcion_contoller.go:91-95 | the listing keeps table order: rows added later are listed after the earlier ones |
| `InscripcionController.ObtenerInscritosByCourse` | Backend/controllers/inscripcion_contoller.go:92-93 | filtering by a printed course id yields only that course's rows, as many as the table has |
| `CursoController.ObtenerCursos` | Backend/controllers/curso_controller.go:12-35 | one entry per stored course, in order, each field copied under the client's key name |
| `CursoController.CrearCurso` | Backend/controllers/curso_controller.go:37-80 | a refusal leaves the database unchanged; a created course has passed every field check, has both dates parsed, copies the input and is appended with the next id |
| `CursoController.CrearCursoAcceptsIff` | Backend/controllers/curso_controller.go:47-79 | a course is created exactly when the body decodes, the field checks pass, both dates parse and the insert succeeds |
| `CursoController.ShortOrEmptyCourseRejected` | Backend/controllers/curso_controller.go:51-54 | a missing name or date, a capacity not above 0, or a duration under 15 minutes gives 400 with the combined message, and nothing is stored |
| `CursoController.BadEndDateRejected` | Backend/controllers/curso_controller.go:55-63 | with the fields present and a valid start date, an unparsable end date gives 400 "Fecha de fin inválida" and nothing is stored |
| `CursoController.StartDateCheckedFirst` | Backend/controllers/curso_controller.go:55-64 | a bad start date is reported before the end date is looked at |
| `CursoController.ReversedDatesAccepted` | Backend/controllers/curso_controller.go:51-73 | no order between the dates is enforced: a course ending before it starts is created |
| `CursoController.ParseUint` | Backend/controllers/curso_controller.go:84 | a range error exactly when the leading digits overflow 64 bits (even before a later non-digit); otherwise a syntax error exactly for an empty or non-digit id; a valid id parses to its value |
| `CursoController.ScanUintReads` | Backend/controllers/curso_controller.go:84 | the left-to-right scan from an accepted digit prefix ends in the verdict of the whole string: range error, syntax error or value |
| `CursoController.OverflowBeforeSyntax` | Backend/controllers/curso_controller.go:84-88 | overflowing digits give a range error whatever follows them |
| `CursoController.ParseUintRoundTrip` | Backend/controllers/curso_controller.go:84 | every 64-bit value parses back from its decimal rendering |
| `CursoController.EliminarCurso` | Backend/controllers/curso_controller.go:82-104 | 400 exactly for an unparsable id and 404 exactly for an absent one, both leaving the catalogue; on 200 the catalogue loses exactly the courses with that id |
| `CursoController.FilterDropsOne` | Backend/controllers/curso_controller.go:91-97 | removing a course that is present shortens the catalogue |
| `CursoController.EliminarKeepsOrder` | Backend/controllers/curso_controller.go:90-97 | the surviving courses keep catalogue order |
| `CursoController.EliminarTwiceNotFound` | Backend/controllers/curso_controller.go:98-102 | deleting the same id again answers 404 and changes nothing |
| `CursoService.SkipScanSpace` | Backend/services/curso_service.go:90 | `fmt`'s scanner skips exactly the run of space before the number: every skipped character is space and the first one kept is not |
| `Common.LeadingDigits` | Backend/services/curso_service.go:90 | the longest run of leading digits, the whole string when it is all digits |
| `Common.LeadingDigitsOf` | Backend/services/curso_service.go:90 | the digits before a non-digit are read exactly |
| `CursoService.AtoiSafe` | Backend/services/curso_service.go:88-92 | the result always fits a 64-bit `int` |
| `CursoService.AtoiSafeReadsPrinted` | Backend/services/curso_service.go:88-92 | a printed integer, optionally negative and followed by non-digits, reads back as itself |
| `CursoService.AtoiSafeNoDigits` | Backend/services/curso_service.go:88-92 | text with no digits after the space and sign reads as 0, never an error |
| `CursoService.ParseUintOrZero` | Backend/services/curso_service.go:65 | leading digits that overflow give the largest 64-bit value; otherwise a malformed id gives 0 and a valid one its value |
| `CursoService.CursoFromRecord` | Backend/services/curso_service.go:65-80 | fields 0 to 8 become id, name, description, start, end, duration, capacity, place and modality |
| `CursoService.KeptRecords` | Backend/services/curso_service.go:58-64 | every kept record has at least nine fields |
| `CursoService.HeaderIgnored` | Backend/services/curso_service.go:59-61 | the first record never matters, whatever it holds |
| `CursoService.KeptRecordsStep` | Backend/services/curso_service.go:62-64 | a later record is kept exactly when it has nine fields |
| `CursoService.CoursesReadKept` | Backend/services/curso_service.go:57-82 | after any number of records the courses built are those of the kept records so far, in order |
| `CursoService.AllCoursesRead` | Backend/services/curso_service.go:57-85 | after the last record there is one course per kept record, each read from it |
| `CursoService.CargarCursosDesdeCsv` | Backend/services/curso_service.go:44-86 | a read failure leaves the catalogue; otherwise the catalogue is replaced by one course per kept record, in order |
| `CursoService.KeptRecordsCount` | Backend/services/curso_service.go:57-82 | the number of courses loaded is the number of complete records after the header |
| `CursoService.SeedCatalogueContents` | Backend/services/curso_service.go:14-42 | the initial catalogue holds exactly courses 1 and 2, single-day and in person, on 2025-06-01 and 2025-07-01 |
| `CursoService.DeleteFromSeed` | Backend/services/curso_service.go:14-42 | deleting course 1 from the initial catalogue answers 200 and leaves course 2 |
| `Dates.ParseDate` | Backend/controllers/curso_controller.go:55-64 | `time.Parse("2006-01-02")` accepts a four-digit year, a month 1-12 and a day within that month, and nothing else |
| `Dates.ParseThenFormat` | Backend/controllers/curso_controller.go:55-64 | every accepted string is the layout rendering of the date it yields, so nothing but digits and the two dashes is accepted |
| `Dates.ParseDateIff` | Backend/controllers/curso_controller.go:55-64 | a string parses to a date exactly when the date is valid and the string is its rendering |
| `Dates.DigitsValueInjective` | Backend/controllers/curso_controller.go:55-64 | two digit fields of the same width and value are the same text |
| `Dates.FormatThenParse` | Backend/controllers/curso_controller.go:55-64 | every valid date printed in the layout parses back to itself |
| `Dates.ParseDateOrZero` | Backend/services/curso_service.go:66-67 | an unparsable date becomes year 1, January 1 |
| `MockApi.GetCourses` | lib/api.ts:112-116 | a copy of the course list, in order |
| `MockApi.GetCourse` | lib/api.ts:118-121 | the first course with an equal id, or none exactly when no course has it |
| `MockApi.GetUserByCuil` | lib/api.ts:123-126 | the user stored under the CUIL, or none exactly when there is none |
| `MockApi.CheckEnrollment` | lib/api.ts:128-131 | true exactly when some enrollment has that course and that user |
| `MockApi.CreateEnrollment` | lib/api.ts:133-154 | throws exactly for an enrolled pair, leaving the store; otherwise appends one enrollment numbered one past the count |
| `MockApi.CreateCourse` | lib/api.ts:156-175 | appends a course numbered one past the count, with nobody enrolled and an empty description when none is given |
| `MockApi.Join` | lib/api.ts:184-194 | an enrollment is listed with its user and course exactly when both exist |
| `MockApi.JoinAll` | lib/api.ts:183-194 | the listing is exactly the enrollments whose user and course exist, in input order and once each, each carrying its own user and course |
| `MockApi.JoinAllAppend` | lib/api.ts:183-194 | listing a concatenation lists the first part, then the second, so entries never reorder |
| `MockApi.JoinAllSingle` | lib/api.ts:183-194 | one enrollment lists as its joined entry when its user and course exist, else as nothing |
| `MockApi.JoinAllComplete` | lib/api.ts:183-194 | every enrollment whose user and course exist is listed |
| `MockApi.GetCourseEnrollments` | lib/api.ts:177-197 | the listing is the course's stored enrollments whose user and course exist, in store order and once each, joined |
| `MockApi.GetAllEnrollments` | lib/api.ts:199-217 | the listing is every stored enrollment whose user and course exist, in store order and once each, joined |
| `MockApi.JoinAllFilter` | lib/api.ts:180-194 | filtering by course before or after joining gives the same listing |
| `MockApi.CourseListingIsRestriction` | lib/api.ts:177-217 | a course's listing is the full listing restricted to that course, in the same order |
| `MockApi.InitialStoreInv` | lib/api.ts:78-109 | the initial enrollments are numbered 1 to 5 and hold no pair twice |
| `MockApi.CreateEnrollmentKeepsInv` | lib/api.ts:136-151 | creating an enrollment keeps the numbering sequential and every pair unique |
| `MockApi.CreateCourseKeepsInv` | lib/api.ts:156-175 | adding a course keeps the enrollment invariant |
| `MockApi.EnrolledExactlyOnceAfterCreate` | lib/api.ts:130-151 | after `createEnrollment`, thrown or not, exactly one enrollment holds the pair |
| `MockApi.AfterAttempts` | lib/api.ts:133-154 | a series of attempts touches only the enrollment list and adds at most one entry per attempt |
| `MockApi.AttemptsKeepInv` | lib/api.ts:136-151 | no series of attempts ever enrolls a pair twice |
| `MockApi.AttemptsKeepEnrolled` | lib/api.ts:143-151 | an enrolled pair stays enrolled |
| `MockApi.UnknownCourseEnrolledButUnlisted` | lib/api.ts:133-154 | an enrollment in a course that does not exist is created, and then dropped from the listings |
| `ClientApi.Intercept` | Frontend/lib/api.ts:7-15 | a stored non-empty token in a browser sets `Authorization: Bearer <token>`; otherwise the headers pass through untouched |
| `ClientApi.InterceptSetsHeaderIff` | Frontend/lib/api.ts:7-15 | the header is present exactly when a token is stored and the code runs in a browser |
| `ClientApi.EnrollmentsQuery` | Frontend/lib/api.ts:52 | the query has the one parameter `cursoId` |
| `ClientApi.SomeCuil` | Frontend/lib/api.ts:54 | true exactly when some record before any `null` has that `cuil`; a throw exactly when a `null` comes before any such record |
| `ClientApi.MatchFirst` | Frontend/lib/api.ts:54 | a match at the head means no `null` is read |
| `ClientApi.NullScanSkipsHead` | Frontend/lib/api.ts:54 | past a head that is neither `null` nor a match, whether a `null` comes first is decided by the tail |
| `ClientApi.MatchScanSkipsHead` | Frontend/lib/api.ts:54 | past such a head, whether a match comes first is decided by the tail |
| `ClientApi.CheckEnrollment` | Frontend/lib/api.ts:51-55 | false for a non-array reply; for an array, a throw exactly when a `null` precedes every match, otherwise whether some record's `cuil` is the CUIL |
| `ClientApi.CheckEnrollmentIgnoresCourse` | Frontend/lib/api.ts:54 | changing the records' course ids never changes the answer |
| `ClientApi.CreateEnrollmentBody` | Frontend/lib/api.ts:57-61 | the body is exactly `{cuil, curso_id}` with the course id as a string |
| `ClientApi.OrZero` | Frontend/lib/api.ts:65 | an absent duration field counts as 0 |
| `ClientApi.CreateCourseBody` | Frontend/lib/api.ts:63-77 | duration in minutes from hours and minutes, modality always "presencial", the other fields mapped to the backend's names |
| `ClientApi.CreateCourseIgnoresLocation` | Frontend/lib/api.ts:73 | the chosen location never reaches the backend |
| `ClientApi.GetCourse` | Frontend/lib/api.ts:43 | the first course whose printed id equals the argument, or none exactly when there is none |
| `ClientApi.GetCourseFindsStored` | Frontend/lib/api.ts:43 | a printed id finds a course exactly when one is stored under it |
| `ClientApi.GetCourseLeadingZero` | Frontend/lib/api.ts:43 | ids compare as printed, so "01" finds nothing |
| `Registration.Sanitise` | Frontend/components/qr-registration-form.tsx:93-96 | the input keeps at most 11 characters, all digits, exactly the digits of the first 11 characters typed |
| `Registration.SanitiseTyped` | Frontend/components/qr-registration-form.tsx:93-96 | typing a character after fewer than 11 appends it when it is a digit and changes nothing otherwise |
| `Registration.SanitiseFullIgnoresMore` | Frontend/components/qr-registration-form.tsx:96 | once 11 characters are in the box, anything added after them is ignored |
| `Registration.SanitiseKeepsDigits` | Frontend/components/qr-registration-form.tsx:93 | a digit string of at most 11 characters passes the filter unchanged |
| `Registration.SanitiseIdempotent` | Frontend/components/qr-registration-form.tsx:93 | filtering twice is filtering once |
| `Registration.SanitisedValidIff` | Frontend/components/qr-registration-form.tsx:35-36 | after filtering, length 11 is the whole format test |
| `Registration.AfterLookup` | Frontend/components/qr-registration-form.tsx:41-54 | a falsy reply gives "No se encontró un usuario con ese CUIL"; a throw shows its message, or "Error al buscar el usuario" when that is empty; only data goes on |
| `Registration.AfterCheck` | Frontend/components/qr-registration-form.tsx:47-54 | the person is shown only once the check has answered, with its answer as the enrolled flag; a throw shows its message, or "Error al buscar el usuario" when that is empty |
| `QrForm.BeginSearch` | Frontend/components/qr-registration-form.tsx:27-41 | a search clears the person, error and enrolled flag; a malformed CUIL sets the format message and makes no request |
| `QrForm.QrAuthorization` | Frontend/lib/api.ts:7-15 | the enrollment request carries `Bearer <token>` exactly when a token is stored |
| `QrForm.EnrollError` | Frontend/components/qr-registration-form.tsx:69-74 | 409 gives "Ya está inscripto"; another failure its message or the generic one |
| `QrForm.Step` | Frontend/components/qr-registration-form.tsx:27-78 | success is never lost and only follows a fulfilled enrollment; a person appears only after the check of the search in flight answered |
| `QrForm.InitialInv` | Frontend/components/qr-registration-form.tsx:19-25 | the initial state satisfies the form's invariant |
| `QrForm.StepKeepsInv` | Frontend/components/qr-registration-form.tsx:27-168 | every event keeps the invariant: busy flags match the requests in flight, a search runs on the locked input's CUIL, no person during a search, no post in flight after success |
| `QrForm.RunKeepsInv` | Frontend/components/qr-registration-form.tsx:27-168 | any series of events keeps the invariant |
| `QrForm.EnabledSearchIsValid` | Frontend/components/qr-registration-form.tsx:93-106 | whenever Search can be pressed the CUIL already has the right format |
| `QrForm.SuccessIsFinal` | Frontend/components/qr-registration-form.tsx:95-106 | after success no user action changes the form; only a search already running still does |
| `QrForm.PostOnlyForShownUnenrolled` | Frontend/components/qr-registration-form.tsx:155-157 | an enrollment is posted only while Confirm is shown and no other post is in flight, for the shown person and this course |
| `QrForm.EnrolledPersonHasNoConfirm` | Frontend/components/qr-registration-form.tsx:155 | a search finding an enrolled person shows them without Confirm, after exactly the two lookups |
| `QrForm.SearchDuringEnrollment` | Frontend/components/qr-registration-form.tsx:60-106 | Search stays enabled while saving; a search overtaken by the enrollment's success leaves success set with no person shown and the search running |
| `QrForm.SearchCompletesAfterSuccess` | Frontend/components/qr-registration-form.tsx:41-56 | the search then shows whoever it found beside the success notice, with that person's enrolled flag |
| `ManualForm.Alerts` | Frontend/components/manual-registration-form.tsx:180-196 | only the success and error messages of the enrollment are rendered, each when non-empty |
| `ManualForm.BeginSearch` | Frontend/components/manual-registration-form.tsx:35-48 | a search clears person, error, enrolled flag and success; a malformed CUIL makes no request |
| `ManualForm.EnrollBody` | Frontend/components/manual-registration-form.tsx:71-74 | the body holds the trimmed CUIL and the course id as a string |
| `ManualForm.ManualAuthorization` | Frontend/components/manual-registration-form.tsx:70-88 | the header is always sent, as "Bearer null" when no token is stored |
| `ManualForm.Settle` | Frontend/components/manual-registration-form.tsx:95-108 | 2xx clears person and input with the success message; 409 the duplicate message; other statuses the body text or the fallback; a throw the fallback |
| `ManualForm.Step` | Frontend/components/manual-registration-form.tsx:35-176 | no event sets success; a person appears only after the check of the search in flight answered |
| `ManualForm.InitialInv` | Frontend/components/manual-registration-form.tsx:23-31 | the initial state satisfies the form's invariant |
| `ManualForm.StepKeepsInv` | Frontend/components/manual-registration-form.tsx:35-176 | every event keeps the invariant: busy flags match the requests in flight, every search on an 11-digit CUIL, no person during a search, success never set |
| `ManualForm.RunNeverSucceeds` | Frontend/components/manual-registration-form.tsx:28-41 | no series of events sets `success`, so the input never locks |
| `ManualForm.EnrolledPersonCanBePosted` | Frontend/components/manual-registration-form.tsx:157-169 | the enroll button ignores the enrolled flag: an enrolled person is posted anyway |
| `ManualForm.SearchErrorInvisible` | Frontend/components/manual-registration-form.tsx:57-58 | a failed lookup stores its message in `error`, which no alert renders |
| `ManualForm.MissingTokenSendsNull` | Frontend/components/manual-registration-form.tsx:88 | with no stored token the request says "Bearer null" |
| `ManualForm.PostOnlyForShown` | Frontend/components/manual-registration-form.tsx:157-169 | a post carries the shown person and this course, and never overlaps another post |
| `ManualForm.SaveOvertakesSearch` | Frontend/components/manual-registration-form.tsx:95-146 | a save that succeeds during a search empties the input, yet the search checks and then shows the CUIL it started with, under the success message |
| `CourseForm.TitleError` | Frontend/components/create-course-form.tsx:44-48 | a blank trimmed title is "obligatorio", one of one or two characters too short, three or more fine |
| `CourseForm.EndDateError` | Frontend/components/create-course-form.tsx:54-59 | a missing end date is reported; an end date sorting before the start date is reported instead |
| `CourseForm.Validate` | Frontend/components/create-course-form.tsx:40-67 | a key per failing field with its message; capacity not above 0 adds the key with no message |
| `CourseForm.ValidIff` | Frontend/components/create-course-form.tsx:40-67 | valid exactly when the trimmed title has 3 characters, both dates are given in order and capacity is positive |
| `CourseForm.SameDayAccepted` | Frontend/components/create-course-form.tsx:57-59 | equal dates are accepted |
| `CourseForm.InitialFormInvalid` | Frontend/components/create-course-form.tsx:28-35 | the initial form has capacity 20 and "presencial" and fails on title and both dates |
| `CourseForm.HandleInputChange` | Frontend/components/create-course-form.tsx:70-76 | the edited field takes the new value; its truthy error becomes undefined; every other field and error is kept |
| `CourseForm.EditClearsOnlyItsError` | Frontend/components/create-course-form.tsx:70-76 | after an edit that field shows no error, and no other field changes |
| `CourseForm.HandleSubmit` | Frontend/components/create-course-form.tsx:78-108 | an invalid form sends nothing; a valid one sends the course and goes to the list, or to login with the session removed on 401, or shows the backend's non-empty `error`, else "Error inesperado" |
| `CourseForm.SubmittedCourseHasNoDuration` | Frontend/components/create-course-form.tsx:84 | the form's request always carries zero minutes and "presencial" |
| `EnrollmentList.Field` | Frontend/components/enrollment-list.tsx:40-46 | a field takes the snake_case value unless null or undefined, else the Go name's |
| `EnrollmentList.LoadEnrollments` | Frontend/components/enrollment-list.tsx:35-53 | one normalised record per element, in order; a non-array reply or a `null` element leaves the list empty |
| `EnrollmentList.LoadRecoversBackendRows` | Frontend/components/enrollment-list.tsx:39-47 | loading the backend's encoded rows yields exactly those rows, in order |
| `EnrollmentList.NormaliseBackendRow` | Frontend/components/enrollment-list.tsx:39-47 | one encoded backend row normalises to its own fields |
| `EnrollmentList.SnakeCaseWins` | Frontend/components/enrollment-list.tsx:40-46 | a non-null snake_case value is the one shown |
| `EnrollmentList.Heading` | Frontend/components/enrollment-list.tsx:136 | the first record's course name when truthy, otherwise "-" |
| `EnrollmentList.HeadingOfBackendRows` | Frontend/components/enrollment-list.tsx:136 | over backend rows the heading is the first row's course name, or "-" when it is empty or there are no rows |
| `EnrollmentList.MakeRow` | Frontend/components/enrollment-list.tsx:63-70 | a row holds CUIL, first name, last name, date, course name and course id under the given headers |
| `EnrollmentList.Rows` | Frontend/components/enrollment-list.tsx:96-103 | one row per enrollment, in list order |
| `EnrollmentList.ExportToExcel` | Frontend/components/enrollment-list.tsx:59-90 | nothing for an empty list; otherwise `inscripciones_curso_<id>.xlsx` with one row per enrollment |
| `EnrollmentList.ExportToCsv` | Frontend/components/enrollment-list.tsx:92-119 | nothing for an empty list; otherwise `inscripciones_curso_<id>.csv` with one row per enrollment |
| `EnrollmentList.ExportsAgree` | Frontend/components/enrollment-list.tsx:63-103 | both exports carry the same values row by row; only headers and extension differ |
| `EndToEnd.ListingIgnoresClientCourse` | Frontend/lib/api.ts:52 | the backend, reading `curso_id`, answers the client's `cursoId` query with every row |
| `EndToEnd.BackendRowsNeverMatchCuil` | Frontend/lib/api.ts:54 | no backend-encoded row ever has a `cuil` key, so the client's check is false |
| `EndToEnd.CheckEnrollmentAlwaysFalse` | Frontend/lib/api.ts:51-55 | against the backend the client's "already enrolled?" answer is always no |
| `EndToEnd.ClientEnrollmentRefusedAtBind` | Frontend/lib/api.ts:57-60 | the body of either form is answered 400 "CUIL y curso_id son requeridos" and the table is unchanged |
| `EndToEnd.QrFormOffersConfirmToEnrolled` | Frontend/components/qr-registration-form.tsx:47-52 | through the backend a QR search always ends with the person and Confirm shown, unless an earlier enrollment already succeeded |
| `EndToEnd.RepeatShownAsAlreadyEnrolled` | Frontend/components/qr-registration-form.tsx:70-71 | for a body carrying the course id as a number, a repeated enrollment gets 409, which the QR form would show as "Ya está inscripto" |
| `EndToEnd.CourseFormAlwaysRejected` | Backend/controllers/curso_controller.go:51-54 | every course the form submits is refused with 400 |
| `EndToEnd.CourseListShowsWholeTable` | Frontend/components/enrollment-list.tsx:37-48 | a course's enrollment list holds every row of the table, in order |
| `EndToEnd.OtherCourseRowListed` | Frontend/components/enrollment-list.tsx:136 | a row of another course is listed and names that course in the heading |

## Left out

- Transport and frameworks are left out: axios, `fetch`, gin routing, JSON text, GORM, CORS, migrations and routes.
  - Each handler takes the body as a JSON value, or as the fields decoded from it, and returns a status and message.
  - The database is an immutable `Db`.
  - A failing insert is a boolean parameter.
  - Errors while listing from the database are not modelled.
- InscripcionController.DecodeRequest: matches keys exactly. `encoding/json` also accepts a key that differs only in letter case (`"CUIL"`), and a JSON number with a fraction or exponent is not modelled.
- InscripcionController.InscribirPersona: it and the lemmas built on it take the decoded fields, with the course id as a number. The forms never reach them, because their string `curso_id` fails to decode (`InscripcionController.InscribirJson`).
- The padrón lookup is not part of this model. It is an oracle from CUIL to a person or an error.
- The person endpoint is not modelled. A lookup reaches the forms as its result: data, none, or a thrown message. The axios message for a 404 is whatever that message is.
- The clock is left out. The enrollment timestamp and the mock API's "today" are parameters.
- CSV file I/O is left out: opening and reading the file, the `;` splitting, and the final print. `CargarCursosDesdeCsv` receives the records, or `None` when reading failed.
- The XLSX library and the Blob/anchor download are left out. An export is its file name and rows.
- UI is left out: rendering, styles, toasts, console logging, and the router beyond its destination. `localStorage` appears only as the token and as the keys a 401 removes.
- Async timing is left out: the mock API's delays. In the forms, a search and an enrollment post may overlap, and their responses settle in any order. A form accepts a response only for a request it has in flight. React's batching of state updates within one handler step is treated as one step.
- JavaScript numbers are integers here. Fractions, NaN and the capacity input's `parseInt` are not modelled.
- Strings are sequences of characters, not UTF-16 code units.
- QR generation, login, the header, page components and route wiring are left out, as wiring.
- The backend's `ObtenerCursos` database error is left out, and so is the client's `getCourses` passthrough.
- InscripcionController.InscribirPersona: one handler call is applied to the database at a time, and its lookups never fail. gin serves requests concurrently, and the duplicate query (inscripcion_contoller.go:63-67) and the insert (:76) are separate statements with no transaction and no unique index on (course, CUIL). So two identical requests at once can both insert, which `InscribirPreservesUniqueness` does not cover. Database errors are not modelled either. Any error of the duplicate query lets the insert go ahead. A failing course lookup reads as 404. A failing person lookup falls through to the padrón. Keys compare exactly, whereas MySQL compares `cuil = ?` under the column's collation (trailing spaces, letter case); `DatabasePersonResolvesToRequest` rests on exact comparison. The column's `size:11` limit on the stored CUIL is not modelled.
- InscripcionController.ObtenerInscritos: selects the rows whose course id prints as the parameter. MySQL's `curso_id = ?` converts the string to a number first, so "05", "+5", " 5" or "5abc" also select course 5, and a non-numeric text selects course 0. The model selects nothing for those. For a parameter in plain decimal form the two agree (`ObtenerInscritosByCourse`).
- MockApi.GetUserByCuil: a key is looked up among the stored users only. The source's `mockUsers[cuil] || null` also finds members every JavaScript object inherits (`"constructor"`, `"toString"`, `"__proto__"`), and so does the user and course lookup in `MockApi.Join`. The forms only ever pass 11-digit strings, which are never such names.
- ClientApi.EnrollmentsQuery: the course id is taken as the parameter's whole value. The client interpolates it into the URL without encoding, so an id holding `&`, `#`, `=` or `%` would split or end the query. The ids the forms pass are a route segment and a course's numeric id.
- CursoService.CargarCursosDesdeCsv: takes the records as given. Go's `csv.Reader` with `FieldsPerRecord` 0 refuses the whole file when a record's field count differs from the first record's. So in a readable file every record is as wide as the header, and the short-record skip drops either every record or none.
- Registration.Sanitise: cuts to 11 characters before filtering. This matches the browser's `maxLength` for text typed or pasted at the end of the box; text pasted into the middle of a full box, or typed over a selection, is not modelled.
