/** The client-side records of the application (courses, users, enrollments
    and the course form's values), shared by the mock store and the forms. */
module Types {
  import opened Common

  datatype Location = Presencial | Virtual

  /** A course as the client sees it; `enrolled` is the current head count. */
  datatype Course = Course(
    id: string,
    title: string,
    description: string,
    startDate: string,
    endDate: string,
    capacity: int,
    enrolled: int,
    location: Location)

  /** A person, identified by the CUIL. */
  datatype User = User(
    cuil: string,
    firstName: string,
    lastName: string,
    email: Option<string>,
    phone: Option<string>)

  /** A (course, person) link; `userId` holds the person's CUIL. */
  datatype Enrollment = Enrollment(
    id: string,
    courseId: string,
    userId: string,
    enrollmentDate: string)

  /** The values a course form hands to `createCourse`. */
  datatype CourseFormValues = CourseFormValues(
    title: string,
    startDate: string,
    endDate: string,
    location: Location,
    description: Option<string>,
    capacity: int)
}
