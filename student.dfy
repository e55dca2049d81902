/**
 * The Student entity, with the properties the controller and the seed data use. Its model file
 * and its repository are not part of this model; the controller sees the repository only through
 * the lookups of `StudentStore`.
 */
module StudentModel {
  import opened Common

  /** A student record; every reference-typed property may be null. */
  datatype Student = Student(
    studentNumber: Option<string>,
    firstName: Option<string>,
    surname: Option<string>,
    enrollmentDate: DateTime,
    photo: Option<string>,
    email: Option<string>)

  /** The lookups of the student repository: by student number and by email. */
  datatype StudentStore = StudentStore(
    details: Option<string> -> Option<Student>,
    byEmail: Option<string> -> Option<Student>)
}
