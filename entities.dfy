/** Rows of the four tables the attendance core reads and writes, and the
    result wrappers used for lookups that can miss or fail. */
module Entities {

  /** A nullable column or a lookup that can find nothing. */
  datatype Option<+T> = None | Some(value: T)

  /** A store read that either yields a value or fails with a message. */
  datatype Result<+T> = Ok(value: T) | Err(message: string)

  /** Instants are whole minutes on one abstract clock. */
  type Time = int

  /** A row of table `studenti`. Text columns that the database may hold as
      NULL are optional. */
  datatype Student = Student(
    studentId: int,
    ime: string,
    prezime: string,
    oib: Option<string>,
    email: string,
    slika: Option<string>,
    brKartice: Option<string>)

  /** A row of table `termini`: one held session of a course (kolegij) in a
      room (dvorana). Course, room and end time are nullable columns. */
  datatype Termin = Termin(
    terminId: int,
    kolegijId: Option<int>,
    dvoranaId: Option<int>,
    startTime: Time,
    endTime: Option<Time>)

  /** A row of table `nazocnost`: one card scan of a student at a session. */
  datatype Nazocnost = Nazocnost(
    nazocnostId: int,
    terminId: int,
    studentId: int,
    dateScanned: Time)

  /** Primary keys of `termini` are distinct. */
  predicate UniqueTerminIds(termini: seq<Termin>)
  {
    forall i, j :: 0 <= i < j < |termini| ==> termini[i].terminId != termini[j].terminId
  }
}
