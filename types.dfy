/** The records exchanged by the roster scan (src/types/index.ts, lines 1-14). */
module Types {

  /** One data row of a roster page: the student number, the display name and
      the course title of the page the row came from. */
  datatype Participant = Participant(nrp: string, name: string, courseName: string)

  /** One (course, section) pair the searched student was found in. */
  datatype ClassResult = ClassResult(
    mkId: string,
    semester: nat,
    kelas: string,
    name: string,
    courseName: string,
    credits: nat)
}
