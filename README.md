# AttendanceChecker attendance core in Dafny

AttendanceChecker records class attendance from RFID card scans. A course
(kolegij) holds sessions (termini) in rooms (dvorane). When a student's card is
scanned at a reader, the scan is matched to the session that started in that
room within the last 15 minutes and is still open, and one attendance record
(nazocnost) is stored. For each course, a report lists every student with the
sessions attended, the sessions held and the attendance percentage. The report
can also be exported as a spreadsheet whose OIB (national id) and percentage
cells are rendered specially.

This project models that engine as it sits in three controllers:

- `attendance.dfy` (module `Attendance`) is the course report. It counts the
  records per student, computes the percentage, propagates read failures and
  renders the export cells. It is pure: functions over sequences, plus lemmas.
- `rfid.dfy` (module `Rfid`) covers scan handling: request validation, the card
  holder lookup and the session window and room test. `Decide` is the function
  that says what a scan does.
- `sessions.dfy` (module `Sessions`) holds the session rows that starting and
  ending a session produce, and the lookups by id and by course (the latter
  sorted latest first).
- `store.dfy` (module `Store`) has class `Store`, which holds the student,
  session and record tables. Its methods `ScanRfid`, `StartTermin` and
  `EndTermin` change those tables in place. Each method is proved to follow
  `Decide` or the session functions, and to keep the store invariant: every
  record points to an existing student and to a session that started in the
  15 minutes before the scan.
- `entities.dfy`, `seqs.dfy` and `text.dfy` hold the table rows, the
  order-preserving filter that stands for the database and LINQ `Where`, and
  .NET `char.IsWhiteSpace` / `string.Trim`.

Time is a whole number of minutes on one abstract clock that the caller
supplies.

Behaviour of the code worth knowing:
- A session whose end time is NULL never accepts a scan, because the
  comparison `end_time >= now` is not true for NULL.
- Repeated scans are not deduplicated. Every successful scan appends a record,
  so a student who taps twice is counted twice, and the report can exceed
  100 percent (`Attendance.RepeatedScanOvercounts`).
- There is no tie-break among several matching sessions, or among several
  students with the same card. The source asks the database client for a
  single row; what the client then does with several rows (an error or an
  empty answer) is the client library's choice, and no record is written
  either way. The model gives each case its own outcome (`AmbiguousTermin`,
  `AmbiguousStudent`).

## Model

| member | source | states |
|---|---|---|
| `Attendance.AttendedRecords` | Controllers/AttendanceController.cs:117-119 | a record counts for a student (`CountsFor`) exactly when it is that student's and its session id is one of the course's sessions; the `.Count()` of these is `AttendedCount` |
| `Attendance.Percentage` | Controllers/AttendanceController.cs:121 | percentage is never negative, is 0 with no sessions held (no division), and otherwise times the total equals 100 times the attended count |
| `Attendance.Aggregate` | Controllers/AttendanceController.cs:115-134 | one row per student in student order (each built by `RowFor`, the object of lines 123-133); id, names, OIB and photo copied; the same total on every row; attended count and percentage per student |
| `Attendance.FetchAttendance` | Controllers/AttendanceController.cs:108-177 | any failing read gives an error and no rows, and the first failing read in call order gives the message; otherwise one row per student, with the student's fields copied, a total that is the number of the course's sessions (the same filter as the session list), the student's attended count over those sessions, and the percentage of attended over total |
| `Attendance.AttendedAppend` | Controllers/AttendanceController.cs:117-119 | counting is compositional: records appended later are counted after earlier ones |
| `Attendance.ForeignRecordsIgnored` | Controllers/AttendanceController.cs:118 | records of other courses' sessions never change any student's count |
| `Attendance.OneMoreRecord` | Controllers/AttendanceController.cs:117-119 | one more record raises exactly the count it belongs to by one and no other count |
| `Attendance.AttendedSessionsDistinct` | Controllers/AttendanceController.cs:117-119 | without duplicate (session, student) records, a student's counted records name pairwise different sessions |
| `Attendance.AttendedAtMostHeld` | Controllers/AttendanceController.cs:117-119 | without duplicate (session, student) records, attended count is at most the number of the course's sessions |
| `Attendance.PercentageAtMostHundred` | Controllers/AttendanceController.cs:121 | attended at most held gives a percentage of at most 100 |
| `Attendance.FetchPercentageBounded` | Controllers/AttendanceController.cs:117-121 | without duplicate records every report row has attended at most total and a percentage between 0 and 100 |
| `Attendance.FetchEmptyCourse` | Controllers/AttendanceController.cs:118-121 | a course without sessions reports 0 attended, 0 total and 0 percent for every student |
| `Attendance.HalfAttended` | Controllers/AttendanceController.cs:115-134 | two sessions and one scan in the first give the row 1 of 2, 50 percent |
| `Attendance.RepeatedScanOvercounts` | Controllers/AttendanceController.cs:117-119 | two scans of one student in a course's only session give 2 of 1, 200 percent |
| `Attendance.RenderOib` | Controllers/AttendanceController.cs:46 | a missing or empty OIB renders as "N/A"; otherwise the cell is `Trim` of the OIB, so it has no white space at either end |
| `Attendance.PaddedOibRendersInner` | Controllers/AttendanceController.cs:46 | an OIB with white space around it renders as exactly the part inside |
| `Attendance.BlankOibRendersEmpty` | Controllers/AttendanceController.cs:46 | an OIB of white space only is not empty, so it renders as an empty cell rather than "N/A" |
| `Attendance.RenderPercent` | Controllers/AttendanceController.cs:47 | the percentage cell is the formatted percentage followed by one '%' |
| `Attendance.ExportCells` | Controllers/AttendanceController.cs:44-47 | an exported row is first name, last name, rendered OIB and the percentage text with '%' |
| `Text.Trim` | Controllers/AttendanceController.cs:46 | the trimmed string is no longer than the input and neither starts nor ends with white space |
| `Text.TrimIsInfix` | Controllers/AttendanceController.cs:46 | trimming keeps one contiguous middle part and drops only white space before and after it |
| `Text.TrimIdempotent` | Controllers/AttendanceController.cs:46 | trimming twice equals trimming once |
| `Text.TrimSurrounded` | Controllers/AttendanceController.cs:46 | trimming white space + middle + white space, where the middle starts and ends with other characters, gives exactly the middle |
| `Text.TrimBlank` | Controllers/AttendanceController.cs:46 | a string of white space only trims to the empty string |
| `Rfid.CardHolders` | Controllers/RfidController.cs:26-29 | exactly the students whose card number equals the scanned id |
| `Rfid.Candidates` | Controllers/RfidController.cs:34-43 | exactly the sessions satisfying `IsCandidate`: those that started in [now-15, now], have an end not before now, and are in the requested room |
| `Rfid.Decide` | Controllers/RfidController.cs:21-59 | an invalid request (`ValidRequest` fails: no body, null or empty id, room not positive) is rejected before any lookup; "student not found" exactly when no student holds the card; ambiguous student exactly when several do; "no termin" exactly when one student holds the card and no session matches; ambiguous termin exactly when one holds it and several sessions match; a recorded scan names a card holder and a session that matches the window and room at the scan time |
| `Rfid.DecideFor` | Controllers/RfidController.cs:26-47 | one if-and-only-if per outcome: no holder gives "student not found", several give ambiguous student; with one holder, no match gives "no termin", several give ambiguous termin, and exactly one gives a record naming that holder and session |
| `Rfid.UniqueMatchRecorded` | Controllers/RfidController.cs:34-56 | a valid scan whose card has one holder and whose room has one session in its window records that student at that session |
| `Rfid.OutsideEveryWindowNotFound` | Controllers/RfidController.cs:34-47 | a valid scan by the card's only holder when no session is in its window reports "no termin" |
| `Rfid.OutsideWindowNoMatch` | Controllers/RfidController.cs:34-40 | a scan before a session's start or more than 15 minutes after it never matches that session |
| `Rfid.StartedTerminAcceptsScans` | Controllers/TerminController.cs:29-30 | a started session accepts scans in its room throughout its first 15 minutes |
| `Rfid.NoMatchAfterEnd` | Controllers/TerminController.cs:87 | after a session is closed at t, no scan later than t matches it |
| `Sessions.NewTermin` | Controllers/TerminController.cs:26-32 | a started session has the requested course and room, starts now and ends 90 minutes later, so its end is after its start |
| `Sessions.Ended` | Controllers/TerminController.cs:87 | closing sets the end to now and keeps id, course, room and start |
| `Sessions.TerminiOfKolegij` | Controllers/AttendanceController.cs:168-176 | exactly the sessions of the course, each as often as in the table |
| `Sessions.SortByStartDescending` | Controllers/TerminController.cs:125 | the result is sorted latest start first and is a permutation of the input |
| `Sessions.GetTerminByKolegijId` | Controllers/TerminController.cs:120-135 | a failed read gives "Error starting termin"; otherwise exactly the course's sessions (as a multiset), latest start first |
| `Sessions.GetTerminByKolegijIdMembers` | Controllers/TerminController.cs:122-126 | a session is in the course query's result exactly when it is in the table with that course |
| `Sessions.FindTermin` | Controllers/TerminController.cs:79-85 | the position of the first session with the id, or nothing exactly when no session has it |
| `Sessions.GetTerminById` | Controllers/TerminController.cs:109-117 | the session with that id, or NotFound exactly when none has it; with distinct ids it is the only one |
| `Store.Store.ScanRfid` | Controllers/RfidController.cs:21-59 | the outcome is `Decide` on the current tables; on success exactly one record (new id, matched session, resolved student, scan time) is appended; otherwise nothing changes; students and sessions never change; the store invariant is kept |
| `Store.Store.StartTermin` | Controllers/TerminController.cs:21-48 | a successful insert appends exactly `NewTermin` under a fresh id and keeps all other sessions; a failed one changes nothing and reports "Error starting termin" |
| `Store.Store.EndTermin` | Controllers/TerminController.cs:77-92 | an unknown id changes nothing (NotFound); otherwise only that session's end becomes now, every other field and session is unchanged, and the invariant is kept |
| `Store.RepeatedScanRecordsTwice` | Controllers/RfidController.cs:49-56 | two identical scans at one instant get the same outcome; when recorded, they append two records for the same session and student |

## Left out

- Supabase client calls, `async`/`await`, HTTP status codes and `IActionResult`. The store is three in-memory tables, and outcomes are datatypes. A failed read or insert is a parameter: `failing` in `FetchAttendance`, `queryFails` in `GetTerminByKolegijId`, `insertSucceeds` in `StartTermin`.
- Clocks. `ScanRfid` compares with `DateTime.UtcNow` but stamps the record with `DateTime.Now`. `StartTermin` and `EndTermin` use `DateTime.Now`. All of these are one supplied `now` in whole minutes, so the offset between local time and UTC and sub-minute precision are not modelled. `StartTermin` also reads the clock twice, for start and end; the model reads it once.
- The two-decimal, culture-invariant text of the percentage (`"F2"`) and double-precision rounding. The percentage is an exact `real`, and the text is the caller-supplied `format` in `ExportCells`.
- The workbook, its header row, the row loop, the memory stream and the file download of the export. Only the cells of one row are modelled.
- The pass-through reads `GetAttendanceByTerminId`, `ExportAttendanceByTerminId`, `GetAllTermini`, and the Student, Kolegij and Dvorana controllers.
- Program.cs (configuration and dependency injection).
- The legacy Models/Termin.cs and Models/Nazocnost.cs. Courses and rooms appear only as ids.
- The exception handlers and console logging of `StartTermin`.
- A failed record insert in `ScanRfid` and a failed update in `EndTermin`. The source does not check either result.
- The C# definitions of the request classes `RfidRequest` and `StartTerminRequest` are not available. Their Dafny shapes come from how the controllers use them.
- Identity generation by the database. It is a counter per table (`nextTerminId`, `nextNazocnostId`).
- `FetchAttendance` reads all four queries from one snapshot, so the session count and the session list agree. The source makes four separate reads that could see different data. `Aggregate` takes the total as its own argument and so also covers that case.
- Sessions.SortByStartDescending: the order of sessions with equal start times is chosen by the database. The contract promises only latest-first order and the same sessions; the body keeps table order.
- The store invariant keeps only the start-time part of "the session was active at the scan". The end-time part holds when the record is written (`Decide`), but `EndTermin` can later set the end before an earlier scan if the clock goes backwards, so it is not claimed afterwards.
- Sessions.GetTerminById: repeated session ids cannot occur (`termin_id` is the primary key, and `Store.Valid` keeps ids distinct); on a table that had them, the model would return the first such session, a choice the source's single-row read does not make.
