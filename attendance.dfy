/** Course attendance report (AttendanceController): one row per student
    with the sessions attended, the sessions held and the percentage, and
    the cells the spreadsheet export renders from a row. */
module Attendance {
  import opened Entities
  import opened Seqs
  import Sessions
  import Text

  /** The four store reads the report makes, in the order it makes them. */
  datatype Query = TotalCountQuery | StudentsQuery | RecordsQuery | TerminiQuery

  const TotalCountError: string := "Error querying total termin count."
  const StudentsError: string := "Error querying students."
  const RecordsError: string := "Error querying attendance records."
  const TerminiError: string := "Error querying termini for the given kolegij."

  /** One report row. The percentage is the exact value; its two-decimal
      text is produced by the caller's formatter. */
  datatype AttendanceRow = AttendanceRow(
    studentId: int,
    ime: string,
    prezime: string,
    oib: Option<string>,
    slikaUrl: Option<string>,
    attendedCount: nat,
    totalCount: nat,
    percentage: real)

  /** Some session of `termini` has identity `terminId`. */
  predicate HasTermin(termini: seq<Termin>, terminId: int)
  {
    exists t :: t in termini && t.terminId == terminId
  }

  /** A record counts for a student in a course when it is that student's
      and its session is one of the course's. */
  predicate CountsFor(n: Nazocnost, studentId: int, termini: seq<Termin>)
  {
    n.studentId == studentId && HasTermin(termini, n.terminId)
  }

  /** The records that count for the student, in record order. */
  function AttendedRecords(records: seq<Nazocnost>, studentId: int, termini: seq<Termin>): (r: seq<Nazocnost>)
    ensures forall n :: n in r <==> n in records && CountsFor(n, studentId, termini)
  {
    Filter(records, (n: Nazocnost) => CountsFor(n, studentId, termini))
  }

  /** How many records count for the student. */
  function AttendedCount(records: seq<Nazocnost>, studentId: int, termini: seq<Termin>): (c: nat)
    ensures c <= |records|
  {
    |AttendedRecords(records, studentId, termini)|
  }

  /** Share of the held sessions attended, in percent; 0 when none was held. */
  function Percentage(attended: nat, total: nat): (p: real)
    ensures p >= 0.0
    ensures total == 0 ==> p == 0.0
    ensures total > 0 ==> p * (total as real) == (attended as real) * 100.0
  {
    if total > 0 then (attended as real / total as real) * 100.0 else 0.0
  }

  /** The report row of one student. */
  function RowFor(student: Student, totalCount: nat, records: seq<Nazocnost>, termini: seq<Termin>): AttendanceRow
  {
    var attended := AttendedCount(records, student.studentId, termini);
    AttendanceRow(student.studentId, student.ime, student.prezime, student.oib, student.slika,
                  attended, totalCount, Percentage(attended, totalCount))
  }

  /** The row carries the student's identity, names, OIB and photo unchanged. */
  predicate CopiesStudent(row: AttendanceRow, student: Student)
  {
    && row.studentId == student.studentId
    && row.ime == student.ime
    && row.prezime == student.prezime
    && row.oib == student.oib
    && row.slikaUrl == student.slika
  }

  /** The projection over already-read data: one row per student, in the
      students' order. */
  function Aggregate(totalCount: nat, students: seq<Student>, records: seq<Nazocnost>, termini: seq<Termin>): (rows: seq<AttendanceRow>)
    ensures |rows| == |students|
    ensures forall i :: 0 <= i < |rows| ==>
      && CopiesStudent(rows[i], students[i])
      && rows[i].totalCount == totalCount
      && rows[i].attendedCount == AttendedCount(records, students[i].studentId, termini)
      && rows[i].percentage == Percentage(rows[i].attendedCount, totalCount)
  {
    seq(|students|, i requires 0 <= i < |students| => RowFor(students[i], totalCount, records, termini))
  }

  /** The report of course `kolegijId` over the store's sessions, students and
      records; a query in `failing` is one the store answers with an error,
      and the first failing one in read order decides the message. */
  function FetchAttendance(kolegijId: int, students: seq<Student>, termini: seq<Termin>,
                           records: seq<Nazocnost>, failing: set<Query>): (r: Result<seq<AttendanceRow>>)
    ensures r.Ok? <==> TotalCountQuery !in failing && StudentsQuery !in failing && RecordsQuery !in failing && TerminiQuery !in failing
    ensures TotalCountQuery in failing ==> r == Err(TotalCountError)
    ensures TotalCountQuery !in failing && StudentsQuery in failing ==> r == Err(StudentsError)
    ensures TotalCountQuery !in failing && StudentsQuery !in failing && RecordsQuery in failing ==> r == Err(RecordsError)
    ensures r.Err? && TotalCountQuery !in failing && StudentsQuery !in failing && RecordsQuery !in failing ==> r == Err(TerminiError)
    ensures r.Ok? ==> |r.value| == |students|
    ensures r.Ok? ==> forall i :: 0 <= i < |r.value| ==>
      && CopiesStudent(r.value[i], students[i])
      && r.value[i].totalCount == |Sessions.TerminiOfKolegij(termini, kolegijId)|
      && r.value[i].attendedCount == AttendedCount(records, students[i].studentId, Sessions.TerminiOfKolegij(termini, kolegijId))
      && r.value[i].percentage == Percentage(r.value[i].attendedCount, r.value[i].totalCount)
  {
    if TotalCountQuery in failing then Err(TotalCountError)
    else if StudentsQuery in failing then Err(StudentsError)
    else if RecordsQuery in failing then Err(RecordsError)
    else if TerminiQuery in failing then Err(TerminiError)
    else
      var course := Sessions.TerminiOfKolegij(termini, kolegijId);
      Ok(Aggregate(|course|, students, records, course))
  }

  // ----- properties of the counts -----

  /** No two records pair the same session with the same student. */
  predicate NoDuplicateScans(records: seq<Nazocnost>)
  {
    forall i, j :: 0 <= i < j < |records| ==>
      records[i].terminId != records[j].terminId || records[i].studentId != records[j].studentId
  }

  function TerminIds(termini: seq<Termin>): set<int>
  {
    set t | t in termini :: t.terminId
  }

  function ScannedTermini(records: seq<Nazocnost>): set<int>
  {
    set n | n in records :: n.terminId
  }

  lemma {:induction false} TerminIdsBound(termini: seq<Termin>)
    ensures |TerminIds(termini)| <= |termini|
  {
    if termini != [] {
      TerminIdsBound(termini[1..]);
      assert termini == [termini[0]] + termini[1..];
      assert TerminIds(termini) == {termini[0].terminId} + TerminIds(termini[1..]);
    }
  }

  /** The counted records of `[x] + tail` are `x` (when it counts) followed
      by the counted records of `tail`. */
  lemma AttendedCons(x: Nazocnost, tail: seq<Nazocnost>, studentId: int, termini: seq<Termin>)
    ensures AttendedRecords([x] + tail, studentId, termini)
         == (if CountsFor(x, studentId, termini) then [x] else []) + AttendedRecords(tail, studentId, termini)
  {
  }

  lemma NoDuplicateScansTail(records: seq<Nazocnost>)
    requires records != [] && NoDuplicateScans(records)
    ensures NoDuplicateScans(records[1..])
    ensures forall n :: n in records[1..] ==> n.terminId != records[0].terminId || n.studentId != records[0].studentId
  {
  }

  /** Without duplicate scans, the counted records of one student name
      pairwise different sessions. */
  lemma {:induction false} AttendedSessionsDistinct(records: seq<Nazocnost>, studentId: int, termini: seq<Termin>)
    requires NoDuplicateScans(records)
    ensures |ScannedTermini(AttendedRecords(records, studentId, termini))| == AttendedCount(records, studentId, termini)
  {
    if records != [] {
      var x := records[0];
      var tail := records[1..];
      assert records == [x] + tail;
      NoDuplicateScansTail(records);
      AttendedSessionsDistinct(tail, studentId, termini);
      AttendedCons(x, tail, studentId, termini);
      var rest := AttendedRecords(tail, studentId, termini);
      if CountsFor(x, studentId, termini) {
        assert x.terminId !in ScannedTermini(rest);
        assert ScannedTermini([x] + rest) == {x.terminId} + ScannedTermini(rest);
      }
    }
  }

  /** Without duplicate scans a student attends at most as many sessions as
      the course held. */
  lemma AttendedAtMostHeld(records: seq<Nazocnost>, studentId: int, termini: seq<Termin>)
    requires NoDuplicateScans(records)
    ensures AttendedCount(records, studentId, termini) <= |termini|
  {
    var attended := ScannedTermini(AttendedRecords(records, studentId, termini));
    AttendedSessionsDistinct(records, studentId, termini);
    assert attended <= TerminIds(termini) by {
      forall id | id in attended ensures id in TerminIds(termini) {
        var n :| n in AttendedRecords(records, studentId, termini) && n.terminId == id;
        var t :| t in termini && t.terminId == id;
      }
    }
    assert TerminIds(termini) == attended + (TerminIds(termini) - attended);
    TerminIdsBound(termini);
  }

  /** Records appended later are counted after the earlier ones. */
  lemma AttendedAppend(records: seq<Nazocnost>, extra: seq<Nazocnost>, studentId: int, termini: seq<Termin>)
    ensures AttendedRecords(records + extra, studentId, termini)
         == AttendedRecords(records, studentId, termini) + AttendedRecords(extra, studentId, termini)
  {
    FilterAppend(records, extra, (n: Nazocnost) => CountsFor(n, studentId, termini));
  }

  /** Records of other courses' sessions never change a student's count. */
  lemma ForeignRecordsIgnored(records: seq<Nazocnost>, extra: seq<Nazocnost>, studentId: int, termini: seq<Termin>)
    requires forall n :: n in extra ==> !HasTermin(termini, n.terminId)
    ensures AttendedCount(records + extra, studentId, termini) == AttendedCount(records, studentId, termini)
  {
    AttendedAppend(records, extra, studentId, termini);
  }

  /** One more record adds one to exactly the count it belongs to. */
  lemma OneMoreRecord(records: seq<Nazocnost>, n: Nazocnost, studentId: int, termini: seq<Termin>)
    ensures AttendedCount(records + [n], studentId, termini)
         == AttendedCount(records, studentId, termini) + (if CountsFor(n, studentId, termini) then 1 else 0)
  {
    AttendedAppend(records, [n], studentId, termini);
    var e := AttendedRecords([n], studentId, termini);
    assert |e| <= 1;
    if CountsFor(n, studentId, termini) {
      assert n in e;
    }
  }

  /** A course without sessions: every row shows 0 attended, 0 held and 0 percent. */
  lemma FetchEmptyCourse(kolegijId: int, students: seq<Student>, termini: seq<Termin>, records: seq<Nazocnost>)
    requires Sessions.TerminiOfKolegij(termini, kolegijId) == []
    ensures var r := FetchAttendance(kolegijId, students, termini, records, {});
      r.Ok? && forall row :: row in r.value ==>
        row.attendedCount == 0 && row.totalCount == 0 && row.percentage == 0.0
  {
  }

  /** With at most one record per session and student, every row reports
      at most as many attended sessions as were held, and a percentage
      between 0 and 100. */
  lemma FetchPercentageBounded(kolegijId: int, students: seq<Student>, termini: seq<Termin>, records: seq<Nazocnost>)
    requires NoDuplicateScans(records)
    ensures var r := FetchAttendance(kolegijId, students, termini, records, {});
      r.Ok? && forall row :: row in r.value ==>
        row.attendedCount <= row.totalCount && 0.0 <= row.percentage <= 100.0
  {
    var r := FetchAttendance(kolegijId, students, termini, records, {});
    var course := Sessions.TerminiOfKolegij(termini, kolegijId);
    forall row | row in r.value
      ensures row.attendedCount <= row.totalCount && 0.0 <= row.percentage <= 100.0
    {
      var i :| 0 <= i < |r.value| && r.value[i] == row;
      AttendedAtMostHeld(records, students[i].studentId, course);
      PercentageAtMostHundred(row.attendedCount, row.totalCount);
    }
  }

  lemma PercentageAtMostHundred(attended: nat, total: nat)
    requires attended <= total
    ensures Percentage(attended, total) <= 100.0
  {
  }

  /** Two held sessions and one scan in the first: 1 of 2, 50 percent. */
  lemma HalfAttended(s: Student, kolegijId: int)
    ensures var t1 := Termin(1, Some(kolegijId), Some(3), 600, Some(690));
      var t2 := Termin(2, Some(kolegijId), Some(3), 1000, Some(1090));
      var n := Nazocnost(1, 1, s.studentId, 605);
      FetchAttendance(kolegijId, [s], [t1, t2], [n], {})
        == Ok([AttendanceRow(s.studentId, s.ime, s.prezime, s.oib, s.slika, 1, 2, 50.0)])
  {
    var t1 := Termin(1, Some(kolegijId), Some(3), 600, Some(690));
    var t2 := Termin(2, Some(kolegijId), Some(3), 1000, Some(1090));
    var n := Nazocnost(1, 1, s.studentId, 605);
    assert Sessions.TerminiOfKolegij([t1, t2], kolegijId) == [t1, t2];
    assert CountsFor(n, s.studentId, [t1, t2]) by { assert t1 in [t1, t2]; }
    assert AttendedRecords([n], s.studentId, [t1, t2]) == [n];
    var rows := Aggregate(2, [s], [n], [t1, t2]);
    assert rows[0] == RowFor(s, 2, [n], [t1, t2]);
    assert Percentage(1, 2) == 50.0;
    assert rows == [rows[0]];
  }

  /** The report does not collapse repeated scans: two scans of one student
      in the only session of a course report 2 of 1 sessions, 200 percent. */
  lemma RepeatedScanOvercounts(s: Student, kolegijId: int)
    ensures var t := Termin(1, Some(kolegijId), Some(3), 600, Some(690));
      var n1 := Nazocnost(1, 1, s.studentId, 601);
      var n2 := Nazocnost(2, 1, s.studentId, 602);
      FetchAttendance(kolegijId, [s], [t], [n1, n2], {})
        == Ok([AttendanceRow(s.studentId, s.ime, s.prezime, s.oib, s.slika, 2, 1, 200.0)])
  {
    var t := Termin(1, Some(kolegijId), Some(3), 600, Some(690));
    var n1 := Nazocnost(1, 1, s.studentId, 601);
    var n2 := Nazocnost(2, 1, s.studentId, 602);
    assert Sessions.TerminiOfKolegij([t], kolegijId) == [t];
    TwoScansCounted(t, n1, n2, s.studentId);
    var r := FetchAttendance(kolegijId, [s], [t], [n1, n2], {});
    var row := r.value[0];
    assert row.attendedCount == 2 && row.totalCount == 1;
    assert Percentage(2, 1) == 200.0;
    assert row == AttendanceRow(s.studentId, s.ime, s.prezime, s.oib, s.slika, 2, 1, 200.0);
    assert r.value == [row];
  }

  /** Two records of one student in a session count twice. */
  lemma TwoScansCounted(t: Termin, n1: Nazocnost, n2: Nazocnost, studentId: int)
    requires n1.studentId == studentId && n1.terminId == t.terminId
    requires n2.studentId == studentId && n2.terminId == t.terminId
    ensures AttendedCount([n1, n2], studentId, [t]) == 2
  {
    assert CountsFor(n1, studentId, [t]) && CountsFor(n2, studentId, [t]) by { assert t in [t]; }
    assert [n1, n2] == [n1] + [n2];
    OneMoreRecord([n1], n2, studentId, [t]);
    OneMoreRecord([], n1, studentId, [t]);
    assert [] + [n1] == [n1];
  }

  // ----- export rendering -----

  /** The OIB cell: "N/A" for a missing or empty OIB, else the OIB trimmed. */
  function RenderOib(oib: Option<string>): (cell: string)
    ensures oib.None? || oib.value == [] ==> cell == "N/A"
    ensures oib.Some? && oib.value != [] ==> cell == Text.Trim(oib.value)
    ensures cell == "N/A" || cell == [] || (!Text.IsWhiteSpace(cell[0]) && !Text.IsWhiteSpace(cell[|cell| - 1]))
  {
    if oib.None? || oib.value == [] then "N/A" else Text.Trim(oib.value)
  }

  /** An OIB of white space only is not empty, so it renders as an empty
      cell rather than "N/A". */
  lemma BlankOibRendersEmpty(oib: string)
    requires oib != [] && forall k :: 0 <= k < |oib| ==> Text.IsWhiteSpace(oib[k])
    ensures RenderOib(Some(oib)) == []
  {
  }

  /** An OIB with white space around it renders as the OIB without it. */
  lemma PaddedOibRendersInner(lead: string, inner: string, trail: string)
    requires forall k :: 0 <= k < |lead| ==> Text.IsWhiteSpace(lead[k])
    requires forall k :: 0 <= k < |trail| ==> Text.IsWhiteSpace(trail[k])
    requires inner != [] && !Text.IsWhiteSpace(inner[0]) && !Text.IsWhiteSpace(inner[|inner| - 1])
    ensures RenderOib(Some(lead + inner + trail)) == inner
  {
    Text.TrimSurrounded(lead, inner, trail);
  }

  /** The percentage cell: the formatted percentage followed by a percent sign. */
  function RenderPercent(text: string): (cell: string)
    ensures |cell| == |text| + 1
    ensures cell[..|text|] == text && cell[|text|] == '%'
  {
    text + "%"
  }

  /** The four cells the export writes for a row (first name, last name,
      OIB, percentage); `format` renders the percentage with two decimals. */
  function ExportCells(row: AttendanceRow, format: real -> string): (cells: seq<string>)
    ensures |cells| == 4 && |cells[3]| == |format(row.percentage)| + 1
    ensures cells[0] == row.ime && cells[1] == row.prezime
    ensures cells[2] == RenderOib(row.oib)
    ensures cells[3][..|cells[3]| - 1] == format(row.percentage) && cells[3][|cells[3]| - 1] == '%'
  {
    [row.ime, row.prezime, RenderOib(row.oib), RenderPercent(format(row.percentage))]
  }
}
