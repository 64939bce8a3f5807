/** The record store the controllers act on, held in memory: the student,
    session and attendance tables, and the identities the store hands out
    on insert. */
module Store {
  import opened Entities
  import Sessions
  import Rfid

  /** Outcome of `StartTermin`. */
  datatype StartOutcome = Started | StartFailed(message: string)

  /** Record `n` points to a student of `students` and to a session of
      `termini` that started in the 15 minutes up to the scan. */
  ghost predicate RecordBacked(n: Nazocnost, students: seq<Student>, termini: seq<Termin>)
  {
    && (exists s :: s in students && s.studentId == n.studentId)
    && (exists t :: t in termini && t.terminId == n.terminId
          && n.dateScanned - Rfid.ScanWindowMinutes <= t.startTime <= n.dateScanned)
  }

  class Store {
    var students: seq<Student>
    var termini: seq<Termin>
    var nazocnosti: seq<Nazocnost>
    var nextTerminId: int
    var nextNazocnostId: int

    /** Session and record identities are below the next ones to hand out,
        sessions have distinct identities, and every record is backed. */
    ghost predicate Valid()
      reads this
    {
      && UniqueTerminIds(termini)
      && (forall t :: t in termini ==> t.terminId < nextTerminId)
      && (forall n :: n in nazocnosti ==> n.nazocnostId < nextNazocnostId)
      && (forall n :: n in nazocnosti ==> RecordBacked(n, students, termini))
    }

    /** A store with the given students and no sessions or records yet. */
    constructor (students: seq<Student>)
      ensures Valid()
      ensures this.students == students && termini == [] && nazocnosti == []
    {
      this.students := students;
      termini := [];
      nazocnosti := [];
      nextTerminId := 1;
      nextNazocnostId := 1;
    }

    /** `POST api/rfid/scan` at time `now`: the outcome is the one `Decide`
        gives on the current tables; a `Recorded` outcome appends one record
        stamped `now`, anything else leaves the store as it was. */
    method ScanRfid(request: Option<Rfid.RfidRequest>, now: Time) returns (outcome: Rfid.ScanOutcome)
      requires Valid()
      modifies this
      ensures Valid()
      ensures outcome == Rfid.Decide(old(students), old(termini), request, now)
      ensures students == old(students) && termini == old(termini) && nextTerminId == old(nextTerminId)
      ensures outcome.Recorded? ==>
        && nazocnosti == old(nazocnosti) + [Nazocnost(old(nextNazocnostId), outcome.terminId, outcome.studentId, now)]
        && nextNazocnostId == old(nextNazocnostId) + 1
      ensures !outcome.Recorded? ==> nazocnosti == old(nazocnosti) && nextNazocnostId == old(nextNazocnostId)
    {
      if !Rfid.ValidRequest(request) {
        return Rfid.InvalidRequest;
      }
      var uid := request.value.uid.value;
      var room := request.value.dvoranaId;

      var holders := Rfid.CardHolders(students, uid);
      assert Rfid.Decide(students, termini, request, now) == Rfid.DecideFor(holders, Rfid.Candidates(termini, room, now));
      if |holders| == 0 {
        return Rfid.StudentNotFound;
      }
      if |holders| > 1 {
        return Rfid.AmbiguousStudent;
      }
      var student := holders[0];

      var matches := Rfid.Candidates(termini, room, now);
      if |matches| == 0 {
        return Rfid.NoTerminFound;
      }
      if |matches| > 1 {
        return Rfid.AmbiguousTermin;
      }
      var termin := matches[0];

      var record := Nazocnost(nextNazocnostId, termin.terminId, student.studentId, now);
      assert student in holders && termin in matches;
      assert RecordBacked(record, students, termini);
      ghost var before := nazocnosti;
      nazocnosti := nazocnosti + [record];
      forall n | n in nazocnosti ensures RecordBacked(n, students, termini) && n.nazocnostId < nextNazocnostId + 1 {
        if n != record {
          assert n in before;
        }
      }
      nextNazocnostId := nextNazocnostId + 1;
      outcome := Rfid.Recorded(termin.terminId, student.studentId);
    }

    /** `POST api/termin/start` at time `now`: when the insert succeeds, one
        session starting now and ending 90 minutes later is appended under a
        new identity; otherwise nothing changes. */
    method StartTermin(request: Sessions.StartTerminRequest, now: Time, insertSucceeds: bool) returns (outcome: StartOutcome)
      requires Valid()
      modifies this
      ensures Valid()
      ensures students == old(students) && nazocnosti == old(nazocnosti) && nextNazocnostId == old(nextNazocnostId)
      ensures insertSucceeds ==>
        && outcome == Started
        && termini == old(termini) + [Sessions.NewTermin(old(nextTerminId), request, now)]
        && nextTerminId == old(nextTerminId) + 1
      ensures !insertSucceeds ==>
        outcome == StartFailed(Sessions.ErrorStartingTermin) && termini == old(termini) && nextTerminId == old(nextTerminId)
    {
      if !insertSucceeds {
        return StartFailed(Sessions.ErrorStartingTermin);
      }
      var t := Sessions.NewTermin(nextTerminId, request, now);
      ghost var before := termini;
      termini := termini + [t];
      forall n | n in nazocnosti ensures RecordBacked(n, students, termini) {
        var w :| w in before && w.terminId == n.terminId
                 && n.dateScanned - Rfid.ScanWindowMinutes <= w.startTime <= n.dateScanned;
        assert w in termini;
      }
      nextTerminId := nextTerminId + 1;
      outcome := Started;
    }

    /** `PUT api/termin/{terminId}/end` at time `now`: the session with that
        identity gets end time `now` and nothing else changes; an unknown
        identity changes nothing and yields no session (NotFound). */
    method EndTermin(terminId: int, now: Time) returns (ended: Option<Termin>)
      requires Valid()
      modifies this
      ensures Valid()
      ensures students == old(students) && nazocnosti == old(nazocnosti)
      ensures nextTerminId == old(nextTerminId) && nextNazocnostId == old(nextNazocnostId)
      ensures ended.None? <==> forall t :: t in old(termini) ==> t.terminId != terminId
      ensures ended.None? ==> termini == old(termini)
      ensures ended.Some? ==>
        exists i :: 0 <= i < |old(termini)| && old(termini)[i].terminId == terminId
          && ended.value == Sessions.Ended(old(termini)[i], now)
          && termini == old(termini)[i := ended.value]
    {
      var found := Sessions.FindTermin(termini, terminId);
      if found.None? {
        return None;
      }
      var i := found.value;
      var t := Sessions.Ended(termini[i], now);
      ghost var before := termini;
      termini := termini[i := t];
      forall n | n in nazocnosti ensures RecordBacked(n, students, termini) {
        var w :| w in before && w.terminId == n.terminId
                 && n.dateScanned - Rfid.ScanWindowMinutes <= w.startTime <= n.dateScanned;
        var j :| 0 <= j < |before| && before[j] == w;
        assert termini[j].terminId == w.terminId && termini[j].startTime == w.startTime;
        assert termini[j] in termini;
      }
      assert UniqueTerminIds(termini) by {
        forall a, b | 0 <= a < b < |termini| ensures termini[a].terminId != termini[b].terminId {
          assert termini[a].terminId == before[a].terminId && termini[b].terminId == before[b].terminId;
        }
      }
      forall u | u in termini ensures u.terminId < nextTerminId {
        var j :| 0 <= j < |termini| && termini[j] == u;
        assert u.terminId == before[j].terminId && before[j] in before;
      }
      ended := Some(t);
    }
  }

  /** The source does not deduplicate: a card scanned twice at the same
      instant, with one matching session, leaves two records for the same
      session and student. */
  method RepeatedScanRecordsTwice(store: Store, request: Option<Rfid.RfidRequest>, now: Time)
    returns (first: Rfid.ScanOutcome, second: Rfid.ScanOutcome)
    requires store.Valid()
    modifies store
    ensures store.Valid()
    ensures second == first
    ensures first.Recorded? ==>
      var k := |old(store.nazocnosti)|;
      && |store.nazocnosti| == k + 2
      && store.nazocnosti[k].terminId == store.nazocnosti[k + 1].terminId == first.terminId
      && store.nazocnosti[k].studentId == store.nazocnosti[k + 1].studentId == first.studentId
  {
    first := store.ScanRfid(request, now);
    second := store.ScanRfid(request, now);
  }
}
