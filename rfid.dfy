/** Card scan handling (RfidController): request validation, the student
    that holds the card, the session the scan belongs to, and the outcome
    that decides whether a record is written. */
module Rfid {
  import opened Entities
  import opened Seqs
  import Sessions

  /** A scan is attributed to a session that started at most this many
      minutes earlier. */
  const ScanWindowMinutes: int := 15

  /** Body of `POST api/rfid/scan`: card identifier and room of the reader. */
  datatype RfidRequest = RfidRequest(uid: Option<string>, dvoranaId: int)

  /** Outcome of a scan; only `Recorded` writes a record. Several students
      with the card, or several matching sessions, make the store's
      single-row read fail, and each is its own outcome here. */
  datatype ScanOutcome =
    | InvalidRequest
    | StudentNotFound
    | AmbiguousStudent
    | NoTerminFound
    | AmbiguousTermin
    | Recorded(terminId: int, studentId: int)

  /** A body is present, with a non-empty card identifier and a positive room. */
  predicate ValidRequest(request: Option<RfidRequest>)
  {
    && request.Some?
    && request.value.uid.Some?
    && request.value.uid.value != []
    && request.value.dvoranaId > 0
  }

  /** The students whose card number is `uid`. */
  function CardHolders(students: seq<Student>, uid: string): (r: seq<Student>)
    ensures forall s :: s in r <==> s in students && s.brKartice == Some(uid)
  {
    Filter(students, (s: Student) => s.brKartice == Some(uid))
  }

  /** Session `t` accepts a scan in room `room` at `now`: it started within
      the last 15 minutes (both bounds included), its end is recorded and not
      before `now`, and it is held in that room. A session whose end is NULL
      fails the end comparison. */
  predicate IsCandidate(t: Termin, room: int, now: Time)
  {
    && now - ScanWindowMinutes <= t.startTime <= now
    && t.endTime.Some? && t.endTime.value >= now
    && t.dvoranaId == Some(room)
  }

  /** The sessions that accept the scan, in table order. */
  function Candidates(termini: seq<Termin>, room: int, now: Time): (r: seq<Termin>)
    ensures forall t :: t in r <==> t in termini && IsCandidate(t, room, now)
  {
    Filter(termini, (t: Termin) => IsCandidate(t, room, now))
  }

  /** What `ScanRfid` decides for a scan at `now`: the request is checked
      before any lookup, the card before the sessions, and a record is due
      only for exactly one card holder and exactly one candidate session.
      Existing records play no part: a repeated scan is recorded again. */
  function Decide(students: seq<Student>, termini: seq<Termin>, request: Option<RfidRequest>, now: Time): (o: ScanOutcome)
    ensures o == InvalidRequest <==> !ValidRequest(request)
    ensures o == StudentNotFound <==>
      ValidRequest(request) && forall s :: s in students ==> s.brKartice != Some(request.value.uid.value)
    ensures o == AmbiguousStudent <==>
      ValidRequest(request) && |CardHolders(students, request.value.uid.value)| > 1
    ensures o == NoTerminFound <==>
      && ValidRequest(request)
      && |CardHolders(students, request.value.uid.value)| == 1
      && |Candidates(termini, request.value.dvoranaId, now)| == 0
    // the clause above, stated over the sessions themselves rather than `Candidates`
    ensures o == NoTerminFound ==>
      ValidRequest(request) && forall t :: t in termini ==> !IsCandidate(t, request.value.dvoranaId, now)
    ensures o == AmbiguousTermin <==>
      && ValidRequest(request)
      && |CardHolders(students, request.value.uid.value)| == 1
      && |Candidates(termini, request.value.dvoranaId, now)| > 1
    ensures o.Recorded? ==> ValidRequest(request)
    ensures o.Recorded? ==>
      exists s :: s in students && s.brKartice == Some(request.value.uid.value) && s.studentId == o.studentId
    ensures o.Recorded? ==>
      exists t :: t in termini && t.terminId == o.terminId && IsCandidate(t, request.value.dvoranaId, now)
  {
    if !ValidRequest(request) then InvalidRequest
    else
      var holders := CardHolders(students, request.value.uid.value);
      var matches := Candidates(termini, request.value.dvoranaId, now);
      assert |holders| == 1 ==> holders[0] in holders;
      assert |matches| == 1 ==> matches[0] in matches;
      DecideFor(holders, matches)
  }

  /** The outcome of a valid scan from the card holders and the candidate
      sessions: the card is resolved first, then the session. */
  function DecideFor(holders: seq<Student>, matches: seq<Termin>): (o: ScanOutcome)
    ensures o == StudentNotFound <==> |holders| == 0
    ensures o == AmbiguousStudent <==> |holders| > 1
    ensures o == NoTerminFound <==> |holders| == 1 && |matches| == 0
    ensures o == AmbiguousTermin <==> |holders| == 1 && |matches| > 1
    ensures o.Recorded? <==> |holders| == 1 && |matches| == 1
    ensures o != InvalidRequest
    ensures o.Recorded? ==> o == Recorded(matches[0].terminId, holders[0].studentId)
  {
    if |holders| == 0 then StudentNotFound
    else if |holders| > 1 then AmbiguousStudent
    else if |matches| == 0 then NoTerminFound
    else if |matches| > 1 then AmbiguousTermin
    else Recorded(matches[0].terminId, holders[0].studentId)
  }

  /** A valid scan whose card is held by one student and whose room has one
      session in its window at `now` records that student at that session. */
  lemma UniqueMatchRecorded(students: seq<Student>, termini: seq<Termin>, request: Option<RfidRequest>, now: Time,
                            s: Student, t: Termin)
    requires ValidRequest(request)
    requires multiset(students)[s] == 1 && s.brKartice == Some(request.value.uid.value)
    requires forall s' :: s' in students && s'.brKartice == Some(request.value.uid.value) ==> s' == s
    requires multiset(termini)[t] == 1 && IsCandidate(t, request.value.dvoranaId, now)
    requires forall t' :: t' in termini && IsCandidate(t', request.value.dvoranaId, now) ==> t' == t
    ensures Decide(students, termini, request, now) == Recorded(t.terminId, s.studentId)
  {
    var uid := request.value.uid.value;
    var room := request.value.dvoranaId;
    FilterSingle(students, (x: Student) => x.brKartice == Some(uid), s);
    FilterSingle(termini, (x: Termin) => IsCandidate(x, room, now), t);
  }

  /** A valid scan whose card has one holder, made when no session of its
      room is in its window, records nothing and reports NoTerminFound. */
  lemma OutsideEveryWindowNotFound(students: seq<Student>, termini: seq<Termin>, request: Option<RfidRequest>, now: Time, s: Student)
    requires ValidRequest(request)
    requires multiset(students)[s] == 1 && s.brKartice == Some(request.value.uid.value)
    requires forall s' :: s' in students && s'.brKartice == Some(request.value.uid.value) ==> s' == s
    requires forall t :: t in termini ==> now < t.startTime || now > t.startTime + ScanWindowMinutes
    ensures Decide(students, termini, request, now) == NoTerminFound
  {
    FilterSingle(students, (x: Student) => x.brKartice == Some(request.value.uid.value), s);
  }

  /** A scan more than 15 minutes after a session started, or before it
      started, never matches that session. */
  lemma OutsideWindowNoMatch(t: Termin, room: int, now: Time)
    requires now < t.startTime || now > t.startTime + ScanWindowMinutes
    ensures !IsCandidate(t, room, now)
  {
  }

  /** A session `StartTermin` creates accepts scans in its room for the whole
      first 15 minutes, from its start on. */
  lemma StartedTerminAcceptsScans(id: int, request: Sessions.StartTerminRequest, start: Time, now: Time)
    requires start <= now <= start + ScanWindowMinutes
    ensures IsCandidate(Sessions.NewTermin(id, request, start), request.dvoranaId, now)
  {
  }

  /** Once a session has been closed at `t`, no later scan matches it. */
  lemma NoMatchAfterEnd(termin: Termin, t: Time, room: int, now: Time)
    requires now > t
    ensures !IsCandidate(Sessions.Ended(termin, t), room, now)
  {
  }
}
