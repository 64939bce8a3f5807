/** The session table (`termini`) as TerminController sees it: the row a
    started session gets, closing a session, and the two lookups. */
module Sessions {
  import opened Entities
  import opened Seqs

  /** A started session runs for an hour and a half. */
  const SessionMinutes: int := 90

  /** Body of `POST api/termin/start`. */
  datatype StartTerminRequest = StartTerminRequest(kolegijId: int, dvoranaId: int)

  /** Message of a failed session insert, reused by the session queries. */
  const ErrorStartingTermin: string := "Error starting termin"

  /** The row `StartTermin` inserts at time `now`, with identity `id`
      given by the store. */
  function NewTermin(id: int, request: StartTerminRequest, now: Time): (t: Termin)
    ensures t.terminId == id
    ensures t.kolegijId == Some(request.kolegijId) && t.dvoranaId == Some(request.dvoranaId)
    ensures t.startTime == now
    ensures t.endTime.Some? && t.endTime.value - t.startTime == SessionMinutes
    ensures t.endTime.value > t.startTime
  {
    Termin(id, Some(request.kolegijId), Some(request.dvoranaId), now, Some(now + SessionMinutes))
  }

  /** The row `EndTermin` writes back: the same session, closed at `now`. */
  function Ended(t: Termin, now: Time): (e: Termin)
    ensures e.endTime == Some(now)
    ensures e.terminId == t.terminId && e.kolegijId == t.kolegijId
    ensures e.dvoranaId == t.dvoranaId && e.startTime == t.startTime
  {
    t.(endTime := Some(now))
  }

  /** The sessions of course `kolegijId`, in table order: the filter shared
      by the session list and the session count of a course. A session
      without a course belongs to none. */
  function TerminiOfKolegij(termini: seq<Termin>, kolegijId: int): (r: seq<Termin>)
    ensures forall t :: t in r <==> t in termini && t.kolegijId == Some(kolegijId)
    ensures forall t :: multiset(r)[t] == if t.kolegijId == Some(kolegijId) then multiset(termini)[t] else 0
  {
    Filter(termini, (t: Termin) => t.kolegijId == Some(kolegijId))
  }

  /** Later sessions first. */
  predicate SortedByStartDescending(s: seq<Termin>)
  {
    forall i, j :: 0 <= i < j < |s| ==> s[i].startTime >= s[j].startTime
  }

  /** `t` placed into a list sorted latest-first, ahead of every session that
      did not start later than it. */
  function InsertByStart(t: Termin, s: seq<Termin>): (r: seq<Termin>)
    requires SortedByStartDescending(s)
    ensures SortedByStartDescending(r)
    ensures multiset(r) == multiset(s) + multiset{t}
    ensures |r| == |s| + 1
  {
    if s == [] || t.startTime >= s[0].startTime then [t] + s
    else
      var rest := InsertByStart(t, s[1..]);
      assert s == [s[0]] + s[1..];
      LaterHeadBoundsRest(t, s, rest);
      [s[0]] + rest
  }

  /** Every session of `s[1..]` plus one that started earlier than `s[0]`
      started no later than `s[0]`. */
  lemma LaterHeadBoundsRest(t: Termin, s: seq<Termin>, rest: seq<Termin>)
    requires SortedByStartDescending(s) && s != [] && t.startTime < s[0].startTime
    requires multiset(rest) == multiset(s[1..]) + multiset{t}
    ensures forall x :: x in rest ==> x.startTime <= s[0].startTime
  {
    forall x | x in rest ensures x.startTime <= s[0].startTime {
      assert multiset(rest)[x] > 0;
      assert x == t || x in multiset(s[1..]);
    }
  }

  /** The sessions of `s` ordered by start time, latest first. The order of
      sessions with equal start times is fixed by the store, not by the
      source; this one keeps them in table order. */
  function SortByStartDescending(s: seq<Termin>): (r: seq<Termin>)
    ensures SortedByStartDescending(r)
    ensures multiset(r) == multiset(s)
    ensures |r| == |s|
  {
    if s == [] then []
    else
      assert s == [s[0]] + s[1..];
      InsertByStart(s[0], SortByStartDescending(s[1..]))
  }

  /** `GET api/termin/kolegij/{kolegijId}`: the sessions of one course,
      latest first; `queryFails` is a failed store response. */
  function GetTerminByKolegijId(termini: seq<Termin>, kolegijId: int, queryFails: bool): (r: Result<seq<Termin>>)
    ensures r.Err? <==> queryFails
    ensures r.Err? ==> r.message == ErrorStartingTermin
    ensures r.Ok? ==> SortedByStartDescending(r.value)
    ensures r.Ok? ==> forall t :: multiset(r.value)[t] == if t.kolegijId == Some(kolegijId) then multiset(termini)[t] else 0
  {
    if queryFails then Err(ErrorStartingTermin)
    else Ok(SortByStartDescending(TerminiOfKolegij(termini, kolegijId)))
  }

  /** Position of the first session with identity `id`, if any. */
  function FindTermin(termini: seq<Termin>, id: int): (r: Option<nat>)
    ensures r.None? <==> forall t :: t in termini ==> t.terminId != id
    ensures r.Some? ==> r.value < |termini| && termini[r.value].terminId == id
    ensures r.Some? ==> forall k :: 0 <= k < r.value ==> termini[k].terminId != id
  {
    if termini == [] then None
    else if termini[0].terminId == id then Some(0)
    else
      match FindTermin(termini[1..], id)
      case None => None
      case Some(k) => Some(k + 1)
  }

  /** `GET api/termin/{id}`: the session with that identity, or nothing
      (NotFound). */
  function GetTerminById(termini: seq<Termin>, id: int): (r: Option<Termin>)
    ensures r.None? <==> forall t :: t in termini ==> t.terminId != id
    ensures r.Some? ==> r.value in termini && r.value.terminId == id
    ensures r.Some? && UniqueTerminIds(termini) ==> forall t :: t in termini && t.terminId == id ==> t == r.value
  {
    match FindTermin(termini, id)
    case None => None
    case Some(i) => Some(termini[i])
  }

  /** Ordering by start time and selecting by course commute with each
      other: the result of the course query holds exactly the course's
      sessions. */
  lemma GetTerminByKolegijIdMembers(termini: seq<Termin>, kolegijId: int)
    ensures var r := GetTerminByKolegijId(termini, kolegijId, false);
      r.Ok? && forall t :: t in r.value <==> t in termini && t.kolegijId == Some(kolegijId)
  {
  }
}
