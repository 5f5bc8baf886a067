/**
 * The mentorship request engine of `routes/mentorship.js`: a per-mentor state
 * machine over `mentorship_requests`, with a notification written for every
 * transition. Each route handler is one atomic transition of the store.
 */
module Mentorship {
  import opened Results
  import opened Seqs
  import opened Tables

  /** Why a handler refused; each is answered with `HttpStatus`. */
  datatype MentorshipError =
    | Unavailable       // no profile, or not available for mentorship
    | DuplicateRequest  // the student already has a request with this mentor
    | NotFound          // no PENDING request with this id owned by the caller

  function HttpStatus(e: MentorshipError): (code: int)
    ensures code == 404 <==> e == NotFound
    ensures code == 400 <==> e == Unavailable || e == DuplicateRequest
  {
    match e
    case Unavailable => 400
    case DuplicateRequest => 400
    case NotFound => 404
  }

  /* ---------- Row predicates ---------- */

  /** The row waits in the queue of mentor `alumniId`. */
  predicate IsQueuedFor(x: MentorshipRequest, alumniId: UserId) {
    x.alumniId == alumniId && x.status == Queued
  }

  /** The row is one the accept/reject UPDATE matches: this id, owned by the caller, still PENDING. */
  predicate IsOpenFor(x: MentorshipRequest, requestId: int, alumniId: UserId) {
    x.id == requestId && x.alumniId == alumniId && x.status == Pending
  }

  /** Some request, in any status, exists for this (student, mentor) pair. */
  predicate HasRequest(rs: seq<MentorshipRequest>, studentId: UserId, alumniId: UserId) {
    exists i :: 0 <= i < |rs| && rs[i].studentId == studentId && rs[i].alumniId == alumniId
  }

  /** No request waits in the queue of mentor `alumniId`. */
  predicate QueueEmpty(rs: seq<MentorshipRequest>, alumniId: UserId) {
    forall j :: 0 <= j < |rs| ==> !IsQueuedFor(rs[j], alumniId)
  }

  /* ---------- Availability and capacity ---------- */

  /** `checkAlumniAvailability`: the mentor settings of the first profile row of the user, if any. */
  function Availability(profiles: seq<AlumniProfile>, alumniId: UserId): (r: Option<MentorSettings>)
    ensures r.None? <==> forall i :: 0 <= i < |profiles| ==> profiles[i].userId != alumniId
    ensures r.Some? ==> exists i :: 0 <= i < |profiles| && profiles[i].userId == alumniId
                                 && profiles[i].mentor == r.value
  {
    match First(profiles, (p: AlumniProfile) => p.userId == alumniId)
    case None => None
    case Some(i) => Some(profiles[i].mentor)
  }

  /** The mentor has a profile and has switched mentorship on. */
  predicate IsAvailable(profiles: seq<AlumniProfile>, alumniId: UserId) {
    var m := Availability(profiles, alumniId);
    m.Some? && m.value.availableForMentorship
  }

  /** The number of ACCEPTED requests of mentor `alumniId` (`COUNT(*)` of those rows). */
  function AcceptedCount(rs: seq<MentorshipRequest>, alumniId: UserId): nat {
    |Filter(rs, (x: MentorshipRequest) => x.alumniId == alumniId && x.status == Accepted)|
  }

  /** Counting ACCEPTED rows one row at a time, from the front of the table. */
  lemma AcceptedCountCons(x: MentorshipRequest, rs: seq<MentorshipRequest>, alumniId: UserId)
    ensures AcceptedCount([x] + rs, alumniId) ==
      (if x.alumniId == alumniId && x.status == Accepted then 1 else 0) + AcceptedCount(rs, alumniId)
  {
    assert ([x] + rs)[1..] == rs;
  }

  /** `MAX(queue_position)` over the QUEUED rows of mentor `alumniId`; NULL positions are ignored. */
  function MaxQueuedPosition(rs: seq<MentorshipRequest>, alumniId: UserId): (r: Option<int>)
    ensures r.None? <==>
      forall i :: 0 <= i < |rs| && IsQueuedFor(rs[i], alumniId) ==> rs[i].queuePosition.None?
    ensures r.Some? ==>
      exists i :: 0 <= i < |rs| && IsQueuedFor(rs[i], alumniId) && rs[i].queuePosition == r
    ensures r.Some? ==>
      forall i :: 0 <= i < |rs| && IsQueuedFor(rs[i], alumniId) && rs[i].queuePosition.Some?
        ==> rs[i].queuePosition.value <= r.value
  {
    if |rs| == 0 then None
    else
      var rest := MaxQueuedPosition(rs[..|rs| - 1], alumniId);
      var last := rs[|rs| - 1];
      assert forall i :: 0 <= i < |rs| - 1 ==> rs[..|rs| - 1][i] == rs[i];
      if !IsQueuedFor(last, alumniId) || last.queuePosition.None? then rest
      else if rest.Some? && rest.value >= last.queuePosition.value then rest
      else last.queuePosition
  }

  /** `COALESCE(MAX(queue_position), 0) + 1`: the position a newly queued request takes. */
  function NextQueuePosition(rs: seq<MentorshipRequest>, alumniId: UserId): (r: int)
    ensures forall i :: 0 <= i < |rs| && IsQueuedFor(rs[i], alumniId) && rs[i].queuePosition.Some?
              ==> rs[i].queuePosition.value < r
    ensures r == 1 || exists i :: 0 <= i < |rs| && IsQueuedFor(rs[i], alumniId)
                                 && rs[i].queuePosition == Some(r - 1)
    ensures (forall i :: 0 <= i < |rs| && IsQueuedFor(rs[i], alumniId) ==> rs[i].queuePosition.None?)
              ==> r == 1
  {
    match MaxQueuedPosition(rs, alumniId)
    case None => 1
    case Some(m) => m + 1
  }

  /* ---------- Transitions ---------- */

  /** A successful create: the new store and the inserted row (the handler's response). */
  datatype Created = Created(db: Db, request: MentorshipRequest)

  /**
   * `POST /mentorship/request/:alumniId`, called by student `studentId`.
   * The request is PENDING while the mentor's ACCEPTED count is below `max_mentees`,
   * otherwise QUEUED behind every request already queued for that mentor.
   */
  function Create(db: Db, studentId: UserId, alumniId: UserId): (r: Result<Created, MentorshipError>)
    ensures r.Err? ==> r.error != NotFound
    ensures r == Err(Unavailable) <==> !IsAvailable(db.profiles, alumniId)
    ensures r == Err(DuplicateRequest) <==>
      IsAvailable(db.profiles, alumniId) && HasRequest(db.requests, studentId, alumniId)
    ensures r.Ok? ==>
      var req := r.value.request;
      && IsAvailable(db.profiles, alumniId)
      && req.id == db.nextRequestId && req.studentId == studentId && req.alumniId == alumniId
      && r.value.db == db.(requests := db.requests + [req],
                           notifications := db.notifications + [Notification(studentId, Mentorship(req.status))],
                           nextRequestId := db.nextRequestId + 1)
      && (req.status == Pending <==>
            AcceptedCount(db.requests, alumniId) < Availability(db.profiles, alumniId).value.maxMentees)
      && (req.status == Pending ==> req.queuePosition.None?)
      && (req.status != Pending ==> req.status == Queued && req.queuePosition.Some?)
    ensures r.Ok? && r.value.request.status == Queued ==>
      var pos := r.value.request.queuePosition.value;
      && (forall i :: (0 <= i < |db.requests| && IsQueuedFor(db.requests[i], alumniId) &&
                       db.requests[i].queuePosition.Some?) ==> db.requests[i].queuePosition.value < pos)
      && (pos == 1 || exists i :: 0 <= i < |db.requests| && IsQueuedFor(db.requests[i], alumniId)
                                 && db.requests[i].queuePosition == Some(pos - 1))
  {
    match Availability(db.profiles, alumniId)
    case None => Err(Unavailable)
    case Some(m) =>
      if !m.availableForMentorship then Err(Unavailable)
      else if HasRequest(db.requests, studentId, alumniId) then Err(DuplicateRequest)
      else
        var full := AcceptedCount(db.requests, alumniId) >= m.maxMentees;
        var req := MentorshipRequest(
          db.nextRequestId, studentId, alumniId,
          if full then Queued else Pending,
          if full then Some(NextQueuePosition(db.requests, alumniId)) else None);
        Ok(Created(
          db.(requests := db.requests + [req],
              notifications := db.notifications + [Notification(studentId, Mentorship(req.status))],
              nextRequestId := db.nextRequestId + 1),
          req))
  }

  /** The accept/reject UPDATE: every open row gets status `s` and a NULL queue position. */
  function Decide(rs: seq<MentorshipRequest>, requestId: int, alumniId: UserId, s: RequestStatus)
    : (r: seq<MentorshipRequest>)
    ensures |r| == |rs|
    ensures forall i :: 0 <= i < |rs| ==>
      r[i] == if IsOpenFor(rs[i], requestId, alumniId) then rs[i].(status := s, queuePosition := None) else rs[i]
  {
    seq(|rs|, i requires 0 <= i < |rs| =>
      if IsOpenFor(rs[i], requestId, alumniId) then rs[i].(status := s, queuePosition := None) else rs[i])
  }

  /** The promotion UPDATE `WHERE id=$1`: every row with this id becomes PENDING with a NULL position. */
  function Promote(rs: seq<MentorshipRequest>, id: int): (r: seq<MentorshipRequest>)
    ensures |r| == |rs|
    ensures forall i :: 0 <= i < |rs| ==>
      r[i] == if rs[i].id == id then rs[i].(status := Pending, queuePosition := None) else rs[i]
  {
    seq(|rs|, i requires 0 <= i < |rs| =>
      if rs[i].id == id then rs[i].(status := Pending, queuePosition := None) else rs[i])
  }

  /**
   * `after` arises from `before` by decisions only: every row is unchanged or has
   * left the queue, keeping its id, student and mentor, with a NULL position.
   */
  predicate OnlyDecisions(before: seq<MentorshipRequest>, after: seq<MentorshipRequest>) {
    && |after| == |before|
    && forall i :: 0 <= i < |before| ==>
         || after[i] == before[i]
         || (after[i] == before[i].(status := after[i].status, queuePosition := None) && after[i].status != Queued)
  }

  /** An accept or reject UPDATE is a decision, and moves no row into or out of any queue. */
  lemma DecideOnlyDecides(rs: seq<MentorshipRequest>, requestId: int, alumniId: UserId, s: RequestStatus)
    requires s != Queued
    ensures OnlyDecisions(rs, Decide(rs, requestId, alumniId, s))
    ensures forall j, m :: 0 <= j < |rs| ==>
      (IsQueuedFor(Decide(rs, requestId, alumniId, s)[j], m) <==> IsQueuedFor(rs[j], m))
  {
  }

  /** A promotion is a decision. */
  lemma PromoteOnlyDecides(rs: seq<MentorshipRequest>, id: int)
    ensures OnlyDecisions(rs, Promote(rs, id))
  {
  }

  /** Two rounds of decisions are one round of decisions. */
  lemma OnlyDecisionsCompose(a: seq<MentorshipRequest>, b: seq<MentorshipRequest>, c: seq<MentorshipRequest>)
    requires OnlyDecisions(a, b) && OnlyDecisions(b, c)
    ensures OnlyDecisions(a, c)
  {
  }

  /** The first row the accept/reject UPDATE matches; its student is the one notified. */
  function FirstOpen(rs: seq<MentorshipRequest>, requestId: int, alumniId: UserId): (r: Option<nat>)
    ensures r.Some? ==> r.value < |rs| && IsOpenFor(rs[r.value], requestId, alumniId)
    ensures r.None? <==> forall i :: 0 <= i < |rs| ==> !IsOpenFor(rs[i], requestId, alumniId)
  {
    First(rs, (x: MentorshipRequest) => IsOpenFor(x, requestId, alumniId))
  }

  /** `ORDER BY queue_position ASC`: position `p` sorts strictly before `q`; NULL sorts last. */
  predicate PosBefore(p: Option<int>, q: Option<int>) {
    p.Some? && (q.None? || p.value < q.value)
  }

  /** Row `k` is a first row of `SELECT … WHERE alumni_id=$1 AND status='QUEUED' ORDER BY queue_position`. */
  predicate IsQueueHead(rs: seq<MentorshipRequest>, alumniId: UserId, k: int) {
    && 0 <= k < |rs| && IsQueuedFor(rs[k], alumniId)
    && forall j :: 0 <= j < |rs| && IsQueuedFor(rs[j], alumniId)
         ==> !PosBefore(rs[j].queuePosition, rs[k].queuePosition)
  }

  /** The queued request the accept handler promotes (`LIMIT 1`; equal positions: the earliest row). */
  function QueueHead(rs: seq<MentorshipRequest>, alumniId: UserId): (r: Option<nat>)
    ensures r.Some? ==> IsQueueHead(rs, alumniId, r.value)
    ensures r.None? <==> QueueEmpty(rs, alumniId)
  {
    if |rs| == 0 then None
    else
      var rest := QueueHead(rs[..|rs| - 1], alumniId);
      var n := |rs| - 1;
      assert forall i :: 0 <= i < n ==> rs[..n][i] == rs[i];
      if !IsQueuedFor(rs[n], alumniId) then rest
      else if rest.None? then Some(n)
      else if PosBefore(rs[n].queuePosition, rs[rest.value].queuePosition) then Some(n)
      else rest
  }

  /**
   * `POST /mentorship/:id/accept`, called by mentor `alumniId`: the PENDING request
   * becomes ACCEPTED, its student is notified, and the head of the mentor's queue,
   * if any, is promoted to PENDING and its student notified.
   */
  function Accept(db: Db, alumniId: UserId, requestId: int): (r: Result<Db, MentorshipError>)
    ensures r.Err? <==> forall i :: 0 <= i < |db.requests| ==> !IsOpenFor(db.requests[i], requestId, alumniId)
    ensures r.Err? ==> r.error == NotFound
    ensures r.Ok? ==>
      && r.value == db.(requests := r.value.requests, notifications := r.value.notifications)
      && OnlyDecisions(db.requests, r.value.requests)
      && |r.value.notifications| > |db.notifications|
      && r.value.notifications[..|db.notifications|] == db.notifications
      && r.value.notifications[|db.notifications|].kind == Mentorship(Accepted)
    ensures r.Ok? && QueueEmpty(db.requests, alumniId) ==>
      && |r.value.notifications| == |db.notifications| + 1
      && forall i :: 0 <= i < |db.requests| ==>
           r.value.requests[i] == if IsOpenFor(db.requests[i], requestId, alumniId)
                                  then db.requests[i].(status := Accepted, queuePosition := None)
                                  else db.requests[i]
    ensures r.Ok? && !QueueEmpty(db.requests, alumniId) ==>
      && |r.value.notifications| == |db.notifications| + 2
      && r.value.notifications[|db.notifications| + 1].kind == Mentorship(Pending)
  {
    match FirstOpen(db.requests, requestId, alumniId)
    case None => Err(NotFound)
    case Some(t) =>
      var accepted := Decide(db.requests, requestId, alumniId, Accepted);
      var log := db.notifications + [Notification(db.requests[t].studentId, Mentorship(Accepted))];
      DecideOnlyDecides(db.requests, requestId, alumniId, Accepted);
      assert log[..|db.notifications|] == db.notifications;
      match QueueHead(accepted, alumniId)
      case None => Ok(db.(requests := accepted, notifications := log))
      case Some(k) =>
        var promoted := Promote(accepted, accepted[k].id);
        PromoteOnlyDecides(accepted, accepted[k].id);
        OnlyDecisionsCompose(db.requests, accepted, promoted);
        var log' := log + [Notification(accepted[k].studentId, Mentorship(Pending))];
        assert log'[..|db.notifications|] == db.notifications && log'[|db.notifications|] == log[|db.notifications|];
        Ok(db.(requests := promoted, notifications := log'))
  }

  /**
   * `POST /mentorship/:id/reject`, called by mentor `alumniId`: the PENDING request
   * becomes REJECTED and its student is notified; the queue does not move.
   */
  function Reject(db: Db, alumniId: UserId, requestId: int): (r: Result<Db, MentorshipError>)
    ensures r.Err? <==> forall i :: 0 <= i < |db.requests| ==> !IsOpenFor(db.requests[i], requestId, alumniId)
    ensures r.Err? ==> r.error == NotFound
    ensures r.Ok? ==>
      && r.value == db.(requests := r.value.requests, notifications := r.value.notifications)
      && |r.value.requests| == |db.requests|
      && (forall i :: 0 <= i < |db.requests| ==>
            r.value.requests[i] == if IsOpenFor(db.requests[i], requestId, alumniId)
                                   then db.requests[i].(status := Rejected, queuePosition := None)
                                   else db.requests[i])
      && |r.value.notifications| == |db.notifications| + 1
      && r.value.notifications[..|db.notifications|] == db.notifications
      && r.value.notifications[|db.notifications|].kind == Mentorship(Rejected)
    ensures r.Ok? ==> OnlyDecisions(db.requests, r.value.requests)
  {
    match FirstOpen(db.requests, requestId, alumniId)
    case None => Err(NotFound)
    case Some(t) =>
      Ok(db.(requests := Decide(db.requests, requestId, alumniId, Rejected),
             notifications := db.notifications + [Notification(db.requests[t].studentId, Mentorship(Rejected))]))
  }

  /* ---------- Listings ---------- */

  /** The PENDING requests of mentor `alumniId`, in table order. */
  function PendingRows(rs: seq<MentorshipRequest>, alumniId: UserId): seq<MentorshipRequest> {
    Filter(rs, (x: MentorshipRequest) => x.alumniId == alumniId && x.status == Pending)
  }

  /** The requests student `studentId` sent, in table order. */
  function SentRows(rs: seq<MentorshipRequest>, studentId: UserId): seq<MentorshipRequest> {
    Filter(rs, (x: MentorshipRequest) => x.studentId == studentId)
  }

  /**
   * `GET /mentorship/incoming`: the caller's PENDING requests, one entry per row,
   * newest first (`MentorshipInvariants.ListingsNewestFirst`).
   */
  function Incoming(db: Db, alumniId: UserId): (r: seq<MentorshipRequest>)
    ensures forall i :: 0 <= i < |r| ==> r[i] in db.requests && r[i].alumniId == alumniId && r[i].status == Pending
    ensures forall i :: (0 <= i < |db.requests| && db.requests[i].alumniId == alumniId &&
                        db.requests[i].status == Pending) ==> db.requests[i] in r
    ensures |r| == |PendingRows(db.requests, alumniId)|
  {
    var rows := PendingRows(db.requests, alumniId);
    ReverseKeepsRows(rows);
    Reverse(rows)
  }

  /**
   * `GET /mentorship/accepted`: the caller's ACCEPTED requests, one entry per row,
   * newest first.
   */
  function AcceptedMentees(db: Db, alumniId: UserId): (r: seq<MentorshipRequest>)
    ensures forall i :: 0 <= i < |r| ==> r[i] in db.requests && r[i].alumniId == alumniId && r[i].status == Accepted
    ensures forall i :: (0 <= i < |db.requests| && db.requests[i].alumniId == alumniId &&
                        db.requests[i].status == Accepted) ==> db.requests[i] in r
    ensures |r| == AcceptedCount(db.requests, alumniId)
  {
    var rows := Filter(db.requests, (x: MentorshipRequest) => x.alumniId == alumniId && x.status == Accepted);
    ReverseKeepsRows(rows);
    Reverse(rows)
  }

  /**
   * `GET /mentorship/my-requests`: every request the caller sent as a student,
   * one entry per row, newest first.
   */
  function MyRequests(db: Db, studentId: UserId): (r: seq<MentorshipRequest>)
    ensures forall i :: 0 <= i < |r| ==> r[i] in db.requests && r[i].studentId == studentId
    ensures forall i :: 0 <= i < |db.requests| && db.requests[i].studentId == studentId ==> db.requests[i] in r
    ensures |r| == |SentRows(db.requests, studentId)|
  {
    var rows := SentRows(db.requests, studentId);
    ReverseKeepsRows(rows);
    Reverse(rows)
  }

  /** Reversing keeps exactly the same rows. */
  lemma ReverseKeepsRows(xs: seq<MentorshipRequest>)
    ensures forall x :: x in Reverse(xs) <==> x in xs
  {
    var r := Reverse(xs);
    forall x | x in xs ensures x in r {
      var i :| 0 <= i < |xs| && xs[i] == x;
      assert r[|xs| - 1 - i] == x;
    }
  }
}
