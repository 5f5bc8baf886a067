/**
 * What the mentorship handlers guarantee when run one after another on the
 * store: the invariant `Valid` they all preserve, and the exact effect of an
 * accept or a reject on a store that satisfies it.
 */
module MentorshipInvariants {
  import opened Results
  import opened Seqs
  import opened Tables
  import opened Mentorship

  /* ---------- The invariant ---------- */

  /** Every request id was handed out by the serial counter. */
  predicate IdsIssued(rs: seq<MentorshipRequest>, nextId: int) {
    forall i :: 0 <= i < |rs| ==> rs[i].id < nextId
  }

  /** Request ids are distinct. */
  predicate IdsUnique(rs: seq<MentorshipRequest>) {
    forall i, j :: 0 <= i < j < |rs| ==> rs[i].id != rs[j].id
  }

  /**
   * Request ids ascend in table order: each row is inserted with the next serial
   * id, so a later row is a newer request (and ids are distinct).
   */
  predicate IdsAscending(rs: seq<MentorshipRequest>) {
    forall i, j :: 0 <= i < j < |rs| ==> rs[i].id < rs[j].id
  }

  /** At most one request exists per (student, mentor) pair, whatever its status. */
  predicate PairsUnique(rs: seq<MentorshipRequest>) {
    forall i, j :: 0 <= i < j < |rs| ==> rs[i].studentId != rs[j].studentId || rs[i].alumniId != rs[j].alumniId
  }

  /** A row has a queue position exactly when it is QUEUED, and positions are at least 1. */
  predicate PositionsWellFormed(rs: seq<MentorshipRequest>) {
    forall i :: 0 <= i < |rs| ==>
      && (rs[i].queuePosition.Some? <==> rs[i].status == Queued)
      && (rs[i].queuePosition.Some? ==> rs[i].queuePosition.value >= 1)
  }

  /**
   * Within one mentor's queue, positions strictly increase in creation order,
   * so they are pairwise distinct (but need not be dense from 1).
   */
  predicate QueueOrdered(rs: seq<MentorshipRequest>) {
    forall i, j :: 0 <= i < j < |rs| && IsQueuedFor(rs[i], rs[j].alumniId) && rs[j].status == Queued ==>
      PosBefore(rs[i].queuePosition, rs[j].queuePosition)
  }

  /** The invariant of the mentorship tables. */
  predicate Valid(db: Db) {
    && IdsIssued(db.requests, db.nextRequestId)
    && IdsAscending(db.requests)
    && PairsUnique(db.requests)
    && PositionsWellFormed(db.requests)
    && QueueOrdered(db.requests)
  }

  /** The empty store satisfies the invariant. */
  lemma EmptyIsValid(db: Db)
    requires db.requests == []
    ensures Valid(db)
  {
  }

  /* ---------- Preservation ---------- */

  /** A successful create keeps the invariant. */
  lemma CreatePreservesValid(db: Db, studentId: UserId, alumniId: UserId)
    requires Valid(db)
    requires Create(db, studentId, alumniId).Ok?
    ensures Valid(Create(db, studentId, alumniId).value.db)
  {
    var c := Create(db, studentId, alumniId).value;
    var req := c.request;
    if req.status == Queued {
      var pos := req.queuePosition.value;
      if pos != 1 {
        var i :| 0 <= i < |db.requests| && IsQueuedFor(db.requests[i], alumniId)
                 && db.requests[i].queuePosition == Some(pos - 1);
        assert db.requests[i].queuePosition.value >= 1;
      }
      forall i | 0 <= i < |db.requests| && IsQueuedFor(db.requests[i], alumniId)
        ensures PosBefore(db.requests[i].queuePosition, req.queuePosition)
      {
        assert db.requests[i].queuePosition.Some?;
      }
    }
    AppendPreservesValid(db, req, c.db);
  }

  /**
   * Appending a request with a fresh id, for a new pair, that queues (if at all)
   * behind every queued request of its mentor keeps the invariant.
   */
  lemma AppendPreservesValid(db: Db, req: MentorshipRequest, db': Db)
    requires Valid(db)
    requires db'.requests == db.requests + [req] && db'.nextRequestId == db.nextRequestId + 1
    requires req.id == db.nextRequestId
    requires !HasRequest(db.requests, req.studentId, req.alumniId)
    requires req.queuePosition.Some? <==> req.status == Queued
    requires req.queuePosition.Some? ==> req.queuePosition.value >= 1
    requires req.status == Queued ==>
      forall i :: 0 <= i < |db.requests| && IsQueuedFor(db.requests[i], req.alumniId) ==>
        PosBefore(db.requests[i].queuePosition, req.queuePosition)
    ensures Valid(db')
  {
    var rs, rs' := db.requests, db'.requests;
    assert forall i :: 0 <= i < |rs| ==> rs'[i] == rs[i];
    assert rs'[|rs|] == req;
    assert IdsAscending(rs') by {
      forall i, j | 0 <= i < j < |rs'| ensures rs'[i].id < rs'[j].id {
        if j == |rs| { assert rs'[i].id < db.nextRequestId; }
      }
    }
    assert PairsUnique(rs') by {
      forall i, j | 0 <= i < j < |rs'| ensures rs'[i].studentId != rs'[j].studentId || rs'[i].alumniId != rs'[j].alumniId {
        if j == |rs| { assert rs'[i] == rs[i]; }
      }
    }
    assert QueueOrdered(rs') by {
      forall i, j | 0 <= i < j < |rs'| && IsQueuedFor(rs'[i], rs'[j].alumniId) && rs'[j].status == Queued
        ensures PosBefore(rs'[i].queuePosition, rs'[j].queuePosition)
      {
        if j == |rs| { assert rs'[i] == rs[i]; }
      }
    }
  }

  /** Decisions alone, with the id counter untouched, keep the invariant. */
  lemma DecisionsPreserveValid(db: Db, db': Db)
    requires Valid(db)
    requires OnlyDecisions(db.requests, db'.requests)
    requires db'.nextRequestId == db.nextRequestId
    ensures Valid(db')
  {
    var rs, rs' := db.requests, db'.requests;
    assert forall i :: 0 <= i < |rs| ==>
      rs'[i].id == rs[i].id && rs'[i].studentId == rs[i].studentId && rs'[i].alumniId == rs[i].alumniId;
    assert forall i :: 0 <= i < |rs| && rs'[i].status == Queued ==> rs'[i] == rs[i];
  }

  /** A successful accept keeps the invariant. */
  lemma AcceptPreservesValid(db: Db, alumniId: UserId, requestId: int)
    requires Valid(db)
    requires Accept(db, alumniId, requestId).Ok?
    ensures Valid(Accept(db, alumniId, requestId).value)
  {
    DecisionsPreserveValid(db, Accept(db, alumniId, requestId).value);
  }

  /** A successful reject keeps the invariant. */
  lemma RejectPreservesValid(db: Db, alumniId: UserId, requestId: int)
    requires Valid(db)
    requires Reject(db, alumniId, requestId).Ok?
    ensures Valid(Reject(db, alumniId, requestId).value)
  {
    DecisionsPreserveValid(db, Reject(db, alumniId, requestId).value);
  }

  /* ---------- Exact effects on a valid store ---------- */

  /** In a valid store a mentor's queue has at most one head: positions are distinct. */
  lemma QueueHeadUnique(rs: seq<MentorshipRequest>, alumniId: UserId, k1: int, k2: int)
    requires PositionsWellFormed(rs) && QueueOrdered(rs)
    requires IsQueueHead(rs, alumniId, k1) && IsQueueHead(rs, alumniId, k2)
    ensures k1 == k2
  {
  }

  /** A non-empty queue has a head. */
  lemma QueueHeadExists(rs: seq<MentorshipRequest>, alumniId: UserId)
    requires !QueueEmpty(rs, alumniId)
    ensures exists k :: IsQueueHead(rs, alumniId, k)
  {
    var h := QueueHead(rs, alumniId);
    assert IsQueueHead(rs, alumniId, h.value);
  }

  /** In a valid store, the open row with a given id is the only one. */
  lemma OpenRowUnique(db: Db, alumniId: UserId, requestId: int, t: int)
    requires Valid(db)
    requires 0 <= t < |db.requests| && IsOpenFor(db.requests[t], requestId, alumniId)
    ensures forall i :: 0 <= i < |db.requests| && IsOpenFor(db.requests[i], requestId, alumniId) ==> i == t
  {
  }

  /** Row `t` of `rs` set to status `s` with a NULL queue position. */
  function Decided(rs: seq<MentorshipRequest>, t: nat, s: RequestStatus): (r: seq<MentorshipRequest>)
    requires t < |rs|
    ensures |r| == |rs| && r[t].status == s && r[t].queuePosition.None?
    ensures forall i :: 0 <= i < |rs| && i != t ==> r[i] == rs[i]
  {
    rs[t := rs[t].(status := s, queuePosition := None)]
  }

  /** In a valid store the decision UPDATE touches only the open row `t`, the one the handler reads. */
  lemma DecisionHitsOneRow(db: Db, alumniId: UserId, requestId: int, t: nat, s: RequestStatus)
    requires Valid(db)
    requires t < |db.requests| && IsOpenFor(db.requests[t], requestId, alumniId)
    ensures FirstOpen(db.requests, requestId, alumniId) == Some(t)
    ensures Decide(db.requests, requestId, alumniId, s) == Decided(db.requests, t, s)
  {
    OpenRowUnique(db, alumniId, requestId, t);
    assert Decide(db.requests, requestId, alumniId, s) == Decided(db.requests, t, s);
  }

  /**
   * Accepting the open request `t` of a valid store whose mentor has an empty
   * queue sets exactly that row to ACCEPTED with a NULL position and notifies
   * its student; nothing else changes.
   */
  lemma AcceptEffect(db: Db, alumniId: UserId, requestId: int, t: nat)
    requires Valid(db)
    requires t < |db.requests| && IsOpenFor(db.requests[t], requestId, alumniId)
    requires QueueEmpty(db.requests, alumniId)
    ensures Accept(db, alumniId, requestId) ==
      Ok(db.(requests := Decided(db.requests, t, Accepted),
             notifications := db.notifications + [Notification(db.requests[t].studentId, Mentorship(Accepted))]))
  {
    DecisionHitsOneRow(db, alumniId, requestId, t, Accepted);
    var acc := Decided(db.requests, t, Accepted);
    assert QueueEmpty(acc, alumniId);
  }

  /** Deciding a PENDING row leaves every queue, and so every queue head, as it was. */
  lemma DecidedKeepsHeads(rs: seq<MentorshipRequest>, t: nat, s: RequestStatus, alumniId: UserId)
    requires t < |rs| && rs[t].status == Pending && s != Queued
    ensures forall k :: IsQueueHead(Decided(rs, t, s), alumniId, k) <==> IsQueueHead(rs, alumniId, k)
  {
    var d := Decided(rs, t, s);
    assert forall j :: 0 <= j < |rs| ==> (IsQueuedFor(d[j], alumniId) <==> IsQueuedFor(rs[j], alumniId));
    assert forall j :: 0 <= j < |rs| && IsQueuedFor(rs[j], alumniId) ==> d[j] == rs[j];
  }

  /** Deciding a row keeps the ids, so ids stay distinct. */
  lemma DecidedKeepsIds(rs: seq<MentorshipRequest>, t: nat, s: RequestStatus)
    requires t < |rs| && IdsUnique(rs)
    ensures IdsUnique(Decided(rs, t, s))
  {
    var d := Decided(rs, t, s);
    assert forall j :: 0 <= j < |rs| ==> d[j].id == rs[j].id;
  }

  /** With distinct ids, the promotion UPDATE `WHERE id=$1` touches only row `k`. */
  lemma PromoteHitsOneRow(rs: seq<MentorshipRequest>, k: nat)
    requires k < |rs| && IdsUnique(rs)
    ensures Promote(rs, rs[k].id) == Decided(rs, k, Pending)
  {
    var p := Promote(rs, rs[k].id);
    var d := Decided(rs, k, Pending);
    forall i | 0 <= i < |rs| ensures p[i] == d[i] {
      if i < k { assert rs[i].id != rs[k].id; }
      if k < i { assert rs[k].id != rs[i].id; }
    }
  }

  /**
   * Accepting the open request `t` of a valid store whose mentor's queue is
   * headed by row `k` sets row `t` to ACCEPTED and row `k` to PENDING (both with
   * a NULL position) and notifies both students, in that order; nothing else
   * changes. The other queued rows keep their positions.
   */
  lemma AcceptPromotes(db: Db, alumniId: UserId, requestId: int, t: nat, k: nat)
    requires Valid(db)
    requires t < |db.requests| && IsOpenFor(db.requests[t], requestId, alumniId)
    requires IsQueueHead(db.requests, alumniId, k)
    ensures Accept(db, alumniId, requestId) ==
      Ok(db.(requests := Decided(Decided(db.requests, t, Accepted), k, Pending),
             notifications := db.notifications + [Notification(db.requests[t].studentId, Mentorship(Accepted)),
                                                  Notification(db.requests[k].studentId, Mentorship(Pending))]))
  {
    var rs := db.requests;
    DecisionHitsOneRow(db, alumniId, requestId, t, Accepted);
    var acc := Decided(rs, t, Accepted);
    DecidedKeepsHeads(rs, t, Accepted, alumniId);
    assert IsQueueHead(acc, alumniId, k);
    var h := QueueHead(acc, alumniId).value;
    QueueHeadUnique(rs, alumniId, h, k);
    assert acc[k] == rs[k];
    DecidedKeepsIds(rs, t, Accepted);
    PromoteHitsOneRow(acc, k);
    var accepted := Notification(rs[t].studentId, Mentorship(Accepted));
    var pending := Notification(rs[k].studentId, Mentorship(Pending));
    assert db.notifications + [accepted] + [pending] == db.notifications + [accepted, pending];
  }

  /**
   * Rejecting the open request `t` of a valid store sets exactly that row to
   * REJECTED with a NULL position and notifies its student; the queue does not move.
   */
  lemma RejectEffect(db: Db, alumniId: UserId, requestId: int, t: nat)
    requires Valid(db)
    requires t < |db.requests| && IsOpenFor(db.requests[t], requestId, alumniId)
    ensures Reject(db, alumniId, requestId) ==
      Ok(db.(requests := Decided(db.requests, t, Rejected),
             notifications := db.notifications + [Notification(db.requests[t].studentId, Mentorship(Rejected))]))
  {
    DecisionHitsOneRow(db, alumniId, requestId, t, Rejected);
  }

  /**
   * Only a PENDING request of the caller can be decided: for any other row with
   * that id, accept and reject report not-found (a QUEUED, ACCEPTED or REJECTED
   * request is never accepted or rejected directly).
   */
  lemma OnlyPendingIsDecided(db: Db, alumniId: UserId, requestId: int, i: int)
    requires Valid(db)
    requires 0 <= i < |db.requests| && db.requests[i].id == requestId
    requires db.requests[i].alumniId != alumniId || db.requests[i].status != Pending
    ensures Accept(db, alumniId, requestId) == Err(NotFound)
    ensures Reject(db, alumniId, requestId) == Err(NotFound)
  {
    var rs := db.requests;
    forall j | 0 <= j < |rs| ensures !IsOpenFor(rs[j], requestId, alumniId) {
      if j < i { assert rs[j].id != rs[i].id; }
      if i < j { assert rs[i].id != rs[j].id; }
    }
  }

  /** ACCEPTED and REJECTED are terminal: no handler changes such a row of a valid store. */
  lemma DecidedRowsAreFinal(db: Db, alumniId: UserId, requestId: int, studentId: UserId, i: int)
    requires Valid(db)
    requires 0 <= i < |db.requests| && db.requests[i].status in {Accepted, Rejected}
    ensures Accept(db, alumniId, requestId).Ok? ==> Accept(db, alumniId, requestId).value.requests[i] == db.requests[i]
    ensures Reject(db, alumniId, requestId).Ok? ==> Reject(db, alumniId, requestId).value.requests[i] == db.requests[i]
    ensures Create(db, studentId, alumniId).Ok? ==> Create(db, studentId, alumniId).value.db.requests[i] == db.requests[i]
  {
    var rs := db.requests;
    if Accept(db, alumniId, requestId).Ok? {
      var t := FirstOpen(rs, requestId, alumniId).value;
      if QueueEmpty(rs, alumniId) {
        AcceptEffect(db, alumniId, requestId, t);
      } else {
        QueueHeadExists(rs, alumniId);
        var k :| IsQueueHead(rs, alumniId, k);
        AcceptPromotes(db, alumniId, requestId, t, k);
      }
    }
    if Reject(db, alumniId, requestId).Ok? {
      RejectEffect(db, alumniId, requestId, FirstOpen(rs, requestId, alumniId).value);
    }
  }

  /**
   * `ORDER BY created_at DESC`: in a valid store every listing is newest first,
   * its request ids strictly decreasing (ids ascend in creation order).
   */
  lemma ListingsNewestFirst(db: Db, alumniId: UserId, studentId: UserId)
    requires Valid(db)
    ensures forall i, j :: 0 <= i < j < |Incoming(db, alumniId)| ==>
      Incoming(db, alumniId)[i].id > Incoming(db, alumniId)[j].id
    ensures forall i, j :: 0 <= i < j < |AcceptedMentees(db, alumniId)| ==>
      AcceptedMentees(db, alumniId)[i].id > AcceptedMentees(db, alumniId)[j].id
    ensures forall i, j :: 0 <= i < j < |MyRequests(db, studentId)| ==>
      MyRequests(db, studentId)[i].id > MyRequests(db, studentId)[j].id
  {
    var id := (x: MentorshipRequest) => x.id;
    FilterKeepsOrder(db.requests, (x: MentorshipRequest) => x.alumniId == alumniId && x.status == Pending, id);
    FilterKeepsOrder(db.requests, (x: MentorshipRequest) => x.alumniId == alumniId && x.status == Accepted, id);
    FilterKeepsOrder(db.requests, (x: MentorshipRequest) => x.studentId == studentId, id);
  }

  /**
   * A mentor with no PENDING request can neither accept nor reject anything, so
   * nothing can promote the requests waiting in that mentor's queue.
   */
  lemma NoPendingNoDecision(db: Db, alumniId: UserId)
    requires forall i :: 0 <= i < |db.requests| && db.requests[i].alumniId == alumniId ==>
               db.requests[i].status != Pending
    ensures forall id :: Accept(db, alumniId, id) == Err(NotFound) && Reject(db, alumniId, id) == Err(NotFound)
  {
  }
}
