/**
 * When a mentor's queue stops moving. Only an accept promotes a queued request,
 * and only a PENDING request can be accepted; the create handler adds PENDING
 * requests only while the mentor is below capacity. So once a mentor has no
 * PENDING request and is unavailable or at capacity, no handler of the
 * modelled routes ever changes that mentor's requests again: the queue waits
 * until `max_mentees` or `available_for_mentorship` is changed by something
 * other than these routes (none of them writes those columns).
 */
module MentorshipStall {
  import opened Results
  import opened Seqs
  import opened Tables
  import opened Mentorship
  import opened MentorshipInvariants
  import Alumni
  import Jobs

  /** No request of mentor `m` is PENDING. */
  predicate NoPending(rs: seq<MentorshipRequest>, m: UserId) {
    forall i :: 0 <= i < |rs| && rs[i].alumniId == m ==> rs[i].status != Pending
  }

  /**
   * Mentor `m` has a profile, no PENDING request, and would not admit a new
   * request as PENDING: mentorship is switched off, or the ACCEPTED count has
   * reached `max_mentees`.
   */
  predicate Stalled(db: Db, m: UserId) {
    && Availability(db.profiles, m).Some?
    && NoPending(db.requests, m)
    && (!Availability(db.profiles, m).value.availableForMentorship
        || AcceptedCount(db.requests, m) >= Availability(db.profiles, m).value.maxMentees)
  }

  /** Every request of mentor `m` in `before` is still there, unchanged, in `after`. */
  predicate KeepsRowsOf(before: seq<MentorshipRequest>, after: seq<MentorshipRequest>, m: UserId) {
    && |before| <= |after|
    && forall i :: 0 <= i < |before| && before[i].alumniId == m ==> after[i] == before[i]
  }

  /** One call of a modelled route handler that writes to the store. */
  datatype Action =
    | RequestMentor(studentId: UserId, alumniId: UserId)
    | AcceptRequest(alumniId: UserId, requestId: int)
    | RejectRequest(alumniId: UserId, requestId: int)
    | SaveOwnProfile(userId: UserId, fields: ProfileFields, defaults: MentorSettings)
    | PostJob(postedBy: UserId, title: Option<string>, company: Option<string>,
              description: Option<string>, location: Option<string>)
    | ApplyToJob(studentId: UserId, jobId: int, resumeUrl: Option<string>)
    | ReviewApplication(callerId: UserId, appId: int, status: Option<string>)

  /** The store after one handler call; a refused call leaves it unchanged. */
  function Step(db: Db, a: Action): Db {
    match a
    case RequestMentor(s, m) =>
      var r := Create(db, s, m); if r.Ok? then r.value.db else db
    case AcceptRequest(m, id) =>
      var r := Accept(db, m, id); if r.Ok? then r.value else db
    case RejectRequest(m, id) =>
      var r := Reject(db, m, id); if r.Ok? then r.value else db
    case SaveOwnProfile(u, f, d) =>
      Alumni.SaveProfile(db, u, f, d).db
    case PostJob(u, t, c, desc, loc) =>
      var r := Jobs.CreateJob(db, u, t, c, desc, loc); if r.Ok? then r.value.db else db
    case ApplyToJob(s, j, url) =>
      var r := Jobs.Apply(db, s, j, url); if r.Ok? then r.value.db else db
    case ReviewApplication(u, id, st) =>
      var r := Jobs.UpdateStatus(db, u, id, st); if r.Ok? then r.value else db
  }

  /** The store after a sequence of handler calls, in order. */
  function Run(db: Db, actions: seq<Action>): Db
    decreases |actions|
  {
    if |actions| == 0 then db else Run(Step(db, actions[0]), actions[1..])
  }

  /** `after` differs from `before` only in rows of mentors other than `m`, which keep their mentor. */
  predicate SameFor(before: seq<MentorshipRequest>, after: seq<MentorshipRequest>, m: UserId) {
    && |before| == |after|
    && forall i :: 0 <= i < |before| ==>
         after[i].alumniId == before[i].alumniId && (before[i].alumniId == m ==> after[i] == before[i])
  }

  /** Changing only other mentors' rows leaves mentor `m`'s stall, rows and ACCEPTED count as they were. */
  lemma SameForKeepsStall(db: Db, db': Db, m: UserId)
    requires Stalled(db, m) && db'.profiles == db.profiles && SameFor(db.requests, db'.requests, m)
    ensures Stalled(db', m) && KeepsRowsOf(db.requests, db'.requests, m)
  {
    FilterSame(db.requests, db'.requests, (x: MentorshipRequest) => x.alumniId == m && x.status == Accepted);
  }

  /** Deciding a row of another mentor changes only that mentor's rows. */
  lemma DecidedElsewhere(rs: seq<MentorshipRequest>, t: nat, s: RequestStatus, m: UserId)
    requires t < |rs| && rs[t].alumniId != m
    ensures SameFor(rs, Decided(rs, t, s), m)
  {
  }

  /** A create, by any student for any mentor, keeps a stalled mentor stalled. */
  lemma CreateKeepsStall(db: Db, m: UserId, studentId: UserId, alumniId: UserId)
    requires Stalled(db, m)
    requires Create(db, studentId, alumniId).Ok?
    ensures Stalled(Create(db, studentId, alumniId).value.db, m)
    ensures KeepsRowsOf(db.requests, Create(db, studentId, alumniId).value.db.requests, m)
  {
    var c := Create(db, studentId, alumniId).value;
    var req := c.request;
    assert alumniId == m ==> req.status == Queued;
    FilterSnoc(db.requests, req, (x: MentorshipRequest) => x.alumniId == m && x.status == Accepted);
    assert c.db.requests[|db.requests|] == req;
  }

  /** An accept by another mentor keeps a stalled mentor stalled and leaves that mentor's rows alone. */
  lemma AcceptElsewhereKeepsStall(db: Db, m: UserId, other: UserId, requestId: int)
    requires Valid(db) && Stalled(db, m) && other != m
    requires Accept(db, other, requestId).Ok?
    ensures Stalled(Accept(db, other, requestId).value, m)
    ensures KeepsRowsOf(db.requests, Accept(db, other, requestId).value.requests, m)
  {
    var rs := db.requests;
    var t := FirstOpen(rs, requestId, other).value;
    var acc := Decided(rs, t, Accepted);
    DecidedElsewhere(rs, t, Accepted, m);
    if QueueEmpty(rs, other) {
      AcceptEffect(db, other, requestId, t);
      SameForKeepsStall(db, Accept(db, other, requestId).value, m);
    } else {
      QueueHeadExists(rs, other);
      var k :| IsQueueHead(rs, other, k);
      AcceptPromotes(db, other, requestId, t, k);
      DecidedElsewhere(acc, k, Pending, m);
      SameForKeepsStall(db, db.(requests := acc), m);
      SameForKeepsStall(db.(requests := acc), Accept(db, other, requestId).value, m);
    }
  }

  /** A reject by another mentor keeps a stalled mentor stalled and leaves that mentor's rows alone. */
  lemma RejectElsewhereKeepsStall(db: Db, m: UserId, other: UserId, requestId: int)
    requires Stalled(db, m) && other != m
    requires Reject(db, other, requestId).Ok?
    ensures Stalled(Reject(db, other, requestId).value, m)
    ensures KeepsRowsOf(db.requests, Reject(db, other, requestId).value.requests, m)
  {
    SameForKeepsStall(db, Reject(db, other, requestId).value, m);
  }

  /** A profile save keeps a stalled mentor's settings: it never writes the mentorship columns. */
  lemma SaveKeepsStall(db: Db, m: UserId, userId: UserId, fields: ProfileFields, defaults: MentorSettings)
    requires Stalled(db, m)
    ensures Availability(Alumni.SaveProfile(db, userId, fields, defaults).db.profiles, m) == Availability(db.profiles, m)
    ensures Stalled(Alumni.SaveProfile(db, userId, fields, defaults).db, m)
  {
    var ps := db.profiles;
    var ps' := Alumni.SaveProfile(db, userId, fields, defaults).db.profiles;
    var mine := (p: AlumniProfile) => p.userId == m;
    if Alumni.HasProfile(db, userId) {
      assert forall i :: 0 <= i < |ps| ==> ps'[i].userId == ps[i].userId && ps'[i].mentor == ps[i].mentor;
      FirstSame(ps, ps', mine);
    } else {
      assert userId != m;
      FirstSnoc(ps, AlumniProfile(userId, fields, defaults), mine);
    }
  }

  /** A call that leaves the profiles and the mentorship table alone keeps the invariant and the stall. */
  lemma UntouchedKeepsStall(db: Db, db': Db, m: UserId)
    requires Valid(db) && Stalled(db, m)
    requires db'.profiles == db.profiles && db'.requests == db.requests && db'.nextRequestId == db.nextRequestId
    ensures Valid(db') && Stalled(db', m) && KeepsRowsOf(db.requests, db'.requests, m)
  {
  }

  /** A create, accept or reject keeps the invariant and the stall, and leaves the mentor's rows alone. */
  lemma MentorshipStepKeepsStall(db: Db, m: UserId, a: Action)
    requires Valid(db) && Stalled(db, m)
    requires a.RequestMentor? || a.AcceptRequest? || a.RejectRequest?
    ensures Valid(Step(db, a)) && Stalled(Step(db, a), m)
    ensures KeepsRowsOf(db.requests, Step(db, a).requests, m)
  {
    var next := Step(db, a);
    match a
    case RequestMentor(s, x) =>
      if Create(db, s, x).Ok? {
        CreatePreservesValid(db, s, x);
        CreateKeepsStall(db, m, s, x);
      } else {
        UntouchedKeepsStall(db, next, m);
      }
    case AcceptRequest(x, id) =>
      if Accept(db, x, id).Err? {
        UntouchedKeepsStall(db, next, m);
      } else {
        assert x != m by { NoPendingNoDecision(db, m); }
        AcceptPreservesValid(db, x, id);
        AcceptElsewhereKeepsStall(db, m, x, id);
      }
    case RejectRequest(x, id) =>
      if Reject(db, x, id).Err? {
        UntouchedKeepsStall(db, next, m);
      } else {
        assert x != m by { NoPendingNoDecision(db, m); }
        RejectPreservesValid(db, x, id);
        RejectElsewhereKeepsStall(db, m, x, id);
      }
  }

  /** One handler call keeps the invariant, keeps a stalled mentor stalled, and leaves that mentor's rows alone. */
  lemma StepKeepsStall(db: Db, m: UserId, a: Action)
    requires Valid(db) && Stalled(db, m)
    ensures Valid(Step(db, a)) && Stalled(Step(db, a), m)
    ensures KeepsRowsOf(db.requests, Step(db, a).requests, m)
  {
    if a.RequestMentor? || a.AcceptRequest? || a.RejectRequest? {
      MentorshipStepKeepsStall(db, m, a);
    } else if a.SaveOwnProfile? {
      SaveKeepsStall(db, m, a.userId, a.fields, a.defaults);
    } else {
      UntouchedKeepsStall(db, Step(db, a), m);
    }
  }

  /**
   * A stalled mentor stays stalled through any sequence of handler calls, and
   * none of them changes that mentor's requests: a QUEUED request of that mentor
   * stays QUEUED at its position, and every accept or reject by the mentor
   * keeps failing with not-found.
   */
  lemma {:induction false} StallIsPermanent(db: Db, m: UserId, actions: seq<Action>)
    requires Valid(db) && Stalled(db, m)
    ensures Valid(Run(db, actions)) && Stalled(Run(db, actions), m)
    ensures KeepsRowsOf(db.requests, Run(db, actions).requests, m)
    ensures forall id :: Accept(Run(db, actions), m, id) == Err(NotFound)
                      && Reject(Run(db, actions), m, id) == Err(NotFound)
    decreases |actions|
  {
    if |actions| > 0 {
      var next := Step(db, actions[0]);
      StepKeepsStall(db, m, actions[0]);
      StallIsPermanent(next, m, actions[1..]);
    }
    NoPendingNoDecision(Run(db, actions), m);
  }
}
