/**
 * Concrete runs of the mentorship handlers. Each step starts from a store
 * described by a predicate and shows the store the next handler call leads to.
 * Some runs replay the intended workflow; others exhibit properties the
 * handlers do NOT guarantee (a capacity bound on ACCEPTED requests, gap-free
 * queue positions, refusal by a zero-capacity mentor, re-requesting after a
 * rejection, a queue that always drains).
 */
module MentorshipScenarios {
  import opened Results
  import opened Tables
  import opened Mentorship
  import opened MentorshipInvariants
  import opened MentorshipStall

  const mentor: UserId := 100
  const alice: UserId := 1
  const bob: UserId := 2
  const carol: UserId := 3
  const dave: UserId := 4

  const noFields := ProfileFields(None, None, None, None, None, None, None, None, None)

  /** The mentor's settings in every run below except the zero-capacity one. */
  const capacityOne := MentorSettings(true, 1, [], false)

  const alicePending := MentorshipRequest(1, alice, mentor, Pending, None)
  const aliceAccepted := MentorshipRequest(1, alice, mentor, Accepted, None)
  const aliceRejected := MentorshipRequest(1, alice, mentor, Rejected, None)
  const bobPending := MentorshipRequest(2, bob, mentor, Pending, None)
  const bobAccepted := MentorshipRequest(2, bob, mentor, Accepted, None)
  const bobRejected := MentorshipRequest(2, bob, mentor, Rejected, None)
  const carolQueued := MentorshipRequest(3, carol, mentor, Queued, Some(1))
  const carolPending := MentorshipRequest(3, carol, mentor, Pending, None)
  const daveQueued := MentorshipRequest(4, dave, mentor, Queued, Some(2))

  /** A store with one mentor, available, with capacity `maxMentees`, and no requests yet. */
  function Start(maxMentees: int): (db: Db)
    ensures Valid(db)
  {
    Db([AlumniProfile(mentor, noFields, MentorSettings(true, maxMentees, [], false))],
       [], [], [], [], 1, 1, 1)
  }

  /** The store after a create that is known to succeed. */
  function After(db: Db, studentId: UserId): Db
    requires Create(db, studentId, mentor).Ok?
  {
    Create(db, studentId, mentor).value.db
  }

  /** A valid store whose mentor is available with capacity `maxMentees` and holds exactly `rs`. */
  predicate Holds(s: Db, maxMentees: int, rs: seq<MentorshipRequest>) {
    && Valid(s)
    && Availability(s.profiles, mentor) == Some(MentorSettings(true, maxMentees, [], false))
    && s.requests == rs
    && s.nextRequestId == |rs| + 1
  }

  /** `Start` is a store without requests. */
  lemma StartHoldsNothing(maxMentees: int)
    ensures Holds(Start(maxMentees), maxMentees, [])
  {
    assert Start(maxMentees).profiles[0].userId == mentor;
  }

  /** Alice's PENDING request does not count against capacity. */
  lemma CountBeforeDecision()
    ensures AcceptedCount([alicePending], mentor) == 0
  {
    AcceptedCountCons(alicePending, [], mentor);
  }

  /** Alice ACCEPTED and Bob PENDING: one ACCEPTED request, no queue. */
  lemma CountAliceAccepted()
    ensures AcceptedCount([aliceAccepted, bobPending], mentor) == 1
    ensures MaxQueuedPosition([aliceAccepted, bobPending], mentor) == None
  {
    AcceptedCountCons(bobPending, [], mentor);
    AcceptedCountCons(aliceAccepted, [bobPending], mentor);
    assert [aliceAccepted, bobPending][..1] == [aliceAccepted];
  }

  /** With Carol queued: still one ACCEPTED request, and the queue reaches position 1. */
  lemma CountCarolQueued()
    ensures AcceptedCount([aliceAccepted, bobPending, carolQueued], mentor) == 1
    ensures MaxQueuedPosition([aliceAccepted, bobPending, carolQueued], mentor) == Some(1)
  {
    CountAliceAccepted();
    AcceptedCountCons(carolQueued, [], mentor);
    AcceptedCountCons(bobPending, [carolQueued], mentor);
    AcceptedCountCons(aliceAccepted, [bobPending, carolQueued], mentor);
    assert [aliceAccepted, bobPending, carolQueued][..2] == [aliceAccepted, bobPending];
  }

  /** Alice ACCEPTED and Bob REJECTED: one ACCEPTED request, no queue. */
  lemma CountBobRejected()
    ensures AcceptedCount([aliceAccepted, bobRejected], mentor) == 1
    ensures MaxQueuedPosition([aliceAccepted, bobRejected], mentor) == None
  {
    AcceptedCountCons(bobRejected, [], mentor);
    AcceptedCountCons(aliceAccepted, [bobRejected], mentor);
    assert [aliceAccepted, bobRejected][..1] == [aliceAccepted];
  }

  /** Both ACCEPTED: two. */
  lemma CountBothAccepted()
    ensures AcceptedCount([aliceAccepted, bobAccepted], mentor) == 2
  {
    AcceptedCountCons(bobAccepted, [], mentor);
    AcceptedCountCons(aliceAccepted, [bobAccepted], mentor);
  }

  /** A first request to an available mentor with capacity 1 is PENDING. */
  lemma AliceAsks(s: Db)
    requires Holds(s, 1, [])
    ensures Create(s, alice, mentor).Ok?
    ensures Create(s, alice, mentor).value.request == alicePending
    ensures Holds(After(s, alice), 1, [alicePending])
  {
    CreatePreservesValid(s, alice, mentor);
  }

  /**
   * With capacity 1 and nothing accepted yet, a second request is PENDING too:
   * only ACCEPTED rows count against capacity, not PENDING ones.
   */
  lemma SecondRequestNotQueued(s: Db)
    requires Holds(s, 1, [alicePending])
    ensures Create(s, bob, mentor).Ok?
    ensures Create(s, bob, mentor).value.request == bobPending
    ensures Holds(After(s, bob), 1, [alicePending, bobPending])
  {
    CountBeforeDecision();
    CreatePreservesValid(s, bob, mentor);
    assert After(s, bob).requests == [alicePending] + [bobPending];
  }

  /** Alice is accepted while Bob's request stays PENDING. */
  lemma AcceptAlice(s: Db)
    requires Holds(s, 1, [alicePending, bobPending])
    ensures Accept(s, mentor, 1).Ok?
    ensures Holds(Accept(s, mentor, 1).value, 1, [aliceAccepted, bobPending])
  {
    assert IsOpenFor(s.requests[0], 1, mentor);
    AcceptEffect(s, mentor, 1, 0);
    AcceptPreservesValid(s, mentor, 1);
  }

  /**
   * The ACCEPTED count can exceed `max_mentees`: with capacity 1, two requests made
   * before any decision are both PENDING, and once Alice is accepted Bob can be too.
   */
  lemma CapacityNotEnforced(s: Db)
    requires Holds(s, 1, [aliceAccepted, bobPending])
    ensures Accept(s, mentor, 2).Ok?
    ensures Holds(Accept(s, mentor, 2).value, 1, [aliceAccepted, bobAccepted])
    ensures AcceptedCount([aliceAccepted, bobAccepted], mentor) == 2
  {
    CountBothAccepted();
    assert IsOpenFor(s.requests[1], 2, mentor);
    AcceptEffect(s, mentor, 2, 1);
    AcceptPreservesValid(s, mentor, 2);
  }

  /**
   * A create by a new student for a mentor at capacity 1 with one ACCEPTED
   * request: the request is QUEUED one past the highest queued position.
   */
  lemma QueuedAtCapacity(s: Db, studentId: UserId)
    requires Availability(s.profiles, mentor) == Some(capacityOne)
    requires AcceptedCount(s.requests, mentor) == 1
    requires !HasRequest(s.requests, studentId, mentor)
    ensures Create(s, studentId, mentor).Ok?
    ensures Create(s, studentId, mentor).value.request ==
      MentorshipRequest(s.nextRequestId, studentId, mentor, Queued, Some(NextQueuePosition(s.requests, mentor)))
  {
  }

  /** With Alice accepted, Carol is queued at position 1. */
  lemma CarolQueues(s: Db)
    requires Holds(s, 1, [aliceAccepted, bobPending])
    ensures Create(s, carol, mentor).Ok?
    ensures Holds(After(s, carol), 1, [aliceAccepted, bobPending, carolQueued])
  {
    CountAliceAccepted();
    QueuedAtCapacity(s, carol);
    CreatePreservesValid(s, carol, mentor);
  }

  /** Dave is then queued behind Carol, at position 2. */
  lemma DaveQueues(s: Db)
    requires Holds(s, 1, [aliceAccepted, bobPending, carolQueued])
    ensures Create(s, dave, mentor).Ok?
    ensures Holds(After(s, dave), 1, [aliceAccepted, bobPending, carolQueued, daveQueued])
  {
    CountCarolQueued();
    QueuedAtCapacity(s, dave);
    CreatePreservesValid(s, dave, mentor);
  }

  /** The four-row table after Bob is accepted and Carol promoted. */
  const promoted := [aliceAccepted, bobAccepted, carolPending, daveQueued]

  /** Carol, queued at position 1, heads the mentor's queue. */
  lemma CarolHeadsQueue(rs: seq<MentorshipRequest>)
    requires rs == [aliceAccepted, bobPending, carolQueued, daveQueued]
    ensures IsQueueHead(rs, mentor, 2)
  {
    assert forall j :: 0 <= j < 4 && IsQueuedFor(rs[j], mentor) ==> j == 2 || j == 3;
  }

  /**
   * Accepting Bob's pending request then promotes Carol, the head of the queue,
   * to PENDING, and Dave keeps position 2: queue positions are not gap-free.
   */
  lemma QueuePromotionLeavesGap(s: Db)
    requires Holds(s, 1, [aliceAccepted, bobPending, carolQueued, daveQueued])
    ensures Accept(s, mentor, 2).Ok?
    ensures Accept(s, mentor, 2).value.requests == promoted
    ensures forall i :: 0 <= i < |promoted| ==> promoted[i].queuePosition != Some(1)
    ensures promoted[3] == daveQueued && daveQueued.queuePosition == Some(2)
  {
    assert IsOpenFor(s.requests[1], 2, mentor);
    CarolHeadsQueue(s.requests);
    AcceptPromotes(s, mentor, 2, 1, 2);
    assert Decided(Decided(s.requests, 1, Accepted), 2, Pending) == promoted;
  }

  /** Rejecting Bob frees no capacity: Alice's ACCEPTED request still fills it. */
  lemma RejectBob(s: Db)
    requires Holds(s, 1, [aliceAccepted, bobPending])
    ensures Reject(s, mentor, 2).Ok?
    ensures Holds(Reject(s, mentor, 2).value, 1, [aliceAccepted, bobRejected])
  {
    assert IsOpenFor(s.requests[1], 2, mentor);
    RejectEffect(s, mentor, 2, 1);
    RejectPreservesValid(s, mentor, 2);
  }

  /**
   * After Bob is rejected the mentor is still at capacity, so Carol is queued
   * (at position 1, there being no queue yet).
   */
  lemma CarolQueuesAfterRejection(s: Db)
    requires Holds(s, 1, [aliceAccepted, bobRejected])
    ensures Create(s, carol, mentor).Ok?
    ensures After(s, carol).requests == [aliceAccepted, bobRejected, carolQueued]
    ensures Holds(After(s, carol), 1, [aliceAccepted, bobRejected, carolQueued])
  {
    CountBobRejected();
    QueuedAtCapacity(s, carol);
    CreatePreservesValid(s, carol, mentor);
  }

  /** Alice ACCEPTED, Bob REJECTED and Carol QUEUED: one ACCEPTED request. */
  lemma CountCarolWaits()
    ensures AcceptedCount([aliceAccepted, bobRejected, carolQueued], mentor) == 1
  {
    CountBobRejected();
    AcceptedCountCons(carolQueued, [], mentor);
    AcceptedCountCons(bobRejected, [carolQueued], mentor);
    AcceptedCountCons(aliceAccepted, [bobRejected, carolQueued], mentor);
  }

  /**
   * A queue can stall: with capacity 1 filled by Alice, Bob rejected and Carol
   * queued, the mentor has nothing left to accept, and whatever sequence of
   * handler calls follows, Carol's request stays QUEUED at position 1 and every
   * accept or reject by the mentor is not-found.
   */
  lemma QueueCanStall(s: Db, actions: seq<Action>)
    requires Holds(s, 1, [aliceAccepted, bobRejected, carolQueued])
    ensures Stalled(s, mentor)
    ensures |Run(s, actions).requests| >= 3 && Run(s, actions).requests[2] == carolQueued
    ensures forall id :: Accept(Run(s, actions), mentor, id) == Err(NotFound)
  {
    CountCarolWaits();
    assert Stalled(s, mentor);
    StallIsPermanent(s, mentor, actions);
  }

  /** A mentor who is available with capacity 0 queues every request instead of refusing it. */
  lemma ZeroCapacityQueues(s: Db)
    requires Holds(s, 0, [])
    ensures Create(s, alice, mentor).Ok?
    ensures Create(s, alice, mentor).value.request == MentorshipRequest(1, alice, mentor, Queued, Some(1))
  {
  }

  /** A rejected student cannot ask the same mentor again: any existing row blocks the pair. */
  lemma NoRequestAfterRejection(s: Db)
    requires Holds(s, 1, [alicePending])
    ensures Reject(s, mentor, 1).Ok?
    ensures Reject(s, mentor, 1).value.requests == [aliceRejected]
    ensures Create(Reject(s, mentor, 1).value, alice, mentor) == Err(DuplicateRequest)
  {
    assert IsOpenFor(s.requests[0], 1, mentor);
    RejectEffect(s, mentor, 1, 0);
    assert Reject(s, mentor, 1).value.requests[0].studentId == alice;
  }
}
