/**
 * The job board handlers of `/jobs`: posting a job (`POST /`), applying to one
 * (`POST /:id/apply`) and reviewing an application (`PATCH
 * /applications/:id/status`). Each is a transition of the store that either
 * succeeds with the new store or refuses and changes nothing.
 */
module Jobs {
  import opened Results
  import opened Seqs
  import opened Tables

  /** Why a job handler refuses. */
  datatype JobError = MissingFields | JobNotFound | AlreadyApplied | InvalidStatus | ApplicationNotFound

  /** The HTTP status each refusal is reported with. */
  function HttpStatus(e: JobError): (code: int)
    ensures code == 404 <==> e == JobNotFound || e == ApplicationNotFound
    ensures code == 400 <==> e == MissingFields || e == AlreadyApplied || e == InvalidStatus
  {
    match e
    case MissingFields => 400
    case JobNotFound => 404
    case AlreadyApplied => 400
    case InvalidStatus => 400
    case ApplicationNotFound => 404
  }

  /** A job row with id `jobId` exists. */
  predicate JobExists(db: Db, jobId: int) {
    exists i :: 0 <= i < |db.jobs| && db.jobs[i].id == jobId
  }

  /** Student `studentId` already has an application for job `jobId`. */
  predicate HasApplied(db: Db, jobId: int, studentId: UserId) {
    exists i :: 0 <= i < |db.applications|
      && db.applications[i].jobId == jobId && db.applications[i].studentId == studentId
  }

  /** The store after a successful post, and the new job row. */
  datatype Posted = Posted(db: Db, job: Job)

  /**
   * `POST /jobs` by alumni `postedBy`: `title` and `company` must be present and
   * non-empty; description and location are optional.
   */
  function CreateJob(db: Db, postedBy: UserId, title: Option<string>, company: Option<string>,
                     description: Option<string>, location: Option<string>): (r: Result<Posted, JobError>)
    ensures r.Err? <==> !Truthy(title) || !Truthy(company)
    ensures r.Err? ==> r.error == MissingFields
    ensures r.Ok? ==>
      && r.value.job == Job(db.nextJobId, postedBy, title.value, company.value, description, location)
      && r.value.db == db.(jobs := db.jobs + [r.value.job], nextJobId := db.nextJobId + 1)
  {
    if !Truthy(title) || !Truthy(company) then Err(MissingFields)
    else
      var job := Job(db.nextJobId, postedBy, title.value, company.value, description, location);
      Ok(Posted(db.(jobs := db.jobs + [job], nextJobId := db.nextJobId + 1), job))
  }

  /** The store after a successful application, and the new application row. */
  datatype Applied = Applied(db: Db, application: Application)

  /** `resume_url || null`: a present, non-empty resume link, or NULL. */
  function ResumeOrNull(resumeUrl: Option<string>): (r: Option<string>)
    ensures r.Some? <==> Truthy(resumeUrl)
    ensures r.Some? ==> r == resumeUrl
  {
    if Truthy(resumeUrl) then resumeUrl else None
  }

  /**
   * `POST /jobs/:id/apply` by student `studentId`: the job must exist and the
   * student must not have applied to it before. The new application carries
   * the column-default status, and the job's poster is notified.
   */
  function Apply(db: Db, studentId: UserId, jobId: int, resumeUrl: Option<string>): (r: Result<Applied, JobError>)
    ensures r == Err(JobNotFound) <==> !JobExists(db, jobId)
    ensures r == Err(AlreadyApplied) <==> JobExists(db, jobId) && HasApplied(db, jobId, studentId)
    ensures r.Err? ==> r.error in {JobNotFound, AlreadyApplied}
    ensures r.Ok? ==>
      var a := r.value.application;
      && a == Application(db.nextApplicationId, jobId, studentId, ResumeOrNull(resumeUrl), None)
      && r.value.db.applications == db.applications + [a]
      && r.value.db.nextApplicationId == db.nextApplicationId + 1
      && |r.value.db.notifications| == |db.notifications| + 1
      && r.value.db.notifications[..|db.notifications|] == db.notifications
      && r.value.db.notifications[|db.notifications|].kind == JobApplication
      && (exists i :: 0 <= i < |db.jobs| && db.jobs[i].id == jobId
            && r.value.db.notifications[|db.notifications|].recipient == db.jobs[i].postedBy)
      && r.value.db == db.(applications := r.value.db.applications,
                           notifications := r.value.db.notifications,
                           nextApplicationId := r.value.db.nextApplicationId)
  {
    match First(db.jobs, (j: Job) => j.id == jobId)
    case None => Err(JobNotFound)
    case Some(k) =>
      if HasApplied(db, jobId, studentId) then Err(AlreadyApplied)
      else
        var a := Application(db.nextApplicationId, jobId, studentId, ResumeOrNull(resumeUrl), None);
        var notice := Notification(db.jobs[k].postedBy, JobApplication);
        assert (db.notifications + [notice])[..|db.notifications|] == db.notifications;
        Ok(Applied(db.(applications := db.applications + [a],
                       notifications := db.notifications + [notice],
                       nextApplicationId := db.nextApplicationId + 1), a))
  }

  /** The statuses a job owner may set. */
  predicate AllowedStatus(status: Option<string>) {
    status == Some("SHORTLISTED") || status == Some("REJECTED")
  }

  /** Application `a` is for a job posted by `callerId` (the join of the review UPDATE). */
  predicate OwnedBy(jobs: seq<Job>, a: Application, callerId: UserId) {
    exists i :: 0 <= i < |jobs| && jobs[i].id == a.jobId && jobs[i].postedBy == callerId
  }

  /** The rows the review UPDATE touches: application `appId`, on a job of the caller. */
  predicate Reviewable(jobs: seq<Job>, a: Application, appId: int, callerId: UserId) {
    a.id == appId && OwnedBy(jobs, a, callerId)
  }

  /** The review UPDATE: every reviewable row gets the new status, every other row is untouched. */
  function SetStatus(db: Db, appId: int, callerId: UserId, status: string): (r: seq<Application>)
    ensures |r| == |db.applications|
    ensures forall i :: 0 <= i < |r| ==>
      r[i] == if Reviewable(db.jobs, db.applications[i], appId, callerId)
              then db.applications[i].(status := Some(status)) else db.applications[i]
  {
    seq(|db.applications|, i requires 0 <= i < |db.applications| =>
      var a := db.applications[i];
      if Reviewable(db.jobs, a, appId, callerId) then a.(status := Some(status)) else a)
  }

  /**
   * `PATCH /jobs/applications/:id/status` by alumni `callerId`: the status must
   * be SHORTLISTED or REJECTED, and only an application to one of the caller's
   * own jobs changes; its student is notified.
   */
  function UpdateStatus(db: Db, callerId: UserId, appId: int, status: Option<string>): (r: Result<Db, JobError>)
    ensures r == Err(InvalidStatus) <==> !AllowedStatus(status)
    ensures r == Err(ApplicationNotFound) <==>
      AllowedStatus(status) &&
      forall i :: 0 <= i < |db.applications| ==> !Reviewable(db.jobs, db.applications[i], appId, callerId)
    ensures r.Ok? ==>
      && r.value == db.(applications := r.value.applications, notifications := r.value.notifications)
      && |r.value.applications| == |db.applications|
      && (forall i :: 0 <= i < |db.applications| ==>
            r.value.applications[i] == if Reviewable(db.jobs, db.applications[i], appId, callerId)
                                       then db.applications[i].(status := status)
                                       else db.applications[i])
      && |r.value.notifications| == |db.notifications| + 1
      && r.value.notifications[..|db.notifications|] == db.notifications
      && r.value.notifications[|db.notifications|].kind == ApplicationStatus
      && (exists i :: 0 <= i < |db.applications| && Reviewable(db.jobs, db.applications[i], appId, callerId)
            && r.value.notifications[|db.notifications|].recipient == db.applications[i].studentId)
  {
    if !AllowedStatus(status) then Err(InvalidStatus)
    else
      match First(db.applications, (a: Application) => Reviewable(db.jobs, a, appId, callerId))
      case None => Err(ApplicationNotFound)
      case Some(k) =>
        var notice := Notification(db.applications[k].studentId, ApplicationStatus);
        assert (db.notifications + [notice])[..|db.notifications|] == db.notifications;
        Ok(db.(applications := SetStatus(db, appId, callerId, status.value),
               notifications := db.notifications + [notice]))
  }

  /* ---------- Invariant ---------- */

  /** Job ids are issued from the counter and are distinct. */
  predicate JobIdsValid(db: Db) {
    && (forall i :: 0 <= i < |db.jobs| ==> db.jobs[i].id < db.nextJobId)
    && (forall i, j :: 0 <= i < j < |db.jobs| ==> db.jobs[i].id != db.jobs[j].id)
  }

  /** Application ids are issued from the counter and are distinct. */
  predicate ApplicationIdsValid(db: Db) {
    && (forall i :: 0 <= i < |db.applications| ==> db.applications[i].id < db.nextApplicationId)
    && (forall i, j :: 0 <= i < j < |db.applications| ==> db.applications[i].id != db.applications[j].id)
  }

  /** At most one application per (job, student) pair. */
  predicate OneApplicationPerPair(db: Db) {
    forall i, j :: 0 <= i < j < |db.applications| ==>
      !(db.applications[i].jobId == db.applications[j].jobId &&
        db.applications[i].studentId == db.applications[j].studentId)
  }

  /** Every application's status is the column default or one a job owner may set. */
  predicate StatusesAllowed(db: Db) {
    forall i :: 0 <= i < |db.applications| ==>
      db.applications[i].status.None? || AllowedStatus(db.applications[i].status)
  }

  /** The job board invariant the three handlers keep. */
  predicate Valid(db: Db) {
    JobIdsValid(db) && ApplicationIdsValid(db) && OneApplicationPerPair(db) && StatusesAllowed(db)
  }

  /** A store with no jobs and no applications is valid. */
  lemma EmptyIsValid(db: Db)
    requires db.jobs == [] && db.applications == []
    ensures Valid(db)
  {
  }

  /** Posting a job keeps the invariant. */
  lemma CreateJobPreservesValid(db: Db, postedBy: UserId, title: Option<string>, company: Option<string>,
                                description: Option<string>, location: Option<string>)
    requires Valid(db)
    requires CreateJob(db, postedBy, title, company, description, location).Ok?
    ensures Valid(CreateJob(db, postedBy, title, company, description, location).value.db)
  {
  }

  /** Appending a fresh, unreviewed application for a new (job, student) pair keeps the invariant. */
  lemma AppendApplicationValid(db: Db, s: Db, a: Application)
    requires Valid(db)
    requires s.jobs == db.jobs && s.nextJobId == db.nextJobId
    requires s.applications == db.applications + [a]
    requires a.id == db.nextApplicationId && s.nextApplicationId == db.nextApplicationId + 1
    requires a.status.None? && !HasApplied(db, a.jobId, a.studentId)
    ensures Valid(s)
  {
    var n := |db.applications|;
    assert forall i :: 0 <= i < n ==> s.applications[i] == db.applications[i];
    assert s.applications[n] == a;
  }

  /** Applying keeps the invariant: in particular a second application for the same pair never lands. */
  lemma ApplyPreservesValid(db: Db, studentId: UserId, jobId: int, resumeUrl: Option<string>)
    requires Valid(db)
    requires Apply(db, studentId, jobId, resumeUrl).Ok?
    ensures Valid(Apply(db, studentId, jobId, resumeUrl).value.db)
  {
    var r := Apply(db, studentId, jobId, resumeUrl).value;
    AppendApplicationValid(db, r.db, r.application);
  }

  /** Setting an allowed status on some applications, touching nothing else, keeps the invariant. */
  lemma RestatusValid(db: Db, s: Db, status: Option<string>)
    requires Valid(db) && AllowedStatus(status)
    requires s.jobs == db.jobs && s.nextJobId == db.nextJobId && s.nextApplicationId == db.nextApplicationId
    requires |s.applications| == |db.applications|
    requires forall i :: 0 <= i < |db.applications| ==>
      s.applications[i] == db.applications[i] || s.applications[i] == db.applications[i].(status := status)
    ensures Valid(s)
  {
  }

  /** Reviewing keeps the invariant. */
  lemma UpdateStatusPreservesValid(db: Db, callerId: UserId, appId: int, status: Option<string>)
    requires Valid(db)
    requires UpdateStatus(db, callerId, appId, status).Ok?
    ensures Valid(UpdateStatus(db, callerId, appId, status).value)
  {
    RestatusValid(db, UpdateStatus(db, callerId, appId, status).value, status);
  }

  /**
   * Under the invariant a review changes exactly one row: the application with
   * that id, when its job was posted by the caller; a caller who does not own
   * the job gets 404.
   */
  lemma ReviewTouchesOnlyTarget(db: Db, callerId: UserId, appId: int, status: Option<string>, t: nat)
    requires Valid(db) && AllowedStatus(status)
    requires t < |db.applications| && db.applications[t].id == appId
    ensures OwnedBy(db.jobs, db.applications[t], callerId) ==>
      UpdateStatus(db, callerId, appId, status) ==
        Ok(db.(applications := db.applications[t := db.applications[t].(status := status)],
               notifications := db.notifications + [Notification(db.applications[t].studentId, ApplicationStatus)]))
    ensures !OwnedBy(db.jobs, db.applications[t], callerId) ==>
      UpdateStatus(db, callerId, appId, status) == Err(ApplicationNotFound)
  {
    var r := UpdateStatus(db, callerId, appId, status);
    if OwnedBy(db.jobs, db.applications[t], callerId) {
      var expected := db.applications[t := db.applications[t].(status := status)];
      assert r.value.applications == expected;
      var last := r.value.notifications[|db.notifications|];
      assert last == Notification(db.applications[t].studentId, ApplicationStatus);
      assert r.value.notifications == db.notifications + [last];
    }
  }
}
