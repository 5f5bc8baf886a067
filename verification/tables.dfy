/**
 * The rows of the relational store the route handlers read and write, and the
 * store itself. Every table is a sequence in insertion order; ids come from one
 * serial counter per table.
 */
module Tables {
  import opened Results

  /** A user's id (`users.id`), as carried in the authenticated token. */
  type UserId = int

  /** `mentorship_requests.status`. */
  datatype RequestStatus = Pending | Queued | Accepted | Rejected

  /** The text stored for a request status. */
  function StatusName(s: RequestStatus): string {
    match s
    case Pending => "PENDING"
    case Queued => "QUEUED"
    case Accepted => "ACCEPTED"
    case Rejected => "REJECTED"
  }

  /** A row of `mentorship_requests`; `queuePosition` is NULL unless the row waits in a queue. */
  datatype MentorshipRequest = MentorshipRequest(
    id: int,
    studentId: UserId,
    alumniId: UserId,
    status: RequestStatus,
    queuePosition: Option<int>)

  /** `notifications.type`. */
  datatype NoticeType =
    | Mentorship(status: RequestStatus)
    | JobApplication
    | ApplicationStatus

  /** The text stored in `notifications.type`. */
  function TypeName(t: NoticeType): (r: string)
    ensures t.Mentorship? ==> r == "MENTORSHIP_" + StatusName(t.status)
  {
    match t
    case Mentorship(s) => "MENTORSHIP_" + StatusName(s)
    case JobApplication => "JOB_APPLICATION"
    case ApplicationStatus => "APPLICATION_STATUS"
  }

  /** Distinct notification types are stored under distinct texts. */
  lemma TypeNamesDistinct(a: NoticeType, b: NoticeType)
    requires a != b
    ensures TypeName(a) != TypeName(b)
  {
    if a.Mentorship? && b.Mentorship? {
      assert TypeName(a)[11] != TypeName(b)[11] || TypeName(a)[12] != TypeName(b)[12];
    } else if a.Mentorship? {
      assert TypeName(a)[0] != TypeName(b)[0];
    } else if b.Mentorship? {
      assert TypeName(a)[0] != TypeName(b)[0];
    } else {
      assert TypeName(a)[0] != TypeName(b)[0] || |TypeName(a)| != |TypeName(b)|;
    }
  }

  /** A row of `notifications`: who it is for and of what type (the message text is not modelled). */
  datatype Notification = Notification(recipient: UserId, kind: NoticeType)

  /** The columns of `alumni_profiles` that `POST /alumni/me` writes; absent body fields are NULL. */
  datatype ProfileFields = ProfileFields(
    rollNumber: Option<string>,
    department: Option<string>,
    passingYear: Option<string>,
    company: Option<string>,
    designation: Option<string>,
    bio: Option<string>,
    linkedinUrl: Option<string>,
    visibility: Option<string>,
    photoUrl: Option<string>)

  /**
   * The columns of `alumni_profiles` that `POST /alumni/me` never writes. A NULL
   * `available_for_mentorship` reads as false and a NULL `max_mentees` compares
   * like 0 in JavaScript, which is how they are represented here.
   */
  datatype MentorSettings = MentorSettings(
    availableForMentorship: bool,
    maxMentees: int,
    mentorshipTopics: seq<string>,
    verified: bool)

  /** A row of `alumni_profiles`. */
  datatype AlumniProfile = AlumniProfile(userId: UserId, fields: ProfileFields, mentor: MentorSettings)

  /** A row of `jobs`. */
  datatype Job = Job(
    id: int,
    postedBy: UserId,
    title: string,
    company: string,
    description: Option<string>,
    location: Option<string>)

  /** A row of `applications`; a NULL `status` is the column default, set before any review. */
  datatype Application = Application(
    id: int,
    jobId: int,
    studentId: UserId,
    resumeUrl: Option<string>,
    status: Option<string>)

  /** The whole store: every table the modelled handlers touch, and the next serial id of each. */
  datatype Db = Db(
    profiles: seq<AlumniProfile>,
    requests: seq<MentorshipRequest>,
    jobs: seq<Job>,
    applications: seq<Application>,
    notifications: seq<Notification>,
    nextRequestId: int,
    nextJobId: int,
    nextApplicationId: int)

  /** JavaScript truthiness of an optional string: present and not empty. */
  predicate Truthy(s: Option<string>) {
    s.Some? && s.value != ""
  }
}
