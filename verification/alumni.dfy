/**
 * The profile handlers of `/alumni`: viewing a profile (`GET /:id`) with its
 * PRIVATE gate, creating or updating one's own profile (`POST /me`), and
 * mentor suggestions by topic (`GET /suggestions`).
 */
module Alumni {
  import opened Results
  import opened Seqs
  import opened Tables
  import opened Search

  /** Why a profile handler refuses. */
  datatype ProfileError = ProfileNotFound | ProfilePrivate | TopicsRequired

  /** The HTTP status each refusal is reported with. */
  function HttpStatus(e: ProfileError): (code: int)
    ensures e == ProfileNotFound <==> code == 404
    ensures e == ProfilePrivate <==> code == 403
    ensures e == TopicsRequired <==> code == 400
  {
    match e
    case ProfileNotFound => 404
    case ProfilePrivate => 403
    case TopicsRequired => 400
  }

  /** A profile whose visibility column holds exactly `PRIVATE`. */
  predicate IsPrivate(p: AlumniProfile) {
    p.fields.visibility == Some("PRIVATE")
  }

  /** Some profile row belongs to `userId`. */
  predicate HasProfile(db: Db, userId: UserId) {
    exists i :: 0 <= i < |db.profiles| && db.profiles[i].userId == userId
  }

  /**
   * `GET /alumni/:id` for the authenticated user `viewerId`: the first profile
   * row of user `id`; missing is 404, and a PRIVATE profile is 403 to anyone
   * but its owner.
   */
  function ViewProfile(db: Db, viewerId: UserId, id: UserId): (r: Result<AlumniProfile, ProfileError>)
    ensures r == Err(ProfileNotFound) <==> !HasProfile(db, id)
    ensures r == Err(ProfilePrivate) <==>
      exists i :: 0 <= i < |db.profiles| && db.profiles[i].userId == id && IsPrivate(db.profiles[i])
        && (forall j :: 0 <= j < i ==> db.profiles[j].userId != id) && viewerId != id
    ensures r.Ok? ==> r.value in db.profiles && r.value.userId == id
    ensures r.Ok? ==> !IsPrivate(r.value) || viewerId == id
  {
    match First(db.profiles, (p: AlumniProfile) => p.userId == id)
    case None => Err(ProfileNotFound)
    case Some(k) =>
      var p := db.profiles[k];
      if IsPrivate(p) && viewerId != p.userId then Err(ProfilePrivate) else Ok(p)
  }

  /** Owners always see their own profile, whatever its visibility. */
  lemma OwnerSeesOwnProfile(db: Db, id: UserId)
    requires HasProfile(db, id)
    ensures ViewProfile(db, id, id).Ok?
  {
  }

  /** A profile that is not PRIVATE is shown to every viewer. */
  lemma NonPrivateVisibleToAll(db: Db, viewerId: UserId, i: nat)
    requires i < |db.profiles| && !IsPrivate(db.profiles[i])
    requires forall j :: 0 <= j < |db.profiles| ==> (db.profiles[j].userId == db.profiles[i].userId <==> j == i)
    ensures ViewProfile(db, viewerId, db.profiles[i].userId) == Ok(db.profiles[i])
  {
  }

  /** At most one profile row per user. */
  predicate ProfilesUnique(db: Db) {
    forall i, j :: 0 <= i < j < |db.profiles| ==> db.profiles[i].userId != db.profiles[j].userId
  }

  /** The store after a profile save, and the profile row the handler returns. */
  datatype Saved = Saved(db: Db, profile: AlumniProfile)

  /** `UPDATE alumni_profiles SET … WHERE user_id=$10`: every row of the user gets the new fields. */
  function UpdateFields(ps: seq<AlumniProfile>, userId: UserId, fields: ProfileFields): (r: seq<AlumniProfile>)
    ensures |r| == |ps|
    ensures forall i :: 0 <= i < |ps| ==>
      r[i] == if ps[i].userId == userId then ps[i].(fields := fields) else ps[i]
  {
    seq(|ps|, i requires 0 <= i < |ps| => if ps[i].userId == userId then ps[i].(fields := fields) else ps[i])
  }

  /**
   * `POST /alumni/me` by alumni `userId`: overwrite the nine editable columns of
   * an existing profile, or insert a profile whose other columns take their
   * defaults `defaults`. Absent body fields are written as NULL either way.
   */
  function SaveProfile(db: Db, userId: UserId, fields: ProfileFields, defaults: MentorSettings): (r: Saved)
    ensures r.db == db.(profiles := r.db.profiles)
    ensures r.profile.userId == userId && r.profile.fields == fields && r.profile in r.db.profiles
    ensures HasProfile(db, userId) ==>
      && |r.db.profiles| == |db.profiles|
      && (forall i :: 0 <= i < |db.profiles| && db.profiles[i].userId != userId ==>
            r.db.profiles[i] == db.profiles[i])
      && (forall i :: 0 <= i < |db.profiles| && db.profiles[i].userId == userId ==>
            r.db.profiles[i] == AlumniProfile(userId, fields, db.profiles[i].mentor))
    ensures !HasProfile(db, userId) ==>
      r.db.profiles == db.profiles + [AlumniProfile(userId, fields, defaults)]
  {
    match First(db.profiles, (p: AlumniProfile) => p.userId == userId)
    case Some(k) =>
      var ps := UpdateFields(db.profiles, userId, fields);
      Saved(db.(profiles := ps), ps[k])
    case None =>
      var p := AlumniProfile(userId, fields, defaults);
      Saved(db.(profiles := db.profiles + [p]), p)
  }

  /**
   * After a save the user has exactly one profile row, holding the submitted
   * fields, and profile rows stay unique per user.
   */
  lemma SaveLeavesOneProfile(db: Db, userId: UserId, fields: ProfileFields, defaults: MentorSettings)
    requires ProfilesUnique(db)
    ensures var s := SaveProfile(db, userId, fields, defaults).db;
      && ProfilesUnique(s)
      && (exists i :: 0 <= i < |s.profiles| && s.profiles[i].userId == userId && s.profiles[i].fields == fields)
      && (forall i, j :: (0 <= i < |s.profiles| && 0 <= j < |s.profiles| &&
                          s.profiles[i].userId == userId && s.profiles[j].userId == userId) ==> i == j)
  {
    var s := SaveProfile(db, userId, fields, defaults).db;
    if !HasProfile(db, userId) {
      assert s.profiles[|db.profiles|].userId == userId;
    } else {
      var k :| 0 <= k < |db.profiles| && db.profiles[k].userId == userId;
      assert s.profiles[k].userId == userId;
    }
  }

  /** Saving the same fields twice leaves the store as saving them once. */
  lemma SaveIdempotent(db: Db, userId: UserId, fields: ProfileFields, defaults: MentorSettings)
    ensures var once := SaveProfile(db, userId, fields, defaults).db;
      SaveProfile(once, userId, fields, defaults).db == once
  {
    var once := SaveProfile(db, userId, fields, defaults).db;
    assert HasProfile(once, userId) by {
      var r := SaveProfile(db, userId, fields, defaults);
      var k :| 0 <= k < |once.profiles| && once.profiles[k] == r.profile;
    }
    var twice := SaveProfile(once, userId, fields, defaults).db;
    assert twice.profiles == once.profiles;
  }

  /** A mentor suggested for `topics`: available, and offering at least one of the topics. */
  predicate Suggestible(p: AlumniProfile, topics: seq<string>) {
    p.mentor.availableForMentorship && exists i :: 0 <= i < |topics| && topics[i] in p.mentor.mentorshipTopics
  }

  /** The most suggestions one request returns. */
  const SuggestionLimit := 10

  /**
   * `GET /alumni/suggestions?topics=…`: missing or empty `topics` is refused;
   * otherwise up to ten available mentors offering one of the comma-separated,
   * trimmed topics, in table order.
   */
  function Suggestions(db: Db, topics: Option<string>): (r: Result<seq<AlumniProfile>, ProfileError>)
    ensures r.Err? <==> !Truthy(topics)
    ensures r.Err? ==> r.error == TopicsRequired
    ensures r.Ok? ==> |r.value| <= SuggestionLimit
    ensures r.Ok? ==> forall i :: 0 <= i < |r.value| ==>
      r.value[i] in db.profiles && Suggestible(r.value[i], TopicList(topics.value))
  {
    if !Truthy(topics) then Err(TopicsRequired)
    else
      var ts := TopicList(topics.value);
      Ok(Take(Filter(db.profiles, (p: AlumniProfile) => Suggestible(p, ts)), SuggestionLimit))
  }

  /** Fewer than ten matching mentors are all suggested; otherwise exactly ten are. */
  lemma SuggestionsComplete(db: Db, topics: string, i: nat)
    requires topics != ""
    requires i < |db.profiles| && Suggestible(db.profiles[i], TopicList(topics))
    ensures var r := Suggestions(db, Some(topics)).value;
      |r| == SuggestionLimit || db.profiles[i] in r
  {
  }
}
