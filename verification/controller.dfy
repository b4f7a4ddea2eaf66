/** `UserController`: the three authenticated handlers. The token subject is an
    already-validated string passed in; every handler goes through the service. */
module UserController {
  import opened Wrappers
  import opened Profiles
  import opened ProfileStore
  import UserService

  /** The HTTP status of a handler's outcome. NotFound is the service's
      ResponseStatusException, Forbidden the handler's own 403, and a
      non-unique lookup an unhandled exception. */
  function StatusCode(r: Result<Profile, Error>): (code: int)
    ensures code == 200 <==> r.Success?
    ensures code == 403 <==> r == Failure(Forbidden)
    ensures code == 404 <==> r == Failure(NotFound)
    ensures code == 500 <==> r == Failure(NonUniqueResult)
  {
    match r
    case Success(_) => 200
    case Failure(NotFound) => 404
    case Failure(Forbidden) => 403
    case Failure(NonUniqueResult) => 500
  }

  /** GET /me: the profile of the token subject, or the service's NotFound.
      The service never answers with no profile, so the handler's own
      not-found branch is unreachable and no such case exists here. */
  function GetUserProfile(s: Store, subject: string): (r: Result<Profile, Error>)
    ensures forall i :: OnlyMatch(s, Some(subject), i) ==> r == Success(s.rows[i])
    ensures !Present(s, Some(subject)) ==> r == Failure(NotFound)
    ensures Ambiguous(s, Some(subject)) ==> r == Failure(NonUniqueResult)
  {
    UserService.GetCurrentUserProfile(s, Some(subject))
  }

  /** POST /save: the body's userId becomes the token subject; every other
      field, the client's `id` included, is saved as sent. */
  function SaveUser(s: Store, subject: string, body: Profile): (r: (Profile, Store))
    requires Valid(s)
    ensures Valid(r.1)
    ensures r.0.userId == Some(subject)
    ensures forall f :: f != UserId ==> Get(r.0, f) == Get(body, f)
    ensures r.0.preferences == body.preferences
    ensures HasRow(s, body.id) ==>
      r.0.id == body.id && |r.1.rows| == |s.rows| && r.1.rows[body.id.value] == r.0
    ensures !HasRow(s, body.id) ==> Appended(s, r.1, r.0)
    ensures forall j :: 0 <= j < |s.rows| && Some(j) != r.0.id ==> r.1.rows[j] == s.rows[j]
  {
    UserService.SaveUser(s, Set(body, UserId, Some(subject)))
  }

  /** PUT /{userId}: 403 with no write when the path id is not the token
      subject; otherwise exactly the service's update, NotFound included. */
  function UpdateUser(s: Store, subject: string, pathUserId: string, body: Profile): (r: (Result<Profile, Error>, Store))
    requires Valid(s)
    ensures subject != pathUserId ==> r == (Failure(Forbidden), s)
    ensures subject == pathUserId ==> r == UserService.UpdateUser(s, Some(pathUserId), body)
  {
    if subject != pathUserId then (Failure(Forbidden), s)
    else UserService.UpdateUser(s, Some(pathUserId), body)
  }

  /** PUT /{userId} answers 403 exactly when the path id is not the token subject:
      the service itself never answers Forbidden. */
  lemma ForbiddenExactlyOnMismatch(s: Store, subject: string, pathUserId: string, body: Profile)
    requires Valid(s)
    ensures StatusCode(UpdateUser(s, subject, pathUserId, body).0) == 403 <==> subject != pathUserId
  {
  }

  /** PUT /{userId} by its owner on an absent profile is a 404 with no write. */
  lemma UpdateAbsentIsNotFound(s: Store, subject: string, body: Profile)
    requires Valid(s) && !Present(s, Some(subject))
    ensures UpdateUser(s, subject, subject, body) == (Failure(NotFound), s)
    ensures StatusCode(UpdateUser(s, subject, subject, body).0) == 404
  {
  }

  /** A save by subject S into a store with no profile for S makes GET /me for S
      answer with the saved profile, whose userId is S. */
  lemma SaveThenGetProfile(s: Store, subject: string, body: Profile)
    requires Valid(s) && !Present(s, Some(subject))
    ensures var r := SaveUser(s, subject, body);
            GetUserProfile(r.1, subject) == Success(r.0) && r.0.userId == Some(subject)
  {
    var r := SaveUser(s, subject, body);
    var k := r.0.id.value;
    forall j | 0 <= j < |s.rows| && j != k
      ensures !Matches(r.1, Some(subject), j)
    {
      assert !Matches(s, Some(subject), j);
    }
    assert OnlyMatch(r.1, Some(subject), k);
  }

  /** As written, a body `id` naming another user's row replaces that user's
      profile: with bob's profile in row 0, alice saving a body with id 0 leaves
      no profile for bob at all. */
  lemma SaveUserOverwritesAnotherUser()
    ensures var bob := Profile(Some(0), Some("bob"), Some("b@x.com"), None, None, None, Some("bob"), None, map[]);
            var t := SaveUser(Store([bob]), "alice", Default().(id := Some(0))).1;
            t.rows[0].userId == Some("alice") && !Present(t, Some("bob"))
  {
  }

  /** As written, a save without a stored id by a subject that already has a
      profile (one the event ingestor created, say) adds a second row for the
      subject, and from then on GET /me for that subject fails. */
  lemma SaveUserDuplicatesSubject(s: Store, subject: string, body: Profile)
    requires Valid(s) && Present(s, Some(subject)) && !HasRow(s, body.id)
    ensures var t := SaveUser(s, subject, body).1;
            Ambiguous(t, Some(subject)) && StatusCode(GetUserProfile(t, subject)) == 500
  {
    var t := SaveUser(s, subject, body).1;
    var i :| Matches(s, Some(subject), i);
    assert Matches(t, Some(subject), i) && Matches(t, Some(subject), |s.rows|);
  }

  /** POST /save as evidently intended: the body's userId becomes the subject,
      the client's `id` is ignored, and the subject's existing row, if there is
      one, is overwritten in place; otherwise one row is added. */
  function SaveUserCorrected(s: Store, subject: string, body: Profile): (r: (Result<Profile, Error>, Store))
    requires Valid(s)
    ensures Valid(r.1) && |s.rows| <= |r.1.rows|
    ensures Ambiguous(s, Some(subject)) ==> r == (Failure(NonUniqueResult), s)
    ensures !Ambiguous(s, Some(subject)) ==> r.0.Success?
    ensures forall i :: OnlyMatch(s, Some(subject), i) ==>
      r.0.Success? && r.0.value.id == Some(i) && |r.1.rows| == |s.rows| && r.1.rows[i] == r.0.value
    ensures !Present(s, Some(subject)) ==>
      r.0.Success? && Appended(s, r.1, r.0.value) && r.0.value.id == Some(|s.rows|)
    ensures r.0.Success? ==>
      && r.0.value.userId == Some(subject)
      && (forall f :: f != UserId ==> Get(r.0.value, f) == Get(body, f))
      && r.0.value.preferences == body.preferences
    ensures forall j :: 0 <= j < |s.rows| && s.rows[j].userId != Some(subject) ==> r.1.rows[j] == s.rows[j]
  {
    var stamped := Set(body, UserId, Some(subject));
    match FindByUserId(s, Some(subject))
    case Failure(e) => (Failure(e), s)
    case Success(None) =>
      var (saved, t) := Save(s, SetId(stamped, None));
      (Success(saved), t)
    case Success(Some(existing)) =>
      var (saved, t) := Save(s, SetId(stamped, existing.id));
      (Success(saved), t)
  }

  /** With unique external ids, the corrected save succeeds, keeps them unique,
      and GET /me then answers with the saved profile. */
  lemma SaveUserCorrectedThenGetProfile(s: Store, subject: string, body: Profile)
    requires Valid(s) && UniqueUserIds(s)
    ensures var r := SaveUserCorrected(s, subject, body);
            && r.0.Success?
            && UniqueUserIds(r.1)
            && GetUserProfile(r.1, subject) == r.0
  {
  }
}
