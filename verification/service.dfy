/** `UserService`: find-or-create, the two lookups, the unconditional save and
    the update by external id. Every operation takes the store and, when it
    writes, returns the store it leaves behind; the lookups return no store
    because they never write. */
module UserService {
  import opened Wrappers
  import opened Profiles
  import opened ProfileStore

  /** The profile `getOrCreateUserProfile` builds, setter by setter, before saving it. */
  function NewUser(userId: Text, email: Text, username: Text, firstName: Text,
                   lastName: Text, role: Text): (p: Profile)
    ensures p.id == None
    ensures IsNewProfile(p, userId, email, username, firstName, lastName, role)
  {
    var p1 := Set(Default(), UserId, userId);
    var p2 := Set(p1, Email, email);
    var p3 := Set(p2, Username, username);
    var p4 := Set(p3, FirstName, firstName);
    var p5 := Set(p4, LastName, lastName);
    Set(p5, Role, role)
  }

  /** `getOrCreateUserProfile`: the stored profile of `userId` if there is one,
      with the store untouched; otherwise a new profile with the given fields,
      phone unset and no preferences, added as the one new row. */
  function GetOrCreateUserProfile(s: Store, userId: Text, email: Text, username: Text,
                                  firstName: Text, lastName: Text, role: Text): (r: (Result<Profile, Error>, Store))
    requires Valid(s)
    ensures Valid(r.1)
    ensures forall i :: OnlyMatch(s, userId, i) ==> r == (Success(s.rows[i]), s)
    ensures Ambiguous(s, userId) ==> r == (Failure(NonUniqueResult), s)
    ensures !Present(s, userId) ==>
      && r.0.Success?
      && Appended(s, r.1, r.0.value)
      && r.0.value.id == Some(|s.rows|)
      && IsNewProfile(r.0.value, userId, email, username, firstName, lastName, role)
  {
    match FindByUserId(s, userId)
    case Failure(e) => (Failure(e), s)
    case Success(Some(existing)) => (Success(existing), s)
    case Success(None) =>
      var created := NewUser(userId, email, username, firstName, lastName, role);
      SaveNewAppends(s, created);
      var (saved, t) := Save(s, created);
      (Success(saved), t)
  }

  /** `getCurrentUserProfile`: the stored profile, or NotFound. */
  function GetCurrentUserProfile(s: Store, userId: Text): (r: Result<Profile, Error>)
    ensures forall i :: OnlyMatch(s, userId, i) ==> r == Success(s.rows[i])
    ensures !Present(s, userId) ==> r == Failure(NotFound)
    ensures Ambiguous(s, userId) ==> r == Failure(NonUniqueResult)
  {
    match FindByUserId(s, userId)
    case Failure(e) => Failure(e)
    case Success(None) => Failure(NotFound)
    case Success(Some(p)) => Success(p)
  }

  /** `getUserById`: the stored profile as an optional; absence is not an error. */
  function GetUserById(s: Store, userId: Text): (r: Result<Option<Profile>, Error>)
    ensures forall i :: OnlyMatch(s, userId, i) ==> r == Success(Some(s.rows[i]))
    ensures !Present(s, userId) ==> r == Success(None)
    ensures Ambiguous(s, userId) ==> r == Failure(NonUniqueResult)
  {
    FindByUserId(s, userId)
  }

  /** `saveUser`: the repository's save with no check at all, in particular
      none that the external id is still unique afterwards. */
  function SaveUser(s: Store, user: Profile): (r: (Profile, Store))
    requires Valid(s)
    ensures Valid(r.1) && SameButId(r.0, user)
    ensures HasRow(s, user.id) ==>
      r.0 == user && |r.1.rows| == |s.rows| && r.1.rows[user.id.value] == user
    ensures !HasRow(s, user.id) ==> Appended(s, r.1, r.0) && r.0.id == Some(|s.rows|)
    ensures forall j :: 0 <= j < |s.rows| && Some(j) != r.0.id ==> r.1.rows[j] == s.rows[j]
  {
    Save(s, user)
  }

  /** `updateUser`: NotFound and no write when `userId` has no profile;
      otherwise its row, and no other, is overwritten by the payload's fields
      and preferences map while keeping its id and userId. */
  function UpdateUser(s: Store, userId: Text, payload: Profile): (r: (Result<Profile, Error>, Store))
    requires Valid(s)
    ensures Valid(r.1)
    ensures !Present(s, userId) ==> r == (Failure(NotFound), s)
    ensures Ambiguous(s, userId) ==> r == (Failure(NonUniqueResult), s)
    ensures forall i :: OnlyMatch(s, userId, i) ==>
      && r.0.Success?
      && OverwrittenBy(s.rows[i], payload, r.0.value)
      && |r.1.rows| == |s.rows| && r.1.rows[i] == r.0.value
      && (forall j :: 0 <= j < |s.rows| && j != i ==> r.1.rows[j] == s.rows[j])
    ensures r.0.Failure? ==> r.0.error != Forbidden
  {
    match FindByUserId(s, userId)
    case Failure(e) => (Failure(e), s)
    case Success(None) => (Failure(NotFound), s)
    case Success(Some(existing)) =>
      var (saved, t) := Save(s, ApplyUpdate(existing, payload));
      (Success(saved), t)
  }

  /** Two find-or-create calls for the same external id, whatever the other
      arguments of the second, end as the first did: same result, same store,
      and on success that profile is the only one with the external id. */
  lemma GetOrCreateTwice(s: Store, userId: Text, email: Text, username: Text, firstName: Text,
                         lastName: Text, role: Text, email2: Text, username2: Text,
                         firstName2: Text, lastName2: Text, role2: Text)
    requires Valid(s)
    ensures var first := GetOrCreateUserProfile(s, userId, email, username, firstName, lastName, role);
            GetOrCreateUserProfile(first.1, userId, email2, username2, firstName2, lastName2, role2) == first
    ensures var first := GetOrCreateUserProfile(s, userId, email, username, firstName, lastName, role);
            first.0.Success? ==> exists i :: OnlyMatch(first.1, userId, i) && first.1.rows[i] == first.0.value
  {
    LookupCases(s, userId);
    if !Present(s, userId) {
      GetOrCreateTwiceAbsent(s, userId, email, username, firstName, lastName, role,
                             email2, username2, firstName2, lastName2, role2);
    } else {
      GetOrCreateTwicePresent(s, userId, email, username, firstName, lastName, role,
                              email2, username2, firstName2, lastName2, role2);
    }
  }

  /** The absent case: the first call creates the only row of the external id,
      and the second returns it without writing. */
  lemma GetOrCreateTwiceAbsent(s: Store, userId: Text, email: Text, username: Text, firstName: Text,
                               lastName: Text, role: Text, email2: Text, username2: Text,
                               firstName2: Text, lastName2: Text, role2: Text)
    requires Valid(s) && !Present(s, userId)
    ensures var first := GetOrCreateUserProfile(s, userId, email, username, firstName, lastName, role);
            && first.0.Success?
            && OnlyMatch(first.1, userId, |s.rows|) && first.1.rows[|s.rows|] == first.0.value
            && GetOrCreateUserProfile(first.1, userId, email2, username2, firstName2, lastName2, role2) == first
  {
    var first := GetOrCreateUserProfile(s, userId, email, username, firstName, lastName, role);
    CreatedIsOnlyMatch(s, first.1, first.0.value, userId);
  }

  /** The present case: neither call writes, and both answer alike. */
  lemma GetOrCreateTwicePresent(s: Store, userId: Text, email: Text, username: Text, firstName: Text,
                                lastName: Text, role: Text, email2: Text, username2: Text,
                                firstName2: Text, lastName2: Text, role2: Text)
    requires Valid(s) && Present(s, userId)
    ensures var first := GetOrCreateUserProfile(s, userId, email, username, firstName, lastName, role);
            && first.1 == s
            && GetOrCreateUserProfile(s, userId, email2, username2, firstName2, lastName2, role2) == first
            && (first.0.Success? ==> exists i :: OnlyMatch(s, userId, i) && s.rows[i] == first.0.value)
  {
    LookupCases(s, userId);
  }

  /** A profile added for an absent external id is then its only row. */
  lemma CreatedIsOnlyMatch(s: Store, t: Store, p: Profile, userId: Text)
    requires Appended(s, t, p) && p.userId == userId && !Present(s, userId)
    ensures OnlyMatch(t, userId, |s.rows|)
  {
    forall j | 0 <= j < |s.rows|
      ensures !Matches(t, userId, j)
    {
      assert !Matches(s, userId, j);
      assert t.rows[j] == s.rows[j];
    }
  }

  /** find-or-create keeps the external ids unique. */
  lemma GetOrCreatePreservesUnique(s: Store, userId: Text, email: Text, username: Text,
                                   firstName: Text, lastName: Text, role: Text)
    requires Valid(s) && UniqueUserIds(s)
    ensures UniqueUserIds(GetOrCreateUserProfile(s, userId, email, username, firstName, lastName, role).1)
  {
  }

  /** update keeps the external ids unique. */
  lemma UpdatePreservesUnique(s: Store, userId: Text, payload: Profile)
    requires Valid(s) && UniqueUserIds(s)
    ensures UniqueUserIds(UpdateUser(s, userId, payload).1)
  {
  }

  /** With unique external ids, reading a profile back after updating it
      returns exactly the updated profile. */
  lemma UpdateThenGet(s: Store, userId: Text, payload: Profile)
    requires Valid(s) && UniqueUserIds(s) && Present(s, userId)
    ensures var r := UpdateUser(s, userId, payload);
            r.0.Success? && GetCurrentUserProfile(r.1, userId) == r.0
  {
    var r := UpdateUser(s, userId, payload);
    UniqueNeverAmbiguous(s, userId);
    LookupCases(s, userId);
    var i :| OnlyMatch(s, userId, i);
    UpdatePreservesUnique(s, userId, payload);
    assert Matches(r.1, userId, i);
    forall j | Matches(r.1, userId, j) ensures j == i {
      assert r.1.rows[j].userId == r.1.rows[i].userId;
    }
    assert OnlyMatch(r.1, userId, i);
  }

  /** A stored profile with preferences {a:1, b:2} updated with the payload
      preferences {c:3} ends with exactly {c:3}: the map is replaced, not merged. */
  lemma UpdateReplacesPreferences()
    ensures var before := Profile(Some(0), Some("u1"), None, None, None, None, None, None, map["a" := "1", "b" := "2"]);
            var payload := Default().(preferences := map["c" := "3"]);
            var r := UpdateUser(Store([before]), Some("u1"), payload);
            r.0.Success? && r.0.value.preferences == map["c" := "3"] && r.1.rows[0].preferences == map["c" := "3"]
  {
  }
}
