/** The profile repository as the services use it: `findByUserId` and `save`.
    Nothing in the system deletes a profile, so the table is append-only and
    the row at position i is the profile whose generated id is i. */
module ProfileStore {
  import opened Wrappers
  import opened Profiles

  /** The failures the core raises, shared by every module above the store:
      the store raises NonUniqueResult, the service NotFound, and the
      controller Forbidden. */
  datatype Error =
    | NotFound         // ResponseStatusException with status NOT_FOUND
    | Forbidden        // the controller's 403 on a foreign path id
    | NonUniqueResult  // a single-result query that matched two or more rows

  datatype Store = Store(rows: seq<Profile>)

  const Empty: Store := Store([])

  /** Every row carries its own position as its id. */
  ghost predicate Valid(s: Store)
  {
    forall i :: 0 <= i < |s.rows| ==> s.rows[i].id == Some(i)
  }

  /** Row i exists and belongs to external id `uid`. */
  ghost predicate Matches(s: Store, uid: Text, i: int)
  {
    0 <= i < |s.rows| && s.rows[i].userId == uid
  }

  ghost predicate Present(s: Store, uid: Text)
  {
    exists i :: Matches(s, uid, i)
  }

  /** Two different rows claim external id `uid`. */
  ghost predicate Ambiguous(s: Store, uid: Text)
  {
    exists i, j :: Matches(s, uid, i) && Matches(s, uid, j) && i != j
  }

  /** Row i is the one and only row of `uid`. */
  ghost predicate OnlyMatch(s: Store, uid: Text, i: int)
  {
    Matches(s, uid, i) && forall j :: Matches(s, uid, j) ==> j == i
  }

  /** The uniqueness of the external id, kept as an explicit invariant: the
      store itself does not enforce it. */
  ghost predicate UniqueUserIds(s: Store)
  {
    forall i, j :: 0 <= i < |s.rows| && 0 <= j < |s.rows| && s.rows[i].userId == s.rows[j].userId ==> i == j
  }

  /** `t` keeps every row of `s` unchanged and may have more after them. */
  ghost predicate Extends(s: Store, t: Store)
  {
    |s.rows| <= |t.rows| && forall j :: 0 <= j < |s.rows| ==> t.rows[j] == s.rows[j]
  }

  /** `t` is `s` with the one profile `p` added. */
  ghost predicate Appended(s: Store, t: Store, p: Profile)
  {
    Extends(s, t) && |t.rows| == |s.rows| + 1 && t.rows[|s.rows|] == p
  }

  /** `id` names an existing row. */
  predicate HasRow(s: Store, id: Option<int>)
  {
    id.Some? && 0 <= id.value < |s.rows|
  }

  /** The first row at or after `from` that belongs to `uid`. */
  function FirstFrom(s: Store, uid: Text, from: nat): (r: Option<nat>)
    requires from <= |s.rows|
    ensures r.None? ==> forall k :: from <= k ==> !Matches(s, uid, k)
    ensures r.Some? ==> from <= r.value && Matches(s, uid, r.value)
    ensures r.Some? ==> forall k :: from <= k < r.value ==> !Matches(s, uid, k)
    decreases |s.rows| - from
  {
    if from == |s.rows| then None
    else if s.rows[from].userId == uid then Some(from)
    else FirstFrom(s, uid, from + 1)
  }

  /** The position of the row of `uid`: none, the only one, or a failure when
      the external id is not unique. */
  function Locate(s: Store, uid: Text): (r: Result<Option<nat>, Error>)
    ensures r == Success(None) <==> !Present(s, uid)
    ensures r.Failure? <==> Ambiguous(s, uid)
    ensures r.Failure? ==> r.error == NonUniqueResult
    ensures r.Success? && r.value.Some? ==> OnlyMatch(s, uid, r.value.value)
  {
    match FirstFrom(s, uid, 0)
    case None => Success(None)
    case Some(i) =>
      match FirstFrom(s, uid, i + 1)
      case Some(j) => Failure(NonUniqueResult)
      case None => Success(Some(i))
  }

  /** `findByUserId`: an empty optional when no profile has the external id,
      the profile when exactly one has it, NonUniqueResult otherwise. */
  function FindByUserId(s: Store, uid: Text): (r: Result<Option<Profile>, Error>)
    ensures r == Success(None) <==> !Present(s, uid)
    ensures r.Failure? <==> Ambiguous(s, uid)
    ensures r.Failure? ==> r.error == NonUniqueResult
    ensures forall i :: OnlyMatch(s, uid, i) ==> r == Success(Some(s.rows[i]))
  {
    match Locate(s, uid)
    case Failure(e) => Failure(e)
    case Success(None) => Success(None)
    case Success(Some(i)) => Success(Some(s.rows[i]))
  }

  /** Every lookup ends in one of three ways. */
  lemma LookupCases(s: Store, uid: Text)
    ensures !Present(s, uid) || Ambiguous(s, uid) || exists i :: OnlyMatch(s, uid, i)
  {
    var r := Locate(s, uid);
    if r.Success? && r.value.Some? {
      assert OnlyMatch(s, uid, r.value.value);
    }
  }

  /** With unique external ids no lookup is ambiguous. */
  lemma UniqueNeverAmbiguous(s: Store, uid: Text)
    requires UniqueUserIds(s)
    ensures !Ambiguous(s, uid)
  {
  }

  /** `save`: a profile whose id names a row overwrites that row and keeps its
      id; any other profile gets the next free id and is added at the end.
      The saved profile is returned and is found again at its id, and no other
      row changes. */
  function Save(s: Store, p: Profile): (r: (Profile, Store))
    requires Valid(s)
    ensures Valid(r.1)
    ensures SameButId(r.0, p)
    ensures HasRow(r.1, r.0.id) && r.1.rows[r.0.id.value] == r.0
    ensures HasRow(s, p.id) ==> r.0.id == p.id && |r.1.rows| == |s.rows|
    ensures !HasRow(s, p.id) ==> r.0.id == Some(|s.rows|) && |r.1.rows| == |s.rows| + 1
    ensures forall j :: 0 <= j < |s.rows| && Some(j) != r.0.id ==> r.1.rows[j] == s.rows[j]
  {
    if HasRow(s, p.id) then
      (p, Store(s.rows[p.id.value := p]))
    else
      var q := p.(id := Some(|s.rows|));
      (q, Store(s.rows + [q]))
  }

  /** Saving a profile without a stored id adds exactly that profile, under a new id. */
  lemma SaveNewAppends(s: Store, p: Profile)
    requires Valid(s) && !HasRow(s, p.id)
    ensures Appended(s, Save(s, p).1, Save(s, p).0)
  {
  }

  /** A store that keeps the rows of another still finds every external id it had. */
  lemma ExtendsKeepsPresent(s: Store, t: Store, uid: Text)
    requires Extends(s, t)
    ensures Present(s, uid) ==> Present(t, uid)
  {
    if i :| Matches(s, uid, i) {
      assert Matches(t, uid, i);
    }
  }

  /** Adding a profile whose external id was absent keeps the external ids unique. */
  lemma AppendAbsentKeepsUnique(s: Store, t: Store, p: Profile)
    requires UniqueUserIds(s) && Appended(s, t, p) && !Present(s, p.userId)
    ensures UniqueUserIds(t)
  {
    forall i | 0 <= i < |s.rows|
      ensures t.rows[i].userId != p.userId
    {
      assert !Matches(s, p.userId, i);
    }
  }

  /** Rewriting one row without changing its external id keeps the external ids unique. */
  lemma OverwriteKeepsUnique(s: Store, t: Store, k: int)
    requires UniqueUserIds(s) && 0 <= k < |s.rows| && |t.rows| == |s.rows|
    requires t.rows[k].userId == s.rows[k].userId
    requires forall j :: 0 <= j < |s.rows| && j != k ==> t.rows[j] == s.rows[j]
    ensures UniqueUserIds(t)
  {
  }
}
