/** The `UserProfile` entity: an internal id, seven nullable String fields
    and a preferences map, with its two constructors and its setters.
    Java mutates a profile in place; here every setter returns the new value. */
module Profiles {
  import opened Wrappers

  /** A Java `String` reference: `None` is `null`. */
  type Text = Option<string>

  datatype Profile = Profile(
    id: Option<int>,
    userId: Text,
    email: Text,
    phone: Text,
    firstName: Text,
    lastName: Text,
    username: Text,
    role: Text,
    preferences: map<string, string>)

  /** The seven String-valued fields, so that one getter and one setter cover them all. */
  datatype Field = UserId | Email | Phone | FirstName | LastName | Username | Role

  /** The getter of field `f`. */
  function Get(p: Profile, f: Field): Text
  {
    match f
    case UserId => p.userId
    case Email => p.email
    case Phone => p.phone
    case FirstName => p.firstName
    case LastName => p.lastName
    case Username => p.username
    case Role => p.role
  }

  /** A profile is determined by its id, its preferences and its seven String fields. */
  lemma Extensionality(p: Profile, q: Profile)
    requires p.id == q.id && p.preferences == q.preferences
    requires forall f :: Get(p, f) == Get(q, f)
    ensures p == q
  {
    assert Get(p, UserId) == Get(q, UserId);
    assert Get(p, Email) == Get(q, Email);
    assert Get(p, Phone) == Get(q, Phone);
    assert Get(p, FirstName) == Get(q, FirstName);
    assert Get(p, LastName) == Get(q, LastName);
    assert Get(p, Username) == Get(q, Username);
    assert Get(p, Role) == Get(q, Role);
  }

  /** `new UserProfile()`: no id, every String null, an empty preferences map. */
  function Default(): (p: Profile)
    ensures p.id == None
    ensures forall f :: Get(p, f) == None
    ensures p.preferences == map[]
  {
    Profile(None, None, None, None, None, None, None, None, map[])
  }

  /** The nine-argument constructor: each argument lands in the field of the same name. */
  function Construct(id: Option<int>, userId: Text, email: Text, phone: Text, firstName: Text,
                     lastName: Text, username: Text, role: Text,
                     preferences: map<string, string>): (p: Profile)
    ensures p.id == id && p.preferences == preferences
    ensures Get(p, UserId) == userId && Get(p, Email) == email && Get(p, Phone) == phone
    ensures Get(p, FirstName) == firstName && Get(p, LastName) == lastName
    ensures Get(p, Username) == username && Get(p, Role) == role
  {
    Profile(id, userId, email, phone, firstName, lastName, username, role, preferences)
  }

  /** The setter of field `f`: the getter then returns `v`, and nothing else changes. */
  function Set(p: Profile, f: Field, v: Text): (r: Profile)
    ensures Get(r, f) == v
    ensures forall g :: g != f ==> Get(r, g) == Get(p, g)
    ensures r.id == p.id && r.preferences == p.preferences
  {
    match f
    case UserId => p.(userId := v)
    case Email => p.(email := v)
    case Phone => p.(phone := v)
    case FirstName => p.(firstName := v)
    case LastName => p.(lastName := v)
    case Username => p.(username := v)
    case Role => p.(role := v)
  }

  /** `setId`: only the id changes. */
  function SetId(p: Profile, v: Option<int>): (r: Profile)
    ensures r.id == v && r.preferences == p.preferences
    ensures forall g :: Get(r, g) == Get(p, g)
  {
    p.(id := v)
  }

  /** `setPreferences`: the given map becomes the preferences as it is,
      with nothing kept from the old map; nothing else changes. */
  function SetPreferences(p: Profile, m: map<string, string>): (r: Profile)
    ensures r.preferences == m
    ensures r.id == p.id && forall g :: Get(r, g) == Get(p, g)
  {
    p.(preferences := m)
  }

  /** Setting a field twice keeps only the second value. */
  lemma SetLastWins(p: Profile, f: Field, a: Text, b: Text)
    ensures Set(Set(p, f, a), f, b) == Set(p, f, b)
  {
  }

  /** Setters of different fields do not interfere. */
  lemma SetCommutes(p: Profile, f: Field, g: Field, a: Text, b: Text)
    requires f != g
    ensures Set(Set(p, f, a), g, b) == Set(Set(p, g, b), f, a)
  {
  }

  /** Setting a field to the value its getter returns changes nothing. */
  lemma SetToOwnValue(p: Profile, f: Field)
    ensures Set(p, f, Get(p, f)) == p
  {
  }

  /** `b` is `a` with only the internal id possibly different. */
  predicate SameButId(a: Profile, b: Profile)
  {
    a.(id := b.id) == b
  }

  /** The profile the service and the event ingestor build before saving:
      the six given fields, phone unset, no preferences. */
  predicate IsNewProfile(p: Profile, userId: Text, email: Text, username: Text,
                         firstName: Text, lastName: Text, role: Text)
  {
    && p.userId == userId && p.email == email && p.username == username
    && p.firstName == firstName && p.lastName == lastName && p.role == role
    && p.phone == None && p.preferences == map[]
  }

  /** `after` is `before` overwritten by an update payload: email, phone, names,
      username and role are the payload's (null included), the preferences map
      is the payload's map, and the id and userId are those of `before`. */
  predicate OverwrittenBy(before: Profile, payload: Profile, after: Profile)
  {
    && after.id == before.id
    && after.userId == before.userId
    && (forall f :: f != UserId ==> Get(after, f) == Get(payload, f))
    && after.preferences == payload.preferences
  }

  /** The in-place edit `updateUser` applies to the stored profile, setter by setter. */
  function ApplyUpdate(existing: Profile, payload: Profile): (r: Profile)
    ensures OverwrittenBy(existing, payload, r)
  {
    var p1 := Set(existing, Email, payload.email);
    var p2 := Set(p1, Phone, payload.phone);
    var p3 := Set(p2, FirstName, payload.firstName);
    var p4 := Set(p3, LastName, payload.lastName);
    var p5 := Set(p4, Username, payload.username);
    var p6 := Set(p5, Role, payload.role);
    SetPreferences(p6, payload.preferences)
  }

  /** An update leaves exactly one possible result. */
  lemma OverwrittenByDetermines(before: Profile, payload: Profile, a: Profile, b: Profile)
    requires OverwrittenBy(before, payload, a) && OverwrittenBy(before, payload, b)
    ensures a == b
  {
    assert Get(a, UserId) == Get(b, UserId);
    Extensionality(a, b);
  }

  /** Applying the same payload a second time changes nothing. */
  lemma ApplyUpdateIdempotent(existing: Profile, payload: Profile)
    ensures ApplyUpdate(ApplyUpdate(existing, payload), payload) == ApplyUpdate(existing, payload)
  {
  }
}
