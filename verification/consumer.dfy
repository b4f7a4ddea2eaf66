/** The event ingestor (`UserEventConsumerService.consumeUserEvent`): a
    create-only reconciliation. An event for an external id that already has a
    profile is dropped, whatever its other fields say; otherwise a profile is
    built from the event and saved. */
module EventConsumer {
  import opened Wrappers
  import opened Profiles
  import opened ProfileStore
  import UserService

  /** The inbound message: the six fields the listener reads from it. */
  datatype UserEvent = UserEvent(userId: Text, username: Text, email: Text,
                                 firstName: Text, lastName: Text, role: Text)

  /** The profile built from an event, setter by setter, before it is saved. */
  function ProfileOf(e: UserEvent): (p: Profile)
    ensures p.id == None
    ensures IsNewProfile(p, e.userId, e.email, e.username, e.firstName, e.lastName, e.role)
  {
    var p1 := Set(Default(), UserId, e.userId);
    var p2 := Set(p1, Username, e.username);
    var p3 := Set(p2, Email, e.email);
    var p4 := Set(p3, FirstName, e.firstName);
    var p5 := Set(p4, LastName, e.lastName);
    Set(p5, Role, e.role)
  }

  /** The ingestor and find-or-create build the same profile from the same fields,
      though they call the setters in a different order. */
  lemma SameProfileAsGetOrCreate(e: UserEvent)
    ensures ProfileOf(e) == UserService.NewUser(e.userId, e.email, e.username, e.firstName, e.lastName, e.role)
  {
  }

  /** `consumeUserEvent`: no write when the external id already has a profile;
      otherwise exactly one new profile carrying the event's fields, phone unset
      and no preferences. No row that was there before ever changes. */
  function ConsumeUserEvent(s: Store, e: UserEvent): (r: (Result<(), Error>, Store))
    requires Valid(s)
    ensures Valid(r.1) && Extends(s, r.1)
    ensures Present(s, e.userId) ==> r.1 == s
    ensures Present(s, e.userId) && !Ambiguous(s, e.userId) ==> r.0.Success?
    ensures Ambiguous(s, e.userId) ==> r.0 == Failure(NonUniqueResult)
    ensures !Present(s, e.userId) ==>
      && r.0.Success?
      && |r.1.rows| == |s.rows| + 1
      && r.1.rows[|s.rows|].id == Some(|s.rows|)
      && IsNewProfile(r.1.rows[|s.rows|], e.userId, e.email, e.username, e.firstName, e.lastName, e.role)
  {
    match FindByUserId(s, e.userId)
    case Failure(err) => (Failure(err), s)
    case Success(Some(_)) => (Success(()), s)
    case Success(None) =>
      var p := ProfileOf(e);
      SaveNewAppends(s, p);
      (Success(()), Save(s, p).1)
  }

  /** Once an event's external id has a profile, any event for that external id,
      a replay or one with other field values, leaves the store as it is. */
  lemma ReplayIsNoOp(s: Store, e: UserEvent, replay: UserEvent)
    requires Valid(s) && replay.userId == e.userId
    ensures var once := ConsumeUserEvent(s, e).1;
            ConsumeUserEvent(once, replay).1 == once
  {
  }

  /** Delivering an event twice gives the store that delivering it once gives. */
  lemma ConsumeIdempotent(s: Store, e: UserEvent)
    requires Valid(s)
    ensures ConsumeUserEvent(ConsumeUserEvent(s, e).1, e).1 == ConsumeUserEvent(s, e).1
  {
  }

  /** The ingestor keeps the external ids unique. */
  lemma ConsumePreservesUnique(s: Store, e: UserEvent)
    requires Valid(s) && UniqueUserIds(s)
    ensures UniqueUserIds(ConsumeUserEvent(s, e).1)
  {
  }

  /** After an event is consumed its external id has a profile. */
  lemma ConsumeMakesPresent(s: Store, e: UserEvent)
    requires Valid(s)
    ensures Present(ConsumeUserEvent(s, e).1, e.userId)
  {
    if !Present(s, e.userId) {
      assert Matches(ConsumeUserEvent(s, e).1, e.userId, |s.rows|);
    }
  }

  /** The listener fed a stream of events, one after the other. A failed event
      leaves the store as it was, so only the store is carried along. */
  function ConsumeAll(s: Store, events: seq<UserEvent>): (r: Store)
    requires Valid(s)
    ensures Valid(r) && Extends(s, r)
    ensures forall k :: 0 <= k < |events| ==> Present(r, events[k].userId)
    decreases |events|
  {
    if events == [] then s
    else
      var t := ConsumeUserEvent(s, events[0]).1;
      var r := ConsumeAll(t, events[1..]);
      ConsumeMakesPresent(s, events[0]);
      ExtendsKeepsPresent(t, r, events[0].userId);
      r
  }

  /** A stream whose every external id already has a profile changes nothing. */
  lemma {:induction false} KnownEventsAreNoOps(s: Store, events: seq<UserEvent>)
    requires Valid(s)
    requires forall k :: 0 <= k < |events| ==> Present(s, events[k].userId)
    ensures ConsumeAll(s, events) == s
    decreases |events|
  {
    if events != [] {
      assert ConsumeUserEvent(s, events[0]).1 == s;
      assert forall k :: 0 <= k < |events[1..]| ==> events[1..][k] == events[k + 1];
      KnownEventsAreNoOps(s, events[1..]);
    }
  }

  /** Redelivering a whole stream after it was consumed changes nothing. */
  lemma RedeliveredStreamIsNoOp(s: Store, events: seq<UserEvent>)
    requires Valid(s)
    ensures ConsumeAll(ConsumeAll(s, events), events) == ConsumeAll(s, events)
  {
    KnownEventsAreNoOps(ConsumeAll(s, events), events);
  }

  /** Consuming a stream keeps the external ids unique. */
  lemma {:induction false} ConsumeAllPreservesUnique(s: Store, events: seq<UserEvent>)
    requires Valid(s) && UniqueUserIds(s)
    ensures UniqueUserIds(ConsumeAll(s, events))
    decreases |events|
  {
    if events != [] {
      ConsumePreservesUnique(s, events[0]);
      ConsumeAllPreservesUnique(ConsumeUserEvent(s, events[0]).1, events[1..]);
    }
  }

  /** The event {u1, alice, a@x.com, Alice, A, member} consumed into an empty
      store is then found under "u1" with exactly those fields, phone unset,
      no preferences and the first id. */
  lemma AliceScenario()
    ensures var e := UserEvent(Some("u1"), Some("alice"), Some("a@x.com"), Some("Alice"), Some("A"), Some("member"));
            var t := ConsumeUserEvent(Empty, e).1;
            UserService.GetUserById(t, Some("u1"))
              == Success(Some(Profile(Some(0), Some("u1"), Some("a@x.com"), None, Some("Alice"), Some("A"),
                                      Some("alice"), Some("member"), map[])))
  {
  }
}
