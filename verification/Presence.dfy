/** The presence index of online_status_tracker.rb: a sorted set per kind of object,
    pruned whenever it is asked for the ones that are online. Time is in seconds. */
module Presence {

  type Id = string

  datatype Kind = Contact | User

  ghost function Since(lastSeen: map<Id, int>, start: int): set<Id> {
    set id | id in lastSeen && lastSeen[id] >= start
  }

  /** The condition of get_presence. */
  ghost predicate Present(lastSeen: map<Id, int>, start: int, id: Id) {
    id in lastSeen && lastSeen[id] > start
  }

  /** Whoever is present is listed, and whoever is listed is present unless last seen
      exactly at the start of the range. */
  lemma PresentIsListed(lastSeen: map<Id, int>, start: int, id: Id)
    ensures Present(lastSeen, start, id) <==> id in Since(lastSeen, start) && lastSeen[id] != start
  {
  }

  class SortedSet {
    var scores: map<Id, int>

    constructor ()
      ensures scores == map[]
    {
      scores := map[];
    }

    method Add(score: int, id: Id)
      modifies this
      ensures scores == old(scores)[id := score]
    {
      scores := scores[id := score];
    }

    method RemoveBelow(start: int)
      modifies this
      ensures scores == map id | id in old(scores) && old(scores)[id] >= start :: old(scores)[id]
    {
      scores := map id | id in scores && scores[id] >= start :: scores[id];
    }

    method RangeFrom(start: int) returns (ids: set<Id>)
      ensures ids == Since(scores, start)
    {
      ids := set id | id in scores && scores[id] >= start;
    }
  }

  class OnlineStatusTracker {
    const duration: nat
    const contacts: SortedSet
    const users: SortedSet
    // Not in the source: the unpruned record and the latest time that was read.
    ghost var contactsSeen: map<Id, int>
    ghost var usersSeen: map<Id, int>
    ghost var clock: int

    /** The set lacks only what was already too old when it was pruned. */
    ghost predicate Prunes(scores: map<Id, int>, lastSeen: map<Id, int>)
      reads this
    {
      && (forall id :: id in scores ==> id in lastSeen && lastSeen[id] == scores[id])
      && (forall id :: id in lastSeen && id !in scores ==> lastSeen[id] < clock - duration)
    }

    ghost predicate Valid()
      reads this, contacts, users
    {
      contacts != users && Prunes(contacts.scores, contactsSeen) && Prunes(users.scores, usersSeen)
    }

    ghost function SeenOf(kind: Kind): map<Id, int>
      reads this
    {
      if kind == Contact then contactsSeen else usersSeen
    }

    constructor (duration: nat)
      ensures Valid() && fresh(contacts) && fresh(users) && contactsSeen == map[] && usersSeen == map[]
      ensures this.duration == duration
    {
      this.duration := duration;
      contacts := new SortedSet();
      users := new SortedSet();
      contactsSeen, usersSeen, clock := map[], map[], 0;
    }

    method UpdatePresence(kind: Kind, id: Id, now: int)
      requires Valid() && now >= clock
      modifies this, contacts, users
      ensures Valid() && clock == now
      ensures SeenOf(kind) == old(SeenOf(kind))[id := now]
      ensures forall k :: k != kind ==> SeenOf(k) == old(SeenOf(k))
    {
      clock := now;
      if kind == Contact {
        contacts.Add(now, id);
        contactsSeen := contactsSeen[id := now];
      } else {
        users.Add(now, id);
        usersSeen := usersSeen[id := now];
      }
    }

    method GetPresence(kind: Kind, id: Id, now: int) returns (present: bool)
      requires Valid() && now >= clock
      modifies this`clock
      ensures Valid() && clock == now
      ensures present <==> Present(SeenOf(kind), now - duration, id)
    {
      clock := now;
      var scores := if kind == Contact then contacts.scores else users.scores;
      present := id in scores && scores[id] > now - duration;
    }

    method GetAvailableContactIds(now: int) returns (ids: set<Id>)
      requires Valid() && now >= clock
      modifies this`clock, contacts
      ensures Valid() && clock == now
      ensures ids == Since(contactsSeen, now - duration) && contacts.scores.Keys == ids
    {
      clock := now;
      contacts.RemoveBelow(now - duration);
      ids := contacts.RangeFrom(now - duration);
    }

    /** `registered` are the ids of all users, who are always included. */
    method GetAvailableUserIds(registered: set<Id>, now: int) returns (ids: set<Id>)
      requires Valid() && now >= clock
      modifies this`clock
      ensures Valid() && clock == now
      ensures ids == Since(usersSeen, now - duration) + registered
    {
      clock := now;
      ids := users.RangeFrom(now - duration);
      ids := ids + registered;
    }

    method ConcurrentUsersCount(now: int) returns (count: nat)
      requires Valid() && now >= clock
      modifies this`clock, users
      ensures Valid() && clock == now
      ensures count == |Since(usersSeen, now - duration)| && users.scores.Keys == Since(usersSeen, now - duration)
    {
      clock := now;
      users.RemoveBelow(now - duration);
      var ids := users.RangeFrom(now - duration);
      assert ids == Since(usersSeen, now - duration);
      count := |ids|;
    }
  }
}
