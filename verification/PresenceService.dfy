/** The Redis backend and the service over it, with the event log of each key kept as a ghost beside the
    pruned sets (src/apps/chat/presence.py:23-125). */
module PresenceService {
  import opened Base
  import opened Presence

  /** (room, user) */
  type Key = (nat, nat)

  function SetOf(store: map<Key, Zset>, key: Key): Zset {
    if key in store then store[key] else ABSENT
  }

  function LogOf(log: map<Key, seq<Event>>, key: Key): seq<Event> {
    if key in log then log[key] else []
  }

  function Appended(log: map<Key, seq<Event>>, key: Key, e: Event): map<Key, seq<Event>> {
    log[key := LogOf(log, key) + [e]]
  }

  ghost predicate Agrees(store: map<Key, Zset>, log: map<Key, seq<Event>>, clock: int, key: Key) {
    Ordered(LogOf(log, key), clock) && SetOf(store, key) == After(LogOf(log, key))
  }

  /** Carrying out an event on its key keeps every set in step with its log. */
  lemma AppendAgrees(store: map<Key, Zset>, log: map<Key, seq<Event>>, clock: int, key: Key, e: Event, other: Key)
    requires Agrees(store, log, clock, key) && Agrees(store, log, clock, other) && clock <= e.at
    ensures Agrees(store[key := Apply(SetOf(store, key), e)], Appended(log, key, e), e.at, other)
  {
    if other == key {
      var longer := LogOf(log, key) + [e];
      assert longer[..|longer| - 1] == LogOf(log, key);
    }
  }

  ghost predicate AllAgree(store: map<Key, Zset>, log: map<Key, seq<Event>>, clock: int) {
    forall key :: Agrees(store, log, clock, key)
  }

  lemma AppendAllAgree(store: map<Key, Zset>, log: map<Key, seq<Event>>, clock: int, key: Key, e: Event, after: Zset)
    requires AllAgree(store, log, clock) && clock <= e.at && after == Apply(SetOf(store, key), e)
    ensures AllAgree(store[key := after], Appended(log, key, e), e.at)
  {
    var (store', log') := (store[key := after], Appended(log, key, e));
    forall other ensures Agrees(store', log', e.at, other) {
      AppendAgrees(store, log, clock, key, e, other);
    }
  }

  /** Being counted changes nobody's state. */
  lemma CountingIsQuiet(log: seq<Event>, now: int)
    ensures Online(log + [Event(now, Counted)], now) == Online(log, now)
  {
    var longer := log + [Event(now, Counted)];
    forall c: nat, k ensures LatestTouch(longer, c, k) <==> LatestTouch(log, c, k) {
      LatestTouchAppend(log, Event(now, Counted), c, k);
    }
    forall c: nat ensures c in Online(longer, now) <==> c in Online(log, now) {
      if c in Online(longer, now) {
        var k :| 0 <= k < |longer| && longer[k].kind == Touched(c) && LatestTouch(longer, c, k) && now - longer[k].at < TTL;
        assert LatestTouch(log, c, k);
      }
      if c in Online(log, now) {
        var k :| 0 <= k < |log| && log[k].kind == Touched(c) && LatestTouch(log, c, k) && now - log[k].at < TTL;
        assert LatestTouch(longer, c, k) && longer[k] == log[k];
      }
    }
  }

  class Service {
    var store: map<Key, Zset>
    var clock: int
    ghost var log: map<Key, seq<Event>>

    ghost predicate Valid()
      reads this
    {
      AllAgree(store, log, clock)
    }

    constructor (now: int)
      ensures Valid() && clock == now && log == map[]
    {
      store, clock, log := map[], now, map[];
    }

    /** Writing one set back, as an event does, and logging that event. */
    method Write(key: Key, z: Zset, at: int, ghost kind: Kind)
      requires Valid() && clock <= at && z == Apply(SetOf(store, key), Event(at, kind))
      modifies this
      ensures Valid() && clock == at && log == Appended(old(log), key, Event(at, kind))
    {
      AppendAllAgree(store, log, clock, key, Event(at, kind), z);
      store := store[key := z];
      log := Appended(log, key, Event(at, kind));
      clock := at;
    }

    method Touch(key: Key, connection: nat, at: int)
      requires Valid() && clock <= at
      modifies this
      ensures Valid() && clock == at && log == Appended(old(log), key, Event(at, Touched(connection)))
    {
      var scores := Prune(Stored(SetOf(store, key), at), at);
      scores := scores[connection := at + TTL];
      Write(key, Zset(scores, at + 2 * TTL), at, Touched(connection));
    }

    method Remove(key: Key, connection: nat, at: int)
      requires Valid() && clock <= at
      modifies this
      ensures Valid() && clock == at && log == Appended(old(log), key, Event(at, Removed(connection)))
    {
      var z := SetOf(store, key);
      Write(key, z.(scores := Stored(z, at) - {connection}), at, Removed(connection));
    }

    method CountLive(key: Key, now: int) returns (n: nat)
      requires Valid() && clock <= now
      modifies this
      ensures Valid() && clock == now && log == Appended(old(log), key, Event(now, Counted))
      ensures n == |Online(LogOf(old(log), key), now)|
    {
      assert Agrees(store, log, clock, key);
      CountIsOnline(LogOf(log, key), now);
      var z := SetOf(store, key);
      var kept := Prune(Stored(z, now), now);
      n := |From(kept, now)|;
      Write(key, z.(scores := kept), now, Counted);
    }

    /** peer_states: inactive peers are offline; the others are asked one by one, and the answers come
        from the logs as they were before. */
    method PeerStates(room: nat, peers: seq<nat>, active: set<nat>, now: int) returns (states: map<nat, bool>)
      requires Valid() && clock <= now
      modifies this
      ensures Valid()
      ensures forall p :: p in states <==> p in peers
      ensures forall p :: p in peers ==> (states[p] <==> p in active && Online(LogOf(old(log), (room, p)), now) != {})
      ensures forall key :: Online(LogOf(log, key), now) == Online(LogOf(old(log), key), now)
    {
      states := map[];
      for i := 0 to |peers|
        invariant Valid() && clock <= now
        invariant forall p :: p in states <==> p in peers[..i]
        invariant forall p :: p in states ==> (states[p] <==> p in active && Online(LogOf(old(log), (room, p)), now) != {})
        invariant forall key :: Online(LogOf(log, key), now) == Online(LogOf(old(log), key), now)
      {
        var p := peers[i];
        if p !in active {
          states := states[p := false];
        } else {
          CountingIsQuiet(LogOf(log, (room, p)), now);
          var n := CountLive((room, p), now);
          states := states[p := n > 0];
        }
        assert peers[..i + 1] == peers[..i] + [p];
      }
      assert peers[..|peers|] == peers;
    }
  }
}
