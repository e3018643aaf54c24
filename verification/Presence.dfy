/** The expiring presence sets (src/apps/chat/presence.py:14-44, 94-125): a sorted set that is pruned on
    touch and on read and expires as a whole answers as the full event log would. Instants are
    microseconds; each command reads one clock. */
module Presence {
  import opened Base

  const TTL: int := 90_000_000

  /** One key: the score of each connection, and when Redis drops the key. */
  datatype Zset = Zset(scores: map<nat, int>, expiresAt: int)

  const ABSENT := Zset(map[], 0)

  function Stored(z: Zset, at: int): map<nat, int> {
    if at < z.expiresAt then z.scores else map[]
  }

  function Prune(scores: map<nat, int>, upTo: int): map<nat, int> {
    map c | c in scores && scores[c] > upTo :: scores[c]
  }

  function Touch(z: Zset, connection: nat, at: int): Zset {
    Zset(Prune(Stored(z, at), at)[connection := at + TTL], at + 2 * TTL)
  }

  function Remove(z: Zset, connection: nat, at: int): Zset {
    z.(scores := Stored(z, at) - {connection})
  }

  function From(scores: map<nat, int>, now: int): set<nat> {
    set c | c in scores && scores[c] >= now
  }

  function CountLive(z: Zset, now: int): (Zset, nat) {
    var kept := Prune(Stored(z, now), now);
    (z.(scores := kept), |From(kept, now)|)
  }

  // ---------- The event log ----------

  /** Clear is the deletion of the key by a revocation worker. */
  datatype Kind = Touched(connection: nat) | Removed(connection: nat) | Counted | Cleared
  datatype Event = Event(at: int, kind: Kind)

  function Apply(z: Zset, e: Event): Zset {
    match e.kind
    case Touched(c) => Touch(z, c, e.at)
    case Removed(c) => Remove(z, c, e.at)
    case Counted => CountLive(z, e.at).0
    case Cleared => ABSENT
  }

  function After(log: seq<Event>): Zset {
    if log == [] then ABSENT else Apply(After(log[..|log| - 1]), log[|log| - 1])
  }

  ghost predicate Ordered(log: seq<Event>, now: int) {
    && (forall i, j :: 0 <= i < j < |log| ==> log[i].at <= log[j].at)
    && (forall i :: 0 <= i < |log| ==> log[i].at <= now)
  }

  predicate Concerns(e: Event, connection: nat) {
    match e.kind
    case Touched(c) => c == connection
    case Removed(c) => c == connection
    case Counted => false
    case Cleared => true
  }

  /** Event k is the connection's latest, and a touch. */
  predicate LatestTouch(log: seq<Event>, connection: nat, k: int) {
    && 0 <= k < |log| && log[k].kind == Touched(connection)
    && forall l :: k < l < |log| ==> !Concerns(log[l], connection)
  }

  /** The connections whose latest event is a touch less than 90 seconds old. */
  function Online(log: seq<Event>, now: int): set<nat> {
    set k | 0 <= k < |log| && log[k].kind.Touched? && LatestTouch(log, log[k].kind.connection, k) && now - log[k].at < TTL
      :: log[k].kind.connection
  }

  // ---------- The set refines the log ----------

  /** What the set stores of a connection comes from its latest touch, and a live one is stored. */
  ghost predicate Remembers(log: seq<Event>, z: Zset, clock: int, c: nat) {
    && (c in z.scores ==> exists k :: LatestTouch(log, c, k) && z.scores[c] == log[k].at + TTL)
    && (forall k :: LatestTouch(log, c, k) && log[k].at + TTL > clock ==>
          c in z.scores && z.scores[c] == log[k].at + TTL && z.expiresAt > log[k].at + TTL)
  }

  lemma LatestTouchAppend(log: seq<Event>, e: Event, c: nat, k: int)
    ensures LatestTouch(log + [e], c, k) <==> (k == |log| && e.kind == Touched(c)) || (LatestTouch(log, c, k) && !Concerns(e, c))
  {
    var longer := log + [e];
    assert longer[|log|] == e;
    assert forall l :: 0 <= l < |log| ==> longer[l] == log[l];
  }

  lemma ApplyRemembers(log: seq<Event>, z: Zset, e: Event, clock: int, c: nat)
    requires Remembers(log, z, clock, c) && clock <= e.at
    requires forall i :: 0 <= i < |log| ==> log[i].at <= clock
    ensures Remembers(log + [e], Apply(z, e), e.at, c)
  {
    var (longer, after) := (log + [e], Apply(z, e));
    forall k ensures LatestTouch(longer, c, k) <==> (k == |log| && e.kind == Touched(c)) || (LatestTouch(log, c, k) && !Concerns(e, c)) {
      LatestTouchAppend(log, e, c, k);
    }
    if c in after.scores {
      if e.kind == Touched(c) {
        assert LatestTouch(longer, c, |log|);
      } else {
        var k :| LatestTouch(log, c, k) && z.scores[c] == log[k].at + TTL;
        assert LatestTouch(longer, c, k);
      }
    }
    forall k | LatestTouch(longer, c, k) && longer[k].at + TTL > e.at
      ensures c in after.scores && after.scores[c] == longer[k].at + TTL && after.expiresAt > longer[k].at + TTL
    {
      assert k < |log| ==> longer[k] == log[k] && LatestTouch(log, c, k);
    }
  }

  lemma {:induction false} AfterRemembers(log: seq<Event>, clock: int, c: nat)
    requires Ordered(log, clock)
    ensures Remembers(log, After(log), clock, c)
  {
    if log != [] {
      var n := |log| - 1;
      var (init, last) := (log[..n], log[n]);
      assert init + [last] == log;
      AfterRemembers(init, last.at, c);
      ApplyRemembers(init, After(init), last, last.at, c);
      TimePasses(log, After(log), last.at, clock, c);
    }
  }

  lemma TimePasses(log: seq<Event>, z: Zset, clock: int, later: int, c: nat)
    requires Remembers(log, z, clock, c) && clock <= later
    ensures Remembers(log, z, later, c)
  {
  }

  /** Pruning on touch, pruning on read and the expiry of the key never change an answer. */
  lemma CountIsOnline(log: seq<Event>, now: int)
    requires Ordered(log, now)
    ensures CountLive(After(log), now).1 == |Online(log, now)|
  {
    var z := After(log);
    var kept := Prune(Stored(z, now), now);
    forall c: nat ensures c in kept && kept[c] >= now <==> c in Online(log, now) {
      AfterRemembers(log, now, c);
      if c in kept {
        var k :| LatestTouch(log, c, k) && z.scores[c] == log[k].at + TTL;
        assert c in Online(log, now);
      }
      if c in Online(log, now) {
        var k :| 0 <= k < |log| && log[k].kind == Touched(c) && LatestTouch(log, c, k) && now - log[k].at < TTL;
      }
    }
    assert From(kept, now) == Online(log, now);
  }

  /** A user is online exactly when some connection's latest event is a touch less than 90 seconds old. */
  lemma OnlineIff(log: seq<Event>, now: int)
    requires Ordered(log, now)
    ensures CountLive(After(log), now).1 > 0 <==>
            exists c: nat, k :: LatestTouch(log, c, k) && now - log[k].at < 90 * 1_000_000
  {
    CountIsOnline(log, now);
    if c: nat, k :| LatestTouch(log, c, k) && now - log[k].at < TTL {
      assert c in Online(log, now);
    }
    if Online(log, now) != {} {
      var c :| c in Online(log, now);
      var k :| 0 <= k < |log| && log[k].kind == Touched(c) && LatestTouch(log, c, k) && now - log[k].at < TTL;
      assert LatestTouch(log, c, k) && now - log[k].at < TTL;
    }
  }
}
