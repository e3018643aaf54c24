/** The retention job for notifications (src/apps/notifications/services.py:124-146): strictly expired rows
    go in bounded batches, under a lock that at most one job holds. Every query reads the clock anew. */
module NotificationPurge {
  import opened Base

  const BATCH: nat := 500

  /** Rows in key order. */
  datatype Row = Row(id: nat, recipient: nat, expiresAt: int)

  predicate Expired(r: Row, now: int) {
    r.expiresAt < now
  }

  function Retained(rows: seq<Row>, now: int): seq<Row> {
    if rows == [] then []
    else (if Expired(rows[0], now) then [] else [rows[0]]) + Retained(rows[1..], now)
  }

  /** The keys of the first limit expired rows. */
  function Batch(rows: seq<Row>, now: int, limit: nat): seq<nat> {
    if rows == [] || limit == 0 then []
    else if Expired(rows[0], now) then [rows[0].id] + Batch(rows[1..], now, limit - 1)
    else Batch(rows[1..], now, limit)
  }

  function Without(rows: seq<Row>, ids: seq<nat>): seq<Row> {
    if rows == [] then []
    else (if rows[0].id in ids then [] else [rows[0]]) + Without(rows[1..], ids)
  }

  /** Keys are unique. */
  ghost predicate Keyed(rows: seq<Row>) {
    forall i, j :: 0 <= i < j < |rows| ==> rows[i].id != rows[j].id
  }

  lemma {:induction false} BatchIsExpired(rows: seq<Row>, now: int, limit: nat)
    requires Keyed(rows)
    ensures forall r :: r in rows && r.id in Batch(rows, now, limit) ==> Expired(r, now)
    ensures forall id :: id in Batch(rows, now, limit) ==> exists r :: r in rows && r.id == id
    ensures Batch(rows, now, limit) == [] <==> limit == 0 || forall r :: r in rows ==> !Expired(r, now)
    ensures |Batch(rows, now, limit)| <= limit
  {
    if rows != [] && limit > 0 {
      var next := if Expired(rows[0], now) then limit - 1 else limit;
      BatchIsExpired(rows[1..], now, next);
      assert forall j :: 0 < j < |rows| ==> rows[j].id != rows[0].id;
      assert forall q :: q in rows[1..] ==> q.id != rows[0].id;
      assert rows[0] in rows;
      forall id | id in Batch(rows, now, limit) ensures exists r :: r in rows && r.id == id {
        if id != rows[0].id {
          var r :| r in rows[1..] && r.id == id;
          assert r in rows;
        }
      }
    }
  }

  /** Deleting expired rows changes nothing about what is retained. */
  lemma {:induction false} WithoutExpired(rows: seq<Row>, ids: seq<nat>, now: int)
    requires forall r :: r in rows && r.id in ids ==> Expired(r, now)
    ensures Retained(Without(rows, ids), now) == Retained(rows, now)
    ensures |Without(rows, ids)| <= |rows|
    ensures forall r :: r in Without(rows, ids) ==> r in rows
    ensures (exists r :: r in rows && r.id in ids) ==> |Without(rows, ids)| < |rows|
  {
    if rows != [] {
      WithoutExpired(rows[1..], ids, now);
      assert rows[0] in rows;
      if rows[0].id in ids {
        assert Without(rows, ids) == Without(rows[1..], ids);
      } else {
        var kept := Without(rows, ids);
        assert kept == [rows[0]] + Without(rows[1..], ids);
        assert kept[1..] == Without(rows[1..], ids);
        if r :| r in rows && r.id in ids {
          assert r in rows[1..];
        }
      }
    }
  }

  lemma {:induction false} WithoutKeyed(rows: seq<Row>, ids: seq<nat>)
    requires Keyed(rows)
    ensures Keyed(Without(rows, ids))
    ensures forall r :: r in Without(rows, ids) ==> r in rows
  {
    if rows != [] {
      WithoutKeyed(rows[1..], ids);
      var (rest, kept) := (Without(rows[1..], ids), Without(rows, ids));
      if rows[0].id !in ids {
        assert kept == [rows[0]] + rest;
        forall j | 1 <= j < |kept| ensures kept[j].id != rows[0].id {
          assert kept[j] == rest[j - 1] && rest[j - 1] in rest;
        }
      }
    }
  }

  lemma {:induction false} NothingExpired(rows: seq<Row>, now: int)
    requires forall r :: r in rows ==> !Expired(r, now)
    ensures Retained(rows, now) == rows
  {
    if rows != [] {
      assert rows[0] in rows;
      NothingExpired(rows[1..], now);
    }
  }

  /** What is retained: the rows that expire now or later. */
  lemma {:induction false} RetainedRows(rows: seq<Row>, now: int)
    ensures forall r :: r in Retained(rows, now) <==> r in rows && r.expiresAt >= now
  {
    if rows != [] {
      RetainedRows(rows[1..], now);
    }
  }

  class Service {
    var rows: seq<Row>
    var lastSuccess: Option<int>
    var lastDeleted: nat

    constructor (rows: seq<Row>)
      ensures this.rows == rows && lastSuccess.None?
    {
      this.rows, lastSuccess, lastDeleted := rows, None, 0;
    }

    /** clock(i) is the instant of the i-th query. At the last one exactly the rows that have not expired
        by then stay, in their order, and the count is of the rows that went. */
    method PurgeExpired(clock: nat -> int, lockAcquired: bool) returns (deleted: nat, queries: nat)
      requires Keyed(rows)
      requires forall i: nat, j: nat :: i <= j ==> clock(i) <= clock(j)
      modifies this
      ensures !lockAcquired ==> rows == old(rows) && deleted == 0 && lastSuccess == old(lastSuccess) && lastDeleted == old(lastDeleted)
      ensures lockAcquired ==> queries > 0 && rows == Retained(old(rows), clock(queries - 1))
      ensures lockAcquired ==> deleted == |old(rows)| - |rows| && lastDeleted == deleted && lastSuccess == Some(clock(queries))
      ensures Keyed(rows)
    {
      deleted, queries := 0, 0;
      if !lockAcquired {
        return;
      }
      while true
        invariant Keyed(rows) && (forall i: nat :: i >= queries ==> Retained(rows, clock(i)) == Retained(old(rows), clock(i)))
        invariant deleted + |rows| == |old(rows)|
        decreases |rows|
      {
        var now := clock(queries);
        var ids := Batch(rows, now, BATCH);
        BatchIsExpired(rows, now, BATCH);
        queries := queries + 1;
        if ids == [] {
          NothingExpired(rows, now);
          break;
        }
        assert ids[0] in ids;
        WithoutExpired(rows, ids, now);
        WithoutKeyed(rows, ids);
        forall i: nat | i >= queries ensures Retained(Without(rows, ids), clock(i)) == Retained(rows, clock(i)) {
          WithoutExpired(rows, ids, clock(i));
        }
        var remaining := Without(rows, ids);
        deleted := deleted + (|rows| - |remaining|);
        rows := remaining;
      }
      lastSuccess := Some(clock(queries));
      lastDeleted := deleted;
    }
  }
}
