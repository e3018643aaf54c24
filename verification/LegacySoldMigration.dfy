/** The migrations as they run: dictionaries filled in loops, rows created one by one, and the whole run
    undone by an exception (src/apps/trades/migrations/0001_typed_trade_authority.py:13-103,
    src/apps/catalog/migrations/0004_freeze_legacy_product_authority.py:104-138). */
module LegacySoldMigration {
  import opened Base
  import opened LegacySold

  class Migration {
    var products: seq<Product>
    var trades: seq<Trade>

    constructor (products: seq<Product>)
      ensures this.products == products && trades == []
    {
      this.products, trades := products, [];
    }

    method CollectLegacy() returns (rows: seq<Trade>)
      ensures rows == LegacyRows(trades)
    {
      rows := [];
      for i := 0 to |trades|
        invariant rows == LegacyRows(trades[..i])
      {
        assert trades[..i + 1][..i] == trades[..i];
        if trades[i].kind.Legacy? {
          rows := rows + [trades[i]];
        }
      }
      assert trades[..|trades|] == trades;
    }

    method CollectExisting(ids: set<nat>) returns (existing: map<nat, Trade>)
      ensures existing == LastByProduct(trades, ids)
    {
      existing := map[];
      for i := 0 to |trades|
        invariant existing == LastByProduct(trades[..i], ids)
      {
        assert trades[..i + 1][..i] == trades[..i];
        if trades[i].product in ids {
          existing := existing[trades[i].product := trades[i]];
        }
      }
      assert trades[..|trades|] == trades;
    }

    /** The loop over the sold products: false at the first mismatch. */
    method CreateMissing(existing: map<nat, Trade>) returns (ok: bool)
      modifies this`trades
      ensures ok <==> Created(products, existing, |products|).Ok?
      ensures ok ==> trades == old(trades) + Created(products, existing, |products|).value
    {
      for p := 0 to |products|
        invariant Created(products, existing, p).Ok? && trades == old(trades) + Created(products, existing, p).value
      {
        if products[p].sold {
          if p in existing && !Matches(existing[p], products[p]) {
            CreatedErrStays(products, existing, p + 1, |products|);
            return false;
          }
          if p !in existing {
            trades := trades + [NewRow(products, p)];
          }
        }
      }
      return true;
    }

    method Backfill() returns (ok: bool)
      modifies this`trades
      ensures ok <==> LegacySold.Backfill(products, old(trades)).Ok?
      ensures trades == if ok then LegacySold.Backfill(products, old(trades)).value else old(trades)
    {
      var sold := SoldIds(products);
      var legacy := CollectLegacy();
      if !(ProductsOf(legacy) <= sold) {
        return false;
      }
      var existing := CollectExisting(sold);
      var saved := trades;
      ok := CreateMissing(existing);
      if ok && ActualIds(trades) != sold {
        ok := false;
      }
      if !ok {
        trades := saved;
      }
    }

    /** Whether every row carries the facts of its product: stops at the first that does not. */
    method CheckProvenance(rows: seq<Trade>) returns (ok: bool)
      requires forall i :: 0 <= i < |rows| ==> rows[i].product < |products|
      ensures ok <==> AllMatch(products, rows)
    {
      for i := 0 to |rows|
        invariant forall k :: 0 <= k < i ==> Matches(rows[k], products[rows[k].product])
      {
        if !Matches(rows[i], products[rows[i].product]) {
          return false;
        }
      }
      return true;
    }

    method Reverse() returns (ok: bool)
      modifies this`trades
      ensures ok <==> LegacySold.Reverse(products, old(trades)).Ok?
      ensures trades == if ok then [] else old(trades)
    {
      if exists i :: 0 <= i < |trades| && trades[i].kind.Standard? {
        return false;
      }
      var legacy := CollectLegacy();
      if ProductsOf(legacy) != SoldIds(products) {
        return false;
      }
      SoldInRange(products, legacy);
      ok := CheckProvenance(legacy);
      if ok {
        trades := [];
      }
    }

    method RevalidateLegacySold() returns (ok: bool)
      ensures ok <==> Revalidate(products, trades)
      ensures ok <==> Bijection(products, trades)
    {
      FreezeIff(products, trades);
      var sold := SoldIds(products);
      var legacy := CollectLegacy();
      if |legacy| != |sold| || ProductsOf(legacy) != sold {
        return false;
      }
      SoldInRange(products, legacy);
      ok := CheckProvenance(legacy);
    }
  }

  lemma {:induction false} CreatedErrStays(products: seq<Product>, existing: map<nat, Trade>, m: nat, n: nat)
    requires m <= n <= |products| && Created(products, existing, m).Err?
    ensures Created(products, existing, n).Err?
  {
    if m < n {
      CreatedErrStays(products, existing, m, n - 1);
    }
  }
}
