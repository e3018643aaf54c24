/** The data migration that gives every legacy SOLD product a LEGACY_SOLD trade, its inverse, and the later
    freeze check (src/apps/trades/migrations/0001_typed_trade_authority.py:13-103,
    src/apps/catalog/migrations/0004_freeze_legacy_product_authority.py:104-138). */
module LegacySold {
  import opened Base

  datatype Kind = Standard | Legacy
  datatype Status = Reserved | Cancelled | Completed

  /** Product keys are positions. */
  datatype Product = Product(owner: nat, sold: bool, updatedAt: int)
  datatype Trade = Trade(product: nat, seller: nat, buyer: Option<nat>, kind: Kind, status: Status, completedAt: Option<int>)

  datatype Result<T> = Ok(value: T) | Err

  predicate Matches(t: Trade, p: Product) {
    t.seller == p.owner && t.buyer.None? && t.kind.Legacy? && t.status.Completed? && t.completedAt == Some(p.updatedAt)
  }

  function SoldIds(products: seq<Product>): set<nat> {
    set p | 0 <= p < |products| && products[p].sold
  }

  function LegacyRows(trades: seq<Trade>): seq<Trade> {
    if trades == [] then []
    else
      var last := trades[|trades| - 1];
      LegacyRows(trades[..|trades| - 1]) + (if last.kind.Legacy? then [last] else [])
  }

  function ProductsOf(rows: seq<Trade>): set<nat> {
    set i | 0 <= i < |rows| :: rows[i].product
  }

  /** The dictionary from product to its last row in query order. */
  function LastByProduct(trades: seq<Trade>, ids: set<nat>): (r: map<nat, Trade>)
    ensures forall p :: p in r ==> p in ids
  {
    if trades == [] then map[]
    else
      var last := trades[|trades| - 1];
      var before := LastByProduct(trades[..|trades| - 1], ids);
      if last.product in ids then before[last.product := last] else before
  }

  function NewRow(products: seq<Product>, p: nat): Trade
    requires p < |products|
  {
    Trade(p, products[p].owner, None, Legacy, Completed, Some(products[p].updatedAt))
  }

  /** The rows the loop creates for the first n products; Err at the first provenance mismatch. */
  function Created(products: seq<Product>, existing: map<nat, Trade>, n: nat): Result<seq<Trade>>
    requires n <= |products|
  {
    if n == 0 then Ok([])
    else
      match Created(products, existing, n - 1)
      case Err => Err
      case Ok(rows) =>
        var p := n - 1;
        if !products[p].sold then Ok(rows)
        else if p !in existing then Ok(rows + [NewRow(products, p)])
        else if Matches(existing[p], products[p]) then Ok(rows)
        else Err
  }

  /** The products of the completed legacy rows. */
  function ActualIds(trades: seq<Trade>): set<nat> {
    set i | 0 <= i < |trades| && trades[i].kind.Legacy? && trades[i].status.Completed? :: trades[i].product
  }

  function Backfill(products: seq<Product>, trades: seq<Trade>): Result<seq<Trade>> {
    var sold := SoldIds(products);
    if !(ProductsOf(LegacyRows(trades)) <= sold) then Err
    else
      match Created(products, LastByProduct(trades, sold), |products|)
      case Err => Err
      case Ok(rows) =>
        var after := trades + rows;
        if ActualIds(after) != sold then Err else Ok(after)
  }

  predicate AllMatch(products: seq<Product>, rows: seq<Trade>)
    requires forall i :: 0 <= i < |rows| ==> rows[i].product < |products|
  {
    forall i :: 0 <= i < |rows| ==> Matches(rows[i], products[rows[i].product])
  }

  function Reverse(products: seq<Product>, trades: seq<Trade>): Result<seq<Trade>> {
    if exists i :: 0 <= i < |trades| && trades[i].kind.Standard? then Err
    else
      var rows := LegacyRows(trades);
      if ProductsOf(rows) != SoldIds(products) then Err
      else
        SoldInRange(products, rows);
        if !AllMatch(products, rows) then Err else Ok([])
  }

  lemma SoldInRange(products: seq<Product>, rows: seq<Trade>)
    requires ProductsOf(rows) <= SoldIds(products)
    ensures forall i :: 0 <= i < |rows| ==> rows[i].product < |products|
  {
    forall i | 0 <= i < |rows| ensures rows[i].product < |products| {
      assert rows[i].product in ProductsOf(rows);
    }
  }

  /** _revalidate_legacy_sold: whether the freeze goes ahead. */
  predicate Revalidate(products: seq<Product>, trades: seq<Trade>) {
    var (rows, sold) := (LegacyRows(trades), SoldIds(products));
    |rows| == |sold| && ProductsOf(rows) == sold && (SoldInRange(products, rows); AllMatch(products, rows))
  }

  // ---------- What the migrations are for ----------

  predicate IsLegacyOf(t: Trade, p: nat) {
    t.kind.Legacy? && t.product == p
  }

  /** A completed sale without a buyer, by the product's owner, at its last update. */
  predicate CarriesFacts(t: Trade, p: Product) {
    t.seller == p.owner && t.buyer == None && t.status == Completed && t.completedAt == Some(p.updatedAt)
  }

  /** One legacy trade for each sold product, with the product's facts, and none for any other. */
  ghost predicate Bijection(products: seq<Product>, trades: seq<Trade>) {
    && (forall i :: 0 <= i < |trades| && trades[i].kind.Legacy? ==>
          trades[i].product in SoldIds(products) && CarriesFacts(trades[i], products[trades[i].product]))
    && (forall p :: p in SoldIds(products) ==> exists i :: 0 <= i < |trades| && IsLegacyOf(trades[i], p))
    && NoTwoLegacy(trades)
  }

  // ---------- Legacy rows ----------

  ghost predicate Distinct(rows: seq<Trade>) {
    forall i, j :: 0 <= i < j < |rows| ==> rows[i].product != rows[j].product
  }

  lemma {:induction false} LegacyRowsAre(trades: seq<Trade>)
    ensures forall t :: t in LegacyRows(trades) <==> t in trades && t.kind.Legacy?
  {
    if trades != [] {
      var n := |trades| - 1;
      LegacyRowsAre(trades[..n]);
      assert trades == trades[..n] + [trades[n]];
    }
  }

  lemma {:induction false} LegacyRowsConcat(a: seq<Trade>, b: seq<Trade>)
    ensures LegacyRows(a + b) == LegacyRows(a) + LegacyRows(b)
  {
    if b == [] {
      assert a + b == a;
    } else {
      var n := |b| - 1;
      assert (a + b)[..|a + b| - 1] == a + b[..n];
      LegacyRowsConcat(a, b[..n]);
    }
  }

  ghost predicate NoTwoLegacy(trades: seq<Trade>) {
    forall i, j :: 0 <= i < j < |trades| && trades[i].kind.Legacy? && trades[j].kind.Legacy? ==> trades[i].product != trades[j].product
  }

  lemma DistinctAppend(rows: seq<Trade>, t: Trade)
    ensures Distinct(rows + [t]) <==> Distinct(rows) && forall r :: r in rows ==> r.product != t.product
  {
    var longer := rows + [t];
    assert longer[|rows|] == t;
    assert forall i :: 0 <= i < |rows| ==> longer[i] == rows[i];
  }

  lemma NoTwoLegacyAppend(trades: seq<Trade>, t: Trade)
    ensures NoTwoLegacy(trades + [t]) <==>
            NoTwoLegacy(trades) && (t.kind.Legacy? ==> forall r :: r in trades && r.kind.Legacy? ==> r.product != t.product)
  {
    var longer := trades + [t];
    assert longer[|trades|] == t;
    assert forall i :: 0 <= i < |trades| ==> longer[i] == trades[i];
  }

  lemma {:induction false} LegacyRowsDistinct(trades: seq<Trade>)
    ensures Distinct(LegacyRows(trades)) <==> NoTwoLegacy(trades)
  {
    if trades != [] {
      var n := |trades| - 1;
      LegacyRowsDistinct(trades[..n]);
      LegacyRowsAre(trades[..n]);
      DistinctAppend(LegacyRows(trades[..n]), trades[n]);
      NoTwoLegacyAppend(trades[..n], trades[n]);
      assert trades == trades[..n] + [trades[n]];
      if trades[n].kind.Legacy? {
        assert LegacyRows(trades) == LegacyRows(trades[..n]) + [trades[n]];
      } else {
        assert LegacyRows(trades) == LegacyRows(trades[..n]);
      }
    }
  }

  lemma ProductsOfAppend(rows: seq<Trade>, t: Trade)
    ensures ProductsOf(rows + [t]) == ProductsOf(rows) + {t.product}
    ensures t.product in ProductsOf(rows) <==> exists r :: r in rows && r.product == t.product
  {
    var longer := rows + [t];
    assert longer[|rows|] == t;
    assert forall i :: 0 <= i < |rows| ==> longer[i] == rows[i];
  }

  /** As many rows as products among them: no product twice. */
  lemma {:induction false} Pigeonhole(rows: seq<Trade>)
    ensures |ProductsOf(rows)| <= |rows|
    ensures |ProductsOf(rows)| == |rows| <==> Distinct(rows)
  {
    if rows == [] {
      assert ProductsOf(rows) == {};
    } else {
      var n := |rows| - 1;
      Pigeonhole(rows[..n]);
      ProductsOfAppend(rows[..n], rows[n]);
      DistinctAppend(rows[..n], rows[n]);
      assert rows == rows[..n] + [rows[n]];
    }
  }

  lemma InProductsOf(rows: seq<Trade>, t: Trade)
    requires t in rows
    ensures t.product in ProductsOf(rows)
  {
  }

  /** The freeze check accepts exactly the bijections with unchanged provenance. */
  lemma FreezeIff(products: seq<Product>, trades: seq<Trade>)
    ensures Revalidate(products, trades) <==> Bijection(products, trades)
  {
    var (rows, sold) := (LegacyRows(trades), SoldIds(products));
    LegacyRowsAre(trades);
    LegacyRowsDistinct(trades);
    Pigeonhole(rows);
    if Revalidate(products, trades) {
      forall i | 0 <= i < |trades| && trades[i].kind.Legacy?
        ensures trades[i].product in sold && Matches(trades[i], products[trades[i].product])
      {
        assert trades[i] in rows;
        InProductsOf(rows, trades[i]);
      }
      forall p | p in sold ensures exists i :: 0 <= i < |trades| && IsLegacyOf(trades[i], p) {
        var k :| 0 <= k < |rows| && rows[k].product == p;
        assert rows[k] in trades;
        var i :| 0 <= i < |trades| && trades[i] == rows[k];
        assert IsLegacyOf(trades[i], p);
      }
    }
    if Bijection(products, trades) {
      forall k | 0 <= k < |rows| ensures rows[k].product in sold && Matches(rows[k], products[rows[k].product]) {
        assert rows[k] in rows;
        var i :| 0 <= i < |trades| && trades[i] == rows[k];
      }
      forall p | p in sold ensures p in ProductsOf(rows) {
        var i :| 0 <= i < |trades| && IsLegacyOf(trades[i], p);
        assert trades[i] in rows;
      }
      assert ProductsOf(rows) == sold;
    }
  }

  // ---------- The loop ----------

  /** Rows the loop leaves to be created among the first n products. */
  predicate Missing(products: seq<Product>, existing: map<nat, Trade>, p: nat) {
    p < |products| && products[p].sold && p !in existing
  }

  /** What the loop creates: one row for each missing product, in order. */
  lemma {:induction false} CreatedAre(products: seq<Product>, existing: map<nat, Trade>, n: nat)
    requires n <= |products| && Created(products, existing, n).Ok?
    ensures var rows := Created(products, existing, n).value;
            && (forall t :: t in rows ==> t.product < n && Missing(products, existing, t.product) && t == NewRow(products, t.product))
            && (forall p :: 0 <= p < n && Missing(products, existing, p) ==> NewRow(products, p) in rows)
            && (forall p :: 0 <= p < n && products[p].sold && p in existing ==> Matches(existing[p], products[p]))
            && Distinct(rows)
  {
    if n > 0 {
      CreatedAre(products, existing, n - 1);
      var before := Created(products, existing, n - 1).value;
      DistinctAppend(before, NewRow(products, n - 1));
    }
  }

  lemma {:induction false} CreatedOkIff(products: seq<Product>, existing: map<nat, Trade>, n: nat)
    requires n <= |products|
    ensures Created(products, existing, n).Ok? <==>
            forall p :: 0 <= p < n && products[p].sold && p in existing ==> Matches(existing[p], products[p])
  {
    if n > 0 {
      CreatedOkIff(products, existing, n - 1);
    }
  }

  lemma {:induction false} LastByProductIs(trades: seq<Trade>, ids: set<nat>)
    ensures forall p :: p in LastByProduct(trades, ids) <==> p in ids && exists i :: 0 <= i < |trades| && trades[i].product == p
    ensures forall p :: p in LastByProduct(trades, ids) ==> LastByProduct(trades, ids)[p] in trades && LastByProduct(trades, ids)[p].product == p
  {
    if trades != [] {
      var n := |trades| - 1;
      LastByProductIs(trades[..n], ids);
      forall p ensures p in LastByProduct(trades, ids) <==> p in ids && exists i :: 0 <= i < |trades| && trades[i].product == p {
        if p in ids && p != trades[n].product {
          if i :| 0 <= i < |trades| && trades[i].product == p {
            assert trades[..n][i].product == p;
          }
        }
      }
    }
  }

  lemma IsActual(trades: seq<Trade>, t: Trade)
    requires t in trades && t.kind.Legacy? && t.status.Completed?
    ensures t.product in ActualIds(trades)
  {
  }

  /** Every sold product ends up with a completed legacy row. */
  lemma SoldIsCovered(products: seq<Product>, trades: seq<Trade>, p: nat)
    requires p in SoldIds(products) && Created(products, LastByProduct(trades, SoldIds(products)), |products|).Ok?
    ensures p in ActualIds(trades + Created(products, LastByProduct(trades, SoldIds(products)), |products|).value)
  {
    var existing := LastByProduct(trades, SoldIds(products));
    var rows := Created(products, existing, |products|).value;
    CreatedAre(products, existing, |products|);
    LastByProductIs(trades, SoldIds(products));
    if p in existing {
      IsActual(trades + rows, existing[p]);
    } else {
      assert Missing(products, existing, p);
      IsActual(trades + rows, NewRow(products, p));
    }
  }

  lemma BackfillCovers(products: seq<Product>, trades: seq<Trade>)
    requires Created(products, LastByProduct(trades, SoldIds(products)), |products|).Ok?
    requires forall t :: t in trades && t.kind.Legacy? ==> t.product in SoldIds(products)
    ensures var rows := Created(products, LastByProduct(trades, SoldIds(products)), |products|).value;
            ActualIds(trades + rows) == SoldIds(products)
  {
    var existing := LastByProduct(trades, SoldIds(products));
    var rows := Created(products, existing, |products|).value;
    CreatedAre(products, existing, |products|);
    forall p | p in SoldIds(products) ensures p in ActualIds(trades + rows) {
      SoldIsCovered(products, trades, p);
    }
    forall i | 0 <= i < |trades + rows| && (trades + rows)[i].kind.Legacy? ensures (trades + rows)[i].product in SoldIds(products) {
      assert (trades + rows)[i] in trades || (trades + rows)[i] in rows;
    }
  }

  // ---------- Main results ----------

  /** The migration goes through exactly when every legacy row belongs to a sold product and the row it
      looks at for each sold product, if any, has that product's provenance. */
  lemma BackfillOkIff(products: seq<Product>, trades: seq<Trade>)
    ensures var existing := LastByProduct(trades, SoldIds(products));
            Backfill(products, trades).Ok? <==>
              && (forall t :: t in trades && t.kind.Legacy? ==> t.product in SoldIds(products))
              && (forall p :: p in existing ==> Matches(existing[p], products[p]))
  {
    var sold := SoldIds(products);
    var existing := LastByProduct(trades, sold);
    LegacyRowsAre(trades);
    LastByProductIs(trades, sold);
    CreatedOkIff(products, existing, |products|);
    if forall t :: t in trades && t.kind.Legacy? ==> t.product in sold {
      forall p | p in ProductsOf(LegacyRows(trades)) ensures p in sold {
        var k :| 0 <= k < |LegacyRows(trades)| && LegacyRows(trades)[k].product == p;
        assert LegacyRows(trades)[k] in LegacyRows(trades);
      }
      if Created(products, existing, |products|).Ok? {
        BackfillCovers(products, trades);
      }
    } else {
      var t :| t in trades && t.kind.Legacy? && t.product !in sold;
      InProductsOf(LegacyRows(trades), t);
    }
    assert forall p :: p in existing ==> p in sold;
  }

  function FirstRows(products: seq<Product>): seq<Trade> {
    match Created(products, map[], |products|)
    case Ok(rows) => rows
    case Err => []
  }

  lemma FirstRowsAre(products: seq<Product>)
    ensures Bijection(products, FirstRows(products))
    ensures forall t :: t in FirstRows(products) ==> t.kind.Legacy?
  {
    var rows := FirstRows(products);
    CreatedOkIff(products, map[], |products|);
    CreatedAre(products, map[], |products|);
    forall p | p in SoldIds(products) ensures exists i :: 0 <= i < |rows| && IsLegacyOf(rows[i], p) {
      assert Missing(products, map[], p);
      var i :| 0 <= i < |rows| && rows[i] == NewRow(products, p);
      assert IsLegacyOf(rows[i], p);
    }
    forall i | 0 <= i < |rows| ensures rows[i].product in SoldIds(products) && Matches(rows[i], products[rows[i].product]) {
      assert rows[i] in rows;
    }
  }

  /** From an empty table: a bijection, which the freeze check accepts. */
  lemma BackfillFromEmpty(products: seq<Product>)
    ensures Backfill(products, []) == Ok(FirstRows(products))
    ensures Bijection(products, FirstRows(products)) && Revalidate(products, FirstRows(products))
    ensures forall t :: t in FirstRows(products) ==> t.kind.Legacy?
  {
    FirstRowsAre(products);
    FreezeIff(products, FirstRows(products));
    BackfillOkIff(products, []);
    assert [] + FirstRows(products) == FirstRows(products);
  }

  /** After a success, the row looked at for each sold product carries its provenance. */
  lemma PickedMatches(products: seq<Product>, trades: seq<Trade>, p: nat)
    requires p in SoldIds(products) && Created(products, LastByProduct(trades, SoldIds(products)), |products|).Ok?
    ensures var after := trades + Created(products, LastByProduct(trades, SoldIds(products)), |products|).value;
            var again := LastByProduct(after, SoldIds(products));
            p in again && Matches(again[p], products[p])
  {
    var sold := SoldIds(products);
    var existing := LastByProduct(trades, sold);
    var rows := Created(products, existing, |products|).value;
    CreatedAre(products, existing, |products|);
    if p in existing {
      LastUntouched(trades, rows, sold, p);
    } else {
      assert Missing(products, existing, p);
      var k :| 0 <= k < |rows| && rows[k] == NewRow(products, p);
      assert (trades + rows)[|trades| + k].product == p;
      LastByProductIs(trades, sold);
      LastByProductIs(trades + rows, sold);
      var last := LastByProduct(trades + rows, sold)[p];
      assert last !in trades;
      assert last in rows;
    }
  }

  /** Whatever the table held, running the migration again after a success changes nothing. */
  lemma BackfillTwice(products: seq<Product>, trades: seq<Trade>)
    requires Backfill(products, trades).Ok?
    ensures Backfill(products, Backfill(products, trades).value) == Backfill(products, trades)
  {
    var sold := SoldIds(products);
    var after := Backfill(products, trades).value;
    BackfillOkIff(products, trades);
    forall p | p in sold ensures p in LastByProduct(after, sold) && Matches(LastByProduct(after, sold)[p], products[p]) {
      PickedMatches(products, trades, p);
    }
    CreatedAre(products, LastByProduct(trades, sold), |products|);
    BackfillOkIff(products, after);
    NothingCreated(products, LastByProduct(after, sold), |products|);
    assert after + [] == after;
  }

  /** Rows appended for other products leave a product's last row where it was. */
  lemma {:induction false} LastUntouched(trades: seq<Trade>, rows: seq<Trade>, ids: set<nat>, p: nat)
    requires p in LastByProduct(trades, ids) && forall t :: t in rows ==> t.product != p
    ensures p in LastByProduct(trades + rows, ids) && LastByProduct(trades + rows, ids)[p] == LastByProduct(trades, ids)[p]
  {
    if rows == [] {
      assert trades + rows == trades;
    } else {
      var n := |rows| - 1;
      LastUntouched(trades, rows[..n], ids, p);
      assert (trades + rows)[..|trades + rows| - 1] == trades + rows[..n];
    }
  }

  lemma {:induction false} NothingCreated(products: seq<Product>, existing: map<nat, Trade>, n: nat)
    requires n <= |products|
    requires forall p :: p in SoldIds(products) ==> p in existing && Matches(existing[p], products[p])
    ensures Created(products, existing, n) == Ok([])
  {
    if n > 0 {
      NothingCreated(products, existing, n - 1);
      assert products[n - 1].sold ==> n - 1 in SoldIds(products);
    }
  }

  /** The inverse empties the table again. */
  lemma ReverseUndoesBackfill(products: seq<Product>)
    ensures Backfill(products, []).Ok? && Reverse(products, Backfill(products, []).value) == Ok([])
  {
    BackfillFromEmpty(products);
    var rows := FirstRows(products);
    forall i | 0 <= i < |rows| ensures !rows[i].kind.Standard? {
      assert rows[i] in rows;
    }
  }

  /** Under the table's uniqueness constraint the inverse accepts exactly the frozen legacy tables. */
  lemma ReverseOkIff(products: seq<Product>, trades: seq<Trade>)
    requires NoTwoLegacy(trades)
    ensures Reverse(products, trades).Ok? <==> Bijection(products, trades) && forall t :: t in trades ==> t.kind.Legacy?
    ensures Reverse(products, trades).Ok? ==> Reverse(products, trades).value == []
  {
    FreezeIff(products, trades);
    LegacyRowsDistinct(trades);
    Pigeonhole(LegacyRows(trades));
    assert (exists i :: 0 <= i < |trades| && trades[i].kind.Standard?) <==> (exists t :: t in trades && t.kind.Standard?);
  }

  /** Reversing a frozen table and backfilling again restores the same rows. */
  lemma BackfillUndoesReverse(products: seq<Product>, trades: seq<Trade>)
    requires Bijection(products, trades) && forall t :: t in trades ==> t.kind.Legacy?
    ensures Reverse(products, trades) == Ok([])
    ensures var again := Backfill(products, []);
            again.Ok? && |again.value| == |trades| && forall t :: t in again.value <==> t in trades
  {
    FreezeIff(products, trades);
    forall i | 0 <= i < |trades| ensures !trades[i].kind.Standard? {
      assert trades[i] in trades;
    }
    BackfillFromEmpty(products);
    var again := FirstRows(products);
    AllLegacy(trades);
    AllLegacy(again);
    SameRows(products, trades, again);
    SameRows(products, again, trades);
  }

  lemma {:induction false} AllLegacy(trades: seq<Trade>)
    requires forall t :: t in trades ==> t.kind.Legacy?
    ensures LegacyRows(trades) == trades
  {
    if trades != [] {
      AllLegacy(trades[..|trades| - 1]);
      assert trades[|trades| - 1] in trades;
    }
  }

  /** A product's facts fix its legacy row. */
  lemma SameRows(products: seq<Product>, a: seq<Trade>, b: seq<Trade>)
    requires Bijection(products, a) && Bijection(products, b) && forall t :: t in a ==> t.kind.Legacy?
    ensures forall t :: t in a ==> t in b
  {
    forall t | t in a ensures t in b {
      var i :| 0 <= i < |a| && a[i] == t;
      var j :| 0 <= j < |b| && IsLegacyOf(b[j], t.product);
      assert b[j] == t;
    }
  }
}
