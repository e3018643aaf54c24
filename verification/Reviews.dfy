/** Reviews of completed trades (src/apps/trades/services.py:178-224): one for each party, immutable, and
    decided by the trade row alone. The text is already normalized; whether it is acceptable is an argument. */
module Reviews {
  import opened Base
  import opened Trades
  import TradeRuns

  datatype Review = Review(trade: nat, author: nat, subject: nat, rating: int, body: string)

  datatype Creation = Refused | Mismatch | Reviewed(review: nat, created: bool)

  function FindReview(reviews: seq<Review>, trade: nat, author: nat): (r: Option<nat>)
    ensures r.Some? ==> r.value < |reviews| && reviews[r.value].trade == trade && reviews[r.value].author == author
    ensures r.None? ==> forall i :: 0 <= i < |reviews| ==> reviews[i].trade != trade || reviews[i].author != author
  {
    if reviews == [] then None
    else
      var n := |reviews| - 1;
      match FindReview(reviews[..n], trade, author)
      case Some(i) => Some(i)
      case None => if reviews[n].trade == trade && reviews[n].author == author then Some(n) else None
  }

  predicate Reviewable(trades: seq<Trade>, id: nat, actor: nat) {
    && id < |trades| && trades[id].status.Completed? && trades[id].buyer.Some?
    && (actor == trades[id].seller || Some(actor) == trades[id].buyer)
  }

  function Subject(t: Trade, actor: nat): nat
    requires t.buyer.Some?
  {
    if actor == t.seller then t.buyer.value else t.seller
  }

  function CreateReview(trades: seq<Trade>, reviews: seq<Review>, active: bool, actor: nat, id: nat, rating: int, body: string, acceptable: bool):
    (seq<Review>, Creation)
  {
    if !(1 <= rating <= 5) || !active || !acceptable || !Reviewable(trades, id, actor) then (reviews, Refused)
    else
      var wanted := Review(id, actor, Subject(trades[id], actor), rating, body);
      match FindReview(reviews, id, actor)
      case Some(i) => (reviews, if reviews[i] == wanted then Reviewed(i, false) else Mismatch)
      case None => (reviews + [wanted], Reviewed(|reviews|, true))
  }

  // ---------- What every run keeps ----------

  predicate OneParty(trades: seq<Trade>, r: Review) {
    && Reviewable(trades, r.trade, r.author)
    && Reviewable(trades, r.trade, r.subject)
    && r.author != r.subject && 1 <= r.rating <= 5
  }

  /** Each review is by one party of a completed standard trade about the other; one for each author. */
  ghost predicate Inv(trades: seq<Trade>, reviews: seq<Review>) {
    && (forall i :: 0 <= i < |reviews| ==> OneParty(trades, reviews[i]))
    && (forall i, j :: 0 <= i < j < |reviews| ==> reviews[i].trade != reviews[j].trade || reviews[i].author != reviews[j].author)
  }

  lemma CreateKeepsInv(products: seq<Product>, trades: seq<Trade>, reviews: seq<Review>, active: bool, actor: nat, id: nat, rating: int,
                       body: string, acceptable: bool)
    requires TradeRuns.Inv(products, trades) && Inv(trades, reviews)
    ensures Inv(trades, CreateReview(trades, reviews, active, actor, id, rating, body, acceptable).0)
  {
    if Reviewable(trades, id, actor) {
      assert TradeRuns.RowSound(products, trades[id]);
    }
  }

  /** No trade command ever takes the ground from under a review. */
  lemma TradeRunKeepsInv(s: TradeRuns.State, run: seq<TradeRuns.Command>, reviews: seq<Review>)
    requires Inv(s.trades, reviews)
    ensures Inv(TradeRuns.Run(s, run).trades, reviews)
  {
    var after := TradeRuns.Run(s, run).trades;
    forall i | 0 <= i < |reviews| ensures OneParty(after, reviews[i]) {
      assert OneParty(s.trades, reviews[i]);
      TradeRuns.FinalStaysFinal(s, run, reviews[i].trade);
    }
  }

  /** A trade has at most two reviews: three would share an author. */
  lemma AtMostTwoReviews(trades: seq<Trade>, reviews: seq<Review>, i: nat, j: nat, k: nat)
    requires Inv(trades, reviews) && i < j < k < |reviews|
    ensures !(reviews[i].trade == reviews[j].trade == reviews[k].trade)
  {
    assert OneParty(trades, reviews[i]) && OneParty(trades, reviews[j]) && OneParty(trades, reviews[k]);
  }

  /** After a review exists its author's next attempt on the trade never adds or changes one: it is answered
      as a replay exactly when rating and text are the same. */
  lemma ReviewIsFinal(trades: seq<Trade>, reviews: seq<Review>, active: bool, i: nat, rating: int, body: string, acceptable: bool)
    requires Inv(trades, reviews) && i < |reviews|
    ensures var r := reviews[i];
            var (after, outcome) := CreateReview(trades, reviews, active, r.author, r.trade, rating, body, acceptable);
            && after == reviews
            && (outcome == Reviewed(i, false) <==> active && acceptable && rating == r.rating && body == r.body)
  {
    var r := reviews[i];
    assert OneParty(trades, r);
  }

  /** A first review is stored exactly for an active party of a completed standard trade, with a rating from 1
      to 5 and acceptable text; it is about the other party. Otherwise nothing is stored. */
  lemma FirstReview(trades: seq<Trade>, reviews: seq<Review>, active: bool, actor: nat, id: nat, rating: int, body: string, acceptable: bool)
    requires forall i :: 0 <= i < |reviews| ==> !(reviews[i].trade == id && reviews[i].author == actor)
    ensures var (after, outcome) := CreateReview(trades, reviews, active, actor, id, rating, body, acceptable);
            if active && acceptable && 1 <= rating <= 5 && id < |trades| && trades[id].status.Completed? && trades[id].buyer.Some?
               && (actor == trades[id].seller || actor == trades[id].buyer.value) then
              && outcome == Reviewed(|reviews|, true) && |after| == |reviews| + 1 && after[..|reviews|] == reviews
              && (var r := after[|reviews|];
                  && r.trade == id && r.author == actor && r.rating == rating && r.body == body
                  && r.subject == if actor == trades[id].seller then trades[id].buyer.value else trades[id].seller)
            else after == reviews && outcome == Refused
  {
    var found := FindReview(reviews, id, actor);
  }
}

module ReviewService {
  import opened Base
  import opened Trades
  import opened Reviews

  class Service {
    var reviews: seq<Review>

    constructor ()
      ensures reviews == []
    {
      reviews := [];
    }

    method CreateReview(trades: seq<Trade>, active: bool, actor: nat, id: nat, rating: int, body: string, acceptable: bool)
      returns (r: Creation)
      modifies this
      ensures (reviews, r) == Reviews.CreateReview(trades, old(reviews), active, actor, id, rating, body, acceptable)
    {
      if !(1 <= rating <= 5) || !active || !acceptable {
        return Refused;
      }
      if id >= |trades| {
        return Refused;
      }
      var trade := trades[id];
      if !trade.status.Completed? || trade.buyer.None? || (actor != trade.seller && Some(actor) != trade.buyer) {
        return Refused;
      }
      var subject := Subject(trade, actor);
      var existing := FindReview(reviews, id, actor);
      if existing.None? {
        reviews := reviews + [Review(id, actor, subject, rating, body)];
        return Reviewed(|reviews| - 1, true);
      }
      var review := reviews[existing.value];
      if review.subject != subject || review.rating != rating || review.body != body {
        return Mismatch;
      }
      return Reviewed(existing.value, false);
    }
  }
}
