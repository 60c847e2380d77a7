/** The price-time matching engine, for any rounding, and the lock that is to cover an order. */
module Matching {
  import opened Text
  import opened Decimals

  // --- The engine --------------------------------------------------------------------

  datatype Side = Buy | Sell

  datatype Kind = Limit | Market

  /** A market's scales, and the rounding toward and away from zero. */
  datatype Params = Params(baseScale: nat, quoteScale: nat, down: Rounding, up: Rounding)

  datatype Resting = Resting(id: string, userId: string, price: real, remaining: real)

  datatype Taker = Taker(side: Side, kind: Kind, price: Option<real>, quantity: Option<real>, quoteBudget: Option<real>)

  datatype Fill = Fill(makerId: string, makerUserId: string, price: real, quantity: real, quoteAmount: real)

  datatype Outcome = Outcome(fills: seq<Fill>, filledQuantity: real, quoteTotal: real)

  function OrZero(x: Option<real>): real {
    if x.None? then 0.0 else x.value
  }

  predicate ByBudget(t: Taker) {
    t.kind.Market? && t.side.Buy?
  }

  /** Does the taker's limit price cross a resting maker? */
  predicate Crosses(side: Side, takerPrice: real, makerPrice: real) {
    if side.Buy? then makerPrice <= takerPrice else makerPrice >= takerPrice
  }

  /** The book no longer crosses a limit. */
  predicate Stops(t: Taker, maker: Resting) {
    !t.kind.Market? && t.price.Some? && !Crosses(t.side, t.price.value, maker.price)
  }

  /** What the taker starts with, in its own unit. */
  function Capacity(t: Taker, p: Params): real {
    if ByBudget(t) then p.down(OrZero(t.quoteBudget), p.quoteScale) else p.down(OrZero(t.quantity), p.baseScale)
  }

  function Available(maker: Resting, p: Params): real {
    p.down(maker.remaining, p.baseScale)
  }

  function Notional(quantity: real, price: real): real {
    quantity * price
  }

  function Share(budget: real, price: real): real
    requires price != 0.0
  {
    budget / price
  }

  /** The largest quantity that what is left allows; any quantity is affordable at price zero. */
  function Wanted(t: Taker, maker: Resting, left: real, p: Params): real {
    if !ByBudget(t) then left
    else if maker.price == 0.0 then Available(maker, p)
    else p.down(Share(left, maker.price), p.baseScale)
  }

  function Min(x: real, y: real): real {
    if x <= y then x else y
  }

  function FillOf(t: Taker, maker: Resting, left: real, p: Params): Fill {
    var quantity := Min(Available(maker, p), Wanted(t, maker, left, p));
    Fill(maker.id, maker.userId, maker.price, quantity, p.down(Notional(quantity, maker.price), p.quoteScale))
  }

  /** What a fill takes from the taker's capacity. */
  function Cost(t: Taker, f: Fill): real {
    if ByBudget(t) then f.quoteAmount else f.quantity
  }

  /** A maker with nothing left. */
  predicate Exhausted(maker: Resting, p: Params) {
    Available(maker, p) <= 0.0
  }

  /** Nothing can be filled with this maker, and the walk ends here. */
  predicate Ends(t: Taker, maker: Resting, left: real, p: Params) {
    var f := FillOf(t, maker, left, p);
    left <= 0.0 || f.quantity <= 0.0 || f.quoteAmount <= 0.0
  }

  /** The fills against a book from a position on, in its order. */
  function FillsFrom(t: Taker, book: seq<Resting>, i: nat, left: real, p: Params): seq<Fill>
    requires i <= |book|
    decreases |book| - i
  {
    if i == |book| || Stops(t, book[i]) then []
    else if Exhausted(book[i], p) then FillsFrom(t, book, i + 1, left, p)
    else if Ends(t, book[i], left, p) then []
    else
      var f := FillOf(t, book[i], left, p);
      [f] + FillsFrom(t, book, i + 1, left - Cost(t, f), p)
  }

  function Fills(t: Taker, book: seq<Resting>, p: Params): seq<Fill> {
    FillsFrom(t, book, 0, Capacity(t, p), p)
  }

  function Quantity(fills: seq<Fill>): real {
    if fills == [] then 0.0 else fills[0].quantity + Quantity(fills[1..])
  }

  function Quote(fills: seq<Fill>): real {
    if fills == [] then 0.0 else fills[0].quoteAmount + Quote(fills[1..])
  }

  lemma {:induction false} Totals(a: seq<Fill>, b: seq<Fill>)
    ensures Quantity(a + b) == Quantity(a) + Quantity(b) && Quote(a + b) == Quote(a) + Quote(b)
  {
    if a == [] {
      assert a + b == b;
    } else {
      assert (a + b)[1..] == a[1..] + b;
      Totals(a[1..], b);
    }
  }

  lemma OneMore(fills: seq<Fill>, f: Fill)
    ensures Quantity(fills + [f]) == Quantity(fills) + f.quantity
    ensures Quote(fills + [f]) == Quote(fills) + f.quoteAmount
  {
    Totals(fills, [f]);
    assert [f][1..] == [];
  }

  lemma FillsOn(t: Taker, book: seq<Resting>, i: nat, left: real, p: Params, fills: seq<Fill>)
    requires i < |book| && !Stops(t, book[i]) && !Exhausted(book[i], p) && !Ends(t, book[i], left, p)
    ensures var f := FillOf(t, book[i], left, p);
      fills + FillsFrom(t, book, i, left, p)
      == (fills + [f]) + FillsFrom(t, book, i + 1, left - Cost(t, f), p)
  {
  }

  /** Where the walk ends there are no more fills. */
  lemma NoMore(t: Taker, book: seq<Resting>, i: nat, left: real, p: Params, fills: seq<Fill>)
    requires i < |book|
    requires Stops(t, book[i]) || (!Exhausted(book[i], p) && Ends(t, book[i], left, p))
    ensures fills + FillsFrom(t, book, i, left, p) == fills
  {
  }

  method MatchOrder(taker: Taker, book: seq<Resting>, p: Params) returns (r: Outcome)
    ensures r.fills == Fills(taker, book, p)
    ensures r.filledQuantity == Quantity(r.fills) && r.quoteTotal == Quote(r.fills)
  {
    var fills: seq<Fill> := [];
    var budgetDriven := taker.kind.Market? && taker.side.Buy?;
    var remainingQty := if budgetDriven then 0.0 else p.down(OrZero(taker.quantity), p.baseScale);
    var remainingBudget := if budgetDriven then p.down(OrZero(taker.quoteBudget), p.quoteScale) else 0.0;
    var filledQuantity, quoteTotal := 0.0, 0.0;
    ghost var left := Capacity(taker, p);
    for i := 0 to |book|
      invariant filledQuantity == Quantity(fills) && quoteTotal == Quote(fills)
      invariant left == if budgetDriven then remainingBudget else remainingQty
      invariant fills + FillsFrom(taker, book, i, left, p) == Fills(taker, book, p)
    {
      var maker := book[i];
      if !taker.kind.Market? && taker.price.Some? && !Crosses(taker.side, taker.price.value, maker.price) {
        NoMore(taker, book, i, left, p, fills);
        break;
      }
      var makerRemaining := p.down(maker.remaining, p.baseScale);
      if makerRemaining <= 0.0 {
        continue;
      }
      var fillQty;
      if budgetDriven {
        if remainingBudget <= 0.0 {
          NoMore(taker, book, i, left, p, fills);
          break;
        }
        var affordable :=
          if maker.price == 0.0 then makerRemaining else p.down(Share(remainingBudget, maker.price), p.baseScale);
        fillQty := Min(makerRemaining, affordable);
      } else {
        if remainingQty <= 0.0 {
          NoMore(taker, book, i, left, p, fills);
          break;
        }
        fillQty := Min(makerRemaining, remainingQty);
      }
      if fillQty <= 0.0 {
        NoMore(taker, book, i, left, p, fills);
        break;
      }
      var quoteAmount := p.down(Notional(fillQty, maker.price), p.quoteScale);
      if quoteAmount <= 0.0 {
        NoMore(taker, book, i, left, p, fills);
        break;
      }
      var f := Fill(maker.id, maker.userId, maker.price, fillQty, quoteAmount);
      FillsOn(taker, book, i, left, p, fills);
      OneMore(fills, f);
      fills := fills + [f];
      filledQuantity := filledQuantity + fillQty;
      quoteTotal := quoteTotal + quoteAmount;
      if budgetDriven {
        remainingBudget := remainingBudget - quoteAmount;
      } else {
        remainingQty := remainingQty - fillQty;
      }
      left := left - Cost(taker, f);
    }
    assert fills + [] == fills;
    r := Outcome(fills, filledQuantity, quoteTotal);
  }
}
