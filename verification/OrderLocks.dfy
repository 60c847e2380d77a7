/** What an order locks, what its fills take from the lock, and what closing it gives back. */
module OrderLocks {
  import opened Text
  import opened Decimals
  import opened Matching
  import opened MatchingTheorems

  // --- The lock and the worst case ------------------------------------------------------

  ghost predicate Rounds(p: Params) {
    RoundsDown(p.down) && RoundsUp(p.up)
  }

  /** Rounding as the decimal library does it. */
  lemma DecimalRounds(baseScale: nat, quoteScale: nat)
    ensures Rounds(Params(baseScale, quoteScale, FloorTo, CeilTo))
  {
    FloorToRoundsDown();
    CeilToRoundsUp();
  }

  predicate Positive(x: Option<real>) {
    x.Some? && x.value > 0.0
  }

  /** What the validator lets through. */
  predicate WellFormed(t: Taker) {
    if t.kind.Limit? then Positive(t.price) && Positive(t.quantity) && t.quoteBudget.None?
    else if t.side.Buy? then t.price.None? && t.quantity.None? && Positive(t.quoteBudget)
    else t.price.None? && Positive(t.quantity) && t.quoteBudget.None?
  }

  /** The amount to lock: of the base asset to sell, of the quote asset to buy. */
  function Lock(t: Taker, p: Params): real {
    if t.side.Sell? then p.down(OrZero(t.quantity), p.baseScale)
    else if t.kind.Market? then p.down(OrZero(t.quoteBudget), p.quoteScale)
    else p.up(Notional(OrZero(t.quantity), OrZero(t.price)), p.quoteScale)
  }

  /** What a quantity filled for an amount takes from the lock. */
  function Taken(t: Taker, quantity: real, quote: real): real {
    if t.side.Sell? then quantity else quote
  }

  /** What a match takes from the taker's lock. */
  function MatchTakes(t: Taker, book: seq<Resting>, p: Params): real {
    var fills := Fills(t, book, p);
    Taken(t, Quantity(fills), Quote(fills))
  }

  /** The most that a match can take: to buy with a limit, all of the quantity at the limit. */
  function WorstCase(t: Taker, p: Params): real {
    if t.side.Buy? && t.kind.Limit?
    then p.down(Notional(p.down(OrZero(t.quantity), p.baseScale), OrZero(t.price)), p.quoteScale)
    else Lock(t, p)
  }

  lemma Covers(t: Taker, p: Params)
    requires Rounds(p) && WellFormed(t)
    ensures 0.0 <= WorstCase(t, p) <= Lock(t, p)
    ensures Capacity(t, p) >= 0.0
    ensures t.side.Sell? || t.kind.Market? ==> Lock(t, p) == WorstCase(t, p) == Capacity(t, p)
    ensures t.side.Buy? && t.kind.Limit? ==> Lock(t, p) == p.up(t.quantity.value * t.price.value, p.quoteScale)
  {
    DownFits(p.down, OrZero(t.quantity), p.baseScale);
    DownFits(p.down, OrZero(t.quoteBudget), p.quoteScale);
    if t.side.Buy? && t.kind.Limit? {
      var quantity, price := OrZero(t.quantity), OrZero(t.price);
      assert Notional(quantity, price) == t.quantity.value * t.price.value;
      var floored := p.down(quantity, p.baseScale);
      NotionalOrder(0.0, floored, price);
      NotionalOrder(floored, quantity, price);
      DownFits(p.down, Notional(floored, price), p.quoteScale);
      UpFits(p.up, Notional(quantity, price), p.quoteScale);
    }
  }

  /** Fills add up to whole steps and units, and below a limit they are worth at most their quantity at that limit. */
  ghost predicate WorthUpTo(t: Taker, fills: seq<Fill>, p: Params) {
    && Quantity(fills) >= 0.0 && OnGrid(p.down, Quantity(fills), p.baseScale)
    && Quote(fills) >= 0.0 && OnGrid(p.down, Quote(fills), p.quoteScale)
    && (t.side.Buy? && t.kind.Limit? && t.price.Some? ==> Quote(fills) <= Notional(Quantity(fills), t.price.value))
  }

  lemma NothingIsWhole(p: Params, t: Taker)
    requires RoundsDown(p.down)
    ensures WorthUpTo(t, [], p)
  {
    DownFits(p.down, 0.0, p.baseScale);
    DownFits(p.down, 0.0, p.quoteScale);
  }

  lemma NotionalAdds(a: real, b: real, price: real)
    ensures Notional(a + b, price) == Notional(a, price) + Notional(b, price)
  {
  }

  lemma NotionalByPrice(quantity: real, price: real, limit: real)
    requires quantity >= 0.0 && price <= limit
    ensures Notional(quantity, price) <= Notional(quantity, limit)
  {
    TimesOrder(price, limit, quantity);
  }

  lemma OneMoreWorth(t: Taker, f: Fill, maker: Resting, left: real, more: seq<Fill>, p: Params)
    requires RoundsDown(p.down) && !Stops(t, maker) && Fair(t, f, maker, left, p) && WorthUpTo(t, more, p)
    ensures WorthUpTo(t, [f] + more, p)
  {
    assert ([f] + more)[1..] == more;
    GridAdds(p.down, f.quantity, Quantity(more), p.baseScale);
    DownFits(p.down, Notional(f.quantity, f.price), p.quoteScale);
    GridAdds(p.down, f.quoteAmount, Quote(more), p.quoteScale);
    if t.side.Buy? && t.kind.Limit? && t.price.Some? {
      NotionalByPrice(f.quantity, f.price, t.price.value);
      NotionalAdds(f.quantity, Quantity(more), t.price.value);
    }
  }

  lemma {:induction false} FillsWorth(t: Taker, book: seq<Resting>, i: nat, left: real, p: Params)
    requires RoundsDown(p.down) && Stepped(t, left, p) && i <= |book|
    ensures WorthUpTo(t, FillsFrom(t, book, i, left, p), p)
    decreases |book| - i
  {
    if i == |book| || Stops(t, book[i]) {
      NothingIsWhole(p, t);
    } else if Exhausted(book[i], p) {
      FillsWorth(t, book, i + 1, left, p);
    } else if Ends(t, book[i], left, p) {
      NothingIsWhole(p, t);
    } else {
      var f := FillOf(t, book[i], left, p);
      FillIsBest(t, book[i], left, p);
      FillsWorth(t, book, i + 1, left - Cost(t, f), p);
      OneMoreWorth(t, f, book[i], left, FillsFrom(t, book, i + 1, left - Cost(t, f), p), p);
    }
  }

  /** No book makes a match take more than the worst case. */
  lemma MatchTakesAtMost(t: Taker, book: seq<Resting>, p: Params)
    requires Rounds(p) && WellFormed(t)
    ensures 0.0 <= MatchTakes(t, book, p) <= WorstCase(t, p)
  {
    var fills, left := Fills(t, book, p), Capacity(t, p);
    Covers(t, p);
    CapacityIsStepped(t, p);
    FillsFit(t, book, 0, left, p);
    FillsWorth(t, book, 0, left, p);
    if t.side.Buy? && t.kind.Limit? {
      NotionalOrder(Quantity(fills), left, t.price.value);
      DownIsGreatest(p.down, Notional(left, t.price.value), Quote(fills), p.quoteScale);
    }
  }

  /** A maker that takes the worst case. */
  function WorstMaker(t: Taker, p: Params): Resting {
    var lock := Lock(t, p);
    var price := OrZero(t.price);
    if t.side.Sell? then Resting("", "", if lock <= 0.0 then price else price + Share(1.0, lock), OrZero(t.quantity))
    else if t.kind.Limit? then Resting("", "", price, OrZero(t.quantity))
    else Resting("", "", lock, 1.0)
  }

  /** A match with a single maker is one fill or none. */
  lemma OneMaker(t: Taker, maker: Resting, p: Params)
    requires !Stops(t, maker)
    ensures var left := Capacity(t, p); var f := FillOf(t, maker, left, p);
      MatchTakes(t, [maker], p)
      == if Exhausted(maker, p) || Ends(t, maker, left, p) then 0.0 else Taken(t, f.quantity, f.quoteAmount)
  {
    var left := Capacity(t, p);
    var f := FillOf(t, maker, left, p);
    assert Quantity([]) == 0.0 && Quote([]) == 0.0;
    if !Exhausted(maker, p) && !Ends(t, maker, left, p) {
      assert FillsFrom(t, [maker], 1, left - Cost(t, f), p) == [];
      assert [f][1..] == [];
    } else if Exhausted(maker, p) {
      assert FillsFrom(t, [maker], 1, left, p) == [];
    }
  }

  lemma ShareOfOne(price: real, lock: real)
    requires lock > 0.0 && price >= 0.0
    ensures Notional(lock, price + Share(1.0, lock)) >= 1.0
  {
    ShareTimes(1.0, lock);
    NotionalByPrice(lock, Share(1.0, lock), price + Share(1.0, lock));
    assert Notional(lock, Share(1.0, lock)) == Notional(Share(1.0, lock), lock);
  }

  lemma ShareOfAll(lock: real)
    requires lock > 0.0
    ensures Share(lock, lock) == 1.0
  {
    ShareTimes(lock, lock);
    NotionalOrder(1.0, Share(lock, lock), lock);
    NotionalOrder(Share(lock, lock), 1.0, lock);
  }

  lemma SellerWorstCase(t: Taker, p: Params)
    requires Rounds(p) && WellFormed(t) && t.side.Sell?
    ensures MatchTakes(t, [WorstMaker(t, p)], p) == WorstCase(t, p)
  {
    var maker, lock := WorstMaker(t, p), Lock(t, p);
    Covers(t, p);
    OneMaker(t, maker, p);
    if lock > 0.0 {
      var f := FillOf(t, maker, lock, p);
      assert f.quantity == lock;
      ShareOfOne(OrZero(t.price), lock);
      OneIsWhole(p.down, p.quoteScale);
      DownIsGreatest(p.down, Notional(lock, maker.price), 1.0, p.quoteScale);
    }
  }

  lemma LimitBuyerWorstCase(t: Taker, p: Params)
    requires Rounds(p) && WellFormed(t) && t.side.Buy? && t.kind.Limit?
    ensures MatchTakes(t, [WorstMaker(t, p)], p) == WorstCase(t, p)
  {
    var maker := WorstMaker(t, p);
    Covers(t, p);
    OneMaker(t, maker, p);
    var floored := p.down(t.quantity.value, p.baseScale);
    assert FillOf(t, maker, floored, p).quantity == floored;
    if floored == 0.0 { DownFits(p.down, Notional(floored, maker.price), p.quoteScale); }
  }

  lemma BudgetWorstCase(t: Taker, p: Params)
    requires Rounds(p) && WellFormed(t) && t.side.Buy? && t.kind.Market?
    ensures MatchTakes(t, [WorstMaker(t, p)], p) == WorstCase(t, p)
  {
    var maker, lock := WorstMaker(t, p), Lock(t, p);
    Covers(t, p);
    OneMaker(t, maker, p);
    OneIsWhole(p.down, p.baseScale);
    if lock > 0.0 {
      ShareOfAll(lock);
      DownFits(p.down, OrZero(t.quoteBudget), p.quoteScale);
      assert Notional(1.0, lock) == lock;
    }
  }

  lemma WorstCaseHappens(t: Taker, p: Params)
    requires Rounds(p) && WellFormed(t)
    ensures MatchTakes(t, [WorstMaker(t, p)], p) == WorstCase(t, p)
  {
    if t.side.Sell? {
      SellerWorstCase(t, p);
    } else if t.kind.Limit? {
      LimitBuyerWorstCase(t, p);
    } else {
      BudgetWorstCase(t, p);
    }
  }

  /**
   A match of an order that has already used some of its lock stays within it, whatever the book, if and only if the
   worst case still fits.
   */
  lemma MatchStaysWithinIff(t: Taker, used: real, p: Params)
    requires Rounds(p) && WellFormed(t)
    ensures (forall book :: used + MatchTakes(t, book, p) <= Lock(t, p)) <==> used + WorstCase(t, p) <= Lock(t, p)
    ensures used == 0.0 ==> used + WorstCase(t, p) <= Lock(t, p)
  {
    Covers(t, p);
    WorstCaseHappens(t, p);
    forall book ensures 0.0 <= MatchTakes(t, book, p) <= WorstCase(t, p) { MatchTakesAtMost(t, book, p); }
  }
}
