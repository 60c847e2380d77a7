/** What the matching engine promises: fair fills in book order, within the taker's means and its lock. */
module MatchingTheorems {
  import opened Text
  import opened Decimals
  import opened Matching

  // --- One fill -----------------------------------------------------------------------

  /** What fills take from the taker's capacity. */
  function Spent(t: Taker, fills: seq<Fill>): real {
    if ByBudget(t) then Quote(fills) else Quantity(fills)
  }

  /** What is left of a quantity is a whole number of steps; what is left of a budget need not be. */
  ghost predicate Stepped(t: Taker, left: real, p: Params) {
    !ByBudget(t) && left > 0.0 ==> OnGrid(p.down, left, p.baseScale)
  }

  /** A quantity, at the maker's price, is within what is left to the taker. */
  predicate Within(t: Taker, maker: Resting, left: real, quantity: real) {
    quantity >= 0.0 && if ByBudget(t) then Notional(quantity, maker.price) <= left else quantity <= left
  }

  /** A quantity that the maker has and that is within what is left to the taker. */
  predicate Possible(t: Taker, maker: Resting, left: real, quantity: real, p: Params) {
    quantity <= Available(maker, p) && Within(t, maker, left, quantity)
  }

  /** At the maker's price, a whole number of steps, worth at least one unit, and possible. */
  ghost predicate Fair(t: Taker, f: Fill, maker: Resting, left: real, p: Params) {
    && f.makerId == maker.id && f.makerUserId == maker.userId && f.price == maker.price > 0.0
    && f.quantity > 0.0 && OnGrid(p.down, f.quantity, p.baseScale) && Possible(t, maker, left, f.quantity, p)
    && 0.0 < f.quoteAmount == p.down(Notional(f.quantity, f.price), p.quoteScale) <= Notional(f.quantity, f.price)
  }

  /** No whole number of steps above this one is possible. */
  ghost predicate TheMost(t: Taker, quantity: real, maker: Resting, left: real, p: Params) {
    forall more :: OnGrid(p.down, more, p.baseScale) && Possible(t, maker, left, more, p) ==> more <= quantity
  }

  lemma AvailableFits(maker: Resting, p: Params)
    requires RoundsDown(p.down) && !Exhausted(maker, p)
    ensures 0.0 < Available(maker, p) <= maker.remaining
    ensures OnGrid(p.down, Available(maker, p), p.baseScale)
  {
    DownFits(p.down, maker.remaining, p.baseScale);
  }

  lemma NotionalOrder(a: real, b: real, price: real)
    requires price > 0.0
    ensures a <= b <==> Notional(a, price) <= Notional(b, price)
  {
    if a <= b {
      TimesOrder(a, b, price);
    } else {
      TimesStrict(b, a, price);
    }
  }

  lemma ShareTimes(budget: real, price: real)
    requires price > 0.0
    ensures Notional(Share(budget, price), price) == budget
  {
  }

  lemma ShareMeans(quantity: real, budget: real, price: real)
    requires price > 0.0
    ensures quantity <= Share(budget, price) <==> Notional(quantity, price) <= budget
  {
    ShareTimes(budget, price);
    NotionalOrder(quantity, Share(budget, price), price);
  }

  lemma PositivePrice(quantity: real, price: real)
    requires quantity > 0.0 && Notional(quantity, price) > 0.0
    ensures price > 0.0
  {
  }

  lemma PriceOfFill(t: Taker, maker: Resting, left: real, p: Params)
    requires RoundsDown(p.down) && !Exhausted(maker, p) && !Ends(t, maker, left, p)
    ensures var f := FillOf(t, maker, left, p);
      && maker.price > 0.0
      && 0.0 < f.quoteAmount == p.down(Notional(f.quantity, f.price), p.quoteScale) <= Notional(f.quantity, f.price)
  {
    var f := FillOf(t, maker, left, p);
    DownFits(p.down, Notional(f.quantity, maker.price), p.quoteScale);
    PositivePrice(f.quantity, maker.price);
  }

  /** What a positive price leaves to want: whole steps within what is left, and the most of them. */
  lemma WantedMeans(t: Taker, maker: Resting, left: real, p: Params, more: real)
    requires RoundsDown(p.down) && Stepped(t, left, p) && maker.price > 0.0 && left > 0.0
    ensures var wanted := Wanted(t, maker, left, p);
      && wanted >= 0.0 && OnGrid(p.down, wanted, p.baseScale)
      && Within(t, maker, left, wanted)
      && (OnGrid(p.down, more, p.baseScale) && Within(t, maker, left, more) ==> more <= wanted)
  {
    if ByBudget(t) {
      var share := Share(left, maker.price);
      ShareMeans(0.0, left, maker.price);
      DownFits(p.down, share, p.baseScale);
      ShareMeans(p.down(share, p.baseScale), left, maker.price);
      ShareMeans(more, left, maker.price);
      if 0.0 <= more <= share && OnGrid(p.down, more, p.baseScale) {
        DownIsGreatest(p.down, share, more, p.baseScale);
      }
    }
  }

  /** A fill is fair, and no larger one would be. */
  lemma FillIsFair(t: Taker, maker: Resting, left: real, p: Params)
    requires RoundsDown(p.down) && Stepped(t, left, p)
    requires !Exhausted(maker, p) && !Ends(t, maker, left, p)
    ensures var f := FillOf(t, maker, left, p);
      Fair(t, f, maker, left, p) && TheMost(t, f.quantity, maker, left, p)
  {
    var f := FillOf(t, maker, left, p);
    AvailableFits(maker, p);
    PriceOfFill(t, maker, left, p);
    WantedMeans(t, maker, left, p, 0.0);
    if ByBudget(t) {
      NotionalOrder(f.quantity, Wanted(t, maker, left, p), maker.price);
    }
    forall more | OnGrid(p.down, more, p.baseScale) && Possible(t, maker, left, more, p)
      ensures more <= f.quantity
    {
      WantedMeans(t, maker, left, p, more);
    }
  }

  /** A fair fill costs no more than what was left. */
  lemma CostFits(t: Taker, f: Fill, maker: Resting, left: real, p: Params)
    requires RoundsDown(p.down) && Stepped(t, left, p) && Fair(t, f, maker, left, p)
    ensures 0.0 < Cost(t, f) <= left && Stepped(t, left - Cost(t, f), p)
  {
    if !ByBudget(t) { GridAdds(p.down, left, f.quantity, p.baseScale); }
  }

  /** No whole number of steps is possible and worth at least one unit. */
  ghost predicate NothingFits(t: Taker, maker: Resting, left: real, p: Params) {
    forall quantity :: OnGrid(p.down, quantity, p.baseScale) && Possible(t, maker, left, quantity, p) ==>
      p.down(Notional(quantity, maker.price), p.quoteScale) <= 0.0
  }

  /** The walk ends at a maker only when nothing can be filled with it. */
  lemma EndsMeans(t: Taker, maker: Resting, left: real, p: Params)
    requires RoundsDown(p.down) && Stepped(t, left, p)
    requires !Exhausted(maker, p) && Ends(t, maker, left, p)
    ensures NothingFits(t, maker, left, p)
  {
    forall quantity | OnGrid(p.down, quantity, p.baseScale) && Possible(t, maker, left, quantity, p)
      ensures p.down(Notional(quantity, maker.price), p.quoteScale) <= 0.0
    {
      var worth := Notional(quantity, maker.price);
      DownFits(p.down, worth, p.quoteScale);
      if worth > 0.0 && left > 0.0 {
        PositivePrice(quantity, maker.price);
        WantedMeans(t, maker, left, p, quantity);
        NoneWorthMore(FillOf(t, maker, left, p), quantity, p);
      }
    }
  }

  lemma NoneWorthMore(f: Fill, quantity: real, p: Params)
    requires RoundsDown(p.down) && f.price > 0.0 && 0.0 <= quantity <= f.quantity
    requires f.quoteAmount == p.down(Notional(f.quantity, f.price), p.quoteScale)
    requires f.quantity <= 0.0 || f.quoteAmount <= 0.0
    ensures p.down(Notional(quantity, f.price), p.quoteScale) <= 0.0
  {
    var worth := Notional(quantity, f.price);
    NotionalOrder(quantity, f.quantity, f.price);
    DownFits(p.down, worth, p.quoteScale);
    if worth >= 0.0 {
      DownIsGreatest(p.down, Notional(f.quantity, f.price), p.down(worth, p.quoteScale), p.quoteScale);
    }
  }

  // --- All fills ----------------------------------------------------------------------

  /** What is left of the taker's capacity before its k-th fill. */
  function LeftBefore(t: Taker, left: real, fills: seq<Fill>, k: nat): real
    requires k <= |fills|
  {
    left - Spent(t, fills[..k])
  }

  /** The positions of the makers in the book: in its order, from i to an end. */
  ghost predicate InBookOrder(at: seq<nat>, i: nat, end: nat) {
    && (forall k :: 0 <= k < |at| ==> i <= at[k] < end)
    && (forall j, k :: 0 <= j < k < |at| ==> at[j] < at[k])
  }

  /** A fill, with this much left before it, is fair and the most that is possible. */
  ghost predicate Best(t: Taker, f: Fill, maker: Resting, left: real, p: Params) {
    Fair(t, f, maker, left, p) && TheMost(t, f.quantity, maker, left, p)
  }

  ghost predicate EachBest(t: Taker, book: seq<Resting>, fills: seq<Fill>, at: seq<nat>, left: real, p: Params) {
    && |at| == |fills| && (forall k :: 0 <= k < |at| ==> at[k] < |book|)
    && (forall k {:trigger LeftBefore(t, left, fills, k)} :: 0 <= k < |at| ==>
      Best(t, fills[k], book[at[k]], LeftBefore(t, left, fills, k), p))
  }

  /** The price is worse than a limit order takes: above what it pays, or below what it accepts. */
  predicate BeyondLimit(t: Taker, price: real) {
    t.kind.Limit? && t.price.Some? &&
    ((t.side.Buy? && price > t.price.value) || (t.side.Sell? && price < t.price.value))
  }

  lemma StopsBeyondLimit(t: Taker, maker: Resting)
    ensures Stops(t, maker) <==> BeyondLimit(t, maker.price)
  {
  }

  /** Nobody up to the end is beyond the limit, and only exhausted makers are passed over. */
  ghost predicate NobodyMissed(t: Taker, book: seq<Resting>, at: seq<nat>, i: nat, end: nat, p: Params) {
    && end <= |book|
    && (forall j :: i <= j < end ==> !BeyondLimit(t, book[j].price))
    && (forall j :: i <= j < end && j !in at ==> Exhausted(book[j], p))
  }

  /** The book is at its end, the limit is reached, or nothing can be filled with one that has something. */
  ghost predicate Done(t: Taker, book: seq<Resting>, end: nat, left: real, p: Params) {
    end < |book| ==>
      BeyondLimit(t, book[end].price) || (!Exhausted(book[end], p) && NothingFits(t, book[end], left, p))
  }

  /**
   These fills, with the makers at these positions, follow the book from one position to another: in its order, at the
   makers' prices, each the most that is possible, passing over nobody that has anything, until nothing more can be
   filled.
   */
  ghost predicate Follow(t: Taker, book: seq<Resting>, fills: seq<Fill>, at: seq<nat>, i: nat, end: nat, left: real,
                         p: Params)
  {
    && i <= end && InBookOrder(at, i, end) && NobodyMissed(t, book, at, i, end, p)
    && EachBest(t, book, fills, at, left, p)
    && Done(t, book, end, left - Spent(t, fills), p)
  }

  lemma SpentOne(t: Taker, f: Fill, more: seq<Fill>)
    ensures Spent(t, [f] + more) == Cost(t, f) + Spent(t, more)
  {
    assert ([f] + more)[1..] == more;
  }

  lemma LeftOne(t: Taker, left: real, f: Fill, more: seq<Fill>, k: nat)
    requires k <= |more|
    ensures LeftBefore(t, left, [f] + more, k + 1) == LeftBefore(t, left - Cost(t, f), more, k)
  {
    assert ([f] + more)[..k + 1] == [f] + more[..k];
    SpentOne(t, f, more[..k]);
  }

  lemma OneMoreBest(t: Taker, book: seq<Resting>, i: nat, left: real, f: Fill, more: seq<Fill>, rest: seq<nat>,
                    p: Params)
    requires i < |book| && Best(t, f, book[i], left, p)
    requires EachBest(t, book, more, rest, left - Cost(t, f), p)
    ensures EachBest(t, book, [f] + more, [i] + rest, left, p)
  {
    var fills, at := [f] + more, [i] + rest;
    forall k | 0 <= k < |at|
      ensures at[k] < |book| && Best(t, fills[k], book[at[k]], LeftBefore(t, left, fills, k), p)
    {
      if k == 0 {
        assert fills[..0] == [];
      } else {
        assert fills[k] == more[k - 1] && at[k] == rest[k - 1];
        LeftOne(t, left, f, more, k - 1);
      }
    }
  }

  lemma OneMoreInOrder(rest: seq<nat>, i: nat, end: nat)
    requires InBookOrder(rest, i + 1, end) && i < end
    ensures InBookOrder([i] + rest, i, end) && forall j :: j in [i] + rest <==> j == i || j in rest
  {
    var at := [i] + rest;
    assert at[0] == i && forall k :: 0 <= k < |rest| ==> at[k + 1] == rest[k];
    forall j, k | 0 <= j < k < |at| ensures at[j] < at[k] {
      assert at[k] == rest[k - 1];
    }
  }

  lemma OneMoreFollows(t: Taker, book: seq<Resting>, i: nat, end: nat, left: real, f: Fill, more: seq<Fill>,
                       rest: seq<nat>, p: Params)
    requires i < |book| && !Stops(t, book[i]) && Best(t, f, book[i], left, p)
    requires Follow(t, book, more, rest, i + 1, end, left - Cost(t, f), p)
    ensures Follow(t, book, [f] + more, [i] + rest, i, end, left, p)
  {
    OneMoreBest(t, book, i, left, f, more, rest, p);
    OneMoreInOrder(rest, i, end);
    SpentOne(t, f, more);
  }

  lemma NothingFollows(t: Taker, book: seq<Resting>, i: nat, left: real, p: Params)
    requires i <= |book| && Done(t, book, i, left, p)
    ensures Follow(t, book, [], [], i, i, left, p)
  {
  }

  lemma SkippingFollows(t: Taker, book: seq<Resting>, fills: seq<Fill>, at: seq<nat>, i: nat, end: nat, left: real,
                        p: Params)
    requires i < |book| && !Stops(t, book[i]) && Exhausted(book[i], p)
    ensures Follow(t, book, fills, at, i + 1, end, left, p)
      ==> Follow(t, book, fills, at, i, end, left, p)
    ensures Follow(t, book, fills, at, i, end, left, p) && at != [] && at[0] > i
      ==> Follow(t, book, fills, at, i + 1, end, left, p)
  {
  }

  /** The next fill is the best one, and what it leaves is in whole steps again. */
  lemma FillIsBest(t: Taker, maker: Resting, left: real, p: Params)
    requires RoundsDown(p.down) && Stepped(t, left, p)
    requires !Exhausted(maker, p) && !Ends(t, maker, left, p)
    ensures var f := FillOf(t, maker, left, p);
      Best(t, f, maker, left, p) && 0.0 < Cost(t, f) <= left && Stepped(t, left - Cost(t, f), p)
  {
    FillIsFair(t, maker, left, p);
    CostFits(t, FillOf(t, maker, left, p), maker, left, p);
  }

  lemma FillingFollows(t: Taker, book: seq<Resting>, rest: seq<nat>, i: nat, end: nat, left: real, p: Params)
    requires RoundsDown(p.down) && Stepped(t, left, p)
    requires i < |book| && !Stops(t, book[i]) && !Exhausted(book[i], p) && !Ends(t, book[i], left, p)
    requires var left2 := left - Cost(t, FillOf(t, book[i], left, p));
      Follow(t, book, FillsFrom(t, book, i + 1, left2, p), rest, i + 1, end, left2, p)
    ensures Follow(t, book, FillsFrom(t, book, i, left, p), [i] + rest, i, end, left, p)
  {
    var f := FillOf(t, book[i], left, p);
    FillIsBest(t, book[i], left, p);
    OneMoreFollows(t, book, i, end, left, f, FillsFrom(t, book, i + 1, left - Cost(t, f), p), rest, p);
  }

  /** The fills of a match follow the book. */
  lemma {:induction false} FillsFollow(t: Taker, book: seq<Resting>, i: nat, left: real, p: Params)
    returns (at: seq<nat>, end: nat)
    requires RoundsDown(p.down) && Stepped(t, left, p) && i <= |book|
    ensures Follow(t, book, FillsFrom(t, book, i, left, p), at, i, end, left, p)
    decreases |book| - i
  {
    if i == |book| || Stops(t, book[i]) {
      at, end := [], i;
      NothingFollows(t, book, i, left, p);
    } else if Exhausted(book[i], p) {
      at, end := FillsFollow(t, book, i + 1, left, p);
      SkippingFollows(t, book, FillsFrom(t, book, i, left, p), at, i, end, left, p);
    } else if Ends(t, book[i], left, p) {
      at, end := [], i;
      EndsMeans(t, book[i], left, p);
      NothingFollows(t, book, i, left, p);
    } else {
      FillIsBest(t, book[i], left, p);
      var rest;
      rest, end := FillsFollow(t, book, i + 1, left - Cost(t, FillOf(t, book[i], left, p)), p);
      at := [i] + rest;
      FillingFollows(t, book, rest, i, end, left, p);
    }
  }

  /** Where something is filled the walk goes on, with just that fill. */
  lemma BestIsFillOf(t: Taker, f: Fill, maker: Resting, left: real, p: Params)
    requires RoundsDown(p.down) && Stepped(t, left, p) && Best(t, f, maker, left, p)
    ensures !Exhausted(maker, p) && !Ends(t, maker, left, p) && f == FillOf(t, maker, left, p)
  {
    if Ends(t, maker, left, p) { EndsMeans(t, maker, left, p); }
    FillIsFair(t, maker, left, p);
  }

  lemma OneLessBest(t: Taker, book: seq<Resting>, fills: seq<Fill>, at: seq<nat>, left: real, p: Params)
    requires fills != [] && EachBest(t, book, fills, at, left, p)
    ensures EachBest(t, book, fills[1..], at[1..], left - Cost(t, fills[0]), p)
    ensures Best(t, fills[0], book[at[0]], left, p)
  {
    assert fills[..0] == [] && fills == [fills[0]] + fills[1..];
    assert LeftBefore(t, left, fills, 0) == left;
    forall k | 0 <= k < |at| - 1
      ensures Best(t, fills[1..][k], book[at[1..][k]], LeftBefore(t, left - Cost(t, fills[0]), fills[1..], k), p)
    {
      LeftOne(t, left, fills[0], fills[1..], k);
      assert Best(t, fills[k + 1], book[at[k + 1]], LeftBefore(t, left, fills, k + 1), p);
    }
  }

  lemma OneLessInOrder(at: seq<nat>, i: nat, end: nat)
    requires InBookOrder(at, i, end) && at != [] && at[0] == i
    ensures InBookOrder(at[1..], i + 1, end) && i < end && forall j :: j in at <==> j == i || j in at[1..]
  {
    assert at == [i] + at[1..];
  }

  lemma OneLessFollows(t: Taker, book: seq<Resting>, fills: seq<Fill>, at: seq<nat>, i: nat, end: nat, left: real,
                       p: Params)
    requires at != [] && at[0] == i && Follow(t, book, fills, at, i, end, left, p)
    ensures i < |book| && !Stops(t, book[i]) && fills != [] && Best(t, fills[0], book[i], left, p)
    ensures Follow(t, book, fills[1..], at[1..], i + 1, end, left - Cost(t, fills[0]), p)
  {
    OneLessBest(t, book, fills, at, left, p);
    OneLessInOrder(at, i, end);
    assert fills == [fills[0]] + fills[1..];
    SpentOne(t, fills[0], fills[1..]);
  }

  lemma BestComesFirst(t: Taker, f: Fill, book: seq<Resting>, i: nat, left: real, p: Params)
    requires RoundsDown(p.down) && Stepped(t, left, p)
    requires i < |book| && !Stops(t, book[i]) && Best(t, f, book[i], left, p)
    ensures Stepped(t, left - Cost(t, f), p)
    ensures FillsFrom(t, book, i, left, p) == [f] + FillsFrom(t, book, i + 1, left - Cost(t, f), p)
  {
    BestIsFillOf(t, f, book[i], left, p);
    FillIsBest(t, book[i], left, p);
  }

  lemma FirstSkipped(t: Taker, book: seq<Resting>, fills: seq<Fill>, at: seq<nat>, i: nat, end: nat, left: real,
                     p: Params)
    requires at != [] && at[0] != i && Follow(t, book, fills, at, i, end, left, p)
    ensures i < |book| && FillsFrom(t, book, i, left, p) == FillsFrom(t, book, i + 1, left, p)
    ensures Follow(t, book, fills, at, i + 1, end, left, p)
  {
    assert forall k :: 0 <= k < |at| ==> at[k] >= at[0];
    assert i !in at;
    SkippingFollows(t, book, fills, at, i, end, left, p);
  }

  /** Nothing but the fills of the match follows the book. */
  lemma {:induction false} OnlyFills(t: Taker, book: seq<Resting>, fills: seq<Fill>, at: seq<nat>, i: nat, end: nat,
                                     left: real, p: Params)
    requires RoundsDown(p.down) && Stepped(t, left, p)
    requires i <= |book| && Follow(t, book, fills, at, i, end, left, p)
    ensures FillsFrom(t, book, i, left, p) == fills
    decreases |book| - i
  {
    if at == [] {
      NothingFilled(t, book, i, end, left, p);
    } else if at[0] == i {
      OneLessFollows(t, book, fills, at, i, end, left, p);
      BestComesFirst(t, fills[0], book, i, left, p);
      OnlyFills(t, book, fills[1..], at[1..], i + 1, end, left - Cost(t, fills[0]), p);
    } else {
      FirstSkipped(t, book, fills, at, i, end, left, p);
      OnlyFills(t, book, fills, at, i + 1, end, left, p);
    }
  }

  lemma {:induction false} NothingFilled(t: Taker, book: seq<Resting>, i: nat, end: nat, left: real, p: Params)
    requires RoundsDown(p.down) && Stepped(t, left, p)
    requires Follow(t, book, [], [], i, end, left, p)
    ensures i <= |book| && FillsFrom(t, book, i, left, p) == []
    decreases end - i
  {
    if i < end {
      NothingFilled(t, book, i + 1, end, left, p);
    } else if i < |book| && !Stops(t, book[i]) && !Ends(t, book[i], left, p) {
      FillIsFair(t, book[i], left, p);
    }
  }

  lemma CapacityIsStepped(t: Taker, p: Params)
    requires RoundsDown(p.down)
    ensures Stepped(t, Capacity(t, p), p)
  {
    DownFits(p.down, OrZero(t.quantity), p.baseScale);
  }

  /** A match fills what follows the whole book with the taker's capacity, and nothing else does. */
  lemma MatchFollowsTheBook(t: Taker, book: seq<Resting>, p: Params, fills: seq<Fill>)
    requires RoundsDown(p.down)
    ensures fills == Fills(t, book, p)
      <==> exists at, end :: Follow(t, book, fills, at, 0, end, Capacity(t, p), p)
  {
    var left := Capacity(t, p);
    CapacityIsStepped(t, p);
    var at, end := FillsFollow(t, book, 0, left, p);
    if exists at, end :: Follow(t, book, fills, at, 0, end, left, p) {
      var at, end :| Follow(t, book, fills, at, 0, end, left, p);
      OnlyFills(t, book, fills, at, 0, end, left, p);
    }
  }

  /** No fill of a limit order is worse than its limit: not above what it pays, not below what it accepts. */
  lemma FillsKeepTheLimit(t: Taker, book: seq<Resting>, p: Params)
    requires RoundsDown(p.down) && t.kind.Limit? && t.price.Some?
    ensures forall f :: f in Fills(t, book, p) ==>
      if t.side.Buy? then f.price <= t.price.value else f.price >= t.price.value
  {
    var fills, left := Fills(t, book, p), Capacity(t, p);
    CapacityIsStepped(t, p);
    var at, end := FillsFollow(t, book, 0, left, p);
    forall k | 0 <= k < |fills| ensures !BeyondLimit(t, fills[k].price) {
      assert Best(t, fills[k], book[at[k]], LeftBefore(t, left, fills, k), p);
    }
  }

  /** A taker with no quantity, or no budget to buy at the market, fills nothing. */
  lemma NothingToFill(t: Taker, book: seq<Resting>, p: Params)
    requires RoundsDown(p.down)
    requires if t.kind.Market? && t.side.Buy? then t.quoteBudget.None? else t.quantity.None?
    ensures Fills(t, book, p) == []
  {
    DownFits(p.down, 0.0, p.baseScale);
    DownFits(p.down, 0.0, p.quoteScale);
    NothingLeft(t, book, 0, Capacity(t, p), p);
  }

  lemma {:induction false} NothingLeft(t: Taker, book: seq<Resting>, i: nat, left: real, p: Params)
    requires left <= 0.0 && i <= |book|
    ensures FillsFrom(t, book, i, left, p) == []
    decreases |book| - i
  {
    if i < |book| { NothingLeft(t, book, i + 1, left, p); }
  }

  /** Every fill is worth its quantity at its price, rounded down to the quote scale. */
  lemma FillsAreWorth(t: Taker, book: seq<Resting>, p: Params)
    requires RoundsDown(p.down)
    ensures forall f :: f in Fills(t, book, p) ==> f.quoteAmount == p.down(f.quantity * f.price, p.quoteScale)
  {
    var fills, left := Fills(t, book, p), Capacity(t, p);
    CapacityIsStepped(t, p);
    var at, end := FillsFollow(t, book, 0, left, p);
    forall f | f in fills ensures f.quoteAmount == p.down(f.quantity * f.price, p.quoteScale) {
      var k :| 0 <= k < |fills| && fills[k] == f;
      assert Best(t, f, book[at[k]], LeftBefore(t, left, fills, k), p);
      assert Notional(f.quantity, f.price) == f.quantity * f.price;
    }
  }

  /** The fills cost no more than what was left, and each of them something. */
  lemma {:induction false} FillsFit(t: Taker, book: seq<Resting>, i: nat, left: real, p: Params)
    requires RoundsDown(p.down) && Stepped(t, left, p) && i <= |book|
    ensures var fills := FillsFrom(t, book, i, left, p);
      Spent(t, fills) == 0.0 || 0.0 < Spent(t, fills) <= left
    decreases |book| - i
  {
    if i < |book| && !Stops(t, book[i]) {
      if Exhausted(book[i], p) {
        FillsFit(t, book, i + 1, left, p);
      } else if !Ends(t, book[i], left, p) {
        var f := FillOf(t, book[i], left, p);
        FillIsBest(t, book[i], left, p);
        FillsFit(t, book, i + 1, left - Cost(t, f), p);
        SpentOne(t, f, FillsFrom(t, book, i + 1, left - Cost(t, f), p));
      }
    }
  }
}
