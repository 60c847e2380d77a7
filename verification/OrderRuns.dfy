/** Orders placed, matched and cancelled in any interleaving: their locks are used up or given back, or not. */
module OrderRuns {
  import opened Text
  import opened Decimals
  import opened Matching
  import opened MatchingTheorems
  import opened OrderLocks

  // --- The steps ------------------------------------------------------------------------

  /** An order with what is recorded as filled, and what was really debited from its lock and given back. */
  datatype Order = Order(
    userId: string, terms: Taker, filled: real, quoteSpent: real, closed: bool, debited: real, released: real)

  type Orders = map<string, Order>

  /** The steps that run apart from each other; a match reads a page of the resting orders of the other side. */
  datatype Action =
    | Place(id: string, userId: string, terms: Taker)
    | Match(id: string, ids: seq<string>)
    | Cancel(id: string)

  function Recorded(o: Order): real {
    Taken(o.terms, o.filled, o.quoteSpent)
  }

  /** Gives back what is left of the lock by the records, once. */
  function Release(o: Order, p: Params): Order {
    var surplus := Lock(o.terms, p) - Recorded(o);
    if o.released > 0.0 || surplus <= 0.0 then o else o.(released := surplus)
  }

  /** A maker after one of its fills. */
  function After(o: Order, f: Fill, p: Params): Order {
    var o2 := o.(filled := o.filled + f.quantity, quoteSpent := o.quoteSpent + f.quoteAmount,
                 debited := o.debited + Taken(o.terms, f.quantity, f.quoteAmount));
    if OrZero(o.terms.quantity) - o2.filled <= 0.0 then Release(o2.(closed := true), p) else o2
  }

  function Advance(s: Orders, fills: seq<Fill>, p: Params): Orders {
    if fills == [] then s
    else
      var f := fills[0];
      Advance(if f.makerId in s then s[f.makerId := After(s[f.makerId], f, p)] else s, fills[1..], p)
  }

  /** The taker after its match: the records are overwritten, and its status follows from this match alone. */
  function Finish(o: Order, fills: seq<Fill>, p: Params): Order {
    var quantity, quote := Quantity(fills), Quote(fills);
    var closed := o.terms.kind.Market? || quantity >= OrZero(o.terms.quantity);
    var o2 := o.(filled := quantity, quoteSpent := quote, closed := closed,
                 debited := o.debited + Taken(o.terms, quantity, quote));
    if closed then Release(o2, p) else o2
  }

  function RestingOf(id: string, o: Order): Resting {
    Resting(id, o.userId, OrZero(o.terms.price),
            if o.terms.quantity.None? then 0.0 else o.terms.quantity.value - o.filled)
  }

  /** A page of different open orders of others on the other side. */
  predicate Opposite(s: Orders, o: Order, ids: seq<string>) {
    && (forall k :: 0 <= k < |ids| ==> ids[k] in s && !s[ids[k]].closed)
    && (forall k :: 0 <= k < |ids| ==> s[ids[k]].terms.side != o.terms.side && s[ids[k]].userId != o.userId)
    && (forall j, k :: 0 <= j < k < |ids| ==> ids[j] != ids[k])
  }

  function Book(s: Orders, ids: seq<string>): (book: seq<Resting>)
    requires forall k :: 0 <= k < |ids| ==> ids[k] in s
  {
    seq(|ids|, k requires 0 <= k < |ids| => RestingOf(ids[k], s[ids[k]]))
  }

  predicate CanMatch(s: Orders, id: string, ids: seq<string>) {
    id in s && Opposite(s, s[id], ids)
  }

  /** A step that cannot be taken changes nothing. */
  function Do(s: Orders, a: Action, p: Params): Orders {
    match a
    case Place(id, userId, terms) =>
      if id in s || !WellFormed(terms) then s else s[id := Order(userId, terms, 0.0, 0.0, false, 0.0, 0.0)]
    case Match(id, ids) =>
      if !CanMatch(s, id, ids) then s
      else
        var fills := Fills(s[id].terms, Book(s, ids), p);
        Advance(s, fills, p)[id := Finish(s[id], fills, p)]
    case Cancel(id) =>
      if id !in s || s[id].closed then s else s[id := Release(s[id].(closed := true), p)]
  }

  function Exec(s: Orders, run: seq<Action>, p: Params): Orders
    decreases |run|
  {
    if run == [] then s else Exec(Do(s, run[0], p), run[1..], p)
  }

  // --- Locks that balance ---------------------------------------------------------------

  /**
   The records say what was debited, which is within the lock; a closed order's lock is used up or given back, and
   nothing of an open one is given back.
   */
  ghost predicate Kept(o: Order, p: Params) {
    && WellFormed(o.terms) && o.debited == Recorded(o) && 0.0 <= o.debited <= Lock(o.terms, p)
    && (if o.closed then o.debited + o.released == Lock(o.terms, p) else o.released == 0.0)
    && 0.0 <= o.filled && 0.0 <= o.quoteSpent
    && (o.terms.kind.Limit? ==> o.filled <= o.terms.quantity.value && OnGrid(p.down, o.filled, p.baseScale))
    && (o.terms.kind.Limit? && o.terms.side.Buy? ==> o.quoteSpent <= Notional(o.filled, o.terms.price.value))
  }

  ghost predicate AllKept(s: Orders, p: Params) {
    forall id :: id in s ==> Kept(s[id], p)
  }

  /** Nothing of the lock has been used or given back. */
  predicate Untouched(o: Order) {
    o.debited == 0.0 && o.released == 0.0
  }

  lemma PlacedIsKept(userId: string, terms: Taker, p: Params)
    requires Rounds(p) && WellFormed(terms)
    ensures Kept(Order(userId, terms, 0.0, 0.0, false, 0.0, 0.0), p)
  {
    Covers(terms, p);
    DownFits(p.down, 0.0, p.baseScale);
  }

  /** A sum of fills of a limit order within its quantity is within its lock. */
  lemma LimitWithinLock(t: Taker, filled: real, quote: real, p: Params)
    requires Rounds(p) && WellFormed(t) && t.kind.Limit?
    requires 0.0 <= filled <= t.quantity.value && OnGrid(p.down, filled, p.baseScale)
    requires t.side.Buy? ==> quote <= Notional(filled, t.price.value)
    ensures Taken(t, filled, quote) <= Lock(t, p)
  {
    var quantity, price := t.quantity.value, t.price.value;
    if t.side.Sell? {
      DownIsGreatest(p.down, quantity, filled, p.baseScale);
    } else {
      NotionalOrder(filled, quantity, price);
      NotionalOrder(0.0, quantity, price);
      UpFits(p.up, Notional(quantity, price), p.quoteScale);
    }
  }

  lemma MakerIsKept(id: string, o: Order, t: Taker, f: Fill, left: real, p: Params)
    requires Rounds(p) && Kept(o, p) && !o.closed && Fair(t, f, RestingOf(id, o), left, p)
    ensures Kept(After(o, f, p), p)
  {
    AvailableFits(RestingOf(id, o), p);
    GridAdds(p.down, o.filled, f.quantity, p.baseScale);
    if o.terms.side.Buy? { NotionalAdds(o.filled, f.quantity, o.terms.price.value); }
    LimitWithinLock(o.terms, o.filled + f.quantity, o.quoteSpent + f.quoteAmount, p);
  }

  lemma OneMakerIsKept(s: Orders, t: Taker, maker: Resting, id: string, left: real, p: Params)
    requires Rounds(p) && Stepped(t, left, p) && AllKept(s, p)
    requires id in s && !s[id].closed && maker == RestingOf(id, s[id])
    requires !Exhausted(maker, p) && !Ends(t, maker, left, p)
    ensures var f := FillOf(t, maker, left, p);
      f.makerId == id && AllKept(s[id := After(s[id], f, p)], p) && Stepped(t, left - Cost(t, f), p)
  {
    FillIsBest(t, maker, left, p);
    MakerIsKept(id, s[id], t, FillOf(t, maker, left, p), left, p);
  }

  lemma AdvanceOne(s: Orders, f: Fill, more: seq<Fill>, p: Params)
    requires f.makerId in s
    ensures Advance(s, [f] + more, p) == Advance(s[f.makerId := After(s[f.makerId], f, p)], more, p)
  {
    assert ([f] + more)[1..] == more;
  }

  /** From a position on, the book is as it was read from different open orders. */
  predicate Loaded(s: Orders, book: seq<Resting>, ids: seq<string>, i: nat) {
    && |book| == |ids| && (forall j, k :: 0 <= j < k < |ids| ==> ids[j] != ids[k])
    && forall j :: i <= j < |ids| ==> ids[j] in s && !s[ids[j]].closed && book[j] == RestingOf(ids[j], s[ids[j]])
  }

  lemma LoadedAfter(s: Orders, book: seq<Resting>, ids: seq<string>, i: nat, o: Order)
    requires Loaded(s, book, ids, i) && i < |ids|
    ensures Loaded(s[ids[i] := o], book, ids, i + 1)
  {
  }

  /** All orders are kept, and those not in the book are as they were. */
  ghost predicate Settled(s: Orders, s2: Orders, ids: seq<string>, p: Params) {
    AllKept(s2, p) && s2.Keys == s.Keys && forall id :: id in s && id !in ids ==> s2[id] == s[id]
  }

  lemma SettledFirst(s: Orders, o: Order, s2: Orders, ids: seq<string>, i: nat, p: Params)
    requires i < |ids| && ids[i] in s && Settled(s[ids[i] := o], s2, ids, p)
    ensures Settled(s, s2, ids, p)
  {
  }

  lemma FillSettles(s: Orders, t: Taker, book: seq<Resting>, ids: seq<string>, i: nat, left: real, p: Params)
    requires i < |book| == |ids| && !Stops(t, book[i]) && !Exhausted(book[i], p) && !Ends(t, book[i], left, p)
    requires ids[i] in s && book[i].id == ids[i]
    requires var f := FillOf(t, book[i], left, p); var s1 := s[ids[i] := After(s[ids[i]], f, p)];
      Settled(s1, Advance(s1, FillsFrom(t, book, i + 1, left - Cost(t, f), p), p), ids, p)
    ensures Settled(s, Advance(s, FillsFrom(t, book, i, left, p), p), ids, p)
  {
    var f := FillOf(t, book[i], left, p);
    var o, more := After(s[ids[i]], f, p), FillsFrom(t, book, i + 1, left - Cost(t, f), p);
    SettledFirst(s, o, Advance(s[ids[i] := o], more, p), ids, i, p);
    AdvanceOne(s, f, more, p);
  }

  /** A match keeps its makers, and touches nobody else. */
  lemma {:induction false} MakersAreKept(s: Orders, t: Taker, book: seq<Resting>, ids: seq<string>, i: nat, left: real,
                                         p: Params)
    requires Rounds(p) && Stepped(t, left, p) && i <= |book| && AllKept(s, p) && Loaded(s, book, ids, i)
    ensures Settled(s, Advance(s, FillsFrom(t, book, i, left, p), p), ids, p)
    decreases |book| - i
  {
    if i < |book| && !Stops(t, book[i]) {
      if Exhausted(book[i], p) {
        MakersAreKept(s, t, book, ids, i + 1, left, p);
      } else if !Ends(t, book[i], left, p) {
        var f := FillOf(t, book[i], left, p);
        var o := After(s[ids[i]], f, p);
        OneMakerIsKept(s, t, book[i], ids[i], left, p);
        LoadedAfter(s, book, ids, i, o);
        MakersAreKept(s[ids[i] := o], t, book, ids, i + 1, left - Cost(t, f), p);
        FillSettles(s, t, book, ids, i, left, p);
      }
    }
  }

  lemma TakerIsKept(o: Order, book: seq<Resting>, p: Params)
    requires Rounds(p) && Kept(o, p) && Untouched(o)
    ensures Kept(Finish(o, Fills(o.terms, book, p), p), p)
  {
    var t, fills := o.terms, Fills(o.terms, book, p);
    var left := Capacity(t, p);
    Covers(t, p);
    CapacityIsStepped(t, p);
    FillsFit(t, book, 0, left, p);
    FillsWorth(t, book, 0, left, p);
    MatchTakesAtMost(t, book, p);
    DownFits(p.down, OrZero(t.quantity), p.baseScale);
  }

  /**
   Whatever the book, a match leaves its taker's records and lock in balance, if and only if nothing of the lock had
   been used or given back before.
   */
  lemma TakerIsKeptIff(o: Order, p: Params)
    requires Rounds(p) && Kept(o, p)
    ensures (forall book :: Kept(Finish(o, Fills(o.terms, book, p), p), p)) <==> Untouched(o)
  {
    var none, worst: seq<Resting> := [], [WorstMaker(o.terms, p)];
    assert Fills(o.terms, none, p) == [];
    if Untouched(o) {
      forall book ensures Kept(Finish(o, Fills(o.terms, book, p), p), p) { TakerIsKept(o, book, p); }
    } else if o.debited > 0.0 {
      assert Recorded(Finish(o, [], p)) == 0.0;
      assert !Kept(Finish(o, Fills(o.terms, none, p), p), p);
    } else if o.terms.kind.Limit? {
      assert !Finish(o, [], p).closed;
      assert !Kept(Finish(o, Fills(o.terms, none, p), p), p);
    } else {
      Covers(o.terms, p);
      WorstCaseHappens(o.terms, p);
      assert !Kept(Finish(o, Fills(o.terms, worst, p), p), p);
    }
  }

  /** Every match finds its order untouched. */
  predicate MatchedFirst(s: Orders, run: seq<Action>, p: Params)
    decreases |run|
  {
    run == [] || ((run[0].Match? && CanMatch(s, run[0].id, run[0].ids) ==> Untouched(s[run[0].id]))
                  && MatchedFirst(Do(s, run[0], p), run[1..], p))
  }

  lemma StepIsKept(s: Orders, a: Action, p: Params)
    requires Rounds(p) && AllKept(s, p)
    requires a.Match? && CanMatch(s, a.id, a.ids) ==> Untouched(s[a.id])
    ensures AllKept(Do(s, a, p), p)
  {
    match a
    case Place(id, userId, terms) =>
      if WellFormed(terms) { PlacedIsKept(userId, terms, p); }
    case Match(id, ids) =>
      if CanMatch(s, id, ids) {
        var t, book := s[id].terms, Book(s, ids);
        CapacityIsStepped(t, p);
        MakersAreKept(s, t, book, ids, 0, Capacity(t, p), p);
        TakerIsKept(s[id], book, p);
      }
    case Cancel(id) =>
  }

  /** Over any run in which orders are matched before anything else happens to them, every lock is in balance. */
  lemma {:induction false} LocksBalance(s: Orders, run: seq<Action>, p: Params)
    requires Rounds(p) && AllKept(s, p) && MatchedFirst(s, run, p)
    ensures AllKept(Exec(s, run, p), p)
    decreases |run|
  {
    if run != [] {
      StepIsKept(s, run[0], p);
      LocksBalance(Do(s, run[0], p), run[1..], p);
    }
  }

  // --- What each step does ---------------------------------------------------------------

  /**
   Placing adds an order exactly when its id is new, a limit order has a price and a quantity, a market order to buy a
   budget, a market order to sell a quantity, all above zero, and nothing else is given.
   */
  lemma PlacesIff(s: Orders, id: string, userId: string, terms: Taker, p: Params)
    ensures var Taker(side, kind, price, quantity, budget) := terms;
      Do(s, Place(id, userId, terms), p) == s[id := Order(userId, terms, 0.0, 0.0, false, 0.0, 0.0)]
      <==> if id in s then s[id] == Order(userId, terms, 0.0, 0.0, false, 0.0, 0.0)
           else if kind.Limit? then
             price.Some? && price.value > 0.0 && quantity.Some? && quantity.value > 0.0 && budget.None?
           else if side.Buy? then price.None? && quantity.None? && budget.Some? && budget.value > 0.0
           else price.None? && quantity.Some? && quantity.value > 0.0 && budget.None?
  {
  }

  /** A match changes its own order, and open orders of other users on the other side that it lists. */
  lemma MatchTouches(s: Orders, id: string, ids: seq<string>, p: Params, other: string)
    requires Rounds(p) && AllKept(s, p) && other in s && other != id
    requires Do(s, Match(id, ids), p) != s
    ensures var s2 := Do(s, Match(id, ids), p);
      && id in s && other in s2
      && (s2[other] != s[other] ==>
        other in ids && !s[other].closed && s[other].userId != s[id].userId
        && s[other].terms.side != s[id].terms.side)
  {
    var t := s[id].terms;
    CapacityIsStepped(t, p);
    MakersAreKept(s, t, Book(s, ids), ids, 0, Capacity(t, p), p);
  }

  /** After its match a limit order is closed exactly when all of it was filled, a market order always. */
  lemma MatchClosesIff(o: Order, fills: seq<Fill>, p: Params)
    requires WellFormed(o.terms)
    ensures Finish(o, fills, p).closed <==> o.terms.kind.Market? || Quantity(fills) >= o.terms.quantity.value
  {
  }

  /** An open maker is closed by a fill exactly when that fills the rest of it. */
  lemma FillClosesIff(o: Order, f: Fill, p: Params)
    requires !o.closed && o.terms.quantity.Some?
    ensures After(o, f, p).closed <==> o.filled + f.quantity >= o.terms.quantity.value
  {
  }

  /** Cancelling closes an open order and gives back what is left of its lock; nothing else changes. */
  lemma CancelGivesBack(s: Orders, id: string, p: Params)
    requires Rounds(p) && AllKept(s, p) && id in s && !s[id].closed
    ensures var s2 := Do(s, Cancel(id), p);
      && s2 == s[id := s[id].(closed := true, released := Lock(s[id].terms, p) - s[id].debited)]
  {
    assert Kept(s[id], p);
  }

  /** Orders stay, and what has been given back of a lock is not given back again. */
  predicate ReleasedOnce(s: Orders, s2: Orders) {
    forall id :: id in s ==> id in s2 && (s[id].released > 0.0 ==> s2[id].released == s[id].released)
  }

  lemma {:induction false} AdvanceReleasesOnce(s: Orders, fills: seq<Fill>, p: Params)
    ensures ReleasedOnce(s, Advance(s, fills, p))
  {
    if fills != [] {
      var f := fills[0];
      var s2 := if f.makerId in s then s[f.makerId := After(s[f.makerId], f, p)] else s;
      AdvanceReleasesOnce(s2, fills[1..], p);
    }
  }

  lemma StepReleasesOnce(s: Orders, a: Action, p: Params)
    ensures ReleasedOnce(s, Do(s, a, p))
    ensures a.Cancel? && a.id in s && s[a.id].closed ==> Do(s, a, p) == s
  {
    if a.Match? && CanMatch(s, a.id, a.ids) {
      AdvanceReleasesOnce(s, Fills(s[a.id].terms, Book(s, a.ids), p), p);
    }
  }

  /** In every run, touched matches included, the surplus of an order is given back at most once. */
  lemma {:induction false} RunReleasesOnce(s: Orders, run: seq<Action>, p: Params)
    ensures ReleasedOnce(s, Exec(s, run, p))
    decreases |run|
  {
    if run != [] {
      StepReleasesOnce(s, run[0], p);
      RunReleasesOnce(Do(s, run[0], p), run[1..], p);
    }
  }

  // --- A lock used twice ----------------------------------------------------------------

  function One(side: Side): Taker {
    Taker(side, Limit, Some(1.0), Some(1.0), None)
  }

  function OrderOfOne(userId: string, side: Side): Order {
    Order(userId, One(side), 0.0, 0.0, false, 0.0, 0.0)
  }

  lemma OneForOne(t: Taker, maker: Resting, p: Params)
    requires Rounds(p) && t == One(t.side) && maker.price == maker.remaining == 1.0
    ensures Fills(t, [maker], p) == [Fill(maker.id, maker.userId, 1.0, 1.0, 1.0)]
  {
    OneIsWhole(p.down, p.baseScale);
    OneIsWhole(p.down, p.quoteScale);
    assert Notional(1.0, 1.0) == 1.0;
    assert FillOf(t, maker, 1.0, p) == Fill(maker.id, maker.userId, 1.0, 1.0, 1.0);
    assert FillsFrom(t, [maker], 1, 0.0, p) == [];
  }

  lemma MatchOne(s: Orders, id: string, other: string, p: Params)
    requires Rounds(p) && CanMatch(s, id, [other]) && other in s
    requires s[id].terms == One(s[id].terms.side) && s[other].terms == One(s[other].terms.side)
    requires s[other].filled == 0.0
    ensures var f := Fill(other, s[other].userId, 1.0, 1.0, 1.0);
      Do(s, Match(id, [other]), p) == s[other := After(s[other], f, p)][id := Finish(s[id], [f], p)]
  {
    var f := Fill(other, s[other].userId, 1.0, 1.0, 1.0);
    assert Book(s, [other]) == [RestingOf(other, s[other])];
    OneForOne(s[id].terms, RestingOf(other, s[other]), p);
    assert [f][1..] == [];
    assert Advance(s, [f], p) == s[other := After(s[other], f, p)];
  }

  lemma ExecOne(s: Orders, a: Action, rest: seq<Action>, p: Params)
    ensures Exec(s, [a] + rest, p) == Exec(Do(s, a, p), rest, p)
  {
    assert ([a] + rest)[1..] == rest;
  }

  lemma PlaceOne(s: Orders, id: string, userId: string, side: Side, rest: seq<Action>, p: Params)
    requires id !in s
    ensures Exec(s, [Place(id, userId, One(side))] + rest, p) == Exec(s[id := OrderOfOne(userId, side)], rest, p)
  {
    ExecOne(s, Place(id, userId, One(side)), rest, p);
  }

  lemma MatchedTwice(s: Orders, p: Params)
    requires Rounds(p)
    requires s == map["a" := OrderOfOne("u", Sell), "b" := OrderOfOne("v", Buy), "c" := OrderOfOne("w", Buy)]
    ensures var s2 := Do(s, Match("b", ["a"]), p); var s3 := Do(s2, Match("a", ["c"]), p);
      "a" in s3 && s3["a"].debited == 2.0 && s3["a"].filled == 1.0 && s3["a"].terms == One(Sell)
  {
    MatchOne(s, "b", "a", p);
    var s2 := Do(s, Match("b", ["a"]), p);
    assert s2["c"] == s["c"];
    MatchOne(s2, "a", "c", p);
    var f := Fill("c", "w", 1.0, 1.0, 1.0);
    assert [f][1..] == [] && Quantity([f]) == 1.0;
  }

  /**
   Between its placing and its match an order is already in the book: a sell order filled there by another buyer is
   then filled again, with twice its lock debited.
   */
  lemma FilledBeforeItsMatch(p: Params) returns (run: seq<Action>)
    requires Rounds(p)
    ensures var s := Exec(map[], run, p);
      "a" in s && s["a"].debited == 2.0 && Lock(s["a"].terms, p) == 1.0 && s["a"].filled == 1.0
  {
    var matching := [Match("b", ["a"])] + ([Match("a", ["c"])] + []);
    var placing2 := [Place("b", "v", One(Buy))] + ([Place("c", "w", One(Buy))] + matching);
    run := [Place("a", "u", One(Sell))] + placing2;
    PlaceOne(map[], "a", "u", Sell, placing2, p);
    var s1: Orders := map["a" := OrderOfOne("u", Sell)];
    PlaceOne(s1, "b", "v", Buy, [Place("c", "w", One(Buy))] + matching, p);
    var s2 := s1["b" := OrderOfOne("v", Buy)];
    PlaceOne(s2, "c", "w", Buy, matching, p);
    var s3 := s2["c" := OrderOfOne("w", Buy)];
    MatchedTwice(s3, p);
    ExecOne(s3, Match("b", ["a"]), [Match("a", ["c"])] + [], p);
    ExecOne(Do(s3, Match("b", ["a"]), p), Match("a", ["c"]), [], p);
    OneIsWhole(p.down, p.baseScale);
  }

  /** With decimals, from no orders at all. */
  lemma DecimalLocksBalance(run: seq<Action>, baseScale: nat, quoteScale: nat)
    requires MatchedFirst(map[], run, Params(baseScale, quoteScale, FloorTo, CeilTo))
    ensures var p := Params(baseScale, quoteScale, FloorTo, CeilTo); AllKept(Exec(map[], run, p), p)
  {
    DecimalRounds(baseScale, quoteScale);
    LocksBalance(map[], run, Params(baseScale, quoteScale, FloorTo, CeilTo));
  }
}
