/** Exact decimals, rounded to a number of places down (toward zero) or up. */
module Decimals {
  import opened Text

  /** Rounds a number to so many decimal places. */
  type Rounding = (real, nat) -> real

  function Scale(places: nat): (s: real)
    ensures s >= 1.0
  {
    Pow10(places) as real
  }

  function Units(x: real, s: real): int {
    (x * s).Floor
  }

  function Down(x: real, s: real): real
    requires s > 0.0
  {
    Units(x, s) as real / s
  }

  /** `floorTo`: toward zero. */
  function FloorTo(x: real, places: nat): real {
    if x < 0.0 then -Down(-x, Scale(places)) else Down(x, Scale(places))
  }

  /** `ceilTo`: away from zero. */
  function CeilTo(x: real, places: nat): real {
    var down := FloorTo(x, places);
    if down == x then x
    else if x < 0.0 then down - 1.0 / Scale(places)
    else down + 1.0 / Scale(places)
  }

  /** With no more than so many decimal places. */
  predicate OnGrid(down: Rounding, x: real, places: nat) {
    down(x, places) == x
  }

  /**
   Rounding to so many places down to the nearest step; differences and sums of whole steps are whole steps, and one
   is a whole number of steps.
   */
  ghost predicate Steps(down: Rounding, n: nat) {
    && OnGrid(down, 1.0, n)
    && (forall x {:trigger down(x, n)} :: x >= 0.0 ==> 0.0 <= down(x, n) <= x && OnGrid(down, down(x, n), n))
    && (forall x {:trigger down(x, n)} :: x < 0.0 ==> down(x, n) <= 0.0)
    && (forall x, y {:trigger OnGrid(down, y, n), down(x, n)} ::
      0.0 <= y <= x && OnGrid(down, y, n) ==> y <= down(x, n))
    && (forall x, y {:trigger OnGrid(down, x, n), OnGrid(down, y, n)} ::
      x >= 0.0 && y >= 0.0 && OnGrid(down, x, n) && OnGrid(down, y, n) ==>
        OnGrid(down, x + y, n) && (y <= x ==> OnGrid(down, x - y, n)))
  }

  /** Rounding down, as far as it is used here. */
  ghost predicate RoundsDown(down: Rounding) {
    forall n: nat {:trigger Steps(down, n)} :: Steps(down, n)
  }

  ghost predicate RoundsUp(up: Rounding) {
    forall x, n {:trigger up(x, n)} :: x >= 0.0 ==> x <= up(x, n)
  }

  lemma UpFits(up: Rounding, x: real, n: nat)
    requires RoundsUp(up) && x >= 0.0
    ensures x <= up(x, n)
  {
  }

  lemma DownFits(down: Rounding, x: real, n: nat)
    requires RoundsDown(down)
    ensures x >= 0.0 ==> 0.0 <= down(x, n) <= x && OnGrid(down, down(x, n), n)
    ensures x < 0.0 ==> down(x, n) <= 0.0
  {
    assert Steps(down, n);
  }

  lemma OneIsWhole(down: Rounding, n: nat)
    requires RoundsDown(down)
    ensures OnGrid(down, 1.0, n)
  {
    assert Steps(down, n);
  }

  lemma DownIsGreatest(down: Rounding, x: real, y: real, n: nat)
    requires RoundsDown(down) && 0.0 <= y <= x && OnGrid(down, y, n)
    ensures y <= down(x, n)
  {
    assert Steps(down, n);
  }

  lemma GridAdds(down: Rounding, x: real, y: real, n: nat)
    requires RoundsDown(down) && x >= 0.0 && y >= 0.0 && OnGrid(down, x, n) && OnGrid(down, y, n)
    ensures OnGrid(down, x + y, n) && (y <= x ==> OnGrid(down, x - y, n))
  {
    assert Steps(down, n);
  }

  lemma TimesOrder(x: real, y: real, s: real)
    requires s >= 0.0 && x <= y
    ensures x * s <= y * s
  {
  }

  lemma TimesOrderBack(x: real, y: real, s: real)
    requires s > 0.0 && x * s <= y * s
    ensures x <= y
  {
    if y < x { TimesStrict(y, x, s); }
  }

  lemma TimesStrict(x: real, y: real, s: real)
    requires s > 0.0 && x < y
    ensures x * s < y * s
  {
  }

  lemma DownTimes(x: real, s: real)
    requires s > 0.0
    ensures Down(x, s) * s == Units(x, s) as real
  {
  }

  lemma DownBetween(x: real, s: real)
    requires s > 0.0 && x >= 0.0
    ensures 0.0 <= Down(x, s) <= x
  {
    DownTimes(x, s);
    TimesOrder(0.0, x, s);
    TimesOrderBack(Down(x, s), x, s);
    TimesOrderBack(0.0, Down(x, s), s);
  }

  /** A number that is a whole number of units is rounded to itself, and only such a number is. */
  lemma DownOfUnits(x: real, s: real, m: int)
    requires s > 0.0 && x * s == m as real
    ensures Down(x, s) == x
  {
    DownTimes(x, s);
    TimesOrderBack(Down(x, s), x, s);
    TimesOrderBack(x, Down(x, s), s);
  }

  lemma DownGreatest(x: real, y: real, s: real)
    requires s > 0.0 && y <= x && Down(y, s) == y
    ensures y <= Down(x, s)
  {
    DownTimes(x, s);
    DownTimes(y, s);
    TimesOrder(y, x, s);
    assert Units(y, s) <= Units(x, s);
    TimesOrderBack(y, Down(x, s), s);
  }

  lemma DownSum(x: real, y: real, s: real)
    requires s > 0.0 && Down(x, s) == x && Down(y, s) == y
    ensures Down(x + y, s) == x + y && Down(x - y, s) == x - y
  {
    DownTimes(x, s);
    DownTimes(y, s);
    assert (x + y) * s == x * s + y * s && (x - y) * s == x * s - y * s;
    DownOfUnits(x + y, s, Units(x, s) + Units(y, s));
    DownOfUnits(x - y, s, Units(x, s) - Units(y, s));
  }

  lemma FloorToFits(x: real, n: nat)
    ensures x >= 0.0 ==> 0.0 <= FloorTo(x, n) <= x && OnGrid(FloorTo, FloorTo(x, n), n)
    ensures x < 0.0 ==> FloorTo(x, n) <= 0.0
  {
    var s := Scale(n);
    if x < 0.0 {
      DownBetween(-x, s);
    } else {
      DownBetween(x, s);
      DownTimes(x, s);
      DownOfUnits(Down(x, s), s, Units(x, s));
    }
  }

  lemma FloorToAdds(x: real, y: real, n: nat)
    requires x >= 0.0 && y >= 0.0 && OnGrid(FloorTo, x, n) && OnGrid(FloorTo, y, n)
    ensures OnGrid(FloorTo, x + y, n) && (y <= x ==> OnGrid(FloorTo, x - y, n))
  {
    DownSum(x, y, Scale(n));
  }

  lemma FloorToOne(n: nat)
    ensures OnGrid(FloorTo, 1.0, n)
  {
    DownOfUnits(1.0, Scale(n), Pow10(n));
  }

  lemma FloorToSteps(n: nat)
    ensures Steps(FloorTo, n)
  {
    FloorToOne(n);
    forall x: real
      ensures x >= 0.0 ==> 0.0 <= FloorTo(x, n) <= x && OnGrid(FloorTo, FloorTo(x, n), n)
      ensures x < 0.0 ==> FloorTo(x, n) <= 0.0
    {
      FloorToFits(x, n);
    }
    forall x: real, y: real | 0.0 <= y <= x && OnGrid(FloorTo, y, n) ensures y <= FloorTo(x, n) {
      DownGreatest(x, y, Scale(n));
    }
    forall x: real, y: real | x >= 0.0 && y >= 0.0 && OnGrid(FloorTo, x, n) && OnGrid(FloorTo, y, n)
      ensures OnGrid(FloorTo, x + y, n) && (y <= x ==> OnGrid(FloorTo, x - y, n))
    {
      FloorToAdds(x, y, n);
    }
  }

  lemma FloorToRoundsDown()
    ensures RoundsDown(FloorTo)
  {
    forall n: nat ensures Steps(FloorTo, n) { FloorToSteps(n); }
  }

  lemma NextUnit(x: real, y: real, s: real)
    requires s > 0.0 && 0.0 <= x <= y && Down(x, s) != x && Down(y, s) == y
    ensures (Units(x, s) + 1) as real <= y * s
  {
    DownTimes(y, s);
    TimesOrder(x, y, s);
    DownBetween(x, s);
    assert Units(x, s) != Units(y, s);
  }

  lemma OneUp(x: real, s: real)
    requires s > 0.0
    ensures (Down(x, s) + 1.0 / s) * s == (Units(x, s) + 1) as real
  {
    DownTimes(x, s);
    assert 1.0 / s * s == 1.0;
    assert (Down(x, s) + 1.0 / s) * s == Down(x, s) * s + 1.0 / s * s;
  }

  lemma UpIsLeast(x: real, y: real, s: real)
    requires s > 0.0 && 0.0 <= x <= y && Down(x, s) != x && Down(y, s) == y
    ensures var up := Down(x, s) + 1.0 / s; up >= 0.0 && up <= y && Down(up, s) == up
  {
    NextUnit(x, y, s);
    OneUp(x, s);
    DownBetween(x, s);
    TimesOrderBack(Down(x, s) + 1.0 / s, y, s);
    DownOfUnits(Down(x, s) + 1.0 / s, s, Units(x, s) + 1);
  }

  lemma CeilToRoundsUp()
    ensures RoundsUp(CeilTo)
  {
    forall x: real, n | x >= 0.0 ensures x <= CeilTo(x, n) {
      var s := Scale(n);
      OneUp(x, s);
      TimesOrderBack(x, Down(x, s) + 1.0 / s, s);
    }
  }

  /** Rounding up gives the least number on the grid that is no less. */
  lemma CeilToIsLeast(x: real, y: real, n: nat)
    requires 0.0 <= x <= y && OnGrid(FloorTo, y, n)
    ensures OnGrid(FloorTo, CeilTo(x, n), n) && x <= CeilTo(x, n) <= y
  {
    var s := Scale(n);
    CeilToRoundsUp();
    UpFits(CeilTo, x, n);
    if Down(x, s) != x {
      assert CeilTo(x, n) == Down(x, s) + 1.0 / s;
      UpIsLeast(x, y, s);
    }
  }

  predicate WholePart(x: real, n: nat, units: int) {
    units as real <= x * Pow10(n) as real < (units + 1) as real
  }

  /** Rounding down to n places keeps the whole part of 10^n times the number. */
  lemma FloorToUnits(x: real, n: nat)
    requires x >= 0.0
    ensures exists units :: WholePart(x, n, units) && FloorTo(x, n) * Pow10(n) as real == units as real
  {
    var s := Pow10(n) as real;
    assert s == Scale(n) && FloorTo(x, n) == Down(x, s);
    DownTimes(x, s);
    assert WholePart(x, n, Units(x, s));
  }

  /** Both roundings treat a number below zero as its opposite. */
  lemma RoundsAlike(x: real, n: nat)
    ensures FloorTo(-x, n) == -FloorTo(x, n) && CeilTo(-x, n) == -CeilTo(x, n)
  {
  }
}
