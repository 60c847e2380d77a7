/** The amount check of the INR withdrawal form. */
module WithdrawAmount {
  import opened Text

  /** `0|[1-9]\d*` */
  predicate IsWhole(s: string) {
    s == "0" || (s != "" && s[0] != '0' && AllDigits(s))
  }

  /** `^(0|[1-9]\d*)(\.\d{1,2})?$` */
  predicate MatchesAmount(s: string) {
    var r := Cut(s, '.');
    if r.None? then IsWhole(s)
    else IsWhole(r.value.0) && 1 <= |r.value.1| <= 2 && AllDigits(r.value.1)
  }

  /** `^0(?:\.0{1,2})?$` */
  predicate MatchesZero(s: string) {
    s == "0" || s == "0.0" || s == "0.00"
  }

  /** The form reports no error for the amount. */
  predicate AmountAccepted(amount: string) {
    MatchesAmount(Trim(amount)) && !MatchesZero(Trim(amount))
  }

  // --- The decimal grammar ---------------------------------------------------------

  /** Rupees, and up to two digits of paise when there is a point. */
  datatype Amount = Amount(whole: string, fraction: Option<string>)

  predicate WellFormed(a: Amount) {
    && a.whole != "" && AllDigits(a.whole) && (|a.whole| > 1 ==> a.whole[0] != '0')
    && (a.fraction.Some? ==> 1 <= |a.fraction.value| <= 2 && AllDigits(a.fraction.value))
  }

  function Written(a: Amount): string {
    if a.fraction.None? then a.whole else a.whole + "." + a.fraction.value
  }

  function Paise(a: Amount): nat
    requires WellFormed(a)
  {
    100 * NumberOf(a.whole)
    + (if a.fraction.None? then 0
       else if |a.fraction.value| == 1 then 10 * NumberOf(a.fraction.value)
       else NumberOf(a.fraction.value))
  }

  /** The first expression accepts exactly the written amounts. */
  lemma MatchesAmountMeans(s: string)
    ensures MatchesAmount(s) <==> exists a :: WellFormed(a) && Written(a) == s
  {
    if MatchesAmount(s) {
      var r := Cut(s, '.');
      if r.None? {
        assert WellFormed(Amount(s, None)) && Written(Amount(s, None)) == s;
      } else {
        var a := Amount(r.value.0, Some(r.value.1));
        assert WellFormed(a) && Written(a) == s;
      }
    }
    forall a | WellFormed(a) && Written(a) == s ensures MatchesAmount(s) {
      if a.fraction.Some? { CutAt(a.whole, '.', a.fraction.value); }
    }
  }

  lemma {:induction false} Positive(s: string)
    requires s != "" && AllDigits(s) && s[0] != '0'
    ensures NumberOf(s) >= 1
  {
    if |s| > 1 { Positive(s[..|s| - 1]); }
  }

  lemma FewDigits(s: string)
    requires 1 <= |s| <= 2 && AllDigits(s)
    ensures NumberOf(s) == 0 <==> s == "0" || s == "00"
  {
  }

  /** A whole amount is worth a hundred paise a rupee, one decimal counts tens and two count units. */
  lemma PaiseAre(whole: string, tens: char, units: char)
    requires WellFormed(Amount(whole, None)) && IsDigit(tens) && IsDigit(units)
    ensures Paise(Amount(whole, None)) == 100 * NumberOf(whole)
    ensures Paise(Amount(whole, Some([tens]))) == 100 * NumberOf(whole) + 10 * (tens as int - '0' as int)
    ensures Paise(Amount(whole, Some([tens, units])))
            == 100 * NumberOf(whole) + 10 * (tens as int - '0' as int) + (units as int - '0' as int)
  {
    assert [tens][..0] == [] && [tens, units][..1] == [tens];
  }

  /** The second expression matches a written amount exactly when it is worth nothing. */
  lemma MatchesZeroMeans(a: Amount)
    requires WellFormed(a)
    ensures MatchesZero(Written(a)) <==> Paise(a) == 0
  {
    if a.whole[0] == '0' {
      assert a.whole == "0";
      assert NumberOf("0") == 10 * NumberOf("0"[..0]) + DigitValue('0');
      if a.fraction.Some? {
        FewDigits(a.fraction.value);
        var w := Written(a);
        assert w[0] == '0' && w[1] == '.' && w[2..] == a.fraction.value;
        assert "0.0"[2..] == "0" && "0.00"[2..] == "00";
      }
    } else {
      Positive(a.whole);
      assert Written(a)[0] == a.whole[0];
    }
  }

  /** The form accepts exactly the amounts of the grammar, padded or not, that are worth at least a paisa. */
  lemma AcceptsPositiveAmounts(amount: string)
    ensures AmountAccepted(amount) <==> exists a :: WellFormed(a) && Written(a) == Trim(amount) && Paise(a) > 0
  {
    var s := Trim(amount);
    MatchesAmountMeans(s);
    forall a | WellFormed(a) && Written(a) == s ensures MatchesZero(s) <==> Paise(a) == 0 {
      MatchesZeroMeans(a);
    }
  }

  /** No string is two amounts. */
  lemma OneReading(a: Amount, b: Amount)
    requires WellFormed(a) && WellFormed(b) && Written(a) == Written(b)
    ensures a == b
  {
    if a.fraction.Some? { CutAt(a.whole, '.', a.fraction.value); }
    if b.fraction.Some? { CutAt(b.whole, '.', b.fraction.value); }
  }
}
