/** The card-number check of the deposit form: `credit_verify` (helpers.py),
    which combines the Luhn mod-10 check of ISO/IEC 7812-1 Annex B with an
    issuer classifier, and the card-string sanitiser of `add_cash` (app.py). */
module Card {
  import opened Results
  import opened Strings

  /** Decimal digits of `n`, least significant first; 0 has none. */
  function Digits(n: nat): (ds: seq<nat>)
    ensures forall i :: 0 <= i < |ds| ==> ds[i] < 10
    ensures |ds| > 0 ==> ds[|ds| - 1] != 0
    ensures n == 0 <==> |ds| == 0
  {
    if n == 0 then [] else [n % 10] + Digits(n / 10)
  }

  /** The number whose digits, least significant first, are `ds`. */
  function FromDigits(ds: seq<nat>): nat {
    if |ds| == 0 then 0 else ds[0] + 10 * FromDigits(ds[1..])
  }

  /** The digit list is the number's own decimal digits: reading them back
      gives the number. */
  lemma {:induction false} FromDigitsOfDigits(n: nat)
    ensures FromDigits(Digits(n)) == n
  {
    if n != 0 {
      FromDigitsOfDigits(n / 10);
      assert Digits(n)[1..] == Digits(n / 10);
    }
  }

  lemma {:induction false} DigitsOfFromDigits(ds: seq<nat>)
    requires forall i :: 0 <= i < |ds| ==> ds[i] < 10
    requires |ds| > 0 ==> ds[|ds| - 1] != 0
    ensures Digits(FromDigits(ds)) == ds
  {
    if |ds| > 0 {
      var tail := ds[1..];
      DigitsOfFromDigits(tail);
      var m := FromDigits(ds);
      assert m == ds[0] + 10 * FromDigits(tail);
      assert m % 10 == ds[0] && m / 10 == FromDigits(tail);
      assert m != 0 by {
        if |tail| == 0 { assert ds[0] != 0; }
      }
      assert ds == [ds[0]] + tail;
    }
  }

  function NumDigits(n: nat): nat {
    |Digits(n)|
  }

  /** The digits at even positions 0, 2, 4, ... (counted from the right). */
  function Evens(ds: seq<nat>): seq<nat>
    decreases |ds|
  {
    if |ds| == 0 then [] else [ds[0]] + Odds(ds[1..])
  }

  /** The digits at odd positions 1, 3, 5, ... (counted from the right). */
  function Odds(ds: seq<nat>): seq<nat>
    decreases |ds|
  {
    if |ds| == 0 then [] else Evens(ds[1..])
  }

  /** `evens` holds every second digit from position 0, `odds` every second
      digit from position 1. */
  lemma {:induction false} EvensOddsShape(ds: seq<nat>)
    ensures |Evens(ds)| == (|ds| + 1) / 2 && |Odds(ds)| == |ds| / 2
    ensures forall i :: 0 <= i < |Evens(ds)| ==> Evens(ds)[i] == ds[2 * i]
    ensures forall i :: 0 <= i < |Odds(ds)| ==> Odds(ds)[i] == ds[2 * i + 1]
    decreases |ds|
  {
    if |ds| > 0 {
      var tail := ds[1..];
      EvensOddsShape(tail);
      assert Odds(ds) == Evens(tail);
      assert Evens(ds) == [ds[0]] + Odds(tail);
      forall i | 0 <= i < |Odds(ds)|
        ensures Odds(ds)[i] == ds[2 * i + 1]
      {
        assert Evens(tail)[i] == tail[2 * i];
      }
      forall i | 0 <= i < |Evens(ds)|
        ensures Evens(ds)[i] == ds[2 * i]
      {
        if i > 0 {
          assert Evens(ds)[i] == Odds(tail)[i - 1] == tail[2 * (i - 1) + 1];
        }
      }
    }
  }

  lemma {:induction false} EvensOddsAppend(ds: seq<nat>, d: nat)
    ensures Evens(ds + [d]) == Evens(ds) + (if |ds| % 2 == 0 then [d] else [])
    ensures Odds(ds + [d]) == Odds(ds) + (if |ds| % 2 == 1 then [d] else [])
    decreases |ds|
  {
    if |ds| == 0 {
      assert ds + [d] == [d];
      assert [d][1..] == [];
    } else {
      assert (ds + [d])[1..] == ds[1..] + [d];
      EvensOddsAppend(ds[1..], d);
    }
  }

  /** What one odd-position digit `d` contributes to `n_odds`: the digits of
      2d, its units first when it has two. */
  function DoubledParts(d: nat): seq<nat> {
    if 9 < 2 * d then [(2 * d) % 10, (2 * d) / 10] else [2 * d]
  }

  function DoubledAll(xs: seq<nat>): seq<nat> {
    if |xs| == 0 then [] else DoubledParts(xs[0]) + DoubledAll(xs[1..])
  }

  lemma {:induction false} DoubledAllAppend(xs: seq<nat>, x: nat)
    ensures DoubledAll(xs + [x]) == DoubledAll(xs) + DoubledParts(x)
  {
    if |xs| == 0 {
      assert xs + [x] == [x];
    } else {
      assert (xs + [x])[1..] == xs[1..] + [x];
      DoubledAllAppend(xs[1..], x);
    }
  }

  /** The list `n_odds` the loop of `credit_verify` builds. */
  function NOdds(ds: seq<nat>): seq<nat> {
    DoubledAll(Odds(ds))
  }

  function Sum(xs: seq<nat>): nat {
    if |xs| == 0 then 0 else xs[0] + Sum(xs[1..])
  }

  lemma {:induction false} SumAppend(a: seq<nat>, b: seq<nat>)
    ensures Sum(a + b) == Sum(a) + Sum(b)
  {
    if |a| == 0 {
      assert a + b == b;
    } else {
      assert (a + b)[1..] == a[1..] + b;
      SumAppend(a[1..], b);
    }
  }

  /** Sum of the decimal digits of `x`. */
  function DigitSum(x: nat): nat {
    if x < 10 then x else x % 10 + DigitSum(x / 10)
  }

  lemma DoubledPartsSum(d: nat)
    requires d < 10
    ensures Sum(DoubledParts(d)) == DigitSum(2 * d)
    ensures DigitSum(2 * d) == if d < 5 then 2 * d else 2 * d - 9
  {
    var parts := DoubledParts(d);
    if 9 < 2 * d {
      assert parts[1..][1..] == [];
      assert Sum(parts[1..]) == (2 * d) / 10 == 1;
      assert DigitSum(2 * d) == (2 * d) % 10 + 1;
    } else {
      assert parts[1..] == [];
    }
  }

  /** Reference Luhn total: the digit at position i (from the right) weighs 1
      when i is even; at odd i it is doubled and replaced by its digit sum. */
  function LuhnTotal(ds: seq<nat>): nat {
    if |ds| == 0 then 0
    else
      var i := |ds| - 1;
      LuhnTotal(ds[..i]) + (if i % 2 == 0 then ds[i] else DigitSum(2 * ds[i]))
  }

  predicate LuhnValid(n: nat) {
    LuhnTotal(Digits(n)) % 10 == 0
  }

  /** The checksum `credit_verify` computes, `sum(evens) + sum(n_odds)`, is
      the Luhn total of the number's digits. */
  lemma {:induction false} ChecksumIsLuhnTotal(ds: seq<nat>)
    requires forall i :: 0 <= i < |ds| ==> ds[i] < 10
    ensures Sum(Evens(ds)) + Sum(NOdds(ds)) == LuhnTotal(ds)
  {
    if |ds| > 0 {
      var i := |ds| - 1;
      var front, d := ds[..i], ds[i];
      assert ds == front + [d];
      assert LuhnTotal(ds) == LuhnTotal(front) + (if i % 2 == 0 then d else DigitSum(2 * d));
      ChecksumIsLuhnTotal(front);
      EvensOddsAppend(front, d);
      if i % 2 == 0 {
        SumAppend(Evens(front), [d]);
        assert Sum([d]) == d;
        assert Odds(ds) == Odds(front);
        assert NOdds(ds) == NOdds(front);
      } else {
        assert Evens(ds) == Evens(front);
        assert Odds(ds) == Odds(front) + [d];
        DoubledAllAppend(Odds(front), d);
        assert NOdds(ds) == NOdds(front) + DoubledParts(d);
        SumAppend(NOdds(front), DoubledParts(d));
        DoubledPartsSum(d);
      }
    }
  }

  /** The `first`, `second` pair chosen from the last elements of `evens`
      and `odds`: always the most and second-most significant digits. */
  function Leading(ds: seq<nat>): (r: (nat, nat))
    requires |ds| >= 2
    ensures r.0 == ds[|ds| - 1] && r.1 == ds[|ds| - 2]
  {
    EvensOddsShape(ds);
    var evens, odds := Evens(ds), Odds(ds);
    if |evens| > |odds| then (evens[|evens| - 1], odds[|odds| - 1])
    else (odds[|odds| - 1], evens[|evens| - 1])
  }

  /** Python compares a bool with an int as 0 or 1. */
  function BoolAsInt(b: bool): int {
    if b then 1 else 0
  }

  predicate IsAmexPattern(ds: seq<nat>) {
    |ds| == 15 && ds[14] == 3 && (ds[13] == 4 || ds[13] == 7)
  }

  /** `credit_verify` as written. The chained assignment
      `visa = first = 4 and (...)` binds both names to the length test (the
      truthy 4 is discarded), so VISA holds for every 13- or 16-digit number
      and the MASTERCARD test compares a bool with 5. */
  function CreditVerify(creditCard: nat): (ok: bool)
    ensures ok ==> NumDigits(creditCard) in {13, 15, 16}
  {
    var ds := Digits(creditCard);
    var digits := |ds|;
    if digits != 13 && digits != 15 && digits != 16 then false
    else
      var (first, second) := Leading(ds);
      var amex := digits == 15 && first == 3 && (second == 4 || second == 7);
      var visa := digits == 13 || digits == 16;
      var reboundFirst := visa;
      var master := BoolAsInt(reboundFirst) == 5 && 0 < second < 6 && digits == 16;
      if !(amex || visa || master) then false
      else (Sum(Evens(ds)) + Sum(NOdds(ds))) % 10 == 0
  }

  /** What the code accepts: the Luhn-valid numbers of 13 or 16 digits, and
      the Luhn-valid 15-digit numbers led by 34 or 37. MASTERCARD never
      decides anything. */
  lemma CreditVerifyAsWritten(creditCard: nat)
    ensures CreditVerify(creditCard) <==>
      var ds := Digits(creditCard);
      LuhnValid(creditCard) && (|ds| == 13 || |ds| == 16 || IsAmexPattern(ds))
  {
    var ds := Digits(creditCard);
    if |ds| in {13, 15, 16} {
      var (first, second) := Leading(ds);
      assert first == ds[|ds| - 1] && second == ds[|ds| - 2];
      ChecksumIsLuhnTotal(ds);
      assert LuhnValid(creditCard) <==> (Sum(Evens(ds)) + Sum(NOdds(ds))) % 10 == 0;
    }
  }

  /** The digit loop of `credit_verify`: every decimal digit is visited once,
      least significant first; even positions go to `evens`, odd ones to
      `odds`, and each odd digit adds the digits of its double to `nOdds`. */
  method CollectDigits(creditCard: nat) returns (evens: seq<nat>, odds: seq<nat>, nOdds: seq<nat>, digits: nat)
    ensures digits == NumDigits(creditCard)
    ensures evens == Evens(Digits(creditCard))
    ensures odds == Odds(Digits(creditCard))
    ensures nOdds == NOdds(Digits(creditCard))
  {
    evens, odds, nOdds := [], [], [];
    digits := 0;
    var n := creditCard;
    ghost var seen: seq<nat> := [];
    while n != 0
      invariant Digits(creditCard) == seen + Digits(n)
      invariant digits == |seen|
      invariant evens == Evens(seen) && odds == Odds(seen) && nOdds == NOdds(seen)
      decreases n
    {
      var d := n % 10;
      evens, odds, nOdds := CollectOne(seen, digits, evens, odds, nOdds, d);
      DigitsStep(creditCard, seen, n);
      seen := seen + [d];
      n := n / 10;
      digits := digits + 1;
    }
    assert seen + [] == seen;
  }

  /** One pass of the loop body on the digit `d` at position `digits`: it
      goes to `evens` at an even position; at an odd one it goes to `odds`
      and the digits of its double go to `nOdds`. */
  method CollectOne(ghost seen: seq<nat>, digits: nat, evens: seq<nat>, odds: seq<nat>, nOdds: seq<nat>, d: nat)
    returns (evens': seq<nat>, odds': seq<nat>, nOdds': seq<nat>)
    requires d < 10 && digits == |seen|
    requires evens == Evens(seen) && odds == Odds(seen) && nOdds == NOdds(seen)
    ensures evens' == Evens(seen + [d]) && odds' == Odds(seen + [d]) && nOdds' == NOdds(seen + [d])
  {
    CollectStep(seen, d);
    evens', odds', nOdds' := evens, odds, nOdds;
    if digits % 2 == 1 {
      assert d % 10 == d;
      odds' := odds + [d % 10];
      var parts := DoubleDigit(d);
      nOdds' := nOdds + parts;
    } else {
      evens' := evens + [d];
    }
  }

  /** The inner step of the loop on an odd-position digit: double it and
      emit the units of the double, then what remains of it. */
  method DoubleDigit(digit: nat) returns (parts: seq<nat>)
    requires digit < 10
    ensures parts == DoubledParts(digit)
    ensures |parts| == (if digit < 5 then 1 else 2)
    ensures forall i :: 0 <= i < |parts| ==> parts[i] < 10
    ensures FromDigits(parts) == 2 * digit
    ensures Sum(parts) == DigitSum(2 * digit)
  {
    parts := [];
    var d := digit * 2;
    if 9 < d {
      parts := parts + [d % 10];
      d := d / 10;
    }
    parts := parts + [d];
    DoubledPartsSum(digit);
    if 9 < 2 * digit {
      assert FromDigits(parts[1..]) == parts[1];
    } else {
      assert FromDigits(parts[1..]) == 0;
    }
  }

  /** One more digit extends the three lists as the loop body does. */
  lemma {:induction false} CollectStep(seen: seq<nat>, d: nat)
    ensures Evens(seen + [d]) == Evens(seen) + (if |seen| % 2 == 0 then [d] else [])
    ensures Odds(seen + [d]) == Odds(seen) + (if |seen| % 2 == 1 then [d] else [])
    ensures NOdds(seen + [d]) == NOdds(seen) + (if |seen| % 2 == 1 then DoubledParts(d) else [])
  {
    EvensOddsAppend(seen, d);
    if |seen| % 2 == 1 {
      DoubledAllAppend(Odds(seen), d);
      assert NOdds(seen + [d]) == DoubledAll(Odds(seen) + [d]);
    } else {
      assert Odds(seen + [d]) == Odds(seen);
    }
  }

  /** Taking off the last digit of `n` moves it to the end of `seen`. */
  lemma {:induction false} DigitsStep(creditCard: nat, seen: seq<nat>, n: nat)
    requires n != 0 && Digits(creditCard) == seen + Digits(n)
    ensures Digits(creditCard) == (seen + [n % 10]) + Digits(n / 10)
  {
    var rest := Digits(n / 10);
    assert Digits(n) == [n % 10] + rest;
    assert seen + ([n % 10] + rest) == (seen + [n % 10]) + rest;
  }

  /** Card issuers of the classifier the code evidently intends. */
  datatype Issuer = Amex | Visa | Mastercard

  /** The classifier with `first == 4` as a comparison: AMEX is 15 digits
      led by 34 or 37, VISA 13 or 16 digits led by 4, MASTERCARD 16 digits
      led by 51-55, each also Luhn-valid. */
  function Classify(creditCard: nat): (r: Option<Issuer>)
    ensures r == Some(Amex) <==> LuhnValid(creditCard) && IsAmexPattern(Digits(creditCard))
    ensures r == Some(Visa) <==>
      var ds := Digits(creditCard);
      LuhnValid(creditCard) && (|ds| == 13 || |ds| == 16) && ds[|ds| - 1] == 4
    ensures r == Some(Mastercard) <==>
      var ds := Digits(creditCard);
      LuhnValid(creditCard) && |ds| == 16 && ds[15] == 5 && 1 <= ds[14] <= 5
  {
    var ds := Digits(creditCard);
    var digits := |ds|;
    if digits != 13 && digits != 15 && digits != 16 then None
    else
      var (first, second) := Leading(ds);
      ChecksumIsLuhnTotal(ds);
      if (Sum(Evens(ds)) + Sum(NOdds(ds))) % 10 != 0 then None
      else if digits == 15 && first == 3 && (second == 4 || second == 7) then Some(Amex)
      else if first == 4 && (digits == 13 || digits == 16) then Some(Visa)
      else if first == 5 && 0 < second < 6 && digits == 16 then Some(Mastercard)
      else None
  }

  /** Every number the intended classifier accepts, the code accepts too. */
  lemma IntendedAcceptedAsWritten(creditCard: nat)
    requires Classify(creditCard).Some?
    ensures CreditVerify(creditCard)
  {
    CreditVerifyAsWritten(creditCard);
  }

  /** Away from AMEX, the code accepts exactly the Luhn-valid 13- and 16-digit
      numbers, whatever their leading digits. */
  lemma AsWrittenIgnoresLeadingDigits(a: nat, b: nat)
    requires NumDigits(a) == NumDigits(b) && NumDigits(a) in {13, 16}
    requires LuhnValid(a) == LuhnValid(b)
    ensures CreditVerify(a) == CreditVerify(b)
  {
    CreditVerifyAsWritten(a);
    CreditVerifyAsWritten(b);
  }

  /** The digits, least significant first, of 6011 1111 1111 1117. */
  function NonNetworkDigits(): seq<nat> {
    [7, 1, 1, 1, 1, 1, 1, 1, 1, 1, 1, 1, 1, 1, 0, 6]
  }

  lemma NonNetworkLuhnTotal()
    ensures LuhnTotal(NonNetworkDigits()) == 30
  {
    var ds := NonNetworkDigits();
    assert LuhnTotal(ds[..1]) == 7;
    assert ds[..2][..1] == ds[..1];
    assert LuhnTotal(ds[..2]) == 9;
    assert ds[..3][..2] == ds[..2];
    assert LuhnTotal(ds[..3]) == 10;
    assert ds[..4][..3] == ds[..3];
    assert LuhnTotal(ds[..4]) == 12;
    assert ds[..5][..4] == ds[..4];
    assert LuhnTotal(ds[..5]) == 13;
    assert ds[..6][..5] == ds[..5];
    assert LuhnTotal(ds[..6]) == 15;
    assert ds[..7][..6] == ds[..6];
    assert LuhnTotal(ds[..7]) == 16;
    assert ds[..8][..7] == ds[..7];
    assert LuhnTotal(ds[..8]) == 18;
    assert ds[..9][..8] == ds[..8];
    assert LuhnTotal(ds[..9]) == 19;
    assert ds[..10][..9] == ds[..9];
    assert LuhnTotal(ds[..10]) == 21;
    assert ds[..11][..10] == ds[..10];
    assert LuhnTotal(ds[..11]) == 22;
    assert ds[..12][..11] == ds[..11];
    assert LuhnTotal(ds[..12]) == 24;
    assert ds[..13][..12] == ds[..12];
    assert LuhnTotal(ds[..13]) == 25;
    assert ds[..14][..13] == ds[..13];
    assert LuhnTotal(ds[..14]) == 27;
    assert ds[..15][..14] == ds[..14];
    assert LuhnTotal(ds[..15]) == 27;
    assert ds[..16][..15] == ds[..15];
    assert LuhnTotal(ds[..16]) == 30;
    assert ds[..16] == ds;
  }

  /** Any number with the digits of 6011 1111 1111 1117 is Luhn-valid and
      16 digits long but issued by none of the three networks: the code
      accepts it, the intended classifier does not. */
  lemma AsWrittenAcceptsNonNetwork(n: nat)
    requires Digits(n) == NonNetworkDigits()
    ensures CreditVerify(n) && Classify(n) == None
  {
    var ds := Digits(n);
    NonNetworkLuhnTotal();
    assert LuhnValid(n);
    assert |ds| == 16 && ds[15] == 6 && ds[14] == 0;
    CreditVerifyAsWritten(n);
    assert Classify(n) != Some(Amex) && Classify(n) != Some(Visa) && Classify(n) != Some(Mastercard);
  }

  /** Such a number exists: the code accepts a card none of AMEX, VISA and
      MASTERCARD issues. */
  lemma AsWrittenAcceptsNonNetworkNumber()
    ensures var n := FromDigits(NonNetworkDigits());
      CreditVerify(n) && Classify(n) == None
  {
    var ds := NonNetworkDigits();
    DigitsOfFromDigits(ds);
    AsWrittenAcceptsNonNetwork(FromDigits(ds));
  }

  /** The sanitiser's charset test: non-empty, and only digits, hyphens and
      spaces. */
  predicate CardCharsetOk(s: string) {
    |s| > 0 && forall i :: 0 <= i < |s| ==> IsDigit(s[i]) || s[i] == '-' || s[i] == ' '
  }

  /** `int("".join(re.findall(r"\d+", s)))`: the decimal value of the digit
      subsequence, or `None` where it has no digits and `int('')` raises. */
  function CardValue(s: string): (r: Option<nat>)
    ensures r.None? <==> forall i :: 0 <= i < |s| ==> !IsDigit(s[i])
  {
    var digits := DigitsOnly(s);
    if digits == "" then None else Some(DecimalValue(digits))
  }

  /** Hyphens and spaces between the digits do not change the number read. */
  lemma CardValueIgnoresSeparators(a: string, b: string, sep: char)
    requires sep == '-' || sep == ' '
    ensures CardValue(a + [sep] + b) == CardValue(a + b)
  {
    assert a + [sep] + b == (a + [sep]) + b;
    DigitsOnlyAppend(a + [sep], b);
    DigitsOnlyAppend(a, [sep]);
    DigitsOnlyAppend(a, b);
    assert DigitsOnly([sep]) == DigitsOnly([sep][1..]) == "";
    assert DigitsOnly(a + [sep]) == DigitsOnly(a);
  }

  /** The numeral of a number reads back as that number. */
  lemma CardValueOfNumeral(n: nat)
    ensures CardValue(DecimalString(n)) == Some(n)
  {
    DigitsOnlyOfDigits(DecimalString(n));
    DecimalRoundTrip(n);
  }
}
