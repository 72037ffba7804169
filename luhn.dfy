/** The mod-10 (Luhn) check digit test of ISO/IEC 7812-1, Annex B, as
    `luhnCheck` runs it: digits are read from the right, every second one
    (starting with the second from the right) is doubled and reduced by 9
    when it exceeds 9, and the total must be a multiple of 10. Any character
    that is not an ASCII digit makes the check fail. */
module Luhn {
  import opened Text

  /** Whether the digit `pos` places from the right end is doubled. */
  predicate Doubled(pos: nat) { pos % 2 == 1 }

  /** What one digit adds to the sum: a doubled digit adds the sum of the
      decimal digits of its double. */
  function Contribution(d: nat, doubled: bool): (c: nat)
    requires d <= 9
    ensures c <= 9
    ensures !doubled ==> c == d
  {
    if doubled then (if 2 * d > 9 then 2 * d - 9 else 2 * d) else d
  }

  /** Subtracting 9 from a double above 9 is adding up its two decimal digits. */
  lemma ContributionIsDigitSum(d: nat)
    requires d <= 9
    ensures Contribution(d, true) == (2 * d) / 10 + (2 * d) % 10
  {
  }

  /** The sum of the contributions of the digits of `s`, when the last digit
      of `s` stands `offset` places from the right end of the whole number. */
  function SumAt(s: string, offset: nat): nat
    requires AllDigits(s)
  {
    if s == [] then 0
    else Contribution(DigitValue(s[0]), Doubled(|s| - 1 + offset)) + SumAt(s[1..], offset)
  }

  /** The Luhn weighted sum of a whole digit string. */
  function WeightedSum(s: string): nat
    requires AllDigits(s)
  {
    SumAt(s, 0)
  }

  /** The property `luhnCheck` decides. */
  predicate LuhnValid(s: string) { AllDigits(s) && WeightedSum(s) % 10 == 0 }

  /** `luhnCheck(card)`: the right-to-left loop with the doubling flag. */
  method LuhnCheck(card: string) returns (ok: bool)
    ensures ok <==> LuhnValid(card)
    ensures !AllDigits(card) ==> !ok
  {
    var sum := 0;
    var shouldDouble := false;
    var i := |card| - 1;
    while i >= 0
      invariant -1 <= i < |card|
      invariant AllDigits(card[i + 1..])
      invariant sum == WeightedSum(card[i + 1..])
      invariant shouldDouble == Doubled(|card| - 1 - i)
    {
      if !IsDigit(card[i]) {
        return false;
      }
      var digit := DigitValue(card[i]);
      if shouldDouble {
        digit := digit * 2;
        if digit > 9 {
          digit := digit - 9;
        }
      }
      assert card[i..][1..] == card[i + 1..];
      sum := sum + digit;
      shouldDouble := !shouldDouble;
      i := i - 1;
    }
    assert card[0..] == card;
    ok := sum % 10 == 0;
  }

  /** The string `a + b`: the digits of `a` stand `|b|` places further left. */
  lemma {:induction false} SumAtConcat(a: string, b: string, offset: nat)
    requires AllDigits(a) && AllDigits(b)
    ensures AllDigits(a + b)
    ensures SumAt(a + b, offset) == SumAt(a, |b| + offset) + SumAt(b, offset)
  {
    if a == [] {
      assert a + b == b;
    } else {
      SumAtConcat(a[1..], b, offset);
      assert (a + b)[1..] == a[1..] + b;
    }
  }

  /** Sums of two strings that differ in one digit differ by the difference of
      that digit's two contributions. */
  lemma {:induction false} SumAtOneDigitApart(s: string, t: string, k: nat, offset: nat)
    requires AllDigits(s) && AllDigits(t) && |s| == |t| && k < |s|
    requires forall j :: 0 <= j < |s| && j != k ==> s[j] == t[j]
    ensures SumAt(s, offset) - SumAt(t, offset)
         == Contribution(DigitValue(s[k]), Doubled(|s| - 1 - k + offset))
          - Contribution(DigitValue(t[k]), Doubled(|s| - 1 - k + offset))
  {
    if k == 0 {
      assert s[1..] == t[1..];
    } else {
      SumAtOneDigitApart(s[1..], t[1..], k - 1, offset);
    }
  }

  /** With the doubling fixed, distinct digits contribute distinct amounts. */
  lemma ContributionInjective(d: nat, e: nat, doubled: bool)
    requires d <= 9 && e <= 9 && d != e
    ensures Contribution(d, doubled) != Contribution(e, doubled)
  {
  }

  /** The check detects every single mistyped digit: changing one digit of a
      number that passes makes it fail. */
  lemma SingleDigitErrorDetected(s: string, k: nat, c: char)
    requires LuhnValid(s) && k < |s| && IsDigit(c) && c != s[k]
    ensures !LuhnValid(s[k := c])
  {
    var t := s[k := c];
    assert AllDigits(t) by {
      forall j | 0 <= j < |t| ensures IsDigit(t[j]) {
        if j != k { assert t[j] == s[j]; }
      }
    }
    var flag := Doubled(|s| - 1 - k);
    SumAtOneDigitApart(s, t, k, 0);
    ContributionInjective(DigitValue(s[k]), DigitValue(c), flag);
    NearbyMultiplesOfTen(WeightedSum(s), WeightedSum(t));
  }

  lemma NearbyMultiplesOfTen(x: int, y: int)
    requires x % 10 == 0 && x != y && -9 <= x - y <= 9
    ensures y % 10 != 0
  {
  }

  /** The empty string passes: the loop never runs and 0 % 10 == 0. */
  lemma EmptyPasses()
    ensures LuhnValid("")
  {
  }

  /** The card numbers the ticket tests use: a Visa and an Amex test number pass,
      a Visa number with its check digit changed and a string of letters fail. */
  lemma KnownCardNumbers()
    ensures LuhnValid("4111111111111111")
    ensures LuhnValid("378282246310005")
    ensures !LuhnValid("4111111111111112")
    ensures !LuhnValid("abcd1234")
  {
    VisaTestNumber("4111111111111111");
    AmexTestNumber("378282246310005");
    VisaWrongCheckDigit("4111111111111112");
    assert !IsDigit("abcd1234"[0]);
  }

  lemma VisaTestNumber(s: string)
    requires s == "4111111111111111"
    ensures LuhnValid(s)
  {
    VisaTestNumberPieces();
    assert "4111" + "1111" + "1111" + "1111" == s;
  }

  lemma VisaTestNumberPieces()
    ensures AllDigits("4111" + "1111" + "1111" + "1111")
    ensures WeightedSum("4111" + "1111" + "1111" + "1111") == 30
  {
    BlockOfFour('4', '1', '1', '1', 12);
    BlockOfFour('1', '1', '1', '1', 8);
    BlockOfFour('1', '1', '1', '1', 4);
    BlockOfFour('1', '1', '1', '1', 0);
    SumOfFour("4111", "1111", "1111", "1111");
  }

  lemma AmexTestNumber(s: string)
    requires s == "378282246310005"
    ensures LuhnValid(s)
  {
    AmexTestNumberPieces();
    assert "378" + "2822" + "4631" + "0005" == s;
  }

  lemma AmexTestNumberPieces()
    ensures AllDigits("378" + "2822" + "4631" + "0005")
    ensures WeightedSum("378" + "2822" + "4631" + "0005") == 60
  {
    BlockOfThree('3', '7', '8', 12);
    BlockOfFour('2', '8', '2', '2', 8);
    BlockOfFour('4', '6', '3', '1', 4);
    BlockOfFour('0', '0', '0', '5', 0);
    SumOfFour("378", "2822", "4631", "0005");
  }

  lemma VisaWrongCheckDigit(s: string)
    requires s == "4111111111111112"
    ensures !LuhnValid(s)
  {
    VisaWrongCheckDigitPieces();
    assert "4111" + "1111" + "1111" + "1112" == s;
  }

  lemma VisaWrongCheckDigitPieces()
    ensures AllDigits("4111" + "1111" + "1111" + "1112")
    ensures WeightedSum("4111" + "1111" + "1111" + "1112") == 31
  {
    BlockOfFour('4', '1', '1', '1', 12);
    BlockOfFour('1', '1', '1', '1', 8);
    BlockOfFour('1', '1', '1', '1', 4);
    BlockOfFour('1', '1', '1', '2', 0);
    SumOfFour("4111", "1111", "1111", "1112");
  }

  /** Four digits at an even offset: the first and third are doubled. */
  lemma BlockOfFour(c0: char, c1: char, c2: char, c3: char, offset: nat)
    requires IsDigit(c0) && IsDigit(c1) && IsDigit(c2) && IsDigit(c3) && offset % 2 == 0
    ensures AllDigits([c0, c1, c2, c3])
    ensures SumAt([c0, c1, c2, c3], offset) == Contribution(DigitValue(c0), true) + DigitValue(c1)
                                              + Contribution(DigitValue(c2), true) + DigitValue(c3)
  {
    var s := [c0, c1, c2, c3];
    assert SumAt(s[3..], offset) == DigitValue(c3) by { assert s[3..][1..] == []; }
    assert SumAt(s[2..], offset) == Contribution(DigitValue(c2), true) + SumAt(s[3..], offset) by { assert s[2..][1..] == s[3..]; }
    assert SumAt(s[1..], offset) == DigitValue(c1) + SumAt(s[2..], offset) by { assert s[1..][1..] == s[2..]; }
  }

  /** Three digits at an even offset: the middle one is doubled. */
  lemma BlockOfThree(c0: char, c1: char, c2: char, offset: nat)
    requires IsDigit(c0) && IsDigit(c1) && IsDigit(c2) && offset % 2 == 0
    ensures AllDigits([c0, c1, c2])
    ensures SumAt([c0, c1, c2], offset) == DigitValue(c0) + Contribution(DigitValue(c1), true) + DigitValue(c2)
  {
    var s := [c0, c1, c2];
    assert SumAt(s[2..], offset) == DigitValue(c2) by { assert s[2..][1..] == []; }
    assert SumAt(s[1..], offset) == Contribution(DigitValue(c1), true) + SumAt(s[2..], offset) by { assert s[1..][1..] == s[2..]; }
  }

  /** A number cut into four pieces, the last three of four digits each. */
  lemma SumOfFour(a: string, b: string, c: string, d: string)
    requires AllDigits(a) && AllDigits(b) && AllDigits(c) && AllDigits(d)
    ensures AllDigits(a + b + c + d)
    ensures WeightedSum(a + b + c + d)
         == SumAt(a, |b| + |c| + |d|) + SumAt(b, |c| + |d|) + SumAt(c, |d|) + SumAt(d, 0)
  {
    var ab, abc := a + b, a + b + c;
    SumAtConcat(a, b, |c| + |d|);
    assert SumAt(ab, |c| + |d|) == SumAt(a, |b| + |c| + |d|) + SumAt(b, |c| + |d|);
    SumAtConcat(ab, c, |d|);
    assert SumAt(abc, |d|) == SumAt(ab, |c| + |d|) + SumAt(c, |d|);
    SumAtConcat(abc, d, 0);
  }
}
