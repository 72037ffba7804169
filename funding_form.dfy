/** The rules the funding form checks in the browser before it calls
    `fundAccount`: the amount pattern, its minimum and maximum, the card
    number's length and Luhn check, the bank account number, and the routing
    number a bank source must carry. Amounts are read into integer cents;
    every string the pattern accepts is an exact number of cents. */
module FundingForm {
  import opened Wrappers
  import opened Text
  import opened Luhn
  import opened Accounts

  // ---- The amount ----

  /** `0|[1-9]\d*`: zero, or digits without a leading zero. */
  predicate WholePart(s: string) { s == "0" || (|s| >= 1 && '1' <= s[0] <= '9' && AllDigits(s)) }

  /** `/^(?:0|[1-9]\d*)(?:\.\d{1,2})?$/`, read as the regular expression reads. */
  predicate MatchesAmountPattern(s: string)
  {
    WholePart(s) || exists k :: 0 <= k < |s| && s[k] == '.' && WholePart(s[..k]) && DigitRun(s[k + 1..], 1, 2)
  }

  /** A whole part contains no `.`, so the pattern's `.` is the first one. */
  lemma AmountPatternAtFirstDot(s: string)
    ensures Find(s, ".").None? ==> (MatchesAmountPattern(s) <==> WholePart(s))
    ensures Find(s, ".").Some? ==>
      var k := Find(s, ".").value;
      MatchesAmountPattern(s) <==> WholePart(s[..k]) && DigitRun(s[k + 1..], 1, 2)
  {
    forall k | 0 <= k < |s| && s[k] == '.' ensures OccursAt(s, ".", k) {
      assert s[k..k + 1] == [s[k]];
    }
    var f := Find(s, ".");
    if f.Some? {
      var k := f.value;
      assert s[k..k + 1] == ".";
      assert !AllDigits(s) by { assert !IsDigit(s[k]); }
      forall j | k < j < |s| ensures !WholePart(s[..j]) {
        assert s[..j][k] == '.';
      }
    }
  }

  /** The cents of a one- or two-digit fraction: ".5" is 50, ".05" is 5. */
  function FractionCents(f: string): (c: nat)
    requires DigitRun(f, 1, 2)
    ensures c < 100
  {
    if |f| == 1 then 10 * DigitValue(f[0])
    else
      assert f[..1] == [f[0]] && NumeralValue([f[0]]) == DigitValue(f[0]);
      10 * DigitValue(f[0]) + DigitValue(f[1])
  }

  /** The amount in cents of a string the pattern accepts; None when it
      rejects it (`AmountCentsMatchesPattern`). */
  function AmountCents(s: string): Option<nat>
  {
    match Find(s, ".")
    case None => if WholePart(s) then Some(100 * NumeralValue(s)) else None
    case Some(k) =>
      if WholePart(s[..k]) && DigitRun(s[k + 1..], 1, 2)
      then Some(100 * NumeralValue(s[..k]) + FractionCents(s[k + 1..]))
      else None
  }

  /** The cents reading and the regular expression accept the same strings. */
  lemma AmountCentsMatchesPattern(s: string)
    ensures AmountCents(s).Some? <==> MatchesAmountPattern(s)
  {
    AmountPatternAtFirstDot(s);
  }

  /** `minValue`: at least $0.01. */
  const MinAmountCents: nat := 1
  /** `max`: at most $10,000. */
  const MaxAmountCents: nat := 1000000

  /** `required`, `pattern`, `minValue` and `max` together; the empty string
      fails the pattern as well as `required`. */
  predicate AmountAccepted(s: string)
  {
    AmountCents(s).Some? && MinAmountCents <= AmountCents(s).value <= MaxAmountCents
  }

  /** A whole part, a point and a fraction read as that many cents. */
  lemma AmountCentsOfParts(w: string, f: string)
    requires WholePart(w) && DigitRun(f, 1, 2)
    ensures AmountCents(w + "." + f) == Some(100 * NumeralValue(w) + FractionCents(f))
  {
    var s, t := w + "." + f, "." + f;
    assert s == w + t;
    assert forall i :: 0 <= i < |w| ==> w[i] != '.' by {
      if w != "0" { assert AllDigits(w); }
    }
    FindAfterPrefix(w, '.', t);
    assert Find(s, ".") == Some(|w|);
    assert s[..|w|] == w;
    assert s[|w| + 1..] == f;
  }

  /** Zero passes the pattern in each of its spellings and fails the minimum. */
  lemma ZeroAmountsRejected()
    ensures AmountCents("0") == Some(0) && !AmountAccepted("0")
    ensures AmountCents("0.0") == Some(0) && !AmountAccepted("0.0")
    ensures AmountCents("0.00") == Some(0) && !AmountAccepted("0.00")
  {
    AmountCentsOfParts("0", "0");
    assert "0" + "." + "0" == "0.0";
    AmountCentsOfParts("0", "00");
    assert "0" + "." + "00" == "0.00";
  }

  /** Two or more leading digits starting with `0` never pass: `00`, `007.5`. */
  lemma LeadingZerosRejected(s: string)
    requires |s| >= 2 && s[0] == '0' && IsDigit(s[1])
    ensures AmountCents(s).None?
  {
    AmountCentsMatchesPattern(s);
    assert !WholePart(s) by { assert s != "0"; }
    forall k | 0 <= k < |s| && s[k] == '.' ensures !WholePart(s[..k]) {
      if k >= 2 {
        assert s[..k][0] == '0' && |s[..k]| >= 2;
      }
    }
  }

  /** `c` cents written as the form's placeholder writes amounts: dollars, a
      point, and two digits of cents. */
  function FormatCents(c: nat): (s: string)
    ensures |s| >= 4
  {
    NatToString(c / 100) + "." + [DigitChar(c % 100 / 10), DigitChar(c % 10)]
  }

  lemma NatToStringIsWholePart(n: nat)
    ensures WholePart(NatToString(n))
  {
    var s := NatToString(n);
    if |s| == 1 && s[0] == '0' {
      assert s == "0";
    }
  }

  /** Every whole number of cents has a spelling the pattern reads back to
      that number; so every amount from one cent to $10,000 can be entered. */
  lemma FormatCentsRoundTrip(c: nat)
    ensures AmountCents(FormatCents(c)) == Some(c)
    ensures MinAmountCents <= c <= MaxAmountCents ==> AmountAccepted(FormatCents(c))
  {
    var q, d1, d0 := c / 100, c % 100 / 10, c % 10;
    var f := [DigitChar(d1), DigitChar(d0)];
    NatToStringIsWholePart(q);
    AmountCentsOfParts(NatToString(q), f);
    assert FractionCents(f) == 10 * d1 + d0;
    CentsDigits(c);
  }

  lemma CentsDigits(c: nat)
    ensures 100 * (c / 100) + 10 * (c % 100 / 10) + c % 10 == c
  {
    var r := c % 100;
    assert c == 100 * (c / 100) + r;
    assert r == 10 * (r / 10) + r % 10;
    assert r % 10 == c % 10 by {
      assert c == 10 * (10 * (c / 100) + r / 10) + r % 10;
    }
  }

  // ---- The funding source ----

  const CardLengthMessage: string := "Card number must be between 13 and 19 digits"
  const LuhnMessage: string := "Invalid card number (failed Luhn check)"

  predicate CardNumberAccepted(v: string) { DigitRun(v, 13, 19) && LuhnValid(v) }

  /** The first failing rule on a card number: `required`, `isLength`, `luhn`. */
  function CardNumberIssue(v: string): (r: Option<string>)
    ensures r.None? <==> CardNumberAccepted(v)
  {
    if v == "" then Some("Card number is required")
    else if !DigitRun(v, 13, 19) then Some(CardLengthMessage)
    else if !LuhnValid(v) then Some(LuhnMessage)
    else None
  }

  /** `required` and `/^\d+$/` on a bank account number. */
  predicate BankNumberAccepted(v: string) { |v| >= 1 && AllDigits(v) }

  function BankNumberIssue(v: string): (r: Option<string>)
    ensures r.None? <==> BankNumberAccepted(v)
  {
    if v == "" then Some("Account number is required")
    else if !AllDigits(v) then Some("Invalid account number")
    else None
  }

  /** `required` and `/^\d{9}$/`; None is a field left untouched. */
  predicate RoutingAccepted(r: Option<string>) { r.Some? && DigitRun(r.value, 9, 9) }

  function RoutingIssue(r: Option<string>): (m: Option<string>)
    ensures m.None? <==> RoutingAccepted(r)
  {
    if r.None? || r.value == "" then Some("Routing number is required")
    else if !DigitRun(r.value, 9, 9) then Some("Routing number must be 9 digits")
    else None
  }

  /** What the form holds when it is submitted. */
  datatype FundingFormData = FundingFormData(amount: string, fundingType: FundingType,
                                             accountNumber: string, routingNumber: Option<string>)

  /** Every rule of the mounted fields: the routing number field exists only
      for a bank source. */
  predicate FormAccepted(f: FundingFormData)
  {
    && AmountAccepted(f.amount)
    && match f.fundingType
       case Card => CardNumberAccepted(f.accountNumber)
       case Bank => BankNumberAccepted(f.accountNumber) && RoutingAccepted(f.routingNumber)
  }

  /** The `fundingSource` that `onSubmit` sends. */
  function SubmittedSource(f: FundingFormData): FundingSource
  {
    FundingSource(f.fundingType, f.accountNumber, f.routingNumber)
  }

  /** A form the browser lets through has a positive amount, and the server
      takes its source exactly when it is a bank account or a 16-digit card. */
  lemma AcceptedFormOnServer(f: FundingFormData)
    requires FormAccepted(f)
    ensures AmountCents(f.amount).value > 0
    ensures FundingSourceAccepted(SubmittedSource(f)) <==> f.fundingType == Bank || |f.accountNumber| == 16
  {
  }

  /** Every card number the server takes, the form takes too. */
  lemma ServerCardIsFormCard(src: FundingSource)
    requires src.kind == Card && FundingSourceAccepted(src)
    ensures CardNumberAccepted(src.accountNumber)
  {
  }

  /** The converse fails: a valid 15-digit American Express number passes
      the form and is refused by the server. */
  lemma FifteenDigitCardFormOnly()
    ensures CardNumberAccepted("378282246310005")
    ensures !FundingSourceAccepted(FundingSource(Card, "378282246310005", None))
  {
    AmexTestNumber("378282246310005");
  }

  /** A bank source with no routing number is refused by the form and
      accepted by the server, which never reads it. */
  lemma MissingRoutingServerOnly(amount: string, v: string)
    requires AmountAccepted(amount) && BankNumberAccepted(v)
    ensures !FormAccepted(FundingFormData(amount, Bank, v, None))
    ensures FundingSourceAccepted(SubmittedSource(FundingFormData(amount, Bank, v, None)))
  {
  }
}
