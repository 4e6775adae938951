/** Won amounts as phrases: the printer and the two-digit estimate (backend/worker/ml_reference.py),
    and the reader of amounts in document text (backend/worker/quantities.py). */
module WonAmounts {
  import opened Wrappers
  import opened Numerals

  const EOK := 100_000_000
  const MAN := 10_000

  // ---------------------------------------------------------------- the printer

  /** Digits and thousands separators. */
  predicate NumeralChars(s: string) {
    forall c :: c in s ==> IsDigit(c) || c == ','
  }

  function Padded(m: nat): (s: string)
    requires m < 1000
    ensures |s| == 3 && AllDigits(s)
  {
    [DigitChar(m / 100), DigitChar(m / 10 % 10), DigitChar(m % 10)]
  }

  /** The "," format: groups of three digits, counted from the right. */
  function Grouped(n: nat): (s: string)
    ensures s != [] && IsDigit(s[0])
    ensures NumeralChars(s)
  {
    if n < 1000 then Digits(n) else Grouped(n / 1000) + "," + Padded(n % 1000)
  }

  /** _amount_phrase on an integer: no phrase for an amount that is not positive. */
  function AmountPhrase(won: int): (phrase: Option<string>) {
    if won <= 0 then None
    else if won >= EOK && won % EOK == 0 then Some(Digits(won / EOK) + "억원")
    else if won >= MAN && won % MAN == 0 then Some(Grouped(won / MAN) + "만원")
    else Some(Grouped(won) + "원")
  }

  // ---------------------------------------------------------------- the reader

  /** _plain_number's grammar without a fraction: groups of three after commas, or digits only. */
  predicate CommaGroups(s: string) {
    if |s| <= 3 then s != "" && AllDigits(s)
    else s[|s| - 4] == ',' && AllDigits(s[|s| - 3..]) && CommaGroups(s[..|s| - 4])
  }

  predicate GroupedNumber(s: string) {
    CommaGroups(s) || (s != "" && AllDigits(s))
  }

  function WithoutCommas(s: string): (r: string)
    ensures NumeralChars(s) ==> AllDigits(r)
  {
    if s == "" then ""
    else WithoutCommas(s[..|s| - 1]) + (if s[|s| - 1] == ',' then "" else [s[|s| - 1]])
  }

  /** Length of the longest prefix made of digits, and of commas too where they are allowed. */
  function Run(s: string, commas: bool): (n: nat)
    ensures n <= |s|
    ensures forall k :: 0 <= k < n ==> IsDigit(s[k]) || (commas && s[k] == ',')
    ensures n < |s| ==> !IsDigit(s[n]) && !(commas && s[n] == ',')
  {
    if s != "" && (IsDigit(s[0]) || (commas && s[0] == ',')) then 1 + Run(s[1..], commas) else 0
  }

  function SkipSpaces(s: string): (r: string) {
    if s != "" && (s[0] == ' ' || '\t' <= s[0] <= '\r') then SkipSpaces(s[1..]) else s
  }

  /** The unit words and what they multiply by; what is left of the text after the word. */
  function Scale(s: string): (r: (nat, string))
    ensures r.0 > 0
  {
    if s == "" then (1, s)
    else if |s| >= 2 && s[0] == '백' && s[1] == '만' then (1_000_000, s[2..])
    else if s[0] == '조' then (1_000_000_000_000, s[1..])
    else if s[0] == '억' then (EOK, s[1..])
    else if s[0] == '만' then (MAN, s[1..])
    else if s[0] == '천' then (1_000, s[1..])
    else (1, s)
  }

  /** The numeral at the start of a text: how many digits and commas, and how many digits after a
      point. */
  function Numeral(text: string): (lengths: (nat, nat))
    ensures lengths.0 <= |text| && NumeralChars(text[..lengths.0])
    ensures lengths.1 > 0 ==>
              lengths.0 + 1 + lengths.1 <= |text| && AllDigits(text[lengths.0 + 1..lengths.0 + 1 + lengths.1])
  {
    var n := Run(text, true);
    if n < |text| && text[n] == '.' then (n, Run(text[n + 1..], false)) else (n, 0)
  }

  /** All digits of a numeral, as one number. */
  function NumeralValue(literal: string, fraction: string): (n: nat)
    requires NumeralChars(literal) && AllDigits(fraction)
  {
    Value(WithoutCommas(literal) + fraction)
  }

  /** An amount with some decimals, if it is a whole number. */
  function WholeWon(scaled: nat, decimals: nat): (won: Option<nat>) {
    if scaled % Pow10(decimals) == 0 then Some(scaled / Pow10(decimals)) else None
  }

  /** An amount by its numeral, its decimals and what follows: a unit word, perhaps, and 원. */
  function AmountOf(literal: string, fraction: string, rest: string): (won: Option<nat>)
    requires NumeralChars(literal) && AllDigits(fraction)
  {
    var (scale, tail) := Scale(SkipSpaces(rest));
    if SkipSpaces(tail) != "원" || !GroupedNumber(literal) then None
    else WholeWon(NumeralValue(literal, fraction) * scale, |fraction|)
  }

  /** A text that is one amount from its first character to its last: its value in won. */
  function ReadAmount(text: string): (won: Option<nat>) {
    if text == "" || !IsDigit(text[0]) then None
    else
      var (n, k) := Numeral(text);
      if k > 0 then AmountOf(text[..n], text[n + 1..n + 1 + k], text[n + 1 + k..])
      else AmountOf(text[..n], "", text[n..])
  }

  // ---------------------------------------------------------------- printing loses nothing

  lemma LastThreeDigits(n: nat)
    ensures n / 10 / 10 / 10 == n / 1000
    ensures n / 10 % 10 == n % 1000 / 10 % 10 && n / 10 / 10 % 10 == n % 1000 / 100 && n % 10 == n % 1000 % 10
  {
    var (q, r) := (n / 1000, n % 1000);
    assert n == 1000 * q + r;
    assert n / 10 == 100 * q + r / 10;
    assert n / 10 / 10 == 10 * q + r / 100;
  }

  lemma DigitsInThrees(n: nat)
    requires n >= 1000
    ensures Digits(n) == Digits(n / 1000) + Padded(n % 1000)
  {
    LastThreeDigits(n);
    assert Digits(n) == Digits(n / 10) + [DigitChar(n % 10)];
    assert Digits(n / 10) == Digits(n / 10 / 10) + [DigitChar(n / 10 % 10)];
    assert Digits(n / 10 / 10) == Digits(n / 10 / 10 / 10) + [DigitChar(n / 10 / 10 % 10)];
  }

  lemma {:induction false} WithoutCommasAppend(s: string, t: string)
    ensures WithoutCommas(s + t) == WithoutCommas(s) + WithoutCommas(t)
  {
    if t == "" {
      assert s + t == s;
    } else {
      WithoutCommasAppend(s, t[..|t| - 1]);
      assert (s + t)[..|s + t| - 1] == s + t[..|t| - 1];
    }
  }

  lemma {:induction false} DigitsHaveNoCommas(s: string)
    requires AllDigits(s)
    ensures WithoutCommas(s) == s
  {
    if s != "" {
      DigitsHaveNoCommas(s[..|s| - 1]);
      assert s[|s| - 1] in s;
    }
  }

  lemma ShortNumerals(n: nat)
    requires n < 1000
    ensures |Digits(n)| <= 3
  {
    if n >= 10 {
      assert Digits(n) == Digits(n / 10) + [DigitChar(n % 10)];
      if n >= 100 {
        assert Digits(n / 10) == Digits(n / 10 / 10) + [DigitChar(n / 10 % 10)];
      }
    }
  }

  /** The commas are where the reader's grammar wants them, and without them the numeral is left. */
  lemma {:induction false} GroupedIsReadable(n: nat)
    ensures CommaGroups(Grouped(n))
    ensures WithoutCommas(Grouped(n)) == Digits(n)
  {
    if n < 1000 {
      ShortNumerals(n);
      DigitsHaveNoCommas(Digits(n));
    } else {
      var (high, low) := (Grouped(n / 1000), Padded(n % 1000));
      GroupedIsReadable(n / 1000);
      DigitsInThrees(n);
      var s := high + "," + low;
      hide Digits, Grouped, Padded;
      assert s[..|s| - 4] == high && s[|s| - 3..] == low;
      CommaAndDigits(high, low);
    }
  }

  lemma {:induction false} CommaAndDigits(high: string, low: string)
    requires AllDigits(low)
    ensures WithoutCommas(high + "," + low) == WithoutCommas(high) + low
  {
    WithoutCommasAppend(high + ",", low);
    WithoutCommasAppend(high, ",");
    DigitsHaveNoCommas(low);
    LoneComma();
    hide WithoutCommas, AllDigits;
    var kept := WithoutCommas(high);
    assert WithoutCommas(high + ",") == kept + "" == kept;
  }

  lemma LoneComma()
    ensures WithoutCommas(",") == ""
  {
    assert ","[..0] == "";
  }

  lemma {:induction false} RunStops(s: string, tail: string, commas: bool)
    requires forall c :: c in s ==> IsDigit(c) || (commas && c == ',')
    requires tail != "" && !IsDigit(tail[0]) && tail[0] != ','
    ensures Run(s + tail, commas) == |s|
  {
    if s != "" {
      RunStops(s[1..], tail, commas);
      assert (s + tail)[1..] == s[1..] + tail;
    } else {
      assert s + tail == tail;
    }
  }

  /** A readable numeral followed by one of the printer's three endings. */
  lemma {:induction false} NumeralIsRead(literal: string, unit: string, n: nat)
    requires literal != "" && IsDigit(literal[0]) && NumeralChars(literal)
    requires GroupedNumber(literal) && WithoutCommas(literal) == Digits(n)
    requires unit in {"억", "만", ""}
    ensures ReadAmount(literal + (unit + "원")) == Some(n * Scale(unit).0)
  {
    var tail := unit + "원";
    var text := literal + tail;
    RunStops(literal, tail, true);
    assert text[..|literal|] == literal && text[|literal|..] == tail && text[0] == literal[0];
    ValueOfDigits(n);
    assert Digits(n) + "" == Digits(n);
    EndingIsRead(unit);
    assert Pow10(0) == 1;
    hide Value, Digits, WithoutCommas, GroupedNumber, Run, Scale, SkipSpaces, Pow10;
  }

  lemma EndingIsRead(unit: string)
    requires unit in {"억", "만", ""}
    ensures var tail := unit + "원"; tail[0] != '.' && SkipSpaces(tail) == tail && Scale(tail) == (Scale(unit).0, "원")
    ensures SkipSpaces("원") == "원"
  {
    var tail := unit + "원";
    if unit == "" {
      assert tail == "원";
    } else {
      assert tail[0] == unit[0] && tail[1..] == "원" && unit <= tail;
    }
  }

  /** Reading a printed amount gives the same number of won back, comma groups included. */
  lemma PrintedAmountReadsBack(won: int)
    requires won > 0
    ensures AmountPhrase(won).Some? && ReadAmount(AmountPhrase(won).value) == Some(won)
  {
    hide ReadAmount, Digits, Grouped, CommaGroups, WithoutCommas;
    if won >= EOK && won % EOK == 0 {
      var n := won / EOK;
      DigitsHaveNoCommas(Digits(n));
      NumeralIsRead(Digits(n), "억", n);
      assert n * EOK == won && "억" + "원" == "억원";
    } else if won >= MAN && won % MAN == 0 {
      var n := won / MAN;
      GroupedIsReadable(n);
      NumeralIsRead(Grouped(n), "만", n);
      assert n * MAN == won && "만" + "원" == "만원";
    } else {
      GroupedIsReadable(won);
      NumeralIsRead(Grouped(won), "", won);
      assert "" + "원" == "원";
    }
  }

  /** So two different amounts never share a phrase. */
  lemma PhrasesAreDistinct(one: int, other: int)
    requires one > 0 && AmountPhrase(one) == AmountPhrase(other)
    ensures one == other
  {
    hide ReadAmount;
    PrintedAmountReadsBack(one);
    if other > 0 {
      PrintedAmountReadsBack(other);
    }
  }

  // ---------------------------------------------------------------- the estimate

  /** Python's round() of the exact quotient: to the nearest integer, ties to the even one. */
  function RoundHalfEven(n: nat, unit: nat): (q: nat)
    requires unit > 0
  {
    var (q, r) := (n / unit, n % unit);
    if 2 * r < unit then q else if 2 * r > unit then q + 1 else q + q % 2
  }

  function Unit(won: nat): (unit: nat)
    ensures unit > 0
  {
    var length := |Digits(won)|;
    Pow10(if length > 2 then length - 2 else 0)
  }

  /** The amount that _estimate_phrase prints. */
  function Estimate(won: nat): (estimate: nat) {
    RoundHalfEven(won, Unit(won)) * Unit(won)
  }

  function EstimatePhrase(won: int): (phrase: Option<string>) {
    if won <= 0 then None else AmountPhrase(Estimate(won))
  }

  function Abs(n: int): (a: nat) {
    if n < 0 then -n else n
  }

  lemma RoundedIsNear(n: nat, unit: nat)
    requires unit > 0
    ensures 2 * Abs(RoundHalfEven(n, unit) * unit - n) <= unit
  {
    var (q, r) := (n / unit, n % unit);
    assert n == q * unit + r;
    assert (q + 1) * unit == q * unit + unit;
  }

  lemma RoundingIsMonotone(a: nat, b: nat, unit: nat)
    requires unit > 0 && a <= b
    ensures RoundHalfEven(a, unit) <= RoundHalfEven(b, unit)
  {
    var (q, r, p, s) := (a / unit, a % unit, b / unit, b % unit);
    assert a == q * unit + r && b == p * unit + s;
    if q > p {
      TimesGrows(p + 1, q, unit);
    }
  }

  lemma RoundingKeepsMultiples(m: nat, unit: nat)
    requires unit > 0
    ensures RoundHalfEven(m * unit, unit) == m
  {
    assert m * unit / unit == m && m * unit % unit == 0 by { MultipleDivides(m, unit); }
  }

  lemma TimesGrows(a: int, b: int, unit: nat)
    requires a <= b
    ensures a * unit <= b * unit
    ensures (b + 1) * unit == b * unit + unit && (b - 1) * unit == b * unit - unit
    ensures (a + 1) * unit == a * unit + unit && (a - 1) * unit == a * unit - unit
  {
  }

  lemma MultipleDivides(m: nat, unit: nat)
    requires unit > 0
    ensures m * unit / unit == m && m * unit % unit == 0
  {
    var (q, r) := (m * unit / unit, m * unit % unit);
    if m > q {
      TimesGrows(q + 1, m, unit);
    } else if m < q {
      TimesGrows(m, q - 1, unit);
    }
  }

  /** An amount lies between 10 and 100 of its units, or is below 100 and its unit is one. */
  lemma UnitFits(won: nat)
    requires won > 0
    ensures won < 100 * Unit(won)
    ensures Unit(won) == 1 || 10 * Unit(won) <= won
    ensures |Digits(won)| <= 2 ==> Unit(won) == 1
    ensures |Digits(won)| >= 2 ==> Unit(won) == Pow10(|Digits(won)| - 2)
  {
    LengthOfDigits(won);
    var length := |Digits(won)|;
    hide Digits;
    if length >= 2 {
      assert Pow10(length) == 10 * Pow10(length - 1) && Pow10(length - 1) == 10 * Pow10(length - 2);
    } else {
      assert Pow10(1) == 10;
    }
  }

  /** The estimate is the nearest multiple of its unit ... */
  lemma EstimateIsNearest(won: nat, m: nat)
    ensures Abs(Estimate(won) - won) <= Abs(m * Unit(won) - won)
  {
    var (unit, q) := (Unit(won), RoundHalfEven(won, Unit(won)));
    hide Unit, RoundHalfEven;
    RoundedIsNear(won, unit);
    if m > q {
      TimesGrows(q + 1, m, unit);
      TimesGrows(q, q, unit);
    } else if m < q {
      TimesGrows(m, q - 1, unit);
      TimesGrows(q, q, unit);
    }
  }

  /** ... positive, and within five per cent of the amount. */
  lemma EstimateIsClose(won: nat)
    requires won > 0
    ensures Estimate(won) > 0
    ensures 20 * Abs(Estimate(won) - won) <= won
  {
    UnitFits(won);
    RoundedIsNear(won, Unit(won));
    hide Unit;
    if Unit(won) == 1 {
      RoundingKeepsMultiples(won, 1);
    }
  }

  /** Estimating never swaps two amounts, across a change of unit either. */
  lemma EstimateIsMonotone(a: nat, b: nat)
    requires 0 < a <= b
    ensures Estimate(a) <= Estimate(b)
  {
    var (u, v) := (Unit(a), Unit(b));
    UnitFits(a);
    UnitFits(b);
    UnitGrows(a, b);
    hide Unit, RoundHalfEven;
    if u == v {
      RoundingIsMonotone(a, b, u);
      TimesGrows(RoundHalfEven(a, u), RoundHalfEven(b, u), u);
    } else {
      RoundingIsMonotone(a, 100 * u, u);
      RoundingKeepsMultiples(100, u);
      RoundingIsMonotone(10 * v, b, v);
      RoundingKeepsMultiples(10, v);
      TimesGrows(RoundHalfEven(a, u), 100, u);
      TimesGrows(10, RoundHalfEven(b, v), v);
    }
  }

  lemma UnitGrows(a: nat, b: nat)
    requires 0 < a <= b
    ensures Unit(a) == Unit(b) || (10 * Unit(a) <= Unit(b) && 10 * Unit(b) <= b)
  {
    LengthOfDigits(a);
    LengthOfDigits(b);
    UnitFits(b);
    var (k, l) := (|Digits(a)|, |Digits(b)|);
    hide Digits;
    if l < k {
      Pow10Grows(l, k - 1);
    } else if l > k && l > 2 {
      Pow10Grows(if k > 2 then k - 1 else 1, l - 2);
    }
  }

  lemma {:induction false} Pow10Grows(a: nat, b: nat)
    requires a <= b
    ensures Pow10(a) <= Pow10(b)
  {
    if a < b {
      Pow10Grows(a, b - 1);
    }
  }

  /** Estimating an estimate changes nothing, also where 99.5 units were carried to 100. */
  lemma EstimateIsIdempotent(won: nat)
    requires won > 0
    ensures Estimate(won) > 0 && Estimate(Estimate(won)) == Estimate(won)
  {
    var unit := Unit(won);
    var q := RoundHalfEven(won, unit);
    UnitFits(won);
    EstimateIsClose(won);
    RoundingIsMonotone(won, 100 * unit, unit);
    RoundingKeepsMultiples(100, unit);
    var k: nat := if |Digits(won)| > 2 then |Digits(won)| - 2 else 0;
    if k == 0 {
      RoundingKeepsMultiples(won, 1);
    } else {
      RoundingIsMonotone(10 * unit, won, unit);
      RoundingKeepsMultiples(10, unit);
      assert 10 <= q <= 100;
      hide RoundHalfEven;
      LengthOf(q, k);
      if q == 100 {
        assert q * unit == 10 * Unit(q * unit);
        RoundingKeepsMultiples(10, Unit(q * unit));
      } else {
        RoundingKeepsMultiples(q, unit);
      }
    }
  }

  /** The unit of a number of the form q * 10^k with q between 10 and 100. */
  lemma LengthOf(q: nat, k: nat)
    requires 10 <= q <= 100
    ensures Unit(q * Pow10(k)) == if q == 100 then Pow10(k + 1) else Pow10(k)
  {
    var (n, p) := (q * Pow10(k), Pow10(k));
    TimesGrows(10, q, p);
    TimesGrows(q, if q == 100 then 100 else 99, p);
    LengthOfDigits(n);
    var l := |Digits(n)|;
    hide Digits;
    assert Pow10(k + 1) == 10 * p && Pow10(k + 2) == 10 * Pow10(k + 1) && Pow10(k + 3) == 10 * Pow10(k + 2);
    hide Pow10;
    if l <= k + 1 {
      Pow10Grows(l, k + 1);
    } else if l == k + 2 {
      assert q < 100;
    } else if l >= k + 4 {
      Pow10Grows(k + 3, l - 1);
    } else {
      assert q == 100;
    }
  }

  /** What a reader of the estimate's phrase gets is the estimate. */
  lemma EstimatePhraseReadsBack(won: int)
    requires won > 0
    ensures EstimatePhrase(won).Some? && ReadAmount(EstimatePhrase(won).value) == Some(Estimate(won))
  {
    EstimateIsClose(won);
    PrintedAmountReadsBack(Estimate(won));
  }

  // ---------------------------------------------------------------- integers through float()

  function Pow2(k: nat): (p: nat)
    ensures p > 0
  {
    if k == 0 then 1 else 2 * Pow2(k - 1)
  }

  /** The length of a number in binary. */
  function Bits(n: nat): (bits: nat) {
    if n == 0 then 0 else 1 + Bits(n / 2)
  }

  /** What the last of 53 significant bits is worth. */
  function Ulp(n: nat): (ulp: nat)
    ensures ulp > 0
  {
    Pow2(if Bits(n) > 53 then Bits(n) - 53 else 0)
  }

  /** float() of an integer: the nearest number with 53 significant bits, ties to the even one. */
  function Double(n: nat): (d: nat) {
    RoundHalfEven(n, Ulp(n)) * Ulp(n)
  }

  /** _finite_won on an integer; above the range of a double float() raises. */
  function FiniteWon(value: int): (won: Option<nat>) {
    if value <= 0 || Bits(Double(value)) > 1024 then None else Some(Double(value))
  }

  /** _amount_phrase, conversion included. */
  function IntegerPhrase(value: int): (phrase: Option<string>) {
    match FiniteWon(value)
    case None => None
    case Some(won) => AmountPhrase(won)
  }

  lemma {:induction false} BitsBound(n: nat)
    ensures n < Pow2(Bits(n))
    ensures n > 0 ==> Bits(n) > 0 && Pow2(Bits(n) - 1) <= n
  {
    if n > 0 {
      BitsBound(n / 2);
    }
  }

  lemma {:induction false} Pow2Grows(a: nat, b: nat)
    requires a <= b
    ensures Pow2(a) <= Pow2(b)
  {
    if a < b {
      Pow2Grows(a, b - 1);
    }
  }

  lemma UlpFits(n: nat)
    requires n > 0
    ensures Ulp(n) <= n
  {
    BitsBound(n);
    if Bits(n) > 53 {
      Pow2Grows(Bits(n) - 53, Bits(n) - 1);
    }
  }

  /** A double keeps an integer exactly when 53 significant bits are all it has. */
  lemma DoubleKeepsExactly(n: nat)
    requires n > 0
    ensures Double(n) == n <==> n % Ulp(n) == 0
    ensures Double(n) > 0
  {
    UlpFits(n);
    var ulp := Ulp(n);
    hide Ulp, Bits;
    var (q, r) := (n / ulp, n % ulp);
    assert n == q * ulp + r;
    MultipleDivides(RoundHalfEven(n, ulp), ulp);
    TimesGrows(1, RoundHalfEven(n, ulp), ulp);
  }

  /** The phrase of an integer is read back as its double ... */
  lemma IntegerPhraseReadsBack(value: int)
    requires value > 0
    ensures match FiniteWon(value)
            case None => IntegerPhrase(value).None?
            case Some(won) => IntegerPhrase(value).Some? && ReadAmount(IntegerPhrase(value).value) == Some(won)
  {
    hide Double, Bits, ReadAmount, AmountPhrase;
    DoubleKeepsExactly(value);
    PrintedAmountReadsBack(Double(value));
  }

  /** ... so nothing is lost exactly where 53 significant bits are enough, in the range of a double ... */
  lemma IntegersPrintLosslesslyExactly(value: int)
    requires value > 0
    ensures IntegerPhrase(value).Some? && ReadAmount(IntegerPhrase(value).value) == Some(value)
            <==> value % Ulp(value) == 0 && Bits(value) <= 1024
  {
    IntegerPhraseReadsBack(value);
    DoubleKeepsExactly(value);
    hide Double, Bits, Ulp, ReadAmount, IntegerPhrase;
  }

  lemma FewBits(n: nat, k: nat)
    requires 0 < n < Pow2(k)
    ensures Bits(n) <= k
  {
    BitsBound(n);
    hide Bits, Pow2;
    if k < Bits(n) {
      Pow2Grows(k, Bits(n) - 1);
    }
  }

  /** ... and that is so for every amount below 2^53. */
  lemma SmallIntegersPrintLosslessly(value: int)
    requires 0 < value < Pow2(53)
    ensures IntegerPhrase(value).Some? && ReadAmount(IntegerPhrase(value).value) == Some(value)
  {
    IntegersPrintLosslesslyExactly(value);
    hide IntegerPhrase, ReadAmount, Pow2, Bits;
    FewBits(value, 53);
    UnitUlp(value);
  }

  lemma UnitUlp(n: nat)
    requires Bits(n) <= 53
    ensures Ulp(n) == 1
  {
    hide Bits;
  }
}
