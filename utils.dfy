/**
 * Day arithmetic, relative-day labels, date formatting and the budget
 * comparison of lib/utils.ts.
 */
module Utils {
  import opened Types

  // ---------------------------------------------------------------------
  // Decimal digits: what a template literal `${n}` writes for an integer,
  // and what `parseInt` reads back from a run of digits.
  // ---------------------------------------------------------------------

  predicate IsDigit(c: char)
  {
    '0' <= c <= '9'
  }

  predicate AllDigits(s: string)
  {
    forall i :: 0 <= i < |s| ==> IsDigit(s[i])
  }

  function DigitChar(d: nat): (c: char)
    requires d < 10
    ensures IsDigit(c)
  {
    ['0', '1', '2', '3', '4', '5', '6', '7', '8', '9'][d]
  }

  function DigitValue(c: char): (d: nat)
    requires IsDigit(c)
    ensures d < 10 && DigitChar(d) == c
  {
    (c as int - '0' as int) as nat
  }

  /** A canonical decimal numeral: a non-empty run of digits with no leading zero. */
  predicate IsDecimal(s: string)
  {
    |s| >= 1 && AllDigits(s) && (|s| > 1 ==> s[0] != '0')
  }

  /** A canonical signed numeral: a canonical numeral, or '-' before a non-zero one. */
  predicate IsSignedDecimal(s: string)
  {
    IsDecimal(s) || (|s| >= 2 && s[0] == '-' && IsDecimal(s[1..]) && s[1..] != "0")
  }

  /** The decimal form of `n`: digits only, never empty, no leading zero. */
  function NatToString(n: nat): (s: string)
    ensures IsDecimal(s)
    ensures n < 10 <==> |s| == 1
  {
    if n < 10 then [DigitChar(n)] else NatToString(n / 10) + [DigitChar(n % 10)]
  }

  /** The decimal form of an integer, with a leading '-' when negative. */
  function IntToString(n: int): (s: string)
    ensures |s| >= 1
    ensures n < 0 <==> s[0] == '-'
    ensures IsSignedDecimal(s)
  {
    if n < 0 then
      var digits := NatToString(-n);
      NatToStringRoundTrip(-n);
      assert DigitsValue("0"[..0]) == 0;
      assert ("-" + digits)[1..] == digits;
      "-" + digits
    else NatToString(n)
  }

  /** The value of a run of digits, most significant first. */
  function DigitsValue(s: string): nat
    requires AllDigits(s)
  {
    if s == [] then 0 else DigitsValue(s[..|s| - 1]) * 10 + DigitValue(s[|s| - 1])
  }

  /** Reads a non-empty run of decimal digits; anything else does not parse. */
  function ParseNat(s: string): (r: Option<nat>)
    ensures r.Some? <==> |s| >= 1 && AllDigits(s)
  {
    if |s| >= 1 && AllDigits(s) then Some(DigitsValue(s)) else None
  }

  /** Reads an optionally '-'-signed run of decimal digits. */
  function ParseInt(s: string): (r: Option<int>)
    ensures |s| >= 1 && AllDigits(s) ==> r == Some(DigitsValue(s) as int)
    ensures |s| >= 2 && s[0] == '-' && AllDigits(s[1..]) ==> r == Some(-(DigitsValue(s[1..]) as int))
    ensures r.Some? <==> (|s| >= 1 && AllDigits(s)) || (|s| >= 2 && s[0] == '-' && AllDigits(s[1..]))
  {
    if s != [] && s[0] == '-' then
      match ParseNat(s[1..])
      case Some(n) => Some(-(n as int))
      case None => None
    else
      match ParseNat(s)
      case Some(n) => Some(n as int)
      case None => None
  }

  lemma {:induction false} DigitsValueOfNatToString(n: nat)
    ensures DigitsValue(NatToString(n)) == n
    decreases n
  {
    var s := NatToString(n);
    if n < 10 {
      assert s[..0] == [];
    } else {
      var prefix := NatToString(n / 10);
      assert s == prefix + [DigitChar(n % 10)];
      assert s[..|s| - 1] == prefix;
      DigitsValueOfNatToString(n / 10);
    }
  }

  /** Writing a count in decimal and reading it back gives the count. */
  lemma NatToStringRoundTrip(n: nat)
    ensures ParseNat(NatToString(n)) == Some(n)
  {
    DigitsValueOfNatToString(n);
  }

  /** Writing an integer in decimal and reading it back gives the integer. */
  lemma IntToStringRoundTrip(n: int)
    ensures ParseInt(IntToString(n)) == Some(n)
  {
    var s := IntToString(n);
    if n < 0 {
      var digits := NatToString(-n);
      assert s == "-" + digits;
      assert s[1..] == digits;
      NatToStringRoundTrip(-n);
      assert ParseNat(s[1..]) == Some(-n);
    } else {
      var digits := NatToString(n);
      assert s == digits;
      assert IsDigit(s[0]);
      NatToStringRoundTrip(n);
    }
  }

  // ---------------------------------------------------------------------
  // getDaysUntil / formatDaysUntil
  // ---------------------------------------------------------------------

  /**
   * Days from `today` to `target`, both already normalised to midnight and
   * given as day numbers.
   */
  function DaysUntil(target: int, today: int): (days: int)
    ensures today + days == target
  {
    target - today
  }

  /** A date is zero days away from itself. */
  lemma DaysUntilSameDay(d: int)
    ensures DaysUntil(d, d) == 0
  {
  }

  /** Each day that passes brings a fixed target exactly one day closer. */
  lemma DaysUntilNextDay(target: int, today: int)
    ensures DaysUntil(target, today + 1) == DaysUntil(target, today) - 1
  {
  }

  /**
   * The relative-day label: "D-" and the count when `days` is not negative,
   * the fixed label "D+0" once the day has passed.
   */
  function FormatDaysUntil(days: int): (text: string)
    ensures days < 0 ==> text == "D+0"
    ensures days >= 0 ==> |text| >= 3 && text[..2] == "D-" && IsDecimal(text[2..]) && ParseNat(text[2..]) == Some(days)
  {
    if days < 0 then "D+0"
    else
      var digits := NatToString(days);
      NatToStringRoundTrip(days);
      assert ("D-" + digits)[2..] == digits;
      "D-" + digits
  }

  /** Distinct non-negative counts get distinct labels. */
  lemma FormatDaysUntilInjective(a: int, b: int)
    requires a >= 0 && b >= 0 && a != b
    ensures FormatDaysUntil(a) != FormatDaysUntil(b)
  {
    var la, lb := FormatDaysUntil(a), FormatDaysUntil(b);
    assert ParseNat(la[2..]) != ParseNat(lb[2..]);
  }

  // ---------------------------------------------------------------------
  // formatDate
  // ---------------------------------------------------------------------

  /** The text left-padded with '0' to two characters; longer text is kept as it is. */
  function PadStart2(s: string): (r: string)
    ensures |s| >= 2 ==> r == s
    ensures |s| < 2 ==> |r| == 2 && r[2 - |s|..] == s && forall i :: 0 <= i < 2 - |s| ==> r[i] == '0'
  {
    if |s| >= 2 then s else seq(2 - |s|, _ => '0') + s
  }

  /** A number below 100, padded to two digits, reads back as itself. */
  lemma {:induction false} PadStart2RoundTrip(n: nat)
    requires n < 100
    ensures |PadStart2(NatToString(n))| == 2
    ensures ParseNat(PadStart2(NatToString(n))) == Some(n)
  {
    var s := NatToString(n);
    NatToStringRoundTrip(n);
    if n < 10 {
      var r := PadStart2(s);
      assert r == ['0', DigitChar(n)];
      assert r[..1] == ['0'] && r[..1][..0] == [];
      assert DigitsValue(r) == n;
    } else {
      assert NatToString(n / 10) == [DigitChar(n / 10)];
    }
  }

  /** Where the parts of `y-mm-dd` sit, for two-character `mm` and `dd`. */
  lemma DateTextParts(y: string, mm: string, dd: string)
    requires |mm| == 2 && |dd| == 2
    ensures var r := y + "-" + mm + "-" + dd;
      && |r| == |y| + 6
      && r[..|y|] == y && r[|y|] == '-' && r[|y| + 3] == '-'
      && r[|y| + 1..|y| + 3] == mm && r[|y| + 4..] == dd
  {
  }

  /**
   * `year-MM-DD` for a calendar date whose month is counted from 0 (as a
   * JavaScript Date reports it).
   */
  function FormatDate(year: int, month0: int, day: int): (r: string)
    requires 0 <= month0 < 12 && 1 <= day <= 31
    ensures var y := IntToString(year);
      && |r| == |y| + 6
      && ParseInt(r[..|y|]) == Some(year)
      && r[|y|] == '-' && r[|y| + 3] == '-'
      && ParseNat(r[|y| + 1..|y| + 3]) == Some(month0 + 1)
      && ParseNat(r[|y| + 4..]) == Some(day)
  {
    var y := IntToString(year);
    var mm := PadStart2(NatToString(month0 + 1));
    var dd := PadStart2(NatToString(day));
    IntToStringRoundTrip(year);
    PadStart2RoundTrip(month0 + 1);
    PadStart2RoundTrip(day);
    DateTextParts(y, mm, dd);
    y + "-" + mm + "-" + dd
  }

  // ---------------------------------------------------------------------
  // compareBudget / createMonthlyBudget
  // ---------------------------------------------------------------------

  /** The categories compared, in output order; communication is not one of them. */
  const ComparedCategories: seq<BudgetField> := [Rent, Food, Transport, Other]

  /** One comparison row: the difference and, against a positive reference, the percentage. */
  function CompareValues(category: BudgetField, myVal: real, benchVal: real): (r: ComparisonResult)
    ensures r.category == category && r.myVal == myVal && r.benchVal == benchVal
    ensures r.benchVal + r.diff == r.myVal
    ensures benchVal > 0.0 ==> r.diffPct * benchVal == r.diff * 100.0
    ensures benchVal <= 0.0 ==> r.diffPct == 0.0
  {
    var diff := myVal - benchVal;
    var diffPct := if benchVal > 0.0 then (diff / benchVal) * 100.0 else 0.0;
    ComparisonResult(category, myVal, benchVal, diff, diffPct)
  }

  /** Compares a monthly budget with a benchmark, category by category. */
  function CompareBudget(my: MonthlyBudget, bench: BenchmarkData): (rows: seq<ComparisonResult>)
    ensures |rows| == |ComparedCategories| == 4
    ensures forall i :: 0 <= i < 4 ==>
      var c := ComparedCategories[i];
      && rows[i].category == c
      && rows[i].myVal == BudgetValue(my, c)
      && rows[i].benchVal == BenchmarkValue(bench, c)
      && rows[i].diff == rows[i].myVal - rows[i].benchVal
      && (rows[i].benchVal > 0.0 ==> rows[i].diffPct * rows[i].benchVal == rows[i].diff * 100.0)
      && (rows[i].benchVal <= 0.0 ==> rows[i].diffPct == 0.0)
  {
    seq(4, i requires 0 <= i < 4 =>
      var c := ComparedCategories[i];
      CompareValues(c, BudgetValue(my, c), BenchmarkValue(bench, c)))
  }

  /** Against a positive reference the percentage has the sign of the difference. */
  lemma DiffPctHasSignOfDiff(r: ComparisonResult)
    requires r.benchVal > 0.0 && r.diffPct * r.benchVal == r.diff * 100.0
    ensures r.diffPct > 0.0 <==> r.diff > 0.0
    ensures r.diffPct < 0.0 <==> r.diff < 0.0
    ensures r.diffPct == 0.0 <==> r.diff == 0.0
  {
    if r.diff > 0.0 {
      assert r.diffPct * r.benchVal > 0.0;
    } else if r.diff < 0.0 {
      assert r.diffPct * r.benchVal < 0.0;
    }
  }

  /** The communication field of the budget never reaches the comparison. */
  lemma CompareBudgetIgnoresCommunication(my: MonthlyBudget, bench: BenchmarkData, communication: real)
    ensures CompareBudget(my.(communication := communication), bench) == CompareBudget(my, bench)
  {
    var a, b := CompareBudget(my.(communication := communication), bench), CompareBudget(my, bench);
    assert forall i :: 0 <= i < 4 ==> a[i] == b[i];
  }

  /** A budget equal to the benchmark on the compared fields differs by nothing. */
  lemma CompareBudgetWithItself(my: MonthlyBudget, bench: BenchmarkData)
    requires my.rent == bench.rent && my.food == bench.food
    requires my.transport == bench.transport && my.other == bench.other
    ensures forall row :: row in CompareBudget(my, bench) ==> row.diff == 0.0 && row.diffPct == 0.0
  {
    var rows := CompareBudget(my, bench);
    forall row | row in rows
      ensures row.diff == 0.0 && row.diffPct == 0.0
    {
      var i :| 0 <= i < 4 && rows[i] == row;
      if row.benchVal > 0.0 {
        DiffPctHasSignOfDiff(row);
      }
    }
  }

  /** The worked example: 1300/450/150/250 against 1200/400/150/250. */
  lemma CompareBudgetExample()
    ensures var rows := CompareBudget(MonthlyBudget(1300.0, 450.0, 150.0, 0.0, 250.0),
                                     BenchmarkData(1200.0, 400.0, 150.0, 250.0));
      && rows[0].diff == 100.0 && rows[0].diffPct == 25.0 / 3.0
      && rows[1].diff == 50.0 && rows[1].diffPct == 12.5
      && rows[2].diff == 0.0 && rows[2].diffPct == 0.0
      && rows[3].diff == 0.0 && rows[3].diffPct == 0.0
  {
  }

  /** Builds a monthly budget from its five amounts, taken positionally. */
  function CreateMonthlyBudget(rent: real, food: real, transport: real, communication: real, other: real): (b: MonthlyBudget)
    ensures BudgetValues(b) == [rent, food, transport, communication, other]
  {
    MonthlyBudget(rent, food, transport, communication, other)
  }
}
