/** The integer branch of `format` in gui.py: an integer-valued amount is
    written in decimal with a comma between groups of three digits, and
    export_pdf reads a table cell back by deleting the commas and parsing
    the number. */
module Formatting {
  import opened Wrappers

  predicate IsDigit(c: char)
  {
    '0' <= c <= '9'
  }

  predicate AllDigits(s: string)
  {
    forall i :: 0 <= i < |s| ==> IsDigit(s[i])
  }

  function DigitChar(d: nat): (c: char)
    requires d < 10
    ensures IsDigit(c)
  {
    ('0' as int + d) as char
  }

  function DigitValue(c: char): (d: nat)
    requires IsDigit(c)
    ensures d < 10 && DigitChar(d) == c
  {
    c as int - '0' as int
  }

  /** Decimal digits of `n`, most significant first, with no leading zero. */
  function Digits(n: nat): (s: string)
    ensures |s| > 0 && AllDigits(s)
    ensures s[0] == '0' <==> n == 0
    ensures n < 10 <==> |s| == 1
  {
    if n < 10 then [DigitChar(n)] else Digits(n / 10) + [DigitChar(n % 10)]
  }

  /** The number a string of decimal digits denotes. */
  function DigitsValue(s: string): nat
    requires AllDigits(s)
  {
    if s == [] then 0 else DigitsValue(s[..|s| - 1]) * 10 + DigitValue(s[|s| - 1])
  }

  lemma {:induction false} DigitsValueOfDigits(n: nat)
    ensures DigitsValue(Digits(n)) == n
  {
    if n >= 10 {
      var s := Digits(n);
      assert s[..|s| - 1] == Digits(n / 10);
      DigitsValueOfDigits(n / 10);
    }
  }

  /** Commas inserted between groups of three digits, counted from the right. */
  function Group(ds: string): (g: string)
    ensures |ds| > 0 ==> |g| > 0 && g[0] == ds[0]
  {
    if |ds| <= 3 then ds else Group(ds[..|ds| - 3]) + "," + ds[|ds| - 3..]
  }

  /** Python's `f"{n:,}"` for an integer `n`. */
  function FormatInteger(n: int): (s: string)
    ensures |s| > 0
    ensures s[0] == '-' <==> n < 0
  {
    if n < 0 then "-" + Group(Digits(-n)) else Group(Digits(n))
  }

  /** `text.replace(",", "")`. */
  function StripCommas(s: string): (r: string)
    ensures ',' !in r
    ensures ',' !in s ==> r == s
  {
    if s == [] then [] else (if s[0] == ',' then [] else [s[0]]) + StripCommas(s[1..])
  }

  /** The integer literals `float()` accepts: an optional minus sign, then digits. */
  function ParseInteger(s: string): (r: Option<int>)
    ensures ',' in s ==> r.None?
    ensures |s| > 0 && AllDigits(s) ==> r == Some(DigitsValue(s))
    ensures r.Some? ==> |s| > 0 && (r.value < 0 ==> s[0] == '-')
  {
    if |s| > 1 && s[0] == '-' && AllDigits(s[1..]) then Some(0 - DigitsValue(s[1..]) as int)
    else if |s| > 0 && AllDigits(s) then Some(DigitsValue(s))
    else None
  }

  /** What export_pdf reads back from a result-table cell: a cell holding
      a formatted integer reads back as that integer. */
  function CellValue(cell: string): (r: Option<int>)
    ensures forall n :: cell == FormatInteger(n) ==> r == Some(n)
  {
    FormattedCellReadsBack(cell);
    ParseInteger(StripCommas(cell))
  }

  lemma FormattedCellReadsBack(cell: string)
    ensures forall n :: cell == FormatInteger(n) ==> ParseInteger(StripCommas(cell)) == Some(n)
  {
    forall n | cell == FormatInteger(n)
      ensures ParseInteger(StripCommas(cell)) == Some(n)
    {
      FormatRoundTrip(n);
    }
  }

  /** A run of one to three digits, or a grouped string, a comma and three digits. */
  predicate WellGrouped(s: string)
  {
    if |s| <= 3 then |s| > 0 && AllDigits(s)
    else |s| >= 5 && s[|s| - 4] == ',' && AllDigits(s[|s| - 3..]) && WellGrouped(s[..|s| - 4])
  }

  lemma {:induction false} StripCommasConcat(a: string, b: string)
    ensures StripCommas(a + b) == StripCommas(a) + StripCommas(b)
  {
    if a == [] {
      assert a + b == b;
    } else {
      assert (a + b)[0] == a[0] && (a + b)[1..] == a[1..] + b;
      StripCommasConcat(a[1..], b);
    }
  }

  lemma {:induction false} StripCommasOfDigits(ds: string)
    requires AllDigits(ds)
    ensures StripCommas(ds) == ds
  {
    assert ',' !in ds by {
      forall i | 0 <= i < |ds| ensures ds[i] != ',' {
        assert IsDigit(ds[i]);
      }
    }
  }

  lemma {:induction false} StripCommasAroundComma(g: string, back: string)
    ensures StripCommas(g + "," + back) == StripCommas(g) + StripCommas(back)
  {
    var comma := ",";
    assert StripCommas(comma) == [] by {
      assert comma[0] == ',' && comma[1..] == [];
    }
    StripCommasConcat(g + comma, back);
    StripCommasConcat(g, comma);
  }

  /** Deleting the commas from a grouped digit string gives the digits back. */
  lemma {:induction false} StripCommasOfGroup(ds: string)
    requires AllDigits(ds)
    ensures StripCommas(Group(ds)) == ds
  {
    if |ds| <= 3 {
      StripCommasOfDigits(ds);
    } else {
      var front, back := ds[..|ds| - 3], ds[|ds| - 3..];
      assert AllDigits(front) && AllDigits(back);
      var g := Group(front);
      assert Group(ds) == g + "," + back;
      StripCommasOfGroup(front);
      StripCommasOfDigits(back);
      StripCommasAroundComma(g, back);
      assert front + back == ds;
    }
  }

  /** Grouping a non-empty run of digits gives groups of three after a
      leading group of one to three. */
  lemma {:induction false} GroupIsWellGrouped(ds: string)
    requires |ds| > 0 && AllDigits(ds)
    ensures WellGrouped(Group(ds))
  {
    if |ds| > 3 {
      var front := ds[..|ds| - 3];
      GroupIsWellGrouped(front);
      var g := Group(ds);
      assert g[..|g| - 4] == Group(front);
      assert g[|g| - 3..] == ds[|ds| - 3..];
    }
  }

  /** The shape of a formatted integer: an optional minus sign, then the
      digits of its magnitude grouped in threes by commas. */
  lemma FormatIntegerShape(n: int)
    ensures n < 0 ==> FormatInteger(n)[0] == '-' && WellGrouped(FormatInteger(n)[1..])
    ensures n >= 0 ==> WellGrouped(FormatInteger(n))
    ensures n < 0 ==> StripCommas(FormatInteger(n)[1..]) == Digits(-n)
    ensures n >= 0 ==> StripCommas(FormatInteger(n)) == Digits(n)
  {
    var m := if n < 0 then -n else n;
    GroupIsWellGrouped(Digits(m));
    StripCommasOfGroup(Digits(m));
    if n < 0 {
      assert FormatInteger(n)[1..] == Group(Digits(m));
    }
  }

  /** A minus sign before a digit string parses as the negated value. */
  lemma ParseNegative(ds: string)
    requires |ds| > 0 && AllDigits(ds)
    ensures ParseInteger("-" + ds) == Some(0 - DigitsValue(ds) as int)
  {
    var s := "-" + ds;
    assert s[0] == '-' && s[1..] == ds;
  }

  /** Deleting the commas from a formatted integer and parsing the rest
      gives the integer back. */
  lemma FormatRoundTrip(n: int)
    ensures ParseInteger(StripCommas(FormatInteger(n))) == Some(n)
  {
    var m: nat := if n < 0 then -n else n;
    var ds := Digits(m);
    StripCommasOfGroup(ds);
    DigitsValueOfDigits(m);
    if n < 0 {
      StripCommasConcat("-", Group(ds));
      assert StripCommas("-") == "-";
      assert StripCommas(FormatInteger(n)) == "-" + ds;
      ParseNegative(ds);
    }
  }
}
