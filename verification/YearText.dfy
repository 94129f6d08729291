/** How years are written: the specifiers %Y, %C and %y. */
module YearText {
  import opened Decimal
  import opened CppInt
  import opened Sequences

  function Zeros(n: nat): string {
    if n == 0 then "" else "0" + Zeros(n - 1)
  }

  function TwoDigits(v: nat): string
    requires v < 100
  {
    [Digit(v / 10), Digit(v % 10)]
  }

  // A numeral padded with zeros to a width.
  function Padded(n: nat, width: nat): string {
    if |Dec(n)| >= width then Dec(n) else Zeros(width - |Dec(n)|) + Dec(n)
  }

  // The year in at least four characters, more only if necessary.
  function YearOf(year: int): string {
    if year < 0 then "-" + Padded(-year, 3) else Padded(year, 4)
  }

  lemma {:induction false} LastTwoDigits(n: nat)
    requires n >= 10
    ensures Dec(n) == (if n >= 100 then Dec(n / 100) else "") + TwoDigits(n % 100)
  {
    assert n / 10 / 10 == n / 100 && n / 10 % 10 == n % 100 / 10 && n % 100 % 10 == n % 10;
    if n >= 100 {
      assert Dec(n) == Dec(n / 100) + [Digit(n / 10 % 10)] + [Digit(n % 10)];
    } else {
      assert Dec(n) == Dec(n / 10) + [Digit(n % 10)];
    }
  }

  lemma {:induction false} ZerosLength(n: nat)
    ensures |Zeros(n)| == n
  {
    if n > 0 {
      ZerosLength(n - 1);
    }
  }

  lemma PaddedLength(n: nat, width: nat)
    ensures |Padded(n, width)| >= width && |Padded(n, width)| >= |Dec(n)| >= 1
  {
    ZerosLength(if |Dec(n)| >= width then 0 else width - |Dec(n)|);
    DecReadsBack(n);
  }

  lemma DecLength(n: nat)
    ensures |Dec(n)| >= 1
    ensures n < 10 ==> |Dec(n)| == 1
    ensures 10 <= n < 100 ==> |Dec(n)| == 2
    ensures 100 <= n < 1000 ==> |Dec(n)| == 3
    ensures n >= 100 ==> |Dec(n)| == |Dec(n / 100)| + 2
  {
    DecReadsBack(n);
    if n >= 10 {
      LastTwoDigits(n);
    }
    if n >= 100 {
      DecReadsBack(n / 100);
    }
  }

  // Dropping two digits of a padded numeral is dividing by 100, at two characters less.
  lemma PaddedSplit(n: nat, width: nat)
    requires width == 3 || width == 4
    ensures Padded(n, width) == Padded(n / 100, width - 2) + TwoDigits(n % 100)
  {
    if n >= 10 {
      LastTwoDigits(n);
    }
    DecLength(n);
    DecLength(n / 100);
    assert Zeros(1) == "0" + Zeros(0) && Zeros(2) == "0" + Zeros(1) && Zeros(3) == "0" + Zeros(2);
    if n < 10 {
      assert TwoDigits(n) == "0" + Dec(n) && Dec(0) == "0";
    } else if n < 100 {
      assert Dec(0) == "0";
    }
  }

  lemma {:induction false} LeadingZero(s: string)
    requires AllDigits(s)
    ensures AllDigits("0" + s) && Value("0" + s) == Value(s)
  {
    if s == "" {
      assert ("0" + s)[..0] == "";
    } else {
      assert ("0" + s)[..|s|] == "0" + s[..|s| - 1];
      LeadingZero(s[..|s| - 1]);
    }
  }

  lemma {:induction false} ZerosChangeNothing(k: nat, s: string)
    requires AllDigits(s)
    ensures AllDigits(Zeros(k) + s) && Value(Zeros(k) + s) == Value(s)
  {
    if k == 0 {
      assert Zeros(0) + s == s;
    } else {
      ZerosChangeNothing(k - 1, s);
      assert Zeros(k) + s == "0" + (Zeros(k - 1) + s);
      LeadingZero(Zeros(k - 1) + s);
    }
  }

  lemma PaddedReadsBack(n: nat, width: nat)
    ensures |Padded(n, width)| >= width && AllDigits(Padded(n, width)) && Value(Padded(n, width)) == n
  {
    PaddedLength(n, width);
    DecReadsBack(n);
    if |Dec(n)| < width {
      ZerosChangeNothing(width - |Dec(n)|, Dec(n));
    }
  }

  lemma MinusReadsBack(n: nat, width: nat)
    ensures var s := "-" + Padded(n, width);
            |s| >= width + 1 && s[0] == '-' && AllDigits(s[1..]) && Value(s[1..]) == n
  {
    PaddedReadsBack(n, width);
    assert ("-" + Padded(n, width))[1..] == Padded(n, width);
  }

  // Every year is written in at least four characters and can be read back.
  lemma YearReadsBack(year: int)
    ensures var s := YearOf(year);
            && |s| >= 4
            && (if year < 0 then s[0] == '-' && AllDigits(s[1..]) && Value(s[1..]) == -year
                else AllDigits(s) && Value(s) == year)
  {
    if year < 0 {
      MinusReadsBack(-year, 3);
    } else {
      PaddedReadsBack(year, 4);
    }
  }

  function Magnitude(n: int): nat { if n < 0 then -n else n }

  // More than four characters are written only if the year has that many, so the first digit is
  // then not a zero.
  lemma YearIsShort(year: int)
    ensures var s := YearOf(year);
            |s| == 4 || (|s| > 4 && s[if year < 0 then 1 else 0] != '0')
  {
    var n, width := Magnitude(year), if year < 0 then 3 else 4;
    NoLeadingZero(n);
    PaddedLength(n, width);
    if |Dec(n)| < width {
      ZerosLength(width - |Dec(n)|);
    }
    if n == 0 {
      DecLength(0);
    }
  }

  // The part of the year that %C writes, and the part that %y writes.
  function Century(year: int): string {
    var s := YearOf(year);
    if |s| >= 2 then s[..|s| - 2] else ""
  }

  function ShortYear(year: int): string {
    var s := YearOf(year);
    if |s| >= 2 then s[|s| - 2..] else ""
  }

  lemma Slices(year: int)
    ensures Century(year) + ShortYear(year) == YearOf(year)
    ensures |ShortYear(year)| == 2 && |YearOf(year)| >= 4
  {
    YearReadsBack(year);
  }

  // The century and the short year in terms of the year.
  lemma PiecesOf(year: int)
    ensures ShortYear(year) == TwoDigits(Magnitude(year) % 100)
    ensures Century(year) == if year < 0 then "-" + Padded(-year / 100, 1) else Padded(year / 100, 2)
  {
    if year < 0 {
      PaddedSplit(-year, 3);
      assert YearOf(year) == ("-" + Padded(-year / 100, 1)) + TwoDigits(-year % 100);
    } else {
      PaddedSplit(year, 4);
    }
  }

  lemma TwoDigitCentury(c: nat)
    requires c < 100
    ensures Padded(c, 2) == TwoDigits(c)
  {
    DecLength(c);
    assert Zeros(1) == "0" + Zeros(0);
    if c >= 10 {
      LastTwoDigits(c);
    }
  }

  // split_year_lower
  function SplitYearLower(year: int): (l: nat)
    ensures l == Magnitude(year) % 100
  {
    Magnitude(TruncMod(year, 100))
  }

  // A signed numeral.
  function SignedDec(n: int): string { if n < 0 then "-" + Dec(-n) else Dec(n) }

  // What %C writes, case by case.
  function CenturyByCases(year: int): string {
    var upper := TruncDiv(year, 100);
    if -99 <= year < 0 then "-0"
    else if 0 <= upper < 100 then TwoDigits(upper)
    else SignedDec(upper)
  }

  lemma LowerPart(year: int)
    ensures ShortYear(year) == TwoDigits(SplitYearLower(year))
  {
    PiecesOf(year);
  }

  lemma PaddedCentury(c: nat)
    ensures Padded(c, 2) == if c < 100 then TwoDigits(c) else Dec(c)
  {
    if c < 100 {
      TwoDigitCentury(c);
    } else {
      DecLength(c);
    }
  }

  lemma CenturyFrom0(year: int)
    requires year >= 0
    ensures Century(year) == CenturyByCases(year)
  {
    PiecesOf(year);
    PaddedCentury(year / 100);
  }

  lemma CenturyBefore0(year: int)
    requires year < 0
    ensures Century(year) == CenturyByCases(year)
  {
    PiecesOf(year);
    DecLength(-year / 100);
    assert TruncDiv(year, 100) == -(-year / 100);
    if year >= -99 {
      assert Dec(0) == "0";
    }
  }

  lemma CenturyCases(year: int)
    ensures Century(year) == CenturyByCases(year)
  {
    if year >= 0 {
      CenturyFrom0(year);
    } else {
      CenturyBefore0(year);
    }
  }

  // What %C writes in each of its cases, followed by the two digits of %y, is the year.
  lemma PiecesAgree(year: int)
    ensures CenturyByCases(year) + TwoDigits(SplitYearLower(year)) == YearOf(year)
    ensures |YearOf(year)| >= 4
  {
    CenturyCases(year);
    LowerPart(year);
    Slices(year);
  }

  lemma UsualYear(year: int)
    requires 0 <= year < 10000
    ensures year / 100 % 100 == year / 100 && year % 100 % 100 == year % 100
    ensures YearOf(year) == TwoDigits(year / 100) + TwoDigits(year % 100)
  {
    PaddedSplit(year, 4);
    TwoDigitCentury(year / 100);
  }

  class TmWriter {
    var out: string

    constructor ()
      ensures out == ""
    {
      out := "";
    }

    method Write2(value: nat)
      modifies this
      ensures out == old(out) + TwoDigits(value % 100)
    {
      out := out + [Digit(value % 100 / 10)] + [Digit(value % 10)];
      assert value % 100 % 10 == value % 10;
    }

    // Two digits at a time, from the end.
    static method FormatDecimal(n: nat) returns (s: string)
      ensures s == Dec(n)
    {
      var value := n;
      s := "";
      while value >= 100
        invariant Dec(n) == Dec(value) + s
        decreases value
      {
        LastTwoDigits(value);
        Associative(Dec(value / 100), TwoDigits(value % 100), s);
        s := TwoDigits(value % 100) + s;
        value := value / 100;
      }
      if value < 10 {
        s := [Digit(value)] + s;
      } else {
        LastTwoDigits(value);
        s := TwoDigits(value) + s;
      }
    }

    // The digits, filled up with zeros to a width.
    method WritePadded(n: nat, width: nat)
      modifies this
      ensures out == old(out) + Padded(n, width)
    {
      var digits := FormatDecimal(n);
      if width > |digits| {
        out := out + Zeros(width - |digits|);
        Associative(old(out), Zeros(width - |digits|), digits);
      }
      out := out + digits;
    }

    method WriteYearExtended(year: int)
      modifies this
      ensures out == old(out) + YearOf(year)
    {
      var width: nat, n := 4, year;
      if n < 0 {
        out := out + "-";
        n := 0 - n;
        width := width - 1;
      }
      WritePadded(n, width);
      Associative(old(out), "-", Padded(n, width));
    }

    // on_year: %Y, with a shortcut for the usual years.
    method OnYear(year: int)
      modifies this
      ensures out == old(out) + YearOf(year)
    {
      if 0 <= year < 10000 {
        UsualYear(year);
        Write2(year / 100);
        Write2(year % 100);
      } else {
        WriteYearExtended(year);
      }
    }

    // on_short_year: %y
    method OnShortYear(year: int)
      modifies this
      ensures out == old(out) + ShortYear(year)
    {
      LowerPart(year);
      var l := TruncMod(year, 100);
      if l < 0 {
        l := -l;
      }
      assert l == SplitYearLower(year) && l % 100 == l;
      Write2(l);
    }

    // on_century: %C
    method OnCentury(year: int)
      modifies this
      ensures out == old(out) + Century(year)
    {
      CenturyCases(year);
      var upper := TruncDiv(year, 100);
      if year >= -99 && year < 0 {
        out := out + "-";
        out := out + "0";
        assert out == old(out) + "-0";
      } else if upper >= 0 && upper < 100 {
        assert upper % 100 == upper;
        Write2(upper);
      } else {
        WriteInt(upper);
      }
    }

    method WriteInt(value: int)
      modifies this
      ensures out == old(out) + SignedDec(value)
    {
      var n := value;
      if n < 0 {
        out := out + "-";
        n := -n;
      }
      var digits := FormatDecimal(n);
      out := out + digits;
      assert value < 0 ==> out == old(out) + ("-" + digits);
    }

    // %C and then %y write the year.
    method WriteInPieces(year: int)
      modifies this
      ensures out == old(out) + YearOf(year)
    {
      Slices(year);
      Associative(out, Century(year), ShortYear(year));
      OnCentury(year);
      OnShortYear(year);
    }
  }
}
