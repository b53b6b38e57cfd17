/**
 * The date signature `\d{2}\s+[A-Z]{3}\s+\d{4}` ("05 JAN 2024") and the
 * Date Extractor: the first signature in a transaction's text, read with
 * the format `%d %b %Y`; a signature that is not a calendar date gives no
 * date rather than an error.
 */
module Dates {
  import opened Wrappers
  import opened Text
  import opened Search

  /** Where the month and the year of one signature match begin (the day begins at the match start). */
  datatype Signature = Signature(month: nat, year: nat)

  /**
   * The regex `\d{2}\s+[A-Z]{3}\s+\d{4}` matches at `i` with its two
   * whitespace runs ending at `g.month` and `g.year`: the declarative
   * reading of the pattern, with the split points given.
   */
  ghost predicate IsSignature(s: string, i: nat, g: Signature) {
    && i + 2 < g.month && g.month + 3 < g.year && g.year + 4 <= |s|
    && IsDigit(s[i]) && IsDigit(s[i + 1])
    && (forall k :: i + 2 <= k < g.month ==> IsSpace(s[k]))
    && IsUpper(s[g.month]) && IsUpper(s[g.month + 1]) && IsUpper(s[g.month + 2])
    && (forall k :: g.month + 3 <= k < g.year ==> IsSpace(s[k]))
    && AllDigits(s[g.year..g.year + 4])
  }

  /** The signature scanner: each greedy `\s+` must stop where the next class begins. */
  function SignatureAt(s: string, i: nat): (r: Option<Signature>)
    ensures r.Some? ==> IsSignature(s, i, r.value)
  {
    if i + 2 <= |s| && IsDigit(s[i]) && IsDigit(s[i + 1]) then
      var a := SpaceEnd(s, i + 2);
      if i + 2 < a && a + 3 <= |s| && IsUpper(s[a]) && IsUpper(s[a + 1]) && IsUpper(s[a + 2]) then
        var b := SpaceEnd(s, a + 3);
        if a + 3 < b && b + 4 <= |s| && AllDigits(s[b..b + 4]) then Some(Signature(a, b)) else None
      else None
    else None
  }

  /** The scanner finds every match the regex has at `i`, and with the same split. */
  lemma SignatureAtComplete(s: string, i: nat, g: Signature)
    requires IsSignature(s, i, g)
    ensures SignatureAt(s, i) == Some(g)
  {
    SpanEndIs(s, i + 2, g.month, IsSpace);
    SpanEndIs(s, g.month + 3, g.year, IsSpace);
    SignatureSplit(s, i, g.month, g.year);
  }

  /** The scanner's steps, with the ends of both whitespace runs given. */
  lemma SignatureSplit(s: string, i: nat, a: nat, b: nat)
    requires i + 2 < a && a + 3 < b && b + 4 <= |s|
    requires IsDigit(s[i]) && IsDigit(s[i + 1]) && SpaceEnd(s, i + 2) == a
    requires IsUpper(s[a]) && IsUpper(s[a + 1]) && IsUpper(s[a + 2]) && SpaceEnd(s, a + 3) == b
    requires AllDigits(s[b..b + 4])
    ensures SignatureAt(s, i) == Some(Signature(a, b))
  {
  }

  /** `date_pattern.match(line)`: the line begins with a date signature. */
  predicate IsStartLine(line: string) {
    SignatureAt(line, 0).Some?
  }

  datatype Date = Date(year: nat, month: nat, day: nat)

  predicate IsLeapYear(y: nat) {
    y % 4 == 0 && (y % 100 != 0 || y % 400 == 0)
  }

  function DaysInMonth(month: nat, year: nat): nat {
    if month == 2 then (if IsLeapYear(year) then 29 else 28)
    else if month == 4 || month == 6 || month == 9 || month == 11 then 30
    else 31
  }

  /** A day of the proleptic Gregorian calendar that Python's datetime can hold. */
  predicate ValidDate(d: Date) {
    1 <= d.year && 1 <= d.month <= 12 && 1 <= d.day <= DaysInMonth(d.month, d.year)
  }

  /** The English month abbreviations that `%b` accepts, in calendar order. */
  const MonthAbbreviations: seq<string> :=
    ["JAN", "FEB", "MAR", "APR", "MAY", "JUN", "JUL", "AUG", "SEP", "OCT", "NOV", "DEC"]

  /** `%b`: the number of the month abbreviated `m`, ignoring case; 0 when it names no month. */
  function MonthNumber(m: string): (r: nat)
    ensures r <= 12
    ensures 1 <= r ==> Upper(m) == MonthAbbreviations[r - 1]
    ensures r == 0 <==> Upper(m) !in MonthAbbreviations
  {
    MonthFrom(Upper(m), 0)
  }

  function MonthFrom(u: string, k: nat): (r: nat)
    requires k <= 12
    ensures r == 0 || k < r <= 12
    ensures 1 <= r ==> u == MonthAbbreviations[r - 1]
    ensures r == 0 <==> forall j :: k <= j < 12 ==> u != MonthAbbreviations[j]
    decreases 12 - k
  {
    if k == 12 then 0
    else if u == MonthAbbreviations[k] then k + 1
    else MonthFrom(u, k + 1)
  }

  /** `pd.to_datetime(text, format="%d %b %Y")` on one signature match; a failure gives None. */
  function ParseSignature(s: string, i: nat, g: Signature): Option<Date>
    requires IsSignature(s, i, g)
  {
    var d := Date(DigitsValue(s[g.year..g.year + 4]), MonthNumber(s[g.month..g.month + 3]), DigitsValue(s[i..i + 2]));
    if ValidDate(d) then Some(d) else None
  }

  /**
   * The Date Extractor: only the first signature is read; a date is
   * reported only when that signature is a valid calendar date.
   */
  function DateOf(txn: string): (r: Option<Date>)
    ensures r.Some? ==> ValidDate(r.value)
    ensures r.Some? ==> exists i: nat, g :: IsSignature(txn, i, g) && ParseSignature(txn, i, g) == r
  {
    match Leftmost(txn, SignatureAt)
    case None => None
    case Some((i, g)) => ParseSignature(txn, i, g)
  }

  /**
   * The leftmost signature decides: its date when that is a valid calendar
   * date, and no date otherwise, whatever signatures follow it.
   */
  lemma DateOfLeftmost(txn: string, i: nat, g: Signature)
    requires IsSignature(txn, i, g)
    requires forall j: nat, h :: j < i ==> !IsSignature(txn, j, h)
    ensures DateOf(txn) == ParseSignature(txn, i, g)
  {
    SignatureAtComplete(txn, i, g);
    forall j | 0 <= j < i
      ensures SignatureAt(txn, j).None?
    {
      if SignatureAt(txn, j).Some? {
        assert false;
      }
    }
    LeftmostIs(txn, SignatureAt, i);
  }

  /** A transaction without a signature has no date. */
  lemma DateOfNoSignature(txn: string)
    requires forall i: nat, g :: !IsSignature(txn, i, g)
    ensures DateOf(txn).None?
  {
    if Leftmost(txn, SignatureAt).Some? {
      assert false;
    }
  }

  function DigitChar(n: nat): char
    requires n < 10
  {
    ('0' as int + n) as char
  }

  /** A date as a statement prints it: "05 JAN 2024". */
  function StatementDate(d: Date): string
    requires ValidDate(d) && d.year <= 9999
  {
    [DigitChar(d.day / 10), DigitChar(d.day % 10), ' ']
    + MonthAbbreviations[d.month - 1]
    + [' ', DigitChar(d.year / 1000), DigitChar(d.year / 100 % 10), DigitChar(d.year / 10 % 10), DigitChar(d.year % 10)]
  }

  lemma DigitsValue2(s: string)
    requires |s| == 2 && AllDigits(s)
    ensures DigitsValue(s) == DigitValue(s[0]) * 10 + DigitValue(s[1])
  {
    assert s[..1][..0] == [];
    assert DigitsValue(s[..1]) == DigitValue(s[0]);
    assert s[..|s| - 1] == s[..1];
  }

  lemma DigitsValue4(s: string)
    requires |s| == 4 && AllDigits(s)
    ensures DigitsValue(s) == ((DigitValue(s[0]) * 10 + DigitValue(s[1])) * 10 + DigitValue(s[2])) * 10 + DigitValue(s[3])
  {
    DigitsValue2(s[..2]);
    assert s[..3][..2] == s[..2];
  }

  lemma MonthsAreLetters(m: nat)
    requires 1 <= m <= 12
    ensures var a := MonthAbbreviations[m - 1];
      |a| == 3 && IsUpper(a[0]) && IsUpper(a[1]) && IsUpper(a[2])
  {
  }

  /** Where the digits of a printed statement date sit, and what lies between them. */
  lemma StatementDateText(d: Date, rest: string)
    requires ValidDate(d) && d.year <= 9999
    ensures var s := StatementDate(d) + rest;
      && |s| == 11 + |rest| && s[11..] == rest
      && AllDigits(s[0..2]) && AllDigits(s[7..11])
      && forall k :: 2 <= k < 7 ==> !IsDigit(s[k])
  {
    var s := StatementDate(d) + rest;
    var m := MonthAbbreviations[d.month - 1];
    MonthsAreLetters(d.month);
    assert s[3..6] == m && s[2] == ' ' && s[6] == ' ';
    forall k | 2 <= k < 7
      ensures !IsDigit(s[k])
    {
      if 3 <= k < 6 {
        assert s[k] == m[k - 3];
      }
    }
  }

  lemma MonthRoundTrip(m: nat)
    requires 1 <= m <= 12
    ensures MonthNumber(MonthAbbreviations[m - 1]) == m
  {
    var u := MonthAbbreviations[m - 1];
    assert Upper(u) == u;
    assert forall j :: 0 <= j < 12 && j != m - 1 ==> MonthAbbreviations[j] != u;
  }

  /** The text of a statement date, followed by anything, has a signature at its start. */
  lemma {:induction false} StatementDateSignature(d: Date, rest: string)
    requires ValidDate(d) && d.year <= 9999
    ensures SignatureAt(StatementDate(d) + rest, 0) == Some(Signature(3, 7))
  {
    var s := StatementDate(d) + rest;
    var m := MonthAbbreviations[d.month - 1];
    assert |m| == 3 && IsUpper(m[0]) && IsUpper(m[1]) && IsUpper(m[2]);
    assert s[3..6] == m;
    assert AllDigits(s[7..11]);
    assert IsSignature(s, 0, Signature(3, 7));
    SignatureAtComplete(s, 0, Signature(3, 7));
  }

  lemma FourDigitYear(y: nat)
    requires y <= 9999
    ensures ((y / 1000 * 10 + y / 100 % 10) * 10 + y / 10 % 10) * 10 + y % 10 == y
  {
    assert y / 100 == y / 1000 * 10 + y / 100 % 10;
    assert y / 10 == y / 100 * 10 + y / 10 % 10;
    assert y == y / 10 * 10 + y % 10;
  }

  lemma StatementDateDay(d: Date, rest: string)
    requires ValidDate(d) && d.year <= 9999
    ensures DigitsValue((StatementDate(d) + rest)[0..2]) == d.day
  {
    var s := StatementDate(d) + rest;
    DigitsValue2(s[0..2]);
    assert DigitValue(s[0]) == d.day / 10 && DigitValue(s[1]) == d.day % 10;
  }

  lemma StatementDateYear(d: Date, rest: string)
    requires ValidDate(d) && d.year <= 9999
    ensures DigitsValue((StatementDate(d) + rest)[7..11]) == d.year
  {
    var s := StatementDate(d) + rest;
    var y := d.year;
    DigitsValue4(s[7..11]);
    assert DigitValue(s[7]) == y / 1000 && DigitValue(s[8]) == y / 100 % 10;
    assert DigitValue(s[9]) == y / 10 % 10 && DigitValue(s[10]) == y % 10;
    FourDigitYear(y);
  }

  lemma StatementDateMonth(d: Date, rest: string)
    requires ValidDate(d) && d.year <= 9999
    ensures MonthNumber((StatementDate(d) + rest)[3..6]) == d.month
  {
    assert (StatementDate(d) + rest)[3..6] == MonthAbbreviations[d.month - 1];
    MonthRoundTrip(d.month);
  }

  /** A statement date is read back as the same calendar date, whatever text follows it. */
  lemma {:induction false} DateOfStatementDate(d: Date, rest: string)
    requires ValidDate(d) && d.year <= 9999
    ensures DateOf(StatementDate(d) + rest) == Some(d)
  {
    var s := StatementDate(d) + rest;
    var g := Signature(3, 7);
    StatementDateSignature(d, rest);
    assert Leftmost(s, SignatureAt) == Some((0, g));
    StatementDateDay(d, rest);
    StatementDateYear(d, rest);
    StatementDateMonth(d, rest);
  }
}
