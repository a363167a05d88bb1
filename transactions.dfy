/**
 * The transaction table shared by the importer, the reconciler and the
 * exporter: one row per transaction with the columns `Data` (date),
 * `Descrição` (description) and `Valor` (amount).
 */
module Transactions {
  import opened Wrappers
  import opened Text

  /** The ranges of Python's `datetime` fields. */
  type Year = y: int | 1 <= y <= 9999 witness 1
  type Month = m: int | 1 <= m <= 12 witness 1
  type Day = d: int | 1 <= d <= 31 witness 1

  datatype Date = Date(year: Year, month: Month, day: Day)

  /**
   * One row of the table. `amount` is the signed value in hundredths of the
   * currency unit, so that equality of amounts is exact.
   */
  datatype Row = Row(date: string, description: string, amount: int)

  /** The shape `YYYY-MM-DD`: ten characters, digits around two dashes. */
  predicate IsIsoDate(s: string) {
    && |s| == 10
    && IsDigit(s[0]) && IsDigit(s[1]) && IsDigit(s[2]) && IsDigit(s[3])
    && s[4] == '-'
    && IsDigit(s[5]) && IsDigit(s[6])
    && s[7] == '-'
    && IsDigit(s[8]) && IsDigit(s[9])
  }

  lemma IsoDateDigits(s: string)
    requires IsIsoDate(s)
    ensures AllDigits(s[..4]) && AllDigits(s[5..7]) && AllDigits(s[8..])
  {
  }

  /** `strftime("%Y-%m-%d")`: year to four digits, month and day to two. */
  function FormatIsoDate(d: Date): string {
    ZeroPad(d.year, 4) + "-" + ZeroPad(d.month, 2) + "-" + ZeroPad(d.day, 2)
  }

  /** Every field fits its width, so the formatted date has the `YYYY-MM-DD` shape. */
  lemma FormatIsoDateShape(d: Date)
    ensures IsIsoDate(FormatIsoDate(d))
  {
    NatTextWidth(d.year, 4);
    NatTextWidth(d.month, 2);
    NatTextWidth(d.day, 2);
  }

  /** Reads a `YYYY-MM-DD` string back into a date; None for anything else. */
  function ParseIsoDate(s: string): Option<Date> {
    if !IsIsoDate(s) then None
    else
      IsoDateDigits(s);
      var y, m, d := DigitsValue(s[..4]), DigitsValue(s[5..7]), DigitsValue(s[8..]);
      if 1 <= y <= 9999 && 1 <= m <= 12 && 1 <= d <= 31 then Some(Date(y, m, d)) else None
  }

  /** Formatting a date and reading it back gives the same date. */
  lemma IsoDateRoundTrip(d: Date)
    ensures ParseIsoDate(FormatIsoDate(d)) == Some(d)
  {
    var s := FormatIsoDate(d);
    FormatIsoDateShape(d);
    NatTextWidth(d.year, 4);
    NatTextWidth(d.month, 2);
    NatTextWidth(d.day, 2);
    assert s[..4] == ZeroPad(d.year, 4);
    assert s[5..7] == ZeroPad(d.month, 2);
    assert s[8..] == ZeroPad(d.day, 2);
  }
}
