/**
 * `generate_ofx_content`: the transaction table written back as OFX text, a
 * fixed header, one `<STMTTRN>` block per row in row order, a fixed footer.
 */
module OfxExport {
  import opened Wrappers
  import opened Text
  import opened Transactions

  const Header: string :=
    "OFXHEADER:100\n    DATA:OFXSGML\n    VERSION:102\n    SECURITY:NONE\n    ENCODING:USASCII\n"
    + "    CHARSET:1252\n    COMPRESSION:NONE\n    OLDFILEUID:NONE\n    NEWFILEUID:NONE\n\n"
    + "    <OFX>\n    <SIGNONMSGSRSV1>\n    <SONRS>\n    <STATUS>\n    <CODE>0</CODE>\n"
    + "    <SEVERITY>INFO</SEVERITY>\n    </STATUS>\n    <DTSERVER>20250325</DTSERVER>\n"
    + "    <LANGUAGE>POR</LANGUAGE>\n    </SONRS>\n    </SIGNONMSGSRSV1>\n    <BANKMSGSRSV1>\n"
    + "    <STMTTRNRS>\n    <TRNUID>1</TRNUID>\n    <STATUS>\n    <CODE>0</CODE>\n"
    + "    <SEVERITY>INFO</SEVERITY>\n    </STATUS>\n    <STMTRS>\n    <CURDEF>BRL</CURDEF>\n"
    + "    <BANKACCTFROM>\n    <BANKID>000</BANKID>\n    <ACCTID>000</ACCTID>\n"
    + "    <ACCTTYPE>CHECKING</ACCTTYPE>\n    </BANKACCTFROM>\n    <BANKTRANLIST>\n    "

  const Footer: string :=
    "</BANKTRANLIST>\n    </STMTRS>\n    </STMTTRNRS>\n    </BANKMSGSRSV1>\n    </OFX>"

  // ---------------------------------------------------------------------
  // The fields of one transaction block
  // ---------------------------------------------------------------------

  /** `TRNTYPE`: a positive amount is a credit; zero and negative amounts are debits. */
  function TrnType(amount: int): (t: string)
    ensures t == "CREDIT" <==> amount > 0
    ensures t == "DEBIT" <==> amount <= 0
  {
    if amount > 0 then "CREDIT" else "DEBIT"
  }

  /** `DTPOSTED`: the `YYYY-MM-DD` date as `YYYYMMDD`. */
  function CompactDate(s: string): (c: string)
    requires IsIsoDate(s)
    ensures |c| == 8
  {
    s[..4] + s[5..7] + s[8..]
  }

  /** The string with every '-' removed. */
  function WithoutDashes(s: string): string
    decreases |s|
  {
    if s == [] then []
    else WithoutDashes(s[..|s| - 1]) + (if s[|s| - 1] == '-' then [] else [s[|s| - 1]])
  }

  lemma {:induction false} WithoutDashesConcat(s: string, t: string)
    ensures WithoutDashes(s + t) == WithoutDashes(s) + WithoutDashes(t)
    decreases |t|
  {
    if t == [] {
      assert s + t == s;
    } else {
      var n := |t| - 1;
      assert (s + t)[..|s + t| - 1] == s + t[..n];
      WithoutDashesConcat(s, t[..n]);
    }
  }

  lemma {:induction false} WithoutDashesOfDigits(s: string)
    requires AllDigits(s)
    ensures WithoutDashes(s) == s
    decreases |s|
  {
    if s != [] {
      WithoutDashesOfDigits(s[..|s| - 1]);
    }
  }

  /** The compact date is the ISO date with its dashes removed. */
  lemma CompactDateDropsDashes(s: string)
    requires IsIsoDate(s)
    ensures CompactDate(s) == WithoutDashes(s)
  {
    assert s == s[..4] + "-" + s[5..7] + "-" + s[8..];
    WithoutDashesConcat(s[..4] + "-" + s[5..7] + "-", s[8..]);
    WithoutDashesConcat(s[..4] + "-" + s[5..7], "-");
    WithoutDashesConcat(s[..4] + "-", s[5..7]);
    WithoutDashesConcat(s[..4], "-");
    WithoutDashesOfDigits(s[..4]);
    WithoutDashesOfDigits(s[5..7]);
    WithoutDashesOfDigits(s[8..]);
    assert WithoutDashes("-") == [] by {
      assert "-"[..0] == [];
    }
  }

  /** Puts the dashes back into a compact date. */
  function ExpandDate(c: string): string
    requires |c| == 8
  {
    c[..4] + "-" + c[4..6] + "-" + c[6..]
  }

  lemma CompactDateRoundTrip(s: string)
    requires IsIsoDate(s)
    ensures ExpandDate(CompactDate(s)) == s
  {
    var c := CompactDate(s);
    assert c[..4] == s[..4] && c[4..6] == s[5..7] && c[6..] == s[8..];
    assert s == s[..4] + "-" + s[5..7] + "-" + s[8..];
  }

  /** The digits after the point in Python's shortest rendering of `cents` hundredths. */
  function FractionText(cents: nat): (f: string)
    requires cents < 100
    ensures 1 <= |f| <= 2 && AllDigits(f)
  {
    if cents == 0 then "0"
    else if cents % 10 == 0 then [DigitChar(cents / 10)]
    else [DigitChar(cents / 10), DigitChar(cents % 10)]
  }

  /**
   * `TRNAMT`: `str()` of the amount as a float, for an amount held in
   * hundredths: "-50.0", "10.5", "0.05".
   */
  function AmountText(amount: int): string {
    var magnitude := if amount < 0 then -amount else amount;
    (if amount < 0 then "-" else "") + NatText(magnitude / 100) + "." + FractionText(magnitude % 100)
  }

  /** Reads the digits before and after the point as hundredths. */
  function ReadFixed(whole: string, fraction: string): Option<nat> {
    if 1 <= |whole| && AllDigits(whole) && 1 <= |fraction| <= 2 && AllDigits(fraction) then
      Some(DigitsValue(whole) * 100 + (if |fraction| == 1 then DigitsValue(fraction) * 10 else DigitsValue(fraction)))
    else None
  }

  /** Reads `<digits>.<one or two digits>` as hundredths. */
  function ParseMagnitude(t: string): Option<nat> {
    if |t| < 3 then None
    else if t[|t| - 2] == '.' then ReadFixed(t[..|t| - 2], t[|t| - 1..])
    else if t[|t| - 3] == '.' then ReadFixed(t[..|t| - 3], t[|t| - 2..])
    else None
  }

  /** Reads a decimal amount with an optional minus sign back as hundredths. */
  function ParseAmount(t: string): Option<int> {
    if 0 < |t| && t[0] == '-' then
      match ParseMagnitude(t[1..])
      case Some(m) => Some(-(m as int))
      case None => None
    else
      match ParseMagnitude(t)
      case Some(m) => Some(m)
      case None => None
  }

  lemma ReadOneDecimal(whole: string, d: char)
    requires 1 <= |whole| && AllDigits(whole) && IsDigit(d)
    ensures ReadFixed(whole, [d]) == Some(DigitsValue(whole) * 100 + DigitValue(d) * 10)
  {
    assert [d][..0] == [];
  }

  lemma ReadTwoDecimals(whole: string, d1: char, d2: char)
    requires 1 <= |whole| && AllDigits(whole) && IsDigit(d1) && IsDigit(d2)
    ensures ReadFixed(whole, [d1, d2]) == Some(DigitsValue(whole) * 100 + DigitValue(d1) * 10 + DigitValue(d2))
  {
    var one, two := [d1], [d1, d2];
    assert one[..0] == [];
    assert DigitsValue(one) == DigitValue(d1);
    assert two[..1] == one;
    assert DigitsValue(two) == DigitsValue(one) * 10 + DigitValue(d2);
  }

  /** Where the point sits decides how many fraction digits are read. */
  lemma ParseMagnitudeSplit(whole: string, fraction: string)
    requires AllDigits(fraction) && 1 <= |fraction| <= 2
    ensures ParseMagnitude(whole + "." + fraction) == ReadFixed(whole, fraction)
  {
    var t := whole + "." + fraction;
    if |fraction| == 1 {
      assert t[..|t| - 2] == whole;
      assert t[|t| - 1..] == fraction;
    } else {
      assert t[|t| - 2] == fraction[0];
      assert t[..|t| - 3] == whole;
      assert t[|t| - 2..] == fraction;
    }
  }

  /** The fraction digits of a hundredths count read back as that count. */
  lemma FractionRoundTrip(whole: string, cents: nat)
    requires 1 <= |whole| && AllDigits(whole) && cents < 100
    ensures ReadFixed(whole, FractionText(cents)) == Some(DigitsValue(whole) * 100 + cents)
  {
    var tens, units := cents / 10, cents % 10;
    if cents == 0 {
      ReadOneDecimal(whole, '0');
    } else if units == 0 {
      ReadOneDecimal(whole, DigitChar(tens));
    } else {
      ReadTwoDecimals(whole, DigitChar(tens), DigitChar(units));
    }
  }

  lemma MagnitudeRoundTrip(magnitude: nat)
    ensures ParseMagnitude(NatText(magnitude / 100) + "." + FractionText(magnitude % 100)) == Some(magnitude)
  {
    var whole, fraction := NatText(magnitude / 100), FractionText(magnitude % 100);
    ParseMagnitudeSplit(whole, fraction);
    FractionRoundTrip(whole, magnitude % 100);
  }

  /** Reading the rendered amount back gives the amount. */
  lemma AmountRoundTrip(amount: int)
    ensures ParseAmount(AmountText(amount)) == Some(amount)
  {
    var magnitude := if amount < 0 then -amount else amount;
    var body := NatText(magnitude / 100) + "." + FractionText(magnitude % 100);
    MagnitudeRoundTrip(magnitude);
    if amount < 0 {
      assert AmountText(amount) == "-" + body;
      ParseNegative(body);
    } else {
      assert AmountText(amount) == "" + body;
      assert "" + body == body;
      ParseNonNegative(body);
    }
  }

  /** A leading minus negates the magnitude after it. */
  lemma ParseNegative(body: string)
    requires ParseMagnitude(body).Some?
    ensures ParseAmount("-" + body) == Some(-(ParseMagnitude(body).value as int))
  {
    assert ("-" + body)[1..] == body;
  }

  /** Text that starts with a digit is read as a magnitude. */
  lemma ParseNonNegative(body: string)
    requires 0 < |body| && IsDigit(body[0]) && ParseMagnitude(body).Some?
    ensures ParseAmount(body) == Some(ParseMagnitude(body).value as int)
  {
  }

  /** `FITID`: the row index written with at least six digits, zero-padded. */
  function Fitid(i: nat): (f: string)
    ensures AllDigits(f) && DigitsValue(f) == i
    ensures 6 <= |f|
    ensures i < 1000000 ==> |f| == 6
  {
    if i < 1000000 then
      assert Pow10(6) == 1000000;
      NatTextWidth(i, 6);
      ZeroPad(i, 6)
    else
      ZeroPad(i, 6)
  }

  // ---------------------------------------------------------------------
  // Blocks and the document
  // ---------------------------------------------------------------------

  /** The text values of one `<STMTTRN>` block. */
  datatype Fields = Fields(trnType: string, posted: string, amount: string, fitid: string, memo: string)

  /** The block template; the memo goes in as it is, without escaping. */
  function Render(f: Fields): string {
    "<STMTTRN>\n    <TRNTYPE>" + f.trnType + "</TRNTYPE>\n    <DTPOSTED>" + f.posted
    + "</DTPOSTED>\n    <TRNAMT>" + f.amount + "</TRNAMT>\n    <FITID>" + f.fitid
    + "</FITID>\n    <MEMO>" + f.memo + "</MEMO>\n    </STMTTRN>\n    "
  }

  /** The fields written for the row at index `i`. */
  function FieldsOf(i: nat, r: Row): Fields
    requires IsIsoDate(r.date)
  {
    Fields(TrnType(r.amount), CompactDate(r.date), AmountText(r.amount), Fitid(i), r.description)
  }

  /**
   * Each field of block `i` reads back as what the row holds: the
   * classification by sign, the date, the amount, the position and the
   * description verbatim.
   */
  lemma FieldsReadBack(i: nat, r: Row)
    requires IsIsoDate(r.date)
    ensures FieldsOf(i, r).trnType == (if r.amount > 0 then "CREDIT" else "DEBIT")
    ensures ExpandDate(FieldsOf(i, r).posted) == r.date
    ensures ParseAmount(FieldsOf(i, r).amount) == Some(r.amount)
    ensures AllDigits(FieldsOf(i, r).fitid) && DigitsValue(FieldsOf(i, r).fitid) == i
    ensures FieldsOf(i, r).memo == r.description
  {
    CompactDateRoundTrip(r.date);
    AmountRoundTrip(r.amount);
  }

  /** The block written for the row at index `i`. */
  function Block(i: nat, r: Row): string
    requires IsIsoDate(r.date)
  {
    Render(FieldsOf(i, r))
  }

  predicate Exportable(rows: seq<Row>) {
    forall k | 0 <= k < |rows| :: IsIsoDate(rows[k].date)
  }

  function BlockList(rows: seq<Row>): (blocks: seq<string>)
    requires Exportable(rows)
    ensures |blocks| == |rows|
  {
    seq(|rows|, k requires 0 <= k < |rows| => Block(k, rows[k]))
  }

  /** The body: the rows' blocks in row order, block k carrying index k. */
  function Blocks(rows: seq<Row>): string
    requires Exportable(rows)
  {
    Concat(BlockList(rows))
  }

  lemma BlockListAt(rows: seq<Row>, i: nat)
    requires Exportable(rows) && i < |rows|
    ensures BlockList(rows)[i]
         == Render(Fields(if rows[i].amount > 0 then "CREDIT" else "DEBIT", CompactDate(rows[i].date),
                          AmountText(rows[i].amount), Fitid(i), rows[i].description))
  {
  }

  lemma BlockListPrefix(rows: seq<Row>, k: nat)
    requires Exportable(rows) && k <= |rows|
    ensures Exportable(rows[..k])
    ensures BlockList(rows[..k]) == BlockList(rows)[..k]
  {
  }

  /**
   * Row k's block follows the blocks of the rows before it: exactly one block
   * per row, in row order.
   */
  lemma BlockInOrder(rows: seq<Row>, k: nat)
    requires Exportable(rows) && k < |rows|
    ensures Exportable(rows[..k])
    ensures Blocks(rows[..k]) + Block(k, rows[k]) <= Blocks(rows)
  {
    var blocks := BlockList(rows);
    BlockListPrefix(rows, k);
    ConcatTake(blocks, k);
    ConcatPrefix(blocks, k + 1);
  }

  /** The loop of `generate_ofx_content`, growing the body one block per row. */
  method GenerateOfxContent(rows: seq<Row>) returns (text: string)
    requires Exportable(rows)
    ensures text == Header + Blocks(rows) + Footer
  {
    var body := "";
    var i := 0;
    while i < |rows|
      invariant 0 <= i <= |rows|
      invariant body == Concat(BlockList(rows)[..i])
    {
      var row := rows[i];
      var date := CompactDate(row.date);
      var valor := row.amount;
      var descricao := row.description;
      var fitid := Fitid(i);
      var trntype := if valor > 0 then "CREDIT" else "DEBIT";
      var block := Render(Fields(trntype, date, AmountText(valor), fitid, descricao));
      BlockListAt(rows, i);
      ConcatTake(BlockList(rows), i);
      body := body + block;
      i := i + 1;
    }
    ConcatAll(BlockList(rows));
    assert body == Blocks(rows);
    text := Header + body + Footer;
  }
}
