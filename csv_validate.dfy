/**
 * Checking imported CSV records before they are sent: one message per
 * problem, each naming the row by its line in the file (the header is line
 * 1, so the first record is row 2).
 */
module CsvValidate {
  import opened Text
  import opened Csv
  import Sanitize

  /** `!row[key] || !row[key].trim()`: the column is missing, empty or blank. */
  predicate Blank(row: Record, key: string) {
    key !in row || Trim(row[key]) == ""
  }

  /** `!row[key]`: the column is missing or empty. */
  predicate Missing(row: Record, key: string) {
    key !in row || row[key] == ""
  }

  /** The text after an optional leading sign. */
  function AfterSign(s: string): (r: string)
    ensures |r| <= |s|
  {
    if s != [] && (s[0] == '+' || s[0] == '-') then s[1..] else s
  }

  predicate IsHexDigit(c: char) {
    IsDigit(c) || ('a' <= c <= 'f') || ('A' <= c <= 'F')
  }

  /** `!isNaN(parseFloat(s))`: after leading white space and a sign, a digit,
      a point followed by a digit, or "Infinity". */
  predicate FloatParses(s: string) {
    var t := AfterSign(TrimStart(s));
    || (t != [] && IsDigit(t[0]))
    || (|t| >= 2 && t[0] == '.' && IsDigit(t[1]))
    || (|t| >= 8 && t[..8] == "Infinity")
  }

  /** `!isNaN(parseInt(s))`: after leading white space and a sign, "0x" or
      "0X" and a hexadecimal digit, or else a decimal digit. */
  predicate IntParses(s: string) {
    var t := AfterSign(TrimStart(s));
    if |t| >= 2 && t[0] == '0' && (t[1] == 'x' || t[1] == 'X') then |t| >= 3 && IsHexDigit(t[2])
    else t != [] && IsDigit(t[0])
  }

  /** "Row <line>: " for the record at `index`. */
  function RowPrefix(index: nat): string {
    "Row " + NatToString(index + 2) + ": "
  }

  /** The line named in the prefix is written in decimal and is the record's
      position plus two: the header is line 1. */
  lemma RowPrefixNamesLine(index: nat)
    ensures exists line :: (RowPrefix(index) == "Row " + line + ": "
      && (forall i :: 0 <= i < |line| ==> IsDigit(line[i])) && DecimalValue(line) == index + 2)
  {
    var line := NatToString(index + 2);
    assert RowPrefix(index) == "Row " + line + ": ";
  }

  /** Different records are named by different prefixes. */
  lemma RowPrefixNamesOneRow(i: nat, j: nat)
    requires RowPrefix(i) == RowPrefix(j)
    ensures i == j
  {
    var (a, b) := (NatToString(i + 2), NatToString(j + 2));
    assert a == RowPrefix(i)[4..|RowPrefix(i)| - 2];
    assert b == RowPrefix(j)[4..|RowPrefix(j)| - 2];
  }

  /** Every message starts with "Row <line>: ". */
  predicate AllPrefixed(r: seq<string>, index: nat) {
    forall m :: m in r ==> RowPrefix(index) <= m
  }

  /** The same prefix before each of `messages`. */
  function WithPrefix(p: string, messages: seq<string>): (r: seq<string>)
    ensures |r| == |messages|
    ensures forall i :: 0 <= i < |r| ==> r[i] == p + messages[i] && p <= r[i]
  {
    seq(|messages|, i requires 0 <= i < |messages| => p + messages[i])
  }

  /** What is wrong with a customer record, in the order it is checked. */
  function CustomerProblems(row: Record): (r: seq<string>)
    ensures |r| <= 2
  {
    (if Blank(row, "name") then ["Name is required"] else [])
    + (if Blank(row, "email") then ["Email is required"]
       else if !Sanitize.IsValidEmail(row["email"]) then ["Invalid email format"]
       else [])
  }

  /** What is wrong with a product record, in the order it is checked. */
  function ProductProblems(row: Record): (r: seq<string>)
    ensures |r| <= 5
  {
    (if Blank(row, "name") then ["Name is required"] else [])
    + (if Blank(row, "category") then ["Category is required"] else [])
    + (if Missing(row, "price") || !FloatParses(row["price"]) then ["Valid price is required"] else [])
    + (if Missing(row, "cost") || !FloatParses(row["cost"]) then ["Valid cost is required"] else [])
    + (if !Missing(row, "stock") && !IntParses(row["stock"]) then ["Stock must be a number"] else [])
  }

  /** What is wrong with an order record, in the order it is checked. */
  function OrderProblems(row: Record): (r: seq<string>)
    ensures |r| <= 3
  {
    (if Blank(row, "customerEmail") then ["Customer email is required"] else [])
    + (if Blank(row, "productName") then ["Product name is required"] else [])
    + (if Missing(row, "quantity") || !IntParses(row["quantity"]) then ["Valid quantity is required"] else [])
  }

  /** A customer record's messages, each naming the record's line. */
  function CustomerRowErrors(row: Record, index: nat): (r: seq<string>)
    ensures |r| <= 2
    ensures AllPrefixed(r, index)
    ensures |r| == |CustomerProblems(row)|
    ensures forall k :: 0 <= k < |r| ==> r[k] == RowPrefix(index) + CustomerProblems(row)[k]
  {
    WithPrefix(RowPrefix(index), CustomerProblems(row))
  }

  /** A product record's messages, each naming the record's line. */
  function ProductRowErrors(row: Record, index: nat): (r: seq<string>)
    ensures |r| <= 5
    ensures AllPrefixed(r, index)
    ensures |r| == |ProductProblems(row)|
    ensures forall k :: 0 <= k < |r| ==> r[k] == RowPrefix(index) + ProductProblems(row)[k]
  {
    WithPrefix(RowPrefix(index), ProductProblems(row))
  }

  /** An order record's messages, each naming the record's line. */
  function OrderRowErrors(row: Record, index: nat): (r: seq<string>)
    ensures |r| <= 3
    ensures AllPrefixed(r, index)
    ensures |r| == |OrderProblems(row)|
    ensures forall k :: 0 <= k < |r| ==> r[k] == RowPrefix(index) + OrderProblems(row)[k]
  {
    WithPrefix(RowPrefix(index), OrderProblems(row))
  }

  /** The messages for all records, record by record. */
  function Errors(data: seq<Record>, check: (Record, nat) -> seq<string>): seq<string> {
    if data == [] then []
    else
      var n := |data| - 1;
      Errors(data[..n], check) + check(data[n], n)
  }

  /** The loop every validator runs: each record's messages, in order. */
  method Validate(data: seq<Record>, check: (Record, nat) -> seq<string>) returns (valid: bool, errors: seq<string>)
    ensures errors == Errors(data, check)
    ensures valid <==> errors == []
  {
    errors := [];
    var i := 0;
    while i < |data|
      invariant 0 <= i <= |data|
      invariant errors == Errors(data[..i], check)
    {
      assert data[..i + 1][..i] == data[..i];
      errors := errors + check(data[i], i);
      i := i + 1;
    }
    assert data[..i] == data;
    valid := |errors| == 0;
  }

  method ValidateCustomerCsv(data: seq<Record>) returns (valid: bool, errors: seq<string>)
    ensures errors == Errors(data, CustomerRowErrors)
    ensures valid <==> forall i :: 0 <= i < |data| ==> CustomerRowOk(data[i])
  {
    valid, errors := Validate(data, CustomerRowErrors);
    ErrorsEmptyIff(data, CustomerRowErrors);
    forall i | 0 <= i < |data|
      ensures CustomerRowErrors(data[i], i) == [] <==> CustomerRowOk(data[i])
    {
      CustomerRowClean(data[i], i);
    }
  }

  method ValidateProductCsv(data: seq<Record>) returns (valid: bool, errors: seq<string>)
    ensures errors == Errors(data, ProductRowErrors)
    ensures valid <==> forall i :: 0 <= i < |data| ==> ProductRowOk(data[i])
  {
    valid, errors := Validate(data, ProductRowErrors);
    ErrorsEmptyIff(data, ProductRowErrors);
    forall i | 0 <= i < |data|
      ensures ProductRowErrors(data[i], i) == [] <==> ProductRowOk(data[i])
    {
      ProductRowClean(data[i], i);
    }
  }

  method ValidateOrderCsv(data: seq<Record>) returns (valid: bool, errors: seq<string>)
    ensures errors == Errors(data, OrderRowErrors)
    ensures valid <==> forall i :: 0 <= i < |data| ==> OrderRowOk(data[i])
  {
    valid, errors := Validate(data, OrderRowErrors);
    ErrorsEmptyIff(data, OrderRowErrors);
    forall i | 0 <= i < |data|
      ensures OrderRowErrors(data[i], i) == [] <==> OrderRowOk(data[i])
    {
      OrderRowClean(data[i], i);
    }
  }

  // ---------------------------------------------------------------------
  // What the checks accept

  /** A customer record passes when it has a name and a well-formed email. */
  predicate CustomerRowOk(row: Record) {
    !Blank(row, "name") && !Blank(row, "email") && Sanitize.IsValidEmail(row["email"])
  }

  /** A product record passes when it has a name and a category, a price and
      a cost that read as numbers, and a stock that is absent, empty or reads
      as an integer. */
  predicate ProductRowOk(row: Record) {
    && !Blank(row, "name") && !Blank(row, "category")
    && !Missing(row, "price") && FloatParses(row["price"])
    && !Missing(row, "cost") && FloatParses(row["cost"])
    && (Missing(row, "stock") || IntParses(row["stock"]))
  }

  /** An order record passes when it names a customer email and a product and
      has a quantity that reads as an integer. */
  predicate OrderRowOk(row: Record) {
    !Blank(row, "customerEmail") && !Blank(row, "productName")
    && !Missing(row, "quantity") && IntParses(row["quantity"])
  }

  lemma CustomerRowClean(row: Record, index: nat)
    ensures CustomerRowErrors(row, index) == [] <==> CustomerRowOk(row)
  {
  }

  lemma ProductRowClean(row: Record, index: nat)
    ensures ProductRowErrors(row, index) == [] <==> ProductRowOk(row)
  {
  }

  lemma OrderRowClean(row: Record, index: nat)
    ensures OrderRowErrors(row, index) == [] <==> OrderRowOk(row)
  {
  }

  /** There are no messages exactly when no record has one. */
  lemma {:induction false} ErrorsEmptyIff(data: seq<Record>, check: (Record, nat) -> seq<string>)
    ensures Errors(data, check) == [] <==> forall i :: 0 <= i < |data| ==> check(data[i], i) == []
  {
    if data != [] {
      var n := |data| - 1;
      ErrorsEmptyIff(data[..n], check);
      assert forall i :: 0 <= i < n ==> data[..n][i] == data[i];
    }
  }

  /** A record's messages appear together, after those of every earlier record. */
  lemma {:induction false} ErrorsAppend(data: seq<Record>, more: seq<Record>, check: (Record, nat) -> seq<string>)
    ensures Errors(data + more, check) == Errors(data, check) + ErrorsFrom(more, |data|, check)
    decreases |more|
  {
    if more != [] {
      var n := |more| - 1;
      ErrorsAppend(data, more[..n], check);
      assert (data + more)[..|data| + n] == data + more[..n];
    } else {
      assert data + more == data;
    }
  }

  /** The messages of `more`, numbered from `start`. */
  function ErrorsFrom(more: seq<Record>, start: nat, check: (Record, nat) -> seq<string>): seq<string> {
    if more == [] then []
    else
      var n := |more| - 1;
      ErrorsFrom(more[..n], start, check) + check(more[n], start + n)
  }

  /** Text starting with a digit reads as a number, whatever follows it. */
  lemma LeadingDigitParses(s: string)
    requires s != [] && IsDigit(s[0])
    ensures FloatParses(s)
    ensures !(|s| >= 2 && s[0] == '0' && (s[1] == 'x' || s[1] == 'X')) ==> IntParses(s)
  {
    NotSpace(s);
  }

  /** Text starting with a character that cannot begin a number (a currency
      sign, a letter other than the 'I' of "Infinity") reads as no number. */
  lemma LeadingSymbolFails(s: string)
    requires s != [] && !IsSpace(s[0]) && !IsDigit(s[0])
    requires s[0] != '+' && s[0] != '-' && s[0] != '.' && s[0] != 'I'
    ensures !FloatParses(s) && !IntParses(s)
  {
    NotSpace(s);
    assert |s| >= 8 ==> s[..8][0] == s[0];
  }

  /** `parseInt` reads a "0x" prefix as hexadecimal, so it needs a
      hexadecimal digit after it. */
  lemma HexNeedsDigit(s: string)
    requires |s| >= 2 && s[0] == '0' && (s[1] == 'x' || s[1] == 'X')
    ensures IntParses(s) <==> |s| >= 3 && IsHexDigit(s[2])
  {
    NotSpace(s);
  }

  lemma NotSpace(s: string)
    requires s != [] && !IsSpace(s[0])
    ensures TrimStart(s) == s
  {
  }
}
