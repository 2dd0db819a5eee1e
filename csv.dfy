/**
 * CSV export and import: writing records under a header row, reading a
 * line with quoted fields, and reading a whole file into records keyed by
 * the header names.
 *
 * A record is a map from column name to text; a column a record lacks is
 * JavaScript's `undefined` (or `null`) and is written as an empty field.
 */
module Csv {
  import opened Text

  type Record = map<string, string>

  // ---------------------------------------------------------------------
  // convertToCSV

  /** `v.replace(/"/g, '""')`: every quote doubled. */
  function DoubleQuotes(v: string): (r: string)
    ensures |r| >= |v|
    ensures forall c :: c in r ==> c in v || c == '"'
    ensures '"' !in v ==> r == v
  {
    if v == [] then []
    else (if v[0] == '"' then "\"\"" else [v[0]]) + DoubleQuotes(v[1..])
  }

  /** A value holding a comma, a quote or a line break is written quoted. */
  predicate NeedsQuotes(v: string) {
    ',' in v || '"' in v || '\n' in v
  }

  /** One field as written: quoted, with quotes doubled, when it needs quotes. */
  function EscapeValue(v: string): (r: string)
    ensures !NeedsQuotes(v) ==> r == v
    ensures NeedsQuotes(v) ==> |r| >= 2 && r[0] == '"' && r[|r| - 1] == '"'
    ensures '\n' !in v ==> '\n' !in r
  {
    if NeedsQuotes(v) then "\"" + DoubleQuotes(v) + "\"" else v
  }

  function Escaped(values: seq<string>): (r: seq<string>)
    ensures |r| == |values|
  {
    seq(|values|, i requires 0 <= i < |values| => EscapeValue(values[i]))
  }

  /** The record's value under each header, empty where it has none. */
  function Values(record: Record, headers: seq<string>): (r: seq<string>)
    ensures |r| == |headers|
  {
    seq(|headers|, i requires 0 <= i < |headers| => if headers[i] in record then record[headers[i]] else "")
  }

  /** One record as a line. */
  function RecordLine(record: Record, headers: seq<string>): string {
    Join(Escaped(Values(record, headers)), ",")
  }

  function RecordLines(data: seq<Record>, headers: seq<string>): (r: seq<string>)
    ensures |r| == |data|
  {
    seq(|data|, i requires 0 <= i < |data| => RecordLine(data[i], headers))
  }

  /** `convertToCSV`: nothing for no records, otherwise the header row and
      one line per record, joined by line breaks. */
  function ConvertToCsv(data: seq<Record>, headers: seq<string>): (r: string)
    ensures data == [] ==> r == ""
  {
    if data == [] then ""
    else Join([Join(headers, ",")] + RecordLines(data, headers), "\n")
  }

  // ---------------------------------------------------------------------
  // parseCSVLine

  /**
   * The line scanner's state after `s` is what remains: the field being
   * read, whether a quote is open, and the fields already read. A quote
   * opens or closes a quoted stretch, except that two quotes inside one
   * stand for a quote; a comma outside quotes ends a field.
   */
  function Scan(s: string, cur: string, inQuotes: bool, acc: seq<string>): (r: seq<string>)
    ensures |r| > |acc|
    decreases |s|
  {
    if s == [] then acc + [cur]
    else if s[0] == '"' then
      if inQuotes && |s| > 1 && s[1] == '"' then Scan(s[2..], cur + "\"", inQuotes, acc)
      else Scan(s[1..], cur, !inQuotes, acc)
    else if s[0] == ',' && !inQuotes then Scan(s[1..], "", inQuotes, acc + [cur])
    else Scan(s[1..], cur + [s[0]], inQuotes, acc)
  }

  /** The scanner only appends: the fields collected so far stay in front. */
  lemma {:induction false} ScanKeepsFields(s: string, cur: string, inQuotes: bool, acc: seq<string>)
    ensures Scan(s, cur, inQuotes, acc)[..|acc|] == acc
    decreases |s|
  {
    if s == [] {
    } else if s[0] == '"' {
      if inQuotes && |s| > 1 && s[1] == '"' {
        ScanKeepsFields(s[2..], cur + "\"", inQuotes, acc);
      } else {
        ScanKeepsFields(s[1..], cur, !inQuotes, acc);
      }
    } else if s[0] == ',' && !inQuotes {
      ScanKeepsFields(s[1..], "", inQuotes, acc + [cur]);
      assert (acc + [cur])[..|acc|] == acc;
    } else {
      ScanKeepsFields(s[1..], cur + [s[0]], inQuotes, acc);
    }
  }

  /** The fields of one line. */
  function ParseLine(line: string): (r: seq<string>)
    ensures |r| >= 1
  {
    Scan(line, "", false, [])
  }

  /** `parseCSVLine`, character by character. */
  method ParseCsvLine(line: string) returns (result: seq<string>)
    ensures result == ParseLine(line)
  {
    result := [];
    var current := "";
    var inQuotes := false;
    var i := 0;
    while i < |line|
      invariant 0 <= i <= |line|
      invariant Scan(line[i..], current, inQuotes, result) == ParseLine(line)
    {
      var c := line[i];
      assert line[i..][0] == c && line[i..][1..] == line[i + 1..];
      if c == '"' {
        if inQuotes && i + 1 < |line| && line[i + 1] == '"' {
          assert line[i..][1] == '"' && line[i..][2..] == line[i + 2..];
          current := current + "\"";
          i := i + 1;
        } else {
          inQuotes := !inQuotes;
        }
      } else if c == ',' && !inQuotes {
        result := result + [current];
        current := "";
      } else {
        current := current + [c];
      }
      i := i + 1;
    }
    result := result + [current];
  }

  /** A line without quotes is read as `split(',')` reads it. */
  lemma ParseLineWithoutQuotes(line: string)
    requires '"' !in line
    ensures ParseLine(line) == Split(line, ',')
  {
    ScanWithoutQuotes(line, "", []);
    var p := Split(line, ',');
    assert "" + p[0] == p[0];
    assert [] + [p[0]] + p[1..] == p;
  }

  lemma {:induction false} ScanWithoutQuotes(s: string, cur: string, acc: seq<string>)
    requires '"' !in s
    ensures Scan(s, cur, false, acc) == acc + [cur + Split(s, ',')[0]] + Split(s, ',')[1..]
  {
    if s == [] {
      assert Split(s, ',') == [""];
      assert cur + "" == cur;
    } else {
      assert s[0] in s && s[0] != '"';
      assert '"' !in s[1..] by {
        assert forall c :: c in s[1..] ==> c in s;
      }
      if s[0] == ',' {
        ScanWithoutQuotes(s[1..], "", acc + [cur]);
        ScanWithoutQuotesComma(s, cur, acc);
      } else {
        ScanWithoutQuotes(s[1..], cur + [s[0]], acc);
        ScanWithoutQuotesOther(s, cur, acc);
      }
    }
  }

  lemma ScanWithoutQuotesComma(s: string, cur: string, acc: seq<string>)
    requires s != [] && s[0] == ',' && '"' !in s[1..]
    requires Scan(s[1..], "", false, acc + [cur])
      == acc + [cur] + ["" + Split(s[1..], ',')[0]] + Split(s[1..], ',')[1..]
    ensures Scan(s, cur, false, acc) == acc + [cur + Split(s, ',')[0]] + Split(s, ',')[1..]
  {
    var q := Split(s[1..], ',');
    SplitStep(s, ',');
    var p := Split(s, ',');
    assert p[0] == "" && p[1..] == q;
    assert "" + q[0] == q[0] && cur + "" == cur;
    assert acc + [cur] + ["" + q[0]] + q[1..] == acc + [cur + p[0]] + p[1..];
  }

  lemma ScanWithoutQuotesOther(s: string, cur: string, acc: seq<string>)
    requires s != [] && s[0] != ',' && s[0] != '"' && '"' !in s[1..]
    requires Scan(s[1..], cur + [s[0]], false, acc)
      == acc + [cur + [s[0]] + Split(s[1..], ',')[0]] + Split(s[1..], ',')[1..]
    ensures Scan(s, cur, false, acc) == acc + [cur + Split(s, ',')[0]] + Split(s, ',')[1..]
  {
    var q := Split(s[1..], ',');
    SplitStep(s, ',');
    assert Scan(s, cur, false, acc) == Scan(s[1..], cur + [s[0]], false, acc);
    assert cur + [s[0]] + q[0] == cur + ([s[0]] + q[0]);
  }

  /** One character of `split`: a separator starts a new piece, any other
      character joins the first piece. */
  lemma SplitStep(s: string, sep: char)
    requires s != []
    ensures var q := Split(s[1..], sep);
      Split(s, sep) == if s[0] == sep then [""] + q else [[s[0]] + q[0]] + q[1..]
  {
  }

  /** A field without quotes or commas is read as it stands. */
  lemma {:induction false} ScanPlain(v: string, rest: string, cur: string, acc: seq<string>)
    requires '"' !in v && ',' !in v
    ensures Scan(v + rest, cur, false, acc) == Scan(rest, cur + v, false, acc)
  {
    if v == [] {
      assert v + rest == rest && cur + v == cur;
    } else {
      var s := v + rest;
      assert s[0] == v[0] && s[1..] == v[1..] + rest;
      assert Scan(s, cur, false, acc) == Scan(s[1..], cur + [v[0]], false, acc);
      ScanPlain(v[1..], rest, cur + [v[0]], acc);
      assert cur + [v[0]] + v[1..] == cur + v;
    }
  }

  /** Inside quotes, a doubled quote reads as one quote and the closing quote
      ends the quoted stretch, so the body reads back as the value. */
  lemma {:induction false} ScanQuotedBody(v: string, rest: string, cur: string, acc: seq<string>)
    requires rest == [] || rest[0] != '"'
    ensures Scan(DoubleQuotes(v) + "\"" + rest, cur, true, acc) == Scan(rest, cur + v, false, acc)
  {
    if v == [] {
      var s := DoubleQuotes(v) + "\"" + rest;
      assert s == "\"" + rest && s[1..] == rest;
      assert s[0] == '"' && (|s| > 1 ==> s[1] == rest[0]);
      assert Scan(s, cur, true, acc) == Scan(rest, cur, false, acc);
      assert cur + v == cur;
    } else if v[0] == '"' {
      QuotedQuote(v, rest, cur, acc);
      ScanQuotedBody(v[1..], rest, cur + "\"", acc);
      assert cur + "\"" + v[1..] == cur + v;
    } else {
      QuotedOther(v, rest, cur, acc);
      ScanQuotedBody(v[1..], rest, cur + [v[0]], acc);
      assert cur + [v[0]] + v[1..] == cur + v;
    }
  }

  /** Inside quotes, a doubled quote stands for one quote. */
  lemma QuotedQuote(v: string, rest: string, cur: string, acc: seq<string>)
    requires v != [] && v[0] == '"'
    ensures Scan(DoubleQuotes(v) + "\"" + rest, cur, true, acc)
         == Scan(DoubleQuotes(v[1..]) + "\"" + rest, cur + "\"", true, acc)
  {
    var t := DoubleQuotes(v[1..]) + "\"" + rest;
    assert DoubleQuotes(v) == "\"\"" + DoubleQuotes(v[1..]);
    var s := DoubleQuotes(v) + "\"" + rest;
    assert s == "\"\"" + t && s[2..] == t;
  }

  /** Inside quotes, any other character joins the field. */
  lemma QuotedOther(v: string, rest: string, cur: string, acc: seq<string>)
    requires v != [] && v[0] != '"'
    ensures Scan(DoubleQuotes(v) + "\"" + rest, cur, true, acc)
         == Scan(DoubleQuotes(v[1..]) + "\"" + rest, cur + [v[0]], true, acc)
  {
    var t := DoubleQuotes(v[1..]) + "\"" + rest;
    assert DoubleQuotes(v) == [v[0]] + DoubleQuotes(v[1..]);
    var s := DoubleQuotes(v) + "\"" + rest;
    assert s == [v[0]] + t && s[1..] == t;
  }

  /** An escaped field followed by the end of the line or a comma reads back as its value. */
  lemma ScanEscaped(v: string, rest: string, acc: seq<string>)
    requires rest == [] || rest[0] == ','
    ensures Scan(EscapeValue(v) + rest, "", false, acc) == Scan(rest, v, false, acc)
  {
    if NeedsQuotes(v) {
      var t := DoubleQuotes(v) + "\"" + rest;
      var s := "\"" + t;
      assert EscapeValue(v) + rest == s;
      assert s[0] == '"' && s[1..] == t;
      assert Scan(s, "", false, acc) == Scan(t, "", true, acc);
      ScanQuotedBody(v, rest, "", acc);
      assert "" + v == v;
    } else {
      ScanPlain(v, rest, "", acc);
      assert "" + v == v;
    }
  }

  lemma {:induction false} ScanEscapedFields(fields: seq<string>, acc: seq<string>)
    requires |fields| >= 1
    ensures Scan(Join(Escaped(fields), ","), "", false, acc) == acc + fields
  {
    var e := Escaped(fields);
    if |fields| == 1 {
      ScanEscaped(fields[0], [], acc);
      assert e[0] + [] == e[0];
    } else {
      var tail := Join(e[1..], ",");
      assert Join(e, ",") == e[0] + ("," + tail);
      ScanEscaped(fields[0], "," + tail, acc);
      ScanComma(tail, fields[0], acc);
      assert e[1..] == Escaped(fields[1..]);
      ScanEscapedFields(fields[1..], acc + [fields[0]]);
      assert acc + [fields[0]] + fields[1..] == acc + fields;
    }
  }

  /** A comma outside quotes ends the field being read. */
  lemma ScanComma(tail: string, cur: string, acc: seq<string>)
    ensures Scan("," + tail, cur, false, acc) == Scan(tail, "", false, acc + [cur])
  {
    assert ("," + tail)[1..] == tail;
  }

  /** Any fields, escaped and joined by commas, read back as themselves. */
  lemma EscapedLineParses(fields: seq<string>)
    requires |fields| >= 1
    ensures ParseLine(Join(Escaped(fields), ",")) == fields
  {
    ScanEscapedFields(fields, []);
  }

  // ---------------------------------------------------------------------
  // parseCSV

  /** `lines.filter(line => line.trim())`: the lines that are not blank. */
  function NonBlank(lines: seq<string>): (r: seq<string>)
    ensures |r| <= |lines|
    ensures forall i :: 0 <= i < |r| ==> Trim(r[i]) != ""
  {
    if lines == [] then []
    else (if Trim(lines[0]) != "" then [lines[0]] else []) + NonBlank(lines[1..])
  }

  /** The filter keeps exactly the lines that are not blank. */
  lemma {:induction false} NonBlankExactly(lines: seq<string>)
    ensures forall l :: l in NonBlank(lines) <==> l in lines && Trim(l) != ""
  {
    if lines != [] {
      NonBlankExactly(lines[1..]);
      assert lines == [lines[0]] + lines[1..];
    }
  }

  function TrimAll(parts: seq<string>): (r: seq<string>)
    ensures |r| == |parts|
  {
    seq(|parts|, i requires 0 <= i < |parts| => Trim(parts[i]))
  }

  /** The header names: the first line split at every comma, trimmed. */
  function HeadersOf(line: string): (r: seq<string>)
    ensures |r| >= 1
  {
    TrimAll(Split(line, ','))
  }

  /** The record built from one line's fields: each header in turn takes its
      trimmed field, so a header named twice keeps the later field. */
  function RowOf(headers: seq<string>, values: seq<string>): (r: Record)
    requires |headers| == |values|
  {
    if headers == [] then map[]
    else
      var n := |headers| - 1;
      RowOf(headers[..n], values[..n])[headers[n] := Trim(values[n])]
  }

  /** A line's record has exactly the header names as its columns. */
  lemma {:induction false} RowOfKeys(headers: seq<string>, values: seq<string>)
    requires |headers| == |values|
    ensures forall k :: k in RowOf(headers, values) <==> k in headers
  {
    if headers != [] {
      var n := |headers| - 1;
      RowOfKeys(headers[..n], values[..n]);
      assert headers == headers[..n] + [headers[n]];
    }
  }

  /** The fields of each line, line by line. */
  function ParseLines(lines: seq<string>): (r: seq<seq<string>>)
    ensures |r| == |lines|
  {
    seq(|lines|, i requires 0 <= i < |lines| => ParseLine(lines[i]))
  }

  /** The records of the data lines' fields, in order; a line whose field
      count differs from the header count is skipped. */
  function RowsOf(headers: seq<string>, fields: seq<seq<string>>): (r: seq<Record>)
    ensures |r| <= |fields|
  {
    if fields == [] then []
    else
      var n := |fields| - 1;
      var rows := RowsOf(headers, fields[..n]);
      if |fields[n]| == |headers| then rows + [RowOf(headers, fields[n])] else rows
  }

  /** `parseCSV`. */
  function ParseCsv(text: string): (r: seq<Record>)
  {
    var lines := NonBlank(Split(text, '\n'));
    if lines == [] then [] else RowsOf(HeadersOf(lines[0]), ParseLines(lines[1..]))
  }

  /** The record of one line, header by header. */
  method BuildRow(headers: seq<string>, values: seq<string>) returns (row: Record)
    requires |headers| == |values|
    ensures row == RowOf(headers, values)
  {
    row := map[];
    var j := 0;
    while j < |headers|
      invariant 0 <= j <= |headers|
      invariant row == RowOf(headers[..j], values[..j])
    {
      RowOfPrefixStep(headers, values, j);
      row := row[headers[j] := Trim(values[j])];
      j := j + 1;
    }
    assert headers[..j] == headers && values[..j] == values;
  }

  /** One more header: its trimmed field is entered over what came before. */
  lemma RowOfPrefixStep(headers: seq<string>, values: seq<string>, j: nat)
    requires |headers| == |values| && j < |headers|
    ensures RowOf(headers[..j + 1], values[..j + 1]) == RowOf(headers[..j], values[..j])[headers[j] := Trim(values[j])]
  {
    var hs, vs := headers[..j + 1], values[..j + 1];
    assert hs[..j] == headers[..j] && vs[..j] == values[..j];
    assert hs[j] == headers[j] && vs[j] == values[j];
    assert RowOf(hs, vs) == RowOf(hs[..j], vs[..j])[hs[j] := Trim(vs[j])];
  }

  /** `parseCSV`: the non-blank lines, the headers from the first, then the records. */
  method ParseCsvText(text: string) returns (data: seq<Record>)
    ensures data == ParseCsv(text)
  {
    var lines := NonBlank(Split(text, '\n'));
    if |lines| == 0 {
      return [];
    }
    var headers := HeadersOf(lines[0]);
    data := ReadRecords(headers, lines);
  }

  /** `parseCSV`'s loop over the lines after the header line. */
  method ReadRecords(headers: seq<string>, lines: seq<string>) returns (data: seq<Record>)
    requires |lines| >= 1
    ensures data == RowsOf(headers, ParseLines(lines[1..]))
  {
    data := [];
    var i := 1;
    while i < |lines|
      invariant 1 <= i <= |lines|
      invariant data == RowsOf(headers, ParseLines(lines[1..i]))
    {
      var values := ParseCsvLine(lines[i]);
      assert lines[1..i + 1] == lines[1..i] + [lines[i]];
      ReadStep(headers, lines[1..i], lines[i]);
      if |values| == |headers| {
        var row := BuildRow(headers, values);
        data := data + [row];
      }
      i := i + 1;
    }
    assert lines[1..i] == lines[1..];
  }

  /** One more data line adds its record, unless its field count is wrong. */
  lemma ReadStep(headers: seq<string>, front: seq<string>, line: string)
    ensures var before := RowsOf(headers, ParseLines(front));
      var values := ParseLine(line);
      RowsOf(headers, ParseLines(front + [line])) ==
        if |values| == |headers| then before + [RowOf(headers, values)] else before
  {
    ParseLinesStep(front, line);
    RowsOfStep(headers, ParseLines(front), ParseLine(line));
  }

  /** One more line's fields follow the others'. */
  lemma ParseLinesStep(front: seq<string>, line: string)
    ensures ParseLines(front + [line]) == ParseLines(front) + [ParseLine(line)]
  {
    var next := front + [line];
    assert forall i :: 0 <= i < |front| ==> next[i] == front[i];
  }

  /** One more data line: its record, when it has one, follows the others. */
  lemma RowsOfStep(headers: seq<string>, front: seq<seq<string>>, values: seq<string>)
    ensures RowsOf(headers, front + [values]) ==
      if |values| == |headers| then RowsOf(headers, front) + [RowOf(headers, values)]
      else RowsOf(headers, front)
  {
    var next := front + [values];
    assert next[..|front|] == front && next[|front|] == values;
  }

  // ---------------------------------------------------------------------
  // What reading promises

  /** Every record read has exactly the header names as its columns, and
      every value is trimmed. */
  lemma ParsedRecordsShape(text: string)
    ensures var lines := NonBlank(Split(text, '\n'));
      lines == [] ==> ParseCsv(text) == []
    ensures var lines := NonBlank(Split(text, '\n'));
      lines != [] ==> forall i :: 0 <= i < |ParseCsv(text)| ==> ReadShape(ParseCsv(text)[i], HeadersOf(lines[0]))
  {
    var lines := NonBlank(Split(text, '\n'));
    if lines != [] {
      RecordsOfLinesShape(lines);
    }
  }

  lemma RecordsOfLinesShape(lines: seq<string>)
    requires lines != []
    ensures forall i :: 0 <= i < |RowsOf(HeadersOf(lines[0]), ParseLines(lines[1..]))| ==>
      ReadShape(RowsOf(HeadersOf(lines[0]), ParseLines(lines[1..]))[i], HeadersOf(lines[0]))
  {
    RowsOfShape(HeadersOf(lines[0]), ParseLines(lines[1..]));
  }

  /** A record as reading makes it: exactly the header names as columns,
      every value trimmed. */
  ghost predicate ReadShape(r: Record, headers: seq<string>) {
    && (forall k :: k in r <==> k in headers)
    && (forall k :: k in r ==> Trimmed(r[k]))
  }

  lemma {:induction false} RowsOfShape(headers: seq<string>, fields: seq<seq<string>>)
    ensures forall i :: 0 <= i < |RowsOf(headers, fields)| ==> ReadShape(RowsOf(headers, fields)[i], headers)
  {
    if fields != [] {
      var n := |fields| - 1;
      var front := fields[..n];
      assert fields == front + [fields[n]];
      RowsOfShape(headers, front);
      RowsOfStep(headers, front, fields[n]);
      if |fields[n]| == |headers| {
        RowOfShape(headers, fields[n]);
        AllSnoc(RowsOf(headers, front), RowOf(headers, fields[n]), iset r | ReadShape(r, headers));
      }
    }
  }

  /** Appending a member of `good` to a sequence of members of `good`. */
  lemma AllSnoc<T>(s: seq<T>, x: T, good: iset<T>)
    requires forall i :: 0 <= i < |s| ==> s[i] in good
    requires x in good
    ensures forall i :: 0 <= i < |s + [x]| ==> (s + [x])[i] in good
  {
  }

  /** One line's record has the shape of a record read. */
  lemma RowOfShape(headers: seq<string>, values: seq<string>)
    requires |headers| == |values|
    ensures ReadShape(RowOf(headers, values), headers)
  {
    RowOfKeys(headers, values);
    RowOfTrimmed(headers, values);
  }

  lemma {:induction false} RowOfTrimmed(headers: seq<string>, values: seq<string>)
    requires |headers| == |values|
    ensures forall k :: k in RowOf(headers, values) ==> Trimmed(RowOf(headers, values)[k])
  {
    if headers != [] {
      var n := |headers| - 1;
      var hs, vs := headers[..n], values[..n];
      RowOfTrimmed(hs, vs);
      assert RowOf(headers, values) == RowOf(hs, vs)[headers[n] := Trim(values[n])];
    }
  }

  /** A record read from a line holds, under every header, that line's field
      at the header's position, when the header is named once. */
  lemma {:induction false} RowOfField(headers: seq<string>, values: seq<string>, i: nat)
    requires |headers| == |values| && i < |headers|
    requires forall j :: 0 <= j < |headers| && j != i ==> headers[j] != headers[i]
    ensures headers[i] in RowOf(headers, values) && RowOf(headers, values)[headers[i]] == Trim(values[i])
  {
    var n := |headers| - 1;
    var before := RowOf(headers[..n], values[..n]);
    assert RowOf(headers, values) == before[headers[n] := Trim(values[n])];
    if i < n {
      var hs := headers[..n];
      assert hs[i] == headers[i] && values[..n][i] == values[i];
      forall j | 0 <= j < n && j != i
        ensures hs[j] != hs[i]
      {
        assert hs[j] == headers[j];
      }
      RowOfField(hs, values[..n], i);
      assert headers[n] != headers[i];
    }
  }

  // ---------------------------------------------------------------------
  // Writing then reading

  /** The columns the round trip can carry: named, without commas, line
      breaks or surrounding white space. */
  predicate GoodHeaders(headers: seq<string>) {
    && |headers| >= 2
    && forall i :: 0 <= i < |headers| ==>
         ',' !in headers[i] && '\n' !in headers[i] && Trimmed(headers[i])
  }

  /** The records the round trip can carry: each has exactly the header
      columns, and no value holds a line break or surrounding white space. */
  ghost predicate GoodRecord(r: Record, headers: seq<string>) {
    && (forall k :: k in r <==> k in headers)
    && (forall k :: k in r ==> '\n' !in r[k] && Trimmed(r[k]))
  }

  /**
   * Reading what was written gives back the records, when there are at
   * least two columns (so that no line is blank), and headers and values
   * hold no line break (the reader splits lines before it reads quotes) and
   * no surrounding white space (the reader trims).
   */
  lemma ConvertThenParse(data: seq<Record>, headers: seq<string>)
    requires data != [] && GoodHeaders(headers)
    requires forall i :: 0 <= i < |data| ==> GoodRecord(data[i], headers)
    ensures ParseCsv(ConvertToCsv(data, headers)) == data
  {
    var body := RecordLines(data, headers);
    var lines := [Join(headers, ",")] + body;
    WrittenLines(data, headers);
    assert NonBlank(Split(ConvertToCsv(data, headers), '\n')) == lines;
    HeaderLineReadsBack(headers);
    assert lines[0] == Join(headers, ",") && lines[1..] == body;
    var fields := ParseLines(body);
    forall i | 0 <= i < |body|
      ensures |fields[i]| == |headers| && RowOf(headers, fields[i]) == data[i]
    {
      RecordLineReadsBack(data[i], headers);
    }
    RowsOfAllMatch(headers, fields, data);
  }

  /** The written text splits back into its lines, none of them blank. */
  lemma WrittenLines(data: seq<Record>, headers: seq<string>)
    requires data != [] && GoodHeaders(headers)
    requires forall i :: 0 <= i < |data| ==> GoodRecord(data[i], headers)
    ensures NonBlank(Split(ConvertToCsv(data, headers), '\n')) == [Join(headers, ",")] + RecordLines(data, headers)
  {
    HeaderLineShape(headers);
    RecordLinesShape(data, headers);
    LinesSurvive(Join(headers, ","), RecordLines(data, headers));
  }

  /** Every record line holds a comma and no line break. */
  lemma RecordLinesShape(data: seq<Record>, headers: seq<string>)
    requires GoodHeaders(headers)
    requires forall i :: 0 <= i < |data| ==> GoodRecord(data[i], headers)
    ensures forall j :: 0 <= j < |RecordLines(data, headers)| ==>
      '\n' !in RecordLines(data, headers)[j] && ',' in RecordLines(data, headers)[j]
  {
    var body := RecordLines(data, headers);
    forall j | 0 <= j < |body|
      ensures '\n' !in body[j] && ',' in body[j]
    {
      RecordLineShape(data[j], headers);
    }
  }

  /** Lines with a comma and no line break come back from a join by line
      breaks, none of them dropped as blank. */
  lemma LinesSurvive(head: string, body: seq<string>)
    requires '\n' !in head && ',' in head
    requires forall j :: 0 <= j < |body| ==> '\n' !in body[j] && ',' in body[j]
    ensures NonBlank(Split(Join([head] + body, "\n"), '\n')) == [head] + body
  {
    var lines := [head] + body;
    forall i | 0 <= i < |lines|
      ensures '\n' !in lines[i] && ',' in lines[i]
    {
      if i > 0 {
        assert lines[i] == body[i - 1];
      }
    }
    JoinSplits(lines);
    NonBlankKeepsAll(lines);
  }

  /** The header line holds no line break and at least one comma. */
  lemma HeaderLineShape(headers: seq<string>)
    requires GoodHeaders(headers)
    ensures '\n' !in Join(headers, ",") && ',' in Join(headers, ",")
  {
    JoinAvoids(headers, ",", '\n');
    JoinHasSeparator(headers, ',');
  }

  /** A good record's line holds no line break and at least one comma. */
  lemma RecordLineShape(r: Record, headers: seq<string>)
    requires GoodHeaders(headers) && GoodRecord(r, headers)
    ensures '\n' !in RecordLine(r, headers) && ',' in RecordLine(r, headers)
  {
    var e := Escaped(Values(r, headers));
    forall j | 0 <= j < |e|
      ensures '\n' !in e[j]
    {
      assert headers[j] in headers;
    }
    JoinAvoids(e, ",", '\n');
    JoinHasSeparator(e, ',');
  }

  /** The header line reads back as the headers. */
  lemma HeaderLineReadsBack(headers: seq<string>)
    requires GoodHeaders(headers)
    ensures HeadersOf(Join(headers, ",")) == headers
  {
    SplitJoin(headers, ',');
    forall i | 0 <= i < |headers|
      ensures Trim(headers[i]) == headers[i]
    {
      TrimOfTrimmed(headers[i]);
    }
  }

  /** A good record's line reads back as the record. */
  lemma RecordLineReadsBack(r: Record, headers: seq<string>)
    requires GoodHeaders(headers) && GoodRecord(r, headers)
    ensures |ParseLine(RecordLine(r, headers))| == |headers|
    ensures RowOf(headers, ParseLine(RecordLine(r, headers))) == r
  {
    var values := Values(r, headers);
    EscapedLineParses(values);
    forall i | 0 <= i < |headers|
      ensures headers[i] in r && values[i] == r[headers[i]] && Trimmed(r[headers[i]])
    {
      assert headers[i] in headers;
    }
    RowOfRecord(headers, values, r);
  }

  lemma JoinSplits(lines: seq<string>)
    requires |lines| >= 1
    requires forall i :: 0 <= i < |lines| ==> '\n' !in lines[i]
    ensures Split(Join(lines, "\n"), '\n') == lines
  {
    SplitJoin(lines, '\n');
  }

  /** A character in neither the parts nor the separator is not in the join. */
  lemma {:induction false} JoinAvoids(parts: seq<string>, sep: string, c: char)
    requires c !in sep
    requires forall i :: 0 <= i < |parts| ==> c !in parts[i]
    ensures c !in Join(parts, sep)
  {
    if |parts| > 1 {
      JoinAvoids(parts[1..], sep, c);
    }
  }

  /** Two or more parts joined hold the separator. */
  lemma JoinHasSeparator(parts: seq<string>, c: char)
    requires |parts| >= 2
    ensures c in Join(parts, [c])
  {
    assert Join(parts, [c]) == parts[0] + [c] + Join(parts[1..], [c]);
    assert Join(parts, [c])[|parts[0]|] == c;
  }

  /** Lines that each hold a comma are none of them blank. */
  lemma {:induction false} NonBlankKeepsAll(lines: seq<string>)
    requires forall i :: 0 <= i < |lines| ==> ',' in lines[i]
    ensures NonBlank(lines) == lines
  {
    if lines != [] {
      var rest := lines[1..];
      assert forall i :: 0 <= i < |rest| ==> ',' in rest[i] by {
        forall i | 0 <= i < |rest|
          ensures ',' in rest[i]
        {
          assert rest[i] == lines[i + 1];
        }
      }
      NonBlankKeepsAll(rest);
      CommaLineNotBlank(lines[0]);
      assert NonBlank(lines) == [lines[0]] + NonBlank(rest);
      assert lines == [lines[0]] + rest;
    }
  }

  lemma CommaLineNotBlank(line: string)
    requires ',' in line
    ensures Trim(line) != ""
  {
    var k :| 0 <= k < |line| && line[k] == ',';
    assert !IsSpace(line[k]);
    TrimEmpty(line);
  }

  /** The fields of a good record, read back under its headers, rebuild it. */
  lemma RowOfRecord(headers: seq<string>, values: seq<string>, r: Record)
    requires |headers| == |values|
    requires forall k :: k in r <==> k in headers
    requires forall i :: 0 <= i < |headers| ==> headers[i] in r && values[i] == r[headers[i]] && Trimmed(r[headers[i]])
    ensures RowOf(headers, values) == r
  {
    forall i | 0 <= i < |headers|
      ensures headers[i] in r && Trim(values[i]) == r[headers[i]]
    {
      TrimOfTrimmed(values[i]);
    }
    RowOfKeys(headers, values);
    RowOfAgrees(headers, values, r);
    SameRecord(RowOf(headers, values), r);
  }

  /** Records with the same columns and the same value in each are equal. */
  lemma SameRecord(m: Record, r: Record)
    requires forall k :: k in m <==> k in r
    requires forall k :: k in m ==> m[k] == r[k]
    ensures m == r
  {
    assert m.Keys == r.Keys;
  }

  lemma {:induction false} RowOfAgrees(headers: seq<string>, values: seq<string>, r: Record)
    requires |headers| == |values|
    requires forall i :: 0 <= i < |headers| ==> headers[i] in r && Trim(values[i]) == r[headers[i]]
    ensures forall k :: k in RowOf(headers, values) ==> k in r && RowOf(headers, values)[k] == r[k]
  {
    if headers != [] {
      var n := |headers| - 1;
      var hs, vs := headers[..n], values[..n];
      forall i | 0 <= i < n
        ensures hs[i] in r && Trim(vs[i]) == r[hs[i]]
      {
        assert hs[i] == headers[i] && vs[i] == values[i];
      }
      RowOfAgrees(hs, vs, r);
      assert RowOf(headers, values) == RowOf(hs, vs)[headers[n] := Trim(values[n])];
      UpdateAgrees(RowOf(hs, vs), headers[n], Trim(values[n]), r);
    }
  }

  /** Entering a value a map already agrees on keeps the map agreeing with it. */
  lemma UpdateAgrees<K, V>(m: map<K, V>, k: K, v: V, r: map<K, V>)
    requires forall j :: j in m ==> j in r && m[j] == r[j]
    requires k in r && r[k] == v
    ensures forall j :: j in m[k := v] ==> j in r && m[k := v][j] == r[j]
  {
  }

  /** When every line gives its record, the lines give all the records, in order. */
  lemma {:induction false} RowsOfAllMatch(headers: seq<string>, fields: seq<seq<string>>, data: seq<Record>)
    requires |fields| == |data|
    requires forall i :: 0 <= i < |fields| ==> |fields[i]| == |headers| && RowOf(headers, fields[i]) == data[i]
    ensures RowsOf(headers, fields) == data
  {
    if fields != [] {
      var n := |fields| - 1;
      var front, before := fields[..n], data[..n];
      forall i | 0 <= i < n
        ensures |front[i]| == |headers| && RowOf(headers, front[i]) == before[i]
      {
        assert front[i] == fields[i] && before[i] == data[i];
      }
      RowsOfAllMatch(headers, front, before);
      assert fields == front + [fields[n]];
      RowsOfStep(headers, front, fields[n]);
      assert data == before + [data[n]];
    }
  }
}
