/** Proofs about the CSV text of frontend/src/AdminDashboard.jsx: what the
    export writes, the import reads back, and a header the loose column check
    lets through yields no row. */
module CsvRoundTrip {
  import opened Wrappers
  import opened Text
  import opened AdminDashboard
  import opened CandidateCsv

  /** Exporting a non-empty list of exportable candidates and importing the
      text gives every candidate back, in order, with its votes reset. */
  lemma ExportImportRoundTrip(cs: seq<Candidate>)
    requires |cs| >= 1
    requires forall c :: c in cs ==> Exportable(c)
    ensures Import(ExportCsv(cs)) == Parsed(seq(|cs|, i requires 0 <= i < |cs| => ImportedOf(cs[i])))
  {
    var lines := CleanLines(Split(ExportCsv(cs), '\n'));
    ExportLinesRead(cs);
    assert Cells(lines[0]) == ExportHeaders;
    HeadersComplete();
    assert lines[1..] == ExportLines(cs);
    ExportedLinesRows(cs);
  }

  /** The export's lines survive the split and the clean-up: the header line,
      then one line per candidate. */
  lemma ExportLinesRead(cs: seq<Candidate>)
    requires forall c :: c in cs ==> Exportable(c)
    ensures CleanLines(Split(ExportCsv(cs), '\n')) == [Join(ExportHeaders, ',')] + ExportLines(cs)
    ensures Cells(Join(ExportHeaders, ',')) == ExportHeaders
  {
    var header := Join(ExportHeaders, ',');
    var lines := [header] + ExportLines(cs);
    HeaderLine();
    ExportLinesSplit(header, cs);
    assert Split(ExportCsv(cs), '\n') == lines;
    ExportLinesClean(header, cs);
    HeaderCells();
  }

  /** Under the export headers, each exported line gives back its candidate. */
  lemma ExportedLinesRows(cs: seq<Candidate>)
    requires forall c :: c in cs ==> Exportable(c)
    ensures RowsOf(ExportHeaders, ExportLines(cs)) == seq(|cs|, i requires 0 <= i < |cs| => ImportedOf(cs[i]))
  {
    var lines := ExportLines(cs);
    var rows := seq(|cs|, i requires 0 <= i < |cs| => ImportedOf(cs[i]));
    forall i | 0 <= i < |cs| ensures RowOf(ExportHeaders, lines[i]) == [rows[i]] {
      assert cs[i] in cs;
      ExportedRow(cs[i]);
    }
    RowsOfLines(ExportHeaders, lines, rows);
  }

  /** The export's text splits back into its header line and one line per
      candidate. */
  lemma ExportLinesSplit(header: string, cs: seq<Candidate>)
    requires '\n' !in header
    requires forall c :: c in cs ==> Exportable(c)
    ensures Split(Join([header] + ExportLines(cs), '\n'), '\n') == [header] + ExportLines(cs)
  {
    var lines := [header] + ExportLines(cs);
    forall i | 0 <= i < |lines| ensures '\n' !in lines[i] {
      if i > 0 {
        assert lines[i] == ExportLine(cs[i - 1]);
        assert cs[i - 1] in cs;
        LineShape(cs[i - 1]);
      }
    }
    SplitOfJoin(lines, '\n');
  }

  /** Trimming and dropping blank lines keeps a header line with nothing to
      trim and every exported line. */
  lemma ExportLinesClean(header: string, cs: seq<Candidate>)
    requires header != "" && Trimmed(header)
    requires forall c :: c in cs ==> Exportable(c)
    ensures CleanLines([header] + ExportLines(cs)) == [header] + ExportLines(cs)
  {
    var lines := [header] + ExportLines(cs);
    forall i | 0 <= i < |lines| ensures lines[i] != "" && Trimmed(lines[i]) {
      if i > 0 {
        assert lines[i] == ExportLine(cs[i - 1]);
        assert cs[i - 1] in cs;
        LineShape(cs[i - 1]);
      }
    }
    CleanLinesKeeps(lines);
  }

  lemma {:induction false} CleanLinesKeeps(parts: seq<string>)
    requires forall i :: 0 <= i < |parts| ==> parts[i] != "" && Trimmed(parts[i])
    ensures CleanLines(parts) == parts
  {
    if parts != [] {
      CleanLinesKeeps(parts[..|parts| - 1]);
      assert parts == parts[..|parts| - 1] + [parts[|parts| - 1]];
    }
  }

  /** The headers hold no separator, quote or blank end. */
  lemma HeadersPlain()
    ensures forall i :: 0 <= i < |ExportHeaders| ==>
      && ',' !in ExportHeaders[i] && '"' !in ExportHeaders[i] && '\n' !in ExportHeaders[i]
      && Trimmed(ExportHeaders[i])
  {
    FirstHeadersPlain();
    LastHeadersPlain();
  }

  lemma FirstHeadersPlain()
    ensures forall i :: 0 <= i < 5 ==>
      && ',' !in ExportHeaders[i] && '"' !in ExportHeaders[i] && '\n' !in ExportHeaders[i]
      && Trimmed(ExportHeaders[i])
  {
  }

  lemma LastHeadersPlain()
    ensures forall i :: 5 <= i < 10 ==>
      && ',' !in ExportHeaders[i] && '"' !in ExportHeaders[i] && '\n' !in ExportHeaders[i]
      && Trimmed(ExportHeaders[i])
  {
  }

  /** The header line: no newline, non-empty, nothing to trim. */
  lemma HeaderLine()
    ensures var h := Join(ExportHeaders, ',');
      '\n' !in h && h != "" && Trimmed(h)
  {
    HeadersPlain();
    NoCharInJoin(ExportHeaders, ',', '\n');
    JoinFirst(ExportHeaders, ',');
    JoinLast(ExportHeaders, ',');
  }

  /** The header line reads back as the ten headers. */
  lemma HeaderCells()
    ensures Cells(Join(ExportHeaders, ',')) == ExportHeaders
  {
    HeadersPlain();
    PlainCells(ExportHeaders);
  }

  /** Pieces with no comma, no quote and nothing to trim, joined by commas,
      read back as themselves. */
  lemma PlainCells(parts: seq<string>)
    requires |parts| >= 1
    requires forall i :: 0 <= i < |parts| ==> ',' !in parts[i] && '"' !in parts[i] && Trimmed(parts[i])
    ensures Cells(Join(parts, ',')) == parts
  {
    SplitOfJoin(parts, ',');
    var cells := Cells(Join(parts, ','));
    forall i | 0 <= i < |parts| ensures cells[i] == parts[i] {
      PlainCell(parts[i]);
    }
  }

  /** A cell with no quote and nothing to trim is read as it is. */
  lemma PlainCell(v: string)
    requires '"' !in v && Trimmed(v)
    ensures CleanCell(v) == v
  {
  }

  /** The headers lower-case to the keys. */
  lemma HeaderLower()
    ensures forall i :: 0 <= i < 10 ==> ToLower(ExportHeaders[i]) == ExportKeys[i]
  {
    forall i | 0 <= i < 10 ensures ToLower(ExportHeaders[i]) == ExportKeys[i] {
      LowerHeader(i);
    }
  }

  lemma KeysDistinct()
    ensures forall i, j :: 0 <= i < j < 10 ==> ExportKeys[i] != ExportKeys[j]
  {
  }

  /** Every required column is among the export headers. */
  lemma HeadersComplete()
    ensures MissingOf(Required, ExportHeaders) == []
  {
    HeaderLower();
    KeyedColumns(ExportHeaders);
    NoneMissing(Required, ExportHeaders);
  }

  /** Headers lowering to the export keys hold every required column. */
  lemma KeyedColumns(headers: seq<string>)
    requires |headers| == 10
    requires forall i :: 0 <= i < 10 ==> ToLower(headers[i]) == ExportKeys[i]
    ensures forall c :: c in Required ==> HasColumn(headers, c)
  {
    forall c | c in Required ensures HasColumn(headers, c) {
      var i := if c == "name" then 0 else if c == "party" then 2 else if c == "position" then 3 else 7;
      SelfContained(ExportKeys[i]);
      ColumnAt(headers, i, c);
    }
  }

  lemma ColumnAt(headers: seq<string>, i: nat, column: string)
    requires i < |headers| && Contains(ToLower(headers[i]), column)
    ensures HasColumn(headers, column)
  {
    assert headers[i] in headers;
  }

  lemma NoneMissing(required: seq<string>, headers: seq<string>)
    requires forall c :: c in required ==> HasColumn(headers, c)
    ensures MissingOf(required, headers) == []
  {
  }

  lemma SelfContained(s: string)
    ensures Contains(s, s)
  {
  }

  lemma LowerHeader(i: nat)
    requires i < 10
    ensures ToLower(ExportHeaders[i]) == ExportKeys[i]
  {
    var h := ExportHeaders[i];
    var k := ExportKeys[i];
    assert |h| == |k|;
    forall j | 0 <= j < |h| ensures LowerChar(h[j]) == k[j] {
    }
  }

  /** The vote count's text is a minus sign and digits, so plain. */
  lemma VotesPlain(v: int)
    ensures Plain(IntToString(v))
  {
    var t := IntToString(v);
    assert forall k :: 0 <= k < |t| ==> IsDigit(t[k]) || t[k] == '-';
  }

  function QuotedFields(c: Candidate): (r: seq<string>)
    ensures |r| == 10
  {
    var fields := ExportFields(c);
    seq(10, i requires 0 <= i < 10 => Quote(fields[i]))
  }

  /** Each quoted value of an exportable candidate: no comma or newline,
      a quote at each end, and it cleans back to the value. */
  lemma QuotedFieldsShape(c: Candidate)
    requires Exportable(c)
    ensures forall i :: 0 <= i < 10 ==>
      var q := QuotedFields(c)[i];
      && ',' !in q && '\n' !in q && q != "" && q[0] == '"' && q[|q| - 1] == '"'
      && CleanCell(q) == ExportFields(c)[i]
  {
    var fields := ExportFields(c);
    VotesPlain(c.votes);
    forall i | 0 <= i < 10
      ensures var q := QuotedFields(c)[i];
        && ',' !in q && '\n' !in q && q != "" && q[0] == '"' && q[|q| - 1] == '"'
        && CleanCell(q) == fields[i]
    {
      assert Plain(fields[i]);
      QuotedCell(fields[i]);
    }
  }

  /** One exported line: no newline, non-empty, nothing to trim. */
  lemma LineShape(c: Candidate)
    requires Exportable(c)
    ensures var l := ExportLine(c);
      '\n' !in l && l != "" && Trimmed(l)
  {
    var quoted := QuotedFields(c);
    assert ExportLine(c) == Join(quoted, ',');
    QuotedFieldsShape(c);
    QuotedJoinShape(quoted);
  }

  /** Quoted pieces without newlines join into a line with no newline that
      starts and ends with a quote. */
  lemma QuotedJoinShape(quoted: seq<string>)
    requires |quoted| >= 1
    requires forall i :: 0 <= i < |quoted| ==>
      '\n' !in quoted[i] && quoted[i] != "" && quoted[i][0] == '"' && quoted[i][|quoted[i]| - 1] == '"'
    ensures var l := Join(quoted, ',');
      '\n' !in l && l != "" && Trimmed(l)
  {
    NoCharInJoin(quoted, ',', '\n');
    JoinFirst(quoted, ',');
    JoinLast(quoted, ',');
  }

  /** One exported line reads back as the candidate's ten values. */
  lemma LineCells(c: Candidate)
    requires Exportable(c)
    ensures Cells(ExportLine(c)) == ExportFields(c)
  {
    var quoted := QuotedFields(c);
    assert ExportLine(c) == Join(quoted, ',');
    QuotedFieldsShape(c);
    SplitOfJoin(quoted, ',');
  }

  /** Cleaning a quoted text without quotes gives the text back. */
  lemma QuotedCell(f: string)
    requires '"' !in f
    ensures var q := Quote(f);
      q != "" && q[0] == '"' && q[|q| - 1] == '"' && CleanCell(q) == f
      && (forall ch :: ch != '"' && ch !in f ==> ch !in q)
  {
    var q := Quote(f);
    assert Trimmed(q);
    assert q[1..] == f + "\"";
    RemoveCharConcat(f, "\"", '"');
    assert RemoveChar("\"", '"') == "";
  }

  lemma {:induction false} NoCharInJoin(parts: seq<string>, sep: char, c: char)
    requires c != sep
    requires forall i :: 0 <= i < |parts| ==> c !in parts[i]
    ensures c !in Join(parts, sep)
  {
    if |parts| > 1 {
      NoCharInJoin(parts[1..], sep, c);
    }
  }

  /** A join begins with the first piece's first character. */
  lemma JoinFirst(parts: seq<string>, sep: char)
    requires |parts| >= 1 && parts[0] != ""
    ensures Join(parts, sep) != "" && Join(parts, sep)[0] == parts[0][0]
  {
  }

  /** A join ends with the last piece's last character. */
  lemma {:induction false} JoinLast(parts: seq<string>, sep: char)
    requires |parts| >= 1 && parts[|parts| - 1] != ""
    ensures var j := Join(parts, sep);
      j != "" && j[|j| - 1] == parts[|parts| - 1][|parts[|parts| - 1]| - 1]
  {
    if |parts| > 1 {
      JoinLast(parts[1..], sep);
    }
  }

  /** Every exported line reads back as its candidate's row. */
  lemma ExportedRow(c: Candidate)
    requires Exportable(c)
    ensures RowOf(ExportHeaders, ExportLine(c)) == [ImportedOf(c)]
  {
    LineCells(c);
    HeaderLower();
    KeyedRow(ExportHeaders, ExportFields(c), c);
  }

  /** The object of headers lowering to the export keys, over the exported
      values, gives back the candidate's row. */
  lemma KeyedRow(headers: seq<string>, values: seq<string>, c: Candidate)
    requires |headers| == 10 && values == ExportFields(c)
    requires forall i :: 0 <= i < 10 ==> ToLower(headers[i]) == ExportKeys[i]
    requires Exportable(c)
    ensures Keeps(RowObject(headers, values)) && RowFrom(RowObject(headers, values)) == ImportedOf(c)
  {
    KeysDistinct();
    KeyedObject(headers, values, ExportKeys);
    KeyNames();
  }

  /** Headers with distinct lower-case forms map each form to its value. */
  lemma KeyedObject(headers: seq<string>, values: seq<string>, keys: seq<string>)
    requires |headers| == |values| == |keys|
    requires forall i :: 0 <= i < |keys| ==> ToLower(headers[i]) == keys[i]
    requires forall i, j :: 0 <= i < j < |keys| ==> keys[i] != keys[j]
    ensures forall i :: 0 <= i < |keys| ==> Prop(RowObject(headers, values), keys[i]) == values[i]
  {
    forall i | 0 <= i < |keys| ensures Prop(RowObject(headers, values), keys[i]) == values[i] {
      RowObjectLookup(headers, values, i);
    }
  }

  lemma KeyNames()
    ensures ExportKeys[0] == "name" && ExportKeys[1] == "age" && ExportKeys[2] == "party"
    ensures ExportKeys[3] == "position" && ExportKeys[4] == "email" && ExportKeys[5] == "phone"
    ensures ExportKeys[6] == "image" && ExportKeys[7] == "description" && ExportKeys[8] == "status"
  {
  }

  /** Lines each of which gives exactly one row give those rows, in line
      order. */
  lemma {:induction false} RowsOfLines(headers: seq<string>, lines: seq<string>, rows: seq<Row>)
    requires |lines| == |rows|
    requires forall i {:trigger RowOf(headers, lines[i])} :: 0 <= i < |lines| ==> RowOf(headers, lines[i]) == [rows[i]]
    ensures RowsOf(headers, lines) == rows
  {
    if lines != [] {
      var n := |lines| - 1;
      var init := lines[..n];
      SnocSplit(rows);
      assert forall i :: 0 <= i < n ==> init[i] == lines[i];
      RowsOfLines(headers, init, rows[..n]);
      assert RowOf(headers, lines[n]) == [rows[n]];
      RowsSnoc(headers, lines);
    }
  }

  /** The rows of some lines are those of all but the last, then the last's. */
  lemma RowsSnoc(headers: seq<string>, lines: seq<string>)
    requires lines != []
    ensures RowsOf(headers, lines) == RowsOf(headers, lines[..|lines| - 1]) + RowOf(headers, lines[|lines| - 1])
  {
  }

  lemma SnocSplit<T>(s: seq<T>)
    requires s != []
    ensures s == s[..|s| - 1] + [s[|s| - 1]]
  {
  }

  // -------------------------------------------------------------- loose headers

  /** The column check only asks that a header contain each required name,
      while the rows are read by exact key: headers such as "Full Name",
      "Party", "Position", "Description" pass the check, and then no line
      gives a row, so such a file is refused as having no valid data. */
  lemma ContainedHeaderYieldsNoRows(headers: seq<string>, line: string)
    requires |headers| == 4
    requires ToLower(headers[0]) == "full name" && ToLower(headers[1]) == "party"
    requires ToLower(headers[2]) == "position" && ToLower(headers[3]) == "description"
    ensures MissingOf(Required, headers) == []
    ensures RowOf(headers, line) == []
  {
    LooseColumns(headers);
    NoneMissing(Required, headers);
    NoNameKey(headers);
    var values := Cells(line);
    if |values| == |headers| {
      RowObjectKeys(headers, values, "name");
    }
  }

  /** No loose header lowers to exactly "name". */
  lemma NoNameKey(headers: seq<string>)
    requires |headers| == 4
    requires ToLower(headers[0]) == "full name" && ToLower(headers[1]) == "party"
    requires ToLower(headers[2]) == "position" && ToLower(headers[3]) == "description"
    ensures forall j :: 0 <= j < |headers| ==> ToLower(headers[j]) != "name"
  {
    forall j | 0 <= j < |headers| ensures ToLower(headers[j]) != "name" {
      if j == 0 {
        assert |ToLower(headers[0])| == 9;
      } else if j == 1 {
        assert |ToLower(headers[1])| == 5;
      } else if j == 2 {
        assert |ToLower(headers[2])| == 8;
      } else {
        assert |ToLower(headers[3])| == 11;
      }
    }
  }

  lemma LooseColumns(headers: seq<string>)
    requires |headers| == 4
    requires ToLower(headers[0]) == "full name" && ToLower(headers[1]) == "party"
    requires ToLower(headers[2]) == "position" && ToLower(headers[3]) == "description"
    ensures forall c :: c in Required ==> HasColumn(headers, c)
  {
    LooseContains();
    forall i | 0 <= i < 4 ensures Contains(ToLower(headers[i]), Required[i]) {
      if i == 0 {
        assert Required[0] == "name";
      } else if i == 1 {
        assert Required[1] == "party";
      } else if i == 2 {
        assert Required[2] == "position";
      } else {
        assert Required[3] == "description";
      }
    }
    ColumnsCovered(headers, Required);
  }

  /** Header `i` containing required column `i`, for every `i`, covers every
      required column. */
  lemma ColumnsCovered(headers: seq<string>, required: seq<string>)
    requires |headers| == |required|
    requires forall i :: 0 <= i < |required| ==> Contains(ToLower(headers[i]), required[i])
    ensures forall c :: c in required ==> HasColumn(headers, c)
  {
    forall c | c in required ensures HasColumn(headers, c) {
      var i :| 0 <= i < |required| && required[i] == c;
      ColumnAt(headers, i, c);
    }
  }

  lemma LooseContains()
    ensures Contains("full name", "name") && Contains("party", "party")
    ensures Contains("position", "position") && Contains("description", "description")
  {
    ContainedAt("full name", 5, "name");
    SelfContained("party");
    SelfContained("position");
    SelfContained("description");
  }

  lemma {:induction false} ContainedAt(s: string, k: nat, sub: string)
    requires k <= |s| && sub <= s[k..]
    ensures Contains(s, sub)
  {
    if k > 0 {
      assert s[1..][k - 1..] == s[k..];
      ContainedAt(s[1..], k - 1, sub);
    }
  }
}
