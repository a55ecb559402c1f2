/** The CSV import (`handleFileUpload`, its parsing part) and export
    (`handleExportCSV`, the text it builds) of frontend/src/AdminDashboard.jsx,
    and the round trip between them. Reading the file, the upload request and
    the download are not part of this model: the import starts from the
    file's text and ends with the candidates it would send. */
module CandidateCsv {
  import opened Wrappers
  import opened Text
  import opened AdminDashboard

  /** A candidate as the import builds it, every text present. */
  datatype Row = Row(
    name: string,
    age: string,
    party: string,
    position: string,
    email: string,
    phone: string,
    image: string,
    description: string,
    status: string,
    votes: int)

  // -------------------------------------------------------------- import

  /** `.map((l) => l.trim()).filter(Boolean)`: every piece trimmed, the
      empty ones dropped. */
  function CleanLines(parts: seq<string>): (r: seq<string>)
    ensures |r| <= |parts|
    ensures forall l :: l in r ==> l != "" && Trimmed(l)
  {
    if parts == [] then []
    else
      var t := Trim(parts[|parts| - 1]);
      CleanLines(parts[..|parts| - 1]) + (if t == "" then [] else [t])
  }

  /** Cleaning whole pieces one after another is cleaning them together:
      every non-blank piece is kept, trimmed, in its place. */
  lemma {:induction false} CleanLinesConcat(a: seq<string>, b: seq<string>)
    ensures CleanLines(a + b) == CleanLines(a) + CleanLines(b)
  {
    if b == [] {
      assert a + b == a;
    } else {
      var init, last := b[..|b| - 1], b[|b| - 1];
      assert b == init + [last];
      assert a + b == (a + init) + [last];
      CleanLinesSnoc(a + init, last);
      CleanLinesSnoc(init, last);
      CleanLinesConcat(a, init);
      Regroup(CleanLines(a), CleanLines(init), if Trim(last) == "" then [] else [Trim(last)]);
    }
  }

  lemma Regroup(x: seq<string>, y: seq<string>, t: seq<string>)
    ensures (x + y) + t == x + (y + t)
  {
  }

  /** One more piece adds its trimmed text, unless that is empty. */
  lemma CleanLinesSnoc(parts: seq<string>, p: string)
    ensures CleanLines(parts + [p]) == CleanLines(parts) + if Trim(p) == "" then [] else [Trim(p)]
  {
    assert (parts + [p])[..|parts|] == parts;
  }

  /** `.trim().replace(/"/g, "")` on one header or value: the trimmed text
      with every quote removed and every other character kept. */
  function CleanCell(v: string): (r: string)
    ensures '"' !in r
    ensures '"' !in Trim(v) ==> r == Trim(v)
    ensures forall d :: d != '"' ==> multiset(r)[d] == multiset(Trim(v))[d]
  {
    RemoveChar(Trim(v), '"')
  }

  /** Dropping one quote leaves the text on either side, cleaned, in
      order. */
  lemma CleanCellDropsQuote(v: string, a: string, b: string)
    requires Trim(v) == a + ['"'] + b
    ensures CleanCell(v) == RemoveChar(a, '"') + RemoveChar(b, '"')
  {
    RemoveAround(a, b, '"');
  }

  /** A line split on commas, each piece cleaned. */
  function Cells(line: string): (r: seq<string>)
    ensures |r| == |Split(line, ',')|
  {
    var parts := Split(line, ',');
    seq(|parts|, i requires 0 <= i < |parts| => CleanCell(parts[i]))
  }

  const Required: seq<string> := ["name", "party", "position", "description"]

  /** Some header contains `column` once lower-cased. */
  predicate HasColumn(headers: seq<string>, column: string) {
    exists x :: x in headers && Contains(ToLower(x), column)
  }

  /** The required columns no header contains, in their order. */
  function MissingOf(required: seq<string>, headers: seq<string>): (r: seq<string>)
    ensures forall c :: c in r <==> c in required && !HasColumn(headers, c)
  {
    if required == [] then []
    else
      var rest := MissingOf(required[1..], headers);
      assert forall c :: c in required <==> c == required[0] || c in required[1..];
      if HasColumn(headers, required[0]) then rest else [required[0]] + rest
  }

  /** The object `headers.forEach((h, idx) => obj[h.toLowerCase()] = values[idx])`
      builds: the lower-cased headers as keys, a later header overwriting an
      earlier one with the same key. */
  function RowObject(headers: seq<string>, values: seq<string>): map<string, string>
    requires |headers| == |values|
  {
    if headers == [] then map[]
    else
      var n := |headers| - 1;
      RowObject(headers[..n], values[..n])[ToLower(headers[n]) := values[n]]
  }

  /** `obj.k || ""`: the property, or the empty text when it is absent. */
  function Prop(obj: map<string, string>, k: string): string {
    if k in obj then obj[k] else ""
  }

  /** The object's row is kept when its four required properties are
      non-empty. */
  predicate Keeps(obj: map<string, string>) {
    Prop(obj, "name") != "" && Prop(obj, "party") != "" && Prop(obj, "position") != ""
    && Prop(obj, "description") != ""
  }

  /** The candidate pushed for a kept object: missing texts empty, the
      status "active" unless given, no votes. */
  function RowFrom(obj: map<string, string>): Row {
    Row(
      Prop(obj, "name"), Prop(obj, "age"), Prop(obj, "party"), Prop(obj, "position"),
      Prop(obj, "email"), Prop(obj, "phone"), Prop(obj, "image"), Prop(obj, "description"),
      if Prop(obj, "status") == "" then "active" else Prop(obj, "status"),
      0)
  }

  /** What one data line contributes: nothing when its value count differs
      from the header count or a required property is empty, else its row. */
  function RowOf(headers: seq<string>, line: string): (r: seq<Row>)
    ensures |r| <= 1
    ensures |Cells(line)| != |headers| ==> r == []
    ensures |Cells(line)| == |headers| ==>
              var obj := RowObject(headers, Cells(line));
              && (r != [] <==>
                    && Prop(obj, "name") != "" && Prop(obj, "party") != ""
                    && Prop(obj, "position") != "" && Prop(obj, "description") != "")
              && (r != [] ==> r[0].votes == 0 && r[0].name == Prop(obj, "name"))
  {
    var values := Cells(line);
    if |values| != |headers| then []
    else
      var obj := RowObject(headers, values);
      if Keeps(obj) then [RowFrom(obj)] else []
  }

  /** The rows of the data lines, in line order. */
  function RowsOf(headers: seq<string>, lines: seq<string>): (r: seq<Row>)
    ensures |r| <= |lines|
  {
    if lines == [] then []
    else RowsOf(headers, lines[..|lines| - 1]) + RowOf(headers, lines[|lines| - 1])
  }

  datatype ImportResult =
    | TooFewLines
    | MissingColumns(missing: seq<string>)
    | NoValidRows
    | Parsed(rows: seq<Row>)

  /** The parse of a CSV text: fewer than two non-blank lines, a missing
      required column and no valid row each stop the import. */
  function Import(csv: string): ImportResult {
    var lines := CleanLines(Split(csv, '\n'));
    if |lines| < 2 then TooFewLines
    else
      var headers := Cells(lines[0]);
      var missing := MissingOf(Required, headers);
      if missing != [] then MissingColumns(missing)
      else
        var rows := RowsOf(headers, lines[1..]);
        if rows == [] then NoValidRows else Parsed(rows)
  }

  /** The `forEach` building one row's object. */
  method BuildObject(headers: seq<string>, values: seq<string>) returns (obj: map<string, string>)
    requires |headers| == |values|
    ensures obj == RowObject(headers, values)
  {
    obj := map[];
    for idx := 0 to |headers|
      invariant obj == RowObject(headers[..idx], values[..idx])
    {
      assert headers[..idx + 1][..idx] == headers[..idx];
      assert values[..idx + 1][..idx] == values[..idx];
      obj := obj[ToLower(headers[idx]) := values[idx]];
    }
    assert headers[..|headers|] == headers;
    assert values[..|values|] == values;
  }

  /** The loop over the data lines, pushing the row of every valid one. */
  method ParseRows(headers: seq<string>, lines: seq<string>) returns (rows: seq<Row>)
    requires |lines| >= 1
    ensures rows == RowsOf(headers, lines[1..])
  {
    rows := [];
    for i := 1 to |lines|
      invariant rows == RowsOf(headers, lines[1..i])
    {
      RowsStep(headers, lines, i);
      var values := Cells(lines[i]);
      if |values| != |headers| {
        continue;
      }
      var obj := BuildObject(headers, values);
      if Keeps(obj) {
        rows := rows + [RowFrom(obj)];
      }
    }
    assert lines[1..|lines|] == lines[1..];
  }

  lemma RowsStep(headers: seq<string>, lines: seq<string>, i: nat)
    requires 1 <= i < |lines|
    ensures RowsOf(headers, lines[1..i + 1]) == RowsOf(headers, lines[1..i]) + RowOf(headers, lines[i])
  {
    assert lines[1..i + 1][..i - 1] == lines[1..i];
  }

  /** The parsing part of `reader.onload`, with its early returns. */
  method ImportCsv(csv: string) returns (result: ImportResult)
    ensures result == Import(csv)
  {
    var lines := CleanLines(Split(csv, '\n'));
    if |lines| < 2 {
      return TooFewLines;
    }
    var headers := Cells(lines[0]);
    var missing := MissingOf(Required, headers);
    if |missing| > 0 {
      return MissingColumns(missing);
    }
    var rows := ParseRows(headers, lines);
    if |rows| == 0 {
      return NoValidRows;
    }
    return Parsed(rows);
  }

  /** Every imported row has its four required texts and a status, and no
      votes; there are never more rows than data lines. */
  lemma ImportedRowsValid(csv: string)
    ensures Import(csv).Parsed? ==>
      forall r :: r in Import(csv).rows ==>
        && r.name != "" && r.party != "" && r.position != "" && r.description != ""
        && r.status != "" && r.votes == 0
  {
    var lines := CleanLines(Split(csv, '\n'));
    if |lines| >= 2 {
      RowsValid(Cells(lines[0]), lines[1..]);
    }
  }

  lemma {:induction false} RowsValid(headers: seq<string>, lines: seq<string>)
    ensures forall r :: r in RowsOf(headers, lines) ==>
        && r.name != "" && r.party != "" && r.position != "" && r.description != ""
        && r.status != "" && r.votes == 0
  {
    if lines != [] {
      RowsValid(headers, lines[..|lines| - 1]);
    }
  }

  /** A later header wins: the object maps the lower-cased header `i` to
      value `i` when no later header lowers to the same key. */
  lemma {:induction false} RowObjectLookup(headers: seq<string>, values: seq<string>, i: nat)
    requires |headers| == |values| && i < |headers|
    requires forall j :: i < j < |headers| ==> ToLower(headers[j]) != ToLower(headers[i])
    ensures ToLower(headers[i]) in RowObject(headers, values)
    ensures RowObject(headers, values)[ToLower(headers[i])] == values[i]
  {
    var n := |headers| - 1;
    if i < n {
      RowObjectLookup(headers[..n], values[..n], i);
    }
  }

  /** Only lower-cased headers are keys. */
  lemma {:induction false} RowObjectKeys(headers: seq<string>, values: seq<string>, k: string)
    requires |headers| == |values|
    requires forall j :: 0 <= j < |headers| ==> ToLower(headers[j]) != k
    ensures k !in RowObject(headers, values)
  {
    if headers != [] {
      var n := |headers| - 1;
      RowObjectKeys(headers[..n], values[..n], k);
    }
  }

  // -------------------------------------------------------------- export

  const ExportHeaders: seq<string> :=
    ["Name", "Age", "Party", "Position", "Email", "Phone", "Image", "Description", "Status", "Votes"]

  /** The export headers lower-cased, as the import reads them back. */
  const ExportKeys: seq<string> :=
    ["name", "age", "party", "position", "email", "phone", "image", "description", "status", "votes"]

  function Quote(s: string): string {
    "\"" + s + "\""
  }

  /** The ten values exported for a candidate, a missing age, email or phone
      as the empty text. */
  function ExportFields(c: Candidate): (r: seq<string>)
    ensures |r| == 10
  {
    [c.name, c.age.GetOr(""), c.party, c.position, c.email.GetOr(""), c.phone.GetOr(""),
     c.image, c.description, c.status, IntToString(c.votes)]
  }

  /** One candidate's line: every value in double quotes, joined by commas. */
  function ExportLine(c: Candidate): string {
    var fields := ExportFields(c);
    Join(seq(10, i requires 0 <= i < 10 => Quote(fields[i])), ',')
  }

  function ExportLines(cs: seq<Candidate>): (r: seq<string>)
    ensures |r| == |cs|
  {
    seq(|cs|, i requires 0 <= i < |cs| => ExportLine(cs[i]))
  }

  /** `csvContent`: the header line, then one line per candidate, joined by
      newlines. */
  function ExportCsv(cs: seq<Candidate>): string {
    Join([Join(ExportHeaders, ',')] + ExportLines(cs), '\n')
  }

  /** A text the export can carry and the import read back unchanged. */
  predicate Plain(s: string) {
    ',' !in s && '"' !in s && '\n' !in s
  }

  /** A candidate whose export reads back: every text plain, and the texts
      the import requires, and the status, non-empty. */
  predicate Exportable(c: Candidate) {
    && Plain(c.name) && Plain(c.age.GetOr("")) && Plain(c.party) && Plain(c.position)
    && Plain(c.email.GetOr("")) && Plain(c.phone.GetOr("")) && Plain(c.image)
    && Plain(c.description) && Plain(c.status)
    && c.name != "" && c.party != "" && c.position != "" && c.description != "" && c.status != ""
  }

  /** The candidate the import makes of an exported one: the same texts,
      missing ones empty, and no votes. */
  function ImportedOf(c: Candidate): Row {
    Row(c.name, c.age.GetOr(""), c.party, c.position, c.email.GetOr(""), c.phone.GetOr(""),
        c.image, c.description, c.status, 0)
  }
}
