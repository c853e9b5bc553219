/** The audit log as a file of comma-separated values, and a reader of such files. */
module AuditCsv {
  import opened Optional

  // ---- printing ----

  predicate StartsFormula(s: string) {
    s != [] && (s[0] == '=' || s[0] == '+' || s[0] == '-' || s[0] == '@' || s[0] == '\t' || s[0] == '\r')
  }

  function Safe(value: string): string {
    if StartsFormula(value) then "'" + value else value
  }

  function Doubled(s: string): string {
    if s == [] then [] else (if s[0] == '"' then "\"\"" else [s[0]]) + Doubled(s[1..])
  }

  function CsvCell(value: string): string {
    "\"" + (Doubled(Safe(value)) + "\"")
  }

  function Joined(parts: seq<string>, separator: char): string {
    if parts == [] then []
    else if |parts| == 1 then parts[0]
    else parts[0] + ([separator] + Joined(parts[1..], separator))
  }

  datatype Entry = Entry(createdAt: string, displayName: Option<string>, email: Option<string>,
                         action: string, targetType: string, targetId: string, details: Option<string>)

  /** The first name that is there and not empty. */
  function StaffMember(e: Entry): string {
    if e.displayName.Some? && e.displayName.value != [] then e.displayName.value
    else if e.email.Some? then e.email.value
    else ""
  }

  function Values(e: Entry): seq<string> {
    [e.createdAt, StaffMember(e), e.action, e.targetType, e.targetId, if e.details.Some? then e.details.value else ""]
  }

  const TITLES: seq<string> := ["Date", "Staff member", "Action", "Kind", "Target", "Details"]

  function Cells(values: seq<string>): (cells: seq<string>)
    ensures |cells| == |values| && forall i | 0 <= i < |values| :: cells[i] == CsvCell(values[i])
  {
    seq(|values|, i requires 0 <= i < |values| => CsvCell(values[i]))
  }

  function Lines(entries: seq<Entry>): (lines: seq<string>)
    ensures |lines| == |entries|
  {
    seq(|entries|, i requires 0 <= i < |entries| => Joined(Cells(Values(entries[i])), ','))
  }

  function Export(entries: seq<Entry>): string {
    Joined([Joined(TITLES, ',')] + Lines(entries), '\n')
  }

  // ---- reading: section 2 of RFC 4180, with line feeds ----

  datatype Mode = Start | Plain | Quoted | Closed

  function Read(s: string, mode: Mode, field: string, row: seq<string>): Option<seq<seq<string>>>
    decreases |s|
  {
    if s == [] then
      if mode == Quoted then None else Some([row + [field]])
    else if mode == Quoted then
      if s[0] == '"' then Read(s[1..], Closed, field, row) else Read(s[1..], Quoted, field + [s[0]], row)
    else if s[0] == ',' then Read(s[1..], Start, "", row + [field])
    else if s[0] == '\n' then
      var rest := Read(s[1..], Start, "", []);
      if rest.None? then None else Some([row + [field]] + rest.value)
    else if s[0] == '"' then
      match mode
      case Start => Read(s[1..], Quoted, field, row)
      case Closed => Read(s[1..], Quoted, field + "\"", row)
      case Plain => None
    else if mode == Closed then None
    else Read(s[1..], Plain, field + [s[0]], row)
  }

  function ReadFile(s: string): Option<seq<seq<string>>> {
    Read(s, Start, "", [])
  }

  // ---- what is printed is read back ----

  lemma {:induction false} ReadDoubled(w: string, rest: string, field: string, row: seq<string>)
    ensures Read(Doubled(w) + ("\"" + rest), Quoted, field, row) == Read(rest, Closed, field + w, row)
    decreases |w|
  {
    var s := Doubled(w) + ("\"" + rest);
    if w == [] {
      assert s[1..] == rest && field + w == field;
    } else {
      assert field + [w[0]] + w[1..] == field + w;
      if w[0] == '"' {
        assert s[0] == '"' && s[1] == '"';
        assert s[1..][1..] == Doubled(w[1..]) + ("\"" + rest);
        ReadDoubled(w[1..], rest, field + "\"", row);
      } else {
        assert s[0] == w[0] && s[1..] == Doubled(w[1..]) + ("\"" + rest);
        ReadDoubled(w[1..], rest, field + [w[0]], row);
      }
    }
  }

  lemma ReadCell(value: string, rest: string, row: seq<string>)
    ensures Read(CsvCell(value) + rest, Start, "", row) == Read(rest, Closed, Safe(value), row)
  {
    var s := CsvCell(value) + rest;
    assert s[0] == '"' && s[1..] == Doubled(Safe(value)) + ("\"" + rest);
    ReadDoubled(Safe(value), rest, "", row);
    assert "" + Safe(value) == Safe(value);
  }

  predicate IsTitle(s: string) {
    s != [] && ',' !in s && '\n' !in s && '"' !in s
  }

  lemma {:induction false} ReadPlain(w: string, rest: string, mode: Mode, field: string, row: seq<string>)
    requires IsTitle(w) && (mode == Start || mode == Plain)
    ensures Read(w + rest, mode, field, row) == Read(rest, Plain, field + w, row)
    decreases |w|
  {
    var s := w + rest;
    assert s[0] == w[0] && s[1..] == w[1..] + rest && w[0] in w;
    assert field + [w[0]] + w[1..] == field + w;
    if |w| > 1 { ReadPlain(w[1..], rest, Plain, field + [w[0]], row); }
    else { assert w[1..] + rest == rest && field + [w[0]] == field + w; }
  }

  function SafeCells(values: seq<string>): (r: seq<string>)
    ensures |r| == |values| && forall i | 0 <= i < |values| :: r[i] == Safe(values[i])
  {
    seq(|values|, i requires 0 <= i < |values| => Safe(values[i]))
  }

  /** Reading on after a row: the end of the file, or the next line. */
  function AfterRow(rest: string, row: seq<string>): Option<seq<seq<string>>> {
    if rest == [] then Some([row])
    else
      var more := ReadFile(rest[1..]);
      if more.None? then None else Some([row] + more.value)
  }

  lemma {:induction false} ReadRow(values: seq<string>, rest: string, row: seq<string>)
    requires values != [] && (rest == [] || rest[0] == '\n')
    ensures Read(Joined(Cells(values), ',') + rest, Start, "", row) == AfterRow(rest, row + SafeCells(values))
    decreases |values|
  {
    var cells := Cells(values);
    if |values| == 1 {
      ReadCell(values[0], rest, row);
      assert row + [Safe(values[0])] == row + SafeCells(values);
    } else {
      var line := Joined(cells[1..], ',');
      assert cells[1..] == Cells(values[1..]);
      assert Joined(cells, ',') + rest == CsvCell(values[0]) + ("," + (line + rest));
      ReadCell(values[0], "," + (line + rest), row);
      assert ("," + (line + rest))[1..] == line + rest;
      ReadRow(values[1..], rest, row + [Safe(values[0])]);
      assert row + [Safe(values[0])] + SafeCells(values[1..]) == row + SafeCells(values);
    }
  }

  lemma PlainEnd(rest: string, field: string, row: seq<string>)
    requires rest == [] || rest[0] == '\n'
    ensures Read(rest, Plain, field, row) == AfterRow(rest, row + [field])
  {
  }

  lemma PlainComma(rest: string, field: string, row: seq<string>)
    ensures Read("," + rest, Plain, field, row) == Read(rest, Start, "", row + [field])
  {
    assert ("," + rest)[1..] == rest;
  }

  lemma ReadTitle(title: string, line: string, row: seq<string>)
    requires IsTitle(title)
    ensures Read(title + ("," + line), Start, "", row) == Read(line, Start, "", row + [title])
  {
    hide Read;
    ReadPlain(title, "," + line, Start, "", row);
    assert "" + title == title;
    PlainComma(line, title, row);
  }

  lemma LastTitle(title: string, rest: string, row: seq<string>)
    requires IsTitle(title) && (rest == [] || rest[0] == '\n')
    ensures Read(title + rest, Start, "", row) == AfterRow(rest, row + [title])
  {
    hide Read;
    ReadPlain(title, rest, Start, "", row);
    assert "" + title == title;
    PlainEnd(rest, title, row);
  }

  lemma {:induction false} ReadTitles(titles: seq<string>, rest: string, row: seq<string>)
    requires titles != [] && (rest == [] || rest[0] == '\n') && forall t <- titles :: IsTitle(t)
    ensures Read(Joined(titles, ',') + rest, Start, "", row) == AfterRow(rest, row + titles)
    decreases |titles|
  {
    hide IsTitle, Read, AfterRow;
    assert titles[0] in titles;
    if |titles| == 1 {
      LastTitle(titles[0], rest, row);
      assert titles == [titles[0]];
    } else {
      var line := Joined(titles[1..], ',');
      assert Joined(titles, ',') + rest == titles[0] + ("," + (line + rest));
      ReadTitle(titles[0], line + rest, row);
      ReadTitles(titles[1..], rest, row + [titles[0]]);
      assert row + [titles[0]] + titles[1..] == row + titles;
    }
  }

  function SafeRows(entries: seq<Entry>): (r: seq<seq<string>>)
    ensures |r| == |entries|
  {
    seq(|entries|, i requires 0 <= i < |entries| => SafeCells(Values(entries[i])))
  }

  lemma {:induction false} ReadLines(entries: seq<Entry>)
    requires entries != []
    ensures ReadFile(Joined(Lines(entries), '\n')) == Some(SafeRows(entries))
    decreases |entries|
  {
    var values := Values(entries[0]);
    var first := Joined(Cells(values), ',');
    assert [] + SafeCells(values) == SafeCells(values);
    assert Lines(entries)[1..] == Lines(entries[1..]);
    if |entries| == 1 {
      ReadRow(values, "", []);
      assert first + "" == first;
      assert SafeRows(entries) == [SafeCells(values)];
    } else {
      var more := Joined(Lines(entries[1..]), '\n');
      ReadLines(entries[1..]);
      ReadRow(values, "\n" + more, []);
      assert ("\n" + more)[1..] == more;
      assert SafeRows(entries) == [SafeCells(values)] + SafeRows(entries[1..]);
    }
  }

  /** Whatever quotes, commas and line breaks are in the log, a reader gets the titles and then exactly
      the rows and cells that were printed. */
  lemma ExportIsReadBack(entries: seq<Entry>)
    ensures ReadFile(Export(entries)) == Some([TITLES] + SafeRows(entries))
  {
    hide Read, Joined, Lines, SafeRows;
    var titles := Joined(TITLES, ',');
    var lines := Lines(entries);
    var rest := if entries == [] then "" else "\n" + Joined(lines, '\n');
    TitlesAreTitles();
    ReadTitles(TITLES, rest, []);
    assert [] + TITLES == TITLES;
    FirstLine(titles, lines);
    if entries != [] {
      ReadLines(entries);
      assert rest[1..] == Joined(lines, '\n');
    } else {
      NoRows();
      assert titles + "" == titles && [TITLES] + [] == [TITLES];
    }
  }

  lemma TitlesAreTitles()
    ensures forall t <- TITLES :: IsTitle(t)
  {
  }

  lemma NoRows()
    ensures SafeRows([]) == []
  {
  }

  lemma FirstLine(line: string, lines: seq<string>)
    ensures Joined([line] + lines, '\n') == line + if lines == [] then "" else "\n" + Joined(lines, '\n')
  {
    assert ([line] + lines)[1..] == lines;
    if lines == [] { assert [line] + lines == [line]; }
  }

  /** Each cell read back is its value, or its value after one apostrophe, and starts no formula. */
  lemma CellsAreSafe(value: string)
    ensures Safe(value) == value || Safe(value) == "'" + value
    ensures !StartsFormula(Safe(value))
    ensures Safe(value) != value <==> StartsFormula(value)
  {
    if StartsFormula(value) { assert Safe(value)[0] == '\'' && |Safe(value)| == |value| + 1; }
  }
}
