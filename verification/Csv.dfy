/**
 CSV out of the server and back in at the client: quoting after section 2 of RFC 4180, the guard
 against cells that a spreadsheet would run as formulas, and the parser.
 */
module Csv {
  import opened Values

  const BOM := '\U{FEFF}'
  const LINE_END := "\r\n"

  // ----- writing -----

  predicate FormulaLead(s: string) {
    s != "" && (s[0] == '=' || s[0] == '+' || s[0] == '-' || s[0] == '@' || s[0] == '\t' || s[0] == '\r')
  }

  function Guard(raw: string): string {
    if FormulaLead(raw) then "'" + raw else raw
  }

  predicate Special(c: char) {
    c == '"' || c == ',' || c == '\r' || c == '\n'
  }

  predicate NeedsQuotes(s: string) {
    exists k :: 0 <= k < |s| && Special(s[k])
  }

  function Doubled(s: string): string {
    if s == "" then "" else Inside(s[0]) + Doubled(s[1..])
  }

  function Quoted(s: string): string {
    if NeedsQuotes(s) then "\"" + Doubled(s) + "\"" else s
  }

  function RowText(cells: seq<string>): string {
    if cells == [] then "" else if |cells| == 1 then Quoted(cells[0]) else Quoted(cells[0]) + "," + RowText(cells[1..])
  }

  function GridText(rows: seq<seq<string>>): string {
    if rows == [] then "" else if |rows| == 1 then RowText(rows[0]) else RowText(rows[0]) + LINE_END + GridText(rows[1..])
  }

  function GuardAll(cells: seq<string>): (r: seq<string>)
    ensures |r| == |cells| && forall k :: 0 <= k < |cells| ==> r[k] == Guard(cells[k])
  {
    seq(|cells|, k requires 0 <= k < |cells| => Guard(cells[k]))
  }

  /** With `Quoted`, what `csvCell` does to every cell. */
  function GuardGrid(rows: seq<seq<string>>): (r: seq<seq<string>>)
    ensures |r| == |rows| && forall k :: 0 <= k < |rows| ==> r[k] == GuardAll(rows[k])
  {
    seq(|rows|, k requires 0 <= k < |rows| => GuardAll(rows[k]))
  }

  /** `exportCsv`: a header and one line per record, each starting with the record's id. */
  function ExportCsv(labels: seq<string>, records: seq<(string, seq<string>)>): string {
    [BOM] + GridText(GuardGrid(ExportGrid(labels, records)))
  }

  const ID_LABEL := "\U{30EC}\U{30B3}\U{30FC}\U{30C9}ID"

  function ExportGrid(labels: seq<string>, records: seq<(string, seq<string>)>): (r: seq<seq<string>>)
    ensures |r| == |records| + 1 && r[0] == [ID_LABEL] + labels
    ensures forall k :: 0 <= k < |records| ==> r[k + 1] == [records[k].0] + records[k].1
  {
    [[ID_LABEL] + labels] + seq(|records|, k requires 0 <= k < |records| => [records[k].0] + records[k].1)
  }

  // ----- reading -----

  /** The parser's variables. */
  datatype Scanner = Scanner(rows: seq<seq<string>>, row: seq<string>, cell: string, inQuotes: bool)

  const FRESH := Scanner([], [], "", false)

  function Plain(c: char, st: Scanner): Scanner {
    if c == '"' then st.(inQuotes := true)
    else if c == ',' then st.(row := st.row + [st.cell], cell := "")
    else if c == '\n' then st.(rows := st.rows + [st.row + [st.cell]], row := [], cell := "")
    else if c == '\r' then st
    else st.(cell := st.cell + [c])
  }

  function Scan(s: string, st: Scanner): Scanner
    decreases |s|
  {
    if s == "" then st
    else if !st.inQuotes then Scan(s[1..], Plain(s[0], st))
    else if s[0] != '"' then Scan(s[1..], st.(cell := st.cell + [s[0]]))
    else if |s| > 1 && s[1] == '"' then Scan(s[2..], st.(cell := st.cell + "\""))
    else Scan(s[1..], st.(inQuotes := false))
  }

  function Closed(st: Scanner): seq<seq<string>> {
    if st.cell != "" || st.row != [] then st.rows + [st.row + [st.cell]] else st.rows
  }

  predicate Filled(row: seq<string>) {
    exists k :: 0 <= k < |row| && row[k] != ""
  }

  function FilledRows(rows: seq<seq<string>>): seq<seq<string>> {
    if rows == [] then []
    else FilledRows(rows[..|rows| - 1]) + if Filled(rows[|rows| - 1]) then [rows[|rows| - 1]] else []
  }

  function Body(text: string): string {
    if text != "" && text[0] == BOM then text[1..] else text
  }

  function Parsed(text: string): seq<seq<string>> {
    FilledRows(Closed(Scan(Body(text), FRESH)))
  }

  lemma ScanStep(s: string, i: nat, st: Scanner)
    requires i < |s|
    ensures Scan(s[i..], st) ==
            if !st.inQuotes then Scan(s[i + 1..], Plain(s[i], st))
            else if s[i] != '"' then Scan(s[i + 1..], st.(cell := st.cell + [s[i]]))
            else if i + 1 < |s| && s[i + 1] == '"' then Scan(s[i + 2..], st.(cell := st.cell + "\""))
            else Scan(s[i + 1..], st.(inQuotes := false))
  {
    assert s[i..][1..] == s[i + 1..];
    if i + 1 < |s| { assert s[i..][2..] == s[i + 2..]; }
  }

  method ParseCsv(input: string) returns (out: seq<seq<string>>)
    ensures out == Parsed(input)
  {
    hide Scan, FilledRows;
    var text := input;
    if text != "" && text[0] == BOM { text := text[1..]; }
    var rows: seq<seq<string>>, row: seq<string>, cell, inQuotes := [], [], "", false;
    var i := 0;
    ghost var goal := Scan(text, FRESH);
    assert text[0..] == text;
    while i < |text|
      invariant 0 <= i <= |text|
      invariant goal == Scan(text[i..], Scanner(rows, row, cell, inQuotes))
    {
      ScanStep(text, i, Scanner(rows, row, cell, inQuotes));
      var c := text[i];
      if inQuotes {
        if c == '"' {
          if i + 1 < |text| && text[i + 1] == '"' {
            cell := cell + "\"";
            i := i + 1;
          } else {
            inQuotes := false;
          }
        } else {
          cell := cell + [c];
        }
      } else {
        if c == '"' {
          inQuotes := true;
        } else if c == ',' {
          row, cell := row + [cell], "";
        } else if c == '\n' {
          rows, row, cell := rows + [row + [cell]], [], "";
        } else if c != '\r' {
          cell := cell + [c];
        }
      }
      i := i + 1;
    }
    ScanNothing(text, Scanner(rows, row, cell, inQuotes));
    if cell != "" || row != [] { rows := rows + [row + [cell]]; }
    out := KeepFilled(rows);
  }

  lemma ScanNothing(s: string, st: Scanner)
    ensures Scan(s[|s|..], st) == st
  {
  }

  method KeepFilled(rows: seq<seq<string>>) returns (out: seq<seq<string>>)
    ensures out == FilledRows(rows)
  {
    out := [];
    for k := 0 to |rows|
      invariant out == FilledRows(rows[..k])
    {
      assert rows[..k + 1][..k] == rows[..k];
      if Filled(rows[k]) { out := out + [rows[k]]; }
    }
    assert rows[..|rows|] == rows;
  }

  // ----- one cell -----

  predicate AtDelimiter(s: string) {
    s == "" || s[0] == ',' || s[0] == '\r' || s[0] == '\n'
  }

  /** One character of a cell, as it stands inside quotes. */
  function Inside(c: char): string {
    if c == '"' then "\"\"" else [c]
  }

  lemma ScanInside(c: char, more: string, st: Scanner)
    requires st.inQuotes
    ensures Scan(Inside(c) + more, st) == Scan(more, st.(cell := st.cell + [c]))
  {
    var s := Inside(c) + more;
    assert s[|Inside(c)|..] == more;
    if c == '"' { assert s[0] == '"' && s[1] == '"' && "\"" == [c]; }
  }

  lemma ScanClose(rest: string, st: Scanner)
    requires st.inQuotes && AtDelimiter(rest)
    ensures Scan("\"" + rest, st) == Scan(rest, st.(inQuotes := false))
  {
    assert ("\"" + rest)[1..] == rest;
  }

  lemma {:induction false} ScanDoubled(s: string, rest: string, st: Scanner)
    requires st.inQuotes && AtDelimiter(rest)
    ensures Scan(Doubled(s) + "\"" + rest, st) == Scan(rest, st.(cell := st.cell + s, inQuotes := false))
  {
    hide Scan, AtDelimiter, Inside;
    if s == "" {
      assert Doubled(s) + "\"" + rest == "\"" + rest;
      ScanClose(rest, st);
      assert st.cell + s == st.cell;
    } else {
      var more := Doubled(s[1..]) + "\"" + rest;
      assert Doubled(s) + "\"" + rest == Inside(s[0]) + more;
      ScanInside(s[0], more, st);
      assert st.cell + [s[0]] + s[1..] == st.cell + s;
      ScanDoubled(s[1..], rest, st.(cell := st.cell + [s[0]]));
    }
  }

  lemma {:induction false} ScanPlain(s: string, rest: string, st: Scanner)
    requires !st.inQuotes && !NeedsQuotes(s)
    ensures Scan(s + rest, st) == Scan(rest, st.(cell := st.cell + s))
  {
    if s == "" {
      assert s + rest == rest && st.cell + s == st.cell;
    } else {
      assert !Special(s[0]);
      assert (s + rest)[1..] == s[1..] + rest;
      assert forall k :: 0 <= k < |s| - 1 ==> s[1..][k] == s[k + 1];
      assert st.cell + [s[0]] + s[1..] == st.cell + s;
      ScanPlain(s[1..], rest, st.(cell := st.cell + [s[0]]));
    }
  }

  /** A written cell, before a delimiter, is read back whole. */
  lemma ScanCell(s: string, rest: string, st: Scanner)
    requires !st.inQuotes && st.cell == "" && AtDelimiter(rest)
    ensures Scan(Quoted(s) + rest, st) == Scan(rest, st.(cell := s))
  {
    hide Scan, Doubled, NeedsQuotes;
    assert st.cell + s == s;
    if NeedsQuotes(s) {
      var inner := Doubled(s) + "\"" + rest;
      assert Quoted(s) + rest == "\"" + inner;
      ScanOne('"', inner, st);
      ScanDoubled(s, rest, st.(inQuotes := true));
    } else {
      ScanPlain(s, rest, st);
    }
  }

  lemma ScanOne(c: char, more: string, st: Scanner)
    requires !st.inQuotes
    ensures Scan([c] + more, st) == Scan(more, Plain(c, st))
  {
    assert ([c] + more)[1..] == more;
  }

  // ----- rows and grids -----

  lemma {:induction false} ScanRow(cells: seq<string>, rest: string, st: Scanner)
    requires cells != [] && !st.inQuotes && st.cell == "" && (rest == "" || rest[0] == '\r')
    ensures Scan(RowText(cells) + rest, st) ==
            Scan(rest, st.(row := st.row + cells[..|cells| - 1], cell := cells[|cells| - 1]))
  {
    hide Scan, Quoted, Plain;
    if |cells| == 1 {
      assert st.row + cells[..0] == st.row;
      ScanCell(cells[0], rest, st);
    } else {
      var more := RowText(cells[1..]) + rest;
      assert RowText(cells) + rest == Quoted(cells[0]) + ("," + more);
      ScanCell(cells[0], "," + more, st);
      var after := st.(row := st.row + [cells[0]], cell := "");
      assert [','] + more == "," + more;
      ScanOne(',', more, st.(cell := cells[0]));
      assert Plain(',', st.(cell := cells[0])) == after by { PlainComma(st.(cell := cells[0])); }
      ScanRow(cells[1..], rest, after);
      assert st.row + [cells[0]] + cells[1..][..|cells| - 2] == st.row + cells[..|cells| - 1];
    }
  }

  lemma ScanLineEnd(more: string, st: Scanner)
    requires !st.inQuotes
    ensures Scan(LINE_END + more, st) == Scan(more, st.(rows := st.rows + [st.row + [st.cell]], row := [], cell := ""))
  {
    hide Scan;
    assert LINE_END + more == ['\r'] + (['\n'] + more);
    ScanOne('\r', ['\n'] + more, st);
    ScanOne('\n', more, st);
  }

  lemma PlainComma(st: Scanner)
    ensures Plain(',', st) == st.(row := st.row + [st.cell], cell := "")
  {
  }

  predicate NoEmptyRow(rows: seq<seq<string>>) {
    forall k :: 0 <= k < |rows| ==> rows[k] != []
  }

  lemma ScanFullRow(r: seq<string>, rest: string, st: Scanner)
    requires r != [] && !st.inQuotes && st.cell == "" && st.row == [] && (rest == "" || rest[0] == '\r')
    ensures Scan(RowText(r) + rest, st) == Scan(rest, st.(row := r[..|r| - 1], cell := r[|r| - 1]))
  {
    hide Scan, RowText;
    ScanRow(r, rest, st);
    assert st.row + r[..|r| - 1] == r[..|r| - 1];
  }

  lemma ScanLastRow(r: seq<string>, st: Scanner)
    requires r != [] && !st.inQuotes && st.cell == "" && st.row == []
    ensures FilledRows(Closed(Scan(RowText(r), st))) == FilledRows(st.rows + [r])
  {
    hide Scan, RowText, FilledRows, Closed;
    ScanFullRow(r, "", st);
    assert RowText(r) + "" == RowText(r);
    ScanEmpty(st.(row := r[..|r| - 1], cell := r[|r| - 1]));
    LastRow(st.rows, r);
  }

  lemma ScanRowAndMore(r: seq<string>, more: string, st: Scanner)
    requires r != [] && !st.inQuotes && st.cell == "" && st.row == []
    ensures Scan(RowText(r) + LINE_END + more, st) == Scan(more, st.(rows := st.rows + [r]))
  {
    hide Scan, RowText;
    assert RowText(r) + LINE_END + more == RowText(r) + (LINE_END + more);
    ScanFullRow(r, LINE_END + more, st);
    ScanLineEnd(more, st.(row := r[..|r| - 1], cell := r[|r| - 1]));
    assert r[..|r| - 1] + [r[|r| - 1]] == r;
  }

  lemma {:induction false} ScanGrid(rows: seq<seq<string>>, st: Scanner)
    requires rows != [] && NoEmptyRow(rows) && !st.inQuotes && st.cell == "" && st.row == []
    ensures FilledRows(Closed(Scan(GridText(rows), st))) == FilledRows(st.rows + rows)
  {
    hide Scan, RowText, FilledRows, Closed;
    var r := rows[0];
    if |rows| == 1 {
      ScanLastRow(r, st);
      assert rows == [r];
    } else {
      ScanRowAndMore(r, GridText(rows[1..]), st);
      ScanGrid(rows[1..], st.(rows := st.rows + [r]));
      assert st.rows + [r] + rows[1..] == st.rows + rows;
    }
  }

  lemma ScanEmpty(st: Scanner)
    ensures Scan("", st) == st
  {
  }

  /** A last row that is not closed is a single empty cell, which is dropped anyway. */
  lemma LastRow(before: seq<seq<string>>, r: seq<string>)
    requires r != []
    ensures var n := |r| - 1;
            FilledRows(Closed(Scanner(before, r[..n], r[n], false))) == FilledRows(before + [r])
  {
    var n := |r| - 1;
    assert r[..n] + [r[n]] == r;
    assert (before + [r])[..|before|] == before;
    if r[n] == "" && r[..n] == [] { assert !Filled(r); }
  }

  /** Writing a grid and parsing the text gives the grid back, all-empty rows excepted. */
  lemma GridRoundTrip(rows: seq<seq<string>>)
    requires rows != [] && NoEmptyRow(rows)
    ensures Parsed([BOM] + GridText(rows)) == FilledRows(rows)
  {
    hide Scan, FilledRows, GridText;
    assert ([BOM] + GridText(rows))[1..] == GridText(rows);
    ScanGrid(rows, FRESH);
    assert [] + rows == rows;
  }

  // ----- the formula guard -----

  function DecodeCsvCell(s: string): string {
    if s != "" && s[0] == '\'' && FormulaLead(s[1..]) then s[1..] else s
  }

  /** A text that looks guarded already: a quote before a formula lead. */
  predicate LooksGuarded(raw: string) {
    raw != "" && raw[0] == '\'' && FormulaLead(raw[1..])
  }

  /** The guard is undone for every text but those that look guarded already. */
  lemma DecodeExactly(raw: string)
    ensures DecodeCsvCell(Guard(raw)) == raw <==> !LooksGuarded(raw)
  {
    if FormulaLead(raw) {
      assert ("'" + raw)[1..] == raw;
      assert raw[0] != '\'';
    }
  }

  lemma {:induction false} AllFilled(rows: seq<seq<string>>)
    requires forall k :: 0 <= k < |rows| ==> Filled(rows[k])
    ensures FilledRows(rows) == rows
  {
    if rows != [] {
      AllFilled(rows[..|rows| - 1]);
      assert rows == rows[..|rows| - 1] + [rows[|rows| - 1]];
    }
  }

  /** What the client parses from an export: every cell, guarded, in its place. */
  lemma ExportRoundTrip(labels: seq<string>, records: seq<(string, seq<string>)>)
    requires forall k :: 0 <= k < |records| ==> records[k].0 != ""
    ensures Parsed(ExportCsv(labels, records)) == GuardGrid(ExportGrid(labels, records))
  {
    hide GridText, Parsed, FilledRows;
    var grid := ExportGrid(labels, records);
    var rows := GuardGrid(grid);
    forall k | 0 <= k < |rows| ensures rows[k] != [] && Filled(rows[k]) {
      assert rows[k] == GuardAll(grid[k]);
      assert grid[k] != [] && grid[k][0] == if k == 0 then ID_LABEL else records[k - 1].0;
      assert rows[k][0] == Guard(grid[k][0]) != "";
    }
    GridRoundTrip(rows);
    AllFilled(rows);
  }

  function DecodeRow(cells: seq<string>): (r: seq<string>)
    ensures |r| == |cells| && forall k :: 0 <= k < |cells| ==> r[k] == DecodeCsvCell(cells[k])
  {
    seq(|cells|, k requires 0 <= k < |cells| => DecodeCsvCell(cells[k]))
  }

  function DecodeGrid(rows: seq<seq<string>>): (r: seq<seq<string>>)
    ensures |r| == |rows| && forall k :: 0 <= k < |rows| ==> r[k] == DecodeRow(rows[k])
  {
    seq(|rows|, k requires 0 <= k < |rows| => DecodeRow(rows[k]))
  }

  predicate AnyLooksGuarded(cells: seq<string>) {
    exists k :: 0 <= k < |cells| && LooksGuarded(cells[k])
  }

  lemma DecodeRowExactly(cells: seq<string>)
    ensures DecodeRow(GuardAll(cells)) == cells <==> !AnyLooksGuarded(cells)
  {
    hide LooksGuarded, DecodeCsvCell, Guard;
    forall k | 0 <= k < |cells| ensures DecodeRow(GuardAll(cells))[k] == cells[k] <==> !LooksGuarded(cells[k]) {
      DecodeExactly(cells[k]);
    }
  }

  /** An export that is parsed and decoded is the table again, exactly when no cell looks guarded from the start. */
  lemma ExportDecodesExactly(labels: seq<string>, records: seq<(string, seq<string>)>)
    requires forall k :: 0 <= k < |records| ==> records[k].0 != ""
    ensures var grid := ExportGrid(labels, records);
      DecodeGrid(Parsed(ExportCsv(labels, records))) == grid
      <==> forall k :: 0 <= k < |grid| ==> !AnyLooksGuarded(grid[k])
  {
    hide Parsed, ExportCsv, AnyLooksGuarded, ExportGrid;
    ExportRoundTrip(labels, records);
    var grid := ExportGrid(labels, records);
    forall k | 0 <= k < |grid| ensures DecodeGrid(GuardGrid(grid))[k] == grid[k] <==> !AnyLooksGuarded(grid[k]) {
      DecodeRowExactly(grid[k]);
    }
  }

  // ----- what a spreadsheet gets to see -----

  /** A spreadsheet would run the text as a formula. */
  predicate Runs(s: string) {
    s != "" && s[0] in "=+-@\t\r"
  }

  /** No cell that is read back from an export runs: those that would have a quote in front, and the others are as given. */
  lemma ExportIsSafe(labels: seq<string>, records: seq<(string, seq<string>)>, k: nat, n: nat)
    requires (forall k :: 0 <= k < |records| ==> records[k].0 != "") && k < |records| && n < |records[k].1|
    ensures var rows, cell := Parsed(ExportCsv(labels, records)), records[k].1[n];
      && |rows| == |records| + 1 && |rows[k + 1]| == |records[k].1| + 1
      && !Runs(rows[k + 1][n + 1]) && rows[k + 1][n + 1] == if Runs(cell) then "'" + cell else cell
  {
    hide Parsed, ExportCsv;
    ExportRoundTrip(labels, records);
    GuardedRuns(records[k].1[n]);
    hide Guard, Runs;
    var grid := ExportGrid(labels, records);
    assert GuardGrid(grid)[k + 1] == GuardAll([records[k].0] + records[k].1);
  }

  lemma GuardedRuns(raw: string)
    ensures !Runs(Guard(raw)) && Guard(raw) == if Runs(raw) then "'" + raw else raw
  {
  }

  /** A cell is written as it is exactly when it holds no quote, comma or line end. */
  lemma WrittenPlainly(s: string)
    ensures RowText([s]) == s <==> forall k :: 0 <= k < |s| ==> s[k] !in "\",\r\n"
  {
    if NeedsQuotes(s) { DoubledLength(s); }
  }

  lemma {:induction false} DoubledLength(s: string)
    ensures |Doubled(s)| >= |s|
  {
    if s != "" { DoubledLength(s[1..]); }
  }

  /** The layout of a file: cells with commas between, rows with CR LF between, and a byte order mark in front. */
  lemma {:induction false} FileLayout(rows: seq<seq<string>>, row: seq<string>, cell: string)
    ensures rows != [] ==> GridText(rows + [row]) == GridText(rows) + "\r\n" + RowText(row)
    ensures row != [] ==> RowText(row + [cell]) == RowText(row) + "," + RowText([cell])
    ensures GridText([row]) == RowText(row)
    decreases |rows| + |row|
  {
    hide Quoted;
    if |rows| > 1 {
      FileLayout(rows[1..], row, cell);
      assert (rows + [row])[1..] == rows[1..] + [row];
    } else if |rows| == 1 {
      assert (rows + [row])[1..] == [row];
    }
    if |row| > 1 {
      FileLayout([], row[1..], cell);
      assert (row + [cell])[1..] == row[1..] + [cell];
    } else if |row| == 1 {
      assert (row + [cell])[1..] == [cell];
    }
  }

  lemma ExportStarts(labels: seq<string>, records: seq<(string, seq<string>)>)
    ensures var text := ExportCsv(labels, records);
      && text[0] == '\U{FEFF}'
      && text[1..] == GridText(GuardGrid([["\U{30EC}\U{30B3}\U{30FC}\U{30C9}ID"] + labels]
                                         + seq(|records|, k requires 0 <= k < |records| => [records[k].0] + records[k].1)))
  {
  }
}
