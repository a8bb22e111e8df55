/** The CSV the register exports and the import's error list, against a reader that follows the
    quoting rules of section 2 of RFC 4180. */
module Csv {
  import opened Lists

  type Row = seq<string>

  // -------------------------------------------------------------------- the printer

  predicate NeedsQuotes(v: string) {
    '"' in v || ',' in v || '\n' in v
  }

  /** `v` with every quote doubled. */
  function Escaped(v: string): string {
    if v == "" then "" else (if v[0] == '"' then "\"\"" else [v[0]]) + Escaped(v[1..])
  }

  function Cell(v: string): string {
    if NeedsQuotes(v) then "\"" + Escaped(v) + "\"" else v
  }

  function Line(cells: Row): string {
    if cells == [] then "" else if |cells| == 1 then Cell(cells[0]) else Cell(cells[0]) + "," + Line(cells[1..])
  }

  function Document(rows: seq<Row>): string {
    if rows == [] then "" else if |rows| == 1 then Line(rows[0]) else Line(rows[0]) + "\n" + Document(rows[1..])
  }

  const BOM := '\U{FEFF}'

  // --------------------------------------------------------------------- the reader

  /** Where a reader stands: at the start of a cell, in a plain one, in a quoted one, or just past
      a quote inside a quoted one. */
  datatype Mode = Fresh | Plain | Quoted | Closing

  function Push(row: Row, rest: Option<seq<Row>>): Option<seq<Row>> {
    match rest
    case None => None
    case Some(rows) => Some([row] + rows)
  }

  /** Read `text` with `cell` and `row` read so far. Rows end at LF; with `crlf` they also end at
      CR LF, otherwise CR is an ordinary character. None is a malformed document. */
  function Read(text: string, mode: Mode, cell: string, row: Row, crlf: bool): Option<seq<Row>>
    decreases |text|
  {
    if text == "" then
      if mode == Quoted then None else Some([row + [cell]])
    else
      var c, rest := text[0], text[1..];
      match mode
      case Quoted =>
        if c == '"' then Read(rest, Closing, cell, row, crlf) else Read(rest, Quoted, cell + [c], row, crlf)
      case _ =>
        if c == ',' then Read(rest, Fresh, "", row + [cell], crlf)
        else if c == '\n' then Push(row + [cell], Read(rest, Fresh, "", [], crlf))
        else if crlf && c == '\r' && rest != "" && rest[0] == '\n' then
          Push(row + [cell], Read(rest[1..], Fresh, "", [], crlf))
        else if c == '"' then
          if mode == Fresh then Read(rest, Quoted, cell, row, crlf)
          else if mode == Closing then Read(rest, Quoted, cell + [c], row, crlf)
          else None
        else if mode == Closing then None
        else Read(rest, Plain, cell + [c], row, crlf)
  }

  function Decode(text: string, crlf: bool): Option<seq<Row>> {
    Read(text, Fresh, "", [], crlf)
  }

  function StripBom(text: string): string {
    if text != "" && text[0] == BOM then text[1..] else text
  }

  lemma {:induction false} EscapedLength(v: string)
    ensures |Escaped(v)| == |v| + multiset(v)['"']
  {
    if v != "" {
      EscapedLength(v[1..]);
      assert v == [v[0]] + v[1..];
    }
  }

  /** A cell is printed as it is exactly when it holds no quote, comma or LF; else it grows by the two quotes around it
      and one for each of its own. */
  lemma PrintedAsItIs(v: string)
    ensures Cell(v) == v <==> '"' !in v && ',' !in v && '\n' !in v
    ensures Cell(v) != v ==> |Cell(v)| == |v| + 2 + multiset(v)['"']
  {
    EscapedLength(v);
  }

  // --------------------------------------------------------------------- the round trip

  /** A cell ends here. */
  predicate AtBreak(rest: string) {
    rest == "" || rest[0] == ',' || rest[0] == '\n'
  }

  /** What is left to read once `cell` is complete and `rest` starts at a break. */
  function After(cell: string, rest: string, row: Row, crlf: bool): Option<seq<Row>>
    requires AtBreak(rest)
  {
    if rest == "" then Some([row + [cell]])
    else if rest[0] == ',' then Read(rest[1..], Fresh, "", row + [cell], crlf)
    else Push(row + [cell], Read(rest[1..], Fresh, "", [], crlf))
  }

  /** What a reader makes of a plain cell: one that takes CR LF as a row break loses a CR that ends
      the row's last cell. */
  function Kept(v: string, rest: string, crlf: bool): string {
    if crlf && !NeedsQuotes(v) && v != "" && v[|v| - 1] == '\r' && rest != "" && rest[0] == '\n' then v[..|v| - 1]
    else v
  }

  lemma KeptNext(v: string, rest: string, crlf: bool)
    requires v != "" && !NeedsQuotes(v) && !(crlf && v == "\r" && rest != "" && rest[0] == '\n')
    ensures !NeedsQuotes(v[1..]) && Kept(v, rest, crlf) == [v[0]] + Kept(v[1..], rest, crlf)
  {
    var tail := v[1..];
    assert v == [v[0]] + tail;
    if tail != "" {
      assert tail[|tail| - 1] == v[|v| - 1];
      assert v[..|v| - 1] == [v[0]] + tail[..|tail| - 1];
    }
  }

  lemma {:induction false} ReadPlain(v: string, mode: Mode, done: string, rest: string, row: Row, crlf: bool)
    requires !NeedsQuotes(v) && AtBreak(rest) && (mode == Plain || (mode == Fresh && done == ""))
    ensures Read(v + rest, mode, done, row, crlf) == After(done + Kept(v, rest, crlf), rest, row, crlf)
    decreases |v|
  {
    if v == "" {
      assert v + rest == rest && done + v == done;
    } else {
      var text := v + rest;
      assert text[0] == v[0] && text[1..] == v[1..] + rest;
      assert v[0] in v;
      if crlf && v == "\r" && rest != "" && rest[0] == '\n' {
        assert text[1..] == rest && done + "" == done;
      } else {
        ReadPlain(v[1..], Plain, done + [v[0]], rest, row, crlf);
        KeptNext(v, rest, crlf);
        assert done + [v[0]] + Kept(v[1..], rest, crlf) == done + ([v[0]] + Kept(v[1..], rest, crlf));
      }
    }
  }

  lemma {:induction false} ReadQuoted(v: string, done: string, rest: string, row: Row, crlf: bool)
    requires AtBreak(rest)
    ensures Read(Escaped(v) + "\"" + rest, Quoted, done, row, crlf) == After(done + v, rest, row, crlf)
    decreases |v|
  {
    var text := Escaped(v) + "\"" + rest;
    if v == "" {
      assert text[1..] == rest && done + v == done;
    } else {
      var tail := Escaped(v[1..]) + "\"" + rest;
      assert done + [v[0]] + v[1..] == done + v;
      ReadQuoted(v[1..], done + [v[0]], rest, row, crlf);
      if v[0] == '"' {
        assert text == "\"\"" + tail;
        assert text[1..] == "\"" + tail && text[1..][1..] == tail;
      } else {
        assert text == [v[0]] + tail;
        assert text[1..] == tail;
      }
    }
  }

  lemma ReadCell(v: string, rest: string, row: Row, crlf: bool)
    requires AtBreak(rest)
    ensures Read(Cell(v) + rest, Fresh, "", row, crlf) == After(Kept(v, rest, crlf), rest, row, crlf)
  {
    assert "" + v == v && "" + Kept(v, rest, crlf) == Kept(v, rest, crlf);
    hide Escaped;
    if NeedsQuotes(v) {
      var text := Cell(v) + rest;
      assert text[0] == '"' && text[1..] == Escaped(v) + "\"" + rest;
      ReadQuoted(v, "", rest, row, crlf);
    } else {
      ReadPlain(v, Fresh, "", rest, row, crlf);
    }
  }

  /** A row as a reader sees it when `rest` follows. */
  function KeptRow(cells: Row, rest: string, crlf: bool): Row
    requires cells != []
  {
    cells[..|cells| - 1] + [Kept(cells[|cells| - 1], rest, crlf)]
  }

  lemma {:induction false} ReadLine(cells: Row, rest: string, row: Row, crlf: bool)
    requires cells != [] && (rest == "" || rest[0] == '\n')
    ensures Read(Line(cells) + rest, Fresh, "", row, crlf)
            == if rest == "" then Some([row + KeptRow(cells, rest, crlf)])
               else Push(row + KeptRow(cells, rest, crlf), Read(rest[1..], Fresh, "", [], crlf))
    decreases |cells|
  {
    hide Read, Kept, Cell, KeptRow;
    if |cells| == 1 {
      ReadCell(cells[0], rest, row, crlf);
      LastKept(cells, rest, row, crlf);
    } else {
      var more := "," + Line(cells[1..]) + rest;
      assert Line(cells) + rest == Cell(cells[0]) + more;
      ReadCell(cells[0], more, row, crlf);
      KeptBeforeComma(cells[0], more, crlf);
      assert more[1..] == Line(cells[1..]) + rest;
      ReadLine(cells[1..], rest, row + [cells[0]], crlf);
      RowKept(cells, rest, row, crlf);
    }
  }

  lemma LastKept(cells: Row, rest: string, row: Row, crlf: bool)
    requires |cells| == 1
    ensures row + KeptRow(cells, rest, crlf) == row + [Kept(cells[0], rest, crlf)]
  {
  }

  lemma RowKept(cells: Row, rest: string, row: Row, crlf: bool)
    requires |cells| > 1
    ensures row + [cells[0]] + KeptRow(cells[1..], rest, crlf) == row + KeptRow(cells, rest, crlf)
  {
  }

  lemma KeptBeforeComma(v: string, rest: string, crlf: bool)
    requires rest != "" && rest[0] == ','
    ensures Kept(v, rest, crlf) == v
  {
  }

  /** Rows of one or more cells. */
  ghost predicate Table(rows: seq<Row>) {
    rows != [] && Filled(rows)
  }

  ghost predicate Filled(rows: seq<Row>) {
    forall i :: 0 <= i < |rows| ==> rows[i] != []
  }

  /** What the reader gets: the rows, each but the last as seen before a line break. */
  function KeptRows(rows: seq<Row>, crlf: bool): seq<Row>
    requires Filled(rows)
  {
    if |rows| <= 1 then rows else [KeptRow(rows[0], "\n", crlf)] + KeptRows(rows[1..], crlf)
  }

  lemma {:induction false} ReadDocument(rows: seq<Row>, crlf: bool)
    requires Table(rows)
    ensures Decode(Document(rows), crlf) == Some(KeptRows(rows, crlf))
    decreases |rows|
  {
    hide Read, Line, Kept;
    if |rows| == 1 {
      ReadLine(rows[0], "", [], crlf);
      assert Line(rows[0]) + "" == Line(rows[0]);
      KeptAtEnd(rows[0], crlf);
      assert rows == [rows[0]];
    } else {
      var rest := "\n" + Document(rows[1..]);
      assert Document(rows) == Line(rows[0]) + rest && rest[1..] == Document(rows[1..]);
      ReadLine(rows[0], rest, [], crlf);
      KeptAtNewline(rows[0], rest, crlf);
      ReadDocument(rows[1..], crlf);
    }
  }

  lemma KeptAtEnd(cells: Row, crlf: bool)
    requires cells != []
    ensures [] + KeptRow(cells, "", crlf) == cells
  {
  }

  lemma KeptAtNewline(cells: Row, rest: string, crlf: bool)
    requires cells != [] && rest != "" && rest[0] == '\n'
    ensures [] + KeptRow(cells, rest, crlf) == KeptRow(cells, "\n", crlf)
  {
  }

  lemma {:induction false} KeptWhole(rows: seq<Row>)
    requires Filled(rows)
    ensures KeptRows(rows, false) == rows
  {
    if |rows| > 1 {
      KeptWhole(rows[1..]);
      assert KeptRow(rows[0], "\n", false) == rows[0];
    }
  }

  /** Reading a printed table with LF as the row break gives back its rows. */
  lemma RoundTrip(rows: seq<Row>)
    requires Table(rows)
    ensures Decode(Document(rows), false) == Some(rows)
  {
    ReadDocument(rows, false);
    KeptWhole(rows);
  }

  /** Different tables print differently. */
  lemma UniquelyDecodable(a: seq<Row>, b: seq<Row>)
    requires Table(a) && Table(b) && Document(a) == Document(b)
    ensures a == b
  {
    RoundTrip(a);
    RoundTrip(b);
  }

  /** A row whose last cell ends in CR and holds no quote, comma or LF. */
  predicate EndsInBareCR(r: Row) {
    r != [] && var v := r[|r| - 1]; v != "" && v[|v| - 1] == '\r' && '"' !in v && ',' !in v && '\n' !in v
  }

  lemma {:induction false} KeptExactly(rows: seq<Row>)
    requires Filled(rows)
    ensures KeptRows(rows, true) == rows <==> forall i :: 0 <= i < |rows| - 1 ==> !EndsInBareCR(rows[i])
  {
    if |rows| > 1 {
      KeptExactly(rows[1..]);
      var kept := KeptRows(rows, true);
      assert kept[0] == KeptRow(rows[0], "\n", true) && kept[1..] == KeptRows(rows[1..], true);
      assert rows == [rows[0]] + rows[1..];
      assert KeptRow(rows[0], "\n", true) == rows[0] <==> !EndsInBareCR(rows[0]) by {
        var r := rows[0];
        assert KeptRow(r, "\n", true)[|r| - 1] == Kept(r[|r| - 1], "\n", true);
        assert r == r[..|r| - 1] + [r[|r| - 1]];
      }
      assert (forall i :: 0 <= i < |rows| - 1 ==> !EndsInBareCR(rows[i])) <==>
             !EndsInBareCR(rows[0]) && forall i :: 0 <= i < |rows[1..]| - 1 ==> !EndsInBareCR(rows[1..][i]) by {
        assert forall i :: 0 <= i < |rows[1..]| - 1 ==> rows[1..][i] == rows[i + 1];
        assert forall i :: 1 <= i < |rows| - 1 ==> rows[i] == rows[1..][i - 1];
      }
    }
  }

  /** A reader that also takes CR LF as a row break recovers the rows exactly when no row but the
      last ends in a bare CR: the printer does not quote for CR. */
  lemma RoundTripCrLf(rows: seq<Row>)
    requires Table(rows)
    ensures Decode(Document(rows), true) == Some(rows) <==>
            forall i :: 0 <= i < |rows| - 1 ==> !EndsInBareCR(rows[i])
  {
    ReadDocument(rows, true);
    KeptExactly(rows);
  }

  lemma LoneCRIsLost()
    ensures Decode(Document([["a\r"], ["b"]]), true) != Some([["a\r"], ["b"]])
    ensures Decode(Document([["a\r"], ["b"]]), false) == Some([["a\r"], ["b"]])
  {
    var rows := [["a\r"], ["b"]];
    RoundTrip(rows);
    RoundTripCrLf(rows);
    assert EndsInBareCR(rows[0]);
  }

  // -------------------------------------------------------------------- the export

  type Key = nat
  type Record = nat

  function JoinLines(lines: seq<string>): string {
    if lines == [] then "" else if |lines| == 1 then lines[0] else lines[0] + "\n" + JoinLines(lines[1..])
  }

  function Lines(rows: seq<Row>): seq<string> {
    seq(|rows|, i requires 0 <= i < |rows| => Line(rows[i]))
  }

  lemma {:induction false} JoinedLines(rows: seq<Row>)
    ensures JoinLines(Lines(rows)) == Document(rows)
  {
    if rows != [] {
      JoinedLines(rows[1..]);
      assert Lines(rows)[1..] == Lines(rows[1..]);
    }
  }

  /** The selection's CSV: a header line, then one line per selected record, over the visible
      columns that hold data. A reader gets those rows back. */
  method ExportSelection(columns: seq<Key>, selected: seq<Record>, header: Key -> string, text: (Key, Record) -> string)
    returns (csv: string)
    ensures csv == [BOM] + Document(Rows(columns, selected, header, text))
    ensures columns != [] ==>
              exists rows ::
                Decode(StripBom(csv), false) == Some(rows) && Tabulates(rows, columns, selected, header, text)
    ensures columns == [] ==> Decode(StripBom(csv), false) == Some(seq(1 + |selected|, _ => [""]))
  {
    var lines := [Line(Cells(columns, header))];
    for i := 0 to |selected|
      invariant lines == Lines(Rows(columns, selected[..i], header, text))
    {
      assert Rows(columns, selected[..i + 1], header, text)
          == Rows(columns, selected[..i], header, text) + [Cells(columns, (k: Key) => text(k, selected[i]))];
      lines := lines + [Line(Cells(columns, (k: Key) => text(k, selected[i])))];
    }
    assert selected[..|selected|] == selected;
    csv := [BOM] + JoinLines(lines);
    var rows := Rows(columns, selected, header, text);
    JoinedLines(rows);
    assert StripBom(csv) == Document(rows);
    RowsTabulate(columns, selected, header, text);
    hide Rows, Cells, Tabulates;
    if columns != [] { RoundTrip(rows); } else { EmptyRows(rows); }
  }

  /** A row of headings, then a row for each record with its texts, both in the order of the columns. */
  ghost predicate Tabulates(rows: seq<Row>, columns: seq<Key>, selected: seq<Record>, header: Key -> string,
                            text: (Key, Record) -> string)
  {
    && |rows| == 1 + |selected|
    && (forall i :: 0 <= i < |rows| ==> |rows[i]| == |columns|)
    && (forall k :: 0 <= k < |columns| ==> rows[0][k] == header(columns[k]))
    && forall i, k :: 0 <= i < |selected| && 0 <= k < |columns| ==> rows[1 + i][k] == text(columns[k], selected[i])
  }

  lemma RowsTabulate(columns: seq<Key>, selected: seq<Record>, header: Key -> string, text: (Key, Record) -> string)
    ensures Tabulates(Rows(columns, selected, header, text), columns, selected, header, text)
    ensures columns == [] ==> forall r :: r in Rows(columns, selected, header, text) ==> r == []
    ensures columns != [] ==> Table(Rows(columns, selected, header, text))
  {
  }

  /** Rows without cells print like rows of one empty cell, and are read back as those. */
  lemma EmptyRows(rows: seq<Row>)
    requires rows != [] && forall r :: r in rows ==> r == []
    ensures Decode(Document(rows), false) == Some(seq(|rows|, _ => [""]))
  {
    var blank: seq<Row> := seq(|rows|, _ => [""]);
    forall i | 0 <= i < |rows| ensures rows[i] == [] { assert rows[i] in rows; }
    SameLines(rows, blank);
    RoundTrip(blank);
  }

  lemma {:induction false} SameLines(rows: seq<Row>, blank: seq<Row>)
    requires |rows| == |blank|
    requires forall i :: 0 <= i < |rows| ==> rows[i] == [] && blank[i] == [""]
    ensures Document(rows) == Document(blank)
  {
    if rows != [] { SameLines(rows[1..], blank[1..]); }
  }

  function Cells(columns: seq<Key>, text: Key -> string): Row {
    seq(|columns|, i requires 0 <= i < |columns| => text(columns[i]))
  }

  function Rows(columns: seq<Key>, selected: seq<Record>, header: Key -> string, text: (Key, Record) -> string)
    : seq<Row>
  {
    [Cells(columns, header)]
    + seq(|selected|, i requires 0 <= i < |selected| => Cells(columns, (k: Key) => text(k, selected[i])))
  }
}
