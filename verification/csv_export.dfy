// The CSV printer of the platform export, and the reader that undoes it.
// Quoting follows section 2 of RFC 4180, with a line feed between records.
module CsvExport {
  import opened Common

  // ---- The printer ----

  // A cell as the database returns it; null and undefined both print as nothing.
  datatype Cell = Null | Undefined | Text(text: string)

  type Row = map<string, Cell>

  predicate IsSpecial(c: char) {
    c == '"' || c == ',' || c == '\n'
  }

  predicate IsPlain(s: string) {
    forall k | 0 <= k < |s| :: !IsSpecial(s[k])
  }

  function DoubleQuotes(s: string): (r: string)
    ensures |r| >= |s|
  {
    if s == "" then "" else (if s[0] == '"' then "\"\"" else [s[0]]) + DoubleQuotes(s[1..])
  }

  function Quote(s: string): string {
    "\"" + DoubleQuotes(s) + "\""
  }

  function CellText(row: Row, column: string): string {
    if column in row && row[column].Text? then row[column].text else ""
  }

  function Escape(s: string): string {
    if IsPlain(s) then s else Quote(s)
  }

  function Join(parts: seq<string>, separator: string): string {
    if parts == [] then ""
    else if |parts| == 1 then parts[0]
    else parts[0] + separator + Join(parts[1..], separator)
  }

  function Cells(row: Row, columns: seq<string>): (r: seq<string>)
    ensures |r| == |columns|
  {
    seq(|columns|, k requires 0 <= k < |columns| => CellText(row, columns[k]))
  }

  function EscapeAll(cells: seq<string>): (r: seq<string>)
    ensures |r| == |cells|
  {
    seq(|cells|, k requires 0 <= k < |cells| => Escape(cells[k]))
  }

  function Grid(rows: seq<Row>, columns: seq<string>): (r: seq<seq<string>>)
    ensures |r| == |rows|
  {
    seq(|rows|, k requires 0 <= k < |rows| => Cells(rows[k], columns))
  }

  function Lines(grid: seq<seq<string>>): (r: seq<string>)
    ensures |r| == |grid|
  {
    seq(|grid|, k requires 0 <= k < |grid| => Join(EscapeAll(grid[k]), ","))
  }

  // The header is printed as it is; only cells are escaped.
  function ToCsv(rows: seq<Row>, columns: seq<string>): string {
    Join([Join(columns, ",")] + Lines(Grid(rows, columns)), "\n")
  }

  // ---- The reader ----

  datatype Field = Field(text: string, rest: string)

  // An unquoted field runs up to the next separator and contains no quote.
  function ReadPlain(t: string): (r: Option<Field>)
    ensures r.Some? ==> |r.value.rest| <= |t|
  {
    if t == "" || t[0] == ',' || t[0] == '\n' then Some(Field("", t))
    else if t[0] == '"' then None
    else
      match ReadPlain(t[1..])
      case None => None
      case Some(f) => Some(Field([t[0]] + f.text, f.rest))
  }

  // A quoted field, its opening quote already read: two quotes are one, one quote ends it.
  function ReadQuoted(t: string): (r: Option<Field>)
    ensures r.Some? ==> |r.value.rest| < |t|
  {
    if t == "" then None
    else if t[0] == '"' then
      if |t| > 1 && t[1] == '"' then
        match ReadQuoted(t[2..])
        case None => None
        case Some(f) => Some(Field("\"" + f.text, f.rest))
      else Some(Field("", t[1..]))
    else
      match ReadQuoted(t[1..])
      case None => None
      case Some(f) => Some(Field([t[0]] + f.text, f.rest))
  }

  function ReadField(t: string): (r: Option<Field>)
    ensures r.Some? ==> |r.value.rest| <= |t|
  {
    if t != "" && t[0] == '"' then ReadQuoted(t[1..]) else ReadPlain(t)
  }

  // All records of a text; None when a quoted field is left open or followed by garbage.
  function Read(t: string): (r: Option<seq<seq<string>>>)
    ensures r.Some? ==> r.value != [] && forall k | 0 <= k < |r.value| :: r.value[k] != []
    decreases |t|
  {
    match ReadField(t)
    case None => None
    case Some(f) =>
      if f.rest == "" then Some([[f.text]])
      else if f.rest[0] == ',' then
        match Read(f.rest[1..])
        case None => None
        case Some(records) => Some([[f.text] + records[0]] + records[1..])
      else if f.rest[0] == '\n' then
        match Read(f.rest[1..])
        case None => None
        case Some(records) => Some([[f.text]] + records)
      else None
  }

  // ---- Reading one printed field ----

  // What may follow a field: the end of the text or a separator.
  predicate AtBoundary(rest: string) {
    rest == "" || rest[0] == ',' || rest[0] == '\n'
  }

  lemma {:induction false} ReadPlainText(s: string, rest: string)
    requires IsPlain(s) && AtBoundary(rest)
    ensures ReadPlain(s + rest) == Some(Field(s, rest))
  {
    if s == "" {
      assert s + rest == rest;
    } else {
      assert !IsSpecial(s[0]);
      assert (s + rest)[1..] == s[1..] + rest;
      ReadPlainText(s[1..], rest);
      assert [s[0]] + s[1..] == s;
    }
  }

  // One more character in front of a quoted text, doubled if it is a quote, reads back too.
  lemma ReadQuotedMore(c: char, text: string, tail: string, rest: string)
    requires ReadQuoted(tail) == Some(Field(text, rest))
    ensures ReadQuoted((if c == '"' then "\"\"" else [c]) + tail) == Some(Field([c] + text, rest))
  {
    var t := (if c == '"' then "\"\"" else [c]) + tail;
    if c == '"' {
      assert t[0] == '"' && t[1] == '"' && t[2..] == tail;
    } else {
      assert t[0] == c && t[1..] == tail;
    }
  }

  lemma Regroup(a: string, b: string, c: string, d: string)
    ensures a + b + c + d == a + (b + c + d)
  {
  }

  lemma {:induction false} ReadQuotedText(s: string, rest: string)
    requires AtBoundary(rest)
    ensures ReadQuoted(DoubleQuotes(s) + "\"" + rest) == Some(Field(s, rest))
  {
    if s == "" {
      var t := DoubleQuotes(s) + "\"" + rest;
      assert t == "\"" + rest && t[1..] == rest;
    } else {
      var tail := DoubleQuotes(s[1..]) + "\"" + rest;
      ReadQuotedText(s[1..], rest);
      hide ReadQuoted;
      ReadQuotedMore(s[0], s[1..], tail, rest);
      assert s == [s[0]] + s[1..];
      Regroup(if s[0] == '"' then "\"\"" else [s[0]], DoubleQuotes(s[1..]), "\"", rest);
    }
  }

  lemma ReadEscaped(s: string, rest: string)
    requires AtBoundary(rest)
    ensures ReadField(Escape(s) + rest) == Some(Field(s, rest))
  {
    if IsPlain(s) {
      if s != "" { assert !IsSpecial(s[0]); }
      ReadPlainText(s, rest);
    } else {
      assert Escape(s) + rest == "\"" + (DoubleQuotes(s) + "\"" + rest);
      ReadQuotedText(s, rest);
    }
  }

  // ---- Reading a printed table ----

  // The text of a table with every field escaped, one field at a time.
  function TextOf(grid: seq<seq<string>>): string
    requires grid != [] && forall k | 0 <= k < |grid| :: grid[k] != []
    decreases |Flatten(grid)|, |grid|
  {
    var cells := grid[0];
    SmallerTable(grid);
    if |cells| > 1 then Escape(cells[0]) + "," + TextOf([cells[1..]] + grid[1..])
    else if |grid| > 1 then Escape(cells[0]) + "\n" + TextOf(grid[1..])
    else Escape(cells[0])
  }

  lemma SmallerTable(grid: seq<seq<string>>)
    requires grid != [] && forall k | 0 <= k < |grid| :: grid[k] != []
    ensures |Flatten(grid[1..])| < |Flatten(grid)|
    ensures |Flatten([grid[0][1..]] + grid[1..])| < |Flatten(grid)|
  {
    assert ([grid[0][1..]] + grid[1..])[1..] == grid[1..];
  }

  lemma ReadLastField(s: string)
    ensures Read(Escape(s)) == Some([[s]])
  {
    ReadEscaped(s, "");
    assert Escape(s) + "" == Escape(s);
  }

  // The first field of a text, and then the records of the rest.
  lemma ReadFirst(text: string, f: Field)
    requires ReadField(text) == Some(f) && f.rest != "" && (f.rest[0] == ',' || f.rest[0] == '\n')
    requires Read(f.rest[1..]).Some?
    ensures var records := Read(f.rest[1..]).value;
            Read(text) == Some(if f.rest[0] == ',' then [[f.text] + records[0]] + records[1..] else [[f.text]] + records)
  {
    hide ReadField;
  }

  lemma ReadFieldThen(s: string, separator: char, t: string)
    requires separator == ',' || separator == '\n'
    requires Read(t).Some?
    ensures Read(Escape(s) + [separator] + t)
         == Some(if separator == ',' then [[s] + Read(t).value[0]] + Read(t).value[1..] else [[s]] + Read(t).value)
  {
    hide Read, ReadField, Escape;
    var rest := [separator] + t;
    assert Escape(s) + [separator] + t == Escape(s) + rest && rest[1..] == t;
    ReadEscaped(s, rest);
    ReadFirst(Escape(s) + rest, Field(s, rest));
  }

  // What TextOf does with the first field, case by case.
  lemma TextOfStep(grid: seq<seq<string>>)
    requires grid != [] && forall k | 0 <= k < |grid| :: grid[k] != []
    ensures |grid[0]| > 1 ==> TextOf(grid) == Escape(grid[0][0]) + "," + TextOf([grid[0][1..]] + grid[1..])
    ensures |grid[0]| == 1 && |grid| > 1 ==> TextOf(grid) == Escape(grid[0][0]) + "\n" + TextOf(grid[1..])
    ensures |grid[0]| == 1 && |grid| == 1 ==> TextOf(grid) == Escape(grid[0][0])
  {
  }

  lemma {:induction false} ReadTextOf(grid: seq<seq<string>>)
    requires grid != [] && forall k | 0 <= k < |grid| :: grid[k] != []
    ensures Read(TextOf(grid)) == Some(grid)
    decreases |Flatten(grid)|, |grid|
  {
    hide Read, TextOf, Escape, Flatten;
    var cells := grid[0];
    SmallerTable(grid);
    TextOfStep(grid);
    if |cells| > 1 {
      var shorter := [cells[1..]] + grid[1..];
      ReadTextOf(shorter);
      ReadFieldThen(cells[0], ',', TextOf(shorter));
      assert shorter[0] == cells[1..] && shorter[1..] == grid[1..];
      assert [cells[0]] + cells[1..] == cells && [cells] + grid[1..] == grid;
    } else if |grid| > 1 {
      ReadTextOf(grid[1..]);
      ReadFieldThen(cells[0], '\n', TextOf(grid[1..]));
      assert cells == [cells[0]] && [cells] + grid[1..] == grid;
    } else {
      ReadLastField(cells[0]);
      assert cells == [cells[0]] && grid == [cells];
    }
  }

  lemma {:induction false} TextOfRecord(cells: seq<string>, more: seq<seq<string>>)
    requires cells != [] && forall k | 0 <= k < |more| :: more[k] != []
    ensures TextOf([cells] + more) == Join(EscapeAll(cells), ",") + if more == [] then "" else "\n" + TextOf(more)
    decreases |cells|
  {
    var grid := [cells] + more;
    assert grid[1..] == more;
    if |cells| > 1 {
      assert EscapeAll(cells)[1..] == EscapeAll(cells[1..]);
      TextOfRecord(cells[1..], more);
    }
  }

  lemma LinesOf(grid: seq<seq<string>>)
    requires grid != []
    ensures Lines(grid)[0] == Join(EscapeAll(grid[0]), ",") && Lines(grid)[1..] == Lines(grid[1..])
  {
    hide Join, EscapeAll;
  }

  lemma {:induction false} TextOfLines(grid: seq<seq<string>>)
    requires grid != [] && forall k | 0 <= k < |grid| :: grid[k] != []
    ensures TextOf(grid) == Join(Lines(grid), "\n")
    decreases |grid|
  {
    assert grid == [grid[0]] + grid[1..];
    TextOfRecord(grid[0], grid[1..]);
    hide TextOf, EscapeAll;
    LinesOf(grid);
    hide Lines;
    if |grid| > 1 { TextOfLines(grid[1..]); }
  }

  predicate PlainHeader(columns: seq<string>) {
    forall k | 0 <= k < |columns| :: IsPlain(columns[k])
  }

  lemma ToCsvIsTextOf(rows: seq<Row>, columns: seq<string>)
    requires columns != [] && PlainHeader(columns)
    ensures ToCsv(rows, columns) == TextOf([columns] + Grid(rows, columns))
  {
    var grid := [columns] + Grid(rows, columns);
    assert EscapeAll(columns) == columns;
    assert Lines(grid) == [Join(columns, ",")] + Lines(Grid(rows, columns));
    TextOfLines(grid);
  }

  // ---- The reader never gets more out of a text than the printer would need ----

  function Size(grid: seq<seq<string>>): nat
    requires grid != [] && forall k | 0 <= k < |grid| :: grid[k] != []
  {
    |TextOf(grid)|
  }

  lemma {:induction false} DoubledLength(s: string)
    ensures IsPlain(s) ==> |DoubleQuotes(s)| == |s|
  {
    if s != "" { DoubledLength(s[1..]); }
  }

  lemma {:induction false} PlainFieldIsPlain(t: string)
    requires ReadPlain(t).Some?
    ensures IsPlain(ReadPlain(t).value.text)
    ensures |t| == |ReadPlain(t).value.text| + |ReadPlain(t).value.rest|
  {
    if !(t == "" || t[0] == ',' || t[0] == '\n') {
      PlainFieldIsPlain(t[1..]);
    }
  }

  lemma {:induction false} QuotedFieldLength(t: string)
    requires ReadQuoted(t).Some?
    ensures |t| == |DoubleQuotes(ReadQuoted(t).value.text)| + 1 + |ReadQuoted(t).value.rest|
  {
    if t[0] == '"' {
      if |t| > 1 && t[1] == '"' {
        QuotedFieldLength(t[2..]);
        var f := ReadQuoted(t[2..]).value;
        assert ("\"" + f.text)[1..] == f.text;
      }
    } else {
      QuotedFieldLength(t[1..]);
      var f := ReadQuoted(t[1..]).value;
      assert ([t[0]] + f.text)[1..] == f.text;
    }
  }

  lemma FieldLength(t: string)
    requires ReadField(t).Some?
    ensures |t| >= |Escape(ReadField(t).value.text)| + |ReadField(t).value.rest|
  {
    if t != "" && t[0] == '"' {
      QuotedFieldLength(t[1..]);
      DoubledLength(ReadField(t).value.text);
    } else {
      PlainFieldIsPlain(t);
    }
  }

  lemma {:induction false} ReadLength(t: string)
    requires Read(t).Some?
    ensures |t| >= Size(Read(t).value)
    decreases |t|
  {
    var grid := Read(t).value;
    var f := ReadField(t).value;
    FieldLength(t);
    if f.rest != "" {
      ReadLength(f.rest[1..]);
      var records := Read(f.rest[1..]).value;
      if f.rest[0] == ',' {
        assert grid[0][1..] == records[0] && [grid[0][1..]] + grid[1..] == records;
      } else {
        assert grid[1..] == records;
      }
    }
  }

  lemma {:induction false} JoinLonger(columns: seq<string>)
    ensures |Join(columns, ",")| <= |Join(EscapeAll(columns), ",")|
    ensures !PlainHeader(columns) ==> |Join(columns, ",")| < |Join(EscapeAll(columns), ",")|
  {
    if columns != [] {
      JoinLonger(columns[1..]);
      assert EscapeAll(columns)[1..] == EscapeAll(columns[1..]);
      assert PlainHeader(columns) <==> IsPlain(columns[0]) && PlainHeader(columns[1..]) by {
        if PlainHeader(columns[1..]) && IsPlain(columns[0]) {
          forall k | 0 <= k < |columns| ensures IsPlain(columns[k]) {
            if k > 0 { assert IsPlain(columns[1..][k - 1]); }
          }
        }
        if PlainHeader(columns) {
          forall k | 0 <= k < |columns| - 1 ensures IsPlain(columns[1..][k]) {
            assert IsPlain(columns[k + 1]);
          }
        }
      }
    }
  }

  // A header that needs escaping is printed too short to be read back.
  lemma UnescapedHeaderTooShort(rows: seq<Row>, columns: seq<string>)
    requires columns != [] && !PlainHeader(columns)
    ensures |ToCsv(rows, columns)| < Size([columns] + Grid(rows, columns))
  {
    var body := Grid(rows, columns);
    JoinLonger(columns);
    TextOfRecord(columns, body);
    if rows != [] { TextOfLines(body); }
  }

  // ---- The main results ----

  // The export can be read back exactly when there is a column and the header needs no escaping,
  // whatever the cells contain.
  lemma ReadBackExactlyWhen(rows: seq<Row>, columns: seq<string>)
    ensures Read(ToCsv(rows, columns)) == Some([columns] + Grid(rows, columns))
       <==> columns != [] && PlainHeader(columns)
  {
    if columns == [] {
      var r := Read(ToCsv(rows, columns));
      if r.Some? { assert r.value[0] != []; }
    } else if PlainHeader(columns) {
      ToCsvIsTextOf(rows, columns);
      ReadTextOf([columns] + Grid(rows, columns));
    } else {
      UnescapedHeaderTooShort(rows, columns);
      if Read(ToCsv(rows, columns)).Some? { ReadLength(ToCsv(rows, columns)); }
    }
  }

  // Two tables that print the same text hold the same header and the same cell strings.
  lemma PrintingIsInjective(rows: seq<Row>, columns: seq<string>, rows': seq<Row>, columns': seq<string>)
    requires columns != [] && PlainHeader(columns) && columns' != [] && PlainHeader(columns')
    requires ToCsv(rows, columns) == ToCsv(rows', columns')
    ensures columns == columns' && Grid(rows, columns) == Grid(rows', columns')
  {
    ReadBackExactlyWhen(rows, columns);
    ReadBackExactlyWhen(rows', columns');
    var g, g' := [columns] + Grid(rows, columns), [columns'] + Grid(rows', columns');
    assert g == g';
    assert g[0] == g'[0] && g[1..] == g'[1..];
  }

  // ---- What the rows themselves hold ----

  ghost predicate NeedsNoQuotes(columns: seq<string>) {
    forall c, k | 0 <= c < |columns| && 0 <= k < |columns[c]| ::
      columns[c][k] != '"' && columns[c][k] != ',' && columns[c][k] != '\n'
  }

  // Record k of the text after the header, in its c-th field, says what row k holds in that column.
  ghost predicate SaysCell(records: seq<seq<string>>, rows: seq<Row>, columns: seq<string>, k: int, c: int)
    requires 0 <= k < |rows| && 0 <= c < |columns|
  {
    && k + 1 < |records| && c < |records[k + 1]|
    && records[k + 1][c] ==
       if columns[c] in rows[k] && rows[k][columns[c]].Text? then rows[k][columns[c]].text else ""
  }

  // A text that is there reads back as it is; a null, an undefined and a missing value as nothing.
  lemma ReadsBackRows(rows: seq<Row>, columns: seq<string>)
    requires columns != [] && NeedsNoQuotes(columns)
    ensures Read(ToCsv(rows, columns)).Some?
    ensures var records := Read(ToCsv(rows, columns)).value;
            && |records| == |rows| + 1 && records[0] == columns
            && (forall k | 0 <= k < |records| :: |records[k]| == |columns|)
            && (forall k, c | 0 <= k < |rows| && 0 <= c < |columns| :: SaysCell(records, rows, columns, k, c))
  {
    forall c | 0 <= c < |columns| ensures IsPlain(columns[c]) {
      forall k | 0 <= k < |columns[c]| ensures !IsSpecial(columns[c][k]) {}
    }
    assert PlainHeader(columns);
    ReadBackExactlyWhen(rows, columns);
  }

  // Two tables that print the same agree, cell by cell, on every text that is not empty.
  lemma SameTextSameRows(rows: seq<Row>, columns: seq<string>, rows': seq<Row>, columns': seq<string>)
    requires columns != [] && NeedsNoQuotes(columns) && columns' != [] && NeedsNoQuotes(columns')
    requires ToCsv(rows, columns) == ToCsv(rows', columns')
    ensures columns == columns' && |rows| == |rows'|
    ensures forall k, c | 0 <= k < |rows| && c in columns && c in rows[k] && rows[k][c].Text? && rows[k][c].text != "" ::
              c in rows'[k] && rows'[k][c] == rows[k][c]
  {
    ReadsBackRows(rows, columns);
    ReadsBackRows(rows', columns');
    var records := Read(ToCsv(rows, columns)).value;
    forall k, c | 0 <= k < |rows| && c in columns && c in rows[k] && rows[k][c].Text? && rows[k][c].text != ""
      ensures c in rows'[k] && rows'[k][c] == rows[k][c]
    {
      var at :| 0 <= at < |columns| && columns[at] == c;
      assert SaysCell(records, rows, columns, k, at) && SaysCell(records, rows', columns', k, at);
    }
  }

  // One column whose name has a comma in it prints, and reads back, as two columns.
  lemma HeaderIsNotEscaped()
    ensures ToCsv([], ["a,b"]) == ToCsv([], ["a", "b"])
    ensures Read(ToCsv([], ["a,b"])) == Some([["a", "b"]])
  {
    assert IsPlain("a") && IsPlain("b");
    assert ["a", "b"][1..] == ["b"];
    assert Join(["a", "b"], ",") == "a" + "," + Join(["b"], ",") == "a,b";
    assert Lines([]) == [] && Grid([], ["a,b"]) == [] && Grid([], ["a", "b"]) == [];
    assert [Join(["a", "b"], ",")] + [] == ["a,b"] && [Join(["a,b"], ",")] + [] == ["a,b"];
    assert PlainHeader(["a", "b"]);
    ReadBackExactlyWhen([], ["a", "b"]);
    assert [["a", "b"]] + [] == [["a", "b"]];
  }
}
