/** CSV output of the command line, and a reader for section 2 of RFC 4180 (with LF as the record separator)
    that it has to satisfy. */
module Csv {
  import opened Collections

  /** A value of a result row; objects arrive here already as their one-line JSON. */
  datatype Value = Missing | Json(json: string) | Scalar(text: string)

  type Row = map<string, Value>

  function CellStr(v: Value): string
  {
    match v
    case Missing => ""
    case Json(json) => json
    case Scalar(text) => text
  }

  function CellOf(row: Row, column: string): string
  {
    if column in row then CellStr(row[column]) else ""
  }

  function Cells(row: Row, columns: seq<string>): seq<string>
  {
    if columns == [] then [] else [CellOf(row, columns[0])] + Cells(row, columns[1..])
  }

  /** The texts to print: the header, then one record per row. */
  function Records(rows: seq<Row>, columns: seq<string>): seq<seq<string>>
  {
    if rows == [] then [columns] else Records(rows[..|rows| - 1], columns) + [Cells(rows[|rows| - 1], columns)]
  }

  predicate NeedsQuotes(s: string)
  {
    ',' in s || '"' in s || '\n' in s || '\r' in s
  }

  function DoubleQuotes(s: string): string
  {
    if s == "" then "" else (if s[0] == '"' then "\"\"" else [s[0]]) + DoubleQuotes(s[1..])
  }

  function Escape(s: string): string
  {
    if NeedsQuotes(s) then "\"" + DoubleQuotes(s) + "\"" else s
  }

  function Line(cells: seq<string>): string
  {
    if cells == [] then ""
    else if |cells| == 1 then Escape(cells[0])
    else Escape(cells[0]) + "," + Line(cells[1..])
  }

  function Lines(records: seq<seq<string>>): string
  {
    if records == [] then ""
    else if |records| == 1 then Line(records[0])
    else Line(records[0]) + "\n" + Lines(records[1..])
  }

  function RenderCsv(rows: seq<Row>, columns: seq<string>): string
  {
    Lines(Records(rows, columns))
  }

  // The reader.

  datatype Field = Field(text: string, rest: string) | BadField

  /** Reads a field: quoted if it starts with a quote, otherwise up to the next separator. */
  function ReadField(s: string): (f: Field)
    ensures f.Field? ==> |f.rest| <= |s| && (f.rest == "" || f.rest[0] in [',', '\n'])
  {
    if s != "" && s[0] == '"' then
      var f := ReadQuoted(s[1..]);
      if f.Field? && (f.rest == "" || f.rest[0] in [',', '\n']) then f else BadField
    else ReadPlain(s)
  }

  /** Reads up to the closing quote; a doubled quote stands for one. */
  function ReadQuoted(s: string): (f: Field)
    ensures f.Field? ==> |f.rest| <= |s|
  {
    if s == "" then BadField
    else if s[0] != '"' then Prepend(s[0], ReadQuoted(s[1..]))
    else if |s| > 1 && s[1] == '"' then Prepend('"', ReadQuoted(s[2..]))
    else Field("", s[1..])
  }

  function ReadPlain(s: string): (f: Field)
    ensures f.Field? ==> |f.rest| <= |s| && (f.rest == "" || f.rest[0] in [',', '\n'])
  {
    if s == "" || s[0] in [',', '\n'] then Field("", s)
    else if s[0] in ['"', '\r'] then BadField
    else Prepend(s[0], ReadPlain(s[1..]))
  }

  function Prepend(c: char, f: Field): Field
  {
    if f.Field? then f.(text := [c] + f.text) else f
  }

  /** Reads all records; a comma starts the next field, a line feed the next record. */
  function Read(s: string): (r: Option<seq<seq<string>>>)
    ensures r.Some? ==> r.value != [] && r.value[0] != []
    decreases |s|
  {
    var f := ReadField(s);
    if f.BadField? then None
    else if f.rest == "" then Some([[f.text]])
    else
      var rest := Read(f.rest[1..]);
      if rest.None? then None
      else if f.rest[0] == ',' then Some([[f.text] + rest.value[0]] + rest.value[1..])
      else Some([[f.text]] + rest.value)
  }

  // The round trip.

  ghost predicate Ends(rest: string)
  {
    rest == "" || rest[0] in [',', '\n']
  }

  lemma {:induction false} ReadsQuoted(s: string, rest: string)
    requires rest == "" || rest[0] != '"'
    ensures ReadQuoted(DoubleQuotes(s) + "\"" + rest) == Field(s, rest)
  {
    var all := DoubleQuotes(s) + "\"" + rest;
    if s == "" {
      assert all == "\"" + rest && all[1..] == rest;
    } else {
      ReadsQuoted(s[1..], rest);
      var tail := DoubleQuotes(s[1..]) + "\"" + rest;
      if s[0] == '"' {
        assert all == "\"\"" + tail && all[2..] == tail;
      } else {
        assert all == [s[0]] + tail && all[1..] == tail;
      }
      assert [s[0]] + s[1..] == s;
    }
  }

  lemma {:induction false} ReadsPlain(s: string, rest: string)
    requires !NeedsQuotes(s) && Ends(rest)
    ensures ReadPlain(s + rest) == Field(s, rest)
  {
    if s == "" {
      assert s + rest == rest;
    } else {
      assert s == [s[0]] + s[1..];
      ReadsPlain(s[1..], rest);
      assert (s + rest)[1..] == s[1..] + rest;
    }
  }

  /** Whatever a cell holds, the reader gets it back from its escaped form. */
  lemma ReadsEscaped(s: string, rest: string)
    requires Ends(rest)
    ensures ReadField(Escape(s) + rest) == Field(s, rest)
  {
    hide DoubleQuotes, ReadQuoted, NeedsQuotes, ReadPlain, Escape;
    if NeedsQuotes(s) {
      QuotedStart(s, rest);
      ReadsQuoted(s, rest);
    } else {
      PlainStart(s, rest);
      ReadsPlain(s, rest);
    }
  }

  lemma QuotedStart(s: string, rest: string)
    requires NeedsQuotes(s)
    ensures var all := Escape(s) + rest;
      all != "" && all[0] == '"' && all[1..] == DoubleQuotes(s) + "\"" + rest
  {
    hide DoubleQuotes, NeedsQuotes;
    var body := DoubleQuotes(s) + "\"" + rest;
    assert Escape(s) + rest == "\"" + body;
  }

  lemma PlainStart(s: string, rest: string)
    requires !NeedsQuotes(s) && Ends(rest)
    ensures Escape(s) == s
    ensures s + rest == "" || (s + rest)[0] != '"'
  {
  }

  predicate IsSpecial(c: char) { c in [',', '"', '\n', '\r'] }

  /** Exactly the cells without a special character are printed as they are; all others are put in quotes. */
  lemma EscapeIff(s: string)
    ensures Escape(s) == s <==> forall i :: 0 <= i < |s| ==> !IsSpecial(s[i])
    ensures Escape(s) != s ==> Escape(s) != "" && Escape(s)[0] == '"' && Escape(s)[|Escape(s)| - 1] == '"'
  {
    if NeedsQuotes(s) {
      NotShorter(s);
      hide DoubleQuotes;
      assert |Escape(s)| > |s|;
      var i :| 0 <= i < |s| && IsSpecial(s[i]);
    }
  }

  lemma {:induction false} NotShorter(s: string)
    ensures |DoubleQuotes(s)| >= |s|
  {
    if s != "" {
      NotShorter(s[1..]);
    }
  }

  /** A column that a row does not have, or a value that is missing, prints nothing; any other value its text. */
  lemma CellTexts(row: Row, column: string)
    ensures column !in row || row[column].Missing? ==> CellOf(row, column) == ""
    ensures forall text :: column in row && row[column] in [Json(text), Scalar(text)] ==> CellOf(row, column) == text
  {
  }

  /** The records after the line feed that starts `rest`. */
  ghost function After(rest: string): seq<seq<string>>
    requires rest != "" ==> Read(rest[1..]).Some?
  {
    if rest == "" then [] else Read(rest[1..]).value
  }

  lemma ReadStep(s: string)
    requires var f := ReadField(s); f.Field? && (f.rest != "" ==> Read(f.rest[1..]).Some?)
    ensures var f := ReadField(s);
      Read(s) == if f.rest != "" && f.rest[0] == ','
                 then Some([[f.text] + After(f.rest)[0]] + After(f.rest)[1..])
                 else Some([[f.text]] + After(f.rest))
  {
    assert [[ReadField(s).text]] + [] == [[ReadField(s).text]];
  }

  lemma {:induction false} ReadsLine(cells: seq<string>, rest: string)
    requires cells != [] && (rest != "" ==> rest[0] == '\n' && Read(rest[1..]).Some?)
    ensures Read(Line(cells) + rest) == Some([cells] + After(rest))
  {
    hide Escape, ReadField, Read;
    var c := cells[0];
    if |cells| == 1 {
      ReadsEscaped(c, rest);
      ReadStep(Escape(c) + rest);
      assert [c] == cells;
    } else {
      ReadsLine(cells[1..], rest);
      var tail := Line(cells[1..]) + rest;
      var after := "," + tail;
      assert after[1..] == tail && after[0] == ',';
      ReadsEscaped(c, after);
      ReadStep(Escape(c) + after);
      assert Line(cells) + rest == Escape(c) + after;
      assert After(after) == [cells[1..]] + After(rest);
      assert [c] + cells[1..] == cells;
    }
  }

  lemma {:induction false} ReadsLines(records: seq<seq<string>>)
    requires records != [] && forall i :: 0 <= i < |records| ==> records[i] != []
    ensures Read(Lines(records)) == Some(records)
  {
    hide Line, Read;
    var first := records[0];
    if |records| == 1 {
      ReadsLine(first, "");
      assert Line(first) + "" == Line(first);
      assert [first] + [] == records;
    } else {
      ReadsLines(records[1..]);
      var after := "\n" + Lines(records[1..]);
      assert after[1..] == Lines(records[1..]) && after[0] == '\n';
      ReadsLine(first, after);
      assert Lines(records) == Line(first) + after;
      assert [first] + records[1..] == records;
    }
  }

  lemma {:induction false} RecordShapes(rows: seq<Row>, columns: seq<string>)
    ensures var r := Records(rows, columns);
      && |r| == |rows| + 1 && r[0] == columns
      && (forall i :: 0 < i < |r| ==> r[i] == Cells(rows[i - 1], columns))
  {
    if rows != [] {
      RecordShapes(rows[..|rows| - 1], columns);
      hide Cells;
    }
  }

  lemma {:induction false} CellsAt(row: Row, columns: seq<string>)
    ensures |Cells(row, columns)| == |columns|
    ensures forall j :: 0 <= j < |columns| ==> Cells(row, columns)[j] == CellOf(row, columns[j])
  {
    if columns != [] {
      CellsAt(row, columns[1..]);
    }
  }

  /** Reading a rendered table gives back exactly the header and the cell texts, whatever they contain. */
  lemma RoundTrip(rows: seq<Row>, columns: seq<string>)
    requires columns != []
    ensures var read := Read(RenderCsv(rows, columns));
      && read.Some? && |read.value| == |rows| + 1 && read.value[0] == columns
      && forall i :: 0 <= i < |rows| ==>
           |read.value[i + 1]| == |columns|
           && forall j :: 0 <= j < |columns| ==> read.value[i + 1][j] == CellOf(rows[i], columns[j])
  {
    var records := Records(rows, columns);
    RecordShapes(rows, columns);
    forall i | 0 < i < |records|
      ensures |records[i]| == |columns|
      ensures forall j :: 0 <= j < |columns| ==> records[i][j] == CellOf(rows[i - 1], columns[j])
    {
      CellsAt(rows[i - 1], columns);
    }
    hide Cells, Records, Read, Lines;
    ReadsLines(records);
  }

  /** The column list has to be non-empty: without columns even the header line reads as one empty cell. */
  lemma RoundTripIff(rows: seq<Row>, columns: seq<string>)
    ensures Read(RenderCsv(rows, columns)) == Some(Records(rows, columns)) <==> columns != []
  {
    RecordShapes(rows, columns);
    if columns != [] {
      var records := Records(rows, columns);
      forall i | 0 < i < |records|
        ensures records[i] != []
      {
        CellsAt(rows[i - 1], columns);
      }
      ReadsLines(records);
    }
  }
}
