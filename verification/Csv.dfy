/** CSV output, and the reader that takes it back (section 2 of RFC 4180). */
module Csv {
  type Record = seq<string>

  const QUOTE: char := '\"'

  /** `replace('"', "\"\"")`. */
  function Escape(s: string): string {
    if |s| == 0 then "" else (if s[0] == QUOTE then [QUOTE, QUOTE] else [s[0]]) + Escape(s[1..])
  }

  predicate NeedsQuotes(s: string) {
    ',' in s || QUOTE in s || '\n' in s || '\r' in s
  }

  /** `csv_cell`. */
  function Cell(s: string): string {
    if NeedsQuotes(s) then [QUOTE] + Escape(s) + [QUOTE] else s
  }

  lemma {:induction false} EscapedPlain(s: string)
    requires QUOTE !in s
    ensures Escape(s) == s
  {
    if |s| > 0 {
      EscapedPlain(s[1..]);
      assert s == [s[0]] + s[1..];
    }
  }

  /** A field stands as it is unless a reader would split it; then it stands in quotes,
      and is only longer by them if it has none itself. */
  lemma {:induction false} FieldStands(s: string)
    ensures (forall c | c in s :: c != ',' && c != '\"' && c != '\n' && c != '\r') ==> Cell(s) == s
    ensures (exists c :: c in s && (c == ',' || c == '\n' || c == '\r')) && '\"' !in s ==> Cell(s) == "\"" + s + "\""
  {
    if QUOTE !in s {
      EscapedPlain(s);
    }
  }

  function Joined(fields: Record): string {
    if |fields| == 0 then ""
    else if |fields| == 1 then Cell(fields[0])
    else Cell(fields[0]) + "," + Joined(fields[1..])
  }

  /** `csv_row`. */
  function Line(fields: Record): string { Joined(fields) + "\n" }

  function Lines(rows: seq<Record>): string {
    if |rows| == 0 then "" else Line(rows[0]) + Lines(rows[1..])
  }

  function Header(columns: Record): seq<Record> {
    if columns == [] then [] else [columns]
  }

  lemma {:induction false} LinesAppend(rows: seq<Record>, row: Record)
    ensures Lines(rows + [row]) == Lines(rows) + Line(row)
  {
    hide Line;
    if |rows| > 0 {
      LinesAppend(rows[1..], row);
      assert (rows + [row])[1..] == rows[1..] + [row];
    } else {
      assert (rows + [row])[1..] == [];
    }
  }

  /** `to_csv`. */
  method ToCsv(columns: Record, rows: seq<Record>) returns (out: string)
    ensures out == Lines(Header(columns) + rows)
  {
    hide Line;
    out := "";
    if columns != [] {
      LinesAppend([], columns);
      out := out + Line(columns);
    }
    for i := 0 to |rows|
      invariant out == Lines(Header(columns) + rows[..i])
    {
      LinesAppend(Header(columns) + rows[..i], rows[i]);
      assert Header(columns) + rows[..i] + [rows[i]] == Header(columns) + rows[..i + 1];
      out := out + Line(rows[i]);
    }
    assert rows[..|rows|] == rows;
  }

  /** The records the reader still delivers, from a record and a field begun. */
  function Parsed(t: string, record: Record, field: string, inQuotes: bool): seq<Record>
    decreases |t|
  {
    if |t| == 0 then (if field == "" && record == [] then [] else [record + [field]])
    else if inQuotes then
      if t[0] == QUOTE then
        if |t| > 1 && t[1] == QUOTE then Parsed(t[2..], record, field + [QUOTE], true)
        else Parsed(t[1..], record, field, false)
      else Parsed(t[1..], record, field + [t[0]], true)
    else if t[0] == QUOTE then Parsed(t[1..], record, field, true)
    else if t[0] == ',' then Parsed(t[1..], record + [field], "", false)
    else if t[0] == '\r' then Parsed(t[1..], record, field, false)
    else if t[0] == '\n' then [record + [field]] + Parsed(t[1..], [], "", false)
    else Parsed(t[1..], record, field + [t[0]], false)
  }

  /** `parse_csv`. */
  method ParseCsv(text: string) returns (records: seq<Record>)
    ensures records == Parsed(text, [], "", false)
  {
    records := [];
    var record: Record, field: string, inQuotes := [], "", false;
    var i := 0;
    while i < |text|
      invariant i <= |text|
      invariant records + Parsed(text[i..], record, field, inQuotes) == Parsed(text, [], "", false)
      decreases |text| - i
    {
      var c := text[i];
      ghost var rest := text[i..];
      assert rest[1..] == text[i + 1..] && (i + 1 < |text| ==> rest[2..] == text[i + 2..]);
      i := i + 1;
      if inQuotes {
        if c == QUOTE {
          if i < |text| && text[i] == QUOTE {
            field := field + [QUOTE];
            i := i + 1;
          } else {
            inQuotes := false;
          }
        } else {
          field := field + [c];
        }
      } else if c == QUOTE {
        inQuotes := true;
      } else if c == ',' {
        record, field := record + [field], "";
      } else if c == '\r' {
      } else if c == '\n' {
        records := records + [record + [field]];
        record, field := [], "";
      } else {
        field := field + [c];
      }
    }
    if field != "" || record != [] {
      records := records + [record + [field]];
    }
  }

  // The round trip

  /** A quoted cell's inside and closing quote, with anything but a quote behind it. */
  lemma {:induction false} QuotedParses(s: string, rest: string, record: Record, field: string)
    requires |rest| > 0 && rest[0] != QUOTE
    ensures Parsed(Escape(s) + [QUOTE] + rest, record, field, true) == Parsed(rest, record, field + s, false)
    decreases |s|
  {
    var t := Escape(s) + [QUOTE] + rest;
    if |s| == 0 {
      assert t[1..] == rest && field + s == field;
    } else {
      QuotedParses(s[1..], rest, record, field + [s[0]]);
      var more := Escape(s[1..]) + [QUOTE] + rest;
      assert field + [s[0]] + s[1..] == field + s;
      if s[0] == QUOTE {
        assert t == [QUOTE, QUOTE] + more && t[2..] == more;
      } else {
        assert t == [s[0]] + more && t[1..] == more;
      }
    }
  }

  lemma {:induction false} PlainParses(s: string, rest: string, record: Record, field: string)
    requires !NeedsQuotes(s)
    ensures Parsed(s + rest, record, field, false) == Parsed(rest, record, field + s, false)
    decreases |s|
  {
    if |s| == 0 {
      assert s + rest == rest && field + s == field;
    } else {
      assert s == [s[0]] + s[1..] && s[0] in s;
      PlainParses(s[1..], rest, record, field + [s[0]]);
      assert (s + rest)[1..] == s[1..] + rest && field + [s[0]] + s[1..] == field + s;
    }
  }

  lemma {:induction false} CellParses(s: string, rest: string, record: Record)
    requires |rest| > 0 && rest[0] != QUOTE
    ensures Parsed(Cell(s) + rest, record, "", false) == Parsed(rest, record, s, false)
  {
    if NeedsQuotes(s) {
      var t := Cell(s) + rest;
      assert t[1..] == Escape(s) + [QUOTE] + rest;
      QuotedParses(s, rest, record, "");
    } else {
      PlainParses(s, rest, record, "");
    }
    assert "" + s == s;
  }

  lemma {:induction false} LineParses(fields: Record, rest: string, record: Record)
    requires |fields| > 0
    ensures Parsed(Line(fields) + rest, record, "", false) == [record + fields] + Parsed(rest, [], "", false)
    decreases |fields|
  {
    hide Cell, NeedsQuotes;
    if |fields| == 1 {
      var tail := "\n" + rest;
      assert Line(fields) + rest == Cell(fields[0]) + tail && tail[1..] == rest;
      CellParses(fields[0], tail, record);
      assert record + [fields[0]] == record + fields;
    } else {
      var line := Line(fields[1..]) + rest;
      var tail := "," + line;
      assert Line(fields) + rest == Cell(fields[0]) + tail && tail[1..] == line;
      CellParses(fields[0], tail, record);
      LineParses(fields[1..], rest, record + [fields[0]]);
      assert record + [fields[0]] + fields[1..] == record + fields;
    }
  }

  lemma {:induction false} LinesParse(rows: seq<Record>)
    requires forall r | r in rows :: |r| > 0
    ensures Parsed(Lines(rows), [], "", false) == rows
  {
    hide Line;
    if |rows| > 0 {
      assert rows[0] in rows;
      LineParses(rows[0], Lines(rows[1..]), []);
      LinesParse(rows[1..]);
      assert [] + rows[0] == rows[0] && [rows[0]] + rows[1..] == rows;
    }
  }

  lemma {:induction false} RecordsHaveFields(t: string, record: Record, field: string, inQuotes: bool)
    ensures forall r | r in Parsed(t, record, field, inQuotes) :: |r| > 0
    decreases |t|
  {
    if |t| > 0 {
      if inQuotes {
        if t[0] == QUOTE {
          if |t| > 1 && t[1] == QUOTE {
            RecordsHaveFields(t[2..], record, field + [QUOTE], true);
          } else {
            RecordsHaveFields(t[1..], record, field, false);
          }
        } else {
          RecordsHaveFields(t[1..], record, field + [t[0]], true);
        }
      } else {
        RecordsHaveFields(t[1..], record, field, true);
        RecordsHaveFields(t[1..], record + [field], "", false);
        RecordsHaveFields(t[1..], record, field, false);
        RecordsHaveFields(t[1..], [], "", false);
        RecordsHaveFields(t[1..], record, field + [t[0]], false);
      }
    }
  }

  /** Reading what was written gives back the header, if there is one, and the rows,
      whatever quotes, commas and line ends the cells hold, exactly if every row has a
      field: a row without any comes back with an empty one. */
  lemma {:induction false} CsvRoundTrip(columns: Record, rows: seq<Record>)
    ensures Parsed(Lines(Header(columns) + rows), [], "", false) == Header(columns) + rows <==>
      forall r | r in rows :: |r| > 0
  {
    var all := Header(columns) + rows;
    if forall r | r in rows :: |r| > 0 {
      LinesParse(all);
    } else {
      var r :| r in rows && |r| == 0;
      assert r in all;
      RecordsHaveFields(Lines(all), [], "", false);
    }
  }

  /** The records of a text with CRLF line ends. */
  function CrlfLines(rows: seq<Record>): string {
    if |rows| == 0 then "" else Joined(rows[0]) + "\r\n" + CrlfLines(rows[1..])
  }

  lemma {:induction false} CrlfLineParses(fields: Record, rest: string, record: Record)
    requires |fields| > 0
    ensures Parsed(Joined(fields) + "\r\n" + rest, record, "", false) == [record + fields] + Parsed(rest, [], "", false)
    decreases |fields|
  {
    hide Cell, NeedsQuotes;
    if |fields| == 1 {
      var tail := "\r\n" + rest;
      assert Joined(fields) + "\r\n" + rest == Cell(fields[0]) + tail && tail[1..] == "\n" + rest && ("\n" + rest)[1..] == rest;
      CellParses(fields[0], tail, record);
      assert record + [fields[0]] == record + fields;
    } else {
      var line := Joined(fields[1..]) + "\r\n" + rest;
      var tail := "," + line;
      assert Joined(fields) + "\r\n" + rest == Cell(fields[0]) + tail && tail[1..] == line;
      CellParses(fields[0], tail, record);
      CrlfLineParses(fields[1..], rest, record + [fields[0]]);
      assert record + [fields[0]] + fields[1..] == record + fields;
    }
  }

  /** Text with CRLF line ends reads as that with LF. */
  lemma {:induction false} CrlfReadsAsLf(rows: seq<Record>)
    requires forall r | r in rows :: |r| > 0
    ensures Parsed(CrlfLines(rows), [], "", false) == rows == Parsed(Lines(rows), [], "", false)
  {
    hide Joined;
    LinesParse(rows);
    if |rows| > 0 {
      assert rows[0] in rows;
      CrlfLineParses(rows[0], CrlfLines(rows[1..]), []);
      CrlfReadsAsLf(rows[1..]);
      assert [] + rows[0] == rows[0] && [rows[0]] + rows[1..] == rows;
    }
  }

  /** A row without fields comes back with one. */
  lemma RowWithoutFields()
    ensures Parsed(Lines([[]]), [], "", false) == [[""]]
  {
    assert Line([]) == "\n";
    assert Lines([[]]) == "\n" by {
      var rows: seq<Record> := [[]];
      assert rows[1..] == [] && Lines(rows[1..]) == "";
    }
    assert "\n"[1..] == "" && Parsed("", [], "", false) == [];
    var none: Record := [];
    assert none + [""] == [""];
    assert Parsed("\n", [], "", false) == [none + [""]] + [];
  }
}
