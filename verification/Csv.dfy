/** CSV export of query results, and a reader for the format of section 2 of RFC 4180 with LF record breaks. */
module Csv {
  import opened Wrappers

  /** A cell value: absent or null, an object with its JSON text, or anything else with its string form. */
  datatype Value = Empty | Object(json: string) | Plain(text: string)

  /** A result row; `keys` lists its columns in the order of the object's own keys. */
  datatype Row = Row(keys: seq<string>, cells: map<string, Value>)

  function FormatValue(v: Value): string {
    match v
    case Empty => ""
    case Object(json) => json
    case Plain(text) => text
  }

  function CellOf(row: Row, column: string): Value {
    if column in row.cells then row.cells[column] else Empty
  }

  /** Every quotation mark doubled. */
  function Doubled(s: string): string {
    if s == "" then "" else (if s[0] == '"' then "\"\"" else [s[0]]) + Doubled(s[1..])
  }

  predicate NeedsQuotes(s: string) { exists i :: 0 <= i < |s| && s[i] in {'"', ',', '\n'} }

  function Escape(s: string): string {
    if NeedsQuotes(s) then "\"" + Doubled(s) + "\"" else s
  }

  /** The parts from position k on, with a separator between any two. */
  function JoinFrom(parts: seq<string>, k: nat, separator: string): string
    requires k < |parts|
    decreases |parts| - k
  {
    parts[k] + if k + 1 < |parts| then separator + JoinFrom(parts, k + 1, separator) else ""
  }

  function Join(parts: seq<string>, separator: string): string {
    if parts == [] then "" else JoinFrom(parts, 0, separator)
  }

  function Escaped(fields: seq<string>): (r: seq<string>)
    ensures |r| == |fields|
  {
    seq(|fields|, i requires 0 <= i < |fields| => Escape(fields[i]))
  }

  function Line(fields: seq<string>): string { Join(Escaped(fields), ",") }

  function Lines(table: seq<seq<string>>): (r: seq<string>)
    ensures |r| == |table|
  {
    seq(|table|, i requires 0 <= i < |table| => Line(table[i]))
  }

  function CellsOf(columns: seq<string>, row: Row): (r: seq<string>)
    ensures |r| == |columns|
  {
    seq(|columns|, i requires 0 <= i < |columns| => FormatValue(CellOf(row, columns[i])))
  }

  /** What the export is meant to show: the columns of the first row, then the cells of every row. */
  function Table(rows: seq<Row>): seq<seq<string>> {
    if rows == [] then []
    else [rows[0].keys] + seq(|rows|, i requires 0 <= i < |rows| => CellsOf(rows[0].keys, rows[i]))
  }

  method RowsToCsv(rows: seq<Row>) returns (text: string)
    ensures text == Join(Lines(Table(rows)), "\n")
  {
    if |rows| == 0 {
      return "";
    }
    var columns := rows[0].keys;
    var lines := [Join(Escaped(columns), ",")];
    ghost var all := Lines(Table(rows));
    assert |all| == |rows| + 1;
    for i := 0 to |rows|
      invariant lines == all[..i + 1]
    {
      lines := lines + [Join(Escaped(CellsOf(columns, rows[i])), ",")];
      assert lines[i + 1] == all[i + 1];
    }
    assert all[..|rows| + 1] == all;
    text := Join(lines, "\n");
  }

  // ---------------------------------------------------------------- the reader

  /** Inside quotes, from i on: the text up to the closing quote, and the position after it. */
  function ReadQuoted(s: string, i: nat): (r: Option<(string, nat)>)
    requires i <= |s|
    ensures r.Some? ==> i < r.value.1 <= |s|
    decreases |s| - i
  {
    if i == |s| then None
    else if s[i] != '"' then
      var rest := ReadQuoted(s, i + 1);
      if rest.None? then None else Some(([s[i]] + rest.value.0, rest.value.1))
    else if i + 1 < |s| && s[i + 1] == '"' then
      var rest := ReadQuoted(s, i + 2);
      if rest.None? then None else Some((['"'] + rest.value.0, rest.value.1))
    else Some(("", i + 1))
  }

  /** Without quotes: the text up to a comma, a line break or the end. */
  function ReadBare(s: string, i: nat): (r: Option<(string, nat)>)
    requires i <= |s|
    ensures r.Some? ==> i <= r.value.1 <= |s|
    decreases |s| - i
  {
    if i == |s| || s[i] == ',' || s[i] == '\n' then Some(("", i))
    else if s[i] == '"' then None
    else
      var rest := ReadBare(s, i + 1);
      if rest.None? then None else Some(([s[i]] + rest.value.0, rest.value.1))
  }

  function ReadField(s: string, i: nat): (r: Option<(string, nat)>)
    requires i <= |s|
    ensures r.Some? ==> i <= r.value.1 <= |s|
  {
    if i < |s| && s[i] == '"' then ReadQuoted(s, i + 1) else ReadBare(s, i)
  }

  /** The records from i on, the first of which continues `record`. */
  function ReadRecords(s: string, i: nat, record: seq<string>): Option<seq<seq<string>>>
    requires i <= |s|
    decreases |s| - i
  {
    var field := ReadField(s, i);
    if field.None? then None
    else
      var (text, j) := field.value;
      if j == |s| then Some([record + [text]])
      else if s[j] == ',' then ReadRecords(s, j + 1, record + [text])
      else if s[j] != '\n' then None
      else
        var rest := ReadRecords(s, j + 1, []);
        if rest.None? then None else Some([record + [text]] + rest.value)
  }

  function Read(s: string): Option<seq<seq<string>>> { ReadRecords(s, 0, []) }

  // ---------------------------------------------------------------- fields

  /** The text t stands in s from position i on. */
  predicate At(s: string, i: nat, t: string) {
    i + |t| <= |s| && forall k :: 0 <= k < |t| ==> s[i + k] == t[k]
  }

  lemma AtSplit(s: string, i: nat, a: string, b: string)
    requires At(s, i, a + b)
    ensures At(s, i, a) && At(s, i + |a|, b)
  {
    assert forall k :: 0 <= k < |a| ==> (a + b)[k] == a[k];
    assert forall k :: 0 <= k < |b| ==> (a + b)[|a| + k] == b[k] && s[i + (|a| + k)] == (a + b)[|a| + k];
  }

  predicate FieldEnds(s: string, i: nat) { i == |s| || (i < |s| && s[i] in {',', '\n'}) }

  lemma Regrouped(a: string, b: string, c: string)
    ensures a + b + c == a + (b + c)
  {}

  lemma AtStarts(s: string, i: nat, t: string)
    requires At(s, i, t)
    ensures i + |t| <= |s| && (t != "" ==> s[i] == t[0])
  {}

  lemma QuotedEnd(s: string, i: nat)
    requires At(s, i, "\"") && FieldEnds(s, i + 1)
    ensures ReadQuoted(s, i) == Some(("", i + 1))
  {
    assert s[i] == "\""[0];
  }

  lemma QuotedNext(s: string, i: nat, c: char, head: string)
    requires head == (if c == '"' then "\"\"" else [c]) && At(s, i, head)
    ensures ReadQuoted(s, i) ==
            match ReadQuoted(s, i + |head|) case None => None case Some((t, j)) => Some(([c] + t, j))
  {
    assert s[i] == head[0] && (c == '"' ==> s[i + 1] == head[1]);
  }

  lemma {:induction false} ReadsQuoted(s: string, i: nat, f: string)
    requires At(s, i, Doubled(f) + "\"") && FieldEnds(s, i + |Doubled(f)| + 1)
    ensures ReadQuoted(s, i) == Some((f, i + |Doubled(f)| + 1))
    decreases |f|
  {
    hide ReadQuoted, At;
    if f == "" {
      AtSplit(s, i, "", "\"");
      QuotedEnd(s, i);
    } else {
      var head := if f[0] == '"' then "\"\"" else [f[0]];
      Regrouped(head, Doubled(f[1..]), "\"");
      AtSplit(s, i, head, Doubled(f[1..]) + "\"");
      ReadsQuoted(s, i + |head|, f[1..]);
      QuotedNext(s, i, f[0], head);
      assert [f[0]] + f[1..] == f;
    }
  }

  lemma {:induction false} ReadsBare(s: string, i: nat, f: string)
    requires At(s, i, f) && FieldEnds(s, i + |f|) && !NeedsQuotes(f)
    ensures ReadBare(s, i) == Some((f, i + |f|))
    decreases |f|
  {
    if f != "" {
      assert s[i] == f[0] && f[0] !in {'"', ',', '\n'};
      assert f == [f[0]] + f[1..];
      AtSplit(s, i, [f[0]], f[1..]);
      forall k | 0 <= k < |f[1..]| ensures f[1..][k] !in {'"', ',', '\n'} {
        assert f[1..][k] == f[k + 1];
      }
      ReadsBare(s, i + 1, f[1..]);
    }
  }

  /** A written field, followed by a comma, a line break or the end, is read back. */
  lemma ReadsField(s: string, i: nat, f: string)
    requires At(s, i, Escape(f)) && FieldEnds(s, i + |Escape(f)|)
    ensures ReadField(s, i) == Some((f, i + |Escape(f)|))
  {
    hide ReadQuoted, ReadBare, At, Doubled, NeedsQuotes;
    AtStarts(s, i, Escape(f));
    if NeedsQuotes(f) {
      Regrouped("\"", Doubled(f), "\"");
      AtSplit(s, i, "\"", Doubled(f) + "\"");
      ReadsQuoted(s, i + 1, f);
    } else {
      ReadsBare(s, i, f);
      NotQuote(f);
    }
  }

  lemma NotQuote(f: string)
    requires !NeedsQuotes(f)
    ensures f != "" ==> f[0] != '"'
  {}

  // ---------------------------------------------------------------- records

  /** How reading goes on after a field. */
  lemma AfterField(s: string, i: nat, record: seq<string>, text: string, j: nat)
    requires i <= |s| && ReadField(s, i) == Some((text, j))
    ensures j <= |s|
    ensures j == |s| ==> ReadRecords(s, i, record) == Some([record + [text]])
    ensures j < |s| && s[j] == ',' ==> ReadRecords(s, i, record) == ReadRecords(s, j + 1, record + [text])
    ensures j < |s| && s[j] == '\n' ==>
              ReadRecords(s, i, record)
              == match ReadRecords(s, j + 1, []) case None => None case Some(rest) => Some([record + [text]] + rest)
  {}

  /** Where the parts of a joined text stand. */
  lemma JoinSplits(s: string, i: nat, parts: seq<string>, k: nat, separator: string)
    requires k < |parts| && At(s, i, JoinFrom(parts, k, separator)) && |separator| == 1
    ensures i + |JoinFrom(parts, k, separator)| <= |s| && At(s, i, parts[k])
    ensures if k + 1 == |parts| then JoinFrom(parts, k, separator) == parts[k]
            else
              var next := i + |parts[k]| + 1;
              && i + |JoinFrom(parts, k, separator)| == next + |JoinFrom(parts, k + 1, separator)| <= |s|
              && s[next - 1] == separator[0] && At(s, next, JoinFrom(parts, k + 1, separator))
  {
    AtStarts(s, i, JoinFrom(parts, k, separator));
    hide At;
    if k + 1 < |parts| {
      var rest := JoinFrom(parts, k + 1, separator);
      AtSplit(s, i, parts[k], separator + rest);
      AtSplit(s, i + |parts[k]|, separator, rest);
      AtStarts(s, i + |parts[k]|, separator);
    } else {
      assert parts[k] + "" == parts[k];
    }
  }

  /** The rest of a record, from field k on, is read back; what follows its line break is read after it. */
  lemma {:induction false} ReadsFields(s: string, i: nat, fields: seq<string>, k: nat)
    requires k < |fields| && At(s, i, JoinFrom(Escaped(fields), k, ","))
    requires var e := i + |JoinFrom(Escaped(fields), k, ",")|; e == |s| || s[e] == '\n'
    ensures var e := i + |JoinFrom(Escaped(fields), k, ",")|;
            ReadRecords(s, i, fields[..k])
            == if e == |s| then Some([fields])
               else match ReadRecords(s, e + 1, []) case None => None case Some(rest) => Some([fields] + rest)
    decreases |fields| - k
  {
    var text := Escape(fields[k]);
    assert Escaped(fields)[k] == text;
    JoinSplits(s, i, Escaped(fields), k, ",");
    hide Escape, Escaped, ReadField, ReadRecords, At, JoinFrom;
    TakeOneMore(fields, k);
    ReadsField(s, i, fields[k]);
    AfterField(s, i, fields[..k], fields[k], i + |text|);
    if k + 1 < |fields| {
      ReadsFields(s, i + |text| + 1, fields, k + 1);
    }
  }

  lemma TakeOneMore(fields: seq<string>, k: nat)
    requires k < |fields|
    ensures fields[..k] + [fields[k]] == fields[..k + 1] && (k + 1 == |fields| ==> fields[..k + 1] == fields)
  {}

  lemma {:induction false} ReadsTable(s: string, i: nat, table: seq<seq<string>>, k: nat)
    requires k < |table| && forall r :: 0 <= r < |table| ==> table[r] != []
    requires At(s, i, JoinFrom(Lines(table), k, "\n")) && i + |JoinFrom(Lines(table), k, "\n")| == |s|
    ensures ReadRecords(s, i, []) == Some(table[k..])
    decreases |table| - k
  {
    hide ReadRecords, Escaped;
    var fields := table[k];
    var line := JoinFrom(Escaped(fields), 0, ",");
    assert fields[..0] == [] && Lines(table)[k] == line;
    if k + 1 < |table| {
      var rest := JoinFrom(Lines(table), k + 1, "\n");
      AtSplit(s, i, line, "\n" + rest);
      AtSplit(s, i + |line|, "\n", rest);
      assert s[i + |line|] == "\n"[0];
      ReadsTable(s, i + |line| + 1, table, k + 1);
      ReadsFields(s, i, fields, 0);
      assert table[k..] == [fields] + table[k + 1..];
    } else {
      assert line + "" == line;
      ReadsFields(s, i, fields, 0);
      assert table[k..] == [fields];
    }
  }

  lemma {:induction false} ReadsSomething(s: string, i: nat, record: seq<string>)
    requires i <= |s| && ReadRecords(s, i, record).Some?
    ensures var records := ReadRecords(s, i, record).value;
            records != [] && forall k :: 0 <= k < |records| ==> records[k] != []
    decreases |s| - i
  {
    var (text, j) := ReadField(s, i).value;
    if j < |s| && s[j] == ',' {
      ReadsSomething(s, j + 1, record + [text]);
    } else if j < |s| {
      ReadsSomething(s, j + 1, []);
    }
  }

  /**
   * The reader recovers exactly the header and the formatted cells, whatever text they hold, if and only
   * if there is at least one row and at least one column.
   */
  lemma RoundTripExactly(rows: seq<Row>)
    ensures Read(Join(Lines(Table(rows)), "\n")) == Some(Table(rows)) <==> rows != [] && rows[0].keys != []
  {
    var table := Table(rows);
    var text := Join(Lines(table), "\n");
    if rows != [] && rows[0].keys != [] {
      ReadsTable(text, 0, table, 0);
      assert table[0..] == table;
    } else if Read(text) == Some(table) {
      assert rows != [] ==> table[0] == rows[0].keys;
      ReadsSomething(text, 0, []);
    }
  }

  lemma {:induction false} OnlySeparators(parts: seq<string>, k: nat)
    requires k < |parts| && forall i :: 0 <= i < |parts| ==> parts[i] == ""
    ensures JoinFrom(parts, k, "\n") == seq(|parts| - 1 - k, _ => '\n')
    decreases |parts| - k
  {
    if k + 1 < |parts| {
      OnlySeparators(parts, k + 1);
    }
  }

  /** Why the other exports cannot be read back: without a row or a column they are line breaks only. */
  lemma NothingToShow(rows: seq<Row>)
    requires rows == [] || rows[0].keys == []
    ensures Join(Lines(Table(rows)), "\n") == seq(|rows|, _ => '\n')
  {
    if rows != [] {
      OnlySeparators(Lines(Table(rows)), 0);
    }
  }

  /** The text that the export should show for a value. */
  predicate Shows(text: string, v: Value) {
    (v == Empty && text == "") || (v.Object? && text == v.json) || (v.Plain? && text == v.text)
  }

  /** Field k is the text of the row's own value under the k-th column, and empty when the row has none. */
  ghost predicate RowShown(fields: seq<string>, columns: seq<string>, row: Row) {
    && |fields| == |columns|
    && forall k :: 0 <= k < |columns| ==>
         if columns[k] in row.cells then Shows(fields[k], row.cells[columns[k]]) else fields[k] == ""
  }

  lemma CellsShown(columns: seq<string>, row: Row)
    ensures RowShown(CellsOf(columns, row), columns, row)
  {}

  lemma TableShape(rows: seq<Row>)
    requires rows != []
    ensures |Table(rows)| == |rows| + 1 && Table(rows)[0] == rows[0].keys
    ensures forall j :: 0 <= j < |rows| ==> Table(rows)[j + 1] == CellsOf(rows[0].keys, rows[j])
  {
    hide CellsOf;
  }

  /** What a reader finds in the exported text: the first row's columns, then one record that shows each row. */
  lemma ReaderFindsTheCells(rows: seq<Row>)
    requires rows != [] && rows[0].keys != []
    ensures var found := Read(Join(Lines(Table(rows)), "\n"));
            && found.Some? && |found.value| == |rows| + 1 && found.value[0] == rows[0].keys
            && forall j :: 0 <= j < |rows| ==> RowShown(found.value[j + 1], rows[0].keys, rows[j])
  {
    hide Read, Join, Lines, Table, CellsOf, RowShown;
    RoundTripExactly(rows);
    TableShape(rows);
    forall j | 0 <= j < |rows| ensures RowShown(Table(rows)[j + 1], rows[0].keys, rows[j]) {
      CellsShown(rows[0].keys, rows[j]);
    }
  }
}
