/**
 * The statements that create and extend a ClickHouse table, and a reader for them that knows only the
 * quoting rule: inside backticks a backtick is doubled.
 */
module DdlModel {
  import opened Wrappers
  import opened Schema
  import Decimal
  import Lex

  // ---------------------------------------------------------------- the printer

  function Escape(name: string): string {
    if name == "" then "" else (if name[0] == '`' then "``" else [name[0]]) + Escape(name[1..])
  }

  function QuoteIdent(name: string): string { "`" + Escape(name) + "`" }

  function TypeText(c: Column): string { if c.nullable then "Nullable(" + c.typ + ")" else c.typ }

  function ColumnLine(prefix: string, c: Column, more: bool): string {
    prefix + QuoteIdent(c.name) + " " + TypeText(c) + (if more then "," else "") + "\n"
  }

  /** One line for each column, with a comma after all but the last. */
  function ColumnLines(prefix: string, columns: seq<Column>): string {
    if columns == [] then ""
    else ColumnLine(prefix, columns[0], |columns| > 1) + ColumnLines(prefix, columns[1..])
  }

  function JoinIdents(names: seq<string>): string {
    if names == [] then ""
    else if |names| == 1 then QuoteIdent(names[0])
    else QuoteIdent(names[0]) + ", " + JoinIdents(names[1..])
  }

  const CREATE := "CREATE TABLE IF NOT EXISTS "
  const ENGINE := ") ENGINE = MergeTree()\n"
  const PARTITION := "PARTITION BY toYYYYMM("
  const ALTER := "ALTER TABLE "
  const INDENT := "    "
  const ADD := "    ADD COLUMN "

  function PartitionText(d: Dataset): string {
    if d.partitionBy != "" then PARTITION + QuoteIdent(d.partitionBy) + ")\n" else ""
  }

  function OrderText(d: Dataset): string {
    if d.orderBy != [] then "ORDER BY (" + JoinIdents(d.orderBy) + ")\n" else "ORDER BY tuple()\n"
  }

  function TtlText(d: Dataset): string {
    if d.ttlDays > 0
    then "TTL " + QuoteIdent(d.partitionBy) + " + INTERVAL " + Decimal.Print(d.ttlDays) + " DAY\n"
    else ""
  }

  function CreateText(d: Dataset): string {
    CREATE + QuoteIdent(d.name) + " (\n" + ColumnLines(INDENT, d.columns) + ENGINE
    + PartitionText(d) + OrderText(d) + TtlText(d)
  }

  function AlterText(name: string, columns: seq<Column>): string {
    ALTER + QuoteIdent(name) + "\n" + ColumnLines(ADD, columns)
  }

  function TrimNewlines(s: string): string {
    if s != "" && s[|s| - 1] == '\n' then TrimNewlines(s[..|s| - 1]) else s
  }

  function GenerateDdl(d: Dataset): string { TrimNewlines(CreateText(d)) }

  function GenerateAlterDdl(name: string, columns: seq<Column>): string { TrimNewlines(AlterText(name, columns)) }

  // ---------------------------------------------------------------- the reader

  /** What is left after a fixed text. */
  function Expect(p: string, s: string): Option<string> {
    if p <= s then Some(s[|p|..]) else None
  }

  /** The rest of a quoted identifier, after the opening backtick. */
  function ReadQuoted(s: string): Option<(string, string)> {
    if s == "" then None
    else if s[0] != '`' then
      match ReadQuoted(s[1..]) case Some((name, rest)) => Some(([s[0]] + name, rest)) case None => None
    else if |s| > 1 && s[1] == '`' then
      match ReadQuoted(s[2..]) case Some((name, rest)) => Some(("`" + name, rest)) case None => None
    else Some(("", s[1..]))
  }

  function ReadIdent(s: string): Option<(string, string)> {
    match Expect("`", s) case Some(rest) => ReadQuoted(rest) case None => None
  }

  /** Everything before the next newline, and everything after it. */
  function ReadLine(s: string): Option<(string, string)> {
    if s == "" then None
    else if s[0] == '\n' then Some(("", s[1..]))
    else match ReadLine(s[1..]) case Some((line, rest)) => Some(([s[0]] + line, rest)) case None => None
  }

  predicate EndsWith(s: string, c: char) { s != "" && s[|s| - 1] == c }

  function ColumnOf(name: string, text: string): Column {
    if "Nullable(" <= text && EndsWith(text, ')') && |text| >= 10 then Column(name, text[9..|text| - 1], true)
    else Column(name, text, false)
  }

  /** A column, whether another one follows, and the rest. */
  function ReadColumn(prefix: string, s: string): Option<(Column, bool, string)> {
    match Expect(prefix, s)
    case None => None
    case Some(s1) =>
      match ReadIdent(s1)
      case None => None
      case Some((name, s2)) =>
        match Expect(" ", s2)
        case None => None
        case Some(s3) =>
          match ReadLine(s3)
          case None => None
          case Some((text, rest)) =>
            if EndsWith(text, ',') then Some((ColumnOf(name, text[..|text| - 1]), true, rest))
            else Some((ColumnOf(name, text), false, rest))
  }

  function ReadColumns(prefix: string, s: string): Option<(seq<Column>, string)>
    decreases |s|
  {
    match ReadColumn(prefix, s)
    case None => None
    case Some((c, more, rest)) =>
      if !more then Some(([c], rest))
      else if |rest| >= |s| then None
      else match ReadColumns(prefix, rest) case Some((cs, rest')) => Some(([c] + cs, rest')) case None => None
  }

  function ReadIdents(s: string): Option<(seq<string>, string)>
    decreases |s|
  {
    match ReadIdent(s)
    case None => None
    case Some((name, rest)) =>
      match Expect(", ", rest)
      case None => Some(([name], rest))
      case Some(rest1) =>
        if |rest1| >= |s| then None
        else match ReadIdents(rest1) case Some((names, rest')) => Some(([name] + names, rest')) case None => None
  }

  function ReadPartition(s: string): Option<(string, string)> {
    match Expect(PARTITION, s)
    case None => Some(("", s))
    case Some(s1) =>
      match ReadIdent(s1)
      case None => None
      case Some((name, s2)) => match Expect(")\n", s2) case Some(rest) => Some((name, rest)) case None => None
  }

  function ReadOrder(s: string): Option<(seq<string>, string)> {
    match Expect("ORDER BY tuple()\n", s)
    case Some(rest) => Some(([], rest))
    case None =>
      match Expect("ORDER BY (", s)
      case None => None
      case Some(s1) =>
        match ReadIdents(s1)
        case None => None
        case Some((names, s2)) => match Expect(")\n", s2) case Some(rest) => Some((names, rest)) case None => None
  }

  function DigitsOf(s: string): (digits: string)
    ensures digits <= s && Decimal.AllDigits(digits)
  {
    if s == "" || !Decimal.IsDigit(s[0]) then "" else [s[0]] + DigitsOf(s[1..])
  }

  /** The number of days, 0 when there is no TTL clause. */
  function ReadTtl(s: string): Option<(string, nat)> {
    if s == "" then Some(("", 0))
    else
      match Expect("TTL ", s)
      case None => None
      case Some(s1) =>
        match ReadIdent(s1)
        case None => None
        case Some((name, s2)) =>
          match Expect(" + INTERVAL ", s2)
          case None => None
          case Some(s3) =>
            var digits := DigitsOf(s3);
            if s3[|digits|..] == " DAY\n" then Some((name, Decimal.Value(digits))) else None
  }

  datatype Table = Table(name: string, columns: seq<Column>, partitionBy: string, orderBy: seq<string>, ttlDays: nat)

  /** A statement comes without its last newline. */
  function ReadCreate(statement: string): Option<Table> {
    match Expect(CREATE, statement + "\n")
    case None => None
    case Some(s1) =>
      match ReadIdent(s1)
      case None => None
      case Some((name, s2)) =>
        match Expect(" (\n", s2)
        case None => None
        case Some(s3) => ReadBody(name, s3)
  }

  function ReadBody(name: string, s: string): Option<Table> {
    match ReadColumns(INDENT, s)
    case None => None
    case Some((columns, s1)) =>
      match Expect(ENGINE, s1)
      case None => None
      case Some(s2) => ReadTail(name, columns, s2)
  }

  function ReadTail(name: string, columns: seq<Column>, s: string): Option<Table> {
    match ReadPartition(s)
    case None => None
    case Some((partitionBy, s1)) =>
      match ReadOrder(s1)
      case None => None
      case Some((orderBy, s2)) =>
        match ReadTtl(s2)
        case None => None
        case Some((_, days)) => Some(Table(name, columns, partitionBy, orderBy, days))
  }

  function ReadAlter(statement: string): Option<(string, seq<Column>)> {
    match Expect(ALTER, statement + "\n")
    case None => None
    case Some(s1) =>
      match ReadIdent(s1)
      case None => None
      case Some((name, s2)) =>
        match Expect("\n", s2)
        case None => None
        case Some(s3) =>
          match ReadColumns(ADD, s3)
          case Some((columns, "")) => Some((name, columns))
          case _ => None
  }

  // ---------------------------------------------------------------- reading back what was printed

  lemma ExpectPrinted(p: string, rest: string)
    ensures Expect(p, p + rest) == Some(rest)
  {
    assert (p + rest)[|p|..] == rest;
  }

  lemma {:induction false} QuotedReadsBack(name: string, rest: string)
    requires rest == "" || rest[0] != '`'
    ensures ReadQuoted(Escape(name) + "`" + rest) == Some((name, rest))
  {
    var s := Escape(name) + "`" + rest;
    if name == "" {
      assert s == "`" + rest;
    } else {
      var more := Escape(name[1..]) + "`" + rest;
      QuotedReadsBack(name[1..], rest);
      if name[0] == '`' {
        assert s == "``" + more;
        assert s[2..] == more;
        assert "`" + name[1..] == name;
      } else {
        assert s == [name[0]] + more;
        assert s[1..] == more;
        assert [name[0]] + name[1..] == name;
      }
    }
  }

  /** Doubling backticks is undone by the reader, for every name. */
  lemma IdentReadsBack(name: string, rest: string)
    requires rest == "" || rest[0] != '`'
    ensures ReadIdent(QuoteIdent(name) + rest) == Some((name, rest))
  {
    hide ReadQuoted, Escape;
    QuotedReadsBack(name, rest);
    assert QuoteIdent(name) + rest == "`" + (Escape(name) + "`" + rest);
    ExpectPrinted("`", Escape(name) + "`" + rest);
  }

  lemma {:induction false} LineReadsBack(line: string, rest: string)
    requires '\n' !in line
    ensures ReadLine(line + "\n" + rest) == Some((line, rest))
  {
    if line == "" {
      assert line + "\n" + rest == "\n" + rest;
    } else {
      LineReadsBack(line[1..], rest);
      assert line + "\n" + rest == [line[0]] + (line[1..] + "\n" + rest);
      assert [line[0]] + line[1..] == line;
    }
  }

  /** The text of the type can be told from what surrounds it in a line. */
  predicate Legible(c: Column) {
    '\n' !in c.typ && (!c.nullable ==> !("Nullable(" <= c.typ && EndsWith(c.typ, ')')))
  }

  /** The last type of a statement is not taken for one that another column follows. */
  predicate Final(c: Column) { !c.nullable ==> !EndsWith(c.typ, ',') }

  predicate AllLegible(columns: seq<Column>) { forall i :: 0 <= i < |columns| ==> Legible(columns[i]) }

  /** Columns that one statement can carry; inferred columns always are such. */
  predicate AllPlain(columns: seq<Column>) {
    AllLegible(columns) && (columns != [] ==> Final(columns[|columns| - 1]))
  }

  lemma TypeReadsBack(c: Column)
    requires Legible(c)
    ensures ColumnOf(c.name, TypeText(c)) == c
    ensures '\n' !in TypeText(c)
    ensures EndsWith(TypeText(c), ',') <==> !Final(c)
  {
    if c.nullable {
      var t := TypeText(c);
      assert t[9..|t| - 1] == c.typ;
    }
  }

  lemma ReadsColumnText(prefix: string, name: string, text: string, rest: string)
    requires '\n' !in text
    ensures ReadColumn(prefix, prefix + QuoteIdent(name) + " " + text + "\n" + rest)
         == if EndsWith(text, ',') then Some((ColumnOf(name, text[..|text| - 1]), true, rest))
            else Some((ColumnOf(name, text), false, rest))
  {
    hide ReadIdent, ReadLine, QuoteIdent, ColumnOf, Expect;
    var s3 := text + "\n" + rest;
    var s2 := " " + s3;
    var s1 := QuoteIdent(name) + s2;
    assert prefix + QuoteIdent(name) + " " + text + "\n" + rest == prefix + s1;
    ExpectPrinted(prefix, s1);
    IdentReadsBack(name, s2);
    ExpectPrinted(" ", s3);
    LineReadsBack(text, rest);
  }

  /** What the reader makes of a column's line, when another one may or may not follow. */
  lemma ColumnReadsBack(prefix: string, c: Column, more: bool, rest: string)
    requires Legible(c)
    ensures more || Final(c) ==> ReadColumn(prefix, ColumnLine(prefix, c, more) + rest) == Some((c, more, rest))
    ensures !more && !Final(c) ==>
              exists c' :: ReadColumn(prefix, ColumnLine(prefix, c, more) + rest) == Some((c', true, rest))
  {
    hide ReadColumn, QuoteIdent, TypeText, ColumnOf, Legible, Final;
    TypeReadsBack(c);
    var text := TypeText(c) + if more then "," else "";
    assert ColumnLine(prefix, c, more) + rest == prefix + QuoteIdent(c.name) + " " + text + "\n" + rest;
    ReadsColumnText(prefix, c.name, text, rest);
    assert more ==> text[..|text| - 1] == TypeText(c);
    assert !more ==> text == TypeText(c);
  }

  lemma {:induction false} ColumnsReadBack(prefix: string, columns: seq<Column>, rest: string)
    requires columns != [] && AllPlain(columns)
    ensures ReadColumns(prefix, ColumnLines(prefix, columns) + rest) == Some((columns, rest))
    decreases |columns|
  {
    hide ReadColumn, ColumnLine, Legible, Final;
    var c, others := columns[0], columns[1..];
    var s1 := ColumnLines(prefix, others) + rest;
    assert ColumnLines(prefix, columns) + rest == ColumnLine(prefix, c, |columns| > 1) + s1;
    assert Legible(c);
    ColumnReadsBack(prefix, c, |columns| > 1, s1);
    LineIsNotEmpty(prefix, c, |columns| > 1);
    assert columns == [c] + others;
    if others != [] {
      ColumnsReadBack(prefix, others, rest);
    } else {
      assert s1 == rest && columns == [c];
    }
  }

  /** A comma at the end of the last type makes the reader look for a column that is not there. */
  lemma {:induction false} ColumnsUnread(prefix: string, columns: seq<Column>, rest: string)
    requires columns != [] && AllLegible(columns) && !AllPlain(columns)
    requires ReadColumn(prefix, rest) == None
    ensures ReadColumns(prefix, ColumnLines(prefix, columns) + rest) == None
    decreases |columns|
  {
    hide ReadColumn, ColumnLine, Legible, Final;
    var c, others := columns[0], columns[1..];
    var s1 := ColumnLines(prefix, others) + rest;
    assert ColumnLines(prefix, columns) + rest == ColumnLine(prefix, c, |columns| > 1) + s1;
    assert Legible(c);
    ColumnReadsBack(prefix, c, |columns| > 1, s1);
    LineIsNotEmpty(prefix, c, |columns| > 1);
    if others != [] {
      ColumnsUnread(prefix, others, rest);
    } else {
      assert s1 == rest;
    }
  }

  lemma {:induction false} LineHasNoNewline(s: string)
    ensures ReadLine(s).Some? ==> '\n' !in ReadLine(s).value.0
  {
    if s != "" && s[0] != '\n' {
      LineHasNoNewline(s[1..]);
    }
  }

  lemma ColumnOfIsLegible(name: string, text: string)
    requires '\n' !in text
    ensures Legible(ColumnOf(name, text)) && (!EndsWith(text, ',') ==> Final(ColumnOf(name, text)))
  {}

  /** Whatever the text, a column that the reader returns is legible, and final if none follows. */
  lemma ReadColumnIsLegible(prefix: string, s: string)
    ensures match ReadColumn(prefix, s)
            case Some((c, more, _)) => Legible(c) && (more || Final(c))
            case None => true
  {
    hide ReadIdent, ReadLine, ColumnOf, Legible, Final;
    match Expect(prefix, s) {
      case None =>
      case Some(s1) =>
        match ReadIdent(s1) {
          case None =>
          case Some((name, s2)) =>
            match Expect(" ", s2) {
              case None =>
              case Some(s3) =>
                LineHasNoNewline(s3);
                if ReadLine(s3).Some? {
                  var text := ReadLine(s3).value.0;
                  ColumnOfIsLegible(name, text);
                  if EndsWith(text, ',') {
                    ColumnOfIsLegible(name, text[..|text| - 1]);
                  }
                }
            }
        }
    }
  }

  lemma {:induction false} ReadColumnsArePlain(prefix: string, s: string)
    ensures match ReadColumns(prefix, s) case Some((columns, _)) => columns != [] && AllPlain(columns) case None => true
    decreases |s|
  {
    hide ReadColumn, Legible, Final;
    ReadColumnIsLegible(prefix, s);
    match ReadColumn(prefix, s) {
      case None =>
      case Some((c, more, rest)) =>
        if more && |rest| < |s| {
          ReadColumnsArePlain(prefix, rest);
        }
    }
  }

  lemma LineIsNotEmpty(prefix: string, c: Column, more: bool)
    ensures ColumnLine(prefix, c, more) != ""
  {}

  lemma {:induction false} IdentsReadBack(names: seq<string>, rest: string)
    requires names != [] && rest != "" && rest[0] == ')'
    ensures ReadIdents(JoinIdents(names) + rest) == Some((names, rest))
    decreases |names|
  {
    hide ReadIdent, QuoteIdent;
    if |names| == 1 {
      IdentReadsBack(names[0], rest);
      assert names == [names[0]];
    } else {
      var s1 := JoinIdents(names[1..]) + rest;
      assert JoinIdents(names) + rest == QuoteIdent(names[0]) + (", " + s1);
      IdentReadsBack(names[0], ", " + s1);
      ExpectPrinted(", ", s1);
      IdentsReadBack(names[1..], rest);
      assert |", " + s1| <= |QuoteIdent(names[0]) + (", " + s1)|;
      assert names == [names[0]] + names[1..];
    }
  }

  lemma PartitionReadsBack(d: Dataset, rest: string)
    requires d.partitionBy == "" ==> !(PARTITION <= rest)
    ensures ReadPartition(PartitionText(d) + rest) == Some((d.partitionBy, rest))
  {
    hide ReadIdent, QuoteIdent;
    if d.partitionBy == "" {
      assert PartitionText(d) + rest == rest;
    } else {
      var s1 := QuoteIdent(d.partitionBy) + (")\n" + rest);
      assert PartitionText(d) + rest == PARTITION + s1;
      ExpectPrinted(PARTITION, s1);
      IdentReadsBack(d.partitionBy, ")\n" + rest);
      ExpectPrinted(")\n", rest);
    }
  }

  lemma OrderReadsBack(d: Dataset, rest: string)
    ensures ReadOrder(OrderText(d) + rest) == Some((d.orderBy, rest))
    ensures !(PARTITION <= OrderText(d) + rest)
  {
    hide ReadIdents, JoinIdents;
    var s := OrderText(d) + rest;
    assert s[0] == 'O';
    if d.orderBy == [] {
      ExpectPrinted("ORDER BY tuple()\n", rest);
    } else {
      var s1 := JoinIdents(d.orderBy) + (")\n" + rest);
      assert s == "ORDER BY (" + s1;
      assert s[9] == '(';
      assert !("ORDER BY tuple()\n" <= s);
      ExpectPrinted("ORDER BY (", s1);
      IdentsReadBack(d.orderBy, ")\n" + rest);
      ExpectPrinted(")\n", rest);
    }
  }

  lemma {:induction false} DigitsReadBack(digits: string, rest: string)
    requires Decimal.AllDigits(digits) && (rest == "" || !Decimal.IsDigit(rest[0]))
    ensures DigitsOf(digits + rest) == digits
  {
    if digits == "" {
      assert digits + rest == rest;
    } else {
      assert digits + rest == [digits[0]] + (digits[1..] + rest);
      DigitsReadBack(digits[1..], rest);
      assert [digits[0]] + digits[1..] == digits;
    }
  }

  lemma TtlReadsBack(d: Dataset)
    ensures ReadTtl(TtlText(d))
         == if d.ttlDays > 0 then Some((d.partitionBy, d.ttlDays)) else Some(("", 0))
  {
    hide ReadIdent, QuoteIdent, Decimal.Print, Decimal.Value, DigitsOf;
    if d.ttlDays > 0 {
      var digits := Decimal.Print(d.ttlDays);
      var s3 := digits + " DAY\n";
      var s2 := " + INTERVAL " + s3;
      assert TtlText(d) == "TTL " + (QuoteIdent(d.partitionBy) + s2);
      ExpectPrinted("TTL ", QuoteIdent(d.partitionBy) + s2);
      IdentReadsBack(d.partitionBy, s2);
      ExpectPrinted(" + INTERVAL ", s3);
      DigitsReadBack(digits, " DAY\n");
      assert s3[|digits|..] == " DAY\n";
      Decimal.ValueOfPrint(d.ttlDays);
    }
  }

  lemma TrimOneNewline(s: string)
    requires EndsWith(s, '\n') && |s| >= 2 && s[|s| - 2] != '\n'
    ensures TrimNewlines(s) + "\n" == s
  {
    assert s[..|s| - 1] + "\n" == s;
  }

  /** What a definition says about its table. */
  function TableOf(d: Dataset): Table {
    Table(d.name, d.columns, d.partitionBy, d.orderBy, if d.ttlDays > 0 then d.ttlDays else 0)
  }

  /** For any consistent definition, a reader recovers the whole table if and only if its columns are plain. */
  lemma CreateReadsBack(d: Dataset)
    requires WellFormed(d)
    ensures ReadCreate(GenerateDdl(d)) == Some(TableOf(d)) <==> AllPlain(d.columns)
    ensures AllLegible(d.columns) && !AllPlain(d.columns) ==> ReadCreate(GenerateDdl(d)) == None
  {
    hide AllPlain, AllLegible, ReadColumns;
    ReadCreateFollows(d);
    CreatedArePlain(GenerateDdl(d));
    var rest := AfterColumns(d);
    NoColumnInEngine(rest[|ENGINE|..]);
    assert rest == ENGINE + rest[|ENGINE|..];
    if AllPlain(d.columns) {
      ColumnsReadBack(INDENT, d.columns, rest);
    } else if AllLegible(d.columns) {
      ColumnsUnread(INDENT, d.columns, rest);
    }
  }

  /** The part of a CREATE statement after its columns. */
  function AfterColumns(d: Dataset): (r: string)
    ensures ENGINE <= r
  {
    ENGINE + (PartitionText(d) + (OrderText(d) + TtlText(d)))
  }

  lemma NoColumnInEngine(rest: string)
    ensures ReadColumn(INDENT, ENGINE + rest) == None
  {
    assert (ENGINE + rest)[0] == ')';
  }

  lemma TailReadsBack(d: Dataset, columns: seq<Column>)
    ensures ReadTail(d.name, columns, PartitionText(d) + (OrderText(d) + TtlText(d)))
         == Some(TableOf(d).(columns := columns))
  {
    hide ReadPartition, PartitionText, ReadOrder, OrderText, ReadTtl, TtlText;
    OrderReadsBack(d, TtlText(d));
    PartitionReadsBack(d, OrderText(d) + TtlText(d));
    TtlReadsBack(d);
  }

  lemma ReadCreateStarts(d: Dataset)
    ensures ReadCreate(GenerateDdl(d)) == ReadBody(d.name, ColumnLines(INDENT, d.columns) + AfterColumns(d))
  {
    hide ReadIdent, QuoteIdent, ColumnLines, PartitionText, OrderText, TtlText, TrimNewlines, ReadBody;
    var s3 := ColumnLines(INDENT, d.columns) + AfterColumns(d);
    var s2 := " (\n" + s3;
    var s1 := QuoteIdent(d.name) + s2;
    assert CreateText(d) == CREATE + s1;
    CreateEnds(d);
    TrimOneNewline(CreateText(d));
    hide CreateText, AfterColumns, Expect;
    ExpectPrinted(CREATE, s1);
    IdentReadsBack(d.name, s2);
    ExpectPrinted(" (\n", s3);
  }

  /** Everything in a CREATE statement but the columns is read back, whatever these are. */
  lemma ReadCreateFollows(d: Dataset)
    ensures match ReadColumns(INDENT, ColumnLines(INDENT, d.columns) + AfterColumns(d))
            case None => ReadCreate(GenerateDdl(d)) == None
            case Some((columns, rest)) =>
              rest == AfterColumns(d) ==> ReadCreate(GenerateDdl(d)) == Some(TableOf(d).(columns := columns))
  {
    hide ReadCreate, ReadColumns, ColumnLines, PartitionText, OrderText, TtlText, ReadTail, TableOf,
         GenerateDdl, Expect;
    ReadCreateStarts(d);
    var s5 := PartitionText(d) + (OrderText(d) + TtlText(d));
    ExpectPrinted(ENGINE, s5);
    match ReadColumns(INDENT, ColumnLines(INDENT, d.columns) + AfterColumns(d)) {
      case Some((columns, _)) => TailReadsBack(d, columns);
      case None =>
    }
  }

  lemma CreatedArePlain(statement: string)
    ensures ReadCreate(statement).Some? ==> AllPlain(ReadCreate(statement).value.columns)
  {
    hide ReadIdent, ReadColumns, ReadPartition, ReadOrder, ReadTtl, AllPlain, Expect;
    match Expect(CREATE, statement + "\n") {
      case None =>
      case Some(s1) =>
        match ReadIdent(s1) {
          case None =>
          case Some((_, s2)) =>
            match Expect(" (\n", s2) {
              case None =>
              case Some(s3) => ReadColumnsArePlain(INDENT, s3);
            }
        }
    }
  }

  lemma CreateEnds(d: Dataset)
    ensures var s := CreateText(d); EndsWith(s, '\n') && |s| >= 2 && s[|s| - 2] != '\n'
  {
    hide QuoteIdent, ColumnLines, PartitionText, JoinIdents, Decimal.Print;
    var s := CreateText(d);
    if d.ttlDays > 0 {
      assert TtlText(d)[|TtlText(d)| - 5..] == " DAY\n";
    } else {
      assert OrderText(d)[|OrderText(d)| - 2..] == ")\n";
      assert s[|s| - 2] == OrderText(d)[|OrderText(d)| - 2];
    }
  }

  /**
   * An alter statement is read back if and only if it has a column and its columns are plain. Without a
   * column, and when only the comma at the end of the last type is at fault, nothing can be read.
   */
  lemma AlterReadsBack(name: string, columns: seq<Column>)
    ensures ReadAlter(GenerateAlterDdl(name, columns)) == Some((name, columns)) <==> columns != [] && AllPlain(columns)
    ensures AllLegible(columns) && (columns == [] || !AllPlain(columns)) ==>
              ReadAlter(GenerateAlterDdl(name, columns)) == None
  {
    hide ReadColumns, AllPlain, AllLegible;
    AlteredArePlain(GenerateAlterDdl(name, columns));
    if AllLegible(columns) {
      ReadAlterFollows(name, columns);
      assert ColumnLines(ADD, columns) + "" == ColumnLines(ADD, columns);
      NoColumnRead();
      if columns != [] {
        if AllPlain(columns) {
          ColumnsReadBack(ADD, columns, "");
        } else {
          ColumnsUnread(ADD, columns, "");
        }
      }
    } else {
      assert !AllPlain(columns) by { PlainIsLegible(columns); }
    }
  }

  lemma PlainIsLegible(columns: seq<Column>)
    ensures AllPlain(columns) ==> AllLegible(columns)
  {}

  lemma ReadAlterFollows(name: string, columns: seq<Column>)
    requires AllLegible(columns)
    ensures match ReadColumns(ADD, ColumnLines(ADD, columns))
            case None => ReadAlter(GenerateAlterDdl(name, columns)) == None
            case Some((cs, rest)) =>
              rest == "" ==> ReadAlter(GenerateAlterDdl(name, columns)) == Some((name, cs))
  {
    hide ReadIdent, QuoteIdent, ColumnLines, ReadColumns, TrimNewlines, AllLegible;
    var s3 := ColumnLines(ADD, columns);
    var s1 := QuoteIdent(name) + ("\n" + s3);
    assert AlterText(name, columns) == ALTER + s1;
    AlterEnds(name, columns);
    TrimOneNewline(AlterText(name, columns));
    ExpectPrinted(ALTER, s1);
    IdentReadsBack(name, "\n" + s3);
    ExpectPrinted("\n", s3);
  }

  lemma AlteredArePlain(statement: string)
    ensures match ReadAlter(statement) case Some((_, columns)) => columns != [] && AllPlain(columns) case None => true
  {
    hide ReadIdent, ReadColumns, AllPlain;
    match Expect(ALTER, statement + "\n") {
      case None =>
      case Some(s1) =>
        match ReadIdent(s1) {
          case None =>
          case Some((_, s2)) =>
            match Expect("\n", s2) {
              case None =>
              case Some(s3) => ReadColumnsArePlain(ADD, s3);
            }
        }
    }
  }

  lemma NoColumnRead()
    ensures ColumnLines(ADD, []) == "" && ReadColumns(ADD, "") == None && ReadColumn(ADD, "") == None
  {}

  lemma AlterEnds(name: string, columns: seq<Column>)
    requires AllLegible(columns)
    ensures var s := AlterText(name, columns); EndsWith(s, '\n') && |s| >= 2 && s[|s| - 2] != '\n'
  {
    hide Escape, Legible, TypeText;
    if columns != [] {
      LinesEnd(ADD, columns);
      var s, t := AlterText(name, columns), ColumnLines(ADD, columns);
      assert s[|s| - 2] == t[|t| - 2];
    }
  }

  lemma {:induction false} LinesEnd(prefix: string, columns: seq<Column>)
    requires columns != [] && AllLegible(columns)
    ensures var s := ColumnLines(prefix, columns); EndsWith(s, '\n') && |s| >= 2 && s[|s| - 2] != '\n'
  {
    hide Legible, TypeText, QuoteIdent;
    var s, last := ColumnLines(prefix, columns), ColumnLine(prefix, columns[0], |columns| > 1);
    if |columns| > 1 {
      LinesEnd(prefix, columns[1..]);
      var t := ColumnLines(prefix, columns[1..]);
      assert s[|s| - 2] == t[|t| - 2];
    } else {
      assert Legible(columns[0]);
      TypeReadsBack(columns[0]);
      assert columns[1..] == [];
      assert ColumnLines(prefix, columns[1..]) == "" && last + "" == last;
      var t := " " + TypeText(columns[0]);
      assert last[|last| - 2] == t[|t| - 1];
    }
  }

  lemma InferTypeIsPlain(value: Json)
    ensures var t := InferType(value); t != "" && '\n' !in t && t[|t| - 1] != ',' && t[|t| - 1] != ')'
  {}

  /** Inferred columns are always plain. */
  lemma InferredIsPlain(sample: map<string, Json>, columns: seq<Column>)
    requires Inferred(sample, columns)
    ensures AllPlain(columns)
  {
    hide Lex.Less, InferType;
    forall i | 0 <= i < |columns| ensures Legible(columns[i]) && Final(columns[i]) {
      assert columns[i] in columns;
      assert columns[i] == InferColumn(columns[i].name, sample[columns[i].name]);
      InferTypeIsPlain(sample[columns[i].name]);
    }
  }

  /** Why types must be legible: two different definitions with the same statement. */
  lemma TypesCanCollide(d: Dataset, name: string, typ: string)
    requires d.columns == [Column(name, typ, true)]
    ensures var d' := d.(columns := [Column(name, "Nullable(" + typ + ")", false)]);
            d' != d && GenerateDdl(d') == GenerateDdl(d)
  {
    var a, b := Column(name, typ, true), Column(name, "Nullable(" + typ + ")", false);
    assert ColumnLine(INDENT, a, false) == ColumnLine(INDENT, b, false);
    assert [a][1..] == [] && [b][1..] == [];
    assert ColumnLines(INDENT, [a]) == ColumnLines(INDENT, [b]);
  }

  // ---------------------------------------------------------------- the statements word by word

  lemma TwoLines(prefix: string, a: Column, b: Column)
    ensures ColumnLines(prefix, [a, b]) == ColumnLine(prefix, a, true) + ColumnLine(prefix, b, false)
  {
    assert [a, b][1..] == [b];
    assert ColumnLines(prefix, [b]) == ColumnLine(prefix, b, false) + ColumnLines(prefix, []);
  }

  lemma OneLine(prefix: string, a: Column)
    ensures ColumnLines(prefix, [a]) == ColumnLine(prefix, a, false)
  {
    assert ColumnLines(prefix, [a]) == ColumnLine(prefix, a, false) + ColumnLines(prefix, []);
  }

  lemma BareEnds(d: Dataset)
    requires d.orderBy == [] && d.ttlDays <= 0
    ensures var t := CreateText(d); |t| >= 2 && EndsWith(t, '\n') && t[|t| - 2] != '\n'
  {
    hide QuoteIdent, ColumnLines;
  }

  lemma NullableLine(prefix: string, c: Column, more: bool)
    requires c.nullable
    ensures ColumnLine(prefix, c, more) ==
            prefix + QuoteIdent(c.name) + " " + ("Nullable(" + c.typ + ")") + (if more then "," else "") + "\n"
  {}

  lemma RequiredLine(prefix: string, c: Column, more: bool)
    requires !c.nullable
    ensures ColumnLine(prefix, c, more) ==
            prefix + QuoteIdent(c.name) + " " + c.typ + (if more then "," else "") + "\n"
  {}

  lemma TwoIdents(a: string, b: string)
    ensures JoinIdents([a, b]) == QuoteIdent(a) + ", " + QuoteIdent(b)
  {
    assert [a, b][1..] == [b];
  }

  lemma TtlEnds(d: Dataset)
    requires d.ttlDays > 0
    ensures var t := TtlText(d); |t| >= 2 && EndsWith(t, '\n') && t[|t| - 2] != '\n'
  {}

  /** With everything set: what a statement and its line break say for two columns, the second one nullable. */
  lemma CreateStatement(d: Dataset, a: Column, b: Column)
    requires d.columns == [a, b] && !a.nullable && b.nullable && d.orderBy == [b.name, a.name]
    requires d.partitionBy != "" && d.ttlDays > 0
    ensures GenerateDdl(d) + "\n" ==
            "CREATE TABLE IF NOT EXISTS " + QuoteIdent(d.name) + " (\n"
            + (("    " + QuoteIdent(a.name) + " " + a.typ + "," + "\n")
               + ("    " + QuoteIdent(b.name) + " " + ("Nullable(" + b.typ + ")") + "" + "\n"))
            + ") ENGINE = MergeTree()\n"
            + ("PARTITION BY toYYYYMM(" + QuoteIdent(d.partitionBy) + ")\n")
            + ("ORDER BY (" + (QuoteIdent(b.name) + ", " + QuoteIdent(a.name)) + ")\n")
            + ("TTL " + QuoteIdent(d.partitionBy) + " + INTERVAL " + Decimal.Print(d.ttlDays) + " DAY\n")
  {
    hide QuoteIdent, TrimNewlines, Decimal.Print, ColumnLine, ColumnLines, JoinIdents;
    TwoLines(INDENT, a, b);
    RequiredLine(INDENT, a, true);
    NullableLine(INDENT, b, false);
    TwoIdents(b.name, a.name);
    TtlEnds(d);
    TrimOneNewline(CreateText(d));
  }

  /** With nothing set, as for a dataset made from a sample without a time field. */
  lemma BareStatement(d: Dataset, a: Column)
    requires d.columns == [a] && !a.nullable && d.orderBy == [] && d.partitionBy == "" && d.ttlDays <= 0
    ensures GenerateDdl(d) + "\n" ==
            "CREATE TABLE IF NOT EXISTS " + QuoteIdent(d.name) + " (\n"
            + ("    " + QuoteIdent(a.name) + " " + a.typ + "" + "\n")
            + ") ENGINE = MergeTree()\n" + "" + "ORDER BY tuple()\n" + ""
  {
    hide QuoteIdent, TrimNewlines, ColumnLine, ColumnLines;
    OneLine(INDENT, a);
    RequiredLine(INDENT, a, false);
    BareEnds(d);
    assert PartitionText(d) == "" && OrderText(d) == "ORDER BY tuple()\n" && TtlText(d) == "";
    TrimOneNewline(CreateText(d));
  }

  lemma AlterStatement(name: string, a: Column, b: Column)
    requires a.nullable && !b.nullable && b.typ != "" && b.typ[|b.typ| - 1] != '\n'
    ensures GenerateAlterDdl(name, [a, b]) + "\n" ==
            "ALTER TABLE " + QuoteIdent(name) + "\n"
            + (("    ADD COLUMN " + QuoteIdent(a.name) + " " + ("Nullable(" + a.typ + ")") + "," + "\n")
               + ("    ADD COLUMN " + QuoteIdent(b.name) + " " + b.typ + "" + "\n"))
  {
    hide QuoteIdent, TrimNewlines, ColumnLine, ColumnLines;
    TwoLines(ADD, a, b);
    NullableLine(ADD, a, true);
    RequiredLine(ADD, b, false);
    TrimOneNewline(AlterText(name, [a, b]));
  }
}
