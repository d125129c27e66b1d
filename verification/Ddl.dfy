/** Writing the statements into a buffer, and what a table has become after a dataset's whole history. */
module Ddl {
  import opened Wrappers
  import opened Schema
  import Decimal
  import opened DdlModel
  import opened RegistryModel

  lemma NextLine(prefix: string, columns: seq<Column>, i: nat)
    requires i < |columns|
    ensures ColumnLines(prefix, columns[i..])
         == ColumnLine(prefix, columns[i], i < |columns| - 1) + ColumnLines(prefix, columns[i + 1..])
  {
    hide ColumnLine;
    assert columns[i..][1..] == columns[i + 1..];
  }

  method WriteColumns(prefix: string, columns: seq<Column>) returns (b: string)
    ensures b == ColumnLines(prefix, columns)
  {
    hide QuoteIdent, ColumnLines;
    b := "";
    var i := 0;
    assert columns[0..] == columns;
    while i < |columns|
      invariant i <= |columns|
      invariant ColumnLines(prefix, columns) == b + ColumnLines(prefix, columns[i..])
    {
      var col := columns[i];
      var colType := col.typ;
      if col.nullable {
        colType := "Nullable(" + colType + ")";
      }
      var sep := ",";
      if i == |columns| - 1 {
        sep := "";
      }
      NextLine(prefix, columns, i);
      b := b + (prefix + QuoteIdent(col.name) + " " + colType + sep + "\n");
      i := i + 1;
    }
    assert ColumnLines(prefix, columns[i..]) == "" by { NoLines(prefix, columns[i..]); }
  }

  lemma NoLines(prefix: string, columns: seq<Column>)
    requires columns == []
    ensures ColumnLines(prefix, columns) == ""
  {}

  lemma NextIdent(names: seq<string>, i: nat)
    requires i < |names|
    ensures JoinIdents(names[i..])
         == QuoteIdent(names[i]) + (if i + 1 < |names| then ", " else "") + JoinIdents(names[i + 1..])
  {
    hide QuoteIdent;
    assert names[i..][1..] == names[i + 1..];
  }

  method WriteIdents(names: seq<string>) returns (b: string)
    ensures b == JoinIdents(names)
  {
    hide QuoteIdent;
    b := "";
    var i := 0;
    assert names[0..] == names;
    while i < |names|
      invariant i <= |names|
      invariant JoinIdents(names) == b + JoinIdents(names[i..])
    {
      NextIdent(names, i);
      b := b + (QuoteIdent(names[i]) + if i + 1 < |names| then ", " else "");
      i := i + 1;
    }
  }

  method WriteDdl(d: Dataset) returns (statement: string)
    ensures statement == GenerateDdl(d)
  {
    hide QuoteIdent, ColumnLines, JoinIdents, TrimNewlines;
    var b := CREATE + QuoteIdent(d.name) + " (\n";
    var lines := WriteColumns(INDENT, d.columns);
    b := b + lines + ENGINE;
    if d.partitionBy != "" {
      b := b + (PARTITION + QuoteIdent(d.partitionBy) + ")\n");
    }
    if |d.orderBy| > 0 {
      var names := WriteIdents(d.orderBy);
      b := b + ("ORDER BY (" + names + ")\n");
    } else {
      b := b + "ORDER BY tuple()\n";
    }
    if d.ttlDays > 0 {
      b := b + ("TTL " + QuoteIdent(d.partitionBy) + " + INTERVAL " + Decimal.Print(d.ttlDays) + " DAY\n");
    }
    assert b == CreateText(d);
    statement := TrimNewlines(b);
  }

  method WriteAlterDdl(name: string, newColumns: seq<Column>) returns (statement: string)
    ensures statement == GenerateAlterDdl(name, newColumns)
  {
    hide QuoteIdent, ColumnLines, TrimNewlines;
    var lines := WriteColumns(ADD, newColumns);
    statement := TrimNewlines(ALTER + QuoteIdent(name) + "\n" + lines);
  }

  // ---------------------------------------------------------------- a table through its history

  /** The columns that version v + 1 added to version v. */
  function Added(reg: Registry, name: string, v: nat): seq<Column>
    requires (name, v) in reg.versions && (name, v + 1) in reg.versions
  {
    var before, after := reg.versions[(name, v)].columns, reg.versions[(name, v + 1)].columns;
    if |before| <= |after| then after[|before|..] else []
  }

  /**
   * The table after the first version's CREATE and every later version's ALTER, as a reader sees them. A
   * statement that cannot be read leaves the table as it is.
   */
  function TableAt(reg: Registry, name: string, v: nat): Option<Table>
    requires v >= 1 && forall k: nat :: 1 <= k <= v ==> (name, k) in reg.versions
  {
    if v == 1 then ReadCreate(GenerateDdl(reg.versions[(name, 1)]))
    else
      match (TableAt(reg, name, v - 1), ReadAlter(GenerateAlterDdl(name, Added(reg, name, v - 1))))
      case (Some(t), Some((n, columns))) => Some(if n == t.name then t.(columns := t.columns + columns) else t)
      case (t, _) => t
  }

  /** The columns of version 1, and those that each later version added, could be put into one statement. */
  ghost predicate BatchesPlain(reg: Registry, name: string, v: nat)
    requires v >= 1 && forall k: nat :: 1 <= k <= v ==> (name, k) in reg.versions
  {
    if v == 1 then AllPlain(reg.versions[(name, 1)].columns)
    else BatchesPlain(reg, name, v - 1) && AllPlain(Added(reg, name, v - 1))
  }

  lemma AddedIsRest(reg: Registry, name: string, v: nat)
    requires OneChain(reg) && 1 <= v < Latest(reg, name)
    ensures (name, v) in reg.versions && (name, v + 1) in reg.versions
    ensures var before, after := reg.versions[(name, v)], reg.versions[(name, v + 1)];
            && after.columns == before.columns + Added(reg, name, v)
            && SameSettings(before, after)
  {
    assert Row(reg, name, v) && Row(reg, name, v + 1);
    assert Link(reg, name, v);
  }

  lemma VersionsExist(reg: Registry, name: string, v: nat)
    requires OneChain(reg) && v <= Latest(reg, name)
    ensures forall k: nat :: 1 <= k <= v ==>
              (name, k) in reg.versions && WellFormed(reg.versions[(name, k)]) && reg.versions[(name, k)].name == name
  {
    forall k: nat | 1 <= k <= v
      ensures (name, k) in reg.versions && WellFormed(reg.versions[(name, k)]) && reg.versions[(name, k)].name == name
    {
      assert Row(reg, name, k);
    }
  }

  /** With plain batches, empty ones included, the table keeps up with the history. */
  lemma {:induction false} TableKeepsUp(reg: Registry, name: string, v: nat)
    requires OneChain(reg) && 1 <= v <= Latest(reg, name)
    requires forall k: nat :: 1 <= k <= v ==> (name, k) in reg.versions
    requires BatchesPlain(reg, name, v)
    ensures TableAt(reg, name, v) == Some(TableOf(reg.versions[(name, v)]))
  {
    hide ReadCreate, ReadAlter, GenerateDdl, GenerateAlterDdl, WellFormed, AllPlain, OneChain;
    VersionsExist(reg, name, v);
    var d := reg.versions[(name, v)];
    if v == 1 {
      CreateReadsBack(d);
    } else {
      TableKeepsUp(reg, name, v - 1);
      AddedIsRest(reg, name, v - 1);
      var before, added := reg.versions[(name, v - 1)], Added(reg, name, v - 1);
      AlterReadsBack(name, added);
      NothingIsLegible();
      assert before.columns + [] == before.columns;
    }
  }

  lemma NothingIsLegible()
    ensures AllLegible([])
  {}

  /** With legible columns the table never has more than the definition, and fewer once a batch was not plain. */
  lemma {:induction false} TableLags(reg: Registry, name: string, v: nat)
    requires OneChain(reg) && 1 <= v <= Latest(reg, name)
    requires forall k: nat :: 1 <= k <= v ==> (name, k) in reg.versions
    requires AllLegible(reg.versions[(name, v)].columns)
    ensures match TableAt(reg, name, v)
            case Some(t) =>
              && |t.columns| <= |reg.versions[(name, v)].columns|
              && (!BatchesPlain(reg, name, v) ==> |t.columns| < |reg.versions[(name, v)].columns|)
            case None => true
  {
    hide ReadCreate, ReadAlter, GenerateDdl, GenerateAlterDdl, WellFormed, AllPlain, OneChain;
    VersionsExist(reg, name, v);
    var d := reg.versions[(name, v)];
    if v == 1 {
      CreateReadsBack(d);
    } else {
      AddedIsRest(reg, name, v - 1);
      var before, added := reg.versions[(name, v - 1)], Added(reg, name, v - 1);
      LegibleParts(before.columns, added);
      TableLags(reg, name, v - 1);
      AlterReadsBack(name, added);
      NothingIsPlain();
    }
  }

  lemma NothingIsPlain()
    ensures AllPlain([])
  {}

  lemma LegibleParts(a: seq<Column>, b: seq<Column>)
    ensures AllLegible(a + b) <==> AllLegible(a) && AllLegible(b)
  {
    if AllLegible(a + b) {
      assert forall i :: 0 <= i < |a| ==> a[i] == (a + b)[i];
      assert forall i :: 0 <= i < |b| ==> b[i] == (a + b)[|a| + i];
    }
  }

  /** Every column a reader ever puts into the table is legible. */
  lemma {:induction false} TableIsLegible(reg: Registry, name: string, v: nat)
    requires v >= 1 && forall k: nat :: 1 <= k <= v ==> (name, k) in reg.versions
    ensures match TableAt(reg, name, v) case Some(t) => AllLegible(t.columns) case None => true
  {
    hide ReadCreate, ReadAlter, GenerateDdl, GenerateAlterDdl, AllPlain, AllLegible;
    if v == 1 {
      var statement := GenerateDdl(reg.versions[(name, 1)]);
      CreatedArePlain(statement);
      if ReadCreate(statement).Some? {
        PlainIsLegible(ReadCreate(statement).value.columns);
      }
    } else {
      TableIsLegible(reg, name, v - 1);
      var statement := GenerateAlterDdl(name, Added(reg, name, v - 1));
      AlteredArePlain(statement);
      match (TableAt(reg, name, v - 1), ReadAlter(statement)) {
        case (Some(t), Some((_, columns))) => PlainIsLegible(columns); LegibleParts(t.columns, columns);
        case _ =>
      }
    }
  }

  /**
   * After any history, evolutions without a column included, the table is what the latest definition
   * says if and only if the columns of version 1 and those of every evolution were plain.
   */
  lemma TableFollowsHistory(reg: Registry, name: string, v: nat)
    requires OneChain(reg) && 1 <= v <= Latest(reg, name)
    ensures forall k: nat :: 1 <= k <= v ==> (name, k) in reg.versions
    ensures TableAt(reg, name, v) == Some(TableOf(reg.versions[(name, v)])) <==> BatchesPlain(reg, name, v)
  {
    hide OneChain, TableAt, BatchesPlain, AllLegible;
    VersionsExist(reg, name, v);
    if BatchesPlain(reg, name, v) {
      TableKeepsUp(reg, name, v);
    } else if TableAt(reg, name, v) == Some(TableOf(reg.versions[(name, v)])) {
      TableIsLegible(reg, name, v);
      TableLags(reg, name, v);
      assert false;
    }
  }
}
