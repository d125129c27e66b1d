/** Dataset definitions: validation, backward compatibility and inference from a sample record. */
module Schema {
  import opened Wrappers
  import Lex

  datatype Column = Column(name: string, typ: string, nullable: bool)

  datatype Dataset = Dataset(
    name: string, columns: seq<Column>, orderBy: seq<string>, partitionBy: string, ttlDays: int,
    version: nat, createdAt: int, updatedAt: int)

  datatype SchemaError =
    | NameRequired | NoColumns | ColumnIncomplete | DuplicateColumn(name: string)
    | OrderByUndefined(name: string) | PartitionUndefined(name: string) | TtlNeedsPartition
    | ColumnRemoved(name: string) | ColumnRetyped(name: string) | ColumnMadeRequired(name: string)
    | AlreadyExists(name: string) | NotFound(name: string) | VersionTaken(name: string, version: nat)

  /** The first column of that name. */
  function Find(columns: seq<Column>, name: string): (r: Option<Column>)
    ensures r.Some? ==> r.value in columns && r.value.name == name
    ensures r.None? ==> forall c :: c in columns ==> c.name != name
  {
    if columns == [] then None
    else if columns[0].name == name then Some(columns[0])
    else Find(columns[1..], name)
  }

  ghost predicate Distinct(columns: seq<Column>) {
    forall i, j :: 0 <= i < j < |columns| ==> columns[i].name != columns[j].name
  }

  ghost predicate Defined(columns: seq<Column>, name: string) { exists c :: c in columns && c.name == name }

  /** What validation is for: a definition that is consistent in itself. */
  ghost predicate WellFormed(d: Dataset) {
    && d.name != ""
    && d.columns != []
    && (forall c :: c in d.columns ==> c.name != "" && c.typ != "")
    && Distinct(d.columns)
    && (forall o :: o in d.orderBy ==> Defined(d.columns, o))
    && (d.partitionBy != "" ==> Defined(d.columns, d.partitionBy))
    && (d.ttlDays > 0 ==> d.partitionBy != "")
  }

  // ---------------------------------------------------------------- validation

  /** The checks in their order; the first one that fails is reported. */
  function ColumnError(columns: seq<Column>, i: nat): Option<SchemaError>
    requires i <= |columns|
    decreases |columns| - i
  {
    if i == |columns| then None
    else if columns[i].name == "" || columns[i].typ == "" then Some(ColumnIncomplete)
    else if Find(columns[..i], columns[i].name).Some? then Some(DuplicateColumn(columns[i].name))
    else ColumnError(columns, i + 1)
  }

  function OrderByError(columns: seq<Column>, orderBy: seq<string>, i: nat): Option<SchemaError>
    requires i <= |orderBy|
    decreases |orderBy| - i
  {
    if i == |orderBy| then None
    else if Find(columns, orderBy[i]).None? then Some(OrderByUndefined(orderBy[i]))
    else OrderByError(columns, orderBy, i + 1)
  }

  function ValidationError(d: Dataset): Option<SchemaError> {
    if d.name == "" then Some(NameRequired)
    else if d.columns == [] then Some(NoColumns)
    else if ColumnError(d.columns, 0).Some? then ColumnError(d.columns, 0)
    else if OrderByError(d.columns, d.orderBy, 0).Some? then OrderByError(d.columns, d.orderBy, 0)
    else if d.partitionBy != "" && Find(d.columns, d.partitionBy).None? then Some(PartitionUndefined(d.partitionBy))
    else if d.ttlDays > 0 && d.partitionBy == "" then Some(TtlNeedsPartition)
    else None
  }

  /** A column is complete and its name is not that of an earlier one. */
  ghost predicate ColumnFine(columns: seq<Column>, j: nat)
    requires j < |columns|
  {
    columns[j].name != "" && columns[j].typ != "" && forall k :: 0 <= k < j ==> columns[k].name != columns[j].name
  }

  lemma {:induction false} ColumnErrorExactly(columns: seq<Column>, i: nat)
    requires i <= |columns|
    ensures ColumnError(columns, i) == None <==>
            forall j :: i <= j < |columns| ==> ColumnFine(columns, j)
    decreases |columns| - i
  {
    hide Find;
    if i < |columns| {
      NameIsNew(columns, i);
      ColumnErrorExactly(columns, i + 1);
      assert ColumnError(columns, i) == None <==> ColumnFine(columns, i) && ColumnError(columns, i + 1) == None;
      hide ColumnFine;
    }
  }

  lemma NameIsNew(columns: seq<Column>, i: nat)
    requires i < |columns|
    ensures Find(columns[..i], columns[i].name).None? <==> forall k :: 0 <= k < i ==> columns[k].name != columns[i].name
  {
    var front := columns[..i];
    if Find(front, columns[i].name).None? {
      forall k | 0 <= k < i ensures columns[k].name != columns[i].name {
        assert front[k] in front;
      }
    }
  }

  lemma {:induction false} OrderByErrorExactly(columns: seq<Column>, orderBy: seq<string>, i: nat)
    requires i <= |orderBy|
    ensures OrderByError(columns, orderBy, i) == None <==>
            forall j :: i <= j < |orderBy| ==> Defined(columns, orderBy[j])
    decreases |orderBy| - i
  {
    if i < |orderBy| {
      OrderByErrorExactly(columns, orderBy, i + 1);
    }
  }

  /** Validation accepts exactly the consistent definitions. */
  lemma ValidationExactly(d: Dataset)
    ensures ValidationError(d) == None <==> WellFormed(d)
  {
    ColumnErrorExactly(d.columns, 0);
    OrderByErrorExactly(d.columns, d.orderBy, 0);
    if ValidationError(d) == None {
      forall c | c in d.columns ensures c.name != "" && c.typ != "" {
        var i :| 0 <= i < |d.columns| && d.columns[i] == c;
        assert ColumnFine(d.columns, i);
      }
      forall i, j | 0 <= i < j < |d.columns| ensures d.columns[i].name != d.columns[j].name {
        assert ColumnFine(d.columns, j);
      }
    }
    if WellFormed(d) {
      assert forall j :: 0 <= j < |d.columns| ==> d.columns[j] in d.columns;
      assert forall j :: 0 <= j < |d.orderBy| ==> d.orderBy[j] in d.orderBy;
    }
  }

  lemma {:induction false} FirstColumnError(columns: seq<Column>, i: nat, bad: nat)
    requires i <= bad < |columns| && !ColumnFine(columns, bad)
    requires forall j :: i <= j < bad ==> ColumnFine(columns, j)
    ensures ColumnError(columns, i) ==
            Some(if columns[bad].name == "" || columns[bad].typ == "" then ColumnIncomplete
                 else DuplicateColumn(columns[bad].name))
    decreases bad - i
  {
    hide Find;
    NameIsNew(columns, i);
    assert i < bad ==> ColumnFine(columns, i);
    if i < bad {
      FirstColumnError(columns, i + 1, bad);
    }
  }

  lemma {:induction false} FirstOrderByError(columns: seq<Column>, orderBy: seq<string>, i: nat, bad: nat)
    requires i <= bad < |orderBy| && !Defined(columns, orderBy[bad])
    requires forall j :: i <= j < bad ==> Defined(columns, orderBy[j])
    ensures OrderByError(columns, orderBy, i) == Some(OrderByUndefined(orderBy[bad]))
    decreases bad - i
  {
    if i < bad {
      FirstOrderByError(columns, orderBy, i + 1, bad);
    }
  }

  /** The first column that is not fine decides what is reported, whatever else is wrong after it. */
  lemma ColumnReported(d: Dataset, bad: nat)
    requires d.name != "" && bad < |d.columns| && !ColumnFine(d.columns, bad)
    requires forall j :: 0 <= j < bad ==> ColumnFine(d.columns, j)
    ensures ValidationError(d) ==
            Some(if d.columns[bad].name == "" || d.columns[bad].typ == "" then ColumnIncomplete
                 else DuplicateColumn(d.columns[bad].name))
  {
    hide ColumnFine;
    FirstColumnError(d.columns, 0, bad);
  }

  /** With all columns fine, the first undefined order-by column is reported. */
  lemma OrderByReported(d: Dataset, bad: nat)
    requires d.name != "" && d.columns != [] && forall j :: 0 <= j < |d.columns| ==> ColumnFine(d.columns, j)
    requires bad < |d.orderBy| && !Defined(d.columns, d.orderBy[bad])
    requires forall j :: 0 <= j < bad ==> Defined(d.columns, d.orderBy[j])
    ensures ValidationError(d) == Some(OrderByUndefined(d.orderBy[bad]))
  {
    ColumnErrorExactly(d.columns, 0);
    FirstOrderByError(d.columns, d.orderBy, 0, bad);
  }

  /** Without a name or without columns nothing else is looked at; the partition is looked at last. */
  lemma OuterErrorsReported(d: Dataset)
    ensures d.name == "" ==> ValidationError(d) == Some(NameRequired)
    ensures d.name != "" && d.columns == [] ==> ValidationError(d) == Some(NoColumns)
    ensures WellFormed(d.(partitionBy := "", ttlDays := 0)) && !WellFormed(d) ==>
              ValidationError(d) ==
              Some(if d.partitionBy != "" then PartitionUndefined(d.partitionBy) else TtlNeedsPartition)
  {
    hide ColumnError, OrderByError, Distinct;
    var bare := d.(partitionBy := "", ttlDays := 0);
    ValidationExactly(bare);
    ValidationExactly(d);
    assert bare.name == d.name && bare.columns == d.columns && bare.orderBy == d.orderBy;
  }

  method Validate(d: Dataset) returns (r: Option<SchemaError>)
    ensures r == ValidationError(d)
  {
    if d.name == "" {
      return Some(NameRequired);
    }
    if d.columns == [] {
      return Some(NoColumns);
    }
    var seen: set<string> := {};
    var i := 0;
    while i < |d.columns|
      invariant i <= |d.columns|
      invariant seen == set c | c in d.columns[..i] :: c.name
      invariant ColumnError(d.columns, 0) == ColumnError(d.columns, i)
    {
      var c := d.columns[i];
      if c.name == "" || c.typ == "" {
        return Some(ColumnIncomplete);
      }
      if c.name in seen {
        return Some(DuplicateColumn(c.name));
      }
      seen := seen + {c.name};
      assert d.columns[..i + 1] == d.columns[..i] + [c];
      i := i + 1;
    }
    i := 0;
    while i < |d.orderBy|
      invariant i <= |d.orderBy|
      invariant OrderByError(d.columns, d.orderBy, 0) == OrderByError(d.columns, d.orderBy, i)
    {
      if Find(d.columns, d.orderBy[i]).None? {
        return Some(OrderByUndefined(d.orderBy[i]));
      }
      i := i + 1;
    }
    if d.partitionBy != "" {
      if Find(d.columns, d.partitionBy).None? {
        return Some(PartitionUndefined(d.partitionBy));
      }
    }
    if d.ttlDays > 0 && d.partitionBy == "" {
      return Some(TtlNeedsPartition);
    }
    return None;
  }

  // ---------------------------------------------------------------- compatibility

  function CompatibilityError(previous: seq<Column>, next: seq<Column>): Option<SchemaError> {
    if previous == [] then None
    else
      var o := previous[0];
      match Find(next, o.name)
      case None => Some(ColumnRemoved(o.name))
      case Some(n) =>
        if n.typ != o.typ then Some(ColumnRetyped(o.name))
        else if n.nullable != o.nullable && o.nullable then Some(ColumnMadeRequired(o.name))
        else CompatibilityError(previous[1..], next)
  }

  /** Every old column is still there with its type, and none has stopped accepting nulls. */
  ghost predicate Compatible(previous: seq<Column>, next: seq<Column>) {
    forall o :: o in previous ==>
      var n := Find(next, o.name);
      n.Some? && n.value.typ == o.typ && (o.nullable ==> n.value.nullable)
  }

  lemma {:induction false} CompatibilityExactly(previous: seq<Column>, next: seq<Column>)
    ensures CompatibilityError(previous, next) == None <==> Compatible(previous, next)
  {
    if previous != [] {
      CompatibilityExactly(previous[1..], next);
      assert previous == [previous[0]] + previous[1..];
      assert previous[0] in previous;
    }
  }

  /** The old column is in the next definition as Compatible asks. */
  ghost predicate Keeps(o: Column, next: seq<Column>) {
    var n := Find(next, o.name);
    n.Some? && n.value.typ == o.typ && (o.nullable ==> n.value.nullable)
  }

  /** The first old column that is not kept is reported: as removed, as retyped, or else as made required. */
  lemma {:induction false} CompatibilityReported(previous: seq<Column>, next: seq<Column>, bad: nat)
    requires bad < |previous| && !Keeps(previous[bad], next)
    requires forall j :: 0 <= j < bad ==> Keeps(previous[j], next)
    ensures var o := previous[bad];
            CompatibilityError(previous, next) ==
            Some(if forall c :: c in next ==> c.name != o.name then ColumnRemoved(o.name)
                 else if Find(next, o.name).value.typ != o.typ then ColumnRetyped(o.name)
                 else ColumnMadeRequired(o.name))
  {
    if bad > 0 {
      CompatibilityReported(previous[1..], next, bad - 1);
    }
  }

  lemma {:induction false} FindInDistinct(columns: seq<Column>, i: nat)
    requires i < |columns| && Distinct(columns)
    ensures Find(columns, columns[i].name) == Some(columns[i])
  {
    if i > 0 {
      assert columns[0].name != columns[i].name;
      FindInDistinct(columns[1..], i - 1);
    }
  }

  /** Appending columns is compatible whenever the result has no name twice. */
  lemma PrefixIsCompatible(previous: seq<Column>, next: seq<Column>)
    requires previous <= next && Distinct(next)
    ensures Compatible(previous, next) && CompatibilityError(previous, next) == None
  {
    forall o | o in previous ensures Find(next, o.name) == Some(o) {
      var i :| 0 <= i < |previous| && previous[i] == o;
      FindInDistinct(next, i);
    }
    CompatibilityExactly(previous, next);
  }

  // ---------------------------------------------------------------- inference

  datatype Json = JsonNull | JsonBool(b: bool) | JsonNumber(v: real) | JsonString(s: string) | JsonOther

  const TWO_TO_THE_63: real := 9223372036854775808.0

  function InferType(value: Json): string {
    match value
    case JsonNull => "String"
    case JsonBool(_) => "Bool"
    case JsonNumber(v) => if -TWO_TO_THE_63 <= v < TWO_TO_THE_63 && v.Floor as real == v then "Int64" else "Float64"
    case JsonString(_) => "String"
    case JsonOther => "String"
  }

  function InferColumn(name: string, value: Json): Column { Column(name, InferType(value), value.JsonNull?) }

  /** In name order, one column for each field of the sample. */
  ghost predicate Inferred(sample: map<string, Json>, columns: seq<Column>) {
    && (forall i, j :: 0 <= i < j < |columns| ==> Lex.Less(columns[i].name, columns[j].name))
    && (forall c :: c in columns ==> c.name in sample && c == InferColumn(c.name, sample[c.name]))
    && (forall name :: name in sample ==> Defined(columns, name))
  }

  /**
   * The type of a column, from the value alone: whole numbers in the 64-bit range are Int64, all other
   * numbers Float64, booleans Bool, everything else String; only null makes a column nullable.
   */
  predicate Fits(c: Column, value: Json) {
    && (c.typ == "Int64" <==>
          value.JsonNumber? && value.v == value.v.Floor as real && -TWO_TO_THE_63 <= value.v < TWO_TO_THE_63)
    && (c.typ == "Float64" <==>
          value.JsonNumber? && !(value.v == value.v.Floor as real && -TWO_TO_THE_63 <= value.v < TWO_TO_THE_63))
    && (c.typ == "Bool" <==> value.JsonBool?)
    && (c.typ == "String" <==> value.JsonNull? || value.JsonString? || value.JsonOther?)
    && (c.nullable <==> value.JsonNull?)
  }

  /** Every column of an inference fits the value of its field. */
  lemma InferredFits(sample: map<string, Json>, columns: seq<Column>)
    requires Inferred(sample, columns)
    ensures forall c :: c in columns ==> c.name in sample && Fits(c, sample[c.name])
  {
    hide Lex.Less;
    forall c | c in columns ensures c.name in sample && Fits(c, sample[c.name]) {
      TypesDiffer();
      assert c == InferColumn(c.name, sample[c.name]);
    }
  }

  lemma TypesDiffer()
    ensures |"Int64"| == 5 && |"Float64"| == 7 && |"Bool"| == 4 && |"String"| == 6
  {}

  /** The library sort, one element at a time: puts a column before the first one with a greater name. */
  method Insert(columns: seq<Column>, c: Column) returns (r: seq<Column>)
    requires forall i, j :: 0 <= i < j < |columns| ==> Lex.Less(columns[i].name, columns[j].name)
    requires forall x :: x in columns ==> x.name != c.name
    ensures forall i, j :: 0 <= i < j < |r| ==> Lex.Less(r[i].name, r[j].name)
    ensures forall x :: x in r <==> x in columns || x == c
  {
    var k := 0;
    while k < |columns| && Lex.Less(columns[k].name, c.name)
      invariant k <= |columns|
      invariant forall i :: 0 <= i < k ==> Lex.Less(columns[i].name, c.name)
    {
      k := k + 1;
    }
    if k < |columns| {
      assert columns[k] in columns;
      Lex.Connected(c.name, columns[k].name);
      forall j | k < j < |columns| ensures Lex.Less(c.name, columns[j].name) {
        Lex.Transitive(c.name, columns[k].name, columns[j].name);
      }
    }
    r := columns[..k] + [c] + columns[k..];
  }

  method InferColumns(sample: map<string, Json>) returns (columns: seq<Column>)
    ensures Inferred(sample, columns)
    ensures forall c :: c in columns ==> c.name in sample && Fits(c, sample[c.name])
  {
    columns := [];
    var left := sample.Keys;
    while left != {}
      invariant left <= sample.Keys
      invariant forall i, j :: 0 <= i < j < |columns| ==> Lex.Less(columns[i].name, columns[j].name)
      invariant forall c :: c in columns ==>
                  c.name in sample && c.name !in left && c == InferColumn(c.name, sample[c.name])
      invariant forall name :: name in sample && name !in left ==> Defined(columns, name)
      decreases |left|
    {
      var name :| name in left;
      ghost var before := columns;
      columns := Insert(columns, InferColumn(name, sample[name]));
      assert InferColumn(name, sample[name]) in columns;
      forall n | n in sample && n !in left - {name} ensures Defined(columns, n) {
        if n != name {
          assert Defined(before, n);
        }
      }
      left := left - {name};
    }
    InferredFits(sample, columns);
  }

  /** The result is determined by the sample, however the map is walked through. */
  lemma InferenceDeterministic(sample: map<string, Json>, a: seq<Column>, b: seq<Column>)
    requires Inferred(sample, a) && Inferred(sample, b)
    ensures a == b
  {
    SameLength(sample, a, b);
    forall i | 0 <= i < |a| ensures a[i] == b[i] {
      SameAt(sample, a, b, i);
    }
  }

  lemma InferredHas(sample: map<string, Json>, a: seq<Column>, b: seq<Column>, i: nat) returns (j: nat)
    requires Inferred(sample, a) && Inferred(sample, b) && i < |a|
    ensures j < |b| && b[j] == a[i]
  {
    assert a[i] in a;
    assert Defined(b, a[i].name);
    var c :| c in b && c.name == a[i].name;
    j :| 0 <= j < |b| && b[j] == c;
  }

  lemma {:induction false} SameAt(sample: map<string, Json>, a: seq<Column>, b: seq<Column>, i: nat)
    requires Inferred(sample, a) && Inferred(sample, b) && i < |a| && i < |b|
    ensures a[i] == b[i]
    decreases i
  {
    forall k | 0 <= k < i ensures a[k] == b[k] {
      SameAt(sample, a, b, k);
    }
    var j := InferredHas(sample, a, b, i);
    var k := InferredHas(sample, b, a, i);
    if j < i { Lex.Irreflexive(a[i].name); }
    if k < i { Lex.Irreflexive(b[i].name); }
    if i < j && i < k {
      Lex.Asymmetric(b[i].name, b[j].name);
    }
  }

  lemma SameLength(sample: map<string, Json>, a: seq<Column>, b: seq<Column>)
    requires Inferred(sample, a) && Inferred(sample, b)
    ensures |a| == |b|
  {
    if |a| < |b| {
      NoLonger(sample, a, b);
    } else if |b| < |a| {
      NoLonger(sample, b, a);
    }
  }

  lemma NoLonger(sample: map<string, Json>, a: seq<Column>, b: seq<Column>)
    requires Inferred(sample, a) && Inferred(sample, b)
    ensures |b| <= |a|
  {
    if |a| < |b| {
      var i := InferredHas(sample, b, a, |a|);
      SameAt(sample, a, b, i);
      Lex.Irreflexive(b[i].name);
    }
  }

  lemma InferredIsDistinct(sample: map<string, Json>, columns: seq<Column>)
    requires Inferred(sample, columns)
    ensures Distinct(columns)
  {
    forall i, j | 0 <= i < j < |columns| ensures columns[i].name != columns[j].name {
      Lex.Irreflexive(columns[i].name);
    }
  }
}
