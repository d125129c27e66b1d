/** The registry store: each operation reads, checks and then writes in one transaction. */
module SchemaRegistry {
  import opened Wrappers
  import opened Schema
  import opened RegistryModel
  import Lex

  class Store {
    var datasets: map<string, Dataset>
    var versions: map<(string, nat), Dataset>

    function View(): Registry
      reads this
    {
      Registry(datasets, versions)
    }

    constructor ()
      ensures View() == Registry(map[], map[])
    {
      datasets, versions := map[], map[];
    }

    function Get(name: string): Result<Dataset, SchemaError>
      reads this
    {
      if name in datasets then Ok(datasets[name]) else Err(NotFound(name))
    }

    /** The upsert is undone when the version row cannot be inserted. */
    method Persist(d: Dataset) returns (error: Option<SchemaError>)
      modifies this
      ensures (View(), error) == RegistryModel.Persist(old(View()), d)
      ensures error == None <==> (d.name, d.version) !in old(versions)
      ensures error.Some? ==> View() == old(View())
    {
      var before := datasets;
      datasets := datasets[d.name := d];
      if (d.name, d.version) in versions {
        datasets := before;
        return Some(VersionTaken(d.name, d.version));
      }
      versions := versions[(d.name, d.version) := d];
      return None;
    }

    method Create(d: Dataset, now: int) returns (r: Result<Dataset, SchemaError>)
      modifies this
      ensures (View(), r) == Perform(old(View()), CreateOp(d, now))
      ensures r.Ok? ==>
                && r.value == d.(version := 1, createdAt := now, updatedAt := now)
                && d.name !in old(datasets) && datasets == old(datasets)[d.name := r.value]
                && versions == old(versions)[(d.name, 1) := r.value]
      ensures r.Err? ==> View() == old(View())
    {
      var invalid := Validate(d);
      if invalid.Some? {
        return Err(invalid.value);
      }
      if Get(d.name).Ok? {
        return Err(AlreadyExists(d.name));
      }
      var created := d.(version := 1, createdAt := now, updatedAt := now);
      var error := Persist(created);
      return if error.Some? then Err(error.value) else Ok(created);
    }

    method AddColumns(name: string, newColumns: seq<Column>, now: int) returns (r: Result<Dataset, SchemaError>)
      modifies this
      ensures (View(), r) == Perform(old(View()), AddOp(name, newColumns, now))
      ensures r.Ok? ==>
                && name in old(datasets)
                && r.value.columns == old(datasets)[name].columns + newColumns
                && r.value.version == old(datasets)[name].version + 1 && r.value.updatedAt == now
                && SameSettings(r.value, old(datasets)[name])
                && datasets == old(datasets)[r.value.name := r.value]
                && versions == old(versions)[(r.value.name, r.value.version) := r.value]
      ensures r.Err? ==> View() == old(View())
    {
      var got := Get(name);
      if got.Err? {
        return got;
      }
      var current := got.value;
      var next := current.(columns := current.columns + newColumns, version := current.version + 1, updatedAt := now);
      var invalid := Validate(next);
      if invalid.Some? {
        return Err(invalid.value);
      }
      var incompatible := CompatibilityError(current.columns, next.columns);
      if incompatible.Some? {
        return Err(incompatible.value);
      }
      var error := Persist(next);
      return if error.Some? then Err(error.value) else Ok(next);
    }

    /** The second result says whether the dataset was created just now. */
    method EnsureDataset(name: string, sample: map<string, Json>, now: int)
      returns (r: Result<Dataset, SchemaError>, created: bool)
      modifies this
      ensures name in old(datasets) ==> r == Ok(old(datasets)[name]) && !created && View() == old(View())
      ensures name !in old(datasets) ==>
                exists columns :: Inferred(sample, columns)
                  && (View(), r) == Perform(old(View()), CreateOp(AutoDataset(name, columns), now)) && created == r.Ok?
      ensures created ==>
                && r.Ok? && r.value.name == name && Inferred(sample, r.value.columns)
                && r.value.orderBy == (if RECEIVED_AT in sample then [RECEIVED_AT] else [])
                && r.value.partitionBy == "" && r.value.ttlDays == 0 && r.value.version == 1
                && datasets == old(datasets)[name := r.value]
      ensures !created && name !in old(datasets) ==> r.Err? && View() == old(View())
    {
      if name in datasets {
        return Ok(datasets[name]), false;
      }
      var columns := InferColumns(sample);
      var orderBy: seq<string> := [];
      var i := 0;
      while i < |columns|
        invariant i <= |columns|
        invariant forall k :: 0 <= k < i ==> columns[k].name != RECEIVED_AT
        invariant orderBy == []
      {
        if columns[i].name == RECEIVED_AT {
          orderBy := [RECEIVED_AT];
          break;
        }
        i := i + 1;
      }
      assert orderBy == if Find(columns, RECEIVED_AT).Some? then [RECEIVED_AT] else [];
      InferredFinds(sample, columns, RECEIVED_AT);
      r := Create(Dataset(name, columns, orderBy, "", 0, 0, 0, 0), now);
      created := r.Ok?;
    }
  }

  const RECEIVED_AT := "received_at_unix_ms"

  /** An inferred dataset sorts by reception time when the sample has it, and is not partitioned. */
  function AutoDataset(name: string, columns: seq<Column>): Dataset {
    Dataset(name, columns, if Find(columns, RECEIVED_AT).Some? then [RECEIVED_AT] else [], "", 0, 0, 0, 0)
  }

  /** An inference has a column for a name exactly when the sample has a field of that name. */
  lemma InferredFinds(sample: map<string, Json>, columns: seq<Column>, name: string)
    requires Inferred(sample, columns)
    ensures Find(columns, name).Some? <==> name in sample
  {
    hide Lex.Less;
    if name in sample {
      assert Defined(columns, name);
    }
  }

  /**
   * First ingestion of an unknown dataset succeeds exactly when it has a name, the sample has a field,
   * and no field has an empty name.
   */
  lemma AutoCreationExactly(reg: Registry, name: string, sample: map<string, Json>, columns: seq<Column>, now: int)
    requires OneChain(reg) && name !in reg.datasets && Inferred(sample, columns)
    ensures Perform(reg, CreateOp(AutoDataset(name, columns), now)).1.Ok? <==>
            name != "" && sample != map[] && "" !in sample
  {
    hide ValidationError, Lex.Less;
    var d := AutoDataset(name, columns);
    ValidationExactly(d);
    InferredIsDistinct(sample, columns);
    assert (name, 1) !in reg.versions;
    if columns != [] {
      assert columns[0] in columns;
    }
    if sample != map[] {
      var n :| n in sample;
      assert Defined(columns, n);
    }
    if "" in sample {
      assert Defined(columns, "");
    }
    forall c | c in columns ensures c.typ != "" {
      assert c == InferColumn(c.name, sample[c.name]);
    }
  }
}
