/**
 * The "Properties from CSV" panel: the entries of the compound's CSV row that are shown,
 * which excludes identifier, name, structure and SMILES-like keys and empty values.
 */
module CsvProperties {
  import opened JsValue
  import opened Text
  import opened Evaluate

  /** A CSV row's entries in `Object.entries` order; keys are distinct. */
  type Entries = seq<(string, Val)>

  predicate DistinctKeys(entries: Entries) {
    forall i, j | 0 <= i < j < |entries| :: entries[i].0 != entries[j].0
  }

  function Keys(entries: Entries): seq<string> {
    if entries == [] then [] else [entries[0].0] + Keys(entries[1..])
  }

  /** `location.state?.idColumn || "cmpd_id"`, with "" standing for a missing or empty value. */
  function ColumnOr(arg: string, default: string): string {
    if arg == "" then default else arg
  }

  /** One basic field's test in `isBasicField`. */
  predicate FieldMatches(k: string, field: string, idColumn: string, smilesColumn: string) {
    || k == Lower(field)
    || (field != idColumn && field != smilesColumn && Named(k))
  }

  /** `isBasicField`, as written: `basicFields.some(...)` with the key lower-cased. */
  predicate IsBasicField(key: string, idColumn: string, smilesColumn: string) {
    var fields := [idColumn, smilesColumn, "id", "smiles", "structure"];
    exists i | 0 <= i < |fields| :: FieldMatches(Lower(key), fields[i], idColumn, smilesColumn)
  }

  lemma LowerLiterals()
    ensures Lower("id") == "id" && Lower("smiles") == "smiles" && Lower("structure") == "structure"
  {
    LowerOfLowerCase("id");
    LowerOfLowerCase("smiles");
    LowerOfLowerCase("structure");
  }

  /** The key names an id, a name or SMILES. */
  predicate Named(k: string) {
    Contains(k, "id") || Contains(k, "name") || Contains(k, "smiles")
  }

  lemma BasicFieldOnlyIf(key: string, idColumn: string, smilesColumn: string)
    requires IsBasicField(key, idColumn, smilesColumn)
    ensures var k := Lower(key);
      k == Lower(idColumn) || k == Lower(smilesColumn) || k == "structure" || Named(k)
  {
    var fields := [idColumn, smilesColumn, "id", "smiles", "structure"];
    var k := Lower(key);
    var i :| 0 <= i < |fields| && FieldMatches(k, fields[i], idColumn, smilesColumn);
    assert fields[i] == idColumn || fields[i] == smilesColumn || fields[i] == "id" || fields[i] == "smiles" || fields[i] == "structure";
    LiteralFieldMatches(k, fields[i], idColumn, smilesColumn);
  }

  /** A match against one of the fixed field names is "structure" or a named key. */
  lemma LiteralFieldMatches(k: string, field: string, idColumn: string, smilesColumn: string)
    requires field == idColumn || field == smilesColumn || field == "id" || field == "smiles" || field == "structure"
    requires FieldMatches(k, field, idColumn, smilesColumn)
    ensures k == Lower(idColumn) || k == Lower(smilesColumn) || k == "structure" || Named(k)
  {
    if k == Lower(field) && field != idColumn && field != smilesColumn {
      LowerLiterals();
      if field == "id" {
        ContainsItself("id");
      } else if field == "smiles" {
        ContainsItself("smiles");
      }
    }
  }

  lemma BasicFieldIf(key: string, idColumn: string, smilesColumn: string)
    requires var k := Lower(key);
      k == Lower(idColumn) || k == Lower(smilesColumn) || k == "structure" || Named(k)
    ensures IsBasicField(key, idColumn, smilesColumn)
  {
    var fields := [idColumn, smilesColumn, "id", "smiles", "structure"];
    var k := Lower(key);
    LowerLiterals();
    var free := if fields[2] != idColumn && fields[2] != smilesColumn then 2
                else if fields[3] != idColumn && fields[3] != smilesColumn then 3
                else 4;
    var w := if k == Lower(idColumn) then 0 else if k == Lower(smilesColumn) then 1
             else if k == "structure" then 4 else free;
    assert FieldMatches(k, fields[w], idColumn, smilesColumn);
  }

  /**
   * Since at most two of "id", "smiles", "structure" can be one of the columns, the test
   * amounts to: the key equals a column, or "structure", ignoring case, or contains "id",
   * "name" or "smiles" in lower case.
   */
  lemma IsBasicFieldSimplified(key: string, idColumn: string, smilesColumn: string)
    ensures var k := Lower(key);
      IsBasicField(key, idColumn, smilesColumn) <==>
        k == Lower(idColumn) || k == Lower(smilesColumn) || k == "structure" || Named(k)
  {
    var k := Lower(key);
    if IsBasicField(key, idColumn, smilesColumn) {
      BasicFieldOnlyIf(key, idColumn, smilesColumn);
    }
    if k == Lower(idColumn) || k == Lower(smilesColumn) || k == "structure" || Named(k) {
      BasicFieldIf(key, idColumn, smilesColumn);
    }
  }

  /** An entry is shown when its key is not basic and its value is not `undefined`, `null` or ''. */
  predicate Shown(key: string, value: Val, idColumn: string, smilesColumn: string) {
    !IsBasicField(key, idColumn, smilesColumn) && value != Absent && value != Null && value != Str("")
  }

  /** `propertyNames` and `properties`. */
  datatype Properties = Properties(names: seq<string>, values: map<string, Val>)

  /** The `forEach` over the entries. */
  function Extract(entries: Entries, idColumn: string, smilesColumn: string): (p: Properties)
    ensures forall k | k in p.names :: k in p.values
    ensures forall k | k in p.values :: k in p.names
  {
    if entries == [] then Properties([], map[])
    else
      var rest := Extract(entries[1..], idColumn, smilesColumn);
      var (k, v) := entries[0];
      if Shown(k, v, idColumn, smilesColumn) then Properties([k] + rest.names, rest.values[k := v])
      else rest
  }

  /** A key is shown exactly when some entry carries it with a value that is shown. */
  lemma {:induction false} ExtractShown(entries: Entries, idColumn: string, smilesColumn: string)
    ensures forall k :: k in Extract(entries, idColumn, smilesColumn).values <==>
      exists i | 0 <= i < |entries| :: entries[i].0 == k && Shown(k, entries[i].1, idColumn, smilesColumn)
  {
    if entries != [] {
      var tail := entries[1..];
      ExtractShown(tail, idColumn, smilesColumn);
      var p := Extract(entries, idColumn, smilesColumn);
      var rest := Extract(tail, idColumn, smilesColumn);
      var (k0, v0) := entries[0];
      assert rest.values.Keys <= p.values.Keys;
      forall k
        ensures k in p.values <==> exists i | 0 <= i < |entries| :: entries[i].0 == k && Shown(k, entries[i].1, idColumn, smilesColumn)
      {
        if k in p.values {
          if k in rest.values {
            var j :| 0 <= j < |tail| && tail[j].0 == k && Shown(k, tail[j].1, idColumn, smilesColumn);
            assert entries[j + 1] == tail[j];
          } else {
            assert k == k0 && Shown(k0, v0, idColumn, smilesColumn);
            assert entries[0].0 == k && Shown(k, entries[0].1, idColumn, smilesColumn);
          }
        }
        if exists i | 0 <= i < |entries| :: entries[i].0 == k && Shown(k, entries[i].1, idColumn, smilesColumn) {
          var i :| 0 <= i < |entries| && entries[i].0 == k && Shown(k, entries[i].1, idColumn, smilesColumn);
          if i > 0 {
            assert tail[i - 1] == entries[i];
            assert k in rest.values;
          }
        }
      }
    }
  }

  /** Shown names keep the entries' (`Object.entries`) order, each shown entry maps to its own value, and no name repeats. */
  lemma {:induction false} ExtractKeepsOrderAndValues(entries: Entries, idColumn: string, smilesColumn: string)
    requires DistinctKeys(entries)
    ensures var p := Extract(entries, idColumn, smilesColumn);
      && IsSubseq(p.names, Keys(entries))
      && (forall i | 0 <= i < |entries| && Shown(entries[i].0, entries[i].1, idColumn, smilesColumn) ::
            entries[i].0 in p.values && p.values[entries[i].0] == entries[i].1)
      && (forall i, j | 0 <= i < j < |p.names| :: p.names[i] != p.names[j])
  {
    if entries != [] {
      var tail := entries[1..];
      assert DistinctKeys(tail) by {
        forall i, j | 0 <= i < j < |tail| ensures tail[i].0 != tail[j].0 {
          assert tail[i] == entries[i + 1] && tail[j] == entries[j + 1];
        }
      }
      ExtractKeepsOrderAndValues(tail, idColumn, smilesColumn);
      var rest := Extract(tail, idColumn, smilesColumn);
      var p := Extract(entries, idColumn, smilesColumn);
      var k := entries[0].0;
      assert Keys(entries) == [k] + Keys(tail);
      ExtractShown(tail, idColumn, smilesColumn);
      ExtractShown(entries, idColumn, smilesColumn);
      assert forall j | 0 <= j < |tail| :: tail[j] == entries[j + 1];
      assert k !in rest.values;
      if Shown(k, entries[0].1, idColumn, smilesColumn) {
        assert p.names == [k] + rest.names;
        assert p.names[0] == k && p.names[1..] == rest.names;
        forall i, j | 0 <= i < j < |p.names| ensures p.names[i] != p.names[j] {
          if i == 0 {
            assert p.names[j] == rest.names[j - 1];
            assert p.names[j] in rest.names;
          }
        }
      }
      forall i | 0 <= i < |entries| && Shown(entries[i].0, entries[i].1, idColumn, smilesColumn)
        ensures entries[i].0 in p.values && p.values[entries[i].0] == entries[i].1
      {
        if i > 0 {
          assert entries[i] == tail[i - 1];
          assert entries[i].0 != k;
        }
      }
    }
  }

  /**
   * The effect on the compound's CSV row: nothing without one; otherwise the extraction with
   * the column names defaulted. A key is shown exactly when some entry carries it with a
   * non-basic key and a value other than `undefined`, `null` and ''; so no shown key is a
   * column, "structure", or id/name/SMILES-like. The shown names are exactly the keys with a
   * value. With distinct keys the shown names keep the order of `Object.entries(sourceData)`,
   * without repeats, each mapped to its own value.
   */
  function ShowProperties(sourceData: Entries, present: bool, idArg: string, smilesArg: string, prior: Properties): (p: Properties)
    ensures !present ==> p == prior
    ensures present ==> forall k | k in p.values ::
      var lk := Lower(k);
      lk != Lower(ColumnOr(idArg, "cmpd_id")) && lk != Lower(ColumnOr(smilesArg, "SMILES")) && lk != "structure" && !Named(lk)
    ensures present ==> forall k :: k in p.names <==> k in p.values
    ensures present ==> forall k :: k in p.values <==>
      exists i | 0 <= i < |sourceData| :: sourceData[i].0 == k && Shown(k, sourceData[i].1, ColumnOr(idArg, "cmpd_id"), ColumnOr(smilesArg, "SMILES"))
    ensures present && DistinctKeys(sourceData) ==>
      && IsSubseq(p.names, Keys(sourceData))
      && (forall i, j | 0 <= i < j < |p.names| :: p.names[i] != p.names[j])
      && (forall i | 0 <= i < |sourceData| && Shown(sourceData[i].0, sourceData[i].1, ColumnOr(idArg, "cmpd_id"), ColumnOr(smilesArg, "SMILES")) ::
            sourceData[i].0 in p.values && p.values[sourceData[i].0] == sourceData[i].1)
  {
    if present then
      var idColumn := ColumnOr(idArg, "cmpd_id");
      var smilesColumn := ColumnOr(smilesArg, "SMILES");
      var p := Extract(sourceData, idColumn, smilesColumn);
      ExtractShown(sourceData, idColumn, smilesColumn);
      assert forall k | k in p.values :: !IsBasicField(k, idColumn, smilesColumn);
      forall k | k in p.values
        ensures var lk := Lower(k);
          lk != Lower(idColumn) && lk != Lower(smilesColumn) && lk != "structure" && !Named(lk)
      {
        IsBasicFieldSimplified(k, idColumn, smilesColumn);
      }
      if DistinctKeys(sourceData) then
        ExtractKeepsOrderAndValues(sourceData, idColumn, smilesColumn);
        p
      else p
    else prior
  }
}
