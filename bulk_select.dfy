/**
 * bulk_select_model_dicts (django_bulk_load/bulk_load.py): select rows by
 * tuples of filter values with one `... IN (VALUES ...)` statement and
 * return each row as a dictionary keyed by attribute name.
 */
module BulkSelect {
  import opened Wrappers
  import opened Sql
  import opened Orm
  import opened Queries
  import opened Roles
  import opened BulkLoad
  import opened Django
  import Seqs

  /** execute_values: what the statement returns when its `%s` is filled with the given tuples. */
  type ValuesCursor = (Frag, seq<seq<Cell>>) -> ResultSet

  /** A result dictionary: attname to value. */
  type Dict = map<string, Cell>

  // ---------------------------------------------------------------------
  // The filter transform

  /** One tuple's values converted for the query, the i-th value by the i-th filter field. */
  function PrepTuple(vals: seq<Cell>, filterFields: seq<Field>, prep: (Field, Cell) -> Cell): (r: seq<Cell>)
    requires |vals| <= |filterFields|
    ensures |r| == |vals|
  {
    seq(|vals|, i requires 0 <= i < |vals| => prep(filterFields[i], vals[i]))
  }

  /** Every tuple converted; a tuple longer than the filter fields raises IndexError. */
  function Transformed(filterData: seq<seq<Cell>>, filterFields: seq<Field>, prep: (Field, Cell) -> Cell)
    : Result<seq<seq<Cell>>, Error>
  {
    if exists k :: 0 <= k < |filterData| && |filterData[k]| > |filterFields| then Err(IndexOutOfRange)
    else Ok(seq(|filterData|, k requires 0 <= k < |filterData| => PrepTuple(filterData[k], filterFields, prep)))
  }

  /** The transform loop: tuple by tuple, value by value. */
  method TransformFilterData(filterData: seq<seq<Cell>>, filterFields: seq<Field>, prep: (Field, Cell) -> Cell)
    returns (r: Result<seq<seq<Cell>>, Error>)
    ensures r == Transformed(filterData, filterFields, prep)
  {
    var filterDataTransformed: seq<seq<Cell>> := [];
    var k := 0;
    while k < |filterData|
      invariant 0 <= k <= |filterData|
      invariant forall j :: 0 <= j < k ==> |filterData[j]| <= |filterFields|
      invariant |filterDataTransformed| == k
      invariant forall j :: 0 <= j < k ==> filterDataTransformed[j] == PrepTuple(filterData[j], filterFields, prep)
    {
      var filterVals := filterData[k];
      var prepared: seq<Cell> := [];
      var i := 0;
      while i < |filterVals|
        invariant 0 <= i <= |filterVals|
        invariant i <= |filterFields|
        invariant prepared == seq(i, j requires 0 <= j < i => prep(filterFields[j], filterVals[j]))
      {
        if i >= |filterFields| {
          // filter_fields[i]
          assert |filterData[k]| > |filterFields|;
          return Err(IndexOutOfRange);
        }
        prepared := prepared + [prep(filterFields[i], filterVals[i])];
        i := i + 1;
      }
      assert prepared == PrepTuple(filterVals, filterFields, prep);
      filterDataTransformed := filterDataTransformed + [prepared];
      k := k + 1;
    }
    assert filterDataTransformed == seq(|filterData|, k requires 0 <= k < |filterData| => PrepTuple(filterData[k], filterFields, prep));
    r := Ok(filterDataTransformed);
  }

  /** The transform keeps the tuples' number and lengths and converts each value by its position's field. */
  lemma TransformedShape(filterData: seq<seq<Cell>>, filterFields: seq<Field>, prep: (Field, Cell) -> Cell)
    ensures var r := Transformed(filterData, filterFields, prep);
      && (r.Err? <==> exists k :: 0 <= k < |filterData| && |filterData[k]| > |filterFields|)
      && (r.Ok? ==>
            && |r.value| == |filterData|
            && forall k :: 0 <= k < |filterData| ==>
                 |r.value[k]| == |filterData[k]| &&
                 forall i :: 0 <= i < |filterData[k]| ==> r.value[k][i] == prep(filterFields[i], filterData[k][i]))
  {
  }

  // ---------------------------------------------------------------------
  // Result rows to dictionaries

  /** `{field.column: field for field in select_fields}`: a repeated column keeps its last field. */
  function FieldMap(fields: seq<Field>): (r: map<string, Field>)
    ensures forall c :: c in r <==> exists i :: 0 <= i < |fields| && fields[i].column == c
    ensures forall c :: c in r ==> r[c].column == c && r[c] in fields
  {
    if fields == [] then map[]
    else
      var init := fields[..|fields| - 1];
      var last := fields[|fields| - 1];
      assert forall i :: 0 <= i < |init| ==> init[i] == fields[i];
      FieldMap(init)[last.column := last]
  }

  /** The shorter of two lengths: how many pairs zip makes. */
  function ZipLength(columns: seq<string>, row: seq<Cell>): nat
  {
    if |columns| < |row| then |columns| else |row|
  }

  /**
   * One row as a dictionary: each (column, value) pair in order gives
   * attname -> decoded value of the column's field (later pairs win); the
   * first column no select field has raises KeyError.
   */
  function RowDict(columns: seq<string>, row: seq<Cell>, fieldMap: map<string, Field>, decode: (Field, Cell) -> Cell)
    : Result<Dict, Error>
    decreases |columns|
  {
    var n := ZipLength(columns, row);
    if n == 0 then Ok(map[])
    else
      var c := columns[n - 1];
      match RowDict(columns[..n - 1], row[..n - 1], fieldMap, decode)
      case Err(e) => Err(e)
      case Ok(d) =>
        if c !in fieldMap then Err(UnknownColumn(c))
        else Ok(d[fieldMap[c].attname := decode(fieldMap[c], row[n - 1])])
  }

  /**
   * A row converts exactly when every zipped column has a select field,
   * fails on the first one that has none, and its keys are the attnames of
   * the zipped columns' fields.
   */
  lemma {:induction false} RowDictShape(columns: seq<string>, row: seq<Cell>, fieldMap: map<string, Field>, decode: (Field, Cell) -> Cell)
    ensures var r := RowDict(columns, row, fieldMap, decode);
      var n := ZipLength(columns, row);
      && (r.Ok? <==> forall i :: 0 <= i < n ==> columns[i] in fieldMap)
      && (r.Err? ==> exists i :: (0 <= i < n && columns[i] !in fieldMap && r.error == UnknownColumn(columns[i])
                       && forall j :: 0 <= j < i ==> columns[j] in fieldMap))
      && (r.Ok? ==> forall a :: a in r.value <==> exists i :: 0 <= i < n && fieldMap[columns[i]].attname == a)
    decreases |columns|
  {
    var n := ZipLength(columns, row);
    if n > 0 {
      assert ZipLength(columns[..n - 1], row[..n - 1]) == n - 1;
      assert forall i :: 0 <= i < n - 1 ==> columns[..n - 1][i] == columns[i];
      RowDictShape(columns[..n - 1], row[..n - 1], fieldMap, decode);
    }
  }

  /**
   * With distinct result columns whose fields have distinct attnames, each
   * column's value lands, decoded by its field, under its field's attname.
   */
  lemma {:induction false} RowDictAt(columns: seq<string>, row: seq<Cell>, fieldMap: map<string, Field>, decode: (Field, Cell) -> Cell, i: nat)
    requires i < ZipLength(columns, row)
    requires forall j :: 0 <= j < ZipLength(columns, row) ==> columns[j] in fieldMap
    requires forall j :: 0 <= j < ZipLength(columns, row) && j != i ==> fieldMap[columns[j]].attname != fieldMap[columns[i]].attname
    ensures RowDict(columns, row, fieldMap, decode).Ok?
    ensures var d := RowDict(columns, row, fieldMap, decode).value;
      fieldMap[columns[i]].attname in d && d[fieldMap[columns[i]].attname] == decode(fieldMap[columns[i]], row[i])
    decreases |columns|
  {
    RowDictShape(columns, row, fieldMap, decode);
    var n := ZipLength(columns, row);
    assert ZipLength(columns[..n - 1], row[..n - 1]) == n - 1;
    if i != n - 1 {
      assert forall j :: 0 <= j < n - 1 ==> columns[..n - 1][j] == columns[j];
      RowDictAt(columns[..n - 1], row[..n - 1], fieldMap, decode, i);
    }
  }

  /** Every row as a dictionary, in row order; the first row with an unknown column raises. */
  function Dicts(records: seq<seq<Cell>>, columns: seq<string>, fieldMap: map<string, Field>, decode: (Field, Cell) -> Cell)
    : Result<seq<Dict>, Error>
  {
    if records == [] then Ok([])
    else
      var n := |records| - 1;
      match Dicts(records[..n], columns, fieldMap, decode)
      case Err(e) => Err(e)
      case Ok(ds) =>
        match RowDict(columns, records[n], fieldMap, decode)
        case Err(e) => Err(e)
        case Ok(d) => Ok(ds + [d])
  }

  /**
   * The rows succeed together or the first failing row's error is
   * returned; on success there is one dictionary per row, in row order.
   */
  lemma {:induction false} DictsShape(records: seq<seq<Cell>>, columns: seq<string>, fieldMap: map<string, Field>, decode: (Field, Cell) -> Cell)
    ensures var r := Dicts(records, columns, fieldMap, decode);
      && (r.Ok? <==> forall k :: 0 <= k < |records| ==> RowDict(columns, records[k], fieldMap, decode).Ok?)
      && (r.Ok? ==> |r.value| == |records|)
      && (r.Ok? ==> forall k :: 0 <= k < |records| ==> r.value[k] == RowDict(columns, records[k], fieldMap, decode).value)
      && (r.Err? ==> exists k :: (0 <= k < |records| && RowDict(columns, records[k], fieldMap, decode) == Err(r.error)
            && forall j :: 0 <= j < k ==> RowDict(columns, records[j], fieldMap, decode).Ok?))
  {
    if records != [] {
      var n := |records| - 1;
      var init := records[..n];
      assert forall k :: 0 <= k < n ==> init[k] == records[k];
      DictsShape(init, columns, fieldMap, decode);
    }
  }

  /** The row loop: a dictionary per fetched row. */
  method RowsToDicts(records: seq<seq<Cell>>, columns: seq<string>, fieldMap: map<string, Field>, decode: (Field, Cell) -> Cell)
    returns (r: Result<seq<Dict>, Error>)
    ensures r == Dicts(records, columns, fieldMap, decode)
  {
    var results: seq<Dict> := [];
    var k := 0;
    while k < |records|
      invariant 0 <= k <= |records|
      invariant Dicts(records[..k], columns, fieldMap, decode) == Ok(results)
    {
      var d := RowDict(columns, records[k], fieldMap, decode);
      assert records[..k + 1][..k] == records[..k];
      if d.Err? {
        DictsPrefixErr(records, columns, fieldMap, decode, k + 1);
        return Err(d.error);
      }
      results := results + [d.value];
      k := k + 1;
    }
    assert records[..k] == records;
    r := Ok(results);
  }

  /** Once a prefix fails, the whole fails with the same error. */
  lemma {:induction false} DictsPrefixErr(records: seq<seq<Cell>>, columns: seq<string>, fieldMap: map<string, Field>, decode: (Field, Cell) -> Cell, k: nat)
    requires k <= |records|
    requires Dicts(records[..k], columns, fieldMap, decode).Err?
    ensures Dicts(records, columns, fieldMap, decode) == Dicts(records[..k], columns, fieldMap, decode)
    decreases |records|
  {
    if k < |records| {
      var n := |records| - 1;
      assert records[..n][..k] == records[..k];
      DictsPrefixErr(records[..n], columns, fieldMap, decode, k);
    } else {
      assert records[..k] == records;
    }
  }

  // ---------------------------------------------------------------------
  // bulk_select_model_dicts

  /** What is sent to the database: the statement, the filter tuples, and the selected fields. */
  datatype Selection = Selection(statement: Frag, params: seq<seq<Cell>>, selectFields: seq<Field>)

  /**
   * The filter fields, the selected fields (select and filter names
   * together, in `selectOrder`), the transformed tuples unless the
   * transform is skipped, and the statement, with their errors in order.
   */
  function SelectionOf(
    meta: ModelMeta, filterFieldNames: seq<string>, selectOrder: seq<string>, filterData: seq<seq<Cell>>,
    skipFilterTransform: bool, selectForUpdate: bool, prep: (Field, Cell) -> Cell): Result<Selection, Error>
  {
    match GetFieldsFromNames(filterFieldNames, meta)
    case Err(e) => Err(e)
    case Ok(filterFields) =>
      match GetFieldsFromNames(selectOrder, meta)
      case Err(e) => Err(e)
      case Ok(selectFields) =>
        var params := if skipFilterTransform then Ok(filterData) else Transformed(filterData, filterFields, prep);
        match params
        case Err(e) => Err(e)
        case Ok(tuples) => Ok(Selection(ValuesSelectQuery(meta.dbTable, filterFields, selectFields, selectForUpdate), tuples, selectFields))
  }

  /**
   * No filter data returns `[]` without a query; otherwise one statement
   * runs and each returned row becomes a dictionary.
   */
  method BulkSelectModelDicts(
    meta: ModelMeta, filterFieldNames: seq<string>, selectFieldNames: seq<string>, filterData: seq<seq<Cell>>,
    skipFilterTransform: bool, selectForUpdate: bool, selectOrder: seq<string>,
    prep: (Field, Cell) -> Cell, decode: (Field, Cell) -> Cell, execute: ValuesCursor)
    returns (r: Result<seq<Dict>, Error>, queried: Option<(Frag, seq<seq<Cell>>)>)
    requires Seqs.Enumerates(selectOrder, SetOf(selectFieldNames) + SetOf(filterFieldNames))
    ensures filterData == [] ==> r == Ok([]) && queried.None?
    ensures filterData != [] ==>
      match SelectionOf(meta, filterFieldNames, selectOrder, filterData, skipFilterTransform, selectForUpdate, prep)
      case Err(e) => r == Err(e) && queried.None?
      case Ok(s) =>
        var rs := execute(s.statement, s.params);
        && queried == Some((s.statement, s.params))
        && r == Dicts(rs.records, rs.columns, FieldMap(s.selectFields), decode)
  {
    if filterData == [] {
      return Ok([]), None;
    }
    var filterFields := GetFieldsFromNames(filterFieldNames, meta);
    if filterFields.Err? {
      return Err(filterFields.error), None;
    }
    var selectFields := GetFieldsFromNames(selectOrder, meta);
    if selectFields.Err? {
      return Err(selectFields.error), None;
    }
    var params := filterData;
    if !skipFilterTransform {
      var transformed := TransformFilterData(filterData, filterFields.value, prep);
      if transformed.Err? {
        return Err(transformed.error), None;
      }
      params := transformed.value;
    }
    var sql := ValuesSelectQuery(meta.dbTable, filterFields.value, selectFields.value, selectForUpdate);
    var rs := execute(sql, params);
    queried := Some((sql, params));
    var selectFieldMap := FieldMap(selectFields.value);
    r := RowsToDicts(rs.records, rs.columns, selectFieldMap, decode);
  }

  /** A name in the list resolves to a field, and that field is among the looked-up fields. */
  lemma NamedFieldSelected(meta: ModelMeta, names: seq<string>, n: string)
    requires GetFieldsFromNames(names, meta).Ok?
    requires n in names
    ensures meta.GetField(n).Some? && meta.GetField(n).value in GetFieldsFromNames(names, meta).value
  {
    var j :| 0 <= j < |names| && names[j] == n;
    assert meta.GetField(names[j]) == Some(GetFieldsFromNames(names, meta).value[j]);
  }

  /**
   * Every filter field is among the selected fields, so each returned row
   * carries the values it was matched on; every field named in the select
   * names is selected; and every selected field is a filter field or a
   * field named in the select names.
   */
  lemma SelectionCoversFilter(
    meta: ModelMeta, filterFieldNames: seq<string>, selectFieldNames: seq<string>, selectOrder: seq<string>,
    filterData: seq<seq<Cell>>, skipFilterTransform: bool, selectForUpdate: bool, prep: (Field, Cell) -> Cell)
    requires Seqs.Enumerates(selectOrder, SetOf(selectFieldNames) + SetOf(filterFieldNames))
    requires SelectionOf(meta, filterFieldNames, selectOrder, filterData, skipFilterTransform, selectForUpdate, prep).Ok?
    ensures var s := SelectionOf(meta, filterFieldNames, selectOrder, filterData, skipFilterTransform, selectForUpdate, prep).value;
      var filterFields := GetFieldsFromNames(filterFieldNames, meta).value;
      && (forall f :: f in filterFields ==> f in s.selectFields)
      && (forall i :: 0 <= i < |selectFieldNames| ==>
            meta.GetField(selectFieldNames[i]).Some? && meta.GetField(selectFieldNames[i]).value in s.selectFields)
      && (forall f :: f in s.selectFields ==>
            f in filterFields || exists i :: 0 <= i < |selectFieldNames| && meta.GetField(selectFieldNames[i]) == Some(f))
  {
    var s := SelectionOf(meta, filterFieldNames, selectOrder, filterData, skipFilterTransform, selectForUpdate, prep).value;
    var filterFields := GetFieldsFromNames(filterFieldNames, meta).value;
    forall f | f in filterFields ensures f in s.selectFields {
      var i :| 0 <= i < |filterFields| && filterFields[i] == f;
      assert filterFieldNames[i] in SetOf(selectFieldNames) + SetOf(filterFieldNames);
      NamedFieldSelected(meta, selectOrder, filterFieldNames[i]);
    }
    forall i | 0 <= i < |selectFieldNames|
      ensures meta.GetField(selectFieldNames[i]).Some? && meta.GetField(selectFieldNames[i]).value in s.selectFields
    {
      assert selectFieldNames[i] in SetOf(selectFieldNames) + SetOf(filterFieldNames);
      NamedFieldSelected(meta, selectOrder, selectFieldNames[i]);
    }
    forall f | f in s.selectFields
      ensures f in filterFields || exists i :: 0 <= i < |selectFieldNames| && meta.GetField(selectFieldNames[i]) == Some(f)
    {
      var j :| 0 <= j < |s.selectFields| && s.selectFields[j] == f;
      assert selectOrder[j] in SetOf(selectFieldNames) + SetOf(filterFieldNames);
      if selectOrder[j] in filterFieldNames {
        var i :| 0 <= i < |filterFieldNames| && filterFieldNames[i] == selectOrder[j];
        assert meta.GetField(filterFieldNames[i]) == Some(filterFields[i]);
      } else {
        var i :| 0 <= i < |selectFieldNames| && selectFieldNames[i] == selectOrder[j];
        assert meta.GetField(selectFieldNames[i]) == Some(f);
      }
    }
  }
}
