/**
 * The bulk operations of django_bulk_load/bulk_load.py. Each one stages the
 * models in a temporary table (CREATE + COPY), then runs its statements
 * against it in one transaction. The database is the `cursor` parameter:
 * what the i-th load statement returns, when it returns a result set.
 */
module BulkLoad {
  import opened Wrappers
  import opened Sql
  import opened Orm
  import opened Queries
  import opened Django
  import opened Utils
  import opened Roles
  import Seqs

  /** The column names (cursor.description) and the rows of a statement's result. */
  datatype ResultSet = ResultSet(columns: seq<string>, records: seq<seq<Cell>>)

  /** What the i-th load statement returns: a result set, or None when it has no description. */
  type Cursor = (nat, Frag) -> Option<ResultSet>

  /**
   * Everything the operations take from outside: the hex of a fresh UUID,
   * the per-field value hook, csv's quoting of one field, the per-field
   * from_db_value conversion, and the database.
   */
  datatype Io = Io(
    hex: string,
    toValue: (Instance, Field) -> Prepared,
    quote: string -> string,
    decode: (Field, Cell) -> Cell,
    cursor: Cursor)

  /** A model built from a result row: attname to attribute. */
  type Model = map<string, Attr>

  /** What an operation did: the statements it ran, the text COPY read, and the models it returns (None for Python's None). */
  datatype Outcome = Outcome(executed: seq<Frag>, copied: string, returned: Option<seq<Model>>)

  /** No models: no statement, nothing copied, and `[]` or None. */
  function Skipped(returnModels: bool): Outcome
  {
    Outcome([], [], if returnModels then Some([]) else None)
  }

  // ---------------------------------------------------------------------
  // create_temp_table_and_load

  /** The staging table's name, the CREATE and COPY statements, and the text copied. */
  datatype Staged = Staged(loadingTableName: string, executed: seq<Frag>, copied: string)

  /** `table_name or generate_table_name(...)`: an empty name counts as none. */
  function StagingName(meta: ModelMeta, tableName: Option<string>, hex: string): string
  {
    if tableName.Some? && tableName.value != "" then tableName.value else GenerateTableName(meta.dbTable, hex)
  }

  function StagedLoad(models: seq<Instance>, fieldNames: Option<seq<string>>, tableName: Option<string>, io: Io): Result<Staged, Error>
  {
    if models == [] then Err(NoModels)
    else
      var meta := models[0].meta;
      var name := StagingName(meta, tableName, io.hex);
      match GetFieldsAndNames(fieldNames, meta, true)
      case Err(e) => Err(e)
      case Ok(fieldsAndNames) =>
        var fields := fieldsAndNames.0;
        Ok(Staged(name, [CreateTempTable(name, meta.dbTable, Columns(fields)), CopyQuery(name)],
                  TsvText(models, fields, io.toValue, io.quote)))
  }

  /**
   * Builds the buffer, creates the staging table with the staged fields'
   * columns and COPYs the buffer into it; no models raises before any
   * statement runs.
   */
  method CreateTempTableAndLoad(models: seq<Instance>, fieldNames: Option<seq<string>>, tableName: Option<string>, io: Io)
    returns (r: Result<Staged, Error>)
    ensures r == StagedLoad(models, fieldNames, tableName, io)
  {
    if models == [] {
      return Err(NoModels);
    }
    var meta := models[0].meta;
    var sourceTableName := meta.dbTable;
    var name := if tableName.Some? && tableName.value != "" then tableName.value
                else GenerateTableName(sourceTableName, io.hex);
    var fieldsAndNames := GetFieldsAndNames(fieldNames, meta, true);
    if fieldsAndNames.Err? {
      return Err(fieldsAndNames.error);
    }
    var fields := fieldsAndNames.value.0;
    var tempTableQuery := CreateTempTable(name, sourceTableName, Columns(fields));
    var tsvBuffer := ModelsToTsvBuffer(models, fields, io.toValue, io.quote);
    var executed := [tempTableQuery];
    // copy_expert reads the buffer from its position to the end
    executed := executed + [CopyQuery(name)];
    assert tsvBuffer.text[tsvBuffer.position..] == TsvText(models, fields, io.toValue, io.quote);
    assert name == StagingName(meta, tableName, io.hex);
    assert GetFieldsAndNames(fieldNames, meta, true) == Ok((fields, fieldsAndNames.value.1));
    r := Ok(Staged(name, executed, tsvBuffer.text[tsvBuffer.position..]));
    assert executed == [CreateTempTable(name, meta.dbTable, Columns(fields)), CopyQuery(name)];
    assert r == Ok(Staged(name, [CreateTempTable(name, meta.dbTable, Columns(fields)), CopyQuery(name)], TsvText(models, fields, io.toValue, io.quote)));
    assert r == StagedLoad(models, fieldNames, tableName, io);
  }

  /**
   * The staged text holds one line per model when no entry holds a line
   * break, and the COPY loads into the table the CREATE made.
   */
  lemma StagedLoadShape(models: seq<Instance>, fieldNames: Option<seq<string>>, tableName: Option<string>, io: Io)
    requires QuoteKeepsLines(io.quote)
    requires forall k, f :: 0 <= k < |models| && f in models[0].meta.fields ==> '\n' !in Entry(io.toValue(models[k], f))
    ensures var r := StagedLoad(models, fieldNames, tableName, io);
      && (models == [] ==> r == Err(NoModels))
      && (r.Ok? ==>
            && |r.value.executed| == 2
            && r.value.executed[1] == CopyQuery(r.value.loadingTableName)
            && (tableName.Some? && tableName.value != "" ==> r.value.loadingTableName == tableName.value)
            && CountChar(r.value.copied, '\n') == |models|)
      && (models != [] ==> (r.Err? <==>
            fieldNames.Some? && exists i :: 0 <= i < |fieldNames.value| && models[0].meta.GetField(fieldNames.value[i]).None?))
  {
    if models != [] {
      var meta := models[0].meta;
      var fieldsAndNames := GetFieldsAndNames(fieldNames, meta, true);
      if fieldsAndNames.Ok? {
        var fields := fieldsAndNames.value.0;
        forall i | 0 <= i < |fields| ensures fields[i] in meta.fields {
          if fieldNames.None? {
            ModelFieldsKeep(meta, true, fields[i]);
          } else {
            assert meta.GetField(fieldNames.value[i]) == Some(fields[i]);
          }
        }
        TsvTextLineCount(models, fields, io.toValue, io.quote);
      }
    }
  }

  // ---------------------------------------------------------------------
  // execute_queries_and_return_models

  /** records_to_models for one result set. */
  function ResultModels(rs: ResultSet, meta: ModelMeta, decode: (Field, Cell) -> Cell): (r: seq<Model>)
    ensures |r| == |rs.records|
  {
    seq(|rs.records|, k requires 0 <= k < |rs.records| => ModelAttrs(ModelFields(meta, true), ZipMap(rs.columns, rs.records[k]), decode))
  }

  /** The models built from every result set, in statement order. */
  function Returned(queries: seq<Frag>, cursor: Cursor, meta: ModelMeta, decode: (Field, Cell) -> Cell): seq<Model>
  {
    if queries == [] then []
    else
      var n := |queries| - 1;
      Returned(queries[..n], cursor, meta, decode)
      + (match cursor(n, queries[n]) case None => [] case Some(rs) => ResultModels(rs, meta, decode))
  }

  /**
   * Runs every statement and gathers the models of those that return a
   * result set; when none does (even a result set with no rows counts), it
   * raises.
   */
  method ExecuteQueriesAndReturnModels(loadQueries: seq<Frag>, cursor: Cursor, meta: ModelMeta, decode: (Field, Cell) -> Cell)
    returns (r: Result<seq<Model>, Error>)
    ensures r.Err? <==> forall i :: 0 <= i < |loadQueries| ==> cursor(i, loadQueries[i]).None?
    ensures r.Err? ==> r.error == NoQueryReturnsResults
    ensures r.Ok? ==> r.value == Returned(loadQueries, cursor, meta, decode)
  {
    var results: seq<Model> := [];
    var hasQueryReturningResults := false;
    var i := 0;
    while i < |loadQueries|
      invariant 0 <= i <= |loadQueries|
      invariant results == Returned(loadQueries[..i], cursor, meta, decode)
      invariant hasQueryReturningResults <==> exists j :: 0 <= j < i && cursor(j, loadQueries[j]).Some?
    {
      var description := cursor(i, loadQueries[i]);
      if description.Some? {
        hasQueryReturningResults := true;
        var models := RecordsToModels(description.value.records, description.value.columns, meta, decode);
        assert models == ResultModels(description.value, meta, decode);
        results := results + models;
      }
      assert loadQueries[..i + 1][..i] == loadQueries[..i];
      i := i + 1;
    }
    assert loadQueries[..i] == loadQueries;
    if !hasQueryReturningResults {
      return Err(NoQueryReturnsResults);
    }
    r := Ok(results);
  }

  /**
   * When exactly one statement returns a result set, the models returned
   * are the models of that result, one per row.
   */
  lemma {:induction false} ReturnedSingle(queries: seq<Frag>, cursor: Cursor, meta: ModelMeta, decode: (Field, Cell) -> Cell, j: nat)
    requires j < |queries| && cursor(j, queries[j]).Some?
    requires forall i :: 0 <= i < |queries| && i != j ==> cursor(i, queries[i]).None?
    ensures Returned(queries, cursor, meta, decode) == ResultModels(cursor(j, queries[j]).value, meta, decode)
  {
    var n := |queries| - 1;
    var init := queries[..n];
    assert forall i :: 0 <= i < n ==> init[i] == queries[i];
    if j < n {
      ReturnedSingle(init, cursor, meta, decode, j);
    } else {
      ReturnedNone(init, cursor, meta, decode);
    }
  }

  /** No result set, no models. */
  lemma {:induction false} ReturnedNone(queries: seq<Frag>, cursor: Cursor, meta: ModelMeta, decode: (Field, Cell) -> Cell)
    requires forall i :: 0 <= i < |queries| ==> cursor(i, queries[i]).None?
    ensures Returned(queries, cursor, meta, decode) == []
  {
    if queries != [] {
      var n := |queries| - 1;
      assert forall i :: 0 <= i < n ==> queries[..n][i] == queries[i];
      ReturnedNone(queries[..n], cursor, meta, decode);
    }
  }

  // ---------------------------------------------------------------------
  // bulk_load_models_with_queries

  /** Stage the models, then run the load statements; return models only when asked. */
  function LoadOutcome(
    models: seq<Instance>, loadingTableName: string, loadQueries: seq<Frag>,
    fieldNames: Option<seq<string>>, returnModels: bool, io: Io): Result<Outcome, Error>
  {
    if models == [] then Err(IndexOutOfRange)
    else
      match StagedLoad(models, fieldNames, Some(loadingTableName), io)
      case Err(e) => Err(e)
      case Ok(staged) =>
        var executed := staged.executed + loadQueries;
        if !returnModels then Ok(Outcome(executed, staged.copied, None))
        else if forall i :: 0 <= i < |loadQueries| ==> io.cursor(i, loadQueries[i]).None? then Err(NoQueryReturnsResults)
        else Ok(Outcome(executed, staged.copied, Some(Returned(loadQueries, io.cursor, models[0].meta, io.decode))))
  }

  method BulkLoadModelsWithQueries(
    models: seq<Instance>, loadingTableName: string, loadQueries: seq<Frag>,
    fieldNames: Option<seq<string>>, returnModels: bool, io: Io)
    returns (r: Result<Outcome, Error>)
    ensures r == LoadOutcome(models, loadingTableName, loadQueries, fieldNames, returnModels, io)
  {
    if models == [] {
      // models[0]
      return Err(IndexOutOfRange);
    }
    var model := models[0];
    var staged := CreateTempTableAndLoad(models, fieldNames, Some(loadingTableName), io);
    if staged.Err? {
      return Err(staged.error);
    }
    var executed := staged.value.executed;
    var results: Option<seq<Model>> := None;
    if returnModels {
      var returned := ExecuteQueriesAndReturnModels(loadQueries, io.cursor, model.meta, io.decode);
      if returned.Err? {
        return Err(returned.error);
      }
      results := Some(returned.value);
    }
    executed := executed + loadQueries;
    r := Ok(Outcome(executed, staged.value.copied, results));
  }

  /**
   * A load runs CREATE, COPY and then the load statements in order, and
   * returns models exactly when asked; it fails only on an unknown staged
   * field name or, when models are asked for, when no statement returns a
   * result set.
   */
  lemma LoadOutcomeShape(
    models: seq<Instance>, loadingTableName: string, loadQueries: seq<Frag>,
    fieldNames: Option<seq<string>>, returnModels: bool, io: Io)
    requires models != []
    ensures var r := LoadOutcome(models, loadingTableName, loadQueries, fieldNames, returnModels, io);
      && (r.Ok? ==>
            && |r.value.executed| == 2 + |loadQueries|
            && r.value.executed[1] == CopyQuery(StagingName(models[0].meta, Some(loadingTableName), io.hex))
            && r.value.executed[2..] == loadQueries
            && (r.value.returned.Some? <==> returnModels))
      && (r.Err? <==>
            || (fieldNames.Some? && exists i :: 0 <= i < |fieldNames.value| && models[0].meta.GetField(fieldNames.value[i]).None?)
            || (returnModels && forall i :: 0 <= i < |loadQueries| ==> io.cursor(i, loadQueries[i]).None?))
  {
  }

  // ---------------------------------------------------------------------
  // bulk_insert_models

  /** Some models have a pk and some do not. */
  predicate PksMixed(models: seq<Instance>)
  {
    exists i, j :: 0 <= i < |models| && 0 <= j < |models| && models[i].pk.Some? != models[j].pk.Some?
  }

  /** The INSERT (with RETURNING when models are returned) for models that all have, or all lack, a pk. */
  function InsertStatement(meta: ModelMeta, loadingTableName: string, ignoreConflicts: bool, hasPks: bool, returnModels: bool): Frag
  {
    var insertQuery := InsertQuery(meta.dbTable, loadingTableName, ignoreConflicts, ModelFields(meta, hasPks));
    if returnModels then AddReturning(insertQuery, meta.dbTable) else insertQuery
  }

  /**
   * INSERTs the models: no models is a no-op, a mix of models with and
   * without a pk raises, and otherwise the single INSERT names the pk
   * columns (AutoFields) exactly when the models have pks.
   */
  method BulkInsertModels(models: seq<Instance>, ignoreConflicts: bool, returnModels: bool, io: Io)
    returns (r: Result<Outcome, Error>)
    ensures models == [] ==> r == Ok(Skipped(returnModels))
    ensures models != [] && PksMixed(models) ==> r == Err(MixedPks)
    ensures models != [] && !PksMixed(models) ==>
      var meta := models[0].meta;
      var loadingTableName := GenerateTableName(meta.dbTable, io.hex);
      r == LoadOutcome(models, loadingTableName,
                       [InsertStatement(meta, loadingTableName, ignoreConflicts, models[0].pk.Some?, returnModels)],
                       None, returnModels, io)
  {
    if models == [] {
      return Ok(Skipped(returnModels));
    }
    var hasPks: Option<bool> := None;
    var i := 0;
    while i < |models|
      invariant 0 <= i <= |models|
      invariant i == 0 ==> hasPks == None
      invariant i > 0 ==> hasPks == Some(models[0].pk.Some?)
      invariant forall j :: 0 <= j < i ==> models[j].pk.Some? == models[0].pk.Some?
    {
      var modelsHasPks := models[i].pk.Some?;
      if hasPks.None? {
        hasPks := Some(modelsHasPks);
      }
      if hasPks.value != modelsHasPks {
        assert models[i].pk.Some? != models[0].pk.Some?;
        return Err(MixedPks);
      }
      i := i + 1;
    }
    assert !PksMixed(models);
    var meta := models[0].meta;
    var tableName := meta.dbTable;
    var loadingTableName := GenerateTableName(tableName, io.hex);
    var insertFields := GetModelFields(meta, hasPks.value);
    var insertQuery := InsertQuery(tableName, loadingTableName, ignoreConflicts, insertFields);
    if returnModels {
      insertQuery := AddReturning(insertQuery, tableName);
    }
    r := BulkLoadModelsWithQueries(models, loadingTableName, [insertQuery], None, returnModels, io);
  }

  /**
   * The INSERT lists an AutoField column exactly when the models have pks,
   * and ends in RETURNING exactly when models are returned.
   */
  lemma InsertStatementShape(meta: ModelMeta, loadingTableName: string, ignoreConflicts: bool, hasPks: bool, returnModels: bool, f: Field)
    requires f in meta.fields && f.isAuto && f.HasColumn() && !f.isM2M
    ensures var insertQuery := InsertQuery(meta.dbTable, loadingTableName, ignoreConflicts, ModelFields(meta, hasPks));
      && (f in ModelFields(meta, hasPks) <==> hasPks)
      && InsertStatement(meta, loadingTableName, ignoreConflicts, hasPks, returnModels)
         == (if returnModels then AddReturning(insertQuery, meta.dbTable) else insertQuery)
      && (returnModels ==>
            Render(InsertStatement(meta, loadingTableName, ignoreConflicts, hasPks, returnModels))
            == Render(insertQuery) + " RETURNING " + QuoteIdent(meta.dbTable) + ".*")
  {
    ModelFieldsKeep(meta, hasPks, f);
  }

  // ---------------------------------------------------------------------
  // bulk_update_models

  /** The UPDATE, then the SELECT of the matched rows when models are returned. */
  function UpdateStatements(meta: ModelMeta, loadingTableName: string, roles: UpdateRoles, updateWhere: Option<WhereBuilder>, returnModels: bool): seq<Frag>
  {
    var tableName := meta.dbTable;
    var updateQuery := UpdateQuery(tableName, loadingTableName, roles.pkFields, roles.updateFields,
                                   roles.compareFields, updateWhere, roles.updateIfNullFields);
    if returnModels then [updateQuery, SelectQuery(tableName, loadingTableName, roles.pkFields, [])] else [updateQuery]
  }

  /**
   * UPDATEs the rows matching the models' pk fields: no models is a no-op;
   * otherwise the staged fields are the enumerated names and the
   * statements are those of `UpdateStatements`.
   */
  method BulkUpdateModels(
    models: seq<Instance>, updateFieldNames: Option<seq<string>>, pkFieldNames: seq<string>,
    modelChangedFieldNames: seq<string>, updateIfNullFieldNames: seq<string>,
    updateWhere: Option<WhereBuilder>, returnModels: bool, operateOrder: seq<string>, io: Io)
    returns (r: Result<Outcome, Error>)
    requires models != [] ==>
      Seqs.Enumerates(operateOrder, OperateNameSet(models[0].meta, updateFieldNames, pkFieldNames, modelChangedFieldNames, updateIfNullFieldNames))
    ensures models == [] ==> r == Ok(Skipped(returnModels))
    ensures models != [] ==>
      var meta := models[0].meta;
      var loadingTableName := GenerateTableName(meta.dbTable, io.hex);
      r == match UpdateRolesOf(meta, updateFieldNames, pkFieldNames, modelChangedFieldNames, updateIfNullFieldNames, operateOrder)
           case Err(e) => Err(e)
           case Ok(roles) =>
             LoadOutcome(models, loadingTableName, UpdateStatements(meta, loadingTableName, roles, updateWhere, returnModels),
                         Some(operateOrder), returnModels, io)
  {
    if models == [] {
      return Ok(Skipped(returnModels));
    }
    var meta := models[0].meta;
    var roles := UpdateRolesOf(meta, updateFieldNames, pkFieldNames, modelChangedFieldNames, updateIfNullFieldNames, operateOrder);
    if roles.Err? {
      return Err(roles.error);
    }
    var loadingTableName := GenerateTableName(meta.dbTable, io.hex);
    var queries := UpdateStatements(meta, loadingTableName, roles.value, updateWhere, returnModels);
    r := BulkLoadModelsWithQueries(models, loadingTableName, queries, Some(operateOrder), returnModels, io);
  }

  /**
   * The update's statements: the UPDATE first, then a SELECT of the
   * matched rows exactly when models are returned; the UPDATE never
   * returns rows, so the models returned are the SELECT's.
   */
  lemma UpdateReturnsSelected(
    models: seq<Instance>, meta: ModelMeta, loadingTableName: string, roles: UpdateRoles,
    updateWhere: Option<WhereBuilder>, returnModels: bool, io: Io, rs: ResultSet)
    requires returnModels
    requires var qs := UpdateStatements(meta, loadingTableName, roles, updateWhere, returnModels);
      io.cursor(0, qs[0]).None? && io.cursor(1, qs[1]) == Some(rs)
    requires models != [] && models[0].meta == meta
    ensures var qs := UpdateStatements(meta, loadingTableName, roles, updateWhere, returnModels);
      && |qs| == 2
      && qs[1] == SelectQuery(meta.dbTable, loadingTableName, roles.pkFields, [])
      && var r := LoadOutcome(models, loadingTableName, qs, Some(roles.operateNames), returnModels, io);
         r.Ok? ==> r.value.returned == Some(ResultModels(rs, meta, io.decode))
  {
    var qs := UpdateStatements(meta, loadingTableName, roles, updateWhere, returnModels);
    ReturnedSingle(qs, io.cursor, meta, io.decode, 1);
  }

  // ---------------------------------------------------------------------
  // bulk_upsert_models

  /**
   * The upsert's statements: the UPDATE when some field is updated, the
   * SELECT of existing rows when models are returned, and last the INSERT
   * of the rows with no match (RETURNING when models are returned). The
   * update-if-null names are looked up only when the UPDATE is built.
   */
  function UpsertStatements(
    meta: ModelMeta, loadingTableName: string, roles: UpsertRoles, updateIfNullFieldNames: seq<string>,
    updateWhere: Option<WhereBuilder>, returnModels: bool): Result<seq<Frag>, Error>
    requires roles.pkFields != []
  {
    var tableName := meta.dbTable;
    var update :=
      if roles.updateFields == [] then Ok([])
      else match GetFieldsFromNames(updateIfNullFieldNames, meta)
           case Err(e) => Err(e)
           case Ok(ifNullFields) =>
             Ok([UpdateQuery(tableName, loadingTableName, roles.pkFields, roles.updateFields, roles.compareFields, updateWhere, ifNullFields)]);
    match update
    case Err(e) => Err(e)
    case Ok(updates) =>
      var insertQuery := InsertForUpdateQuery(tableName, loadingTableName, roles.pkFields, roles.insertFields);
      if returnModels then
        Ok(updates + [SelectQuery(tableName, loadingTableName, roles.pkFields, []), AddReturning(insertQuery, tableName)])
      else Ok(updates + [insertQuery])
  }

  /** The upsert outcome for non-empty models. */
  function UpsertOutcome(
    models: seq<Instance>, pkFieldNames: seq<string>, insertOnlyFieldNames: seq<string>,
    modelChangedFieldNames: seq<string>, updateIfNullFieldNames: seq<string>,
    updateWhere: Option<WhereBuilder>, returnModels: bool, io: Io): Result<Outcome, Error>
    requires models != []
  {
    var meta := models[0].meta;
    var loadingTableName := GenerateTableName(meta.dbTable, io.hex);
    match UpsertRolesOf(meta, pkFieldNames, insertOnlyFieldNames, modelChangedFieldNames, updateIfNullFieldNames)
    case Err(e) => Err(e)
    case Ok(roles) =>
      if roles.pkFields == [] then Err(IndexOutOfRange)
      else
        match UpsertStatements(meta, loadingTableName, roles, updateIfNullFieldNames, updateWhere, returnModels)
        case Err(e) => Err(e)
        case Ok(queries) => LoadOutcome(models, loadingTableName, queries, None, returnModels, io)
  }

  /**
   * The upsert's statement list, built as the source appends to it; the
   * update-if-null names are looked up only when the UPDATE is built.
   */
  method UpsertQueries(
    meta: ModelMeta, loadingTableName: string, roles: UpsertRoles, updateIfNullFieldNames: seq<string>,
    updateWhere: Option<WhereBuilder>, returnModels: bool)
    returns (r: Result<seq<Frag>, Error>)
    requires roles.pkFields != []
    ensures r == UpsertStatements(meta, loadingTableName, roles, updateIfNullFieldNames, updateWhere, returnModels)
  {
    var tableName := meta.dbTable;
    var queries: seq<Frag> := [];
    if roles.updateFields != [] {
      var ifNullFields := GetFieldsFromNames(updateIfNullFieldNames, meta);
      if ifNullFields.Err? {
        assert Err(ifNullFields.error) == UpsertStatements(meta, loadingTableName, roles, updateIfNullFieldNames, updateWhere, returnModels);
        return Err(ifNullFields.error);
      }
      queries := queries + [UpdateQuery(tableName, loadingTableName, roles.pkFields, roles.updateFields,
                                        roles.compareFields, updateWhere, ifNullFields.value)];
    }
    ghost var updates := queries;
    var insertQuery := InsertForUpdateQuery(tableName, loadingTableName, roles.pkFields, roles.insertFields);
    if returnModels {
      insertQuery := AddReturning(insertQuery, tableName);
      queries := queries + [SelectQuery(tableName, loadingTableName, roles.pkFields, [])];
    }
    queries := queries + [insertQuery];
    assert returnModels ==> queries == updates + [SelectQuery(tableName, loadingTableName, roles.pkFields, []), insertQuery];
    assert !returnModels ==> queries == updates + [insertQuery];
    assert roles.updateFields == [] ==> updates == [];
    assert roles.updateFields != [] ==> updates == [UpdateQuery(tableName, loadingTableName, roles.pkFields, roles.updateFields,
                                        roles.compareFields, updateWhere, GetFieldsFromNames(updateIfNullFieldNames, meta).value)];
    assert returnModels ==> insertQuery == AddReturning(InsertForUpdateQuery(tableName, loadingTableName, roles.pkFields, roles.insertFields), tableName);
    r := Ok(queries);
  }

  /** UPSERTs the models: update the matched rows that changed, insert the rest. */
  method BulkUpsertModels(
    models: seq<Instance>, pkFieldNames: seq<string>, insertOnlyFieldNames: seq<string>,
    modelChangedFieldNames: seq<string>, updateIfNullFieldNames: seq<string>,
    updateWhere: Option<WhereBuilder>, returnModels: bool, io: Io)
    returns (r: Result<Outcome, Error>)
    ensures models == [] ==> r == Ok(Skipped(returnModels))
    ensures models != [] ==>
      r == UpsertOutcome(models, pkFieldNames, insertOnlyFieldNames, modelChangedFieldNames, updateIfNullFieldNames, updateWhere, returnModels, io)
  {
    if models == [] {
      return Ok(Skipped(returnModels));
    }
    var meta := models[0].meta;
    var roles := UpsertRolesOf(meta, pkFieldNames, insertOnlyFieldNames, modelChangedFieldNames, updateIfNullFieldNames);
    if roles.Err? {
      return Err(roles.error);
    }
    if roles.value.pkFields == [] {
      // get_pk_fields never returns no fields
      return Err(IndexOutOfRange);
    }
    var loadingTableName := GenerateTableName(meta.dbTable, io.hex);
    var queries := UpsertQueries(meta, loadingTableName, roles.value, updateIfNullFieldNames, updateWhere, returnModels);
    if queries.Err? {
      return Err(queries.error);
    }
    r := BulkLoadModelsWithQueries(models, loadingTableName, queries.value, None, returnModels, io);
  }

  /**
   * Upsert ordering: an UPDATE comes first exactly when some field is
   * updated, the SELECT of existing rows comes before the INSERT so it
   * does not see the new rows, and the INSERT is last, with RETURNING
   * exactly when models are returned.
   */
  lemma UpsertStatementOrder(
    meta: ModelMeta, loadingTableName: string, roles: UpsertRoles, updateIfNullFieldNames: seq<string>,
    updateWhere: Option<WhereBuilder>, returnModels: bool)
    requires roles.pkFields != []
    requires UpsertStatements(meta, loadingTableName, roles, updateIfNullFieldNames, updateWhere, returnModels).Ok?
    ensures var qs := UpsertStatements(meta, loadingTableName, roles, updateIfNullFieldNames, updateWhere, returnModels).value;
      var u := if roles.updateFields != [] then 1 else 0;
      var insertQuery := InsertForUpdateQuery(meta.dbTable, loadingTableName, roles.pkFields, roles.insertFields);
      && |qs| == u + (if returnModels then 2 else 1)
      && (roles.updateFields != [] ==> qs[0].Cat? && qs[0].parts[0] == Kw("UPDATE "))
      && (returnModels ==> qs[u] == SelectQuery(meta.dbTable, loadingTableName, roles.pkFields, []))
      && Render(qs[|qs| - 1]) ==
           Render(insertQuery) + (if returnModels then " RETURNING " + QuoteIdent(meta.dbTable) + ".*" else "")
  {
  }

  /** With no update-if-null names the upsert never fails on them. */
  lemma UpsertStatementsOk(
    meta: ModelMeta, loadingTableName: string, roles: UpsertRoles,
    updateWhere: Option<WhereBuilder>, returnModels: bool)
    requires roles.pkFields != []
    ensures UpsertStatements(meta, loadingTableName, roles, [], updateWhere, returnModels).Ok?
  {
  }

  // ---------------------------------------------------------------------
  // bulk_insert_changed_models

  /** The first name in the list that is in the set, if any. */
  function FirstIn(names: seq<string>, notAllowed: set<string>): (r: Option<string>)
    ensures r.None? <==> forall i :: 0 <= i < |names| ==> names[i] !in notAllowed
    ensures r.Some? ==>
      exists i :: 0 <= i < |names| && names[i] == r.value && r.value in notAllowed
        && forall j :: 0 <= j < i ==> names[j] !in notAllowed
  {
    if names == [] then None
    else if names[0] in notAllowed then Some(names[0])
    else
      var rest := FirstIn(names[1..], notAllowed);
      assert forall i :: 1 <= i < |names| ==> names[i] == names[1..][i - 1];
      assert rest.Some? ==> exists i :: (1 <= i < |names| && names[i] == rest.value && rest.value in notAllowed
        && (forall j :: 0 <= j < i ==> names[j] !in notAllowed));
      rest
  }

  /** The order field: the named field when a non-empty name is given, otherwise the model's pk. */
  function OrderField(meta: ModelMeta, orderFieldName: Option<string>): Result<Field, Error>
  {
    if orderFieldName.Some? && orderFieldName.value != "" then
      match meta.GetField(orderFieldName.value)
      case None => Err(FieldDoesNotExist(orderFieldName.value))
      case Some(f) => Ok(f)
    else Ok(meta.pk)
  }

  /**
   * The statements of bulk_insert_changed_models: the order field must not
   * be a pk field, no compare name may be a pk or order field name, and
   * the INSERT is followed by the SELECT of the latest rows when models
   * are returned.
   */
  function InsertChangedStatements(
    meta: ModelMeta, loadingTableName: string, pkFieldNames: seq<string>, compareFieldNames: seq<string>,
    orderFieldName: Option<string>, returnModels: bool): Result<seq<Frag>, Error>
  {
    match OrderField(meta, orderFieldName)
    case Err(e) => Err(e)
    case Ok(orderField) =>
      match GetPkFields(pkFieldNames, meta)
      case Err(e) => Err(e)
      case Ok(pkFields) =>
        if orderField in pkFields then Err(OrderFieldInPk)
        else
          var notAllowed := SetOf(Names(pkFields)) + {orderField.name};
          match FirstIn(compareFieldNames, notAllowed)
          case Some(name) => Err(CompareFieldNotAllowed(name))
          case None =>
            match GetFieldsFromNames(compareFieldNames, meta)
            case Err(e) => Err(e)
            case Ok(compareFields) =>
              var tableName := meta.dbTable;
              var insertFields := Seqs.Filter(ModelFields(meta, false), NotAuto());
              var insertQuery := InsertOnNotMatchLatest(tableName, loadingTableName, pkFields, compareFields, orderField, insertFields);
              if returnModels then Ok([insertQuery, SelectLatest(tableName, loadingTableName, pkFields, orderField)])
              else Ok([insertQuery])
  }

  /** INSERTs a new row for each model whose latest row is missing or differs in a compare field. */
  method BulkInsertChangedModels(
    models: seq<Instance>, pkFieldNames: seq<string>, compareFieldNames: seq<string>,
    orderFieldName: Option<string>, returnModels: bool, io: Io)
    returns (r: Result<Outcome, Error>)
    ensures models == [] ==> r == Ok(Skipped(returnModels))
    ensures models != [] ==>
      var meta := models[0].meta;
      var loadingTableName := GenerateTableName(meta.dbTable, io.hex);
      r == match InsertChangedStatements(meta, loadingTableName, pkFieldNames, compareFieldNames, orderFieldName, returnModels)
           case Err(e) => Err(e)
           case Ok(queries) => LoadOutcome(models, loadingTableName, queries, None, returnModels, io)
  {
    if models == [] {
      return Ok(Skipped(returnModels));
    }
    var meta := models[0].meta;
    var tableName := meta.dbTable;
    var orderField := OrderField(meta, orderFieldName);
    if orderField.Err? {
      return Err(orderField.error);
    }
    var pkFields := GetPkFields(pkFieldNames, meta);
    if pkFields.Err? {
      return Err(pkFields.error);
    }
    if orderField.value in pkFields.value {
      return Err(OrderFieldInPk);
    }
    var notAllowedOnCompare := SetOf(Names(pkFields.value)) + {orderField.value.name};
    var i := 0;
    while i < |compareFieldNames|
      invariant 0 <= i <= |compareFieldNames|
      invariant forall j :: 0 <= j < i ==> compareFieldNames[j] !in notAllowedOnCompare
    {
      if compareFieldNames[i] in notAllowedOnCompare {
        assert FirstIn(compareFieldNames, notAllowedOnCompare) == Some(compareFieldNames[i]);
        return Err(CompareFieldNotAllowed(compareFieldNames[i]));
      }
      i := i + 1;
    }
    var compareFields := GetFieldsFromNames(compareFieldNames, meta);
    if compareFields.Err? {
      return Err(compareFields.error);
    }
    var insertFields := Seqs.Filter(ModelFields(meta, false), NotAuto());
    var loadingTableName := GenerateTableName(tableName, io.hex);
    var insertQuery := InsertOnNotMatchLatest(tableName, loadingTableName, pkFields.value, compareFields.value, orderField.value, insertFields);
    var queries := [insertQuery];
    if returnModels {
      queries := [insertQuery, SelectLatest(tableName, loadingTableName, pkFields.value, orderField.value)];
    }
    r := BulkLoadModelsWithQueries(models, loadingTableName, queries, None, returnModels, io);
  }

  /**
   * The order field is never a pk field, and no compare name is a pk
   * field's name or the order field's name; every other combination of
   * known names is accepted.
   */
  lemma InsertChangedGuards(
    meta: ModelMeta, loadingTableName: string, pkFieldNames: seq<string>, compareFieldNames: seq<string>,
    orderFieldName: Option<string>, returnModels: bool)
    requires OrderField(meta, orderFieldName).Ok? && GetPkFields(pkFieldNames, meta).Ok?
    ensures var r := InsertChangedStatements(meta, loadingTableName, pkFieldNames, compareFieldNames, orderFieldName, returnModels);
      var orderField := OrderField(meta, orderFieldName).value;
      var pkFields := GetPkFields(pkFieldNames, meta).value;
      && (orderField in pkFields ==> r == Err(OrderFieldInPk))
      && (r.Ok? <==>
            && orderField !in pkFields
            && (forall i :: 0 <= i < |compareFieldNames| ==>
                  compareFieldNames[i] !in Names(pkFields) && compareFieldNames[i] != orderField.name
                  && meta.GetField(compareFieldNames[i]).Some?))
      && (r.Ok? ==> |r.value| == (if returnModels then 2 else 1))
  {
  }
}
