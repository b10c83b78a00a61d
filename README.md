# django-bulk-load, modelled in Dafny

django-bulk-load loads many Django model instances into PostgreSQL in a
few statements. Every operation first stages the models in a temporary
table. It creates the table with the target's columns and `COPY`s a
tab-separated text of the models into it. It then runs one or more
statements that join the staging table against the target: INSERT,
UPDATE, upsert (UPDATE then anti-join INSERT), insert-if-changed against
the latest row per key, or a SELECT. The caller can get back the rows the
statements return, as models.

This project models that core:

- `Sql`: psycopg2's composed SQL as `Frag` values, with PostgreSQL
  identifier quoting (`QuoteIdent`), its scanner (`ReadIdent`) and the
  text a fragment renders to.
- `Predicates`: the ON and WHERE conditions as a `Cond` tree. `ToFrag`
  renders it to the same text the source composes. `Eval` gives its
  three-valued SQL meaning over a row pair.
- `Orm`: the Django field and model metadata the library reads.
  `Seqs` holds sequence filtering and set enumeration.
- `Utils`: staging-table naming and the NULL sentinel.
- `Queries`: every statement generator. `QueryProperties` states what
  each generated statement means and the text it renders to.
- `Django`: field selection, the TSV serialiser with its `TsvBuffer`
  class, and result rows back to model attributes.
- `Roles`: which fields the update and upsert operations use as keys,
  compare fields, update fields and insert fields.
- `BulkLoad`: the operations of `bulk_load.py`, as methods proved against
  specification functions of what they execute and return.
- `BulkSelect`: `bulk_select_model_dicts`.
- `Config`: the global `BulkLoadConfig` and `configure`.

Some inputs come from outside the library. They enter the model as
parameters:

- the UUID hex of a fresh staging name;
- the per-field value hook (`pre_save` and `get_db_prep_save`);
- csv's quoting of one field;
- `from_db_value` and `get_db_prep_value`;
- the database, as a function from a statement's position and text to
  its result set;
- the iteration order of a Python set, as a sequence required to list
  the set exactly once.

## Model

| member | source | states |
|---|---|---|
| Sql.QuotedIdentReadsBack | django_bulk_load/queries.py:7-17 | A quoted identifier scans back to exactly the name it quotes, whatever the name holds (embedded double quotes included), leaving the text after it untouched. |
| Sql.QuoteIdentInjective | django_bulk_load/queries.py:7-17 | Two names with the same quoted identifier are the same name, so distinct table and column names never collide in the generated SQL. |
| Utils.GenerateTableName | django_bulk_load/utils.py:3-17 | The staging name is `loading_`, then a prefix of the source table name, then `_` and the hex. With a hex of at most 53 characters, the name is at most 62 characters, under PostgreSQL's 63-character limit. A short source name is kept whole; a long one is cut to exactly 53 - \|hex\| characters. |
| Utils.SliceTo | django_bulk_load/utils.py:16 | Python's `s[:n]`: a prefix of `s`, of length n (or all of `s`) for n >= 0, and the length from the end for a negative n. |
| QueryProperties.CreateTempTableText | django_bulk_load/queries.py:7-17 | The staging table is created empty, as a copy of the listed source columns in the given order, and is dropped at commit. |
| QueryProperties.CopyQueryText | django_bulk_load/queries.py:19-22 | COPY reads tab-separated CSV from standard input into the staging table, and reads NULL from exactly the serialiser's sentinel `\N`. |
| Queries.AddReturning | django_bulk_load/queries.py:24-30 | The statement's text is followed by ` RETURNING "t".*` for the given table. |
| QueryProperties.JoinConditionSelects | django_bulk_load/queries.py:33-47 | The join keeps a row pair iff every key column is non-NULL and equal on both sides. |
| QueryProperties.JoinConditionText | django_bulk_load/queries.py:33-47 | The join renders one `"s"."c" = "d"."c"` per key field, in field order, joined by AND. |
| QueryProperties.JoinConditionWellNested | django_bulk_load/queries.py:33-47 | The join is a flat AND of comparisons, and it is empty exactly when there are no key fields. |
| QueryProperties.DistinctConditionHolds | django_bulk_load/queries.py:50-66 | The distinct condition is never unknown. It holds iff some compare column differs between the two sides, NULL against a value included. |
| QueryProperties.DistinctConditionText | django_bulk_load/queries.py:50-66 | One `IS DISTINCT FROM` per compare field, in field order, joined by OR. |
| QueryProperties.DistinctConditionBlank | django_bulk_load/queries.py:50-66 | The distinct condition renders to no text exactly when there are no compare fields. The source's UPDATE still wraps it as `() AND (join)` (see Findings). The corrected UPDATE drops the empty part. |
| QueryProperties.DistinctConditionWellNested | django_bulk_load/queries.py:50-66 | The distinct condition is a flat OR, empty exactly when there are no compare fields. |
| QueryProperties.GreaterThanSelects | django_bulk_load/queries.py:69-80 | The greater-than condition keeps a row pair iff both values are non-NULL and the source value is the greater. |
| QueryProperties.DistinctNullTermHolds | django_bulk_load/queries.py:83-99 | One update-if-null term is never unknown. It holds iff the two values differ and at least one of them is NULL. |
| QueryProperties.DistinctNullTermIgnoresNonNull | django_bulk_load/queries.py:83-99 | When both values are non-NULL the term is false, however they differ. |
| QueryProperties.DistinctNullConditionHolds | django_bulk_load/queries.py:83-99 | The condition holds iff some update-if-null column differs with NULL on one side. |
| QueryProperties.DistinctNullConditionNotBlank | django_bulk_load/queries.py:83-99 | With at least one field the condition renders to some text. |
| QueryProperties.DistinctNullConditionWellNested | django_bulk_load/queries.py:83-99 | The condition groups under SQL's precedence as built (each term's OR of two IS NULL tests is parenthesised under its AND). It is empty exactly when there are no fields. |
| QueryProperties.InsertQueryText | django_bulk_load/queries.py:102-139 | The INSERT names the same columns, in the same order, in its insert list and its select list, reads them from the staging table, and ends in `ON CONFLICT DO NOTHING` exactly when conflicts are ignored. |
| QueryProperties.LeftJoinRows | django_bulk_load/queries.py:141-165 | A LEFT JOIN pairs a staging row with the matching target rows. With no match it pairs it with one all-NULL row. |
| QueryProperties.AntiJoinInsertsUnmatched | django_bulk_load/queries.py:141-165 | The upsert's INSERT keeps a staging row iff no target row has its key, so it never inserts a key the UPDATE already matched. |
| QueryProperties.SelectLatestText | django_bulk_load/queries.py:169-185 | The latest-row subquery is DISTINCT ON the key columns. It inner-joins the staging table on the key, and orders by the same key columns and then the order column, descending. |
| QueryProperties.NotMatchLatestInserts | django_bulk_load/queries.py:188-224 | For any subquery result, insert-if-changed keeps a staging row iff no row of that result has its key, or the joined row differs from it in some compare field. |
| QueryProperties.NotMatchLatestCount | django_bulk_load/queries.py:169-224 | `LatestFor` is what `DISTINCT ON (key) ... ORDER BY key, order DESC` yields per key: one target row with that key that sorts first under DESC (NULL first, then the greatest), or none when no target row has the key. Against it, each staging row is inserted at most once. It is inserted once when its key has no version, and otherwise iff the latest version differs from it in some compare field. |
| QueryProperties.NotMatchLatestThreeVersions | django_bulk_load/queries.py:169-224 | With three versions of a key ordered 1, 2 and 3, only version 3 decides. A staging row equal to it in every compare field inserts nothing, even if it differs from older versions; one that differs from it inserts exactly one row. |
| QueryProperties.NotMatchLatestNeedsCompareFields | django_bulk_load/queries.py:188-224 | With no compare fields the WHERE renders as `"t"."pk" IS NULL OR ` with nothing after the OR. The filter is well formed exactly when there are compare fields. |
| QueryProperties.PlainAssignmentsEffect | django_bulk_load/queries.py:239-249 | Plain assignments name the fields' columns in order. PostgreSQL accepts them iff the list is non-empty and no column repeats. They then write exactly those columns, each with its staged value. |
| QueryProperties.IfNullAssignmentsEffect | django_bulk_load/queries.py:251-263 | Update-if-null assignments name the fields' columns in order. PostgreSQL accepts them iff the list is non-empty and no column repeats. They then write exactly those columns: the staged value when either side is NULL, otherwise the current value. |
| QueryProperties.UpdateAssignmentsEffect | django_bulk_load/queries.py:239-264 | PostgreSQL rejects the UPDATE iff its SET list is empty or names a column twice. It is empty when no update field is plainly updated (neither AutoField nor auto_now_add) and there is no update-if-null field: `update_field_names=[]`, only the primary key named, or an upsert whose only updatable fields are auto_now_add. It repeats a column for an update field listed twice, an update-if-null field listed twice, or a field both plainly updated and updated if null. Otherwise the SET list writes exactly the plainly updated and the update-if-null columns. A plain column takes the staged value; an update-if-null column takes the CASE value. |
| QueryProperties.IfNullKeepsNonNull | django_bulk_load/queries.py:251-263 | When both the staged and the current value are non-NULL, an update-if-null column keeps its current value. |
| QueryProperties.ChangedConditionHolds | django_bulk_load/queries.py:271-289 | Without a caller predicate, the WHERE is never unknown and holds iff a compare column is distinct or an update-if-null column differs with NULL on one side. It renders empty exactly when both field lists are empty. |
| QueryProperties.ChangedConditionWellNested | django_bulk_load/queries.py:271-289 | The default WHERE is well formed, and empty exactly when both field lists are empty. |
| QueryProperties.UpdateFilterAsWrittenEmptyWhere | django_bulk_load/queries.py:266-302 | As written, the WHERE is always `(where) AND (join)`. When the where part renders empty, the text is `() AND (join)`. Without a caller predicate, that happens exactly when there are no compare and no update-if-null fields. When the where part renders text, the as-written and corrected filters agree. |
| QueryProperties.UpdateFilterSelects | django_bulk_load/queries.py:266-302 | Corrected filter (see Findings). Without a caller predicate, the UPDATE touches a target row iff its key matches a staging row and, when there are compare or update-if-null fields, the row changed. With neither, the filter is the join alone. |
| QueryProperties.UpdateFilterCustom | django_bulk_load/queries.py:271-302 | Corrected filter (see Findings). With a caller predicate, the compare and update-if-null fields play no part. A row is touched iff the key matches and the predicate holds or renders empty. |
| QueryProperties.UpdateFilterWellNested | django_bulk_load/queries.py:266-302 | Corrected filter (see Findings). With at least one key field the full WHERE is well formed for any predicate and field lists. |
| QueryProperties.SelectQueryText | django_bulk_load/queries.py:305-336 | The join SELECT returns `"t".*` when no select fields are given, otherwise exactly the listed columns, and joins on the key columns. |
| QueryProperties.ValuesSelectQueryText | django_bulk_load/queries.py:339-364 | The VALUES select returns the listed columns, filters on the tuple of filter columns, and ends in `FOR UPDATE` exactly when asked to. |
| Seqs.FilterMembership | django_bulk_load/django.py:83-95 | An element is kept by a filter iff it is in the input and satisfies the predicate. |
| Orm.GetField | django_bulk_load/django.py:98-101 | A lookup finds a field of the model by its name or its attname, and fails only when no field has either. |
| Django.ModelFieldsKeep | django_bulk_load/django.py:83-95 | get_model_fields keeps exactly the model's fields that have a column, are not many-to-many, and are not AutoFields unless those are asked for. |
| Django.ModelFieldsMonotone | django_bulk_load/django.py:83-95 | Asking for AutoFields only adds fields. |
| Django.GetModelFields | django_bulk_load/django.py:83-95 | The loop collects exactly the fields the specification selects, in model order. |
| Django.GetFieldsFromNames | django_bulk_load/django.py:98-101 | Succeeds iff every name is a field of the model, giving the fields in name order. Otherwise it fails with the first unknown name. |
| Django.GetFieldsAndNames | django_bulk_load/django.py:104-112 | No names gives the model's fields. Given names give those fields, and fail iff a name is unknown. The names returned are the fields' names, position by position. |
| Django.GetPkFields | django_bulk_load/django.py:115-121 | No pk names gives the model's primary key. Otherwise the named fields, failing iff a name is unknown. The result is never empty. |
| Django.TsvBuffer.constructor | django_bulk_load/django.py:66 | A new buffer is empty and positioned at its start. |
| Django.TsvBuffer.Write | django_bulk_load/django.py:78 | A write overwrites the text from the position on, extends it past its end, and moves the position past what was written. |
| Django.TsvBuffer.Seek | django_bulk_load/django.py:79 | A seek moves the position and leaves the text alone. |
| Django.ModelsToTsvBuffer | django_bulk_load/django.py:60-80 | The buffer holds one line per model, in model order, with one field per included field in field order (the corrected field encoding, see Findings). It is rewound to its start. |
| Django.TsvTextLineCount | django_bulk_load/django.py:60-80 | When no value holds a line break, the copied text holds exactly one line break per model, so COPY reads one row per model. |
| Django.CopyFieldNullIffNone | django_bulk_load/django.py:72-77 | With the corrected field encoding, COPY reads NULL for a field exactly when the value hook returned None. |
| Django.SentinelTextLoadsAsNull | django_bulk_load/django.py:72-77 | As written, a non-NULL value whose text is `\N` is written exactly as NULL is, so COPY loads it as NULL. |
| Django.EntryIsSentinel | django_bulk_load/django.py:72-77 | As written, the entry is the sentinel iff the value is None or its text (or JSON dump) is `\N`. |
| Django.ZipMap | django_bulk_load/django.py:41 | `dict(zip(columns, row))` has a key for each column that has a value in the row, and no other key. |
| Django.ModelAttrs | django_bulk_load/django.py:27-49 | A model is built with one attribute per field's attname and no other. |
| Django.ModelAttrsField | django_bulk_load/django.py:27-49 | Each field's attribute is its converted result value when the result has its column, and deferred otherwise. |
| Django.RecordsToModels | django_bulk_load/django.py:22-52 | One model per record, in record order, each built from the record zipped with the result's columns over all the model's concrete fields. |
| Roles.UpdateRolesSeparate | django_bulk_load/bulk_load.py:239-279 | The update fields are exactly the concrete fields (all of them, or the named ones) that are neither keys nor update-if-null fields; the UPDATE's SET list keeps only those that are neither AutoField nor auto_now_add (see `QueryProperties.UpdateAssignmentsEffect`). It compares exactly the operated fields that are not model-changed, not keys, not update-if-null and not AutoFields. |
| Roles.UpdateRolesStage | django_bulk_load/bulk_load.py:239-279 | The staged columns are exactly the operated-on name set: update fields, keys, model-changed fields and update-if-null fields. Each key, model-changed and update-if-null name is among them. |
| Roles.UpsertRolesSeparate | django_bulk_load/bulk_load.py:345-366 | The upsert inserts every concrete non-auto field. It compares exactly those not insert-only, not model-changed and not keys. Its update fields are exactly those not insert-only, not keys and not update-if-null; the UPDATE's SET list keeps only those that are neither AutoField nor auto_now_add (see `QueryProperties.UpdateAssignmentsEffect`). |
| Roles.UpsertInsertsModelFields | django_bulk_load/bulk_load.py:345-366 | Whenever the pk names are fields of the model the roles are found, and the insert fields are then the model's non-auto concrete fields, in model order. |
| BulkLoad.CreateTempTableAndLoad | django_bulk_load/bulk_load.py:38-66 | The method runs the CREATE and COPY that the staging specification gives, and copies the buffer from its start. |
| BulkLoad.StagedLoadShape | django_bulk_load/bulk_load.py:38-66 | No models fails before any statement. Otherwise it fails iff a named field is unknown. On success it runs two statements, the second COPYing into the table the first created. A non-empty given name is used as is. The copied text has one line per model. |
| BulkLoad.ExecuteQueriesAndReturnModels | django_bulk_load/bulk_load.py:69-88 | Fails with "no query returns results" iff no statement returns a result set. Otherwise it returns the models of every statement that returns a result set, concatenated in statement order. |
| BulkLoad.ReturnedSingle | django_bulk_load/bulk_load.py:69-88 | When exactly one statement returns rows, the models returned are built from those rows. |
| BulkLoad.ReturnedNone | django_bulk_load/bulk_load.py:69-88 | When no statement returns rows, no models are collected. |
| BulkLoad.BulkLoadModelsWithQueries | django_bulk_load/bulk_load.py:91-141 | The method stages the models, then runs the load statements in order, and returns models only when asked to. |
| BulkLoad.LoadOutcomeShape | django_bulk_load/bulk_load.py:91-141 | The statements run are CREATE, COPY, then the load statements in the given order. Models come back iff asked for. It fails iff a named field is unknown, or models are asked for and no statement returns any. |
| BulkLoad.BulkInsertModels | django_bulk_load/bulk_load.py:144-201 | No models returns at once. Models of which some have a pk and some do not fail with "mixed pks". Otherwise it loads with one INSERT into the model's table. |
| BulkLoad.InsertStatementShape | django_bulk_load/bulk_load.py:144-201 | The INSERT includes the AutoField iff the models carry pks, and returns the inserted rows iff models are asked for. |
| BulkLoad.BulkUpdateModels | django_bulk_load/bulk_load.py:204-310 | No models returns at once. An unknown field name fails. Otherwise it stages the operated-on fields and runs the UPDATE (then the SELECT when models are asked for). |
| BulkLoad.UpdateReturnsSelected | django_bulk_load/bulk_load.py:294-310 | With models asked for, the update runs two statements, the second being the SELECT joined on the keys. The models returned are the rows that SELECT gives. |
| BulkLoad.UpsertQueries | django_bulk_load/bulk_load.py:369-404 | The statement queue is built as the upsert specification gives it: the UPDATE when there are update fields, the SELECT when models are asked for, then the anti-join INSERT. |
| BulkLoad.BulkUpsertModels | django_bulk_load/bulk_load.py:313-411 | No models returns at once. Otherwise it loads with the upsert's roles and statement queue, failing on an unknown field name. |
| BulkLoad.UpsertStatementOrder | django_bulk_load/bulk_load.py:369-404 | The UPDATE (if any) comes first, then the SELECT (if models are asked for), and last the INSERT of unmatched rows, with RETURNING when models are asked for. |
| BulkLoad.UpsertStatementsOk | django_bulk_load/bulk_load.py:369-404 | With no update-if-null names the queue is always built. |
| BulkLoad.FirstIn | django_bulk_load/bulk_load.py:455-462 | Finds the first name in a disallowed set, and finds none iff no name is disallowed. |
| BulkLoad.BulkInsertChangedModels | django_bulk_load/bulk_load.py:414-493 | No models returns at once. Otherwise it loads with the insert-if-changed statements, or fails as their checks do. |
| BulkLoad.InsertChangedGuards | django_bulk_load/bulk_load.py:443-485 | An order field among the keys fails. The statements are built iff the order field is not a key and every compare name is a field, not a key name and not the order field. It runs one statement, or two when models are asked for. |
| BulkSelect.TransformFilterData | django_bulk_load/bulk_load.py:544-553 | The loop converts each filter tuple value by value with its filter field's conversion, or fails as the transform specification does. |
| BulkSelect.TransformedShape | django_bulk_load/bulk_load.py:544-553 | The transform fails iff some tuple has more values than there are filter fields. Otherwise the i-th value of every tuple is converted with the i-th filter field. |
| BulkSelect.FieldMap | django_bulk_load/bulk_load.py:571 | The column-to-field map has exactly the select fields' columns as keys, each mapped to a field with that column. |
| BulkSelect.RowDictShape | django_bulk_load/bulk_load.py:571-583 | A result row becomes a dict iff every returned column is a selected field's column, failing with the first that is not. The dict's keys are exactly those fields' attnames. |
| BulkSelect.RowDictAt | django_bulk_load/bulk_load.py:571-583 | Each selected field's attname maps to its column's value converted by the field. |
| BulkSelect.DictsShape | django_bulk_load/bulk_load.py:571-583 | All rows convert, in order, or the first row that does not gives the error. |
| BulkSelect.RowsToDicts | django_bulk_load/bulk_load.py:571-583 | The loop converts the rows as the dict specification gives them. |
| BulkSelect.DictsPrefixErr | django_bulk_load/bulk_load.py:571-583 | Once a prefix of the rows fails, the later rows do not change the error. |
| BulkSelect.BulkSelectModelDicts | django_bulk_load/bulk_load.py:496-594 | No filter data returns no dicts and runs nothing. Otherwise it runs the VALUES select with the transformed tuples, or fails before running anything, and converts the rows the database returns. |
| BulkSelect.SelectionCoversFilter | django_bulk_load/bulk_load.py:531-535 | Every filter field and every named select field is selected, and nothing else is. |
| Config.BulkLoadConfig.constructor | django_bulk_load/__init__.py:24-35 | Both flags start on. |
| Config.BulkLoadConfig.Configure | django_bulk_load/__init__.py:42-58 | Keys are applied in order. An unknown key raises with that key and leaves the earlier keys applied. No keys changes nothing. |
| Config.ConfigureKnownKey | django_bulk_load/__init__.py:42-58 | A known key sets exactly its own flag. |
| Config.UnnamedFlagsUnchanged | django_bulk_load/__init__.py:42-58 | A flag no key names keeps its value. |
| Config.UnknownKeyKeepsEarlier | django_bulk_load/__init__.py:42-58 | An unknown key raises after every key before it is applied and before any key after it. |

## Left out

- The database, the transaction and the cursor are not modelled. A
  statement's effect is given by the `cursor` parameter, per position, and
  by `Eval` over row pairs. Row-level locking (`FOR UPDATE`) is text only.
- Logging and timing are not modelled.
- A statement PostgreSQL rejects is not an error path of the operations.
  The operations take each statement's result from the `cursor`
  parameter. `QueryProperties.UpdateAssignmentsEffect` states when the
  UPDATE is rejected.
- UpdateFilterSelects: states the corrected filter, not the source's. The
  source's filter with no compare and no update-if-null fields renders
  `() AND (join)`, which PostgreSQL rejects (see Findings).
- UpdateFilterCustom: states the corrected filter. With a caller predicate
  that renders empty, the source also renders `() AND (join)`.
- UpdateFilterWellNested: states the corrected filter. The source's filter
  is not well formed when its where part renders empty.
- A caller's `update_where` always returns a fragment here. A callable
  that returns None makes the source's `if where_clause` false and leaves
  the join alone; that case is not modelled.
- NotMatchLatestNeedsCompareFields: it exhibits the source's broken text
  with no compare fields (`... IS NULL OR ` with nothing after it). No
  corrected insert-if-changed statement is modelled. Its meaning (insert
  only when the key has no version) is the same for the text as written.
- Roles.UpdateRolesSeparate: update-if-null names are filtered out of the
  update fields by name as given, as the source does. An update-if-null
  field named by its attname stays among the update fields, and the
  UPDATE then names its column twice, which PostgreSQL rejects.
- Nothing in bulk_load.py or queries.py reads the two configuration
  flags, and neither file holds a MERGE statement. The flags and
  `configure` are modelled as state only. `__init__.py:8-9` and
  `__init__.py:15-19` import names (`_bulk_upsert_models_with_copy`,
  `_bulk_update_models_with_copy` and the `generate_merge_*` builders)
  that neither file defines, so importing the package as shipped fails.
  That import is not modelled.
- csv.writer's quoting is the `quote` parameter, not its algorithm. The
  properties that need it state what they assume of it (no added line
  breaks; minimal quoting).
- The value hooks (`pre_save`/`get_db_prep_save`, `get_db_prep_value`,
  `from_db_value`) and Json's dump are parameters, not modelled.
- Python set iteration order is a parameter that lists the set exactly
  once. The model proves facts that hold for every order.
- Django.TsvBuffer.Write: only writes at a position within the text are
  modelled, which is all the serialiser does. StringIO's zero-padding past
  the end is left out.
- Utils.GenerateTableName: counts characters, as Python's `len` does, not
  bytes. PostgreSQL's limit is in bytes, so non-ASCII names are not
  covered by the length bound.
- Utils.GenerateTableName: the length bound is stated only for a hex of at
  most 53 characters. A longer hex makes the slice bound negative and the
  source name is then cut from the end, as Python slicing does.
- Django.ModelAttrsField: stated only for fields with distinct attnames,
  which Django's own model checks guarantee.
- BulkSelect.RowDictAt: stated only for distinct attnames among the
  returned columns' fields, for the same reason.
- Django.RecordsToModels: builds the attribute map that the model
  constructor receives. `Model.from_db` and `_state.adding` are not
  modelled.
- `pk_field_names=None` and an empty list are the same input (`[]`), as
  the source's truthiness test treats them.
- BulkLoad.InsertChangedGuards: the compare-name check looks at the names
  as given, as the source does. A compare name that is a key's attname
  rather than its name passes the check.
- BulkLoad.BulkUpsertModels: the source's pk list is never empty (a model
  always has a pk). The model still has a branch for an empty list, which
  returns IndexOutOfRange.
- BulkLoad.LoadOutcomeShape: stated for a non-empty model list.
  `bulk_load_models_with_queries` with no models raises IndexError on
  `models[0]`, which the model returns as IndexOutOfRange.
- Config.BulkLoadConfig.Configure: `hasattr` on the real object also
  accepts Python's own attribute names (dunder names, methods), and
  `setattr` accepts values of any type. The model accepts exactly the two
  flags, with boolean values.

## Findings

| source | as written | input that shows it | evidently intended | confidence | as-written member | corrected member |
|---|---|---|---|---|---|---|
| django_bulk_load/queries.py:266-302 | `if where_clause` tests a composed SQL object, which is always true. So the WHERE is always `(where) AND (join)`, even when the where part renders empty. | `bulk_update_models` with `update_field_names=["f"]` and `model_changed_field_names=["f"]` and no update-if-null fields: there are no compare fields, so the distinct condition is empty and the UPDATE reads `WHERE () AND (join)`. A caller predicate that renders empty does the same. | An empty where part adds no filter: the WHERE is the key join alone. | not executed | QueryProperties.UpdateFilterAsWrittenEmptyWhere | QueryProperties.UpdateFilterSelects |
| django_bulk_load/django.py:72-77 | A None value is written as the text `\N`. Any other value is written as its `str()` or JSON dump, which csv leaves unquoted when it holds no delimiter, quote or line break. COPY runs with `NULL '\N' CSV`. | A CharField or TextField whose value is the two-character text `\N` | A value that is not None loads as that text. Only None loads as NULL. | not executed | Django.SentinelTextLoadsAsNull | Django.CopyFieldNullIffNone |

`Queries.UpdateFilterAsWritten` is the UPDATE's WHERE as written, and
`Queries.UpdateFilter` is the corrected WHERE that `Queries.UpdateQuery`
uses.

`Django.QuotedEntry` is the field text as written. `Django.CopyField` is
the corrected field text: it writes a non-NULL value whose text is `\N`
as the quoted `"\N"`, which CSV-mode COPY reads as text. The serialiser
(`Django.ModelsToTsvBuffer`, `Django.TsvText`) and everything that stages
models use the corrected encoding.
