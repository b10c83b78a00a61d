/**
 * The statement generators of django_bulk_load/queries.py. Each returns the
 * fragment the source composes; the conditions inside are built as `Cond`
 * values and rendered with `ToFrag`, which gives the same text.
 */
module Queries {
  import opened Wrappers
  import opened Sql
  import opened Predicates
  import opened Orm
  import Seqs

  /** A caller's `update_where(update_fields, loading_table_name, table_name)`. */
  type WhereBuilder = (seq<Field>, string, string) -> Frag

  /** `"c1", "c2", ...` */
  function ColumnList(columns: seq<string>): Frag
  {
    Join(", ", seq(|columns|, i requires 0 <= i < |columns| => Ident(columns[i])))
  }

  /** `"t"."c1", "t"."c2", ...` */
  function QualifiedList(table: string, columns: seq<string>): Frag
  {
    Join(", ", seq(|columns|, i requires 0 <= i < |columns| => OperandFrag(Column(table, columns[i]))))
  }

  function CreateTempTable(tempTableName: string, sourceTableName: string, columnNames: seq<string>): Frag
  {
    Cat([Kw("CREATE TEMPORARY TABLE "), Ident(tempTableName), Kw(" ON COMMIT DROP AS SELECT "),
         ColumnList(columnNames), Kw(" FROM "), Ident(sourceTableName), Kw(" WITH NO DATA")])
  }

  /** The COPY statement; its NULL literal is the serialiser's sentinel `\N`. */
  function CopyQuery(tableName: string): Frag
  {
    Cat([Kw("COPY "), Ident(tableName), Kw(" FROM STDIN NULL '\\N' DELIMITER '\t' CSV")])
  }

  function AddReturning(query: Frag, tableName: string): (r: Frag)
    ensures Render(r) == Render(query) + " RETURNING " + QuoteIdent(tableName) + ".*"
  {
    var returning := Cat([Kw(" RETURNING "), Ident(tableName), Kw(".*")]);
    RenderCatCons(query, [returning]);
    RenderCatSingle(returning);
    RenderCatCons(Kw(" RETURNING "), [Ident(tableName), Kw(".*")]);
    RenderCatCons(Ident(tableName), [Kw(".*")]);
    RenderCatSingle(Kw(".*"));
    Cat([query, returning])
  }

  /** `src.c = dst.c` for each field, joined by AND. */
  function JoinCondition(sourceTableName: string, destinationTableName: string, fields: seq<Field>): Cond
  {
    AllOf(seq(|fields|, i requires 0 <= i < |fields| =>
      Equal(Column(sourceTableName, fields[i].column), Column(destinationTableName, fields[i].column))))
  }

  /** `src.c IS DISTINCT FROM dst.c` for each compare field, joined by OR. */
  function DistinctCondition(sourceTableName: string, destinationTableName: string, compareFields: seq<Field>): Cond
  {
    AnyOf(seq(|compareFields|, i requires 0 <= i < |compareFields| =>
      DistinctFrom(Column(sourceTableName, compareFields[i].column), Column(destinationTableName, compareFields[i].column))))
  }

  function GreaterThanCondition(sourceTableName: string, destinationTableName: string, field: Field): Cond
  {
    GreaterThan(Column(sourceTableName, field.column), Column(destinationTableName, field.column))
  }

  /** `s.c IS DISTINCT FROM d.c AND (s.c IS NULL OR d.c IS NULL)` */
  function DistinctNullTerm(sourceTableName: string, destinationTableName: string, column: string): Cond
  {
    var s, d := Column(sourceTableName, column), Column(destinationTableName, column);
    AllOf([DistinctFrom(s, d), Paren(AnyOf([IsNull(s), IsNull(d)]))])
  }

  function DistinctNullCondition(sourceTableName: string, destinationTableName: string, compareFields: seq<Field>): Cond
  {
    AnyOf(seq(|compareFields|, i requires 0 <= i < |compareFields| =>
      DistinctNullTerm(sourceTableName, destinationTableName, compareFields[i].column)))
  }

  function InsertQuery(tableName: string, loadingTableName: string, ignoreConflicts: bool, insertFields: seq<Field>): Frag
  {
    var query := Cat([Kw("INSERT INTO "), Ident(tableName), Kw(" ("), ColumnList(Columns(insertFields)),
                      Kw(") SELECT "), QualifiedList(loadingTableName, Columns(insertFields)),
                      Kw(" FROM "), Ident(loadingTableName)]);
    if ignoreConflicts then Cat([query, Kw(" ON CONFLICT DO NOTHING")]) else query
  }

  /** The anti-join test: the left-joined target row has no first pk column. */
  function AntiJoinFilter(tableName: string, pkFields: seq<Field>): Cond
    requires |pkFields| > 0
  {
    IsNull(Column(tableName, pkFields[0].column))
  }

  /** Inserts the staging rows that no target row matches on the pk fields (indexes pk_fields[0]). */
  function InsertForUpdateQuery(tableName: string, loadingTableName: string, pkFields: seq<Field>, insertFields: seq<Field>): Frag
    requires |pkFields| > 0
  {
    Cat([Kw("INSERT INTO "), Ident(tableName), Kw(" ("), ColumnList(Columns(insertFields)),
         Kw(") SELECT "), QualifiedList(loadingTableName, Columns(insertFields)),
         Kw(" FROM "), Ident(loadingTableName),
         Kw(" LEFT JOIN "), Ident(tableName), Kw(" ON "), ToFrag(JoinCondition(loadingTableName, tableName, pkFields)),
         Kw(" WHERE "), ToFrag(AntiJoinFilter(tableName, pkFields))])
  }

  /** Per pk group, the target row with the greatest order column (DISTINCT ON ... ORDER BY ... DESC). */
  function SelectLatest(tableName: string, loadingTableName: string, pkFields: seq<Field>, orderField: Field): Frag
  {
    var pkColumns := QualifiedList(tableName, Columns(pkFields));
    Cat([Kw("SELECT DISTINCT ON ("), pkColumns, Kw(") "), Ident(tableName), Kw(".* from "), Ident(tableName),
         Kw(" INNER JOIN "), Ident(loadingTableName), Kw(" ON "),
         ToFrag(JoinCondition(loadingTableName, tableName, pkFields)),
         Kw(" ORDER BY "), pkColumns, Kw(", "), OperandFrag(Column(tableName, orderField.column)), Kw(" DESC")])
  }

  /** No latest row for the key, or the latest row differs in some compare field. */
  function NotMatchLatestFilter(tableName: string, loadingTableName: string, pkFields: seq<Field>, compareFields: seq<Field>): Cond
    requires |pkFields| > 0
  {
    AnyOf([IsNull(Column(tableName, pkFields[0].column)), DistinctCondition(loadingTableName, tableName, compareFields)])
  }

  function InsertOnNotMatchLatest(
    tableName: string, loadingTableName: string, pkFields: seq<Field>,
    compareFields: seq<Field>, orderField: Field, insertFields: seq<Field>): Frag
    requires |pkFields| > 0
  {
    Cat([Kw("INSERT INTO "), Ident(tableName), Kw(" ("), ColumnList(Columns(insertFields)),
         Kw(") SELECT "), QualifiedList(loadingTableName, Columns(insertFields)),
         Kw(" FROM "), Ident(loadingTableName),
         Kw(" LEFT JOIN ("), SelectLatest(tableName, loadingTableName, pkFields, orderField), Kw(") "), Ident(tableName),
         Kw(" ON "), ToFrag(JoinCondition(loadingTableName, tableName, pkFields)),
         Kw(" WHERE "), ToFrag(NotMatchLatestFilter(tableName, loadingTableName, pkFields, compareFields))])
  }

  // ---------------------------------------------------------------------
  // UPDATE ... SET ... FROM ... WHERE

  /** One `column = value` of the SET list. */
  datatype Assignment = Assignment(column: string, value: Expr)

  /** Update fields that are assigned plainly: neither AutoFields nor auto_now_add fields. */
  predicate PlainlyUpdated(f: Field)
  {
    !f.autoNowAdd && !f.isAuto
  }

  /** `c = CASE WHEN l.c IS NULL OR t.c IS NULL THEN l.c ELSE t.c END` */
  function IfNullAssignment(tableName: string, loadingTableName: string, column: string): Assignment
  {
    var l, t := Column(loadingTableName, column), Column(tableName, column);
    Assignment(column, CaseWhen(AnyOf([IsNull(l), IsNull(t)]), l, t))
  }

  /** `c = l.c` for each field. */
  function PlainAssignments(loadingTableName: string, fields: seq<Field>): seq<Assignment>
  {
    seq(|fields|, i requires 0 <= i < |fields| => Assignment(fields[i].column, Ref(Column(loadingTableName, fields[i].column))))
  }

  function IfNullAssignments(tableName: string, loadingTableName: string, fields: seq<Field>): seq<Assignment>
  {
    seq(|fields|, i requires 0 <= i < |fields| => IfNullAssignment(tableName, loadingTableName, fields[i].column))
  }

  /** The SET list: the plainly updated fields first, then the update-if-null fields. */
  function Assignments(tableName: string, loadingTableName: string, updateFields: seq<Field>, updateIfNullFields: seq<Field>): seq<Assignment>
  {
    PlainAssignments(loadingTableName, Seqs.Filter(updateFields, PlainlyUpdated))
    + IfNullAssignments(tableName, loadingTableName, updateIfNullFields)
  }

  function AssignmentFrag(a: Assignment): Frag
  {
    Cat([Ident(a.column), Kw(" = "), ExprFrag(a.value)])
  }

  /** Without a caller predicate: the rows that changed in a compare field, or in an update-if-null field. */
  function ChangedCondition(tableName: string, loadingTableName: string, compareFields: seq<Field>, updateIfNullFields: seq<Field>): Cond
  {
    var distinct := DistinctCondition(loadingTableName, tableName, compareFields);
    if updateIfNullFields != [] then
      var distinctNull := DistinctNullCondition(loadingTableName, tableName, updateIfNullFields);
      if compareFields != [] then AnyOf([distinct, distinctNull]) else distinctNull
    else distinct
  }

  /** The UPDATE's own condition: the caller's predicate when one is given, the changed condition otherwise. */
  function UpdateWhere(
    tableName: string, loadingTableName: string, updateFields: seq<Field>,
    compareFields: seq<Field>, updateWhere: Option<WhereBuilder>, updateIfNullFields: seq<Field>): Cond
  {
    if updateWhere.Some? then Custom(updateWhere.value(updateFields, loadingTableName, tableName))
    else ChangedCondition(tableName, loadingTableName, compareFields, updateIfNullFields)
  }

  /**
   * The full WHERE: `(where) AND (join)`, or the join alone when the where
   * renders empty. This is the corrected form of the source's test, which
   * is `UpdateFilterAsWritten`.
   */
  function UpdateFilter(
    tableName: string, loadingTableName: string, pkFields: seq<Field>, updateFields: seq<Field>,
    compareFields: seq<Field>, updateWhere: Option<WhereBuilder>, updateIfNullFields: seq<Field>): Cond
  {
    var join := JoinCondition(loadingTableName, tableName, pkFields);
    var where := UpdateWhere(tableName, loadingTableName, updateFields, compareFields, updateWhere, updateIfNullFields);
    if !Blank(ToFrag(where)) then AllOf([Paren(where), Paren(join)]) else join
  }

  /**
   * The full WHERE as the source writes it. Its test `if where_clause`
   * looks at a composed SQL object, which is always true, so the where is
   * wrapped as `(where) AND (join)` even when it renders empty.
   */
  function UpdateFilterAsWritten(
    tableName: string, loadingTableName: string, pkFields: seq<Field>, updateFields: seq<Field>,
    compareFields: seq<Field>, updateWhere: Option<WhereBuilder>, updateIfNullFields: seq<Field>): Cond
  {
    var join := JoinCondition(loadingTableName, tableName, pkFields);
    var where := UpdateWhere(tableName, loadingTableName, updateFields, compareFields, updateWhere, updateIfNullFields);
    AllOf([Paren(where), Paren(join)])
  }

  /** `update_if_null_fields` None is passed as []. */
  function UpdateQuery(
    tableName: string, loadingTableName: string, pkFields: seq<Field>, updateFields: seq<Field>,
    compareFields: seq<Field>, updateWhere: Option<WhereBuilder>, updateIfNullFields: seq<Field>): Frag
  {
    var assignments := Assignments(tableName, loadingTableName, updateFields, updateIfNullFields);
    Cat([Kw("UPDATE "), Ident(tableName), Kw(" SET "),
         Join(", ", seq(|assignments|, i requires 0 <= i < |assignments| => AssignmentFrag(assignments[i]))),
         Kw(" FROM "), Ident(loadingTableName), Kw(" WHERE "),
         ToFrag(UpdateFilter(tableName, loadingTableName, pkFields, updateFields, compareFields, updateWhere, updateIfNullFields))])
  }

  // ---------------------------------------------------------------------
  // SELECT

  /** `select_fields` None is passed as []: both select `table.*`. */
  function SelectQuery(tableName: string, loadingTableName: string, joinFields: seq<Field>, selectFields: seq<Field>): Frag
  {
    var fields := if selectFields != [] then QualifiedList(tableName, Columns(selectFields))
                  else Cat([Ident(tableName), Kw(".*")]);
    Cat([Kw("SELECT "), fields, Kw(" FROM "), Ident(tableName), Kw(" INNER JOIN "), Ident(loadingTableName),
         Kw(" ON "), ToFrag(JoinCondition(loadingTableName, tableName, joinFields))])
  }

  /** `%s` is the placeholder execute_values fills with the filter tuples. */
  function ValuesSelectQuery(tableName: string, filterFields: seq<Field>, selectFields: seq<Field>, selectForUpdate: bool): Frag
  {
    var forUpdate := if selectForUpdate then Kw(" FOR UPDATE") else Kw("");
    Cat([Kw("SELECT "), ColumnList(Columns(selectFields)), Kw(" from "), Ident(tableName),
         Kw(" where ("), ColumnList(Columns(filterFields)), Kw(") IN (VALUES %s)"), forUpdate])
  }
}
