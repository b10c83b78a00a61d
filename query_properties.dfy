/**
 * What the generated statements mean: which row pairs their ON and WHERE
 * clauses keep, what the UPDATE writes into a matched row, which staging
 * rows the anti-join inserts, and the text the statements render to.
 */
module QueryProperties {
  import opened Wrappers
  import opened Sql
  import opened Predicates
  import opened Orm
  import opened Queries
  import Seqs
  import Utils

  // ---------------------------------------------------------------------
  // Conditions

  /** A join condition keeps a row pair iff every pk column is non-NULL and equal on both sides. */
  lemma JoinConditionSelects(src: string, dst: string, fields: seq<Field>, env: Env)
    ensures Selects(JoinCondition(src, dst, fields), env) <==>
      forall i :: 0 <= i < |fields| ==>
        Lookup(env, Column(src, fields[i].column)).Some? &&
        Lookup(env, Column(src, fields[i].column)) == Lookup(env, Column(dst, fields[i].column))
  {
    var ps := JoinCondition(src, dst, fields).parts;
    forall i | 0 <= i < |ps|
      ensures Eval(ps[i], env) == True <==>
        Lookup(env, Column(src, fields[i].column)).Some? &&
        Lookup(env, Column(src, fields[i].column)) == Lookup(env, Column(dst, fields[i].column))
    {
      assert ps[i] == Equal(Column(src, fields[i].column), Column(dst, fields[i].column));
    }
    EvalAllTrue(ps, env);
  }

  /**
   * The distinct condition is never UNKNOWN, and it is TRUE iff some compare
   * column differs, a NULL against a value counting as a difference and two
   * NULLs as equal.
   */
  lemma DistinctConditionHolds(src: string, dst: string, fields: seq<Field>, env: Env)
    ensures Eval(DistinctCondition(src, dst, fields), env) != Unknown
    ensures Eval(DistinctCondition(src, dst, fields), env) == True <==>
      exists i :: 0 <= i < |fields| && Lookup(env, Column(src, fields[i].column)) != Lookup(env, Column(dst, fields[i].column))
  {
    var ps := DistinctCondition(src, dst, fields).parts;
    forall i | 0 <= i < |ps|
      ensures Eval(ps[i], env) == FromBool(Lookup(env, Column(src, fields[i].column)) != Lookup(env, Column(dst, fields[i].column)))
    {
      assert ps[i] == DistinctFrom(Column(src, fields[i].column), Column(dst, fields[i].column));
    }
    EvalAnyTrue(ps, env);
    EvalAnyDefinite(ps, env);
  }

  /** One distinct-null disjunct: TRUE iff the values differ and one of them is NULL; never UNKNOWN. */
  lemma DistinctNullTermHolds(src: string, dst: string, column: string, env: Env)
    ensures var a, b := Lookup(env, Column(src, column)), Lookup(env, Column(dst, column));
      && Eval(DistinctNullTerm(src, dst, column), env) != Unknown
      && (Eval(DistinctNullTerm(src, dst, column), env) == True <==> a != b && (a.None? || b.None?))
  {
    var s, d := Column(src, column), Column(dst, column);
    EvalAll2(DistinctFrom(s, d), Paren(AnyOf([IsNull(s), IsNull(d)])), env);
    EvalAny2(IsNull(s), IsNull(d), env);
  }

  /** So the distinct-null condition never fires when both sides hold (different) values. */
  lemma DistinctNullTermIgnoresNonNull(src: string, dst: string, column: string, env: Env)
    requires Lookup(env, Column(src, column)).Some? && Lookup(env, Column(dst, column)).Some?
    ensures Eval(DistinctNullTerm(src, dst, column), env) == False
  {
    DistinctNullTermHolds(src, dst, column, env);
  }

  predicate NullDiffers(env: Env, src: string, dst: string, column: string)
  {
    var a, b := Lookup(env, Column(src, column)), Lookup(env, Column(dst, column));
    a != b && (a.None? || b.None?)
  }

  lemma DistinctNullConditionHolds(src: string, dst: string, fields: seq<Field>, env: Env)
    ensures Eval(DistinctNullCondition(src, dst, fields), env) != Unknown
    ensures Eval(DistinctNullCondition(src, dst, fields), env) == True <==>
      exists i :: 0 <= i < |fields| && NullDiffers(env, src, dst, fields[i].column)
  {
    var ps := DistinctNullCondition(src, dst, fields).parts;
    forall i | 0 <= i < |ps|
      ensures Eval(ps[i], env) != Unknown
      ensures Eval(ps[i], env) == True <==> NullDiffers(env, src, dst, fields[i].column)
    {
      DistinctNullTermHolds(src, dst, fields[i].column, env);
    }
    EvalAnyTrue(ps, env);
    EvalAnyDefinite(ps, env);
  }

  lemma GreaterThanSelects(src: string, dst: string, field: Field, env: Env)
    ensures var a, b := Lookup(env, Column(src, field.column)), Lookup(env, Column(dst, field.column));
      Selects(GreaterThanCondition(src, dst, field), env) <==>
        a.Some? && b.Some? && GreaterValue(a.value, b.value) == True
  {
  }

  // ---------------------------------------------------------------------
  // Blank conditions

  lemma OperandNotBlank(op: Operand)
    ensures Render(OperandFrag(op)) != []
  {
    RenderAllAt(OperandFrag(op).parts, 0);
    ConcatNonEmpty(RenderAll(OperandFrag(op).parts), 0);
  }

  /** A list condition whose first operand starts with a column renders to some text. */
  lemma ListNotBlank(c: Cond)
    requires c.AllOf? || c.AnyOf?
    requires c.parts != [] && (c.parts[0].DistinctFrom? || c.parts[0].Equal?)
    ensures !Blank(ToFrag(c))
  {
    var head := c.parts[0];
    var hf := ToFrag(head);
    OperandNotBlank(head.left);
    RenderAllAt(hf.parts, 0);
    ConcatNonEmpty(RenderAll(hf.parts), 0);
    ToFragsAt(c.parts, 0);
    RenderAllAt(ToFrags(c.parts), 0);
    JoinNonEmpty(if c.AllOf? then " AND " else " OR ", RenderAll(ToFrags(c.parts)));
  }

  /** The distinct condition renders empty iff there are no compare fields. */
  lemma DistinctConditionBlank(src: string, dst: string, fields: seq<Field>)
    ensures Blank(ToFrag(DistinctCondition(src, dst, fields))) <==> fields == []
  {
    if fields != [] {
      ListNotBlank(DistinctCondition(src, dst, fields));
    }
  }

  lemma DistinctNullConditionNotBlank(src: string, dst: string, fields: seq<Field>)
    requires fields != []
    ensures !Blank(ToFrag(DistinctNullCondition(src, dst, fields)))
  {
    var c := DistinctNullCondition(src, dst, fields);
    ListNotBlank(c.parts[0]);
    ToFragsAt(c.parts, 0);
    RenderAllAt(ToFrags(c.parts), 0);
    JoinNonEmpty(" OR ", RenderAll(ToFrags(c.parts)));
  }

  // ---------------------------------------------------------------------
  // The UPDATE's WHERE clause

  /** Some compare field differs, or some update-if-null field differs with a NULL on one side. */
  predicate Changed(env: Env, tableName: string, loadingTableName: string, compareFields: seq<Field>, updateIfNullFields: seq<Field>)
  {
    || (exists i :: 0 <= i < |compareFields| &&
          Lookup(env, Column(loadingTableName, compareFields[i].column)) != Lookup(env, Column(tableName, compareFields[i].column)))
    || (exists i :: 0 <= i < |updateIfNullFields| && NullDiffers(env, loadingTableName, tableName, updateIfNullFields[i].column))
  }

  /**
   * The changed condition is two-valued, is TRUE iff a compare field or an
   * update-if-null field changed, and renders empty iff both lists are empty.
   */
  lemma ChangedConditionHolds(tableName: string, loadingTableName: string, compareFields: seq<Field>, updateIfNullFields: seq<Field>, env: Env)
    ensures Eval(ChangedCondition(tableName, loadingTableName, compareFields, updateIfNullFields), env) != Unknown
    ensures Eval(ChangedCondition(tableName, loadingTableName, compareFields, updateIfNullFields), env) == True <==>
      Changed(env, tableName, loadingTableName, compareFields, updateIfNullFields)
    ensures Blank(ToFrag(ChangedCondition(tableName, loadingTableName, compareFields, updateIfNullFields))) <==>
      compareFields == [] && updateIfNullFields == []
  {
    var d := DistinctCondition(loadingTableName, tableName, compareFields);
    var dn := DistinctNullCondition(loadingTableName, tableName, updateIfNullFields);
    DistinctConditionHolds(loadingTableName, tableName, compareFields, env);
    DistinctNullConditionHolds(loadingTableName, tableName, updateIfNullFields, env);
    DistinctConditionBlank(loadingTableName, tableName, compareFields);
    if updateIfNullFields != [] {
      DistinctNullConditionNotBlank(loadingTableName, tableName, updateIfNullFields);
      if compareFields != [] {
        var c := AnyOf([d, dn]);
        EvalAny2(d, dn, env);
        ToFragsAt(c.parts, 0);
        RenderAllAt(ToFrags(c.parts), 0);
        JoinNonEmpty(" OR ", RenderAll(ToFrags(c.parts)));
      }
    }
  }

  /**
   * Without a caller predicate the UPDATE touches a matched row iff it
   * changed; with no compare and no update-if-null fields the WHERE is the
   * join condition alone.
   */
  lemma UpdateFilterSelects(
    tableName: string, loadingTableName: string, pkFields: seq<Field>, updateFields: seq<Field>,
    compareFields: seq<Field>, updateIfNullFields: seq<Field>, env: Env)
    ensures var filter := UpdateFilter(tableName, loadingTableName, pkFields, updateFields, compareFields, None, updateIfNullFields);
      Selects(filter, env) <==>
        && Selects(JoinCondition(loadingTableName, tableName, pkFields), env)
        && ((compareFields == [] && updateIfNullFields == []) || Changed(env, tableName, loadingTableName, compareFields, updateIfNullFields))
    ensures UpdateFilter(tableName, loadingTableName, pkFields, updateFields, compareFields, None, updateIfNullFields)
              == JoinCondition(loadingTableName, tableName, pkFields)
            <==> compareFields == [] && updateIfNullFields == []
  {
    ChangedConditionHolds(tableName, loadingTableName, compareFields, updateIfNullFields, env);
    var join := JoinCondition(loadingTableName, tableName, pkFields);
    var changed := ChangedCondition(tableName, loadingTableName, compareFields, updateIfNullFields);
    if !Blank(ToFrag(changed)) {
      var filter := AllOf([Paren(changed), Paren(join)]);
      EvalAll2(Paren(changed), Paren(join), env);
      assert filter != join by {
        if |join.parts| == |filter.parts| {
          assert join.parts[0].Equal? && filter.parts[0].Paren?;
        }
      }
    }
  }

  /**
   * A caller predicate replaces the changed condition entirely: the WHERE no
   * longer depends on the compare or update-if-null fields, and keeps a pair
   * iff the predicate is TRUE and the join holds (the join alone if the
   * predicate renders empty).
   */
  lemma UpdateFilterCustom(
    tableName: string, loadingTableName: string, pkFields: seq<Field>, updateFields: seq<Field>,
    compareFields: seq<Field>, updateIfNullFields: seq<Field>,
    otherCompareFields: seq<Field>, otherUpdateIfNullFields: seq<Field>,
    updateWhere: WhereBuilder, env: Env)
    ensures UpdateFilter(tableName, loadingTableName, pkFields, updateFields, compareFields, Some(updateWhere), updateIfNullFields)
         == UpdateFilter(tableName, loadingTableName, pkFields, updateFields, otherCompareFields, Some(updateWhere), otherUpdateIfNullFields)
    ensures var custom := updateWhere(updateFields, loadingTableName, tableName);
      Selects(UpdateFilter(tableName, loadingTableName, pkFields, updateFields, compareFields, Some(updateWhere), updateIfNullFields), env) <==>
        && Selects(JoinCondition(loadingTableName, tableName, pkFields), env)
        && (Blank(custom) || env.judge(custom) == True)
  {
    var custom := updateWhere(updateFields, loadingTableName, tableName);
    var join := JoinCondition(loadingTableName, tableName, pkFields);
    if !Blank(custom) {
      EvalAll2(Paren(Custom(custom)), Paren(join), env);
    }
  }

  /**
   * The source's own WHERE, which wraps the where part even when it renders
   * empty: the text is then `() AND (join)`, which PostgreSQL rejects.
   * Without a caller predicate that happens exactly when there are no
   * compare and no update-if-null fields. Whenever the where part renders
   * text, the source's WHERE is the corrected one.
   */
  lemma UpdateFilterAsWrittenEmptyWhere(
    tableName: string, loadingTableName: string, pkFields: seq<Field>, updateFields: seq<Field>,
    compareFields: seq<Field>, updateWhere: Option<WhereBuilder>, updateIfNullFields: seq<Field>)
    ensures updateWhere.None? ==>
      (Blank(ToFrag(UpdateWhere(tableName, loadingTableName, updateFields, compareFields, updateWhere, updateIfNullFields))) <==>
       compareFields == [] && updateIfNullFields == [])
    ensures Blank(ToFrag(UpdateWhere(tableName, loadingTableName, updateFields, compareFields, updateWhere, updateIfNullFields))) ==>
      Render(ToFrag(UpdateFilterAsWritten(tableName, loadingTableName, pkFields, updateFields, compareFields, updateWhere, updateIfNullFields)))
        == "() AND (" + Render(ToFrag(JoinCondition(loadingTableName, tableName, pkFields))) + ")"
    ensures !Blank(ToFrag(UpdateWhere(tableName, loadingTableName, updateFields, compareFields, updateWhere, updateIfNullFields))) ==>
      UpdateFilterAsWritten(tableName, loadingTableName, pkFields, updateFields, compareFields, updateWhere, updateIfNullFields)
        == UpdateFilter(tableName, loadingTableName, pkFields, updateFields, compareFields, updateWhere, updateIfNullFields)
  {
    var where := UpdateWhere(tableName, loadingTableName, updateFields, compareFields, updateWhere, updateIfNullFields);
    var join := JoinCondition(loadingTableName, tableName, pkFields);
    if updateWhere.None? {
      ChangedConditionHolds(tableName, loadingTableName, compareFields, updateIfNullFields, Env((t, c) => None, f => Unknown));
    }
    if Blank(ToFrag(where)) {
      EmptyWhereText(where, join);
    }
  }

  /** `(where) AND (join)` with a where that renders empty. */
  lemma EmptyWhereText(where: Cond, join: Cond)
    requires Blank(ToFrag(where))
    ensures Render(ToFrag(AllOf([Paren(where), Paren(join)]))) == "() AND (" + Render(ToFrag(join)) + ")"
  {
    var parts := [Paren(where), Paren(join)];
    var fs := ToFrags(parts);
    var rs := RenderAll(fs);
    ToFragsAt(parts, 0);
    ToFragsAt(parts, 1);
    RenderAllAt(fs, 0);
    RenderAllAt(fs, 1);
    RenderCat3(Kw("("), ToFrag(where), Kw(")"));
    RenderCat3(Kw("("), ToFrag(join), Kw(")"));
    assert rs[0] == "()";
    assert rs[1..] == [rs[1]];
    assert JoinStrings(" AND ", rs) == rs[0] + " AND " + JoinStrings(" AND ", rs[1..]);
  }

  lemma JoinConditionWellNested(src: string, dst: string, fields: seq<Field>)
    ensures WellNested(JoinCondition(src, dst, fields))
    ensures EmptyList(JoinCondition(src, dst, fields)) <==> fields == []
  {
    var c := JoinCondition(src, dst, fields);
    forall i | 0 <= i < |c.parts|
      ensures WellNested(c.parts[i]) && !EmptyList(c.parts[i]) && !c.parts[i].Custom? && !c.parts[i].AnyOf?
    {
      assert c.parts[i] == Equal(Column(src, fields[i].column), Column(dst, fields[i].column));
    }
  }

  lemma DistinctConditionWellNested(src: string, dst: string, fields: seq<Field>)
    ensures WellNested(DistinctCondition(src, dst, fields))
    ensures EmptyList(DistinctCondition(src, dst, fields)) <==> fields == []
  {
    var c := DistinctCondition(src, dst, fields);
    forall i | 0 <= i < |c.parts|
      ensures WellNested(c.parts[i]) && !EmptyList(c.parts[i]) && !c.parts[i].Custom?
    {
      assert c.parts[i] == DistinctFrom(Column(src, fields[i].column), Column(dst, fields[i].column));
    }
  }

  /** The OR inside each distinct-null term is parenthesised, so it groups under the AND. */
  lemma DistinctNullConditionWellNested(src: string, dst: string, fields: seq<Field>)
    ensures WellNested(DistinctNullCondition(src, dst, fields))
    ensures EmptyList(DistinctNullCondition(src, dst, fields)) <==> fields == []
  {
    var c := DistinctNullCondition(src, dst, fields);
    forall i | 0 <= i < |c.parts|
      ensures WellNested(c.parts[i]) && !EmptyList(c.parts[i]) && !c.parts[i].Custom?
    {
      var s, d := Column(src, fields[i].column), Column(dst, fields[i].column);
      var inner := AnyOf([IsNull(s), IsNull(d)]);
      assert WellNested(inner) by {
        forall j | 0 <= j < 2 ensures WellNested(inner.parts[j]) && !EmptyList(inner.parts[j]) && !inner.parts[j].Custom? {
        }
      }
      var term := AllOf([DistinctFrom(s, d), Paren(inner)]);
      forall j | 0 <= j < 2
        ensures WellNested(term.parts[j]) && !EmptyList(term.parts[j]) && !term.parts[j].Custom?
        ensures !(term.parts[j].AnyOf? && |term.parts[j].parts| > 1)
      {
      }
      assert c.parts[i] == term;
    }
  }

  lemma ChangedConditionWellNested(tableName: string, loadingTableName: string, compareFields: seq<Field>, updateIfNullFields: seq<Field>)
    ensures WellNested(ChangedCondition(tableName, loadingTableName, compareFields, updateIfNullFields))
    ensures EmptyList(ChangedCondition(tableName, loadingTableName, compareFields, updateIfNullFields))
      <==> compareFields == [] && updateIfNullFields == []
  {
    var d := DistinctCondition(loadingTableName, tableName, compareFields);
    var dn := DistinctNullCondition(loadingTableName, tableName, updateIfNullFields);
    DistinctConditionWellNested(loadingTableName, tableName, compareFields);
    DistinctNullConditionWellNested(loadingTableName, tableName, updateIfNullFields);
    if compareFields != [] && updateIfNullFields != [] {
      var c := AnyOf([d, dn]);
      forall j | 0 <= j < 2 ensures WellNested(c.parts[j]) && !EmptyList(c.parts[j]) && !c.parts[j].Custom? {
      }
    }
  }

  /**
   * The UPDATE's WHERE text groups as its tree: a non-empty where clause and
   * the join are each parenthesised, and no empty `()` is emitted.
   */
  lemma UpdateFilterWellNested(
    tableName: string, loadingTableName: string, pkFields: seq<Field>, updateFields: seq<Field>,
    compareFields: seq<Field>, updateWhere: Option<WhereBuilder>, updateIfNullFields: seq<Field>)
    requires pkFields != []
    ensures WellNested(UpdateFilter(tableName, loadingTableName, pkFields, updateFields, compareFields, updateWhere, updateIfNullFields))
  {
    var join := JoinCondition(loadingTableName, tableName, pkFields);
    JoinConditionWellNested(loadingTableName, tableName, pkFields);
    var where := if updateWhere.Some? then Custom(updateWhere.value(updateFields, loadingTableName, tableName))
                 else ChangedCondition(tableName, loadingTableName, compareFields, updateIfNullFields);
    if !Blank(ToFrag(where)) {
      if updateWhere.None? {
        ChangedConditionWellNested(tableName, loadingTableName, compareFields, updateIfNullFields);
        ChangedConditionHolds(tableName, loadingTableName, compareFields, updateIfNullFields,
          Env((t: string, c: string) => None, (f: Frag) => Unknown));
      }
      var filter := AllOf([Paren(where), Paren(join)]);
      forall j | 0 <= j < 2
        ensures WellNested(filter.parts[j]) && !EmptyList(filter.parts[j]) && !filter.parts[j].Custom?
        ensures !(filter.parts[j].AnyOf? && |filter.parts[j].parts| > 1)
      {
      }
    }
  }

  // ---------------------------------------------------------------------
  // The UPDATE's SET list

  /** The columns a SET list names, in order. */
  function Targets(assignments: seq<Assignment>): (r: seq<string>)
    ensures |r| == |assignments| && forall i :: 0 <= i < |assignments| ==> r[i] == assignments[i].column
  {
    seq(|assignments|, i requires 0 <= i < |assignments| => assignments[i].column)
  }

  predicate NoRepeats(columns: seq<string>)
  {
    forall i, j :: 0 <= i < j < |columns| ==> columns[i] != columns[j]
  }

  /** Each assignment evaluated against the old pair, column by column. */
  function Written(assignments: seq<Assignment>, env: Env): map<string, Cell>
  {
    if assignments == [] then map[]
    else
      var last := assignments[|assignments| - 1];
      Written(assignments[..|assignments| - 1], env)[last.column := EvalExpr(last.value, env)]
  }

  /**
   * What UPDATE ... SET writes into a matched row. PostgreSQL rejects an
   * empty SET list (its grammar needs at least one assignment) and one
   * that names a column twice ("multiple assignments to same column");
   * both are None here.
   */
  function Apply(assignments: seq<Assignment>, env: Env): Option<map<string, Cell>>
  {
    if assignments != [] && NoRepeats(Targets(assignments)) then Some(Written(assignments, env)) else None
  }

  predicate Assigns(assignments: seq<Assignment>, column: string)
  {
    exists i :: 0 <= i < |assignments| && assignments[i].column == column
  }

  lemma {:induction false} WrittenDomain(assignments: seq<Assignment>, env: Env, column: string)
    ensures column in Written(assignments, env) <==> Assigns(assignments, column)
  {
    if assignments != [] {
      var init := assignments[..|assignments| - 1];
      WrittenDomain(init, env, column);
      if Assigns(assignments, column) && assignments[|assignments| - 1].column != column {
        var i :| 0 <= i < |assignments| && assignments[i].column == column;
        assert init[i].column == column;
      }
    }
  }

  /** When every assignment to a column yields the same value, that is the column's new value. */
  lemma {:induction false} WrittenUniform(assignments: seq<Assignment>, env: Env, column: string, v: Cell)
    requires Assigns(assignments, column)
    requires forall i :: 0 <= i < |assignments| && assignments[i].column == column ==> EvalExpr(assignments[i].value, env) == v
    ensures column in Written(assignments, env) && Written(assignments, env)[column] == v
  {
    var init := assignments[..|assignments| - 1];
    if assignments[|assignments| - 1].column != column {
      var i :| 0 <= i < |assignments| && assignments[i].column == column;
      assert init[i].column == column;
      WrittenUniform(init, env, column, v);
    }
  }

  /** A column the back of the list assigns takes the back's value; any other keeps the front's. */
  lemma {:induction false} WrittenAppend(front: seq<Assignment>, back: seq<Assignment>, env: Env, column: string)
    requires column in Written(front, env) || Assigns(back, column)
    ensures column in Written(back, env) <==> Assigns(back, column)
    ensures column in Written(front + back, env)
    ensures Written(front + back, env)[column] ==
      if Assigns(back, column) then Written(back, env)[column] else Written(front, env)[column]
  {
    WrittenDomain(back, env, column);
    if back == [] {
      assert front + back == front;
    } else {
      var all := front + back;
      var last := back[|back| - 1];
      var init := back[..|back| - 1];
      assert all[..|all| - 1] == front + init;
      assert all[|all| - 1] == last;
      if last.column != column {
        if Assigns(back, column) {
          var i :| 0 <= i < |back| && back[i].column == column;
          assert init[i].column == column;
        }
        WrittenAppend(front, init, env, column);
      }
    }
  }

  /** The value an update-if-null column receives: the staging value if either side is NULL, else the old value. */
  function IfNullValue(staged: Cell, current: Cell): Cell
  {
    if staged.None? || current.None? then staged else current
  }

  /**
   * Plain assignments name the fields' columns in order; PostgreSQL
   * accepts them iff there is at least one and no column repeats, and
   * each column then takes the staging value.
   */
  lemma PlainAssignmentsEffect(loadingTableName: string, fields: seq<Field>, env: Env, column: string)
    ensures Targets(PlainAssignments(loadingTableName, fields)) == Columns(fields)
    ensures Apply(PlainAssignments(loadingTableName, fields), env).Some? <==> fields != [] && NoRepeats(Columns(fields))
    ensures Apply(PlainAssignments(loadingTableName, fields), env).Some? ==>
      && (column in Apply(PlainAssignments(loadingTableName, fields), env).value <==> column in Columns(fields))
      && (column in Columns(fields) ==>
            Apply(PlainAssignments(loadingTableName, fields), env).value[column] == Lookup(env, Column(loadingTableName, column)))
  {
    var asg := PlainAssignments(loadingTableName, fields);
    assert Targets(asg) == Columns(fields);
    WrittenDomain(asg, env, column);
    if column in Columns(fields) {
      var i :| 0 <= i < |fields| && Columns(fields)[i] == column;
      assert asg[i].column == column;
      WrittenUniform(asg, env, column, Lookup(env, Column(loadingTableName, column)));
    }
  }

  /**
   * Update-if-null assignments name the fields' columns in order;
   * PostgreSQL accepts them iff there is at least one and no column
   * repeats, and each column then takes IfNullValue of the staging and
   * the current value.
   */
  lemma IfNullAssignmentsEffect(tableName: string, loadingTableName: string, fields: seq<Field>, env: Env, column: string)
    ensures Targets(IfNullAssignments(tableName, loadingTableName, fields)) == Columns(fields)
    ensures Apply(IfNullAssignments(tableName, loadingTableName, fields), env).Some? <==> fields != [] && NoRepeats(Columns(fields))
    ensures Apply(IfNullAssignments(tableName, loadingTableName, fields), env).Some? ==>
      && (column in Apply(IfNullAssignments(tableName, loadingTableName, fields), env).value <==> column in Columns(fields))
      && (column in Columns(fields) ==>
            Apply(IfNullAssignments(tableName, loadingTableName, fields), env).value[column]
              == IfNullValue(Lookup(env, Column(loadingTableName, column)), Lookup(env, Column(tableName, column))))
  {
    var asg := IfNullAssignments(tableName, loadingTableName, fields);
    var l, t := Column(loadingTableName, column), Column(tableName, column);
    assert Targets(asg) == Columns(fields);
    WrittenDomain(asg, env, column);
    if column in Columns(fields) {
      var i :| 0 <= i < |fields| && Columns(fields)[i] == column;
      assert asg[i].column == column;
      EvalAny2(IsNull(l), IsNull(t), env);
      assert EvalExpr(IfNullAssignment(tableName, loadingTableName, column).value, env)
          == IfNullValue(Lookup(env, l), Lookup(env, t));
      WrittenUniform(asg, env, column, IfNullValue(Lookup(env, l), Lookup(env, t)));
    }
  }

  /**
   * What UPDATE ... SET writes into a matched row. PostgreSQL rejects the
   * statement iff its SET list is empty (no plainly updated field, that
   * is neither an AutoField nor auto_now_add, and no update-if-null
   * field) or names a column twice: an update field listed twice, an
   * update-if-null field listed twice, or a field that is both plainly
   * updated and updated if null.
   * Otherwise every plainly updated column takes the staging value, every
   * update-if-null column takes IfNullValue, and no other column is
   * written.
   */
  lemma UpdateAssignmentsEffect(tableName: string, loadingTableName: string, updateFields: seq<Field>, updateIfNullFields: seq<Field>, env: Env, column: string)
    ensures var written := Apply(Assignments(tableName, loadingTableName, updateFields, updateIfNullFields), env);
      var plain := Columns(Seqs.Filter(updateFields, PlainlyUpdated));
      var ifNull := Columns(updateIfNullFields);
      && (written.Some? <==> plain + ifNull != [] && NoRepeats(plain + ifNull))
      && (written.Some? ==>
            && (column in written.value <==> column in plain || column in ifNull)
            && (column in ifNull ==>
                  written.value[column] == IfNullValue(Lookup(env, Column(loadingTableName, column)), Lookup(env, Column(tableName, column))))
            && (column in plain ==> written.value[column] == Lookup(env, Column(loadingTableName, column))))
  {
    var plainFields := Seqs.Filter(updateFields, PlainlyUpdated);
    var plain := Columns(plainFields);
    var ifNull := Columns(updateIfNullFields);
    var front := PlainAssignments(loadingTableName, plainFields);
    var back := IfNullAssignments(tableName, loadingTableName, updateIfNullFields);
    var all := front + back;
    assert Assignments(tableName, loadingTableName, updateFields, updateIfNullFields) == all;
    assert Targets(front) == plain && Targets(back) == ifNull;
    assert Targets(all) == plain + ifNull;
    assert (all != []) == (plain + ifNull != []) by {
      assert |Targets(all)| == |all|;
    }
    if all != [] && NoRepeats(plain + ifNull) {
      var written := Written(all, env);
      assert Apply(all, env) == Some(written);
      NoRepeatsAppend(plain, ifNull, column);
      WrittenDomain(front, env, column);
      WrittenDomain(back, env, column);
      WrittenDomain(all, env, column);
      if column in plain {
        PlainAssignmentsEffect(loadingTableName, plainFields, env, column);
        WrittenAppend(front, back, env, column);
      } else if column in ifNull {
        IfNullAssignmentsEffect(tableName, loadingTableName, updateIfNullFields, env, column);
        WrittenAppend(front, back, env, column);
      }
    }
  }

  /** A list without repeats splits into two without repeats that share no column. */
  lemma NoRepeatsAppend(a: seq<string>, b: seq<string>, column: string)
    requires NoRepeats(a + b)
    ensures NoRepeats(a) && NoRepeats(b)
    ensures !(column in a && column in b)
  {
    forall i, j | 0 <= i < j < |a| ensures a[i] != a[j] {
      assert (a + b)[i] == a[i] && (a + b)[j] == a[j];
    }
    forall i, j | 0 <= i < j < |b| ensures b[i] != b[j] {
      assert (a + b)[|a| + i] == b[i] && (a + b)[|a| + j] == b[j];
    }
    if column in a {
      var i :| 0 <= i < |a| && a[i] == column;
      forall j | 0 <= j < |b| ensures b[j] != column {
        assert (a + b)[i] == a[i] && (a + b)[|a| + j] == b[j];
      }
    }
  }

  /** An update-if-null column is never overwritten when both sides hold a value. */
  lemma IfNullKeepsNonNull(staged: Cell, current: Cell)
    requires staged.Some? && current.Some?
    ensures IfNullValue(staged, current) == current
  {
  }

  // ---------------------------------------------------------------------
  // LEFT JOIN semantics of the two inserts

  /** A row: column name to cell; a column that is absent reads as NULL. */
  type Row = map<string, Cell>

  function RowCell(r: Row, column: string): Cell
  {
    if column in r then r[column] else None
  }

  /** Evaluation context of one staging row s joined with one target row d. */
  function PairEnv(src: string, s: Row, dst: string, d: Row, judge: Frag -> Truth): Env
  {
    Env((table: string, column: string) =>
          if table == src then RowCell(s, column) else if table == dst then RowCell(d, column) else None,
        judge)
  }

  /** Whether the ON condition pairs the staging row s with the target row d. */
  function Pairs(on: Cond, src: string, s: Row, dst: string, judge: Frag -> Truth): Row -> bool
  {
    (d: Row) => Selects(on, PairEnv(src, s, dst, d, judge))
  }

  function Matches(on: Cond, src: string, s: Row, dst: string, targets: seq<Row>, judge: Frag -> Truth): seq<Row>
  {
    Seqs.Filter(targets, Pairs(on, src, s, dst, judge))
  }

  /** `s LEFT JOIN targets ON on`: the matching target rows, or one all-NULL row when none match. */
  function LeftJoin(on: Cond, src: string, s: Row, dst: string, targets: seq<Row>, judge: Frag -> Truth): seq<Row>
  {
    var m := Matches(on, src, s, dst, targets, judge);
    if m == [] then [map[]] else m
  }

  /** A row of the left join either matches the staging row or is the all-NULL row of an unmatched one. */
  lemma LeftJoinRows(on: Cond, src: string, s: Row, dst: string, targets: seq<Row>, judge: Frag -> Truth, d: Row)
    requires d in LeftJoin(on, src, s, dst, targets, judge)
    ensures Matches(on, src, s, dst, targets, judge) == [] <==> forall u :: u in targets ==> !Selects(on, PairEnv(src, s, dst, u, judge))
    ensures Matches(on, src, s, dst, targets, judge) == [] ==> d == map[]
    ensures Matches(on, src, s, dst, targets, judge) != [] ==> Selects(on, PairEnv(src, s, dst, d, judge))
  {
    var p := Pairs(on, src, s, dst, judge);
    var m := Matches(on, src, s, dst, targets, judge);
    forall u | u in targets ensures u in m <==> Selects(on, PairEnv(src, s, dst, u, judge)) {
      Seqs.FilterMembership(targets, p, u);
    }
    if m != [] {
      Seqs.FilterMembership(targets, p, m[0]);
      Seqs.FilterMembership(targets, p, d);
    }
  }

  /**
   * The upsert's anti-join insert adds a staging row exactly when no target
   * row matches it on the pk columns: a matched target row has a non-NULL
   * first pk column (the join demanded it), an unmatched one is all NULL.
   */
  lemma AntiJoinInsertsUnmatched(tableName: string, loadingTableName: string, pkFields: seq<Field>, s: Row, targets: seq<Row>, judge: Frag -> Truth)
    requires pkFields != [] && tableName != loadingTableName
    ensures var join := JoinCondition(loadingTableName, tableName, pkFields);
      forall d :: d in LeftJoin(join, loadingTableName, s, tableName, targets, judge) ==>
        (Selects(AntiJoinFilter(tableName, pkFields), PairEnv(loadingTableName, s, tableName, d, judge)) <==>
           (forall u :: u in targets ==> !Selects(join, PairEnv(loadingTableName, s, tableName, u, judge))))
  {
    var join := JoinCondition(loadingTableName, tableName, pkFields);
    forall d | d in LeftJoin(join, loadingTableName, s, tableName, targets, judge)
      ensures Selects(AntiJoinFilter(tableName, pkFields), PairEnv(loadingTableName, s, tableName, d, judge)) <==>
                (forall u :: u in targets ==> !Selects(join, PairEnv(loadingTableName, s, tableName, u, judge)))
    {
      var env := PairEnv(loadingTableName, s, tableName, d, judge);
      var key := pkFields[0].column;
      LeftJoinRows(join, loadingTableName, s, tableName, targets, judge, d);
      JoinConditionSelects(loadingTableName, tableName, pkFields, env);
      assert Lookup(env, Column(tableName, key)) == RowCell(d, key);
      if Selects(join, env) {
        assert Lookup(env, Column(loadingTableName, key)).Some?;
      }
    }
  }

  /**
   * The change-tracked insert adds a staging row exactly when no latest row
   * matches its key, or the matched latest row differs from it in some
   * compare field.
   */
  lemma NotMatchLatestInserts(
    tableName: string, loadingTableName: string, pkFields: seq<Field>, compareFields: seq<Field>,
    s: Row, latest: seq<Row>, judge: Frag -> Truth)
    requires pkFields != [] && tableName != loadingTableName
    ensures var join := JoinCondition(loadingTableName, tableName, pkFields);
      forall d :: d in LeftJoin(join, loadingTableName, s, tableName, latest, judge) ==>
        (Selects(NotMatchLatestFilter(tableName, loadingTableName, pkFields, compareFields), PairEnv(loadingTableName, s, tableName, d, judge)) <==>
           ((forall u :: u in latest ==> !Selects(join, PairEnv(loadingTableName, s, tableName, u, judge)))
            || exists i :: 0 <= i < |compareFields| && RowCell(s, compareFields[i].column) != RowCell(d, compareFields[i].column)))
  {
    var join := JoinCondition(loadingTableName, tableName, pkFields);
    forall d | d in LeftJoin(join, loadingTableName, s, tableName, latest, judge)
      ensures Selects(NotMatchLatestFilter(tableName, loadingTableName, pkFields, compareFields), PairEnv(loadingTableName, s, tableName, d, judge)) <==>
                ((forall u :: u in latest ==> !Selects(join, PairEnv(loadingTableName, s, tableName, u, judge)))
                 || exists i :: 0 <= i < |compareFields| && RowCell(s, compareFields[i].column) != RowCell(d, compareFields[i].column))
    {
      var env := PairEnv(loadingTableName, s, tableName, d, judge);
      var key := pkFields[0].column;
      assert Lookup(env, Column(tableName, key)) == RowCell(d, key);
      forall i | 0 <= i < |compareFields|
        ensures Lookup(env, Column(loadingTableName, compareFields[i].column)) == RowCell(s, compareFields[i].column)
        ensures Lookup(env, Column(tableName, compareFields[i].column)) == RowCell(d, compareFields[i].column)
      {
      }
      LeftJoinRows(join, loadingTableName, s, tableName, latest, judge, d);
      JoinConditionSelects(loadingTableName, tableName, pkFields, env);
      DistinctConditionHolds(loadingTableName, tableName, compareFields, env);
      EvalAny2(IsNull(Column(tableName, pkFields[0].column)), DistinctCondition(loadingTableName, tableName, compareFields), env);
      if Selects(join, env) {
        assert Lookup(env, Column(loadingTableName, key)).Some?;
      }
    }
  }

  /**
   * Whether order value a comes no later than b under `ORDER BY ... DESC`:
   * PostgreSQL sorts NULL above every value, so NULL comes first, then the
   * greater values.
   */
  predicate SortsFirstDesc(a: Cell, b: Cell)
  {
    a.None? || (b.Some? && (a.value == b.value || GreaterValue(a.value, b.value) == True))
  }

  /**
   * What the subquery `SELECT DISTINCT ON (pk) t.* FROM t INNER JOIN l ON
   * join ORDER BY pk, t.order DESC` holds for the key of staging row s,
   * as seen through the outer join: nothing when no target row has that
   * key, and otherwise exactly one target row with that key that sorts
   * first on the order column. Among rows that tie, PostgreSQL may return
   * any.
   */
  predicate LatestFor(on: Cond, src: string, s: Row, dst: string, targets: seq<Row>, latest: seq<Row>, orderColumn: string, judge: Frag -> Truth)
  {
    var key := Matches(on, src, s, dst, targets, judge);
    var found := Matches(on, src, s, dst, latest, judge);
    if key == [] then found == []
    else
      && |found| == 1
      && found[0] in key
      && forall u :: u in key ==> SortsFirstDesc(RowCell(found[0], orderColumn), RowCell(u, orderColumn))
  }

  /**
   * The copies of staging row s that `INSERT ... SELECT ... FROM l LEFT
   * JOIN (latest) t ON join WHERE filter` adds: one per joined row the
   * filter keeps.
   */
  function InsertedFor(
    tableName: string, loadingTableName: string, pkFields: seq<Field>, compareFields: seq<Field>,
    s: Row, latest: seq<Row>, judge: Frag -> Truth): seq<Row>
    requires pkFields != []
  {
    var keep := NotMatchLatestFilter(tableName, loadingTableName, pkFields, compareFields);
    Seqs.Filter(LeftJoin(JoinCondition(loadingTableName, tableName, pkFields), loadingTableName, s, tableName, latest, judge),
                (d: Row) => Selects(keep, PairEnv(loadingTableName, s, tableName, d, judge)))
  }

  /**
   * Against the latest version of each key, the change-tracked insert adds
   * each staging row at most once: once when the key has no version yet,
   * and otherwise once iff the latest version differs from it in some
   * compare field.
   */
  lemma NotMatchLatestCount(
    tableName: string, loadingTableName: string, pkFields: seq<Field>, compareFields: seq<Field>, orderColumn: string,
    s: Row, targets: seq<Row>, latest: seq<Row>, judge: Frag -> Truth)
    requires pkFields != [] && tableName != loadingTableName
    requires LatestFor(JoinCondition(loadingTableName, tableName, pkFields), loadingTableName, s, tableName, targets, latest, orderColumn, judge)
    ensures var join := JoinCondition(loadingTableName, tableName, pkFields);
      var inserted := InsertedFor(tableName, loadingTableName, pkFields, compareFields, s, latest, judge);
      var found := Matches(join, loadingTableName, s, tableName, latest, judge);
      && |inserted| <= 1
      && (Matches(join, loadingTableName, s, tableName, targets, judge) == [] ==> |inserted| == 1)
      && (Matches(join, loadingTableName, s, tableName, targets, judge) != [] ==>
            (|inserted| == 1 <==>
               exists i :: 0 <= i < |compareFields| && RowCell(s, compareFields[i].column) != RowCell(found[0], compareFields[i].column)))
  {
    var join := JoinCondition(loadingTableName, tableName, pkFields);
    var keep := NotMatchLatestFilter(tableName, loadingTableName, pkFields, compareFields);
    var p := (d: Row) => Selects(keep, PairEnv(loadingTableName, s, tableName, d, judge));
    var key := Matches(join, loadingTableName, s, tableName, targets, judge);
    var found := Matches(join, loadingTableName, s, tableName, latest, judge);
    var rows := LeftJoin(join, loadingTableName, s, tableName, latest, judge);
    var d := rows[0];
    assert |rows| == 1;
    assert rows == [] + [d];
    Seqs.FilterSnoc([], d, p);
    NotMatchLatestInserts(tableName, loadingTableName, pkFields, compareFields, s, latest, judge);
    LeftJoinRows(join, loadingTableName, s, tableName, latest, judge, d);
    if key != [] {
      Seqs.FilterMembership(latest, Pairs(join, loadingTableName, s, tableName, judge), d);
    }
  }

  /**
   * Three versions of one key, with order values 1, 2 and 3: whether the
   * staging row is inserted depends on the version with order 3 alone. A
   * staging row equal to it in every compare field is not inserted, even
   * when it differs from the older versions; one that differs from it in
   * some compare field is inserted exactly once.
   */
  lemma NotMatchLatestThreeVersions(
    tableName: string, loadingTableName: string, pkFields: seq<Field>, compareFields: seq<Field>, orderColumn: string,
    s: Row, v1: Row, v2: Row, v3: Row, latest: seq<Row>, judge: Frag -> Truth)
    requires pkFields != [] && tableName != loadingTableName
    requires forall v :: v in [v1, v2, v3] ==>
      Selects(JoinCondition(loadingTableName, tableName, pkFields), PairEnv(loadingTableName, s, tableName, v, judge))
    requires RowCell(v1, orderColumn) == Some(Int(1)) && RowCell(v2, orderColumn) == Some(Int(2)) && RowCell(v3, orderColumn) == Some(Int(3))
    requires LatestFor(JoinCondition(loadingTableName, tableName, pkFields), loadingTableName, s, tableName, [v1, v2, v3], latest, orderColumn, judge)
    ensures |InsertedFor(tableName, loadingTableName, pkFields, compareFields, s, latest, judge)| ==
      if exists i :: 0 <= i < |compareFields| && RowCell(s, compareFields[i].column) != RowCell(v3, compareFields[i].column) then 1 else 0
  {
    var join := JoinCondition(loadingTableName, tableName, pkFields);
    var targets := [v1, v2, v3];
    var pairs := Pairs(join, loadingTableName, s, tableName, judge);
    var key := Matches(join, loadingTableName, s, tableName, targets, judge);
    var found := Matches(join, loadingTableName, s, tableName, latest, judge);
    Seqs.FilterMembership(targets, pairs, v3);
    assert v3 in key;
    var t := found[0];
    assert t in targets;
    assert SortsFirstDesc(RowCell(t, orderColumn), RowCell(v3, orderColumn));
    assert t == v3;
    NotMatchLatestCount(tableName, loadingTableName, pkFields, compareFields, orderColumn, s, targets, latest, judge);
  }

  /**
   * The change-tracked insert's WHERE is well formed only with compare
   * fields: with none it renders as `"t"."pk" IS NULL OR ` with nothing
   * after the OR.
   */
  lemma NotMatchLatestNeedsCompareFields(tableName: string, loadingTableName: string, pkFields: seq<Field>, compareFields: seq<Field>)
    requires pkFields != []
    ensures WellNested(NotMatchLatestFilter(tableName, loadingTableName, pkFields, compareFields)) <==> compareFields != []
    ensures compareFields == [] ==>
      Render(ToFrag(NotMatchLatestFilter(tableName, loadingTableName, pkFields, compareFields)))
        == Render(ToFrag(IsNull(Column(tableName, pkFields[0].column)))) + " OR "
  {
    var c := NotMatchLatestFilter(tableName, loadingTableName, pkFields, compareFields);
    DistinctConditionWellNested(loadingTableName, tableName, compareFields);
    if compareFields == [] {
      assert !WellNested(c) by {
        assert EmptyList(c.parts[1]);
      }
      var fs := ToFrags(c.parts);
      var rs := RenderAll(fs);
      ToFragsAt(c.parts, 0);
      ToFragsAt(c.parts, 1);
      RenderAllAt(fs, 0);
      RenderAllAt(fs, 1);
      assert rs[1] == JoinStrings(" OR ", RenderAll(ToFrags([])));
      assert rs[1..] == [[]];
      assert JoinStrings(" OR ", rs) == rs[0] + " OR " + JoinStrings(" OR ", rs[1..]);
    } else {
      forall j | 0 <= j < 2 ensures WellNested(c.parts[j]) && !EmptyList(c.parts[j]) && !c.parts[j].Custom? {
      }
    }
  }

  // ---------------------------------------------------------------------
  // Statement text

  function QuotedColumns(columns: seq<string>): seq<string>
  {
    seq(|columns|, i requires 0 <= i < |columns| => QuoteIdent(columns[i]))
  }

  function QualifiedColumns(table: string, columns: seq<string>): seq<string>
  {
    seq(|columns|, i requires 0 <= i < |columns| => QuoteIdent(table) + "." + QuoteIdent(columns[i]))
  }

  lemma RenderOperand(op: Operand)
    ensures Render(OperandFrag(op)) == QuoteIdent(op.table) + "." + QuoteIdent(op.column)
  {
    RenderCat3(Ident(op.table), Kw("."), Ident(op.column));
  }

  lemma RenderColumnList(columns: seq<string>)
    ensures Render(ColumnList(columns)) == JoinStrings(", ", QuotedColumns(columns))
  {
    RenderAllElements(ColumnList(columns).parts);
    assert RenderAll(ColumnList(columns).parts) == QuotedColumns(columns);
  }

  lemma RenderQualifiedList(table: string, columns: seq<string>)
    ensures Render(QualifiedList(table, columns)) == JoinStrings(", ", QualifiedColumns(table, columns))
  {
    var ps := QualifiedList(table, columns).parts;
    RenderAllElements(ps);
    forall i | 0 <= i < |ps| ensures Render(ps[i]) == QualifiedColumns(table, columns)[i] {
      RenderOperand(Column(table, columns[i]));
    }
    assert RenderAll(ps) == QualifiedColumns(table, columns);
  }

  /** The join condition's text: one `"s"."c" = "d"."c"` per field, in field order, joined by AND. */
  lemma JoinConditionText(src: string, dst: string, fields: seq<Field>)
    ensures Render(ToFrag(JoinCondition(src, dst, fields))) ==
      JoinStrings(" AND ", seq(|fields|, i requires 0 <= i < |fields| =>
        QuoteIdent(src) + "." + QuoteIdent(fields[i].column) + " = " + QuoteIdent(dst) + "." + QuoteIdent(fields[i].column)))
  {
    var ps := JoinCondition(src, dst, fields).parts;
    var fs := ToFrags(ps);
    RenderAllElements(fs);
    forall i | 0 <= i < |ps|
      ensures Render(fs[i]) == QuoteIdent(src) + "." + QuoteIdent(fields[i].column) + " = " + QuoteIdent(dst) + "." + QuoteIdent(fields[i].column)
    {
      ToFragsAt(ps, i);
      var l, r := Column(src, fields[i].column), Column(dst, fields[i].column);
      RenderCat3(OperandFrag(l), Kw(" = "), OperandFrag(r));
      RenderOperand(l);
      RenderOperand(r);
    }
    assert RenderAll(fs) == seq(|fields|, i requires 0 <= i < |fields| =>
      QuoteIdent(src) + "." + QuoteIdent(fields[i].column) + " = " + QuoteIdent(dst) + "." + QuoteIdent(fields[i].column));
  }

  /** The distinct condition's text: one `IS DISTINCT FROM` per compare field, in order, joined by OR. */
  lemma DistinctConditionText(src: string, dst: string, fields: seq<Field>)
    ensures Render(ToFrag(DistinctCondition(src, dst, fields))) ==
      JoinStrings(" OR ", seq(|fields|, i requires 0 <= i < |fields| =>
        QuoteIdent(src) + "." + QuoteIdent(fields[i].column) + " IS DISTINCT FROM " + QuoteIdent(dst) + "." + QuoteIdent(fields[i].column)))
  {
    var ps := DistinctCondition(src, dst, fields).parts;
    var fs := ToFrags(ps);
    RenderAllElements(fs);
    forall i | 0 <= i < |ps|
      ensures Render(fs[i]) == QuoteIdent(src) + "." + QuoteIdent(fields[i].column) + " IS DISTINCT FROM " + QuoteIdent(dst) + "." + QuoteIdent(fields[i].column)
    {
      ToFragsAt(ps, i);
      var l, r := Column(src, fields[i].column), Column(dst, fields[i].column);
      RenderCat3(OperandFrag(l), Kw(" IS DISTINCT FROM "), OperandFrag(r));
      RenderOperand(l);
      RenderOperand(r);
    }
    assert RenderAll(fs) == seq(|fields|, i requires 0 <= i < |fields| =>
      QuoteIdent(src) + "." + QuoteIdent(fields[i].column) + " IS DISTINCT FROM " + QuoteIdent(dst) + "." + QuoteIdent(fields[i].column));
  }

  /**
   * The plain INSERT names the same columns, in the same order, in its
   * insert list and its select list, and ends in ON CONFLICT DO NOTHING
   * exactly when conflicts are ignored.
   */
  lemma InsertQueryText(tableName: string, loadingTableName: string, ignoreConflicts: bool, insertFields: seq<Field>)
    ensures var columns := Columns(insertFields);
      Render(InsertQuery(tableName, loadingTableName, ignoreConflicts, insertFields)) ==
        "INSERT INTO " + QuoteIdent(tableName) + " (" + JoinStrings(", ", QuotedColumns(columns))
        + ") SELECT " + JoinStrings(", ", QualifiedColumns(loadingTableName, columns))
        + " FROM " + QuoteIdent(loadingTableName)
        + (if ignoreConflicts then " ON CONFLICT DO NOTHING" else "")
  {
    var columns := Columns(insertFields);
    var query := Cat([Kw("INSERT INTO "), Ident(tableName), Kw(" ("), ColumnList(columns),
                      Kw(") SELECT "), QualifiedList(loadingTableName, columns),
                      Kw(" FROM "), Ident(loadingTableName)]);
    RenderCat8(query.parts);
    RenderColumnList(columns);
    RenderQualifiedList(loadingTableName, columns);
    if ignoreConflicts {
      RenderCatCons(query, [Kw(" ON CONFLICT DO NOTHING")]);
      RenderCatSingle(Kw(" ON CONFLICT DO NOTHING"));
    }
  }

  /** The join SELECT returns `"t".*` when no select fields are given, else exactly the listed columns. */
  lemma SelectQueryText(tableName: string, loadingTableName: string, joinFields: seq<Field>, selectFields: seq<Field>)
    ensures Render(SelectQuery(tableName, loadingTableName, joinFields, selectFields)) ==
      "SELECT "
      + (if selectFields == [] then QuoteIdent(tableName) + ".*"
         else JoinStrings(", ", QualifiedColumns(tableName, Columns(selectFields))))
      + " FROM " + QuoteIdent(tableName) + " INNER JOIN " + QuoteIdent(loadingTableName)
      + " ON " + Render(ToFrag(JoinCondition(loadingTableName, tableName, joinFields)))
  {
    RenderCat8(SelectQuery(tableName, loadingTableName, joinFields, selectFields).parts);
    if selectFields == [] {
      RenderCatCons(Ident(tableName), [Kw(".*")]);
      RenderCatSingle(Kw(".*"));
    } else {
      RenderQualifiedList(tableName, Columns(selectFields));
    }
  }

  /** The latest-row subquery up to its join: DISTINCT ON the key columns, the target inner-joined with the staging table. */
  lemma SelectLatestFrom(tableName: string, loadingTableName: string, pkFields: seq<Field>, orderField: Field)
    ensures var ps := SelectLatest(tableName, loadingTableName, pkFields, orderField).parts;
      Render(Cat(ps[..8])) ==
        "SELECT DISTINCT ON (" + JoinStrings(", ", QualifiedColumns(tableName, Columns(pkFields))) + ") "
        + QuoteIdent(tableName) + ".* from " + QuoteIdent(tableName) + " INNER JOIN " + QuoteIdent(loadingTableName)
  {
    var ps := SelectLatest(tableName, loadingTableName, pkFields, orderField).parts;
    RenderQualifiedList(tableName, Columns(pkFields));
    RenderCat8(ps[..8]);
  }

  /** The latest-row subquery up to its ORDER BY list. */
  lemma SelectLatestHead(tableName: string, loadingTableName: string, pkFields: seq<Field>, orderField: Field)
    ensures var ps := SelectLatest(tableName, loadingTableName, pkFields, orderField).parts;
      Render(Cat(ps[..11])) ==
        "SELECT DISTINCT ON (" + JoinStrings(", ", QualifiedColumns(tableName, Columns(pkFields))) + ") "
        + QuoteIdent(tableName) + ".* from " + QuoteIdent(tableName) + " INNER JOIN " + QuoteIdent(loadingTableName)
        + " ON " + Render(ToFrag(JoinCondition(loadingTableName, tableName, pkFields))) + " ORDER BY "
  {
    var ps := SelectLatest(tableName, loadingTableName, pkFields, orderField).parts;
    SelectLatestFrom(tableName, loadingTableName, pkFields, orderField);
    RenderCatPrefix(ps, 8);
    RenderCatPrefix(ps, 9);
    RenderCatPrefix(ps, 10);
  }

  /**
   * The latest-row subquery keeps one row per key: its DISTINCT ON list is
   * the key columns, and it orders by the same key columns and then by the
   * order column, descending.
   */
  lemma SelectLatestText(tableName: string, loadingTableName: string, pkFields: seq<Field>, orderField: Field)
    ensures var keyColumns := JoinStrings(", ", QualifiedColumns(tableName, Columns(pkFields)));
      Render(SelectLatest(tableName, loadingTableName, pkFields, orderField)) ==
        "SELECT DISTINCT ON (" + keyColumns + ") " + QuoteIdent(tableName) + ".* from " + QuoteIdent(tableName)
        + " INNER JOIN " + QuoteIdent(loadingTableName)
        + " ON " + Render(ToFrag(JoinCondition(loadingTableName, tableName, pkFields)))
        + " ORDER BY " + keyColumns + ", " + (QuoteIdent(tableName) + "." + QuoteIdent(orderField.column)) + " DESC"
  {
    var ps := SelectLatest(tableName, loadingTableName, pkFields, orderField).parts;
    SelectLatestHead(tableName, loadingTableName, pkFields, orderField);
    SelectLatestOrder(tableName, loadingTableName, pkFields, orderField);
    assert ps[..15] == ps;
  }

  /** The rest of the ORDER BY list: the key columns again, then the order column, descending. */
  lemma SelectLatestOrder(tableName: string, loadingTableName: string, pkFields: seq<Field>, orderField: Field)
    ensures var ps := SelectLatest(tableName, loadingTableName, pkFields, orderField).parts;
      Render(Cat(ps[..15])) == Render(Cat(ps[..11])) + JoinStrings(", ", QualifiedColumns(tableName, Columns(pkFields)))
        + ", " + (QuoteIdent(tableName) + "." + QuoteIdent(orderField.column)) + " DESC"
  {
    var ps := SelectLatest(tableName, loadingTableName, pkFields, orderField).parts;
    RenderQualifiedList(tableName, Columns(pkFields));
    RenderOperand(Column(tableName, orderField.column));
    RenderCatPrefix(ps, 11);
    RenderCatPrefix(ps, 12);
    RenderCatPrefix(ps, 13);
    RenderCatPrefix(ps, 14);
  }

  /** The VALUES select filters on the listed columns and ends in FOR UPDATE exactly when asked to. */
  lemma ValuesSelectQueryText(tableName: string, filterFields: seq<Field>, selectFields: seq<Field>, selectForUpdate: bool)
    ensures Render(ValuesSelectQuery(tableName, filterFields, selectFields, selectForUpdate)) ==
      "SELECT " + JoinStrings(", ", QuotedColumns(Columns(selectFields))) + " from " + QuoteIdent(tableName)
      + " where (" + JoinStrings(", ", QuotedColumns(Columns(filterFields))) + ") IN (VALUES %s)"
      + (if selectForUpdate then " FOR UPDATE" else "")
  {
    RenderCat8(ValuesSelectQuery(tableName, filterFields, selectFields, selectForUpdate).parts);
    RenderColumnList(Columns(selectFields));
    RenderColumnList(Columns(filterFields));
  }

  /** The staging table copies the listed columns of the source table, empty, and is dropped at commit. */
  lemma CreateTempTableText(tempTableName: string, sourceTableName: string, columnNames: seq<string>)
    ensures Render(CreateTempTable(tempTableName, sourceTableName, columnNames)) ==
      "CREATE TEMPORARY TABLE " + QuoteIdent(tempTableName) + " ON COMMIT DROP AS SELECT "
      + JoinStrings(", ", QuotedColumns(columnNames)) + " FROM " + QuoteIdent(sourceTableName) + " WITH NO DATA"
  {
    var ps := CreateTempTable(tempTableName, sourceTableName, columnNames).parts;
    var columns := JoinStrings(", ", QuotedColumns(columnNames));
    var head := Render(Cat(ps[..4]));
    assert head == "CREATE TEMPORARY TABLE " + QuoteIdent(tempTableName) + " ON COMMIT DROP AS SELECT " + columns by {
      assert ps[..1] == [ps[0]];
      RenderCatSingle(ps[0]);
      RenderCatPrefix(ps, 1);
      RenderCatPrefix(ps, 2);
      RenderCatPrefix(ps, 3);
      RenderColumnList(columnNames);
    }
    assert Render(Cat(ps[..7])) == head + " FROM " + QuoteIdent(sourceTableName) + " WITH NO DATA" by {
      RenderCatPrefix(ps, 4);
      RenderCatPrefix(ps, 5);
      RenderCatPrefix(ps, 6);
    }
    assert ps[..7] == ps;
  }

  /** COPY reads NULL from exactly the serialiser's sentinel. */
  lemma CopyQueryText(tableName: string)
    ensures Render(CopyQuery(tableName)) ==
      "COPY " + QuoteIdent(tableName) + " FROM STDIN NULL '" + Utils.NullCharacter + "' DELIMITER '\t' CSV"
  {
    RenderCat3(Kw("COPY "), Ident(tableName), Kw(" FROM STDIN NULL '\\N' DELIMITER '\t' CSV"));
  }
}
