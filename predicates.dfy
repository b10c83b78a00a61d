/**
 * The conditions the generators put in ON and WHERE clauses, in structured
 * form. `ToFrag` renders a condition to the fragment the generators emit;
 * `Eval` gives it SQL's three-valued meaning over one pair of rows, so that
 * what a generated WHERE clause selects can be stated and proved.
 */
module Predicates {
  import opened Wrappers
  import opened Sql

  /** `table.column` */
  datatype Operand = Column(table: string, column: string)

  datatype Cond =
    | Equal(left: Operand, right: Operand)          // l = r
    | DistinctFrom(left: Operand, right: Operand)   // l IS DISTINCT FROM r
    | GreaterThan(left: Operand, right: Operand)    // l > r
    | IsNull(arg: Operand)                          // a IS NULL
    | AllOf(parts: seq<Cond>)                       // p1 AND p2 AND ...
    | AnyOf(parts: seq<Cond>)                       // p1 OR p2 OR ...
    | Paren(inner: Cond)                            // (c)
    | Custom(frag: Frag)                            // a caller-supplied fragment

  /** A value expression: a column, or `CASE WHEN test THEN a ELSE b END`. */
  datatype Expr =
    | Ref(op: Operand)
    | CaseWhen(test: Cond, whenTrue: Operand, otherwise: Operand)

  function OperandFrag(op: Operand): Frag
  {
    Cat([Ident(op.table), Kw("."), Ident(op.column)])
  }

  function ToFrag(c: Cond): Frag
  {
    match c
    case Equal(l, r) => Cat([OperandFrag(l), Kw(" = "), OperandFrag(r)])
    case DistinctFrom(l, r) => Cat([OperandFrag(l), Kw(" IS DISTINCT FROM "), OperandFrag(r)])
    case GreaterThan(l, r) => Cat([OperandFrag(l), Kw(" > "), OperandFrag(r)])
    case IsNull(a) => Cat([OperandFrag(a), Kw(" IS NULL")])
    case AllOf(ps) => Join(" AND ", ToFrags(ps))
    case AnyOf(ps) => Join(" OR ", ToFrags(ps))
    case Paren(x) => Cat([Kw("("), ToFrag(x), Kw(")")])
    case Custom(f) => f
  }

  function ToFrags(ps: seq<Cond>): (r: seq<Frag>)
    ensures |r| == |ps|
  {
    if ps == [] then [] else [ToFrag(ps[0])] + ToFrags(ps[1..])
  }

  /** The CASE text keeps the source's spacing: no blank before ELSE (harmless after a quoted name). */
  function ExprFrag(e: Expr): Frag
  {
    match e
    case Ref(op) => OperandFrag(op)
    case CaseWhen(t, a, b) =>
      Cat([Kw("CASE WHEN "), ToFrag(t), Kw(" THEN "), OperandFrag(a), Kw("ELSE "), OperandFrag(b), Kw(" END")])
  }

  // ---------------------------------------------------------------------
  // Three-valued evaluation

  datatype Truth = True | False | Unknown

  function And3(a: Truth, b: Truth): Truth
  {
    if a == False || b == False then False
    else if a == True && b == True then True
    else Unknown
  }

  function Or3(a: Truth, b: Truth): Truth
  {
    if a == True || b == True then True
    else if a == False && b == False then False
    else Unknown
  }

  function FromBool(b: bool): Truth
  {
    if b then True else False
  }

  /**
   * One evaluation context: the cell of each (table, column), and the truth
   * of each caller-supplied fragment, which the model does not interpret.
   */
  datatype Env = Env(cell: (string, string) -> Cell, judge: Frag -> Truth)

  function Lookup(env: Env, op: Operand): Cell
  {
    env.cell(op.table, op.column)
  }

  /** Strict lexicographic order on text (byte order; collations are not modelled). */
  predicate TextGreater(a: string, b: string)
  {
    if b == [] then a != []
    else if a == [] then false
    else if a[0] != b[0] then a[0] > b[0]
    else TextGreater(a[1..], b[1..])
  }

  function GreaterValue(a: Value, b: Value): Truth
  {
    match (a, b)
    case (Int(i), Int(j)) => FromBool(i > j)
    case (Text(s), Text(t)) => FromBool(TextGreater(s, t))
    case _ => Unknown
  }

  function Eval(c: Cond, env: Env): Truth
  {
    match c
    case Equal(l, r) =>
      var a, b := Lookup(env, l), Lookup(env, r);
      if a.None? || b.None? then Unknown else FromBool(a.value == b.value)
    case DistinctFrom(l, r) =>
      // NULL-safe: two NULLs are not distinct, a NULL and a value are
      FromBool(Lookup(env, l) != Lookup(env, r))
    case GreaterThan(l, r) =>
      var a, b := Lookup(env, l), Lookup(env, r);
      if a.None? || b.None? then Unknown else GreaterValue(a.value, b.value)
    case IsNull(a) => FromBool(Lookup(env, a).None?)
    case AllOf(ps) => EvalAll(ps, env)
    case AnyOf(ps) => EvalAny(ps, env)
    case Paren(x) => Eval(x, env)
    case Custom(f) => env.judge(f)
  }

  function EvalAll(ps: seq<Cond>, env: Env): Truth
  {
    if ps == [] then True else And3(Eval(ps[0], env), EvalAll(ps[1..], env))
  }

  function EvalAny(ps: seq<Cond>, env: Env): Truth
  {
    if ps == [] then False else Or3(Eval(ps[0], env), EvalAny(ps[1..], env))
  }

  function EvalExpr(e: Expr, env: Env): Cell
  {
    match e
    case Ref(op) => Lookup(env, op)
    case CaseWhen(t, a, b) => if Eval(t, env) == True then Lookup(env, a) else Lookup(env, b)
  }

  /** A WHERE or ON clause keeps the row pair exactly when its condition is TRUE. */
  predicate Selects(c: Cond, env: Env)
  {
    Eval(c, env) == True
  }

  /** A conjunction is TRUE iff every conjunct is TRUE. */
  lemma {:induction false} EvalAllTrue(ps: seq<Cond>, env: Env)
    ensures EvalAll(ps, env) == True <==> forall i :: 0 <= i < |ps| ==> Eval(ps[i], env) == True
  {
    if ps != [] {
      EvalAllTrue(ps[1..], env);
      assert forall i :: 1 <= i < |ps| ==> ps[i] == ps[1..][i - 1];
    }
  }

  /** A disjunction is TRUE iff some disjunct is TRUE. */
  lemma {:induction false} EvalAnyTrue(ps: seq<Cond>, env: Env)
    ensures EvalAny(ps, env) == True <==> exists i :: 0 <= i < |ps| && Eval(ps[i], env) == True
  {
    if ps != [] {
      EvalAnyTrue(ps[1..], env);
      assert forall i :: 1 <= i < |ps| ==> ps[i] == ps[1..][i - 1];
      if EvalAny(ps, env) != True {
        forall i | 0 <= i < |ps| ensures Eval(ps[i], env) != True {
          if i > 0 { assert ps[i] == ps[1..][i - 1]; }
        }
      }
    }
  }

  /** A disjunction of two-valued disjuncts is two-valued: it is FALSE iff no disjunct is TRUE. */
  lemma {:induction false} EvalAnyDefinite(ps: seq<Cond>, env: Env)
    requires forall i :: 0 <= i < |ps| ==> Eval(ps[i], env) != Unknown
    ensures EvalAny(ps, env) != Unknown
  {
    if ps != [] {
      assert forall i :: 1 <= i < |ps[1..]| + 1 ==> ps[1..][i - 1] == ps[i];
      EvalAnyDefinite(ps[1..], env);
    }
  }

  /** A two-operand AND, unfolded. */
  lemma EvalAll2(a: Cond, b: Cond, env: Env)
    ensures EvalAll([a, b], env) == And3(Eval(a, env), And3(Eval(b, env), True))
  {
    assert [a, b][1..] == [b];
    assert [b][1..] == [];
    assert EvalAll([b], env) == And3(Eval(b, env), EvalAll([], env));
  }

  /** A two-operand OR, unfolded. */
  lemma EvalAny2(a: Cond, b: Cond, env: Env)
    ensures EvalAny([a, b], env) == Or3(Eval(a, env), Or3(Eval(b, env), False))
  {
    assert [a, b][1..] == [b];
    assert [b][1..] == [];
    assert EvalAny([b], env) == Or3(Eval(b, env), EvalAny([], env));
  }

  lemma {:induction false} ToFragsAt(ps: seq<Cond>, i: nat)
    requires i < |ps|
    ensures ToFrags(ps)[i] == ToFrag(ps[i])
  {
    if i > 0 {
      ToFragsAt(ps[1..], i - 1);
    }
  }

  // ---------------------------------------------------------------------
  // Nesting: the rendered text parses back to the same tree

  /** An AND or OR with no operands: it renders to no text. */
  predicate EmptyList(c: Cond)
  {
    (c.AllOf? || c.AnyOf?) && c.parts == []
  }

  /**
   * Every operand of an AND or OR renders to text that SQL's precedence
   * (AND binds tighter than OR) groups as the tree does: no OR of several
   * operands and no caller fragment sits bare under an AND, no caller
   * fragment bare under an OR, and no operand or parenthesis is empty.
   */
  predicate WellNested(c: Cond)
  {
    match c
    case AllOf(ps) =>
      forall i :: 0 <= i < |ps| ==>
        && WellNested(ps[i]) && !EmptyList(ps[i]) && !ps[i].Custom?
        && !(ps[i].AnyOf? && |ps[i].parts| > 1)
    case AnyOf(ps) =>
      forall i :: 0 <= i < |ps| ==> WellNested(ps[i]) && !EmptyList(ps[i]) && !ps[i].Custom?
    case Paren(x) => WellNested(x) && !EmptyList(x)
    case _ => true
  }
}
