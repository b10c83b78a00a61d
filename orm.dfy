/** Sequence helpers shared by the field-list code. */
module Seqs {

  /** The elements of s that satisfy p, in their order in s. */
  function Filter<T>(s: seq<T>, p: T -> bool): (r: seq<T>)
    ensures |r| <= |s|
    ensures forall x :: x in r ==> x in s && p(x)
  {
    if s == [] then [] else (if p(s[0]) then [s[0]] else []) + Filter(s[1..], p)
  }

  /** Filtering a longer sequence extends the filtered prefix: the order of s is kept. */
  lemma {:induction false} FilterSnoc<T>(s: seq<T>, x: T, p: T -> bool)
    ensures Filter(s + [x], p) == Filter(s, p) + (if p(x) then [x] else [])
  {
    if s == [] {
      assert s + [x] == [x];
    } else {
      assert (s + [x])[1..] == s[1..] + [x];
      FilterSnoc(s[1..], x, p);
    }
  }

  /** Filter keeps an element iff it is in s and satisfies p. */
  lemma {:induction false} FilterMembership<T>(s: seq<T>, p: T -> bool, x: T)
    ensures x in Filter(s, p) <==> x in s && p(x)
  {
    if s != [] {
      FilterMembership(s[1..], p, x);
      assert s == [s[0]] + s[1..];
    }
  }

  /** Whether s lists each element of the set exactly once (an iteration order of the set). */
  predicate Enumerates<T(==)>(s: seq<T>, elements: set<T>)
  {
    && (set i | 0 <= i < |s| :: s[i]) == elements
    && (forall i, j :: 0 <= i < j < |s| ==> s[i] != s[j])
  }
}

/**
 * The data the ORM supplies: field descriptors, a model's metadata and the
 * model instances handed to the bulk operations. The ORM's own behaviour
 * (value preparation, decoding, instance construction) enters the model as
 * function parameters.
 */
module Orm {
  import opened Wrappers
  import opened Sql

  /**
   * A field descriptor. `column` is the empty string for a field that has
   * no column (a reverse relation), which Python's test
   * `getattr(field, "column", None)` treats as false. `isAuto` covers every
   * AutoField subclass, and `autoNowAdd` is a date field's auto_now_add.
   */
  datatype Field = Field(
    name: string,
    attname: string,
    column: string,
    isAuto: bool,
    isM2M: bool,
    autoNowAdd: bool)
  {
    predicate HasColumn()
    {
      column != ""
    }
  }

  /** A model's metadata: its table, its fields in declaration order, and its primary key. */
  datatype ModelMeta = ModelMeta(dbTable: string, fields: seq<Field>, pk: Field)
  {
    /** Options.get_field: by name first, then by attribute name; None is FieldDoesNotExist. */
    function GetField(key: string): (r: Option<Field>)
      ensures r.Some? ==> r.value in fields && (r.value.name == key || r.value.attname == key)
      ensures r.None? <==> forall f :: f in fields ==> f.name != key && f.attname != key
    {
      match FindBy(fields, (f: Field) => f.name == key)
      case Some(f) => Some(f)
      case None => FindBy(fields, (f: Field) => f.attname == key)
    }
  }

  /** The first element satisfying p, if any. */
  function FindBy(fs: seq<Field>, p: Field -> bool): (r: Option<Field>)
    ensures r.Some? ==> r.value in fs && p(r.value)
    ensures r.None? <==> forall f :: f in fs ==> !p(f)
  {
    if fs == [] then None else if p(fs[0]) then Some(fs[0]) else FindBy(fs[1..], p)
  }

  /** A model instance: its model's metadata and the value of its primary key (NULL when unsaved). */
  datatype Instance = Instance(meta: ModelMeta, pk: Cell)

  function Names(fs: seq<Field>): (r: seq<string>)
    ensures |r| == |fs| && forall i :: 0 <= i < |fs| ==> r[i] == fs[i].name
  {
    seq(|fs|, i requires 0 <= i < |fs| => fs[i].name)
  }

  function Columns(fs: seq<Field>): (r: seq<string>)
    ensures |r| == |fs| && forall i :: 0 <= i < |fs| ==> r[i] == fs[i].column
  {
    seq(|fs|, i requires 0 <= i < |fs| => fs[i].column)
  }
}
