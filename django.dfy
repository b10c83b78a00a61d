/**
 * The ORM-facing helpers of django_bulk_load/django.py: which fields of a
 * model take part in a load, the row text written for COPY, and the
 * mapping of result rows back to model attributes.
 */
module Django {
  import opened Wrappers
  import opened Sql
  import opened Orm
  import Seqs
  import Utils

  // ---------------------------------------------------------------------
  // Field selection

  /** get_model_fields' test: a field with a column, not many-to-many, and not an AutoField unless those are asked for. */
  predicate Kept(f: Field, includeAutoFields: bool)
  {
    f.HasColumn() && (includeAutoFields || !f.isAuto) && !f.isM2M
  }

  function Keeps(includeAutoFields: bool): Field -> bool
  {
    (f: Field) => Kept(f, includeAutoFields)
  }

  /** The fields get_model_fields returns, in the model's field order. */
  function ModelFields(meta: ModelMeta, includeAutoFields: bool): (r: seq<Field>)
    ensures |r| <= |meta.fields|
    ensures forall f :: f in r ==> f in meta.fields && Kept(f, includeAutoFields)
  {
    Seqs.Filter(meta.fields, Keeps(includeAutoFields))
  }

  /** A field is selected exactly when it is one of the model's fields and passes the test. */
  lemma ModelFieldsKeep(meta: ModelMeta, includeAutoFields: bool, f: Field)
    ensures f in ModelFields(meta, includeAutoFields) <==> f in meta.fields && Kept(f, includeAutoFields)
  {
    Seqs.FilterMembership(meta.fields, Keeps(includeAutoFields), f);
  }

  /** Including AutoFields only ever adds fields. */
  lemma ModelFieldsMonotone(meta: ModelMeta, f: Field)
    requires f in ModelFields(meta, false)
    ensures f in ModelFields(meta, true)
  {
    ModelFieldsKeep(meta, false, f);
    ModelFieldsKeep(meta, true, f);
  }

  /** get_model_fields: the append loop over the model's fields. */
  method GetModelFields(meta: ModelMeta, includeAutoFields: bool) returns (fields: seq<Field>)
    ensures fields == ModelFields(meta, includeAutoFields)
  {
    fields := [];
    var i := 0;
    while i < |meta.fields|
      invariant 0 <= i <= |meta.fields|
      invariant fields == Seqs.Filter(meta.fields[..i], Keeps(includeAutoFields))
    {
      var field := meta.fields[i];
      Seqs.FilterSnoc(meta.fields[..i], field, Keeps(includeAutoFields));
      assert meta.fields[..i + 1] == meta.fields[..i] + [field];
      if field.HasColumn() && (includeAutoFields || !field.isAuto) && !field.isM2M {
        fields := fields + [field];
      }
      i := i + 1;
    }
    assert meta.fields[..i] == meta.fields;
  }

  /**
   * get_fields_from_names: one field per name, in name order; the first
   * name the model does not know raises FieldDoesNotExist.
   */
  function GetFieldsFromNames(names: seq<string>, meta: ModelMeta): (r: Result<seq<Field>, Error>)
    ensures r.Ok? <==> forall i :: 0 <= i < |names| ==> meta.GetField(names[i]).Some?
    ensures r.Ok? ==> |r.value| == |names| && forall i :: 0 <= i < |names| ==> meta.GetField(names[i]) == Some(r.value[i])
    ensures r.Err? ==>
      exists i :: 0 <= i < |names| && meta.GetField(names[i]).None? && r.error == FieldDoesNotExist(names[i])
        && forall j :: 0 <= j < i ==> meta.GetField(names[j]).Some?
  {
    if names == [] then Ok([])
    else
      match meta.GetField(names[0])
      case None => Err(FieldDoesNotExist(names[0]))
      case Some(f) =>
        var rest := GetFieldsFromNames(names[1..], meta);
        assert forall i :: 1 <= i < |names| ==> names[i] == names[1..][i - 1];
        match rest
        case Err(e) =>
          assert exists i ::
            && 1 <= i < |names| && meta.GetField(names[i]).None? && e == FieldDoesNotExist(names[i])
            && forall j :: 0 <= j < i ==> meta.GetField(names[j]).Some?;
          Err(e)
        case Ok(fs) => Ok([f] + fs)
  }

  /** get_fields_and_names: the fields (all selectable fields when no names are given) and their names. */
  function GetFieldsAndNames(fieldNames: Option<seq<string>>, meta: ModelMeta, includeAutoFields: bool)
    : (r: Result<(seq<Field>, seq<string>), Error>)
    ensures r.Ok? ==> |r.value.1| == |r.value.0| && forall i :: 0 <= i < |r.value.0| ==> r.value.1[i] == r.value.0[i].name
    ensures fieldNames.None? ==> r.Ok? && r.value.0 == ModelFields(meta, includeAutoFields)
    ensures fieldNames.Some? ==>
      (r.Ok? <==> forall i :: 0 <= i < |fieldNames.value| ==> meta.GetField(fieldNames.value[i]).Some?)
    ensures fieldNames.Some? && r.Ok? ==>
      |r.value.0| == |fieldNames.value| &&
      forall i :: 0 <= i < |fieldNames.value| ==> meta.GetField(fieldNames.value[i]) == Some(r.value.0[i])
  {
    var fields := if fieldNames.None? then Ok(ModelFields(meta, includeAutoFields))
                  else GetFieldsFromNames(fieldNames.value, meta);
    match fields
    case Err(e) => Err(e)
    case Ok(fs) => Ok((fs, Names(fs)))
  }

  /** get_pk_fields: the named fields when names are given, otherwise the model's primary key alone. */
  function GetPkFields(pkFieldNames: seq<string>, meta: ModelMeta): (r: Result<seq<Field>, Error>)
    ensures pkFieldNames == [] ==> r == Ok([meta.pk])
    ensures pkFieldNames != [] ==>
      (r.Ok? <==> forall i :: 0 <= i < |pkFieldNames| ==> meta.GetField(pkFieldNames[i]).Some?)
    ensures pkFieldNames != [] && r.Ok? ==>
      |r.value| == |pkFieldNames| && forall i :: 0 <= i < |pkFieldNames| ==> meta.GetField(pkFieldNames[i]) == Some(r.value[i])
    ensures r.Ok? ==> r.value != []
  {
    if pkFieldNames != [] then GetFieldsFromNames(pkFieldNames, meta) else Ok([meta.pk])
  }

  // ---------------------------------------------------------------------
  // Row serialisation for COPY

  /**
   * What the value hook returns for one field of one model: None, a
   * psycopg2 Json wrapper (its dump is given), or any other value (its
   * str() is given).
   */
  datatype Prepared = PNull | PJson(dumped: string) | PPlain(text: string)

  /** The row entry for one prepared value: the NULL sentinel, the JSON dump, or the str() text. */
  function Entry(v: Prepared): string
  {
    match v
    case PNull => Utils.NullCharacter
    case PJson(d) => d
    case PPlain(t) => t
  }

  /**
   * The raw fields of one model, one per included field, in field order,
   * each as `CopyField` writes it (csv quoting included).
   */
  function Row<M>(m: M, fields: seq<Field>, toValue: (M, Field) -> Prepared, quote: string -> string): (r: seq<string>)
    ensures |r| == |fields|
  {
    seq(|fields|, i requires 0 <= i < |fields| => CopyField(toValue(m, fields[i]), quote))
  }

  /** One line as csv.writer ends it: the fields joined by tabs, then "\n". */
  function CsvLine(row: seq<string>): string
  {
    JoinStrings("\t", row) + "\n"
  }

  /** The whole text written for the models: one line per model, in model order. */
  function TsvText<M>(models: seq<M>, fields: seq<Field>, toValue: (M, Field) -> Prepared, quote: string -> string): string
  {
    if models == [] then []
    else TsvText(models[..|models| - 1], fields, toValue, quote) + CsvLine(Row(models[|models| - 1], fields, toValue, quote))
  }

  /** A StringIO write at `pos`: it overwrites what is there and extends the text past its end. */
  function Overwrite(text: string, pos: nat, s: string): (r: string)
    requires pos <= |text|
    ensures |r| == if pos + |s| <= |text| then |text| else pos + |s|
    ensures r[..pos] == text[..pos] && r[pos..pos + |s|] == s
    ensures pos + |s| <= |text| ==> r[pos + |s|..] == text[pos + |s|..]
  {
    text[..pos] + s + (if pos + |s| <= |text| then text[pos + |s|..] else [])
  }

  /** The in-memory text buffer the rows are written to and COPY reads from. */
  class TsvBuffer {
    var text: string
    var position: nat

    constructor ()
      ensures text == [] && position == 0
    {
      text := [];
      position := 0;
    }

    method Write(s: string)
      requires position <= |text|
      modifies this
      ensures text == Overwrite(old(text), old(position), s)
      ensures position == old(position) + |s|
    {
      text := Overwrite(text, position, s);
      position := position + |s|;
    }

    method Seek(offset: nat)
      modifies this
      ensures text == old(text) && position == offset
    {
      position := offset;
    }
  }

  /** Writing at the end appends. */
  lemma OverwriteAtEnd(text: string, s: string)
    ensures Overwrite(text, |text|, s) == text + s
  {
    assert text[..|text|] == text;
  }

  /**
   * models_to_tsv_buffer: a row per model, an entry per included field,
   * written line by line; the buffer is rewound before it is returned.
   */
  method ModelsToTsvBuffer<M>(models: seq<M>, includeFields: seq<Field>, toValue: (M, Field) -> Prepared, quote: string -> string)
    returns (buffer: TsvBuffer)
    ensures fresh(buffer)
    ensures buffer.text == TsvText(models, includeFields, toValue, quote)
    ensures buffer.position == 0
  {
    buffer := new TsvBuffer();
    var k := 0;
    while k < |models|
      invariant 0 <= k <= |models|
      invariant buffer.position == |buffer.text|
      invariant buffer.text == TsvText(models[..k], includeFields, toValue, quote)
    {
      var obj := models[k];
      var row: seq<string> := [];
      var j := 0;
      while j < |includeFields|
        invariant 0 <= j <= |includeFields|
        invariant row == Row(obj, includeFields, toValue, quote)[..j]
      {
        var fieldVal := toValue(obj, includeFields[j]);
        if fieldVal.PNull? {
          row := row + [Utils.NullCharacter];
        } else {
          var entry := if fieldVal.PJson? then fieldVal.dumped else fieldVal.text;
          if entry == Utils.NullCharacter {
            row := row + ["\"" + Utils.NullCharacter + "\""];
          } else {
            row := row + [quote(entry)];
          }
        }
        j := j + 1;
      }
      assert row == Row(obj, includeFields, toValue, quote);
      OverwriteAtEnd(buffer.text, CsvLine(row));
      buffer.Write(CsvLine(row));
      assert models[..k + 1][..k] == models[..k];
      k := k + 1;
    }
    assert models[..k] == models;
    buffer.Seek(0);
  }

  function CountChar(s: string, c: char): nat
  {
    if s == [] then 0 else (if s[0] == c then 1 else 0) + CountChar(s[1..], c)
  }

  lemma {:induction false} CountCharAppend(s: string, t: string, c: char)
    ensures CountChar(s + t, c) == CountChar(s, c) + CountChar(t, c)
  {
    if s != [] {
      assert (s + t)[1..] == s[1..] + t;
      CountCharAppend(s[1..], t, c);
    } else {
      assert s + t == t;
    }
  }

  lemma {:induction false} CountCharAbsent(s: string, c: char)
    requires c !in s
    ensures CountChar(s, c) == 0
  {
    if s != [] {
      CountCharAbsent(s[1..], c);
    }
  }

  lemma {:induction false} JoinWithoutChar(sep: string, ss: seq<string>, c: char)
    requires c !in sep && forall i :: 0 <= i < |ss| ==> c !in ss[i]
    ensures c !in JoinStrings(sep, ss)
  {
    if |ss| > 1 {
      JoinWithoutChar(sep, ss[1..], c);
    }
  }

  /** csv quoting never adds a line break to a field that had none. */
  ghost predicate QuoteKeepsLines(quote: string -> string)
  {
    forall s :: '\n' in quote(s) ==> '\n' in s
  }

  /**
   * One line per model: when no entry holds a line break, the text holds
   * exactly one "\n" per model.
   */
  lemma {:induction false} TsvTextLineCount<M>(models: seq<M>, fields: seq<Field>, toValue: (M, Field) -> Prepared, quote: string -> string)
    requires QuoteKeepsLines(quote)
    requires forall k, i :: 0 <= k < |models| && 0 <= i < |fields| ==> '\n' !in Entry(toValue(models[k], fields[i]))
    ensures CountChar(TsvText(models, fields, toValue, quote), '\n') == |models|
  {
    if models != [] {
      var init := models[..|models| - 1];
      var m := models[|models| - 1];
      assert forall k :: 0 <= k < |init| ==> init[k] == models[k];
      TsvTextLineCount(init, fields, toValue, quote);
      var row := Row(m, fields, toValue, quote);
      forall i | 0 <= i < |row| ensures '\n' !in row[i] {
        var v := toValue(m, fields[i]);
        assert '\n' !in Entry(v);
        if v.PNull? || Entry(v) == Utils.NullCharacter {
          assert "\"" + Utils.NullCharacter + "\"" == ['"', '\\', 'N', '"'];
        }
      }
      JoinWithoutChar("\t", row, '\n');
      CountCharAbsent(JoinStrings("\t", row), '\n');
      CountCharAppend(JoinStrings("\t", row), "\n", '\n');
      CountCharAppend(TsvText(init, fields, toValue, quote), CsvLine(row), '\n');
    }
  }

  // ---------------------------------------------------------------------
  // The NULL sentinel and COPY

  /** COPY ... NULL '\N' CSV reads a field as NULL exactly when its raw text is the unquoted sentinel. */
  predicate CopyReadsNull(raw: string)
  {
    raw == Utils.NullCharacter
  }

  /** csv's minimal quoting: a field is either left alone or wrapped in double quotes. */
  ghost predicate MinimalQuoting(quote: string -> string)
  {
    forall s :: quote(s) == s || (|quote(s)| > 0 && quote(s)[0] == '"')
  }

  /**
   * The raw field as the source writes it: the entry, quoted by csv like
   * any other text, so the NULL sentinel and a text that equals it come
   * out the same.
   */
  function QuotedEntry(v: Prepared, quote: string -> string): string
  {
    quote(Entry(v))
  }

  /**
   * As written, a non-NULL value whose text is exactly `\N` gets the same
   * entry as NULL; csv leaves it unquoted (it holds no tab, quote or line
   * break), so COPY loads it as NULL.
   */
  lemma SentinelTextLoadsAsNull(quote: string -> string)
    requires quote(Utils.NullCharacter) == Utils.NullCharacter
    ensures var v := PPlain(Utils.NullCharacter);
      !v.PNull? && CopyReadsNull(QuotedEntry(v, quote))
      && QuotedEntry(v, quote) == QuotedEntry(PNull, quote)
  {
  }

  /** The entries that COPY cannot tell from NULL: NULL itself and any value whose text is `\N`. */
  lemma EntryIsSentinel(v: Prepared)
    ensures Entry(v) == Utils.NullCharacter <==> v.PNull? || v == PPlain(Utils.NullCharacter) || v == PJson(Utils.NullCharacter)
  {
  }

  /**
   * The raw field as it should be written: the sentinel for NULL, a value
   * whose text is the sentinel quoted (CSV COPY reads a quoted `"\N"` as
   * text), anything else as csv quotes it.
   */
  function CopyField(v: Prepared, quote: string -> string): string
  {
    if v.PNull? then Utils.NullCharacter
    else if Entry(v) == Utils.NullCharacter then "\"" + Utils.NullCharacter + "\""
    else quote(Entry(v))
  }

  /** With the corrected field text, COPY reads NULL exactly for NULL values. */
  lemma CopyFieldNullIffNone(v: Prepared, quote: string -> string)
    requires MinimalQuoting(quote)
    ensures CopyReadsNull(CopyField(v, quote)) <==> v.PNull?
  {
    if !v.PNull? && Entry(v) != Utils.NullCharacter {
      var q := quote(Entry(v));
      if q != Entry(v) {
        assert q[0] == '"';
        assert Utils.NullCharacter[0] == '\\';
      }
    }
  }

  // ---------------------------------------------------------------------
  // Result rows back to models

  /** A model attribute: loaded from a result column, or DEFERRED when the result has no such column. */
  datatype Attr = Loaded(value: Cell) | Deferred

  /** dict(zip(columns, row)): pairs up to the shorter of the two; a repeated column keeps its last value. */
  function ZipMap(columns: seq<string>, row: seq<Cell>): (r: map<string, Cell>)
    ensures forall c :: c in r <==> exists i :: 0 <= i < |columns| && i < |row| && columns[i] == c
    decreases |columns|
  {
    var n := if |columns| < |row| then |columns| else |row|;
    if n == 0 then map[]
    else
      var r := ZipMap(columns[..n - 1], row[..n - 1]);
      assert forall i :: 0 <= i < n - 1 ==> columns[..n - 1][i] == columns[i];
      r[columns[n - 1] := row[n - 1]]
  }

  /** A column that appears once among the zipped pairs maps to the value beside it. */
  lemma {:induction false} ZipMapAt(columns: seq<string>, row: seq<Cell>, i: nat)
    requires i < |columns| && i < |row|
    requires forall j :: 0 <= j < |columns| && j < |row| && j != i ==> columns[j] != columns[i]
    ensures columns[i] in ZipMap(columns, row) && ZipMap(columns, row)[columns[i]] == row[i]
    decreases |columns|
  {
    var n := if |columns| < |row| then |columns| else |row|;
    if i != n - 1 {
      ZipMapAt(columns[..n - 1], row[..n - 1], i);
    }
  }

  /** The attribute one field receives from a zipped row. */
  function FieldAttr(f: Field, zipped: map<string, Cell>, decode: (Field, Cell) -> Cell): Attr
  {
    if f.column in zipped then Loaded(decode(f, zipped[f.column])) else Deferred
  }

  /** The keyword arguments the model is built from: attname to attribute, for every field. */
  function ModelAttrs(fields: seq<Field>, zipped: map<string, Cell>, decode: (Field, Cell) -> Cell): (r: map<string, Attr>)
    ensures forall a :: a in r <==> exists i :: 0 <= i < |fields| && fields[i].attname == a
  {
    if fields == [] then map[]
    else
      var last := fields[|fields| - 1];
      var init := fields[..|fields| - 1];
      assert forall i :: 0 <= i < |init| ==> init[i] == fields[i];
      ModelAttrs(init, zipped, decode)[last.attname := FieldAttr(last, zipped, decode)]
  }

  /**
   * With distinct attnames (Django's model checks enforce this), every
   * field's attribute is loaded from its column when the result has it and
   * is DEFERRED otherwise.
   */
  lemma {:induction false} ModelAttrsField(fields: seq<Field>, zipped: map<string, Cell>, decode: (Field, Cell) -> Cell, i: nat)
    requires i < |fields|
    requires forall j, k :: 0 <= j < k < |fields| ==> fields[j].attname != fields[k].attname
    ensures fields[i].attname in ModelAttrs(fields, zipped, decode)
    ensures ModelAttrs(fields, zipped, decode)[fields[i].attname] == FieldAttr(fields[i], zipped, decode)
  {
    if i != |fields| - 1 {
      var init := fields[..|fields| - 1];
      ModelAttrsField(init, zipped, decode, i);
    }
  }

  /**
   * records_to_models: one model per record, in record order, each built
   * from the record zipped with the result's column names over all the
   * model's fields (AutoFields included).
   */
  method RecordsToModels(records: seq<seq<Cell>>, columns: seq<string>, meta: ModelMeta, decode: (Field, Cell) -> Cell)
    returns (results: seq<map<string, Attr>>)
    ensures |results| == |records|
    ensures forall k :: 0 <= k < |records| ==>
      results[k] == ModelAttrs(ModelFields(meta, true), ZipMap(columns, records[k]), decode)
  {
    var djangoFields := GetModelFields(meta, true);
    results := [];
    var k := 0;
    while k < |records|
      invariant 0 <= k <= |records|
      invariant |results| == k
      invariant forall j :: 0 <= j < k ==> results[j] == ModelAttrs(djangoFields, ZipMap(columns, records[j]), decode)
    {
      var zipped := ZipMap(columns, records[k]);
      results := results + [ModelAttrs(djangoFields, zipped, decode)];
      k := k + 1;
    }
  }
}
