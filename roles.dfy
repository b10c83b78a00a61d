/**
 * The field roles bulk_update_models and bulk_upsert_models derive before
 * they touch the database (django_bulk_load/bulk_load.py): the matching
 * (pk) fields, the fields an UPDATE writes, the fields compared to detect a
 * change, the fields inserted and the fields staged.
 */
module Roles {
  import opened Wrappers
  import opened Orm
  import opened Django
  import Seqs

  /** The elements of a list, as a set (`{*names}`). */
  function SetOf(names: seq<string>): (r: set<string>)
    ensures forall n :: n in r <==> n in names
  {
    set i | 0 <= i < |names| :: names[i]
  }

  // ---------------------------------------------------------------------
  // bulk_update_models

  datatype UpdateRoles = UpdateRoles(
    pkFields: seq<Field>,
    updateFields: seq<Field>,
    operateNames: seq<string>,
    compareFields: seq<Field>,
    updateIfNullFields: seq<Field>)

  /** The pk names after get_pk_fields: the matched fields' own names. */
  function PkNames(meta: ModelMeta, pkFieldNames: seq<string>): seq<string>
  {
    match GetPkFields(pkFieldNames, meta)
    case Ok(pk) => Names(pk)
    case Err(_) => []
  }

  /** The update names: the ones given, or the names of all fields (AutoFields included). */
  function UpdateNames(meta: ModelMeta, updateFieldNames: Option<seq<string>>): seq<string>
  {
    if updateFieldNames.None? then Names(ModelFields(meta, true)) else updateFieldNames.value
  }

  /** `{*update_field_names, *model_changed_field_names, *pk_field_names, *update_if_null_field_names}` */
  function OperateNameSet(
    meta: ModelMeta, updateFieldNames: Option<seq<string>>, pkFieldNames: seq<string>,
    modelChangedFieldNames: seq<string>, updateIfNullFieldNames: seq<string>): set<string>
  {
    SetOf(UpdateNames(meta, updateFieldNames)) + SetOf(modelChangedFieldNames)
    + SetOf(PkNames(meta, pkFieldNames)) + SetOf(updateIfNullFieldNames)
  }

  /** Not a pk field and not an update-if-null field: the fields an UPDATE writes plainly. */
  function UpdatedBy(pkNames: seq<string>, updateIfNullFieldNames: seq<string>): Field -> bool
  {
    (f: Field) => f.name !in pkNames && f.name !in updateIfNullFieldNames
  }

  /** Not ignored on compare and not an AutoField. */
  function ComparedBy(ignoreOnCompare: set<string>): Field -> bool
  {
    (f: Field) => f.name !in ignoreOnCompare && !f.isAuto
  }

  /**
   * The roles of bulk_update_models. `operateOrder` is the order in which
   * Python happens to list the set of staged names. Each lookup raises
   * FieldDoesNotExist for the first unknown name, in the source's order:
   * pk names, update names, staged names, update-if-null names.
   */
  function UpdateRolesOf(
    meta: ModelMeta, updateFieldNames: Option<seq<string>>, pkFieldNames: seq<string>,
    modelChangedFieldNames: seq<string>, updateIfNullFieldNames: seq<string>, operateOrder: seq<string>)
    : Result<UpdateRoles, Error>
  {
    match GetPkFields(pkFieldNames, meta)
    case Err(e) => Err(e)
    case Ok(pkFields) =>
      var pkNames := Names(pkFields);
      var requested := if updateFieldNames.None? then Ok(ModelFields(meta, true))
                       else GetFieldsFromNames(updateFieldNames.value, meta);
      match requested
      case Err(e) => Err(e)
      case Ok(allUpdate) =>
        var updateFields := Seqs.Filter(allUpdate, UpdatedBy(pkNames, updateIfNullFieldNames));
        match GetFieldsFromNames(operateOrder, meta)
        case Err(e) => Err(e)
        case Ok(operateFields) =>
          var ignoreOnCompare := SetOf(modelChangedFieldNames) + SetOf(pkNames) + SetOf(updateIfNullFieldNames);
          var compareFields := Seqs.Filter(operateFields, ComparedBy(ignoreOnCompare));
          match GetFieldsFromNames(updateIfNullFieldNames, meta)
          case Err(e) => Err(e)
          case Ok(ifNullFields) => Ok(UpdateRoles(pkFields, updateFields, operateOrder, compareFields, ifNullFields))
  }

  /**
   * The UPDATE never writes a pk field or an update-if-null field plainly,
   * and writes every other requested field; the compare fields are exactly
   * the staged fields that are neither model-changed, pk nor update-if-null
   * fields, and are not AutoFields.
   */
  lemma UpdateRolesSeparate(
    meta: ModelMeta, updateFieldNames: Option<seq<string>>, pkFieldNames: seq<string>,
    modelChangedFieldNames: seq<string>, updateIfNullFieldNames: seq<string>, operateOrder: seq<string>, f: Field)
    requires UpdateRolesOf(meta, updateFieldNames, pkFieldNames, modelChangedFieldNames, updateIfNullFieldNames, operateOrder).Ok?
    ensures var roles := UpdateRolesOf(meta, updateFieldNames, pkFieldNames, modelChangedFieldNames, updateIfNullFieldNames, operateOrder).value;
      var pkNames := Names(roles.pkFields);
      && (f in roles.updateFields <==>
            f.name !in pkNames && f.name !in updateIfNullFieldNames &&
            (if updateFieldNames.None? then f in ModelFields(meta, true)
             else exists i :: 0 <= i < |updateFieldNames.value| && meta.GetField(updateFieldNames.value[i]) == Some(f)))
      && (f in roles.compareFields <==>
            f.name !in modelChangedFieldNames && f.name !in pkNames && f.name !in updateIfNullFieldNames && !f.isAuto &&
            exists i :: 0 <= i < |operateOrder| && meta.GetField(operateOrder[i]) == Some(f))
  {
    var roles := UpdateRolesOf(meta, updateFieldNames, pkFieldNames, modelChangedFieldNames, updateIfNullFieldNames, operateOrder).value;
    var pkNames := Names(roles.pkFields);
    var allUpdate := if updateFieldNames.None? then ModelFields(meta, true)
                     else GetFieldsFromNames(updateFieldNames.value, meta).value;
    Seqs.FilterMembership(allUpdate, UpdatedBy(pkNames, updateIfNullFieldNames), f);
    if updateFieldNames.Some? && f in allUpdate {
      var i :| 0 <= i < |allUpdate| && allUpdate[i] == f;
      assert meta.GetField(updateFieldNames.value[i]) == Some(f);
    }
    var operateFields := GetFieldsFromNames(operateOrder, meta).value;
    var ignoreOnCompare := SetOf(modelChangedFieldNames) + SetOf(pkNames) + SetOf(updateIfNullFieldNames);
    Seqs.FilterMembership(operateFields, ComparedBy(ignoreOnCompare), f);
    if f in operateFields {
      var i :| 0 <= i < |operateFields| && operateFields[i] == f;
      assert meta.GetField(operateOrder[i]) == Some(f);
    }
  }

  /**
   * The staged names are the union of the update, model-changed, pk and
   * update-if-null names, each once, and every one names a staged field.
   */
  lemma UpdateRolesStage(
    meta: ModelMeta, updateFieldNames: Option<seq<string>>, pkFieldNames: seq<string>,
    modelChangedFieldNames: seq<string>, updateIfNullFieldNames: seq<string>, operateOrder: seq<string>)
    requires Seqs.Enumerates(operateOrder, OperateNameSet(meta, updateFieldNames, pkFieldNames, modelChangedFieldNames, updateIfNullFieldNames))
    requires UpdateRolesOf(meta, updateFieldNames, pkFieldNames, modelChangedFieldNames, updateIfNullFieldNames, operateOrder).Ok?
    ensures var roles := UpdateRolesOf(meta, updateFieldNames, pkFieldNames, modelChangedFieldNames, updateIfNullFieldNames, operateOrder).value;
      && SetOf(roles.operateNames) == OperateNameSet(meta, updateFieldNames, pkFieldNames, modelChangedFieldNames, updateIfNullFieldNames)
      && (forall n :: n in updateIfNullFieldNames ==> n in roles.operateNames)
      && (forall n :: n in modelChangedFieldNames ==> n in roles.operateNames)
      && (forall n :: n in Names(roles.pkFields) ==> n in roles.operateNames)
      && |roles.updateIfNullFields| == |updateIfNullFieldNames|
  {
    var roles := UpdateRolesOf(meta, updateFieldNames, pkFieldNames, modelChangedFieldNames, updateIfNullFieldNames, operateOrder).value;
    assert PkNames(meta, pkFieldNames) == Names(roles.pkFields);
    assert SetOf(operateOrder) == set i | 0 <= i < |operateOrder| :: operateOrder[i];
  }

  // ---------------------------------------------------------------------
  // bulk_upsert_models

  datatype UpsertRoles = UpsertRoles(
    pkFields: seq<Field>,
    compareFields: seq<Field>,
    updateFields: seq<Field>,
    insertFields: seq<Field>)

  function NotNamedIn(names: set<string>): Field -> bool
  {
    (f: Field) => f.name !in names
  }

  function NotAuto(): Field -> bool
  {
    (f: Field) => !f.isAuto
  }

  /** The roles of bulk_upsert_models, over the model's fields without AutoFields. */
  function UpsertRolesOf(
    meta: ModelMeta, pkFieldNames: seq<string>, insertOnlyFieldNames: seq<string>,
    modelChangedFieldNames: seq<string>, updateIfNullFieldNames: seq<string>): Result<UpsertRoles, Error>
  {
    var fields := ModelFields(meta, false);
    match GetPkFields(pkFieldNames, meta)
    case Err(e) => Err(e)
    case Ok(pkFields) =>
      var pkNames := SetOf(Names(pkFields));
      var ignoreOnCompare := SetOf(insertOnlyFieldNames) + SetOf(modelChangedFieldNames) + pkNames;
      var ignoreOnUpdate := SetOf(insertOnlyFieldNames) + pkNames + SetOf(updateIfNullFieldNames);
      Ok(UpsertRoles(
        pkFields,
        Seqs.Filter(fields, NotNamedIn(ignoreOnCompare)),
        Seqs.Filter(fields, NotNamedIn(ignoreOnUpdate)),
        Seqs.Filter(fields, NotAuto())))
  }

  /**
   * Upsert roles: a model field is compared iff it is not insert-only,
   * model-changed or pk; updated iff it is not insert-only, pk or
   * update-if-null; and every model field is inserted.
   */
  lemma UpsertRolesSeparate(
    meta: ModelMeta, pkFieldNames: seq<string>, insertOnlyFieldNames: seq<string>,
    modelChangedFieldNames: seq<string>, updateIfNullFieldNames: seq<string>, f: Field)
    requires GetPkFields(pkFieldNames, meta).Ok?
    ensures var roles := UpsertRolesOf(meta, pkFieldNames, insertOnlyFieldNames, modelChangedFieldNames, updateIfNullFieldNames).value;
      var pkNames := Names(roles.pkFields);
      && (f in roles.compareFields <==>
            f in ModelFields(meta, false) && f.name !in insertOnlyFieldNames && f.name !in modelChangedFieldNames && f.name !in pkNames)
      && (f in roles.updateFields <==>
            f in ModelFields(meta, false) && f.name !in insertOnlyFieldNames && f.name !in pkNames && f.name !in updateIfNullFieldNames)
      && (f in roles.insertFields <==> f in ModelFields(meta, false))
  {
    var roles := UpsertRolesOf(meta, pkFieldNames, insertOnlyFieldNames, modelChangedFieldNames, updateIfNullFieldNames).value;
    var fields := ModelFields(meta, false);
    var pkNames := SetOf(Names(roles.pkFields));
    Seqs.FilterMembership(fields, NotNamedIn(SetOf(insertOnlyFieldNames) + SetOf(modelChangedFieldNames) + pkNames), f);
    Seqs.FilterMembership(fields, NotNamedIn(SetOf(insertOnlyFieldNames) + pkNames + SetOf(updateIfNullFieldNames)), f);
    Seqs.FilterMembership(fields, NotAuto(), f);
  }

  /** Filtering with a test every element passes changes nothing. */
  lemma {:induction false} FilterAll<T>(s: seq<T>, p: T -> bool)
    requires forall x :: x in s ==> p(x)
    ensures Seqs.Filter(s, p) == s
  {
    if s != [] {
      FilterAll(s[1..], p);
      assert s == [s[0]] + s[1..];
    }
  }

  /**
   * The roles are found whenever the pk fields are, and the insert fields
   * are then the model's fields without AutoFields, in the model's order.
   */
  lemma UpsertInsertsModelFields(
    meta: ModelMeta, pkFieldNames: seq<string>, insertOnlyFieldNames: seq<string>,
    modelChangedFieldNames: seq<string>, updateIfNullFieldNames: seq<string>)
    requires GetPkFields(pkFieldNames, meta).Ok?
    ensures UpsertRolesOf(meta, pkFieldNames, insertOnlyFieldNames, modelChangedFieldNames, updateIfNullFieldNames).Ok?
    ensures UpsertRolesOf(meta, pkFieldNames, insertOnlyFieldNames, modelChangedFieldNames, updateIfNullFieldNames).value.insertFields
         == ModelFields(meta, false)
  {
    FilterAll(ModelFields(meta, false), NotAuto());
  }
}
