/**
 * The global configuration of django_bulk_load/__init__.py: two flags,
 * both on by default, set by keyword through `configure`, which rejects a
 * key the configuration does not have.
 */
module Config {
  import opened Wrappers

  const UseMergeByDefault: string := "use_merge_by_default"
  const MergeFallbackEnabled: string := "merge_fallback_enabled"

  /** One keyword argument of `configure`. */
  datatype Setting = Setting(key: string, value: bool)

  /** The flags' values at one moment. */
  datatype Flags = Flags(useMergeByDefault: bool, mergeFallbackEnabled: bool)

  /** `hasattr(config, key)` for the configuration's own attributes. */
  predicate Known(key: string)
  {
    key == UseMergeByDefault || key == MergeFallbackEnabled
  }

  /** `setattr(config, key, value)` for a known key. */
  function Set(flags: Flags, s: Setting): Flags
    requires Known(s.key)
  {
    if s.key == UseMergeByDefault then flags.(useMergeByDefault := s.value)
    else flags.(mergeFallbackEnabled := s.value)
  }

  /**
   * The settings applied in order up to the first unknown key: the flags
   * then, and that key when there is one.
   */
  function Applied(flags: Flags, settings: seq<Setting>): (Flags, Option<string>)
    decreases |settings|
  {
    if settings == [] then (flags, None)
    else if !Known(settings[0].key) then (flags, Some(settings[0].key))
    else Applied(Set(flags, settings[0]), settings[1..])
  }

  class BulkLoadConfig {
    var useMergeByDefault: bool
    var mergeFallbackEnabled: bool

    /** Both flags default to on. */
    constructor ()
      ensures useMergeByDefault && mergeFallbackEnabled
    {
      useMergeByDefault := true;
      mergeFallbackEnabled := true;
    }

    function Current(): Flags
      reads this
    {
      Flags(useMergeByDefault, mergeFallbackEnabled)
    }

    /**
     * Applies the keyword arguments in order; an unknown key raises, and
     * the keys before it stay applied.
     */
    method Configure(kwargs: seq<Setting>) returns (r: Result<(), Error>)
      modifies this
      ensures Current() == Applied(old(Current()), kwargs).0
      ensures r.Err? <==> Applied(old(Current()), kwargs).1.Some?
      ensures r.Err? ==> r.error == UnknownConfigOption(Applied(old(Current()), kwargs).1.value)
      ensures kwargs == [] ==> r.Ok? && Current() == old(Current())
    {
      var i := 0;
      while i < |kwargs|
        invariant 0 <= i <= |kwargs|
        invariant Applied(old(Current()), kwargs) == Applied(Current(), kwargs[i..])
      {
        var key := kwargs[i].key;
        assert kwargs[i..][1..] == kwargs[i + 1..];
        if key == UseMergeByDefault {
          useMergeByDefault := kwargs[i].value;
        } else if key == MergeFallbackEnabled {
          mergeFallbackEnabled := kwargs[i].value;
        } else {
          return Err(UnknownConfigOption(key));
        }
        i := i + 1;
      }
      r := Ok(());
    }
  }

  /** A known key sets exactly its own flag to the given value. */
  lemma ConfigureKnownKey(flags: Flags, s: Setting)
    requires Known(s.key)
    ensures Applied(flags, [s]).1 == None
    ensures var f := Applied(flags, [s]).0;
      && (f.useMergeByDefault == if s.key == UseMergeByDefault then s.value else flags.useMergeByDefault)
      && (f.mergeFallbackEnabled == if s.key == MergeFallbackEnabled then s.value else flags.mergeFallbackEnabled)
  {
    assert [s][1..] == [];
  }

  /** A flag no setting names keeps its value. */
  lemma {:induction false} UnnamedFlagsUnchanged(flags: Flags, settings: seq<Setting>)
    ensures (forall i :: 0 <= i < |settings| ==> settings[i].key != UseMergeByDefault) ==>
      Applied(flags, settings).0.useMergeByDefault == flags.useMergeByDefault
    ensures (forall i :: 0 <= i < |settings| ==> settings[i].key != MergeFallbackEnabled) ==>
      Applied(flags, settings).0.mergeFallbackEnabled == flags.mergeFallbackEnabled
    decreases |settings|
  {
    if settings != [] && Known(settings[0].key) {
      UnnamedFlagsUnchanged(Set(flags, settings[0]), settings[1..]);
      assert forall i :: 1 <= i < |settings| ==> settings[i] == settings[1..][i - 1];
    }
  }

  /**
   * An unknown key raises with that key, after every known key before it
   * has been applied and before any key after it.
   */
  lemma {:induction false} UnknownKeyKeepsEarlier(flags: Flags, before: seq<Setting>, s: Setting, after: seq<Setting>)
    requires forall i :: 0 <= i < |before| ==> Known(before[i].key)
    requires !Known(s.key)
    ensures Applied(flags, before + [s] + after) == (Applied(flags, before).0, Some(s.key))
    decreases |before|
  {
    if before == [] {
      assert before + [s] + after == [s] + after;
    } else {
      assert (before + [s] + after)[1..] == before[1..] + [s] + after;
      UnknownKeyKeepsEarlier(Set(flags, before[0]), before[1..], s, after);
    }
  }
}
