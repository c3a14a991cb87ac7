/**
 * XamlControlsResources: the resource dictionary an application merges to
 * get the library's default control styles. Its MergedDictionaries list
 * holds the shared controls dictionary, optionally the Xceed toolkit
 * styles, and the UI-settings dictionary; the UseCompactResources flag adds
 * or removes the compact-density dictionary at the end of that list.
 */
module XamlControls {
  import opened Wrappers

  /** Where a dictionary's resources come from: the XAML file it loads, or the UI-settings class. */
  datatype DictionarySource =
    | ControlsResourcesXaml       // ControlsResources.xaml
    | XceedControlsResourcesXaml  // XceedControlsResources.xaml
    | CompactXaml                 // DensityStyles/Compact.xaml
    | UISettings                  // a UISettingsResources instance

  /** A resource dictionary, known only by its identity and its source. */
  class ResourceDictionary {
    const source: DictionarySource

    constructor (source: DictionarySource)
      ensures this.source == source
    {
      this.source := source;
    }
  }

  /** The number of entries of `s` that are `x`. */
  function Count<T(==)>(s: seq<T>, x: T): nat {
    if |s| == 0 then 0 else (if s[0] == x then 1 else 0) + Count(s[1..], x)
  }

  /**
   * `Collection<T>.Remove`: the list without its first entry equal to `x`,
   * or the list unchanged when there is none.
   */
  function RemoveFirst<T(==)>(s: seq<T>, x: T): (r: seq<T>)
    ensures x in s ==> |r| == |s| - 1
    ensures x !in s ==> r == s
  {
    if |s| == 0 then []
    else if s[0] == x then s[1..]
    else [s[0]] + RemoveFirst(s[1..], x)
  }

  /** Appending `y` adds one occurrence of `y` and leaves every other count alone. */
  lemma {:induction false} CountAppend<T>(s: seq<T>, y: T, x: T)
    ensures Count(s + [y], x) == Count(s, x) + (if y == x then 1 else 0)
  {
    if |s| > 0 {
      assert (s + [y])[1..] == s[1..] + [y];
      CountAppend(s[1..], y, x);
    } else {
      assert [y][1..] == [];
    }
  }

  /** An element occurs in `s` exactly when its count is positive. */
  lemma {:induction false} CountPositiveIffIn<T>(s: seq<T>, x: T)
    ensures Count(s, x) > 0 <==> x in s
  {
    if |s| > 0 {
      CountPositiveIffIn(s[1..], x);
      assert s == [s[0]] + s[1..];
    }
  }

  /** A dictionary from the compact source does not occur in a list with no compact-source entry. */
  lemma NoCompactIn(s: seq<ResourceDictionary>, compact: ResourceDictionary)
    requires compact.source == CompactXaml
    requires forall i :: 0 <= i < |s| ==> s[i].source != CompactXaml
    ensures Count(s, compact) == 0
  {
    CountPositiveIffIn(s, compact);
  }

  /**
   * Removing `x` removes exactly one occurrence of it when there is one,
   * leaves every other element's count alone, and introduces nothing new.
   */
  lemma {:induction false} CountRemoveFirst<T>(s: seq<T>, x: T, y: T)
    ensures Count(RemoveFirst(s, x), y) == Count(s, y) - (if y == x && x in s then 1 else 0)
    ensures forall i :: 0 <= i < |RemoveFirst(s, x)| ==> RemoveFirst(s, x)[i] in s
  {
    if |s| > 0 {
      CountRemoveFirst(s[1..], x, y);
      CountPositiveIffIn(s, x);
      CountPositiveIffIn(s[1..], x);
      if s[0] != x {
        var r := RemoveFirst(s[1..], x);
        assert ([s[0]] + r)[1..] == r;
        forall i | 0 <= i < |RemoveFirst(s, x)| ensures RemoveFirst(s, x)[i] in s {
          if i > 0 { assert RemoveFirst(s, x)[i] == r[i - 1]; }
        }
      } else {
        forall i | 0 <= i < |RemoveFirst(s, x)| ensures RemoveFirst(s, x)[i] in s {
          assert RemoveFirst(s, x)[i] == s[i + 1];
        }
      }
    }
  }

  /** Removing an element just appended to a list that did not hold it restores the list. */
  lemma {:induction false} RemoveAppended<T>(s: seq<T>, x: T)
    requires x !in s
    ensures RemoveFirst(s + [x], x) == s
  {
    if |s| == 0 {
      assert [x][1..] == [];
    } else {
      assert (s + [x])[1..] == s[1..] + [x];
      RemoveAppended(s[1..], x);
      assert s == [s[0]] + s[1..];
    }
  }

  /**
   * The class's static fields, shared by every XamlControlsResources: each
   * dictionary is created on first use and cached from then on.
   */
  class StaticResources {
    var controlsResources: Option<ResourceDictionary>
    var xceedControlsResources: Option<ResourceDictionary>
    var compactResources: Option<ResourceDictionary>
    var uiSettingsResources: Option<ResourceDictionary>

    /** Every cached dictionary comes from the source its field is named after. */
    ghost predicate Valid()
      reads this
    {
      (controlsResources.Some? ==> controlsResources.value.source == ControlsResourcesXaml) &&
      (xceedControlsResources.Some? ==> xceedControlsResources.value.source == XceedControlsResourcesXaml) &&
      (compactResources.Some? ==> compactResources.value.source == CompactXaml) &&
      (uiSettingsResources.Some? ==> uiSettingsResources.value.source == UISettings)
    }

    /** `d` is one of the cached dictionaries. */
    ghost predicate Holds(d: ResourceDictionary)
      reads this
    {
      controlsResources == Some(d) || xceedControlsResources == Some(d) ||
      compactResources == Some(d) || uiSettingsResources == Some(d)
    }

    /** The static fields before any accessor has run: all null. */
    constructor ()
      ensures Valid()
      ensures controlsResources.None? && xceedControlsResources.None?
      ensures compactResources.None? && uiSettingsResources.None?
    {
      controlsResources := None;
      xceedControlsResources := None;
      compactResources := None;
      uiSettingsResources := None;
    }

    /** The ControlsResources accessor: creates the dictionary on first use, then always returns it. */
    method ControlsResources() returns (d: ResourceDictionary)
      requires Valid()
      modifies this`controlsResources
      ensures Valid()
      ensures controlsResources == Some(d) && d.source == ControlsResourcesXaml
      ensures old(controlsResources).Some? ==> d == old(controlsResources).value
      ensures old(controlsResources).None? ==> fresh(d)
    {
      if controlsResources.None? {
        var created := new ResourceDictionary(ControlsResourcesXaml);
        controlsResources := Some(created);
      }
      d := controlsResources.value;
    }

    /** The XceedControlsResources accessor: creates the dictionary on first use, then always returns it. */
    method XceedControlsResources() returns (d: ResourceDictionary)
      requires Valid()
      modifies this`xceedControlsResources
      ensures Valid()
      ensures xceedControlsResources == Some(d) && d.source == XceedControlsResourcesXaml
      ensures old(xceedControlsResources).Some? ==> d == old(xceedControlsResources).value
      ensures old(xceedControlsResources).None? ==> fresh(d)
    {
      if xceedControlsResources.None? {
        var created := new ResourceDictionary(XceedControlsResourcesXaml);
        xceedControlsResources := Some(created);
      }
      d := xceedControlsResources.value;
    }

    /** The CompactResources accessor: creates the dictionary on first use, then always returns it. */
    method CompactResources() returns (d: ResourceDictionary)
      requires Valid()
      modifies this`compactResources
      ensures Valid()
      ensures compactResources == Some(d) && d.source == CompactXaml
      ensures old(compactResources).Some? ==> d == old(compactResources).value
      ensures old(compactResources).None? ==> fresh(d)
    {
      if compactResources.None? {
        var created := new ResourceDictionary(CompactXaml);
        compactResources := Some(created);
      }
      d := compactResources.value;
    }

    /** The UISettingsResources accessor (`??=`): creates the dictionary on first use, then always returns it. */
    method UISettingsResources() returns (d: ResourceDictionary)
      requires Valid()
      modifies this`uiSettingsResources
      ensures Valid()
      ensures uiSettingsResources == Some(d) && d.source == UISettings
      ensures old(uiSettingsResources).Some? ==> d == old(uiSettingsResources).value
      ensures old(uiSettingsResources).None? ==> fresh(d)
    {
      if uiSettingsResources.None? {
        var created := new ResourceDictionary(UISettings);
        uiSettingsResources := Some(created);
      }
      d := uiSettingsResources.value;
    }
  }

  /** The merged dictionary itself. */
  class XamlControlsResources {
    /** The static fields of the class. */
    const statics: StaticResources
    var mergedDictionaries: seq<ResourceDictionary>
    var useCompactResources: bool

    /** How many times the compact dictionary occurs in the merged list (none while it does not exist). */
    ghost function CompactCount(): nat
      reads this, statics
    {
      if statics.compactResources.None? then 0
      else Count(mergedDictionaries, statics.compactResources.value)
    }

    /**
     * The object invariant: the merged list holds only the cached
     * dictionaries, and the compact dictionary occurs in it once while the
     * flag is set and not at all while it is clear.
     */
    ghost predicate Valid()
      reads this, statics
    {
      statics.Valid() &&
      (forall i :: 0 <= i < |mergedDictionaries| ==> statics.Holds(mergedDictionaries[i])) &&
      (useCompactResources ==> statics.compactResources.Some?) &&
      CompactCount() == (if useCompactResources then 1 else 0) &&
      (!useCompactResources ==> forall i :: 0 <= i < |mergedDictionaries| ==> mergedDictionaries[i].source != CompactXaml)
    }

    /**
     * Merges the controls dictionary, then (when the Xceed toolkit is
     * supported) the Xceed dictionary, then the UI-settings dictionary; in
     * design mode it also creates the compact dictionary, without merging it.
     */
    constructor (statics: StaticResources, xceedSupported: bool, designModeEnabled: bool)
      requires statics.Valid()
      modifies statics
      ensures Valid() && this.statics == statics
      ensures !useCompactResources
      ensures statics.controlsResources.Some? && statics.uiSettingsResources.Some?
      ensures xceedSupported ==> statics.xceedControlsResources.Some?
      ensures mergedDictionaries ==
        [statics.controlsResources.value] +
        (if xceedSupported then [statics.xceedControlsResources.value] else []) +
        [statics.uiSettingsResources.value]
      ensures designModeEnabled ==> statics.compactResources.Some?
      ensures old(statics.controlsResources).Some? ==> statics.controlsResources == old(statics.controlsResources)
      ensures old(statics.uiSettingsResources).Some? ==> statics.uiSettingsResources == old(statics.uiSettingsResources)
      ensures old(statics.compactResources).Some? ==> statics.compactResources == old(statics.compactResources)
      ensures old(statics.xceedControlsResources).Some? || !xceedSupported ==>
        statics.xceedControlsResources == old(statics.xceedControlsResources)
      ensures !designModeEnabled ==> statics.compactResources == old(statics.compactResources)
    {
      this.statics := statics;
      useCompactResources := false;
      new;
      var controls := statics.ControlsResources();
      if xceedSupported {
        var xceed := statics.XceedControlsResources();
        var uiSettings := statics.UISettingsResources();
        mergedDictionaries := [controls, xceed, uiSettings];
      } else {
        var uiSettings := statics.UISettingsResources();
        mergedDictionaries := [controls, uiSettings];
      }
      if designModeEnabled {
        var _ := statics.CompactResources();
      }
      if statics.compactResources.Some? {
        NoCompactIn(mergedDictionaries, statics.compactResources.value);
      }
    }

    /**
     * The UseCompactResources setter. Assigning the current value changes
     * nothing; switching on appends the compact dictionary at the end of the
     * merged list; switching off removes it.
     */
    method SetUseCompactResources(value: bool)
      requires Valid()
      modifies this`useCompactResources, this`mergedDictionaries, statics`compactResources
      ensures Valid()
      ensures useCompactResources == value
      ensures old(useCompactResources) == value ==>
        mergedDictionaries == old(mergedDictionaries) && statics.compactResources == old(statics.compactResources)
      ensures !old(useCompactResources) && value ==>
        mergedDictionaries == old(mergedDictionaries) + [statics.compactResources.value]
      ensures old(statics.compactResources).Some? ==> statics.compactResources == old(statics.compactResources)
      ensures old(useCompactResources) && !value ==>
        statics.compactResources == old(statics.compactResources) &&
        mergedDictionaries == RemoveFirst(old(mergedDictionaries), statics.compactResources.value)
    {
      if useCompactResources != value {
        useCompactResources := value;
        var old_merged := mergedDictionaries;
        var compact := statics.CompactResources();
        if useCompactResources {
          mergedDictionaries := mergedDictionaries + [compact];
          NoCompactIn(old_merged, compact);
          CountAppend(old_merged, compact, compact);
          forall i | 0 <= i < |mergedDictionaries| ensures statics.Holds(mergedDictionaries[i]) {
            if i < |old_merged| { assert mergedDictionaries[i] == old_merged[i]; }
          }
        } else {
          mergedDictionaries := RemoveFirst(mergedDictionaries, compact);
          CountPositiveIffIn(old_merged, compact);
          CountRemoveFirst(old_merged, compact, compact);
          CountPositiveIffIn(mergedDictionaries, compact);
          forall i | 0 <= i < |mergedDictionaries|
            ensures statics.Holds(mergedDictionaries[i]) && mergedDictionaries[i].source != CompactXaml
          {
            var d := mergedDictionaries[i];
            assert d in old_merged;
            var j :| 0 <= j < |old_merged| && old_merged[j] == d;
            assert statics.Holds(old_merged[j]);
          }
        }
      }
    }
  }

  /**
   * Switching compact resources on and then off again restores the merged
   * list exactly: the compact dictionary was not in the list before it was
   * appended, so removing it takes away just that entry.
   */
  lemma CompactToggleRoundTrip(merged: seq<ResourceDictionary>, compact: ResourceDictionary)
    requires compact.source == CompactXaml
    requires forall i :: 0 <= i < |merged| ==> merged[i].source != CompactXaml
    ensures RemoveFirst(merged + [compact], compact) == merged
  {
    RemoveAppended(merged, compact);
  }
}
