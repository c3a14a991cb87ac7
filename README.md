# ModernWpf selection items, string converter and control resources — a Dafny model

This project models four pieces of the ModernWpf control library and its test application:

- **RepeaterItem** (flat selection sample, module `FlatSelection`). A list element at position
  `RepeatedIndex` turns key-up and left-click input into calls on a flat selection model. It keeps its
  `IsSelected` property in step with that model and raises selection-item accessibility events.
- **TreeViewItem** (hierarchical selection sample, module `TreeSelection`). The same behaviour for a
  tree node, keyed by an index path. The node finds its path by walking up through the items repeaters
  above it, up to the one named `rootRepeater`. A path with a negative component is "not realized".
- **NullOrEmptyStringToBooleanConverter** (module `Primitives`). A value converter: "does the value's
  string form have characters?" in one direction and its negation in the other.
- **XamlControlsResources** (module `XamlControls`). A resource dictionary that merges the library's
  shared dictionaries. Its `UseCompactResources` flag adds the compact-density dictionary to the end of
  the merged list or removes it. The shared dictionaries are created lazily in static fields.

The module `SelectionItems` holds what the two item controls share: keys, modifiers, the calls they
make, the .NET exceptions they can throw, and the event table.

How things are represented:

- **The selection model.** It is seen only through a snapshot, `ModelView`: its single-select flag and
  its three-valued answer to "is this index (path) selected?". The calls an item makes are returned as a
  sequence of `Action` values in call order. `Focus` in that sequence is the item focusing itself.
- **Exceptions.** Reading `.Value` of a null `bool?` becomes `Failure(InvalidOperation)`. Walking past
  the top of the logical tree (`FrameworkElement.Parent`) without meeting `rootRepeater` becomes `Failure(NullReference)`.
- **Inputs.** The keyboard modifiers (Shift, Ctrl) are an input. So is the set of events that have
  accessibility listeners. The logical tree (`FrameworkElement.Parent`) above a tree item is a list of ancestors, nearest parent
  first; each repeater carries the index it reports for the child below it.
- **Property callbacks.** WPF runs a dependency property's changed-callback only when the value
  changes. `SetRepeatedIndex` models the property's assignment together with that callback.
- **Static fields.** The static fields of `XamlControlsResources` are one `StaticResources` object. It
  is shared by every instance and passed to the constructor.
- **Build and design-time switches.** The `EXTENDED_WPF_TOOLKIT_27_SUPPORTED` build symbol and
  `DesignMode.DesignModeEnabled` are constructor parameters.

Two facts of the tree item's code are modelled as written:

- A Ctrl-click selects the path in both branches of its "is it selected?" test.
- Its Ctrl+Space toggle on key-up cannot be reached, because Space is handled first.

## Model

| member | source | states |
|---|---|---|
| `SelectionItems.EventToRaise` | test/ModernWpfTestApp/Samples/SelectionSample/Flat/RepeaterItem.cs:156-160 | no event is chosen exactly when a selected item is deselected in single-select mode |
| `SelectionItems.RaisedEvent` | test/ModernWpfTestApp/Samples/SelectionSample/Flat/RepeaterItem.cs:162-166 | an event is raised only if a listener exists for it |
| `SelectionItems.EventTable` | test/ModernWpfTestApp/Samples/SelectionSample/Flat/RepeaterItem.cs:157-166 | newly selected: ElementSelected (single) or AddedToSelection (multi); newly deselected: RemovedFromSelection (multi) or nothing (single); nothing without a listener |
| `FlatSelection.KeyUpActions` | test/ModernWpfTestApp/Samples/SelectionSample/Flat/RepeaterItem.cs:74-103 | key-up makes at most one selection call |
| `FlatSelection.ClickActions` | test/ModernWpfTestApp/Samples/SelectionSample/Flat/RepeaterItem.cs:105-139 | a click with a model that does not throw makes one call, or a Select followed by Focus |
| `FlatSelection.NoModelNoCalls` | test/ModernWpfTestApp/Samples/SelectionSample/Flat/RepeaterItem.cs:74-139 | with no selection model, key-up and click make no call |
| `FlatSelection.EscapeClearsSpaceSelects` | test/ModernWpfTestApp/Samples/SelectionSample/Flat/RepeaterItem.cs:78-85 | Escape clears the selection and Space selects RepeatedIndex, whatever the mode and modifiers |
| `FlatSelection.SingleSelectKeyUpHasNoBulkCalls` | test/ModernWpfTestApp/Samples/SelectionSample/Flat/RepeaterItem.cs:86-99 | in single-select mode key-up never calls SelectAll or a range call |
| `FlatSelection.MultiSelectKeyUp` | test/ModernWpfTestApp/Samples/SelectionSample/Flat/RepeaterItem.cs:86-99 | in multi-select mode Ctrl+A selects all, else Shift selects the range from the anchor to RepeatedIndex, else nothing |
| `FlatSelection.ShiftClick` | test/ModernWpfTestApp/Samples/SelectionSample/Flat/RepeaterItem.cs:109-119 | a multi-select Shift-click range-selects, or range-deselects with Ctrl; in single-select mode the click is the same as without Shift |
| `FlatSelection.CtrlClickToggles` | test/ModernWpfTestApp/Samples/SelectionSample/Flat/RepeaterItem.cs:120-130 | a Ctrl-click deselects a selected item and selects an unselected one; a null answer throws InvalidOperation |
| `FlatSelection.PlainClickSelectsThenFocuses` | test/ModernWpfTestApp/Samples/SelectionSample/Flat/RepeaterItem.cs:131-135 | a plain click selects RepeatedIndex and then focuses the item |
| `FlatSelection.RepeaterItem.constructor` | test/ModernWpfTestApp/Samples/SelectionSample/Flat/RepeaterItem.cs:23-48 | a new item has no model, index 0 and is not selected (the properties' defaults) |
| `FlatSelection.RepeaterItem.SetSelectionModel` | test/ModernWpfTestApp/Samples/SelectionSample/Flat/RepeaterItem.cs:23-27 | attaching a model changes only the model |
| `FlatSelection.RepeaterItem.SetRepeatedIndex` | test/ModernWpfTestApp/Samples/SelectionSample/Flat/RepeaterItem.cs:50-59 | a changed index with a model attached copies the model's answer into IsSelected, or throws on a null answer with IsSelected unchanged; otherwise IsSelected is untouched |
| `FlatSelection.RepeaterItem.OnSelectionModelChanged` | test/ModernWpfTestApp/Samples/SelectionSample/Flat/RepeaterItem.cs:146-169 | only "SelectedIndices" is acted on; IsSelected takes the model's answer; an event is raised only when the value flipped, per the event table; a null answer throws before anything is written |
| `TreeSelection.IndexPathOf` | test/ModernWpfTestApp/Samples/SelectionSample/TreeView/TreeViewItem.cs:189-210 | reference definition of the path: the parent's path followed by the parent's own index, ending at the root repeater |
| `TreeSelection.IndexPathFailsIffNoRoot` | test/ModernWpfTestApp/Samples/SelectionSample/TreeView/TreeViewItem.cs:196-207 | the path walk fails, with a null dereference, exactly when no ancestor is the root repeater |
| `TreeSelection.IndexPathFromRoot` | test/ModernWpfTestApp/Samples/SelectionSample/TreeView/TreeViewItem.cs:189-210 | the path is the repeaters' indices up to the root, outermost first: it starts with the root repeater's index and ends with the innermost repeater's |
| `TreeSelection.SelectionStateAt` | test/ModernWpfTestApp/Samples/SelectionSample/TreeView/TreeViewItem.cs:218 | a path that is not realized reads as not selected, without asking the model |
| `TreeSelection.KeyUpActions` | test/ModernWpfTestApp/Samples/SelectionSample/TreeView/TreeViewItem.cs:96-138 | key-up makes at most one selection call |
| `TreeSelection.ClickActions` | test/ModernWpfTestApp/Samples/SelectionSample/TreeView/TreeViewItem.cs:140-182 | a click with a model that does not throw makes one call, or a SelectAt followed by Focus |
| `TreeSelection.NoModelNoCalls` | test/ModernWpfTestApp/Samples/SelectionSample/TreeView/TreeViewItem.cs:96-182 | with no selection model, key-up and click make no call |
| `TreeSelection.KeyUpEscapeSpace` | test/ModernWpfTestApp/Samples/SelectionSample/TreeView/TreeViewItem.cs:103-129 | Escape clears and Space calls SelectAt whatever the modifiers and the model's answer, so the Ctrl+Space toggle is unreachable and key-up never throws |
| `TreeSelection.SingleSelectKeyUpHasNoBulkCalls` | test/ModernWpfTestApp/Samples/SelectionSample/TreeView/TreeViewItem.cs:111-134 | in single-select mode key-up never calls SelectAll or a range call |
| `TreeSelection.MultiSelectKeyUp` | test/ModernWpfTestApp/Samples/SelectionSample/TreeView/TreeViewItem.cs:111-134 | in multi-select mode Ctrl+A selects all, else Shift range-selects to the path, else nothing |
| `TreeSelection.ShiftClick` | test/ModernWpfTestApp/Samples/SelectionSample/TreeView/TreeViewItem.cs:149-159 | Shift(+Ctrl) range-selects (range-deselects) only in multi-select mode; in single-select mode Shift is ignored |
| `TreeSelection.CtrlAndPlainClick` | test/ModernWpfTestApp/Samples/SelectionSample/TreeView/TreeViewItem.cs:160-176 | a Ctrl-click calls SelectAt in both branches and throws only on an indeterminate answer; a plain click selects and focuses |
| `TreeSelection.TreeViewItem.constructor` | test/ModernWpfTestApp/Samples/SelectionSample/TreeView/TreeViewItem.cs:17-41 | a new item has no model, index 0 and IsSelected false |
| `TreeSelection.TreeViewItem.SetSelectionModel` | test/ModernWpfTestApp/Samples/SelectionSample/TreeView/TreeViewItem.cs:25-29 | attaching a model changes only the model |
| `TreeSelection.TreeViewItem.IsRealized` | test/ModernWpfTestApp/Samples/SelectionSample/TreeView/TreeViewItem.cs:243-256 | true iff every component is non-negative (an empty path is realized) |
| `TreeSelection.TreeViewItem.GetIndexPath` | test/ModernWpfTestApp/Samples/SelectionSample/TreeView/TreeViewItem.cs:189-210 | the insert-at-front loop computes exactly the reference path, or the null dereference |
| `TreeSelection.TreeViewItem.Select` | test/ModernWpfTestApp/Samples/SelectionSample/TreeView/TreeViewItem.cs:43-57 | Select(true) calls SelectAt(path), Select(false) calls DeselectAt(path); with no model nothing is called |
| `TreeSelection.TreeViewItem.OnKeyUp` | test/ModernWpfTestApp/Samples/SelectionSample/TreeView/TreeViewItem.cs:96-138 | the path is computed first, even with no model; then the key-up table applies and cannot throw |
| `TreeSelection.TreeViewItem.OnMouseLeftButtonDown` | test/ModernWpfTestApp/Samples/SelectionSample/TreeView/TreeViewItem.cs:140-182 | an already handled press is ignored; any other press that does not throw is marked handled, even with no model |
| `TreeSelection.TreeViewItem.SetRepeatedIndex` | test/ModernWpfTestApp/Samples/SelectionSample/TreeView/TreeViewItem.cs:68-80 | a changed index recomputes the path; with a model, IsSelected becomes the model's answer for a realized path and false otherwise |
| `TreeSelection.TreeViewItem.OnSelectionModelChanged` | test/ModernWpfTestApp/Samples/SelectionSample/TreeView/TreeViewItem.cs:212-241 | the three-valued IsSelected is rewritten whenever it differs; an event is considered only when the null-as-false readings differ |
| `Primitives.Convert` | ModernWpf/Controls/Primitives/NullOrEmptyStringToBooleanConverter.cs:10-13 | true exactly when the value's string form is non-null and non-empty |
| `Primitives.ConvertBack` | ModernWpf/Controls/Primitives/NullOrEmptyStringToBooleanConverter.cs:15-18 | true exactly when the value's string form is null or empty |
| `Primitives.NullValue` | ModernWpf/Controls/Primitives/NullOrEmptyStringToBooleanConverter.cs:12-17 | a null value converts to false and back to true |
| `Primitives.ConvertBackNegatesConvert` | ModernWpf/Controls/Primitives/NullOrEmptyStringToBooleanConverter.cs:12-17 | ConvertBack is the negation of Convert on every value |
| `Primitives.IgnoresConversionContext` | ModernWpf/Controls/Primitives/NullOrEmptyStringToBooleanConverter.cs:10-18 | neither direction depends on target type, parameter or culture |
| `XamlControls.ResourceDictionary.constructor` | ModernWpf/Controls/XamlControlsResources.cs:57 | a new dictionary remembers the source it loads |
| `XamlControls.RemoveFirst` | ModernWpf/Controls/XamlControlsResources.cs:44 | removing an element shortens the list by one when it is present and leaves the list alone when it is not |
| `XamlControls.CountAppend` | ModernWpf/Controls/XamlControlsResources.cs:40 | appending adds one occurrence of the appended dictionary and changes no other count |
| `XamlControls.CountRemoveFirst` | ModernWpf/Controls/XamlControlsResources.cs:44 | removing takes away one occurrence of a present dictionary, no other, and adds nothing new |
| `XamlControls.RemoveAppended` | ModernWpf/Controls/XamlControlsResources.cs:36-45 | removing an element just appended to a list without it restores the list |
| `XamlControls.CompactToggleRoundTrip` | ModernWpf/Controls/XamlControlsResources.cs:36-45 | switching compact resources on and then off restores the merged list exactly |
| `XamlControls.StaticResources.constructor` | ModernWpf/Controls/XamlControlsResources.cs:95-98 | the static caches start out null |
| `XamlControls.StaticResources.ControlsResources` | ModernWpf/Controls/XamlControlsResources.cs:51-61 | creates the controls dictionary on first use and returns that same instance afterwards |
| `XamlControls.StaticResources.XceedControlsResources` | ModernWpf/Controls/XamlControlsResources.cs:63-73 | creates the Xceed dictionary on first use and returns that same instance afterwards |
| `XamlControls.StaticResources.CompactResources` | ModernWpf/Controls/XamlControlsResources.cs:75-85 | creates the compact dictionary on first use and returns that same instance afterwards |
| `XamlControls.StaticResources.UISettingsResources` | ModernWpf/Controls/XamlControlsResources.cs:87-93 | creates the UI-settings dictionary on first use and returns that same instance afterwards |
| `XamlControls.XamlControlsResources.constructor` | ModernWpf/Controls/XamlControlsResources.cs:13-27 | the merged list is the controls, (Xceed,) UI-settings dictionaries, without the compact one; the flag is false; design mode creates the compact dictionary without merging it; already cached dictionaries are kept, and the Xceed and compact caches are untouched unless requested |
| `XamlControls.XamlControlsResources.SetUseCompactResources` | ModernWpf/Controls/XamlControlsResources.cs:29-49 | the flag reads back as assigned; the same value changes nothing; on appends the compact dictionary at the end, reusing an already cached one; off removes it; the compact dictionary occurs once while on and never while off |

## Left out

- The selection model is not part of this model. Its single-select flag and its answers are inputs, through `ModelView`. The calls made on it are outputs.
- Subscribing to and unsubscribing from the model's PropertyChanged event is left out. This is the SelectionModel branch of both OnPropertyChanged callbacks. `OnSelectionModelChanged` therefore requires a model to be attached, since the handler is only subscribed while one is.
- Focus is only recorded as the `Focus` action.
- Automation peer creation is left out. `AutomationPeer.ListenerExists` is the `listeners` input.
- `Debug.WriteLine`, the base-class `OnKeyUp`/`OnMouseLeftButtonDown` calls and the constructors' visual settings (tab stop, focus visuals, margin) are left out, because they do not affect selection.
- The global `Keyboard.Modifiers` is an input. Only Shift and Ctrl are distinguished.
- The logical tree (`FrameworkElement.Parent`) is an input list. Each repeater's `GetElementIndex` answer is a number in that list. Re-parenting an item is not modelled.
- When a click handler throws, the result is the failure alone. The press then stays unhandled.
- Loading the XAML files behind each dictionary is left out; a dictionary is an identity with a source tag. UISettingsResources.cs is not part of this model: its registry reads and system-event handling are I/O.
- The merged-list invariant assumes nobody else edits `MergedDictionaries`.
- The converter's `[ValueConversion]` annotation is left out. Its boxed `bool` result is a `bool`. What a value's `ToString()` returns is an input.
