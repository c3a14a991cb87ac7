/**
 * The hierarchical selection sample's item control, TreeViewItem: a node of
 * a tree built from nested items repeaters. It finds its own index path by
 * walking up the logical tree (`FrameworkElement.Parent`), turns key-up and left-click input into calls
 * on an index-path-keyed selection model, and keeps its three-valued
 * `isSelected` property in step with that model.
 */
module TreeSelection {
  import opened Wrappers
  import opened SelectionItems

  /** The name that marks the outermost repeater, where the upward walk stops. */
  const RootRepeaterName: string := "rootRepeater"

  /**
   * An element above the item in the logical tree (`FrameworkElement.Parent`). An items repeater carries
   * its name and the index it reports (GetElementIndex) for the element just
   * below it on the way up; that index is negative when the element is not
   * realized. Any other element contributes nothing to the path.
   */
  datatype Ancestor = ItemsRepeater(name: string, elementIndex: int) | OtherElement {
    predicate IsRoot() {
      ItemsRepeater? && name == RootRepeaterName
    }
  }

  /** The index an ancestor contributes to the path: one for a repeater, none otherwise. */
  function OwnIndex(a: Ancestor): (r: seq<int>)
    ensures |r| == if a.ItemsRepeater? then 1 else 0
  {
    if a.ItemsRepeater? then [a.elementIndex] else []
  }

  /** Appends `inner` to a successfully built path; passes a failure through. */
  function Extend(outer: Result<seq<int>, Error>, inner: seq<int>): Result<seq<int>, Error> {
    match outer
    case Failure(e) => Failure(e)
    case Success(p) => Success(p + inner)
  }

  /**
   * The index path of an item whose ancestors, nearest parent first, are
   * `ancestors`: the path of the parent's position (outer indices first)
   * followed by the parent's own index, ending at the root repeater. Running
   * out of ancestors before reaching the root repeater dereferences a null
   * parent.
   */
  function IndexPathOf(ancestors: seq<Ancestor>): Result<seq<int>, Error> {
    if |ancestors| == 0 then Failure(NullReference)
    else if ancestors[0].IsRoot() then Success([ancestors[0].elementIndex])
    else Extend(IndexPathOf(ancestors[1..]), OwnIndex(ancestors[0]))
  }

  /** Extending a path twice is extending it once by both parts, inner part last. */
  lemma ExtendTwice(outer: Result<seq<int>, Error>, middle: seq<int>, inner: seq<int>)
    ensures Extend(Extend(outer, middle), inner) == Extend(outer, middle + inner)
  {
    if outer.Success? {
      assert (outer.value + middle) + inner == outer.value + (middle + inner);
    }
  }

  /** The indices the repeaters among `ancestors` report, innermost first. */
  function RepeaterIndices(ancestors: seq<Ancestor>): seq<int> {
    if |ancestors| == 0 then [] else OwnIndex(ancestors[0]) + RepeaterIndices(ancestors[1..])
  }

  /** The sequence in the opposite order. */
  function Reverse(s: seq<int>): (r: seq<int>)
    ensures |r| == |s|
  {
    if |s| == 0 then [] else Reverse(s[1..]) + [s[0]]
  }

  /** A path is realized when none of its components is negative (an empty path is realized). */
  ghost predicate Realized(path: seq<int>) {
    forall k :: 0 <= k < |path| ==> path[k] >= 0
  }

  /**
   * The selected state an item at `path` takes from the model: the model's
   * answer for a realized path, and `false`, without asking the model, for a
   * path that is not realized.
   */
  ghost function SelectionStateAt(m: ModelView<seq<int>>, path: seq<int>): (s: Option<bool>)
    ensures !Realized(path) ==> s == Some(false)
  {
    if Realized(path) then m.isSelected(path) else Some(false)
  }

  /** The null-as-false reading of a three-valued selected state. */
  function AsBool(state: Option<bool>): bool {
    state == Some(true)
  }

  /**
   * The path walk fails exactly when there is no root repeater among the
   * ancestors, and then with a null dereference.
   */
  lemma {:induction false} IndexPathFailsIffNoRoot(ancestors: seq<Ancestor>)
    ensures IndexPathOf(ancestors).Failure? <==> forall k :: 0 <= k < |ancestors| ==> !ancestors[k].IsRoot()
    ensures IndexPathOf(ancestors).Failure? ==> IndexPathOf(ancestors).error == NullReference
  {
    if |ancestors| > 0 && !ancestors[0].IsRoot() {
      IndexPathFailsIffNoRoot(ancestors[1..]);
      if IndexPathOf(ancestors).Failure? {
        forall k | 0 <= k < |ancestors| ensures !ancestors[k].IsRoot() {
          if k > 0 { assert ancestors[k] == ancestors[1..][k - 1]; }
        }
      } else {
        var j :| 0 <= j < |ancestors[1..]| && ancestors[1..][j].IsRoot();
        assert ancestors[j + 1].IsRoot();
      }
    }
  }

  /**
   * With the first root repeater at position `k` of the ancestors, the path
   * is the repeaters' indices up to and including the root, outermost first:
   * it starts with the root repeater's index and ends with the index the
   * innermost repeater reports.
   */
  lemma {:induction false} IndexPathFromRoot(ancestors: seq<Ancestor>, k: nat)
    requires k < |ancestors| && ancestors[k].IsRoot()
    requires forall i :: 0 <= i < k ==> !ancestors[i].IsRoot()
    ensures IndexPathOf(ancestors).Success?
    ensures IndexPathOf(ancestors).value == Reverse(RepeaterIndices(ancestors[..k + 1]))
    ensures |IndexPathOf(ancestors).value| >= 1
    ensures IndexPathOf(ancestors).value[0] == ancestors[k].elementIndex
    ensures |RepeaterIndices(ancestors)| > 0
    ensures IndexPathOf(ancestors).value[|IndexPathOf(ancestors).value| - 1] == RepeaterIndices(ancestors)[0]
  {
    var head := ancestors[0];
    if k == 0 {
      assert ancestors[..1] == [head];
      assert RepeaterIndices(ancestors[..1]) == [head.elementIndex] + RepeaterIndices([]);
    } else {
      var rest := ancestors[1..];
      forall i | 0 <= i < k - 1 ensures !rest[i].IsRoot() {
        assert rest[i] == ancestors[i + 1];
      }
      IndexPathFromRoot(rest, k - 1);
      var outer := IndexPathOf(rest).value;
      assert ancestors[..k + 1] == [head] + rest[..k];
      assert ([head] + rest[..k])[1..] == rest[..k];
      var inner := RepeaterIndices(rest[..k]);
      assert RepeaterIndices(ancestors[..k + 1]) == OwnIndex(head) + inner;
      if head.ItemsRepeater? {
        assert ([head.elementIndex] + inner)[1..] == inner;
        assert Reverse(OwnIndex(head) + inner) == Reverse(inner) + [head.elementIndex];
      } else {
        assert OwnIndex(head) + inner == inner;
      }
    }
  }

  /**
   * The calls a key-up on the item at `path` makes. With no model attached
   * nothing happens; Escape clears and Space selects the path; in
   * multi-select mode Ctrl+A selects all, Ctrl+Space would toggle the path
   * (reading the model's answer with `.Value`), and Shift selects the range
   * from the anchor to the path.
   */
  function KeyUpActions(model: Option<ModelView<seq<int>>>, path: seq<int>, key: Key, mods: Modifiers): (r: Result<seq<Action>, Error>)
    ensures r.Success? ==> |r.value| <= 1
  {
    if model.None? then Success([])
    else
      var m := model.value;
      if key == Escape then Success([ClearSelection])
      else if key == Space then Success([SelectAt(path)])
      else if !m.singleSelect then
        if key == A && mods.ctrl then Success([SelectAll])
        else if mods.ctrl && key == Space then
          match m.isSelected(path)
          case None => Failure(InvalidOperation)
          case Some(selected) =>
            if selected then Success([DeselectAt(path)]) else Success([SelectAt(path)])
        else if mods.shift then Success([SelectRangeFromAnchorTo(path)])
        else Success([])
      else Success([])
  }

  /**
   * The calls a left-button press on the item at `path` makes: Shift in
   * multi-select mode range-(de)selects; otherwise Ctrl reads the model's
   * answer with `.Value` (throwing on an indeterminate node) and then
   * selects the path whatever the answer; a plain click selects and focuses.
   */
  function ClickActions(model: Option<ModelView<seq<int>>>, path: seq<int>, mods: Modifiers): (r: Result<seq<Action>, Error>)
    ensures model.Some? && r.Success? ==> 1 <= |r.value| <= 2
    ensures model.Some? && r.Success? && |r.value| == 2 ==> r.value == [SelectAt(path), Focus]
  {
    if model.None? then Success([])
    else
      var m := model.value;
      if mods.shift && !m.singleSelect then
        if mods.ctrl then Success([DeselectRangeFromAnchorTo(path)])
        else Success([SelectRangeFromAnchorTo(path)])
      else if mods.ctrl then
        match m.isSelected(path)
        case None => Failure(InvalidOperation)
        case Some(selected) =>
          if selected then Success([SelectAt(path)]) else Success([SelectAt(path)])
      else Success([SelectAt(path), Focus])
  }

  /** With no selection model, key-up and click make no call. */
  lemma NoModelNoCalls(path: seq<int>, key: Key, mods: Modifiers)
    ensures KeyUpActions(None, path, key, mods) == Success([])
    ensures ClickActions(None, path, mods) == Success([])
  {
  }

  /**
   * Escape always clears and Space always selects the path, whatever the
   * modifiers and the model's answer: the Ctrl+Space toggle is unreachable,
   * and key-up never fails.
   */
  lemma KeyUpEscapeSpace(m: ModelView<seq<int>>, path: seq<int>, key: Key, mods: Modifiers)
    ensures KeyUpActions(Some(m), path, Escape, mods) == Success([ClearSelection])
    ensures KeyUpActions(Some(m), path, Space, mods) == Success([SelectAt(path)])
    ensures KeyUpActions(Some(m), path, key, mods).Success?
  {
  }

  /** In single-select mode key-up never selects all and never makes a range call. */
  lemma SingleSelectKeyUpHasNoBulkCalls(m: ModelView<seq<int>>, path: seq<int>, key: Key, mods: Modifiers)
    requires m.singleSelect
    ensures KeyUpActions(Some(m), path, key, mods).Success?
    ensures forall a :: a in KeyUpActions(Some(m), path, key, mods).value ==> !a.SelectAll? && !a.IsRange()
  {
  }

  /** In multi-select mode, for other keys: Ctrl+A selects all, else Shift range-selects to the path. */
  lemma MultiSelectKeyUp(m: ModelView<seq<int>>, path: seq<int>, key: Key, mods: Modifiers)
    requires !m.singleSelect && key != Escape && key != Space
    ensures KeyUpActions(Some(m), path, key, mods) ==
      if key == A && mods.ctrl then Success([SelectAll])
      else if mods.shift then Success([SelectRangeFromAnchorTo(path)])
      else Success([])
  {
  }

  /**
   * Shift(+Ctrl) range-selects (range-deselects) only in multi-select mode;
   * in single-select mode Shift is ignored.
   */
  lemma ShiftClick(m: ModelView<seq<int>>, path: seq<int>, ctrl: bool)
    ensures !m.singleSelect ==>
      ClickActions(Some(m), path, Modifiers(true, ctrl)) ==
        Success([if ctrl then DeselectRangeFromAnchorTo(path) else SelectRangeFromAnchorTo(path)])
    ensures m.singleSelect ==>
      ClickActions(Some(m), path, Modifiers(true, ctrl)) == ClickActions(Some(m), path, Modifiers(false, ctrl))
  {
  }

  /**
   * A Ctrl-click that is not a multi-select Shift-click selects the path in
   * both branches of its test; it fails only when the model's answer is
   * indeterminate. A plain click selects and then focuses.
   */
  lemma CtrlAndPlainClick(m: ModelView<seq<int>>, path: seq<int>, mods: Modifiers)
    requires !(mods.shift && !m.singleSelect)
    ensures mods.ctrl ==>
      ClickActions(Some(m), path, mods) ==
        if m.isSelected(path).None? then Failure(InvalidOperation) else Success([SelectAt(path)])
    ensures !mods.ctrl ==> ClickActions(Some(m), path, mods) == Success([SelectAt(path), Focus])
  {
  }

  /** What a left-button press leaves behind: the calls made and the event's Handled flag. */
  datatype ClickOutcome = ClickOutcome(actions: seq<Action>, handled: bool)

  /** The item control: its properties, its position in the logical tree and its handlers. */
  class TreeViewItem {
    var selectionModel: Option<ModelView<seq<int>>>
    var repeatedIndex: int
    var isSelected: Option<bool>
    /** The item's ancestors in the logical tree (`FrameworkElement.Parent`), nearest parent first. */
    var ancestors: seq<Ancestor>

    /** A new item placed below `ancestors`: no model, index 0, not selected. */
    constructor (ancestors: seq<Ancestor>)
      ensures this.ancestors == ancestors
      ensures selectionModel.None? && repeatedIndex == 0 && isSelected == Some(false)
    {
      this.ancestors := ancestors;
      selectionModel := None;
      repeatedIndex := 0;
      isSelected := Some(false);
    }

    /** Attaches (or, with `None`, detaches) a selection model; nothing else changes. */
    method SetSelectionModel(model: Option<ModelView<seq<int>>>)
      modifies this`selectionModel
      ensures selectionModel == model
    {
      selectionModel := model;
    }

    /**
     * True iff every component of the path is non-negative; the scan stops
     * at the first negative component.
     */
    static method IsRealized(indexPath: seq<int>) returns (isRealized: bool)
      ensures isRealized <==> Realized(indexPath)
    {
      isRealized := true;
      var i := 0;
      while i < |indexPath|
        invariant 0 <= i <= |indexPath|
        invariant forall k :: 0 <= k < i ==> indexPath[k] >= 0
      {
        if indexPath[i] < 0 {
          isRealized := false;
          break;
        }
        i := i + 1;
      }
    }

    /**
     * Walks up from the item: every repeater passed on the way puts the
     * index it reports for the child at the front of the path, up to and
     * including the root repeater. Running past the top of the tree
     * dereferences a null parent.
     */
    method GetIndexPath() returns (r: Result<seq<int>, Error>)
      ensures r == IndexPathOf(ancestors)
      ensures r.Success? ==> |r.value| >= 1
    {
      var path: seq<int> := [];
      var i := 0;
      assert ancestors[0..] == ancestors;
      assert IndexPathOf(ancestors).Success? ==> IndexPathOf(ancestors).value + [] == IndexPathOf(ancestors).value;
      while !(i < |ancestors| && ancestors[i].IsRoot())
        invariant 0 <= i <= |ancestors|
        invariant IndexPathOf(ancestors) == Extend(IndexPathOf(ancestors[i..]), path)
        decreases |ancestors| - i
      {
        if i == |ancestors| {
          return Failure(NullReference);
        }
        assert ancestors[i..][0] == ancestors[i] && ancestors[i..][1..] == ancestors[i + 1..];
        assert IndexPathOf(ancestors[i..]) == Extend(IndexPathOf(ancestors[i + 1..]), OwnIndex(ancestors[i]));
        ExtendTwice(IndexPathOf(ancestors[i + 1..]), OwnIndex(ancestors[i]), path);
        ghost var inserted := OwnIndex(ancestors[i]) + path;
        if ancestors[i].ItemsRepeater? {
          path := [ancestors[i].elementIndex] + path;
        }
        assert path == inserted;
        i := i + 1;
      }
      path := [ancestors[i].elementIndex] + path;
      r := Success(path);
    }

    /**
     * Asks the model to select (`select`) or deselect the item's path; with
     * no model nothing is called and the path is not computed.
     */
    method Select(select: bool) returns (r: Result<seq<Action>, Error>)
      ensures selectionModel.None? ==> r == Success([])
      ensures selectionModel.Some? ==>
        match IndexPathOf(ancestors)
        case Failure(e) => r == Failure(e)
        case Success(p) => r == Success([if select then SelectAt(p) else DeselectAt(p)])
    {
      r := Success([]);
      if selectionModel.Some? {
        var indexPath := GetIndexPath();
        if indexPath.Failure? {
          r := Failure(indexPath.error);
        } else if select {
          r := Success([SelectAt(indexPath.value)]);
        } else {
          r := Success([DeselectAt(indexPath.value)]);
        }
      }
    }

    /**
     * Key-up: the path is computed first, with or without a model (so a
     * missing root repeater throws even then); the calls follow the tree's
     * key-up table.
     */
    method OnKeyUp(key: Key, mods: Modifiers) returns (r: Result<seq<Action>, Error>)
      ensures IndexPathOf(ancestors).Failure? ==> r == Failure(NullReference)
      ensures IndexPathOf(ancestors).Success? ==>
        r == KeyUpActions(selectionModel, IndexPathOf(ancestors).value, key, mods) && r.Success?
    {
      IndexPathFailsIffNoRoot(ancestors);
      var indexPath := GetIndexPath();
      if indexPath.Failure? {
        return Failure(indexPath.error);
      }
      r := KeyUpActions(selectionModel, indexPath.value, key, mods);
      if selectionModel.Some? {
        KeyUpEscapeSpace(selectionModel.value, indexPath.value, key, mods);
      }
    }

    /**
     * Left-button press: an already handled press is ignored. Otherwise the
     * path is computed, the click table applied, and the press marked
     * handled (with or without a model); an exception on the way leaves it
     * unhandled.
     */
    method OnMouseLeftButtonDown(handled: bool, mods: Modifiers) returns (r: Result<ClickOutcome, Error>)
      ensures handled ==> r == Success(ClickOutcome([], true))
      ensures r.Success? ==> r.value.handled
      ensures !handled ==>
        match IndexPathOf(ancestors)
        case Failure(e) => r == Failure(e)
        case Success(p) =>
          match ClickActions(selectionModel, p, mods)
          case Failure(e) => r == Failure(e)
          case Success(calls) => r == Success(ClickOutcome(calls, true))
    {
      if handled {
        return Success(ClickOutcome([], true));
      }
      var indexPath := GetIndexPath();
      if indexPath.Failure? {
        return Failure(indexPath.error);
      }
      var calls := ClickActions(selectionModel, indexPath.value, mods);
      if calls.Failure? {
        return Failure(calls.error);
      }
      r := Success(ClickOutcome(calls.value, true));
    }

    /**
     * Sets RepeatedIndex. The property-changed callback runs only when the
     * value changes: it computes the path (which may throw), and with a
     * model attached sets `isSelected` to the model's answer for a realized
     * path and to false for one that is not.
     */
    method SetRepeatedIndex(value: int) returns (r: Outcome<Error>)
      modifies this`repeatedIndex, this`isSelected
      ensures repeatedIndex == value
      ensures old(repeatedIndex) == value ==> r == Pass && isSelected == old(isSelected)
      ensures old(repeatedIndex) != value ==>
        match IndexPathOf(ancestors)
        case Failure(e) => r == Fail(e) && isSelected == old(isSelected)
        case Success(p) =>
          r == Pass &&
          isSelected == if selectionModel.Some? then SelectionStateAt(selectionModel.value, p) else old(isSelected)
    {
      r := Pass;
      if repeatedIndex != value {
        repeatedIndex := value;
        var indexPath := GetIndexPath();
        if indexPath.Failure? {
          return Fail(indexPath.error);
        }
        if selectionModel.Some? {
          var realized := IsRealized(indexPath.value);
          isSelected := if realized then selectionModel.value.isSelected(indexPath.value) else Some(false);
        }
      }
    }

    /**
     * The handler for the attached model's PropertyChanged notification.
     * Only a "SelectedIndices" change is acted on. The new state is the
     * model's answer for a realized path and false otherwise; it is written
     * whenever it differs from the old one, but an event is considered only
     * when the null-as-false readings differ, so a change between
     * indeterminate and false raises nothing. The result is the event raised.
     */
    method OnSelectionModelChanged(propertyName: string, listeners: set<AutomationEvent>)
      returns (r: Result<Option<AutomationEvent>, Error>)
      requires selectionModel.Some?
      modifies this`isSelected
      ensures propertyName != "SelectedIndices" ==> r == Success(None) && isSelected == old(isSelected)
      ensures propertyName == "SelectedIndices" ==>
        match IndexPathOf(ancestors)
        case Failure(e) => r == Failure(e) && isSelected == old(isSelected)
        case Success(p) =>
          var state := SelectionStateAt(selectionModel.value, p);
          isSelected == state &&
          r == Success(if AsBool(old(isSelected)) == AsBool(state) then None
                       else RaisedEvent(AsBool(old(isSelected)), selectionModel.value.singleSelect, listeners))
    {
      r := Success(None);
      if propertyName == "SelectedIndices" {
        var oldValue := isSelected;
        var indexPath := GetIndexPath();
        if indexPath.Failure? {
          return Failure(indexPath.error);
        }
        var realized := IsRealized(indexPath.value);
        var newValue := if realized then selectionModel.value.isSelected(indexPath.value) else Some(false);
        if oldValue != newValue {
          isSelected := newValue;
          var oldValueAsBool := AsBool(oldValue);
          var newValueAsBool := AsBool(newValue);
          if oldValueAsBool != newValueAsBool {
            r := Success(RaisedEvent(oldValueAsBool, selectionModel.value.singleSelect, listeners));
          }
        }
      }
    }
  }
}
