/**
 * The flat selection sample's item control, RepeaterItem: an element of a
 * list, at position `repeatedIndex`, that turns key-up and left-click input
 * into calls on a flat (index-keyed) selection model, and keeps its own
 * `isSelected` property in step with that model.
 */
module FlatSelection {
  import opened Wrappers
  import opened SelectionItems

  /**
   * The calls a key-up on the item at `index` makes. With no model attached
   * nothing happens; Escape clears, Space selects the item; in multi-select
   * mode Ctrl+A selects all and any other key with Shift selects the range
   * from the anchor to the item.
   */
  function KeyUpActions(model: Option<ModelView<int>>, index: int, key: Key, mods: Modifiers): (r: seq<Action>)
    ensures |r| <= 1
  {
    if model.None? then []
    else if key == Escape then [ClearSelection]
    else if key == Space then [Select(index)]
    else if !model.value.singleSelect then
      if key == A && mods.ctrl then [SelectAll]
      else if mods.shift then [SelectRangeFromAnchor(index)]
      else []
    else []
  }

  /**
   * The calls a left-button press on the item at `index` makes. Shift in
   * multi-select mode range-(de)selects; otherwise Ctrl toggles the item,
   * reading the model's answer with `.Value` (which throws on a null
   * answer); a plain click selects the item and focuses it.
   */
  function ClickActions(model: Option<ModelView<int>>, index: int, mods: Modifiers): (r: Result<seq<Action>, Error>)
    ensures model.Some? && r.Success? ==> 1 <= |r.value| <= 2
    ensures model.Some? && r.Success? && |r.value| == 2 ==> r.value == [Select(index), Focus]
  {
    if model.None? then Success([])
    else
      var m := model.value;
      if mods.shift && !m.singleSelect then
        if mods.ctrl then Success([DeselectRangeFromAnchor(index)])
        else Success([SelectRangeFromAnchor(index)])
      else if mods.ctrl then
        match m.isSelected(index)
        case None => Failure(InvalidOperation)
        case Some(selected) =>
          if selected then Success([Deselect(index)]) else Success([Select(index)])
      else Success([Select(index), Focus])
  }

  /** With no selection model attached, neither key-up nor a click makes any call. */
  lemma NoModelNoCalls(index: int, key: Key, mods: Modifiers)
    ensures KeyUpActions(None, index, key, mods) == []
    ensures ClickActions(None, index, mods) == Success([])
  {
  }

  /** Escape always clears and Space always selects the item, in either selection mode. */
  lemma EscapeClearsSpaceSelects(m: ModelView<int>, index: int, mods: Modifiers)
    ensures KeyUpActions(Some(m), index, Escape, mods) == [ClearSelection]
    ensures KeyUpActions(Some(m), index, Space, mods) == [Select(index)]
  {
  }

  /** In single-select mode key-up never selects all and never makes a range call. */
  lemma SingleSelectKeyUpHasNoBulkCalls(m: ModelView<int>, index: int, key: Key, mods: Modifiers)
    requires m.singleSelect
    ensures forall a :: a in KeyUpActions(Some(m), index, key, mods) ==> !a.SelectAll? && !a.IsRange()
  {
  }

  /**
   * In multi-select mode, for a key other than Escape and Space: Ctrl+A
   * selects all, otherwise Shift selects the range from the anchor to the
   * item, and otherwise nothing happens.
   */
  lemma MultiSelectKeyUp(m: ModelView<int>, index: int, key: Key, mods: Modifiers)
    requires !m.singleSelect && key != Escape && key != Space
    ensures KeyUpActions(Some(m), index, key, mods) ==
      if key == A && mods.ctrl then [SelectAll]
      else if mods.shift then [SelectRangeFromAnchor(index)]
      else []
  {
  }

  /**
   * A Shift-click in multi-select mode range-selects, or range-deselects
   * when Ctrl is also held; in single-select mode Shift is ignored and the
   * click behaves exactly as it would without Shift.
   */
  lemma ShiftClick(m: ModelView<int>, index: int, ctrl: bool)
    ensures !m.singleSelect ==>
      ClickActions(Some(m), index, Modifiers(true, ctrl)) ==
        Success([if ctrl then DeselectRangeFromAnchor(index) else SelectRangeFromAnchor(index)])
    ensures m.singleSelect ==>
      ClickActions(Some(m), index, Modifiers(true, ctrl)) == ClickActions(Some(m), index, Modifiers(false, ctrl))
  {
  }

  /**
   * A Ctrl-click that is not a multi-select Shift-click toggles the item:
   * Deselect when the model says it is selected, Select when it says it is
   * not, and an InvalidOperation failure when the model's answer is null.
   */
  lemma CtrlClickToggles(m: ModelView<int>, index: int, mods: Modifiers)
    requires mods.ctrl && !(mods.shift && !m.singleSelect)
    ensures ClickActions(Some(m), index, mods) ==
      match m.isSelected(index)
      case None => Failure(InvalidOperation)
      case Some(true) => Success([Deselect(index)])
      case Some(false) => Success([Select(index)])
  {
  }

  /** A plain click selects the item and then focuses it, whatever the model says. */
  lemma PlainClickSelectsThenFocuses(m: ModelView<int>, index: int, mods: Modifiers)
    requires !mods.ctrl && !(mods.shift && !m.singleSelect)
    ensures ClickActions(Some(m), index, mods) == Success([Select(index), Focus])
  {
  }

  /** The item control: the properties it owns and the handlers that update them. */
  class RepeaterItem {
    var selectionModel: Option<ModelView<int>>
    var repeatedIndex: int
    var isSelected: bool

    /** A new item: no model, index 0, not selected (the properties' defaults). */
    constructor ()
      ensures selectionModel.None? && repeatedIndex == 0 && !isSelected
    {
      selectionModel := None;
      repeatedIndex := 0;
      isSelected := false;
    }

    /** Attaches (or, with `None`, detaches) a selection model; nothing else changes. */
    method SetSelectionModel(model: Option<ModelView<int>>)
      modifies this`selectionModel
      ensures selectionModel == model
    {
      selectionModel := model;
    }

    /**
     * Sets RepeatedIndex. The property-changed callback runs only when the
     * value actually changes; with a model attached it copies the model's
     * answer for the new index into `isSelected`, and fails (leaving
     * `isSelected` as it was) when that answer is null.
     */
    method SetRepeatedIndex(value: int) returns (r: Outcome<Error>)
      modifies this`repeatedIndex, this`isSelected
      ensures repeatedIndex == value
      ensures old(repeatedIndex) == value || selectionModel.None? ==> r == Pass && isSelected == old(isSelected)
      ensures old(repeatedIndex) != value && selectionModel.Some? ==>
        match selectionModel.value.isSelected(value)
        case None => r == Fail(InvalidOperation) && isSelected == old(isSelected)
        case Some(b) => r == Pass && isSelected == b
    {
      r := Pass;
      if repeatedIndex != value {
        repeatedIndex := value;
        if selectionModel.Some? {
          var answer := selectionModel.value.isSelected(repeatedIndex);
          if answer.None? {
            r := Fail(InvalidOperation);
          } else {
            isSelected := answer.value;
          }
        }
      }
    }

    /**
     * The handler for the attached model's PropertyChanged notification.
     * Only a "SelectedIndices" change is acted on. `isSelected` is rewritten
     * only when the model's answer differs from it, and only then is an event
     * considered (see `RaisedEvent`). A null answer throws before anything is
     * written. The result is the event raised, if any.
     */
    method OnSelectionModelChanged(propertyName: string, listeners: set<AutomationEvent>)
      returns (r: Result<Option<AutomationEvent>, Error>)
      requires selectionModel.Some?
      modifies this`isSelected
      ensures propertyName != "SelectedIndices" ==> r == Success(None) && isSelected == old(isSelected)
      ensures propertyName == "SelectedIndices" ==>
        match selectionModel.value.isSelected(repeatedIndex)
        case None => r == Failure(InvalidOperation) && isSelected == old(isSelected)
        case Some(b) =>
          isSelected == b &&
          r == Success(if b == old(isSelected) then None
                       else RaisedEvent(old(isSelected), selectionModel.value.singleSelect, listeners))
    {
      r := Success(None);
      if propertyName == "SelectedIndices" {
        var oldValue := isSelected;
        var answer := selectionModel.value.isSelected(repeatedIndex);
        if answer.None? {
          r := Failure(InvalidOperation);
        } else {
          var newValue := answer.value;
          if oldValue != newValue {
            isSelected := newValue;
            r := Success(RaisedEvent(oldValue, selectionModel.value.singleSelect, listeners));
          }
        }
      }
    }
  }
}
