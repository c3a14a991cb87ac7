/**
 * What the two selection-aware item controls of the selection sample
 * (the flat RepeaterItem and the hierarchical TreeViewItem) have in common:
 * the input they react to, the calls they make on the selection model and
 * the accessibility events they raise when their selected state changes.
 *
 * The selection model itself is not modelled. An item sees it only through
 * a snapshot (`ModelView`): its single-select flag and its answer to
 * "is this index (or index path) selected?". Whatever the item asks the model
 * to do is returned as a sequence of `Action` values, in call order.
 */
module SelectionItems {
  import opened Wrappers

  /** The keys the items distinguish; every other key is `OtherKey`. */
  datatype Key = Escape | Space | A | OtherKey

  /** The state of the keyboard modifiers at the time of the input. */
  datatype Modifiers = Modifiers(shift: bool, ctrl: bool)

  /**
   * A snapshot of an attached selection model as an item sees it.
   * `isSelected` is the model's three-valued answer for an index (flat) or
   * an index path (tree): `None` is the indeterminate (null) answer.
   */
  datatype ModelView<!I> = ModelView(singleSelect: bool, isSelected: I -> Option<bool>)

  /**
   * One request an item makes: a call on the selection model (index form
   * for the flat item, index-path form for the tree item), or `Focus`, the
   * item moving keyboard focus to itself.
   */
  datatype Action =
    | Select(index: int)
    | Deselect(index: int)
    | SelectRangeFromAnchor(index: int)
    | DeselectRangeFromAnchor(index: int)
    | SelectAt(path: seq<int>)
    | DeselectAt(path: seq<int>)
    | SelectRangeFromAnchorTo(path: seq<int>)
    | DeselectRangeFromAnchorTo(path: seq<int>)
    | ClearSelection
    | SelectAll
    | Focus
  {
    /** True for the calls that select or deselect a range from the anchor. */
    predicate IsRange() {
      SelectRangeFromAnchor? || DeselectRangeFromAnchor? ||
      SelectRangeFromAnchorTo? || DeselectRangeFromAnchorTo?
    }
  }

  /** The .NET exceptions the item code can throw. */
  datatype Error =
    | InvalidOperation  // `.Value` read on a null `bool?`
    | NullReference     // a member access through a null parent

  /** The selection-item accessibility events. */
  datatype AutomationEvent = ElementSelected | AddedToSelection | RemovedFromSelection

  /**
   * The event an item asks for when its selected state flips, before the
   * listener check. `None` stands for the source's "raise nothing" marker.
   */
  function EventToRaise(wasSelected: bool, singleSelect: bool): (e: Option<AutomationEvent>)
    ensures e.None? <==> wasSelected && singleSelect
  {
    if wasSelected then
      (if singleSelect then None else Some(RemovedFromSelection))
    else
      (if singleSelect then Some(ElementSelected) else Some(AddedToSelection))
  }

  /**
   * The event actually raised: the one `EventToRaise` picks, and only when
   * some listener is registered for it (`listeners` holds the events that
   * have listeners).
   */
  function RaisedEvent(wasSelected: bool, singleSelect: bool, listeners: set<AutomationEvent>): (e: Option<AutomationEvent>)
    ensures e.Some? ==> e.value in listeners
  {
    var candidate := EventToRaise(wasSelected, singleSelect);
    if candidate.Some? && candidate.value in listeners then candidate else None
  }

  /**
   * The whole event table: newly selected raises ElementSelected (single
   * select) or AddedToSelection (multi select); newly deselected raises
   * RemovedFromSelection in multi-select mode and nothing in single-select
   * mode; and nothing is raised without a listener for that event.
   */
  lemma EventTable(wasSelected: bool, singleSelect: bool, listeners: set<AutomationEvent>)
    ensures !wasSelected && singleSelect ==>
      RaisedEvent(wasSelected, singleSelect, listeners) ==
        (if ElementSelected in listeners then Some(ElementSelected) else None)
    ensures !wasSelected && !singleSelect ==>
      RaisedEvent(wasSelected, singleSelect, listeners) ==
        (if AddedToSelection in listeners then Some(AddedToSelection) else None)
    ensures wasSelected && !singleSelect ==>
      RaisedEvent(wasSelected, singleSelect, listeners) ==
        (if RemovedFromSelection in listeners then Some(RemovedFromSelection) else None)
    ensures wasSelected && singleSelect ==> RaisedEvent(wasSelected, singleSelect, listeners).None?
    ensures listeners == {} ==> RaisedEvent(wasSelected, singleSelect, listeners).None?
  {
  }
}
