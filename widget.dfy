/**
 * The widget record (src/widget/mod.rs). Behavior and layout are opaque
 * capabilities, the type parameters `B` and `L`.
 */
module Widgets {
  import opened Wrappers
  import opened Ids
  import opened Math

  /** The field values of a widget, as a builder materializes them. */
  datatype WidgetData<B, L> = WidgetData(
    id: WidgetId,
    childIndices: seq<Usize>,
    parentId: Option<WidgetId>,
    behavior: Option<B>,
    layout: Option<L>,
    size: ValidVec2,
    position: ValidVec2)
  {
    /** What the Rust field types guarantee: `size: ValidVec2<true>`, `position: ValidVec2<false>`. */
    ghost predicate WellTyped() {
      size.Valid() && size.Positive() && position.Valid() && !position.Positive()
    }
  }

  /**
   * A widget owned by the arena. The id is fixed at construction (nothing
   * in the crate reassigns it); every other field is updated in place.
   */
  class Widget<B, L> {
    const id: WidgetId
    var childIndices: seq<Usize>
    var parentId: Option<WidgetId>
    var behavior: Option<B>
    var layout: Option<L>
    var size: ValidVec2
    var position: ValidVec2

    /** Moves a built record into a fresh widget. */
    constructor (data: WidgetData<B, L>)
      ensures Data() == data
    {
      id := data.id;
      childIndices := data.childIndices;
      parentId := data.parentId;
      behavior := data.behavior;
      layout := data.layout;
      size := data.size;
      position := data.position;
    }

    /** The current field values. */
    function Data(): WidgetData<B, L>
      reads this
    {
      WidgetData(id, childIndices, parentId, behavior, layout, size, position)
    }

    function Id(): WidgetId { id }

    function ParentId(): Option<WidgetId>
      reads this
    {
      parentId
    }

    function Position(): ValidVec2
      reads this
    {
      position
    }

    function Size(): ValidVec2
      reads this
    {
      size
    }

    /** `index`: the slot this widget's id names. */
    function Index(): (r: Usize)
      ensures r < USIZE_MAX && WidgetId.FromIndex(r) == id
    {
      id.ToIndex()
    }

    /** `take_behavior`: moves the behavior out and leaves `None`; nothing else changes. */
    method TakeBehavior() returns (taken: Option<B>)
      modifies this
      ensures taken == old(behavior)
      ensures Data() == old(Data()).(behavior := None)
    {
      taken := behavior;
      behavior := None;
    }

    /** `take_layout`: moves the layout out and leaves `None`; nothing else changes. */
    method TakeLayout() returns (taken: Option<L>)
      modifies this
      ensures taken == old(layout)
      ensures Data() == old(Data()).(layout := None)
    {
      taken := layout;
      layout := None;
    }
  }
}
