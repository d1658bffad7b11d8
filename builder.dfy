/**
 * `WidgetBuilder` (src/widget/builder.rs): the configuration a widget is
 * built from, and the crate's one implementation of `BuildWidget`.
 */
module Builders {
  import opened Wrappers
  import opened Float
  import opened Math
  import opened Ids
  import Errors
  import W = Widgets
  import Arena

  datatype WidgetBuilder<B, L> = WidgetBuilder(
    behavior: Option<B>,
    layout: Option<L>,
    parentId: Option<WidgetId>,
    size: ValidVec2,
    position: ValidVec2)
  {
    /** What the Rust field types guarantee: `size: ValidVec2<true>`, `position: ValidVec2<false>`. */
    ghost predicate WellTyped() {
      size.Valid() && size.Positive() && position.Valid() && !position.Positive()
    }

    /** `Default`: no capabilities, no parent, zero size and position. */
    static function Default(): (r: WidgetBuilder<B, L>)
      ensures r.behavior.None? && r.layout.None? && r.parentId.None?
      ensures r.size == ValidVec2.ZERO(true) && r.position == ValidVec2.ZERO(false)
      ensures r.WellTyped()
    {
      WidgetBuilder(None, None, None, ValidVec2.ZERO(true), ValidVec2.ZERO(false))
    }

    /** `new`. */
    static function New(): (r: WidgetBuilder<B, L>)
      ensures r == Default()
    {
      Default()
    }

    function WithBehavior(b: B): (r: WidgetBuilder<B, L>)
      ensures r.behavior == Some(b)
      ensures r.layout == layout && r.parentId == parentId && r.size == size && r.position == position
    {
      this.(behavior := Some(b))
    }

    function WithLayout(l: L): (r: WidgetBuilder<B, L>)
      ensures r.layout == Some(l)
      ensures r.behavior == behavior && r.parentId == parentId && r.size == size && r.position == position
    {
      this.(layout := Some(l))
    }

    function WithParentId(parent: WidgetId): (r: WidgetBuilder<B, L>)
      ensures r.parentId == Some(parent)
      ensures r.behavior == behavior && r.layout == layout && r.size == size && r.position == position
    {
      this.(parentId := Some(parent))
    }

    /** `with_position`: panics unless the pair converts to a `ValidVec2<false>`. */
    function WithPosition(p: (F32, F32)): (r: WidgetBuilder<B, L>)
      requires ValidVec2.TryFromArray(false, p).Ok?
      ensures r.position.Valid() && !r.position.Positive() && r.position.Get() == p
      ensures r.behavior == behavior && r.layout == layout && r.parentId == parentId && r.size == size
    {
      this.(position := ValidVec2.TryFromArray(false, p).value)
    }

    /** `with_size`: panics unless the pair converts to a `ValidVec2<true>`. */
    function WithSize(s: (F32, F32)): (r: WidgetBuilder<B, L>)
      requires ValidVec2.TryFromArray(true, s).Ok?
      ensures r.size.Valid() && r.size.Positive() && r.size.Get() == s
      ensures r.behavior == behavior && r.layout == layout && r.parentId == parentId && r.position == position
    {
      this.(size := ValidVec2.TryFromArray(true, s).value)
    }

    function WithoutBehavior(): (r: WidgetBuilder<B, L>)
      ensures r.behavior.None?
      ensures r.layout == layout && r.parentId == parentId && r.size == size && r.position == position
    {
      this.(behavior := None)
    }

    function WithoutLayout(): (r: WidgetBuilder<B, L>)
      ensures r.layout.None?
      ensures r.behavior == behavior && r.parentId == parentId && r.size == size && r.position == position
    {
      this.(layout := None)
    }

    function WithoutParentId(): (r: WidgetBuilder<B, L>)
      ensures r.parentId.None?
      ensures r.behavior == behavior && r.layout == layout && r.size == size && r.position == position
    {
      this.(parentId := None)
    }

    /**
     * `try_clone`: trait objects cannot be cloned, so a copy exists exactly
     * when the builder holds neither a behavior nor a layout, and then it
     * equals the original.
     */
    function TryClone(): (r: Result<WidgetBuilder<B, L>, Errors.WidgetBaseError>)
      ensures r.Ok? <==> behavior.None? && layout.None?
      ensures r.Ok? ==> r.value == this
      ensures r.Err? ==> r.error == Errors.TraitObjectCloning
    {
      match (behavior, layout)
      case (None, None) => Ok(WidgetBuilder(None, None, parentId, size, position))
      case _ => Err(Errors.TraitObjectCloning)
    }

    /**
     * `build_widget`: the record for `id`, with no children, no parent and
     * the default position whatever the builder says; size and capabilities
     * are moved over.
     */
    function BuildWidget(id: WidgetId): (w: W.WidgetData<B, L>)
      ensures w.id == id && w.childIndices == [] && w.parentId.None?
      ensures w.position == ValidVec2.ZERO(false)
      ensures w.size == size && w.behavior == behavior && w.layout == layout
      ensures WellTyped() ==> w.WellTyped()
    {
      W.WidgetData(id, [], None, behavior, layout, size, ValidVec2.ZERO(false))
    }
  }

  /** The builder's parent and position never reach the built widget. */
  lemma BuildIgnoresParentAndPosition<B, L>(b: WidgetBuilder<B, L>, parent: WidgetId, p: (F32, F32), id: WidgetId)
    requires ValidVec2.TryFromArray(false, p).Ok?
    ensures b.WithParentId(parent).BuildWidget(id) == b.BuildWidget(id)
    ensures b.WithPosition(p).BuildWidget(id) == b.BuildWidget(id)
  {
  }

  /** `WidgetBuilder` keeps the `BuildWidget` contract the arena relies on. */
  lemma BuilderHonoursId<B, L>(b: WidgetBuilder<B, L>)
    ensures Arena.HonoursId((id: WidgetId) => b.BuildWidget(id))
  {
  }

  /** Dropping both capabilities always makes a builder clonable. */
  lemma CapabilityFreeBuilderClones<B, L>(b: WidgetBuilder<B, L>)
    ensures b.WithoutBehavior().WithoutLayout().TryClone() == Ok(b.WithoutBehavior().WithoutLayout())
  {
  }

  /** Setting a capability makes cloning fail. */
  lemma CapabilityBlocksClone<B, L>(b: WidgetBuilder<B, L>, x: B, l: L)
    ensures b.WithBehavior(x).TryClone() == Err(Errors.TraitObjectCloning)
    ensures b.WithLayout(l).TryClone() == Err(Errors.TraitObjectCloning)
  {
  }

  /** A `without_*` setter undoes the matching `with_*` setter. */
  lemma WithoutUndoesWith<B, L>(b: WidgetBuilder<B, L>, x: B, l: L, parent: WidgetId)
    ensures b.WithBehavior(x).WithoutBehavior() == b.WithoutBehavior()
    ensures b.WithLayout(l).WithoutLayout() == b.WithoutLayout()
    ensures b.WithParentId(parent).WithoutParentId() == b.WithoutParentId()
  {
  }
}
