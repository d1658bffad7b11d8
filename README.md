# Widget arena model

A Dafny model of the storage and identity layer of the `widget_base` GUI
crate: the arena `WidgetBase` that owns every widget in a slot table and
recycles freed ids, the `WidgetId` handle, the `Widget` record, the
`WidgetBuilder` that materializes a widget for an assigned id, and the
validated geometry types `ValidF32` / `ValidVec2` with `validate_f32`.

Files and modules:

- `wrappers.dfy` (`Wrappers`): Rust's `Option` and `Result`.
- `float.dfy` (`Float`): `f32` as its IEEE 754 binary32 bit pattern, with
  `classify` (`FpCategory`) and `is_sign_positive`. Nothing else about floats
  is inspected by the crate.
- `math.dfy` (`Math`): `MathError`, `ValidF32`, `ValidVec2`. The const generic
  `POSITIVE` flag is a `positive` field; `Valid()` is the invariant the Rust
  type guarantees.
- `error.dfy` (`Errors`): `WidgetBaseError` and `validate_f32`.
- `id.dfy` (`Ids`): `WidgetId` over a 64-bit `usize`.
- `widget.dfy` (`Widgets`): the `Widget` record as a class (its capabilities
  are taken in place), and `WidgetData`, the field values a builder produces.
- `builder.dfy` (`Builders`): `WidgetBuilder` and its `build_widget`.
- `widget_base.dfy` (`Arena`): `WidgetBase` (a class whose `widgets` table and
  `priorityIds` free set are updated in place) and `WidgetsIterMut`.
- `scenario.dfy` (`ArenaScenario`): callers that rely only on the arena's
  contracts.

The arena invariant `WidgetBase.Valid()` is the conjunction of three facts:
the free set is exactly the set of ids of vacant slots; every occupied slot
`i` holds the widget whose id is `from_index(i)`; and the last slot is never
vacant. `Insert`, `Remove` and `SetParent` preserve it, and `new` establishes
it.

Behaviour modelled as the code writes it, where it differs from what the
code's comments and names announce (such as "attempt to parent the widget"
at src/widget/widget_base.rs:20):

- `insert` never links a new widget to a parent. `build_widget` always sets
  `parent_id` to `None`. Even for a builder that did set it, the lookup at
  src/widget/widget_base.rs:22 reads the new widget's own slot. That slot is
  vacant (a reissued id) or one past the end (a fresh id). The model proves
  the linking branch unreachable, and `Insert` ensures the stored widget has
  no parent.
- `remove` does not touch parent or child links.
- `set_parent(id)` makes the widget its own parent. It then removes the old
  parent's child entry at position `id.to_index()`, because the value found by
  `find` is passed to `Vec::remove` as a position. `SetParentRemovesByPosition`
  shows a child list `[7, 0]` losing the `7`.
- `widgets_mut` does not reject repeated ids.

Panics (`unwrap`, out-of-range indexing, `from_index(usize::MAX)`) are
preconditions. Behavior and layout are the opaque type parameters `B` and
`L`. The `BuildWidget` trait is a total function from the assigned id to the
built record. Its contract (`HonoursId`) is that the record carries that id;
`WidgetBuilder` keeps it (`BuilderHonoursId`).

## Model

| member | source | states |
|---|---|---|
| `Math.ValidF32.New` | src/math.rs:39-45 | succeeds iff the float is Zero or Normal and, when `positive`, has a clear sign bit; on success the scalar is valid and `Get()` is the input; an abnormal class is reported as `AbnormalFloat(class)` ahead of any sign error; a negative zero or normal under `positive` gives `NegativeFloat(n)` |
| `Math.ValidF32.TryFromF32` | src/math.rs:69-75 | `TryFrom<f32>` decides exactly as `new` |
| `Math.ValidF32.ZERO` | src/math.rs:29 | `ZERO` is a valid scalar of either flavour, classified Zero with a clear sign bit |
| `Math.ValidF32.POSITIVE_ONE` | src/math.rs:28 | `POSITIVE_ONE` is a valid scalar of either flavour, Normal with a clear sign bit |
| `Math.ValidF32.NEGATIVE_ONE` | src/math.rs:23-25 | `NEGATIVE_ONE` is a valid unconstrained scalar, Normal with the sign bit set |
| `Math.Widen` | src/math.rs:77-81 | non-negative to unconstrained is total and keeps the float |
| `Math.Narrow` | src/math.rs:83-93 | unconstrained to non-negative succeeds iff the sign bit is clear, keeping the float; otherwise `NegativeFloat(value)` |
| `Math.NewGetRoundTrip` | src/math.rs:31-45 | a valid scalar is rebuilt by `new` from its `get` |
| `Math.NarrowAfterWiden` | src/math.rs:77-93 | narrowing a widened scalar gives it back |
| `Math.WidenAfterNarrow` | src/math.rs:77-93 | widening a successfully narrowed scalar gives it back |
| `Math.NarrowAgreesWithNew` | src/math.rs:83-93 | narrowing a valid scalar returns what `ValidF32::<true>::new` returns on its float |
| `Math.NegativeZeroRejectedWhenPositive` | src/math.rs:41-42 | -0.0 is accepted unconstrained and rejected as `NegativeFloat(-0.0)` when non-negative |
| `Math.ValidVec2.ZERO` | src/math.rs:102-105 | `ZERO` is a valid vector of either flavour whose `get` is `[+0.0, +0.0]` |
| `Math.ValidVec2.New` | src/math.rs:111-116 | succeeds iff both components validate; `get` then returns `[x, y]`; `x` is checked first, so its error wins; otherwise `y`'s error is returned |
| `Math.ValidVec2.TryFromArray` | src/math.rs:135-143 | `TryFrom<[f32; 2]>` decides exactly as `new` on the two components |
| `Math.Vec2NewGetRoundTrip` | src/math.rs:107-116 | a valid vector is rebuilt by `new` from its `get` |
| `Errors.ValidateF32` | src/error.rs:16-21 | returns the float unchanged iff it is Zero or Normal, whatever its sign; otherwise `AbnormalFloat(class)` with the exact class |
| `Errors.ValidateAgreesWithUnconstrainedNew` | src/error.rs:16-21 | `validate_f32` accepts exactly what `ValidF32::<false>::new` accepts, with the same float, and rejects with the same class |
| `Errors.ValidateAcceptsNegatives` | src/error.rs:17-18 | -0.0 and -1.0 pass validation unchanged |
| `Ids.WidgetId.FromIndex` | src/widget/id.rs:9-14 | defined for every index below `usize::MAX` and inverted by `to_index` |
| `Ids.WidgetId.New` | src/widget/id.rs:16-18 | wraps the non-zero value, which `From<WidgetId> for NonZeroUsize` gives back |
| `Ids.WidgetId.ToUsize` | src/widget/id.rs:24-26 | is at least 1 and equals `to_index() + 1` |
| `Ids.WidgetId.Le` | src/widget/id.rs:5-6 | the derived order: `a <= b` iff `a.to_index() <= b.to_index()` |
| `Ids.WidgetId.Lt` | src/widget/id.rs:5-6 | the derived strict order agrees with the order of slot indices |
| `Ids.WidgetId.TryFromUsize` | src/widget/id.rs:52-60 | fails with `InvalidNonZeroUsize` exactly for 0; otherwise the id's `to_usize` is the input |
| `Ids.WidgetId.TryFromOption` | src/widget/id.rs:63-71 | fails with `InvalidNonZeroUsize` exactly for `None`; otherwise wraps the value unchanged |
| `Ids.ToIndexFromIndex` | src/widget/id.rs:9-22 | `to_index(from_index(i)) == i` |
| `Ids.FromIndexToIndex` | src/widget/id.rs:9-22 | `from_index(to_index(id)) == id`, and `to_index` is below `usize::MAX` |
| `Ids.ToIndexInjective` | src/widget/id.rs:20-22 | ids naming the same slot are equal |
| `Ids.FromIndexMonotone` | src/widget/id.rs:9-14 | `from_index` preserves and reflects the order of slots |
| `Ids.ConversionsRoundTrip` | src/widget/id.rs:46-84 | `TryFrom<usize>` undoes `usize::from`, `TryFrom<Option<NonZeroUsize>>` and `new` undo `NonZeroUsize::from` |
| `Widgets.Widget.constructor` | src/widget/mod.rs:11-21 | a built record moved into a widget keeps every field |
| `Widgets.Widget.Index` | src/widget/mod.rs:28-30 | `index()` is the slot whose `from_index` is the widget's id |
| `Widgets.Widget.TakeBehavior` | src/widget/mod.rs:44-46 | returns the stored behavior and leaves `None`; every other field is unchanged |
| `Widgets.Widget.TakeLayout` | src/widget/mod.rs:48-50 | returns the stored layout and leaves `None`; every other field is unchanged |
| `Builders.WidgetBuilder.Default` | src/widget/builder.rs:135-145 | no behavior, layout or parent; size and position are `ValidVec2::ZERO` of their flavours |
| `Builders.WidgetBuilder.New` | src/widget/builder.rs:23-25 | `new()` is `default()` |
| `Builders.WidgetBuilder.WithBehavior` | src/widget/builder.rs:27-31 | sets the behavior; every other field unchanged |
| `Builders.WidgetBuilder.WithLayout` | src/widget/builder.rs:33-37 | sets the layout; every other field unchanged |
| `Builders.WidgetBuilder.WithParentId` | src/widget/builder.rs:39-43 | sets the parent; every other field unchanged |
| `Builders.WidgetBuilder.WithPosition` | src/widget/builder.rs:47-56 | defined only when the pair converts; the position is then a valid unconstrained vector whose `get` is the pair; other fields unchanged |
| `Builders.WidgetBuilder.WithSize` | src/widget/builder.rs:59-68 | defined only when the pair converts; the size is then a valid non-negative vector whose `get` is the pair; other fields unchanged |
| `Builders.WidgetBuilder.WithoutBehavior` | src/widget/builder.rs:70-74 | clears the behavior; every other field unchanged |
| `Builders.WidgetBuilder.WithoutLayout` | src/widget/builder.rs:76-80 | clears the layout; every other field unchanged |
| `Builders.WidgetBuilder.WithoutParentId` | src/widget/builder.rs:82-86 | clears the parent; every other field unchanged |
| `Builders.WidgetBuilder.TryClone` | src/widget/builder.rs:96-118 | succeeds iff there is neither a behavior nor a layout, and the copy then equals the original; otherwise `TraitObjectCloning` |
| `Builders.WidgetBuilder.BuildWidget` | src/widget/builder.rs:121-132 | the record has the given id, no children, no parent, the zero position, and the builder's size and capabilities; it is well-typed when the builder is |
| `Builders.BuildIgnoresParentAndPosition` | src/widget/builder.rs:122-132 | the builder's parent and position never change the built record |
| `Builders.BuilderHonoursId` | src/widget/builder.rs:121-132 | `WidgetBuilder` builds, for every id, a record carrying that id |
| `Builders.CapabilityFreeBuilderClones` | src/widget/builder.rs:96-114 | a builder without behavior and layout always clones to itself |
| `Builders.CapabilityBlocksClone` | src/widget/builder.rs:116-118 | a builder holding a behavior or a layout fails to clone with `TraitObjectCloning` |
| `Builders.WithoutUndoesWith` | src/widget/builder.rs:27-94 | each `without_*` / `remove_parent_id` undoes the matching `with_*` / `set_parent_id` |
| `Arena.SmallestId` | src/widget/widget_base.rs:45-50 | a non-empty set of ids has a least element in the derived order, the one `pop_first` takes |
| `Arena.SmallestUnique` | src/widget/widget_base.rs:45-50 | that least element is unique |
| `Arena.TrimVacant` | src/widget/widget_base.rs:67-81 | popping trailing holes leaves a prefix that is empty or ends in an occupied slot, and everything popped was a hole |
| `Arena.TrimVacantOfOccupiedEnd` | src/widget/widget_base.rs:67-81 | a table ending in an occupied slot loses nothing |
| `Arena.SetParentSlots` | src/widget/widget_base.rs:105-119 | after `set_parent(id)` the widget is its own parent and keeps every other field; an old parent in another slot keeps every field but its child list, which loses the entry at position `id.to_index()`; a widget that was its own parent loses that entry from its own list; occupancy and ids of all slots are kept, and no other slot changes |
| `Arena.SetParentDropsOneChild` | src/widget/widget_base.rs:111-116 | for every input, the old parent's child list loses exactly one entry, the one at position `id.to_index()`; the widget's own slot leaves the list only when that entry happens to equal it |
| `Arena.SetParentRemovesByPosition` | src/widget/widget_base.rs:111-116 | for a parent with children `[7, 0]`, re-parenting the widget in slot 0 drops the `7` and keeps the `0` |
| `Arena.WidgetBase.constructor` | src/widget/widget_base.rs:38-43 | a new arena is empty and satisfies the invariant |
| `Arena.WidgetBase.NextId` | src/widget/widget_base.rs:45-50 | takes the least freed id out of the free set; with no freed id, returns `from_index(len)` and leaves the set alone; the table is unchanged |
| `Arena.FillKeepsInvariant` | src/widget/widget_base.rs:29-33 | storing a widget in the hole of a freed id, or pushing the widget of the next new id, keeps the free set exact, slots holding their own ids and the table ending occupied, once that id leaves the free set |
| `Arena.FreeIdsBeforeLast` | src/widget/widget_base.rs:60-64 | under the invariant no freed id names the last slot, so the last slot is always occupied when it is removed |
| `Arena.PopLastKeepsInvariant` | src/widget/widget_base.rs:64-90 | popping the last widget and the holes before it keeps the invariant when the free set keeps only the ids below the new length |
| `Arena.SplitOffKeepsBelow` | src/widget/widget_base.rs:88 | `split_off` at the id of slot `k` leaves exactly the freed ids whose slot is below `k` |
| `Arena.VacateKeepsInvariant` | src/widget/widget_base.rs:96-99 | turning an occupied interior slot into a hole keeps the invariant once its id joins the free set |
| `Arena.WidgetBase.Insert` | src/widget/widget_base.rs:15-36 | keeps the invariant; returns the id `next_id` chose and stores a fresh widget with the built fields and no parent in its slot; the table grows by one iff no freed id was available, and no other slot changes |
| `Arena.WidgetBase.Remove` | src/widget/widget_base.rs:52-103 | keeps the invariant; on an empty table returns `None` and changes nothing; for the last slot returns its widget, pops the trailing holes and drops the ids at or past the new length from the free set; for an interior slot returns its content, leaves a hole and frees the id if a widget was there |
| `Arena.WidgetBase.SetParent` | src/widget/widget_base.rs:105-119 | fails iff `id` names no live widget, changing nothing; otherwise the widgets' fields become `SetParentSlots` of the old ones, and the table, free set and invariant are kept |
| `Arena.WidgetBase.Widget` | src/widget/widget_base.rs:121-123 | returns a widget iff `id` is in range and occupied; under the invariant it is the widget with that id |
| `Arena.WidgetBase.WidgetMut` | src/widget/widget_base.rs:125-133 | performs the same lookup as `widget` |
| `Arena.WidgetBase.CollectIndices` | src/widget/widget_base.rs:136-144 | succeeds iff every requested id is live, returning their slots in request order |
| `Arena.WidgetBase.WidgetsMut` | src/widget/widget_base.rs:135-151 | all-or-nothing: an iterator over the requested slots in request order, starting at 0, exactly when every id is live |
| `Arena.WidgetsIterMut.constructor` | src/widget/widget_base.rs:146-150 | the iterator starts at position 0 over the given slots |
| `Arena.WidgetsIterMut.SizeHint` | src/widget/widget_base.rs:174-178 | both bounds equal the number of slots left, which is 0 iff the iterator is exhausted |
| `Arena.WidgetsIterMut.Next` | src/widget/widget_base.rs:165-172 | yields the widget at the next slot and advances by one, shrinking the size hint by one; when exhausted returns `None` and stays put |
| `ArenaScenario.SlotReuse` | src/widget/widget_base.rs:15-103 | inserting three widgets issues 1, 2, 3; after removing 2 the next insert reissues 2; removing 3 shrinks the table to 2 slots and the next insert reissues 3 |
| `ArenaScenario.BatchIteration` | src/widget/widget_base.rs:135-172 | the iterator from `widgets_mut` over ids 1 and 2 yields the widget with id 1, then the one with id 2, then nothing |
| `ArenaScenario.BatchLookup` | src/widget/widget_base.rs:135-151 | looking up ids 1 and 2 in an arena holding them gives slots 0 and 1 in order; looking up 1 and 99 fails as a whole |
| `ArenaScenario.TakeBehaviorTwice` | src/widget/mod.rs:44-46 | taking a behavior twice yields it once, then `None` |

## Left out

- The integer-array conversions into `ValidVec2` (src/math.rs:147-253) and the unchecked constructors `ValidF32::new_unchecked` / `ValidVec2::new_unchecked` (src/math.rs:50-52, 121-127): they rest on integer-to-float rounding, which this model of `f32` does not include.
- `WidgetsIterMut::next` hands out `&mut Widget` through a raw pointer (src/widget/widget_base.rs:170-171). The model returns the widget object, so the aliasing of two mutable borrows is not modelled.
- `Arena.WidgetBase.WidgetsMut`: like the source, it does not check that the requested ids are distinct. Repeated ids give repeated slots.
- `Arena.WidgetBase.Insert`: the child-recording statement at src/widget/widget_base.rs:23 is proved unreachable (`assert false`), not executed. For this reason `Insert` modifies only the arena and never an existing widget.
- `Arena.WidgetBase.Remove`: an id past the end of a non-empty table makes `self.widgets[index]` panic at src/widget/widget_base.rs:96. The model rules that call out with its precondition.
- `Arena.WidgetBase.Insert` requires `HonoursId(build)`: the record built for an id carries that id. `BuildWidget` is a public trait, and `insert` never checks the id it gets back. An implementation that returned another id would break the link between slots and ids in the source. The model does not cover such implementations.
- `Arena.WidgetBase.SetParent`: `find(..).unwrap()` is modelled by its precondition, that the widget's slot is in the old parent's child list. Its result is then that slot itself. No search loop is written.
- `set_parent_id` and `remove_parent_id` (src/widget/builder.rs:88-94) update the builder in place through `&mut self`. The builder is a plain unshared value, so their effect is the updated value. That value is what `Builders.WidgetBuilder.WithParentId` and `Builders.WidgetBuilder.WithoutParentId` return, so the model does not define them twice.
- `Builders.WidgetBuilder.WithSize` and `Builders.WidgetBuilder.WithPosition` accept any `TryInto<ValidVec2>` type in the source. The model takes only `[f32; 2]`.
- `TryFrom<&WidgetBuilder> for WidgetBuilder` (src/widget/builder.rs:148-154) only calls `try_clone`, modelled by `Builders.WidgetBuilder.TryClone`.
- `From<NonZeroUsize> for WidgetId` (src/widget/id.rs:46-50) is `WidgetId::new`. `From<WidgetId> for usize` (src/widget/id.rs:80-84) is `to_usize`. `Deref` and `AsRef` (src/widget/id.rs:29-44) expose the wrapped `NonZeroUsize`, as `ToNonZero` does. `Deref`, `From<ValidF32> for f32` and `From<ValidVec2> for [f32; 2]` are `get`.
- `Ids.WidgetId.ToIndex` (src/widget/id.rs:20-22), `Math.ValidF32.Get` (src/math.rs:31-33) and `Math.ValidVec2.Get` (src/math.rs:107-109) are field projections with no contract of their own. Their meaning is given by the round-trip lemmas `Ids.ToIndexFromIndex`, `Ids.FromIndexToIndex`, `Math.NewGetRoundTrip` and `Math.Vec2NewGetRoundTrip`.
- The getters `id`, `parent_id`, `position` and `size` (src/widget/mod.rs:24-42) are the functions `Id`, `ParentId`, `Position` and `Size`. They return the field and have no contract of their own.
- The `id` field of `Widget` is a `const`, because nothing in the crate reassigns it.
- The derived `Debug`, `PartialEq` and `Default` impls are not modelled. The `thiserror` messages and the placeholder test at src/widget/widget_base.rs:181-191 are not modelled either. `build_widget`'s `Default::default()` position is the zero vector, written as `ValidVec2.ZERO(false)`.
- src/behavior.rs and src/layout.rs (opaque capability traits with a `Debug` hook) are the type parameters `B` and `L`.
- src/align.rs (a `todo!()` conversion and a float table) and src/lib.rs (module declarations) are not part of this model.
- `usize` is fixed at 64 bits. Vector capacity limits are not modelled.
- Cycle detection in the hierarchy is not attempted, as in the source.
