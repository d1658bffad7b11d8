/**
 * The widget arena (src/widget/widget_base.rs): a slot table of optional
 * widgets plus the ordered set of freed ids waiting to be reissued.
 */
module Arena {
  import opened Wrappers
  import opened Ids
  import W = Widgets

  /**
   * The contract of the `BuildWidget` trait: the widget built for an id
   * carries that id. A builder is modelled as a total function from the id
   * the arena assigns to the record it materializes.
   */
  ghost predicate HonoursId<B, L>(build: WidgetId -> W.WidgetData<B, L>) {
    forall id :: build(id).id == id
  }

  /** The free set holds exactly the ids of the vacant slots. */
  ghost predicate FreeSetExact<B, L>(free: set<WidgetId>, slots: seq<Option<W.Widget<B, L>>>) {
    forall id :: id in free <==> id.ToIndex() < |slots| && slots[id.ToIndex()].None?
  }

  /** Every occupied slot holds the widget whose id names that slot. */
  ghost predicate SlotsHoldOwnIds<B, L>(slots: seq<Option<W.Widget<B, L>>>) {
    forall i :: 0 <= i < |slots| && slots[i].Some? ==> slots[i].value.id.ToIndex() == i
  }

  /** The table never ends in a hole. */
  ghost predicate LastOccupied<T>(slots: seq<Option<T>>) {
    |slots| > 0 ==> slots[|slots| - 1].Some?
  }

  /** `m` is the least id of `s` in the derived order, which `BTreeSet::pop_first` returns. */
  predicate IsSmallest(m: WidgetId, s: set<WidgetId>) {
    m in s && forall x :: x in s ==> m.Le(x)
  }

  /** The least id of a non-empty set. */
  ghost function SmallestId(s: set<WidgetId>): (m: WidgetId)
    requires s != {}
    ensures IsSmallest(m, s)
    decreases s
  {
    var x :| x in s;
    if s == {x} then
      assert x.Le(x);
      x
    else
      var r := SmallestId(s - {x});
      assert forall y :: y in s ==> y == x || y in s - {x};
      if x.Le(r) then x else r
  }

  /** The derived order is antisymmetric, so the least id is unique. */
  lemma SmallestUnique(a: WidgetId, b: WidgetId, s: set<WidgetId>)
    requires IsSmallest(a, s) && IsSmallest(b, s)
    ensures a == b
  {
    assert a.Le(b) && b.Le(a);
    ToIndexInjective(a, b);
  }

  /**
   * What remains of a slot table after its trailing holes are popped: the
   * longest prefix that is empty or ends in an occupied slot.
   */
  function TrimVacant<T>(slots: seq<Option<T>>): (r: seq<Option<T>>)
    ensures |r| <= |slots| && r == slots[..|r|]
    ensures LastOccupied(r)
    ensures forall k :: |r| <= k < |slots| ==> slots[k].None?
  {
    if slots != [] && slots[|slots| - 1].None? then TrimVacant(slots[..|slots| - 1]) else slots
  }

  /** Trimming a table that already ends in an occupied slot changes nothing. */
  lemma TrimVacantOfOccupiedEnd<T>(slots: seq<Option<T>>)
    requires LastOccupied(slots)
    ensures TrimVacant(slots) == slots
  {
  }

  /** Under the invariant, every freed id names a slot before the last one. */
  lemma FreeIdsBeforeLast<B, L>(free: set<WidgetId>, slots: seq<Option<W.Widget<B, L>>>)
    requires FreeSetExact(free, slots) && LastOccupied(slots)
    ensures forall x :: x in free ==> x.ToIndex() < |slots| - 1
  {
  }

  /**
   * Popping the last widget and the holes before it keeps the invariant,
   * once the ids of the popped holes have left the free set.
   */
  lemma PopLastKeepsInvariant<B, L>(free: set<WidgetId>, slots: seq<Option<W.Widget<B, L>>>)
    requires |slots| > 0 && FreeSetExact(free, slots) && SlotsHoldOwnIds(slots)
    ensures var rest := TrimVacant(slots[..|slots| - 1]);
            FreeSetExact((set x | x in free && x.ToIndex() < |rest|), rest)
            && SlotsHoldOwnIds(rest) && LastOccupied(rest)
  {
    var rest := TrimVacant(slots[..|slots| - 1]);
    assert rest == slots[..|rest|];
    var kept := set x | x in free && x.ToIndex() < |rest|;
    forall x: WidgetId
      ensures x in kept <==> x.ToIndex() < |rest| && rest[x.ToIndex()].None?
    {
      if x.ToIndex() < |rest| {
        assert rest[x.ToIndex()] == slots[x.ToIndex()];
      }
    }
  }

  /**
   * Turning an occupied interior slot into a hole keeps the invariant, once
   * its id has joined the free set.
   */
  lemma VacateKeepsInvariant<B, L>(free: set<WidgetId>, slots: seq<Option<W.Widget<B, L>>>, id: WidgetId)
    requires FreeSetExact(free, slots) && SlotsHoldOwnIds(slots) && LastOccupied(slots)
    requires id.ToIndex() < |slots| - 1 && slots[id.ToIndex()].Some?
    ensures FreeSetExact(free + {id}, slots[id.ToIndex() := None])
    ensures SlotsHoldOwnIds(slots[id.ToIndex() := None]) && LastOccupied(slots[id.ToIndex() := None])
  {
    forall x: WidgetId
      ensures x in free + {id} <==> x.ToIndex() < |slots| && slots[id.ToIndex() := None][x.ToIndex()].None?
    {
      if x.ToIndex() == id.ToIndex() {
        ToIndexInjective(x, id);
      }
    }
  }

  /**
   * Storing the widget of a free id in its hole, or of the next new id one
   * past the end, keeps the invariant once that id has left the free set.
   */
  lemma FillKeepsInvariant<B, L>(free: set<WidgetId>, slots: seq<Option<W.Widget<B, L>>>,
                                 id: WidgetId, w: W.Widget<B, L>)
    requires FreeSetExact(free, slots) && SlotsHoldOwnIds(slots) && LastOccupied(slots)
    requires id in free || id.ToIndex() == |slots|
    requires w.id == id
    ensures var filled := if id.ToIndex() == |slots| then slots + [Some(w)] else slots[id.ToIndex() := Some(w)];
            FreeSetExact(free - {id}, filled) && SlotsHoldOwnIds(filled) && LastOccupied(filled)
  {
    var filled := if id.ToIndex() == |slots| then slots + [Some(w)] else slots[id.ToIndex() := Some(w)];
    forall x: WidgetId
      ensures x in free - {id} <==> x.ToIndex() < |filled| && filled[x.ToIndex()].None?
    {
      if x.ToIndex() == id.ToIndex() {
        ToIndexInjective(x, id);
      }
    }
  }

  /** `split_off(&from_index(k))` leaves exactly the ids of the slots below `k`. */
  lemma SplitOffKeepsBelow(free: set<WidgetId>, k: Usize)
    requires k < USIZE_MAX
    ensures (set x | x in free && x.Lt(WidgetId.FromIndex(k))) == set x | x in free && x.ToIndex() < k
  {
  }

  /** Slot `p` is the one the widget's parent link names. */
  predicate IsParentSlot<B, L>(w: W.WidgetData<B, L>, p: int) {
    w.parentId.Some? && w.parentId.value.ToIndex() == p
  }

  /** `set_parent` panics unless the old parent is live and lists the widget at a valid position. */
  ghost predicate SetParentPanicFree<B, L>(slots: seq<Option<W.WidgetData<B, L>>>, id: WidgetId) {
    var i := id.ToIndex();
    i < |slots| && slots[i].Some? && slots[i].value.parentId.Some? ==>
      var p := slots[i].value.parentId.value.ToIndex();
      p < |slots| && slots[p].Some?
      && i in slots[p].value.childIndices && i < |slots[p].value.childIndices|
  }

  /**
   * The effect of `set_parent(id)` on the widgets' field values, as the
   * source writes it: the widget becomes its own parent, and the old
   * parent's child list loses the entry at POSITION `id.to_index()`, the
   * value that `find` returned being used as an index.
   */
  ghost function SetParentSlots<B, L>(slots: seq<Option<W.WidgetData<B, L>>>, id: WidgetId)
    : (r: seq<Option<W.WidgetData<B, L>>>)
    requires id.ToIndex() < |slots| && slots[id.ToIndex()].Some?
    requires SetParentPanicFree(slots, id)
    ensures |r| == |slots|
    ensures r[id.ToIndex()].Some? && r[id.ToIndex()].value.parentId == Some(id)
    ensures forall j :: 0 <= j < |slots| ==> r[j].Some? == slots[j].Some?
    ensures forall j :: 0 <= j < |slots| && slots[j].Some? ==> r[j].value.id == slots[j].value.id
    ensures forall j :: 0 <= j < |slots| && j != id.ToIndex() && !IsParentSlot(slots[id.ToIndex()].value, j)
              ==> r[j] == slots[j]
    ensures var i := id.ToIndex(); var w := slots[i].value;
            w.parentId.None? ==> r[i] == Some(w.(parentId := Some(id)))
    ensures var i := id.ToIndex(); var w := slots[i].value;
            w.parentId.Some? && w.parentId.value.ToIndex() != i ==>
              var p := w.parentId.value.ToIndex();
              var c := slots[p].value.childIndices;
              r[i] == Some(w.(parentId := Some(id)))
              && r[p] == Some(slots[p].value.(childIndices := c[..i] + c[i + 1..]))
    ensures var i := id.ToIndex(); var w := slots[i].value;
            IsParentSlot(w, i) ==>
              r[i] == Some(w.(parentId := Some(id), childIndices := w.childIndices[..i] + w.childIndices[i + 1..]))
  {
    var i := id.ToIndex();
    var w := slots[i].value;
    var s1 := slots[i := Some(w.(parentId := Some(id)))];
    match w.parentId
    case None => s1
    case Some(previous) =>
      var p := previous.ToIndex();
      var c := s1[p].value.childIndices;
      s1[p := Some(s1[p].value.(childIndices := c[..i] + c[i + 1..]))]
  }

  /**
   * What the old parent loses: exactly one child entry, the one at position
   * `id.to_index()`. That entry is the widget's own slot only when the child
   * list happens to hold that slot at that position.
   */
  lemma SetParentDropsOneChild<B, L>(slots: seq<Option<W.WidgetData<B, L>>>, id: WidgetId)
    requires id.ToIndex() < |slots| && slots[id.ToIndex()].Some?
    requires SetParentPanicFree(slots, id)
    requires slots[id.ToIndex()].value.parentId.Some?
    ensures var i := id.ToIndex();
            var p := slots[i].value.parentId.value.ToIndex();
            var c := slots[p].value.childIndices;
            var c' := SetParentSlots(slots, id)[p].value.childIndices;
            |c'| == |c| - 1
            && multiset(c') == multiset(c) - multiset{c[i]}
            && (multiset(c')[i] < multiset(c)[i] <==> c[i] == i)
  {
    var i := id.ToIndex();
    var p := slots[i].value.parentId.value.ToIndex();
    var c := slots[p].value.childIndices;
    var c' := SetParentSlots(slots, id)[p].value.childIndices;
    assert c' == c[..i] + c[i + 1..];
    assert c == c[..i] + [c[i]] + c[i + 1..];
    assert multiset(c) == multiset(c[..i]) + multiset{c[i]} + multiset(c[i + 1..]);
  }

  /**
   * Because the value `find` returns is used as a position, the old parent
   * can lose the wrong child: with child list [7, 0], re-parenting the widget
   * in slot 0 drops the 7 and keeps the 0. The widget also ends up as its
   * own parent.
   */
  lemma SetParentRemovesByPosition<B, L>(child: W.WidgetData<B, L>, parent: W.WidgetData<B, L>)
    requires child.id == WidgetId(1) && child.parentId == Some(WidgetId(2))
    requires parent.id == WidgetId(2) && parent.childIndices == [7, 0]
    ensures SetParentPanicFree([Some(child), Some(parent)], WidgetId(1))
    ensures SetParentSlots([Some(child), Some(parent)], WidgetId(1))[1].value.childIndices == [0]
    ensures SetParentSlots([Some(child), Some(parent)], WidgetId(1))[0].value.parentId == Some(WidgetId(1))
  {
    var slots := [Some(child), Some(parent)];
    assert slots[1].value.childIndices[1] == 0;
    var r := SetParentSlots(slots, WidgetId(1));
    assert r[1].value.childIndices == [7, 0][..0] + [7, 0][1..];
  }

  class WidgetBase<B, L> {
    var priorityIds: set<WidgetId>
    var widgets: seq<Option<W.Widget<B, L>>>

    /** The arena invariant that every operation preserves. */
    ghost predicate Valid()
      reads this
    {
      FreeSetExact(priorityIds, widgets) && SlotsHoldOwnIds(widgets) && LastOccupied(widgets)
    }

    /** The widgets the table currently owns. */
    ghost function Objects(): set<W.Widget<B, L>>
      reads this
    {
      set i | 0 <= i < |widgets| && widgets[i].Some? :: widgets[i].value
    }

    /** The field values of every slot. */
    ghost function Snapshot(): (s: seq<Option<W.WidgetData<B, L>>>)
      reads this, Objects()
      ensures |s| == |widgets|
      ensures forall i :: 0 <= i < |widgets| ==> s[i].Some? == widgets[i].Some?
    {
      seq(|widgets|, i reads this, Objects() requires 0 <= i < |widgets| =>
        if widgets[i].Some? then Some(widgets[i].value.Data()) else None)
    }

    /** A widget occupies the slot `id` names. */
    predicate Live(id: WidgetId)
      reads this
    {
      id.ToIndex() < |widgets| && widgets[id.ToIndex()].Some?
    }

    /** `WidgetBase::new`. */
    constructor ()
      ensures Valid() && priorityIds == {} && widgets == []
    {
      priorityIds := {};
      widgets := [];
    }

    /**
     * `next_id`: reissue the least freed id, or else the id one past the end
     * of the table.
     */
    method NextId() returns (id: WidgetId)
      requires priorityIds != {} || |widgets| < USIZE_MAX
      modifies this
      ensures widgets == old(widgets)
      ensures old(priorityIds) == {} ==> id == WidgetId.FromIndex(|widgets|) && priorityIds == {}
      ensures old(priorityIds) != {} ==> id == SmallestId(old(priorityIds)) && priorityIds == old(priorityIds) - {id}
    {
      if priorityIds == {} {
        id := WidgetId.FromIndex(|widgets|);
      } else {
        ghost var least := SmallestId(priorityIds);
        id :| IsSmallest(id, priorityIds);
        SmallestUnique(id, least, priorityIds);
        priorityIds := priorityIds - {id};
      }
    }

    /**
     * `insert`: build the widget for the next id and store it in that id's
     * slot, pushing onto the table when the id is new.
     */
    method Insert(build: WidgetId -> W.WidgetData<B, L>) returns (id: WidgetId)
      requires Valid() && HonoursId(build)
      requires priorityIds != {} || |widgets| < USIZE_MAX
      modifies this
      ensures Valid()
      ensures id == if old(priorityIds) == {} then WidgetId.FromIndex(old(|widgets|)) else SmallestId(old(priorityIds))
      ensures priorityIds == old(priorityIds) - {id}
      ensures |widgets| == if old(priorityIds) == {} then old(|widgets|) + 1 else old(|widgets|)
      ensures Live(id) && fresh(widgets[id.ToIndex()].value)
      ensures widgets[id.ToIndex()].value.Data() == build(id).(parentId := None)
      ensures forall j :: 0 <= j < old(|widgets|) && j != id.ToIndex() ==> widgets[j] == old(widgets[j])
    {
      ghost var free0 := priorityIds;
      ghost var slots0 := widgets;
      id := NextId();
      var index := id.ToIndex();
      var widget := new W.Widget(build(id));

      if widget.parentId.Some? {
        if index < |widgets| && widgets[index].Some? {
          // The lookup uses the new widget's own slot, not its parent's. That
          // slot is vacant (a reissued id) or one past the end (a new id), so
          // the branch that would record the child is never taken.
          assert false;
        } else {
          widget.parentId := None;
        }
      }

      FillKeepsInvariant(free0, slots0, id, widget);
      if |widgets| == index {
        widgets := widgets + [Some(widget)];
      } else {
        widgets := widgets[index := Some(widget)];
      }
    }

    /**
     * `remove`: vacate the slot of `id` and return its widget. The last slot
     * is popped together with the holes before it, and the ids of those holes
     * leave the free set; an interior slot becomes a hole and its id is freed.
     */
    method Remove(id: WidgetId) returns (r: Option<W.Widget<B, L>>)
      requires Valid()
      requires |widgets| == 0 || id.ToIndex() < |widgets|
      modifies this
      ensures Valid()
      ensures old(|widgets|) == 0 ==> r.None? && widgets == old(widgets) && priorityIds == old(priorityIds)
      ensures old(|widgets|) > 0 && id.ToIndex() == old(|widgets|) - 1 ==>
                r.Some? && r == old(widgets)[id.ToIndex()]
                && widgets == TrimVacant(old(widgets)[..id.ToIndex()])
                && priorityIds == set x | x in old(priorityIds) && x.ToIndex() < |widgets|
      ensures id.ToIndex() < old(|widgets|) - 1 ==>
                r == old(widgets)[id.ToIndex()]
                && widgets == old(widgets)[id.ToIndex() := None]
                && priorityIds == if r.Some? then old(priorityIds) + {id} else old(priorityIds)
    {
      var index := id.ToIndex();
      var widgetCount := |widgets|;

      if widgetCount == 0 {
        return None;
      }

      var maxWidgetIndex := widgetCount - 1;

      if index == maxWidgetIndex {
        var widget := widgets[maxWidgetIndex].value;
        widgets := widgets[..maxWidgetIndex];
        var lowestPopIndex: Option<nat> := None;

        while |widgets| > 0 && widgets[|widgets| - 1].None?
          invariant |widgets| <= maxWidgetIndex
          invariant widgets == old(widgets)[..|widgets|]
          invariant TrimVacant(widgets) == TrimVacant(old(widgets)[..maxWidgetIndex])
          invariant lowestPopIndex == if |widgets| == maxWidgetIndex then None else Some(|widgets|)
          invariant priorityIds == old(priorityIds)
          decreases |widgets|
        {
          widgets := widgets[..|widgets| - 1];
          var bound := if lowestPopIndex.Some? then lowestPopIndex.value else USIZE_MAX;
          lowestPopIndex := Some(if bound < |widgets| then bound else |widgets|);
        }

        assert widgets == TrimVacant(old(widgets)[..maxWidgetIndex]);
        ghost var free := priorityIds;
        FreeIdsBeforeLast(free, old(widgets));

        if lowestPopIndex.Some? {
          if lowestPopIndex.value == 0 {
            priorityIds := {};
          } else {
            // `split_off` keeps the ids below the key in the set.
            var key := WidgetId.FromIndex(lowestPopIndex.value);
            priorityIds := set x | x in priorityIds && x.Lt(key);
            SplitOffKeepsBelow(free, lowestPopIndex.value);
          }
        }
        assert priorityIds == set x | x in free && x.ToIndex() < |widgets|;
        PopLastKeepsInvariant(free, old(widgets));

        r := Some(widget);
      } else {
        r := widgets[index];
        widgets := widgets[index := None];
        if r.None? {
          assert widgets == old(widgets);
          return;
        }
        VacateKeepsInvariant(priorityIds, old(widgets), id);
        priorityIds := priorityIds + {id};
      }
    }

    /**
     * `set_parent`: as written, the widget named by `id` becomes its own
     * parent, and its previous parent loses the child entry at position
     * `id.to_index()`. Fails when `id` names no live widget.
     */
    method SetParent(id: WidgetId) returns (r: Option<()>)
      requires Valid()
      requires SetParentPanicFree(Snapshot(), id)
      modifies Objects()
      ensures Valid() && widgets == old(widgets)
      ensures r.Some? <==> Live(id)
      ensures r.None? ==> Snapshot() == old(Snapshot())
      ensures r.Some? ==> Snapshot() == SetParentSlots(old(Snapshot()), id)
    {
      var index := id.ToIndex();
      if !(index < |widgets| && widgets[index].Some?) {
        return None;
      }
      var widget := widgets[index].value;
      var previousParent := widget.parentId;
      widget.parentId := Some(id);

      if previousParent.Some? {
        var parent := widgets[previousParent.value.ToIndex()].value;
        var childIndices := parent.childIndices;
        // `find` yields the entry equal to `index`, i.e. `index` itself, which
        // `Vec::remove` then takes as a position.
        var found := index;
        parent.childIndices := childIndices[..found] + childIndices[found + 1..];
      }

      r := Some(());
    }

    /** `widget`: the live widget named by `id`, if any. */
    function Widget(id: WidgetId): (r: Option<W.Widget<B, L>>)
      reads this
      ensures r.Some? <==> Live(id)
      ensures r.Some? ==> r.value in Objects()
      ensures Valid() && r.Some? ==> r.value.id == id
    {
      if id.ToIndex() < |widgets| then widgets[id.ToIndex()] else None
    }

    /** `widget_mut`: the same lookup as `widget`. */
    function WidgetMut(id: WidgetId): (r: Option<W.Widget<B, L>>)
      reads this
      ensures r == Widget(id)
    {
      var index := id.ToIndex();
      match index < |widgets|
      case true => widgets[index]
      case false => None
    }

    /**
     * The loop of `widgets_mut`: the slot of every requested id, in request
     * order, or `None` as soon as one id names no live widget.
     */
    method CollectIndices(ids: seq<WidgetId>) returns (indices: Option<seq<Usize>>)
      ensures indices.Some? <==> forall k :: 0 <= k < |ids| ==> Live(ids[k])
      ensures indices.Some? ==> |indices.value| == |ids|
      ensures indices.Some? ==> forall k :: 0 <= k < |ids| ==> indices.value[k] == ids[k].ToIndex()
    {
      var acc: seq<Usize> := [];
      for k := 0 to |ids|
        invariant |acc| == k
        invariant forall j :: 0 <= j < k ==> acc[j] == ids[j].ToIndex() && Live(ids[j])
      {
        var index := ids[k].ToIndex();
        if !(index < |widgets| && widgets[index].Some?) {
          return None;
        }
        acc := acc + [index];
      }
      return Some(acc);
    }

    /** `widgets_mut`: all-or-nothing batch lookup, handing back an iterator over the slots. */
    method WidgetsMut(ids: seq<WidgetId>) returns (it: Option<WidgetsIterMut<B, L>>)
      ensures it.None? <==> exists k :: 0 <= k < |ids| && !Live(ids[k])
      ensures it.Some? ==> fresh(it.value) && it.value.base == this && it.value.index == 0
      ensures it.Some? ==> |it.value.indices| == |ids|
      ensures it.Some? ==> forall k :: 0 <= k < |ids| ==> it.value.indices[k] == ids[k].ToIndex()
    {
      var indices := CollectIndices(ids);
      if indices.None? {
        return None;
      }
      var iter := new WidgetsIterMut(this, indices.value);
      return Some(iter);
    }
  }

  /** `WidgetsIterMut`: walks the collected slots, one widget per call to `next`. */
  class WidgetsIterMut<B, L> {
    const base: WidgetBase<B, L>
    var index: nat
    const indices: seq<Usize>

    constructor (base: WidgetBase<B, L>, indices: seq<Usize>)
      ensures this.base == base && this.indices == indices && index == 0
    {
      this.base := base;
      this.indices := indices;
      index := 0;
    }

    /** `size_hint`: the exact number of widgets still to come, as both bounds. */
    function SizeHint(): (r: (nat, Option<nat>))
      reads this
      ensures r.1 == Some(r.0)
      ensures r.0 == 0 <==> index >= |indices|
      ensures index <= |indices| ==> r.0 + index == |indices|
    {
      var remain := if |indices| >= index then |indices| - index else 0;
      (remain, Some(remain))
    }

    /** `next`: the widget at the next collected slot; past the end, `None` and no change. */
    method Next() returns (r: Option<W.Widget<B, L>>)
      requires index < |indices| ==> indices[index] < |base.widgets| && base.widgets[indices[index]].Some?
      modifies this
      ensures old(index) < |indices| ==> index == old(index) + 1 && r == base.widgets[indices[old(index)]]
      ensures old(index) >= |indices| ==> index == old(index) && r.None?
      ensures r.Some? <==> old(SizeHint()).0 > 0
      ensures r.Some? ==> SizeHint().0 == old(SizeHint()).0 - 1
    {
      if index >= |indices| {
        return None;
      }
      var slot := indices[index];
      index := index + 1;
      r := base.widgets[slot];
    }
  }
}
