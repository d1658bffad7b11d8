/**
 * Clients of the arena that use only its contracts: the slot-reuse,
 * batch-lookup and take-twice behaviour a caller can rely on.
 */
module ArenaScenario {
  import opened Wrappers
  import opened Ids
  import W = Widgets
  import Builders
  import Arena

  /** The id with the given 1-based number. */
  function Id(n: NonZeroUsize): WidgetId { WidgetId(n) }

  /**
   * Insert three widgets, remove #2 and insert again, then remove #3 (the
   * last slot) and insert again. Returns the ids issued and the table length
   * right after removing #3.
   */
  method SlotReuse() returns (issued: seq<WidgetId>, lengthAfterLastRemoval: nat)
    ensures issued == [Id(1), Id(2), Id(3), Id(2), Id(3)]
    ensures lengthAfterLastRemoval == 2
  {
    var arena := new Arena.WidgetBase<int, int>();
    var builder := Builders.WidgetBuilder<int, int>.Default();
    Builders.BuilderHonoursId(builder);
    var build := (id: WidgetId) => builder.BuildWidget(id);

    var a := arena.Insert(build);
    assert a == Id(1) && arena.priorityIds == {} && |arena.widgets| == 1;
    var b := arena.Insert(build);
    assert b == Id(2) && arena.priorityIds == {} && |arena.widgets| == 2;
    var c := arena.Insert(build);
    assert c == Id(3) && arena.priorityIds == {} && |arena.widgets| == 3;

    // Removing an interior widget leaves a hole and frees its id.
    var removed := arena.Remove(b);
    assert removed.Some?;
    assert arena.priorityIds == {b};
    var d := arena.Insert(build);
    assert d == b && arena.priorityIds == {} && |arena.widgets| == 3;
    assert arena.widgets[1].Some?;

    // Removing the last widget shrinks the table.
    ghost var before := arena.widgets;
    removed := arena.Remove(c);
    Arena.TrimVacantOfOccupiedEnd(before[..2]);
    lengthAfterLastRemoval := |arena.widgets|;
    assert lengthAfterLastRemoval == 2;
    assert arena.priorityIds == {};

    var e := arena.Insert(build);
    assert e == c;
    issued := [a, b, c, d, e];
  }

  /**
   * Batch lookup of widgets #1 and #2 on an arena holding exactly those
   * succeeds with their slots in request order; asking for #1 and #99 fails
   * as a whole.
   */
  method BatchLookup() returns (both: Option<seq<Usize>>, withDead: Option<seq<Usize>>)
    ensures both == Some([0, 1])
    ensures withDead.None?
  {
    var arena := new Arena.WidgetBase<int, int>();
    var builder := Builders.WidgetBuilder<int, int>.Default();
    Builders.BuilderHonoursId(builder);
    var build := (id: WidgetId) => builder.BuildWidget(id);

    var first := arena.Insert(build);
    var second := arena.Insert(build);

    assert arena.Live(first) && arena.Live(second);
    both := arena.CollectIndices([first, second]);
    assert both.value[0] == 0 && both.value[1] == 1;
    assert both.value == [0, 1];

    assert !arena.Live([first, Id(99)][1]);
    withDead := arena.CollectIndices([first, Id(99)]);
  }

  /**
   * The iterator `widgets_mut([#1, #2])` hands back yields widget #1, then
   * widget #2, then nothing.
   */
  method BatchIteration() returns (yielded: seq<WidgetId>, exhausted: bool)
    ensures yielded == [Id(1), Id(2)]
    ensures exhausted
  {
    var arena := new Arena.WidgetBase<int, int>();
    var builder := Builders.WidgetBuilder<int, int>.Default();
    Builders.BuilderHonoursId(builder);
    var build := (id: WidgetId) => builder.BuildWidget(id);

    var first := arena.Insert(build);
    var second := arena.Insert(build);
    assert arena.widgets[0].value.id == first && arena.widgets[1].value.id == second;

    assert arena.Live([first, second][0]) && arena.Live([first, second][1]);
    var it := arena.WidgetsMut([first, second]);
    var iter := it.value;
    var one := iter.Next();
    var two := iter.Next();
    var three := iter.Next();
    yielded := [one.value.id, two.value.id];
    exhausted := three.None?;
  }

  /** Taking a widget's behavior twice yields it once, then `None`. */
  method TakeBehaviorTwice(x: int) returns (once: Option<int>, twice: Option<int>)
    ensures once == Some(x) && twice.None?
  {
    var builder := Builders.WidgetBuilder<int, int>.Default().WithBehavior(x);
    var widget := new W.Widget(builder.BuildWidget(Id(1)));
    once := widget.TakeBehavior();
    twice := widget.TakeBehavior();
  }
}
