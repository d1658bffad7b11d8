/**
 * Widget identifiers (src/widget/id.rs): a non-zero `usize` that names the
 * slot one below it.
 */
module Ids {
  import opened Wrappers
  import opened Errors

  /** `usize::MAX` on a 64-bit target. */
  const USIZE_MAX: int := 0xFFFF_FFFF_FFFF_FFFF

  type Usize = n: int | 0 <= n <= USIZE_MAX

  /** `std::num::NonZeroUsize`. */
  type NonZeroUsize = n: int | 1 <= n <= USIZE_MAX witness 1

  /** `NonZeroUsize::new`: `None` exactly for zero. */
  function NonZeroNew(n: Usize): (r: Option<NonZeroUsize>)
    ensures r.None? <==> n == 0
    ensures r.Some? ==> r.value == n
  {
    if n == 0 then None else Some(n)
  }

  datatype WidgetId = WidgetId(nz: NonZeroUsize) {

    /**
     * `WidgetId::from_index`: the id of slot `index`. The source panics when
     * `index + 1` is not a non-zero `usize`, that is for `usize::MAX`.
     */
    static function FromIndex(index: Usize): (id: WidgetId)
      requires index < USIZE_MAX
      ensures id.ToIndex() == index
    {
      WidgetId(index + 1)
    }

    /** `WidgetId::new` (and `From<NonZeroUsize>`): wraps the value. */
    static function New(id: NonZeroUsize): (r: WidgetId)
      ensures r.ToNonZero() == id
    {
      WidgetId(id)
    }

    /** `WidgetId::to_index`: the zero-based slot. */
    function ToIndex(): Usize { nz - 1 }

    /** `WidgetId::to_usize` (and `From<WidgetId> for usize`). */
    function ToUsize(): (n: Usize)
      ensures n >= 1 && n == ToIndex() + 1
    {
      nz
    }

    /** `From<WidgetId> for NonZeroUsize` (and `Deref`). */
    function ToNonZero(): NonZeroUsize { nz }

    /** The derived `Ord`: ids compare like the slots they name. */
    predicate Le(other: WidgetId): (r: bool)
      ensures r <==> ToIndex() <= other.ToIndex()
    {
      nz <= other.nz
    }

    predicate Lt(other: WidgetId): (r: bool)
      ensures r <==> ToIndex() < other.ToIndex()
    {
      nz < other.nz
    }

    /** `TryFrom<usize>`: zero is the one rejected value. */
    static function TryFromUsize(value: Usize): (r: Result<WidgetId, WidgetBaseError>)
      ensures r.Err? <==> value == 0
      ensures r.Err? ==> r.error == InvalidNonZeroUsize
      ensures r.Ok? ==> r.value.ToUsize() == value
    {
      match NonZeroNew(value)
      case Some(id) => Ok(WidgetId(id))
      case None => Err(InvalidNonZeroUsize)
    }

    /** `TryFrom<Option<NonZeroUsize>>`: `None` is the one rejected value. */
    static function TryFromOption(value: Option<NonZeroUsize>): (r: Result<WidgetId, WidgetBaseError>)
      ensures r.Err? <==> value.None?
      ensures r.Err? ==> r.error == InvalidNonZeroUsize
      ensures r.Ok? ==> r.value.ToNonZero() == value.value
    {
      match value
      case Some(id) => Ok(WidgetId(id))
      case None => Err(InvalidNonZeroUsize)
    }
  }

  /** `from_index` then `to_index` is the identity on slot indices. */
  lemma ToIndexFromIndex(index: Usize)
    requires index < USIZE_MAX
    ensures WidgetId.FromIndex(index).ToIndex() == index
  {
  }

  /** `to_index` then `from_index` is the identity on ids; `to_index` is below `usize::MAX`. */
  lemma FromIndexToIndex(id: WidgetId)
    ensures id.ToIndex() < USIZE_MAX
    ensures WidgetId.FromIndex(id.ToIndex()) == id
  {
  }

  /** Distinct slots have distinct ids. */
  lemma ToIndexInjective(a: WidgetId, b: WidgetId)
    requires a.ToIndex() == b.ToIndex()
    ensures a == b
  {
  }

  /** `from_index` preserves and reflects the order of slots. */
  lemma FromIndexMonotone(i: Usize, j: Usize)
    requires i < USIZE_MAX && j < USIZE_MAX
    ensures WidgetId.FromIndex(i).Lt(WidgetId.FromIndex(j)) <==> i < j
  {
  }

  /** The conversions out of an id are undone by the conversions in. */
  lemma ConversionsRoundTrip(id: WidgetId)
    ensures WidgetId.TryFromUsize(id.ToUsize()) == Ok(id)
    ensures WidgetId.TryFromOption(Some(id.ToNonZero())) == Ok(id)
    ensures WidgetId.New(id.ToNonZero()) == id
  {
  }
}
