/**
 * Validated geometry scalars and vectors (src/math.rs).
 *
 * Rust's const generic `ValidF32<const POSITIVE: bool>` is modelled by a
 * `positive` field: `ValidF32<true>` is a value with `positive == true`.
 * `Valid()` is the invariant the Rust type guarantees by construction.
 */
module Math {
  import opened Wrappers
  import opened Float

  datatype MathError = AbnormalFloat(category: FpCategory) | NegativeFloat(value: F32)

  datatype ValidF32 = ValidF32(positive: bool, value: F32) {

    /** Zero or normal, and with a clear sign bit when `positive` is set. */
    ghost predicate Valid() {
      IsZeroOrNormal(value) && (positive ==> value.IsSignPositive())
    }

    /** `get` (and `Deref`, `From<ValidF32> for f32`): the wrapped float. */
    function Get(): F32 { value }

    /**
     * `ValidF32::<POSITIVE>::new`: accept zero and normal floats, and with
     * `POSITIVE` only those whose sign bit is clear. An abnormal class is
     * reported before a sign problem.
     */
    static function New(positive: bool, n: F32): (r: Result<ValidF32, MathError>)
      ensures r.Ok? <==> IsZeroOrNormal(n) && (!positive || n.IsSignPositive())
      ensures r.Ok? ==> r.value.Valid() && r.value.positive == positive && r.value.Get() == n
      ensures !IsZeroOrNormal(n) ==> r == Err(AbnormalFloat(n.Classify()))
      ensures IsZeroOrNormal(n) && positive && !n.IsSignPositive() ==> r == Err(NegativeFloat(n))
    {
      match n.Classify()
      case Normal | Zero =>
        if !positive || n.IsSignPositive() then Ok(ValidF32(positive, n)) else Err(NegativeFloat(n))
      case _ => Err(AbnormalFloat(n.Classify()))
    }

    /** `TryFrom<f32> for ValidF32<POSITIVE>` delegates to `new`. */
    static function TryFromF32(positive: bool, n: F32): (r: Result<ValidF32, MathError>)
      ensures r == New(positive, n)
    {
      New(positive, n)
    }

    static function ZERO(positive: bool): (r: ValidF32)
      ensures r.Valid() && r.positive == positive
      ensures r.Get().Classify() == Zero && r.Get().IsSignPositive()
    {
      ValidF32(positive, POS_ZERO)
    }

    static function POSITIVE_ONE(positive: bool): (r: ValidF32)
      ensures r.Valid() && r.positive == positive
      ensures r.Get().Classify() == Normal && r.Get().IsSignPositive()
    {
      ValidF32(positive, POS_ONE)
    }

    /** Only `ValidF32<false>` has `NEGATIVE_ONE`. */
    static function NEGATIVE_ONE(): (r: ValidF32)
      ensures r.Valid() && !r.positive
      ensures r.Get().Classify() == Normal && !r.Get().IsSignPositive()
    {
      ValidF32(false, NEG_ONE)
    }
  }

  /** `From<ValidF32<true>> for ValidF32<false>`: total, keeps the float. */
  function Widen(v: ValidF32): (r: ValidF32)
    requires v.positive && v.Valid()
    ensures !r.positive && r.Valid() && r.Get() == v.Get()
  {
    ValidF32(false, v.value)
  }

  /** `TryFrom<ValidF32<false>> for ValidF32<true>`: fails exactly on a set sign bit. */
  function Narrow(v: ValidF32): (r: Result<ValidF32, MathError>)
    requires !v.positive && v.Valid()
    ensures r.Ok? <==> v.Get().IsSignPositive()
    ensures r.Ok? ==> r.value.positive && r.value.Valid() && r.value.Get() == v.Get()
    ensures r.Err? ==> r.error == NegativeFloat(v.Get())
  {
    if v.value.IsSignPositive() then Ok(ValidF32(true, v.value)) else Err(NegativeFloat(v.value))
  }

  /** A valid scalar round-trips through `get` and `new`. */
  lemma NewGetRoundTrip(v: ValidF32)
    requires v.Valid()
    ensures ValidF32.New(v.positive, v.Get()) == Ok(v)
  {
  }

  /** Widening then narrowing gives back the non-negative scalar. */
  lemma NarrowAfterWiden(v: ValidF32)
    requires v.positive && v.Valid()
    ensures Narrow(Widen(v)) == Ok(v)
  {
  }

  /** Narrowing then widening gives back the unconstrained scalar. */
  lemma WidenAfterNarrow(v: ValidF32)
    requires !v.positive && v.Valid() && Narrow(v).Ok?
    ensures Widen(Narrow(v).value) == v
  {
  }

  /** Narrowing a valid scalar decides exactly as `ValidF32::<true>::new` does on its float. */
  lemma NarrowAgreesWithNew(v: ValidF32)
    requires !v.positive && v.Valid()
    ensures Narrow(v) == ValidF32.New(true, v.Get())
  {
  }

  /** Negative zero is a valid unconstrained scalar but not a valid non-negative one. */
  lemma NegativeZeroRejectedWhenPositive()
    ensures ValidF32.New(false, NEG_ZERO).Ok?
    ensures ValidF32.New(true, NEG_ZERO) == Err(NegativeFloat(NEG_ZERO))
  {
  }

  datatype ValidVec2 = ValidVec2(x: ValidF32, y: ValidF32) {

    /** Both components valid, under the same `POSITIVE` flag. */
    ghost predicate Valid() {
      x.Valid() && y.Valid() && x.positive == y.positive
    }

    function Positive(): bool { x.positive }

    /** `get` (and `From<ValidVec2> for [f32; 2]`). */
    function Get(): (F32, F32) { (x.Get(), y.Get()) }

    static function ZERO(positive: bool): (r: ValidVec2)
      ensures r.Valid() && r.Positive() == positive
      ensures r.Get() == (POS_ZERO, POS_ZERO)
    {
      ValidVec2(ValidF32.ZERO(positive), ValidF32.ZERO(positive))
    }

    /**
     * `ValidVec2::<POSITIVE>::new`: both components must validate; `x` is
     * converted first, so its error is the one reported when both fail.
     */
    static function New(positive: bool, x: F32, y: F32): (r: Result<ValidVec2, MathError>)
      ensures r.Ok? <==> ValidF32.New(positive, x).Ok? && ValidF32.New(positive, y).Ok?
      ensures r.Ok? ==> r.value.Valid() && r.value.Positive() == positive && r.value.Get() == (x, y)
      ensures ValidF32.New(positive, x).Err? ==> r == Err(ValidF32.New(positive, x).error)
      ensures ValidF32.New(positive, x).Ok? && ValidF32.New(positive, y).Err? ==>
                r == Err(ValidF32.New(positive, y).error)
    {
      match ValidF32.TryFromF32(positive, x)
      case Err(e) => Err(e)
      case Ok(vx) =>
        match ValidF32.TryFromF32(positive, y)
        case Err(e) => Err(e)
        case Ok(vy) => Ok(ValidVec2(vx, vy))
    }

    /** `TryFrom<[f32; 2]> for ValidVec2<POSITIVE>`: the same checks as `new`. */
    static function TryFromArray(positive: bool, a: (F32, F32)): (r: Result<ValidVec2, MathError>)
      ensures r == New(positive, a.0, a.1)
    {
      New(positive, a.0, a.1)
    }
  }

  /** A valid vector round-trips through `get` and `new`. */
  lemma Vec2NewGetRoundTrip(v: ValidVec2)
    requires v.Valid()
    ensures ValidVec2.New(v.Positive(), v.Get().0, v.Get().1) == Ok(v)
  {
    NewGetRoundTrip(v.x);
    NewGetRoundTrip(v.y);
  }
}
