/** The crate's error type and its float validator (src/error.rs). */
module Errors {
  import opened Wrappers
  import opened Float
  import Math

  datatype WidgetBaseError = InvalidNonZeroUsize | AbnormalFloat(category: FpCategory) | TraitObjectCloning

  /**
   * `WidgetBaseError::validate_f32`: zero and normal floats pass through
   * unchanged, whatever their sign; any other class is reported.
   */
  function ValidateF32(f: F32): (r: Result<F32, WidgetBaseError>)
    ensures r.Ok? <==> IsZeroOrNormal(f)
    ensures r.Ok? ==> r.value == f
    ensures r.Err? ==> r.error == AbnormalFloat(f.Classify())
  {
    match f.Classify()
    case Zero | Normal => Ok(f)
    case _ => Err(AbnormalFloat(f.Classify()))
  }

  /**
   * `validate_f32` accepts exactly what `ValidF32::<false>::new` accepts,
   * keeps the same float, and rejects with the same class.
   */
  lemma ValidateAgreesWithUnconstrainedNew(f: F32)
    ensures ValidateF32(f).Ok? <==> Math.ValidF32.New(false, f).Ok?
    ensures ValidateF32(f).Ok? ==> Math.ValidF32.New(false, f).value.Get() == ValidateF32(f).value
    ensures ValidateF32(f).Err? ==> Math.ValidF32.New(false, f) == Result.Err(Math.AbnormalFloat(f.Classify()))
  {
  }

  /** No sign constraint: negative zero and negative one are accepted. */
  lemma ValidateAcceptsNegatives()
    ensures ValidateF32(NEG_ZERO) == Ok(NEG_ZERO)
    ensures ValidateF32(NEG_ONE) == Ok(NEG_ONE)
  {
  }
}
