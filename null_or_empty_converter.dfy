/**
 * NullOrEmptyStringToBooleanConverter: a value converter that maps any
 * object to "does its string form have characters?" and back the other way.
 */
module Primitives {
  import opened Wrappers

  /**
   * An object handed to the converter, reduced to what the converter uses:
   * what its ToString() returns, which may itself be null.
   */
  datatype BoxedValue = BoxedValue(toStringResult: Option<string>)

  /** `value?.ToString()`: null for a null value, otherwise the value's ToString(). */
  function StringForm(value: Option<BoxedValue>): Option<string> {
    match value
    case None => None
    case Some(v) => v.toStringResult
  }

  /** `string.IsNullOrEmpty`. */
  predicate IsNullOrEmpty(s: Option<string>) {
    s.None? || s.value == ""
  }

  /**
   * Convert: true exactly when the value's string form is non-null and
   * non-empty. The target type, parameter and culture are not looked at.
   */
  function Convert<TargetType, Parameter, Culture>(value: Option<BoxedValue>, targetType: TargetType, parameter: Parameter, culture: Culture): (r: bool)
    ensures r <==> StringForm(value).Some? && |StringForm(value).value| > 0
  {
    !IsNullOrEmpty(StringForm(value))
  }

  /** ConvertBack: true exactly when the value's string form is null or empty. */
  function ConvertBack<TargetType, Parameter, Culture>(value: Option<BoxedValue>, targetType: TargetType, parameter: Parameter, culture: Culture): (r: bool)
    ensures r <==> StringForm(value).None? || |StringForm(value).value| == 0
  {
    IsNullOrEmpty(StringForm(value))
  }

  /** A null value converts to false and converts back to true. */
  lemma NullValue<T, P, C>(targetType: T, parameter: P, culture: C)
    ensures !Convert(None, targetType, parameter, culture)
    ensures ConvertBack(None, targetType, parameter, culture)
  {
  }

  /** ConvertBack is the negation of Convert on every value. */
  lemma ConvertBackNegatesConvert<T, P, C>(value: Option<BoxedValue>, targetType: T, parameter: P, culture: C)
    ensures ConvertBack(value, targetType, parameter, culture) == !Convert(value, targetType, parameter, culture)
  {
  }

  /** Neither direction depends on the target type, the parameter or the culture. */
  lemma IgnoresConversionContext<T, P, C>(value: Option<BoxedValue>, t1: T, p1: P, c1: C, t2: T, p2: P, c2: C)
    ensures Convert(value, t1, p1, c1) == Convert(value, t2, p2, c2)
    ensures ConvertBack(value, t1, p1, c1) == ConvertBack(value, t2, p2, c2)
  {
  }
}
