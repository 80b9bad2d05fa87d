/**
 * The `safe_div` lambda of `make_message`: division returning a
 * `std::expected<int, std::string>`, which holds either a quotient or the
 * error text "Division by zero".
 */
module SafeDivision {
  import opened CppInt

  /** `std::expected<T, E>`: exactly one of a value or an error. */
  datatype Expected<+T, +E> = Value(value: T) | Unexpected(error: E) {

    /** `has_value()` */
    predicate HasValue() {
      Value?
    }
  }

  const DivisionByZero: string := "Division by zero"

  /** `safe_div(a, b)`: an error when the divisor is zero, otherwise the C++
      quotient, which rounds toward zero. */
  function SafeDiv(a: int, b: int): (r: Expected<int, string>)
    ensures r.HasValue() <==> b != 0
    ensures !r.HasValue() ==> r.error == DivisionByZero
    ensures r.HasValue() ==> IsTruncQuotient(a, b, r.value)
  {
    if b == 0 then Unexpected(DivisionByZero) else Value(TruncDiv(a, b))
  }

  /** Any value `safe_div` returns is the one truncating quotient. */
  lemma SafeDivValueIsTruncQuotient(a: int, b: int, q: int)
    requires SafeDiv(a, b) == Value(q)
    ensures q == TruncDiv(a, b)
    ensures a == q * b + TruncRem(a, b)
  {
  }

  /** `safe_div(10, 2)` is the value 5 and `safe_div(10, 0)` is the error. */
  lemma SafeDivScenarios()
    ensures SafeDiv(10, 2) == Value(5)
    ensures SafeDiv(10, 0) == Unexpected("Division by zero")
  {
  }

  /** Negative operands round toward zero, not down: `safe_div(-7, 2)` is -3. */
  lemma SafeDivRoundsTowardZero()
    ensures SafeDiv(-7, 2) == Value(-3)
    ensures SafeDiv(7, -2) == Value(-3)
  {
  }
}
