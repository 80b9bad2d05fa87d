# hello_llvm_clang: a Dafny model of `make_message`

The program is one file, `main.cpp`. It shows off recent C++ features. `make_message` runs its demonstrations in a fixed order and appends five lines: the even-square sum, the division result, the flattened sum, the point move, and the formatting example. `main` prints the result. The model covers all of the computation in that file except the floating-point formatting line:

- `Point::move` (`points.dfy`, module `Points`). `move` takes its receiver by value (`this Point self`), so it returns a displaced copy. Here `Point` is an immutable datatype and `Move(self, dx, dy)` is a pure function. The caller's point therefore cannot change.
- The C++ integer operators (`cpp_int.dfy`, module `CppInt`). C++ `/` truncates toward zero and C++ `%` takes the sign of the dividend. Dafny's `/` and `%` are Euclidean, so `TruncDiv` and `TruncRem` define the C++ versions explicitly. `IsTruncQuotient` is an independent characterisation of the C++ quotient: the remainder is smaller than the divisor in magnitude and never has the opposite sign to the dividend. `TruncDiv` is proved to be the only quotient that meets it.
- The `safe_div` lambda (`safe_division.dfy`, module `SafeDivision`). `Expected` models `std::expected<int, std::string>`. `SafeDiv` returns the error `"Division by zero"` when the divisor is 0, and the truncated quotient otherwise.
- The range pipelines (`ranges.dfy`, module `Ranges`). These are eager `Filter`, `Map` (`views::transform`), `Flatten` (`views::join`) and `Sum`, which is what the summing `for` loops compute.
- The two summing blocks (`pipelines.dfy`, module `Pipelines`). There are two models of the even-square sum. `EvenSquareSum` is a recursive function, and `SumEvenSquares` runs the summing loop `SumLoop` of `main.cpp` over the filtered and squared view. Both are proved equal to `Sum(Map(Square, Filter(IsEven, nums)))`. The even test is C++ `x % 2 == 0`. `SumJoined` runs the same loop over the joined vector, and it is proved equal to the sum of the inner sums.
- `make_message` (`message.dfy`, module `Message`). The output is a sequence of five abstract `Line` values in the order the source appends them. The division line is the OK line or the error line, depending on `has_value()`. `MakeMessageFrom` takes the block inputs as parameters. `MakeMessage` uses the literals from `main.cpp` and is proved to give sums 20 and 10, `safe_div OK: 5`, and the move from (10, 20) to (15, 27).

## Model

| member | source | states |
|---|---|---|
| Points.Move | main.cpp:17-22 | the returned point differs from the receiver by exactly `dx` in x and `dy` in y |
| Points.MoveCompose | main.cpp:17-22 | two successive moves equal one move by the summed offsets |
| Points.MoveInverse | main.cpp:17-22 | moving by the opposite offset restores the receiver; a zero move is the identity |
| Points.MoveOffsetRecovered | main.cpp:17-22 | any point is reached from any other by moving by their coordinate difference |
| Points.MoveScenario | main.cpp:81-82 | after `q = p.move(5, 7)` with `p{10, 20}`, `q` is (15, 27) and `p` is still (10, 20) |
| CppInt.TruncDiv | main.cpp:56 | C++ `a / b`: the remainder `a - q * b` is smaller in magnitude than `b` and never opposite in sign to `a`, and the quotient is no larger in magnitude than `a` |
| CppInt.TruncRem | main.cpp:38 | C++ `a % b`: smaller in magnitude than `b`, zero or of the sign of `a`, and `a == (a / b) * b + a % b` |
| CppInt.TruncQuotientUnique | main.cpp:56 | any quotient meeting the C++ rounding rule is `TruncDiv(a, b)` |
| CppInt.TruncDivAgreesWhenNonnegative | main.cpp:56 | for `a >= 0`, `b > 0` the C++ quotient and remainder equal the Euclidean ones |
| CppInt.TruncDivNegation | main.cpp:56 | negating either operand negates the C++ quotient |
| CppInt.NegativeDividendDiffers | main.cpp:56 | `-7 / 2` is -3 and `-7 % 2` is -1 in C++, where Euclidean division gives -4 and 1 |
| CppInt.IsEven | main.cpp:38 | the filter lambda `x % 2 == 0`, using the C++ truncating remainder |
| CppInt.IsEvenIffEuclidean | main.cpp:38 | the C++ test `x % 2 == 0` holds exactly when the Euclidean remainder is zero |
| SafeDivision.Expected.HasValue | main.cpp:61 | `has_value()`: true exactly for a value, false for an error |
| SafeDivision.SafeDiv | main.cpp:53-57 | the result is an error exactly when `b == 0`; the error text is "Division by zero"; a value is the truncated quotient |
| SafeDivision.SafeDivValueIsTruncQuotient | main.cpp:56 | a value returned by `safe_div` is `TruncDiv(a, b)` and satisfies `a == q * b + a % b` |
| SafeDivision.SafeDivScenarios | main.cpp:54-59 | `safe_div(10, 2)` holds 5 and `safe_div(10, 0)` holds the error "Division by zero" |
| SafeDivision.SafeDivRoundsTowardZero | main.cpp:56 | `safe_div(-7, 2)` and `safe_div(7, -2)` both hold -3 |
| Ranges.Filter | main.cpp:38 | the result is no longer than the input; every element kept satisfies the predicate; an element is kept exactly when it occurs in the input and satisfies the predicate |
| Ranges.FilterAppend | main.cpp:38 | filtering a concatenation concatenates the filtered parts |
| Ranges.FilterSingleton | main.cpp:38 | a single element is kept exactly when the predicate holds of it |
| Ranges.Map | main.cpp:39 | same length as the input, with element `i` equal to `f` applied to input element `i` |
| Ranges.MapAppend | main.cpp:39 | transforming a concatenation concatenates the transformed parts |
| Ranges.Sum | main.cpp:41-43 | the total the summing loops accumulate from 0, adding the elements front to back |
| Ranges.SumSnoc | main.cpp:43 | one loop step `sum += v` adds exactly `v` to the total of the elements already visited |
| Ranges.SumAppend | main.cpp:41-43 | the summing loop's total over a concatenation is the sum of the two totals |
| Ranges.Flatten | main.cpp:68 | the joined sequence's length is the sum of the inner lengths |
| Ranges.FlattenAppend | main.cpp:68 | joining a concatenation of outer sequences concatenates the joins |
| Ranges.FlattenIndex | main.cpp:67-68 | element `j` of inner sequence `i` appears in the join right after the elements of inner sequences `0..i-1` (outer-then-inner order) |
| Ranges.FlattenSum | main.cpp:67-74 | the sum of the joined sequence equals the sum of the inner sums |
| Pipelines.Square | main.cpp:39 | the transform lambda `x * x` |
| Pipelines.Contribution | main.cpp:38-39 | an element adds `x * x` when `x % 2 == 0` and nothing otherwise; the contribution is never negative |
| Pipelines.EvenSquareSum | main.cpp:33-45 | the even-square sum is non-negative and is 0 when every element is odd |
| Pipelines.EvenSquareSumIsPipeline | main.cpp:36-43 | the even-square sum equals `Sum(Map(Square, Filter(IsEven, nums)))` |
| Pipelines.EvenSquareSumAppend | main.cpp:33-45 | the even-square sum is additive over concatenation of the input |
| Pipelines.EvenSquareSumSnoc | main.cpp:38-43 | appending an odd element adds nothing; appending an even one adds its square |
| Pipelines.EvenSquareSumExample | main.cpp:33-45 | for `{1, 2, 3, 4, 5}` the even-square sum is 20 |
| Pipelines.SumLoop | main.cpp:41-43 | the loop `for (int v : view) s += v` starting from 0 returns the sum of the view |
| Pipelines.SumEvenSquares | main.cpp:36-43 | the summing loop over the filtered, transformed view returns the filter-map-sum total, which equals the element-by-element even-square sum and is non-negative |
| Pipelines.SumJoined | main.cpp:67-72 | the summing loop over the joined nested vector returns the sum of the join, and the sum of the inner sums |
| Message.DivisionLine | main.cpp:61-64 | the OK line is appended exactly when the result has a value, otherwise the error line; the line reports the division result without loss (reading it back gives the result) |
| Message.DivisionLineRoundTrip | main.cpp:61-64 | every OK or error line is the line appended for the result it reports |
| Message.MakeMessageFrom | main.cpp:25-92 | exactly five lines in the fixed order even-square, division, flatten, point, formatting; each carries its block's result; the division line is the OK line with the truncated quotient when `b != 0` and the "Division by zero" error line when `b == 0`; the point line shows the unchanged receiver and the moved copy |
| Message.MakeMessage | main.cpp:25-92 | the literal inputs give the lines: sum 20, `safe_div OK: 5`, sum 10, (10, 20) → (15, 27), formatting |
| Message.ZeroDivisorOnlyChangesDivisionLine | main.cpp:59-64 | a zero divisor turns the division line into the "Division by zero" error line and leaves the other four lines as they are |

## Left out

- Fixed-width `int`: the model uses unbounded integers. Overflow of `x * x` and of the sums, and the undefined behaviour of `INT_MIN / -1`, are not modelled. All intermediate values for the literal inputs are far inside the 32-bit range, so the literal run is not affected.
- The formatting line (`main.cpp:88`) formats a `double` with `{:.3f}`. Floating-point formatting is not modelled, so it appears only as the abstract `FormattingLine`.
- The text `std::format` renders around each value is not modelled: the bracketed prefixes, the arrow character, the decimal rendering and the newlines. Each line is the abstract value it reports.
- `main` writes the message to `std::cout` and returns 0. This is I/O with no logic, so it is not modelled.
- Laziness of `std::views`: it cannot be observed in this program, so the views are finished sequences.
