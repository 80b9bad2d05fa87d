/**
 * `make_message`: the demonstrations run in a fixed order and append five
 * lines: the even-square sum, the division result, the flattened sum, the
 * point move and the formatting example. A line is kept abstract, as the values
 * it reports; the text `std::format` renders around them is not modelled.
 */
module Message {
  import opened CppInt
  import opened Points
  import opened SafeDivision
  import opened Ranges
  import opened Pipelines

  datatype Line =
    | EvenSquaresLine(sum: int)                  // the even-square sum line
    | SafeDivOkLine(quotient: int)               // the division line reporting a quotient
    | SafeDivErrorLine(error: string)            // the division line reporting an error
    | FlattenedSumLine(sum: int)                 // the joined-vector sum line
    | PointMoveLine(before: Point, after: Point) // the line showing both points
    | FormattingLine                             // the floating-point formatting line

  predicate IsDivisionLine(line: Line) {
    line.SafeDivOkLine? || line.SafeDivErrorLine?
  }

  /** What a division line reports: the quotient as a value, the error text
      as an error. */
  function Reported(line: Line): Expected<int, string>
    requires IsDivisionLine(line)
  {
    if line.SafeDivOkLine? then Value(line.quotient) else Unexpected(line.error)
  }

  /** The line the division block appends: the OK line when the result has a
      value, the error line carrying the error text otherwise. */
  function DivisionLine(r: Expected<int, string>): (line: Line)
    ensures IsDivisionLine(line)
    ensures line.SafeDivOkLine? <==> r.HasValue()
    ensures Reported(line) == r
  {
    match r
    case Value(v) => SafeDivOkLine(v)
    case Unexpected(e) => SafeDivErrorLine(e)
  }

  /** Conversely, every division line is the one appended for the result it
      reports, so the line and the result determine each other. */
  lemma DivisionLineRoundTrip(line: Line)
    requires IsDivisionLine(line)
    ensures DivisionLine(Reported(line)) == line
  {
  }

  /** `make_message` with its literal inputs lifted to parameters: `nums` for
      the even-square block, `a / b` for the division, `nested` for the join,
      and `p` moved by `(dx, dy)`. */
  function MakeMessageFrom(nums: seq<int>, a: int, b: int, nested: seq<seq<int>>,
                           p: Point, dx: int, dy: int): (lines: seq<Line>)
    ensures |lines| == 5
    ensures lines[0] == EvenSquaresLine(Sum(Map(Square, Filter(IsEven, nums))))
    ensures lines[1].SafeDivOkLine? <==> b != 0
    ensures lines[1].SafeDivOkLine? ==> IsTruncQuotient(a, b, lines[1].quotient)
    ensures b == 0 ==> lines[1] == SafeDivErrorLine("Division by zero")
    ensures lines[2] == FlattenedSumLine(Sum(Map(Sum, nested)))
    ensures lines[3].PointMoveLine? && lines[3].before == p
    ensures lines[3].after.x == p.x + dx && lines[3].after.y == p.y + dy
    ensures lines[4] == FormattingLine
  {
    EvenSquareSumIsPipeline(nums);
    FlattenSum(nested);
    var q := Move(p, dx, dy);
    [ EvenSquaresLine(EvenSquareSum(nums)),
      DivisionLine(SafeDiv(a, b)),
      FlattenedSumLine(Sum(Flatten(nested))),
      PointMoveLine(p, q),
      FormattingLine ]
  }

  /** `make_message()` itself. */
  function MakeMessage(): (lines: seq<Line>)
    ensures lines == [ EvenSquaresLine(20),
                       SafeDivOkLine(5),
                       FlattenedSumLine(10),
                       PointMoveLine(Point(10, 20), Point(15, 27)),
                       FormattingLine ]
  {
    EvenSquareSumExample();
    SafeDivScenarios();
    EvenSquareSumIsPipeline([1, 2, 3, 4, 5]);
    FlattenSum([[1, 2], [3, 4]]);
    assert Sum(Flatten([[1, 2], [3, 4]])) == 10;
    MakeMessageFrom([1, 2, 3, 4, 5], 10, 2, [[1, 2], [3, 4]], Point(10, 20), 5, 7)
  }

  /** With a zero divisor the second line is the error line and the other
      four lines are unaffected. */
  lemma ZeroDivisorOnlyChangesDivisionLine(nums: seq<int>, a: int, b: int,
                                           nested: seq<seq<int>>, p: Point, dx: int, dy: int)
    requires b != 0
    ensures var ok := MakeMessageFrom(nums, a, b, nested, p, dx, dy);
            var err := MakeMessageFrom(nums, a, 0, nested, p, dx, dy);
            err[1] == SafeDivErrorLine("Division by zero")
            && ok[1] == SafeDivOkLine(TruncDiv(a, b))
            && ok[..1] == err[..1] && ok[2..] == err[2..]
  {
  }
}
