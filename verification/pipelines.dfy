/**
 * The two summing blocks of `make_message`: the sum of the squares of the
 * even elements (`filter | transform`, then a summing loop) and the sum of a
 * joined nested vector (`views::join`, then a summing loop).
 */
module Pipelines {
  import opened CppInt
  import opened Ranges

  function Square(x: int): int {
    x * x
  }

  /** What one element adds to the even-square sum: its square when
      `x % 2 == 0` holds in C++, nothing otherwise. */
  function Contribution(x: int): (c: int)
    ensures c >= 0
    ensures IsEven(x) ==> c == x * x
    ensures !IsEven(x) ==> c == 0
  {
    if IsEven(x) then Square(x) else 0
  }

  /** The even-square sum, element by element. */
  function EvenSquareSum(nums: seq<int>): (sum: int)
    ensures sum >= 0
    ensures (forall i :: 0 <= i < |nums| ==> !IsEven(nums[i])) ==> sum == 0
  {
    if |nums| == 0 then 0 else Contribution(nums[0]) + EvenSquareSum(nums[1..])
  }

  /** The element-by-element sum is the pipeline
      `nums | filter(x % 2 == 0) | transform(x * x)`, summed. */
  lemma {:induction false} EvenSquareSumIsPipeline(nums: seq<int>)
    ensures EvenSquareSum(nums) == Sum(Map(Square, Filter(IsEven, nums)))
  {
    if |nums| > 0 {
      EvenSquareSumIsPipeline(nums[1..]);
      var rest := Filter(IsEven, nums[1..]);
      if IsEven(nums[0]) {
        assert Filter(IsEven, nums) == [nums[0]] + rest;
        MapAppend(Square, [nums[0]], rest);
      } else {
        assert Filter(IsEven, nums) == rest;
      }
    }
  }

  /** The even-square sum is additive over concatenation of the input. */
  lemma {:induction false} EvenSquareSumAppend(s: seq<int>, t: seq<int>)
    ensures EvenSquareSum(s + t) == EvenSquareSum(s) + EvenSquareSum(t)
  {
    if |s| > 0 {
      assert (s + t)[1..] == s[1..] + t;
      EvenSquareSumAppend(s[1..], t);
    } else {
      assert s + t == t;
    }
  }

  /** Appending one element adds its square if it is even and nothing if it
      is odd. */
  lemma EvenSquareSumSnoc(s: seq<int>, x: int)
    ensures IsEven(x) ==> EvenSquareSum(s + [x]) == EvenSquareSum(s) + x * x
    ensures !IsEven(x) ==> EvenSquareSum(s + [x]) == EvenSquareSum(s)
  {
    EvenSquareSumAppend(s, [x]);
  }

  /** For `{1, 2, 3, 4, 5}` the sum is `2*2 + 4*4 == 20`. */
  lemma EvenSquareSumExample()
    ensures EvenSquareSum([1, 2, 3, 4, 5]) == 20
  {
  }

  /** The summing loop both blocks run over their view:
      `int s = 0; for (int v : view) s += v;`. */
  method SumLoop(view: seq<int>) returns (s: int)
    ensures s == Sum(view)
  {
    s := 0;
    var i := 0;
    while i < |view|
      invariant 0 <= i <= |view|
      invariant s == Sum(view[..i])
    {
      SumSnoc(view[..i], view[i]);
      assert view[..i + 1] == view[..i] + [view[i]];
      s := s + view[i];
      i := i + 1;
    }
    assert view[..i] == view;
  }

  /** The even-square block: the summing loop over the filtered and
      transformed view of `nums`. */
  method SumEvenSquares(nums: seq<int>) returns (sum: int)
    ensures sum == Sum(Map(Square, Filter(IsEven, nums)))
    ensures sum == EvenSquareSum(nums)
    ensures sum >= 0
  {
    sum := SumLoop(Map(Square, Filter(IsEven, nums)));
    EvenSquareSumIsPipeline(nums);
  }

  /** The join block: the summing loop over `nested | views::join`, which
      visits the inner elements in outer-then-inner order. */
  method SumJoined(nested: seq<seq<int>>) returns (s: int)
    ensures s == Sum(Flatten(nested))
    ensures s == Sum(Map(Sum, nested))
  {
    s := SumLoop(Flatten(nested));
    FlattenSum(nested);
  }
}
