/**
 * Eager counterparts of the range adaptors `make_message` uses:
 * `views::filter`, `views::transform` and `views::join`, and the summing
 * loop that consumes them. Laziness is not observable in the program, so
 * every view is a finished sequence here.
 */
module Ranges {

  /** `views::filter(keep)`: the elements satisfying `keep`, in order. */
  function Filter<T(!new)>(keep: T -> bool, s: seq<T>): (r: seq<T>)
    ensures |r| <= |s|
    ensures forall i :: 0 <= i < |r| ==> keep(r[i])
    ensures forall x :: x in r <==> x in s && keep(x)
  {
    if |s| == 0 then []
    else (if keep(s[0]) then [s[0]] else []) + Filter(keep, s[1..])
  }

  /** `views::transform(f)`: `f` applied to every element, in order. */
  function Map<T, U>(f: T -> U, s: seq<T>): (r: seq<U>)
    ensures |r| == |s|
    ensures forall i :: 0 <= i < |s| ==> r[i] == f(s[i])
  {
    if |s| == 0 then [] else [f(s[0])] + Map(f, s[1..])
  }

  /** The total a `for (int v : view) sum += v;` loop accumulates from 0. */
  function Sum(s: seq<int>): int {
    if |s| == 0 then 0 else s[0] + Sum(s[1..])
  }

  function Len<T>(s: seq<T>): int {
    |s|
  }

  /** `views::join`: the inner sequences one after another, in outer order. */
  function Flatten<T>(xss: seq<seq<T>>): (r: seq<T>)
    ensures |r| == Sum(Map(Len, xss))
  {
    if |xss| == 0 then []
    else
      assert Map(Len, xss)[1..] == Map(Len, xss[1..]);
      xss[0] + Flatten(xss[1..])
  }

  /** Filtering a concatenation filters each part. */
  lemma {:induction false} FilterAppend<T(!new)>(keep: T -> bool, s: seq<T>, t: seq<T>)
    ensures Filter(keep, s + t) == Filter(keep, s) + Filter(keep, t)
  {
    if |s| > 0 {
      assert (s + t)[1..] == s[1..] + t;
      FilterAppend(keep, s[1..], t);
    } else {
      assert s + t == t;
    }
  }

  /** Together with `FilterAppend` this pins `Filter` down completely: one
      element is kept exactly when `keep` holds of it. */
  lemma FilterSingleton<T(!new)>(keep: T -> bool, x: T)
    ensures Filter(keep, [x]) == if keep(x) then [x] else []
  {
  }

  lemma MapAppend<T, U>(f: T -> U, s: seq<T>, t: seq<T>)
    ensures Map(f, s + t) == Map(f, s) + Map(f, t)
  {
  }

  /** The sum of a concatenation is the sum of the sums. */
  lemma {:induction false} SumAppend(s: seq<int>, t: seq<int>)
    ensures Sum(s + t) == Sum(s) + Sum(t)
  {
    if |s| > 0 {
      assert (s + t)[1..] == s[1..] + t;
      SumAppend(s[1..], t);
    } else {
      assert s + t == t;
    }
  }

  /** Adding one more element, as one loop iteration does. */
  lemma SumSnoc(s: seq<int>, v: int)
    ensures Sum(s + [v]) == Sum(s) + v
  {
    SumAppend(s, [v]);
  }

  /** Joining a concatenation of outer sequences joins each part. */
  lemma {:induction false} FlattenAppend<T>(xss: seq<seq<T>>, yss: seq<seq<T>>)
    ensures Flatten(xss + yss) == Flatten(xss) + Flatten(yss)
  {
    if |xss| > 0 {
      assert (xss + yss)[1..] == xss[1..] + yss;
      FlattenAppend(xss[1..], yss);
    } else {
      assert xss + yss == yss;
    }
  }

  /** Outer-then-inner order: element `j` of inner sequence `i` sits in the
      joined sequence right after all elements of the earlier inner
      sequences. */
  lemma FlattenIndex<T>(xss: seq<seq<T>>, i: int, j: int)
    requires 0 <= i < |xss| && 0 <= j < |xss[i]|
    ensures var k := |Flatten(xss[..i])| + j;
      k < |Flatten(xss)| && Flatten(xss)[k] == xss[i][j]
  {
    assert xss == xss[..i] + [xss[i]] + xss[i + 1..];
    FlattenAppend(xss[..i] + [xss[i]], xss[i + 1..]);
    FlattenAppend(xss[..i], [xss[i]]);
    assert Flatten([xss[i]]) == xss[i] by {
      assert [xss[i]][1..] == [];
    }
  }

  /** Summing the joined sequence is summing the inner sums. */
  lemma {:induction false} FlattenSum(xss: seq<seq<int>>)
    ensures Sum(Flatten(xss)) == Sum(Map(Sum, xss))
  {
    if |xss| > 0 {
      SumAppend(xss[0], Flatten(xss[1..]));
      FlattenSum(xss[1..]);
      assert Map(Sum, xss)[1..] == Map(Sum, xss[1..]);
    }
  }
}
