/**
 `Solution.maximumSubarraySum` in leet.py: the largest sum of a window of `k` consecutive
 elements whose elements are pairwise distinct, or 0 when there is none (or every such sum
 is negative).
 */
module MaxWindowSum {

  /** `sum(xs)` */
  function Sum(xs: seq<int>): int
  {
    if xs == [] then 0 else xs[0] + Sum(xs[1..])
  }

  /** `set(xs)` */
  function Elements(xs: seq<int>): set<int>
  {
    set x | x in xs
  }

  predicate AllDistinct(xs: seq<int>)
  {
    forall i, j :: 0 <= i < j < |xs| ==> xs[i] != xs[j]
  }

  /** `len(set(xs)) == len(xs)` is exactly the test that no element repeats. */
  lemma {:induction false} ElementsCount(xs: seq<int>)
    ensures |Elements(xs)| <= |xs|
    ensures |Elements(xs)| == |xs| <==> AllDistinct(xs)
  {
    if xs != [] {
      var tail := xs[1..];
      ElementsCount(tail);
      assert Elements(xs) == Elements(tail) + {xs[0]};
      assert AllDistinct(xs) <==> xs[0] !in tail && AllDistinct(tail) by {
        if AllDistinct(xs) {
          forall i, j | 0 <= i < j < |tail| ensures tail[i] != tail[j] {
            assert tail[i] == xs[i + 1] && tail[j] == xs[j + 1];
          }
        }
        if xs[0] !in tail && AllDistinct(tail) {
          forall i, j | 0 <= i < j < |xs| ensures xs[i] != xs[j] {
            assert xs[j] == tail[j - 1];
            if i > 0 {
              assert xs[i] == tail[i - 1];
            }
          }
        }
      }
      if xs[0] in tail {
        assert Elements(xs) == Elements(tail);
      }
    }
  }

  /** `array[i:i+k]` */
  function Window(values: seq<int>, k: nat, i: nat): seq<int>
    requires i + k <= |values|
  {
    values[i..i + k]
  }

  /** The window at `i` exists and has no repeated element. */
  predicate Eligible(values: seq<int>, k: nat, i: int)
  {
    0 <= i && i + k <= |values| && AllDistinct(Window(values, k, i))
  }

  /**
   `maximumSubarraySum`: scan every window of length `k`, skip those with a repeated
   element, keep the largest sum, starting from 0.
   */
  method MaximumSubarraySum(values: seq<int>, k: nat) returns (m: int)
    ensures m >= 0
    ensures forall i :: Eligible(values, k, i) ==> Sum(Window(values, k, i)) <= m
    ensures m == 0 || exists i :: Eligible(values, k, i) && m == Sum(Window(values, k, i))
    ensures k > |values| ==> m == 0
  {
    m := 0;
    var i := 0;
    while i < |values| - k + 1
      invariant 0 <= i && (i <= |values| - k + 1 || i == 0)
      invariant m >= 0
      invariant forall j :: 0 <= j < i && Eligible(values, k, j) ==> Sum(Window(values, k, j)) <= m
      invariant m == 0 || exists j :: 0 <= j < i && Eligible(values, k, j) && m == Sum(Window(values, k, j))
    {
      var sar := values[i..i + k];
      assert sar == Window(values, k, i);
      ElementsCount(sar);
      if |set x | x in sar| != k {
        i := i + 1;
        continue;
      }
      var s := Sum(sar);
      if s > m {
        m := s;
        assert Eligible(values, k, i);
      }
      i := i + 1;
    }
  }

  /** The input the file runs on: the best distinct window of [1,1,1,7,8,9] is [7,8,9]. */
  method Example() returns (m: int)
    ensures m == 24
  {
    var values := [1, 1, 1, 7, 8, 9];
    m := MaximumSubarraySum(values, 3);
    assert !Eligible(values, 3, 0) by {
      assert Window(values, 3, 0) == [1, 1, 1];
    }
    assert !Eligible(values, 3, 1) by {
      assert Window(values, 3, 1) == [1, 1, 7];
    }
    assert Sum(Window(values, 3, 2)) == 16 by {
      assert Window(values, 3, 2) == [1, 7, 8];
    }
    assert Eligible(values, 3, 3) && Sum(Window(values, 3, 3)) == 24 by {
      assert Window(values, 3, 3) == [7, 8, 9];
    }
    forall i | Eligible(values, 3, i)
      ensures Sum(Window(values, 3, i)) <= 24
    {
      assert i == 2 || i == 3;
    }
  }
}
