/**
 * Statistics over a series of reals: sums, means, extremes, first index of a
 * value, and the counts the views compare against a threshold.
 */
module Stats {
  import opened Wrappers

  /** The sum that `reduce((a, b) => a + b, 0)` computes. */
  function Sum(s: seq<real>): real
  {
    if s == [] then 0.0 else s[0] + Sum(s[1..])
  }

  /** The arithmetic mean; `None` stands for the NaN that `0 / 0` gives for an empty series. */
  function Mean(s: seq<real>): (r: Option<real>)
    ensures r.Some? <==> |s| > 0
  {
    if |s| == 0 then None else Some(Sum(s) / |s| as real)
  }

  lemma {:induction false} SumAppend(a: seq<real>, b: seq<real>)
    ensures Sum(a + b) == Sum(a) + Sum(b)
  {
    if a == [] {
      assert a + b == b;
    } else {
      assert (a + b)[1..] == a[1..] + b;
      SumAppend(a[1..], b);
    }
  }

  /** Every value below `m` makes the sum less than `|s|` times `m`. */
  lemma {:induction false} SumBelow(s: seq<real>, m: real)
    requires |s| > 0
    requires forall i :: 0 <= i < |s| ==> s[i] < m
    ensures Sum(s) < |s| as real * m
  {
    if |s| > 1 {
      SumBelow(s[1..], m);
    }
  }

  /** Every value at most `m` keeps the sum at most `|s|` times `m`. */
  lemma {:induction false} SumAtMost(s: seq<real>, m: real)
    requires forall i :: 0 <= i < |s| ==> s[i] <= m
    ensures Sum(s) <= |s| as real * m
  {
    if |s| > 0 {
      SumAtMost(s[1..], m);
    }
  }

  /** Some value of a non-empty series is at least its mean. */
  lemma MeanAttained(s: seq<real>)
    requires |s| > 0
    ensures exists i :: 0 <= i < |s| && s[i] >= Mean(s).value
  {
    var m := Mean(s).value;
    if forall i :: 0 <= i < |s| ==> s[i] < m {
      SumBelow(s, m);
      assert false;
    }
  }

  /** The mean is at most the largest value. */
  lemma MeanAtMostMax(s: seq<real>)
    requires |s| > 0
    ensures Mean(s).value <= Max(s)
  {
    var total, n, m := Sum(s), |s| as real, Max(s);
    SumAtMost(s, m);
    DivideAtMost(total, n, m);
    assert Mean(s) == Some(total / n);
  }

  lemma DivideAtMost(a: real, n: real, m: real)
    requires n > 0.0 && a <= n * m
    ensures a / n <= m
  {
    var q := a / n;
    assert q * n == a;
    if q > m {
      assert q * n > m * n;
    }
  }

  /** `Math.max(...s)` of a non-empty series. */
  function Max(s: seq<real>): (r: real)
    requires |s| > 0
    ensures r in s
    ensures forall i :: 0 <= i < |s| ==> s[i] <= r
  {
    if |s| == 1 then s[0]
    else
      var m := Max(s[1..]);
      if s[0] >= m then s[0] else m
  }

  /** `Math.min(...s)` of a non-empty series. */
  function Min(s: seq<real>): (r: real)
    requires |s| > 0
    ensures r in s
    ensures forall i :: 0 <= i < |s| ==> r <= s[i]
  {
    if |s| == 1 then s[0]
    else
      var m := Min(s[1..]);
      if s[0] <= m then s[0] else m
  }

  /** `s.indexOf(x)`: the first index holding `x`, or `|s|` (standing for -1) when there is none. */
  function IndexOf(s: seq<real>, x: real): (r: nat)
    ensures r <= |s|
    ensures r < |s| ==> s[r] == x
    ensures forall j :: 0 <= j < r ==> s[j] != x
  {
    if s == [] then 0 else if s[0] == x then 0 else 1 + IndexOf(s[1..], x)
  }

  /** `s.filter(v => v < t).length`. */
  function CountLess(s: seq<real>, t: real): (r: nat)
    ensures r <= |s|
  {
    if s == [] then 0 else (if s[0] < t then 1 else 0) + CountLess(s[1..], t)
  }

  /** `s.filter(v => v >= t).length`. */
  function CountAtLeast(s: seq<real>, t: real): (r: nat)
    ensures r <= |s|
  {
    if s == [] then 0 else (if s[0] >= t then 1 else 0) + CountAtLeast(s[1..], t)
  }

  /** `s.filter(v => v > t).length`. */
  function CountGreater(s: seq<real>, t: real): (r: nat)
    ensures r <= |s|
  {
    if s == [] then 0 else (if s[0] > t then 1 else 0) + CountGreater(s[1..], t)
  }

  /** Every value is either below `t` or at least `t`: the two counts add up to the length. */
  lemma {:induction false} CountLessPlusAtLeast(s: seq<real>, t: real)
    ensures CountLess(s, t) + CountAtLeast(s, t) == |s|
  {
    if s != [] {
      CountLessPlusAtLeast(s[1..], t);
    }
  }

  /** A series holding a value at least `t` has fewer than `|s|` values below `t`. */
  lemma {:induction false} CountLessMissesWitness(s: seq<real>, t: real, k: nat)
    requires k < |s| && s[k] >= t
    ensures CountLess(s, t) < |s|
  {
    if k > 0 {
      CountLessMissesWitness(s[1..], t, k - 1);
    }
  }

  /** The count of values above `t` does not grow as `t` grows. */
  lemma {:induction false} CountGreaterAntitone(s: seq<real>, t: real, u: real)
    requires t <= u
    ensures CountGreater(s, u) <= CountGreater(s, t)
  {
    if s != [] {
      CountGreaterAntitone(s[1..], t, u);
    }
  }

  /** Raising `t` past a value of the series lowers the count of values above it. */
  lemma {:induction false} CountGreaterDrops(s: seq<real>, t: real, u: real, k: nat)
    requires t < u && k < |s| && t < s[k] <= u
    ensures CountGreater(s, u) < CountGreater(s, t)
  {
    if k == 0 {
      CountGreaterAntitone(s[1..], t, u);
    } else {
      CountGreaterDrops(s[1..], t, u, k - 1);
    }
  }

  /** No value is above itself, so fewer than `|s|` values are above a value of the series. */
  lemma {:induction false} CountGreaterThanMember(s: seq<real>, k: nat)
    requires k < |s|
    ensures CountGreater(s, s[k]) < |s|
  {
    if k > 0 {
      CountGreaterThanMember(s[1..], k - 1);
    } else {
      assert CountGreater(s[1..], s[0]) <= |s| - 1;
    }
  }
}
