/**
 * `get_statistics`: the smallest, the largest and the mean of a list of
 * durations, shown by the clock screen after a comparison with the NTP
 * servers. Durations are exact reals here, not `double`.
 */
module Stats {

  datatype Statistics = Statistics(min: real, max: real, avg: real)

  /** The total of the values, added from the front as the loop does. */
  function Sum(s: seq<real>): real {
    if |s| == 0 then 0.0 else Sum(s[..|s| - 1]) + s[|s| - 1]
  }

  /** The arithmetic mean of a non-empty list. */
  function Mean(s: seq<real>): real
    requires |s| > 0
  {
    Sum(s) / |s| as real
  }

  /**
   * `get_statistics(values)`: all zero for no values; otherwise the minimum
   * and the maximum are values of the list bounding every value, and the
   * average is the total over the count.
   */
  method GetStatistics(values: seq<real>) returns (r: Statistics)
    ensures |values| == 0 ==> r == Statistics(0.0, 0.0, 0.0)
    ensures |values| > 0 ==> r.min in values && r.max in values
    ensures forall i :: 0 <= i < |values| ==> r.min <= values[i] <= r.max
    ensures |values| > 0 ==> r.avg == Mean(values)
    ensures r.min <= r.avg <= r.max
  {
    r := Statistics(0.0, 0.0, 0.0);
    if |values| == 0 {
      return;
    }
    var lo, hi, total := values[0], values[0], 0.0;
    var i := 0;
    while i < |values|
      invariant 0 <= i <= |values|
      invariant lo in values && hi in values
      invariant lo <= values[0] <= hi
      invariant forall k :: 0 <= k < i ==> lo <= values[k] <= hi
      invariant total == Sum(values[..i])
    {
      var x := values[i];
      lo := if x < lo then x else lo;
      hi := if hi < x then x else hi;
      total := total + x;
      assert values[..i + 1][..i] == values[..i];
      i := i + 1;
    }
    assert values[..i] == values;
    MeanBetween(values, lo, hi);
    r := Statistics(lo, hi, total / |values| as real);
  }

  /** Values between lo and hi add up to between n·lo and n·hi. */
  lemma {:induction false} SumBetween(s: seq<real>, lo: real, hi: real)
    requires forall i :: 0 <= i < |s| ==> lo <= s[i] <= hi
    ensures |s| as real * lo <= Sum(s) <= |s| as real * hi
  {
    if |s| > 0 {
      var init := s[..|s| - 1];
      assert forall i :: 0 <= i < |init| ==> init[i] == s[i];
      SumBetween(init, lo, hi);
    }
  }

  /** The mean of values between lo and hi lies between lo and hi. */
  lemma MeanBetween(s: seq<real>, lo: real, hi: real)
    requires |s| > 0
    requires forall i :: 0 <= i < |s| ==> lo <= s[i] <= hi
    ensures lo <= Mean(s) <= hi
  {
    SumBetween(s, lo, hi);
    var n := |s| as real;
    assert n * lo <= Sum(s) <= n * hi;
    assert Sum(s) / n >= lo by {
      assert Sum(s) / n * n == Sum(s);
    }
    assert Sum(s) / n <= hi by {
      assert Sum(s) / n * n == Sum(s);
    }
  }
}
