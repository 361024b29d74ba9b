/** The progress counter of `QshConverter.Progress`, called under the lock
    after every file that converts without an exception. `_count`,
    `_total` and `_percent` are C# `int` fields: the increment and the
    multiplication by 100 wrap around at 32 bits, and `/` truncates. */
module ProgressTracker {

  const Int32Min: int := -0x8000_0000
  const Int32Max: int := 0x7FFF_FFFF

  /** The largest total for which `_count * 100` cannot overflow while
      `_count <= _total`. */
  const MaxSafeTotal: int := 21_474_836

  /** Two's-complement wrap-around of an `int` result. */
  function Wrap32(x: int): (r: int)
    ensures Int32Min <= r <= Int32Max
    ensures Int32Min <= x <= Int32Max ==> r == x
    // the result differs from the exact value by a multiple of 2^32
    ensures (r - x) % 0x1_0000_0000 == 0
  {
    var m := x % 0x1_0000_0000;
    if m > Int32Max then m - 0x1_0000_0000 else m
  }

  /** C# integer division by a positive divisor: the quotient is truncated
      toward zero. */
  function TruncDiv(a: int, b: int): (q: int)
    requires b > 0
    ensures a >= 0 ==> q == a / b
    ensures a < 0 ==> q == -((-a) / b)
  {
    if a >= 0 then a / b else -((-a) / b)
  }

  /** The counter fields. `total` is the number of files of the run. */
  datatype ProgressState = ProgressState(count: int, total: nat, percent: int)

  /** What one call tells its observers: nothing, a percentage (the
      `TotalProgress` event; the remaining-time estimate is not modelled),
      or an exception caught inside the tracker (the `Exception` event). */
  datatype Report = Silent | Percent(value: int) | TrackerError

  datatype ProgressStep = ProgressStep(state: ProgressState, report: Report)

  /** The converter's state before its first run. */
  function Fresh(): (s: ProgressState)
    ensures s.count == 0 && s.percent == 0
  {
    ProgressState(0, 0, 0)
  }

  /** The percentage the tracker is meant to show for `count` of `total`
      files. */
  ghost function PercentOf(count: int, total: int): int
    requires total > 0
  {
    count * 100 / total
  }

  /** One call of `Progress`: increment the count, recompute the percent,
      and report it when it is positive and differs from the last one. A
      zero total makes the division throw; the exception is caught and
      reported after the increment has happened. */
  function Progress(s: ProgressState): (r: ProgressStep)
    ensures r.state.count == Wrap32(s.count + 1) && r.state.total == s.total
    ensures s.total == 0 <==> r.report == TrackerError
    ensures r.report.Percent? ==>
              r.state.percent == r.report.value && r.report.value > 0 && r.report.value != s.percent
    ensures !r.report.Percent? ==> r.state.percent == s.percent
    // without overflow, a report is due exactly when the percentage moved
    ensures s.total > 0 && 0 <= s.count && (s.count + 1) * 100 <= Int32Max ==>
              (r.report.Percent? <==>
                 PercentOf(s.count + 1, s.total) > 0 && PercentOf(s.count + 1, s.total) != s.percent)
              && (r.report.Percent? ==> r.report.value == PercentOf(s.count + 1, s.total))
    // in general the percentage is that of the wrapped count, multiplied
    // with wrap-around and divided with truncation
    ensures s.total > 0 ==>
              var p := TruncDiv(Wrap32(Wrap32(s.count + 1) * 100), s.total);
              && (r.report.Percent? <==> p > 0 && p != s.percent)
              && (r.report.Percent? ==> r.report.value == p)
  {
    var count := Wrap32(s.count + 1);
    if s.total == 0 then
      ProgressStep(s.(count := count), TrackerError)
    else
      var percent := TruncDiv(Wrap32(count * 100), s.total);
      if percent > 0 && percent != s.percent then
        ProgressStep(s.(count := count, percent := percent), Percent(percent))
      else
        ProgressStep(s.(count := count), Silent)
  }

  /** The counters are not reset between runs, so a reused tracker can
      show 100% while files of its run are still to come, and can count
      past its total: after a run of three files with one failure, the
      first success of the next three-file run shows 100%, and one more
      shows 133%. */
  lemma ReusedTrackerOvershoots()
    ensures Progress(ProgressState(2, 3, 66)).report == Percent(100)
    ensures Progress(ProgressState(3, 3, 100)).report == Percent(133)
  {
    assert Wrap32(3) == 3 && Wrap32(300) == 300 && TruncDiv(300, 3) == 100;
    assert Wrap32(4) == 4 && Wrap32(400) == 400 && TruncDiv(400, 3) == 133;
  }

  // ---------------------------------------------------------------------
  // Runs of a fresh tracker
  // ---------------------------------------------------------------------

  /** The state the tracker keeps between calls in a run that started from
      zero: the last shown percentage is the percentage of the count. */
  ghost predicate Consistent(s: ProgressState)
  {
    0 < s.total <= MaxSafeTotal && 0 <= s.count <= s.total && s.percent == PercentOf(s.count, s.total)
  }

  lemma MulMonotone(a: int, b: int, c: int)
    requires a <= b && c >= 0
    ensures a * c <= b * c
  {
  }

  /** A quotient is below `k` exactly when the dividend is below `k`
      divisors. */
  lemma QuotientBelow(a: int, d: int, k: int)
    requires a >= 0 && d > 0
    ensures a / d < k <==> a < k * d
  {
    var q := a / d;
    assert q * d <= a < (q + 1) * d;
    if q < k {
      MulMonotone(q + 1, k, d);
    } else {
      MulMonotone(k, q, d);
    }
  }

  lemma PercentBounds(count: int, total: int)
    requires 0 <= count <= total && total > 0
    ensures 0 <= PercentOf(count, total) <= 100
    ensures PercentOf(count, total) == 100 <==> count == total
  {
    QuotientBelow(count * 100, total, 101);
    QuotientBelow(count * 100, total, 100);
  }

  lemma PercentMonotone(a: int, b: int, total: int)
    requires 0 <= a <= b && total > 0
    ensures PercentOf(a, total) <= PercentOf(b, total)
  {
    var q := PercentOf(b, total);
    QuotientBelow(b * 100, total, q + 1);
    MulMonotone(a, b, 100);
    QuotientBelow(a * 100, total, q + 1);
  }

  /** On a consistent state nothing overflows: the count goes up by one
      and the shown percentage becomes the percentage of the new count,
      which is never smaller. */
  lemma ProgressTracksPercent(s: ProgressState)
    requires Consistent(s) && s.count < s.total
    ensures Progress(s).state.count == s.count + 1
    ensures Progress(s).state.percent == PercentOf(s.count + 1, s.total)
    ensures s.percent <= Progress(s).state.percent
  {
    var c := s.count + 1;
    NoOverflowBelowSafeTotal(c);
    PercentMonotone(s.count, c, s.total);
    PercentNonNegative(s.count, s.total);
    var r := Progress(s);
    assert r.state.count == c;
    if !r.report.Percent? {
      assert PercentOf(c, s.total) <= 0 || PercentOf(c, s.total) == s.percent;
    }
  }

  /** Counts up to `MaxSafeTotal` can be multiplied by 100 without
      overflow. */
  lemma NoOverflowBelowSafeTotal(c: int)
    requires 0 <= c <= MaxSafeTotal
    ensures c * 100 <= Int32Max
  {
    MulMonotone(c, MaxSafeTotal, 100);
  }

  lemma PercentNonNegative(count: int, total: int)
    requires count >= 0 && total > 0
    ensures PercentOf(count, total) >= 0
  {
    MulMonotone(0, count, 100);
  }

  /** A call on a consistent state keeps it consistent, and whatever it
      reports is a strictly larger percentage of at most 100. */
  lemma ProgressKeepsConsistent(s: ProgressState)
    requires Consistent(s) && s.count < s.total
    ensures Consistent(Progress(s).state)
    ensures Progress(s).state.count == s.count + 1
    ensures Progress(s).report != TrackerError
    ensures Progress(s).report.Percent? ==> s.percent < Progress(s).report.value <= 100
  {
    ProgressTracksPercent(s);
    PercentBounds(s.count + 1, s.total);
  }

  /** The tracker at the start of a run of `total` files on a new converter. */
  lemma FreshIsConsistent(total: nat)
    requires 0 < total <= MaxSafeTotal
    ensures Consistent(Fresh().(total := total))
  {
  }
}
