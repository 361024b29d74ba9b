/** The day partitioner of `OrdLogReader`: the `NewTick` callback appends
    every tick the reconstructor emits to the current (last) list, and first
    opens a new list when the tick's date is strictly later than the date of
    the last trade already in the current list. */
module DayPartition {
  import opened QshTypes

  /** The date the callback compares a new tick with: the date of the last
      trade of the current list. For an empty list the callback compares
      with `DateTime.MaxValue` itself; no tick's date is later than that
      value, nor than its date, so the date of `DateTime.MaxValue` stands in
      for it and the first tick of an empty list never opens a new one. */
  function LastDate(list: seq<Trade>): (d: int)
    ensures |list| == 0 ==> d == MaxDay
    ensures |list| > 0 ==> d == DateOf(list[|list| - 1].time)
  {
    var last: Ticks := if |list| > 0 then list[|list| - 1].time else MaxTicks;
    DateOf(last)
  }

  /** One `NewTick` callback. */
  function AddTick(parts: seq<seq<Trade>>, tick: Trade): (r: seq<seq<Trade>>)
    requires |parts| > 0
    ensures Flatten(r) == Flatten(parts) + [tick]
    ensures |r| == |parts| + 1 <==> DateOf(tick.time) > LastDate(parts[|parts| - 1])
    ensures |r| == |parts| || |r| == |parts| + 1
    // the lists before the current one are never touched
    ensures r[..|parts| - 1] == parts[..|parts| - 1]
    // a later date opens a new list holding only the tick; otherwise the
    // tick joins the current list
    ensures DateOf(tick.time) > LastDate(parts[|parts| - 1]) ==> r == parts + [[tick]]
    ensures DateOf(tick.time) <= LastDate(parts[|parts| - 1]) ==>
              r == parts[..|parts| - 1] + [parts[|parts| - 1] + [tick]]
  {
    var current := parts[|parts| - 1];
    if DateOf(tick.time) > LastDate(current) then
      assert (parts + [[tick]])[..|parts|] == parts;
      FlattenSingle([tick]);
      parts + [[tick]]
    else
      var r := parts[..|parts| - 1] + [current + [tick]];
      assert r[..|parts| - 1] == parts[..|parts| - 1];
      assert parts == parts[..|parts| - 1] + [current];
      r
  }

  /** The lists `OrdLogReader` returns for the ticks emitted in this order:
      it starts from one empty list and applies `AddTick` to every tick. */
  function Partition(ticks: seq<Trade>): (r: seq<seq<Trade>>)
    ensures |r| >= 1
    ensures Flatten(r) == ticks
  {
    if |ticks| == 0 then
      FlattenSingle<Trade>([]);
      [[]]
    else
      var init := ticks[..|ticks| - 1];
      assert init + [ticks[|ticks| - 1]] == ticks;
      AddTick(Partition(init), ticks[|ticks| - 1])
  }

  // ---------------------------------------------------------------------
  // An independent description of the partition
  // ---------------------------------------------------------------------

  /** Inside one list the date never strictly increases from one trade to
      the next. */
  ghost predicate NoDayBreakWithin(list: seq<Trade>)
  {
    forall j, k {:trigger list[j], list[k]} :: 0 <= j && k == j + 1 && k < |list| ==>
      DateOf(list[k].time) <= DateOf(list[j].time)
  }

  /** Each list after the first starts with a trade whose date is strictly
      later than the date of the last trade of the list before it. */
  ghost predicate DayBreakBetween(parts: seq<seq<Trade>>)
  {
    forall h, i {:trigger parts[h], parts[i]} :: 0 <= h && i == h + 1 && i < |parts| && |parts[h]| > 0 && |parts[i]| > 0 ==>
      DateOf(parts[i][0].time) > DateOf(parts[h][|parts[h]| - 1].time)
  }

  /** `parts` cuts `ticks`, in order, exactly at the places where the date
      strictly increases: at least one list, no empty list unless there are
      no ticks at all (then there is exactly one, empty, list). */
  ghost predicate IsDaySplit(parts: seq<seq<Trade>>, ticks: seq<Trade>)
  {
    && |parts| >= 1
    && Flatten(parts) == ticks
    && (|ticks| == 0 ==> |parts| == 1)
    && (|ticks| > 0 ==> forall i :: 0 <= i < |parts| ==> |parts[i]| > 0)
    && (forall i :: 0 <= i < |parts| ==> NoDayBreakWithin(parts[i]))
    && DayBreakBetween(parts)
  }

  /** One callback keeps a day split a day split: the three cases are
      the first tick, a tick that opens a new day and a tick that joins the
      current list. */
  lemma AddTickKeepsDaySplit(p: seq<seq<Trade>>, ticks: seq<Trade>, t: Trade)
    requires IsDaySplit(p, ticks)
    ensures IsDaySplit(AddTick(p, t), ticks + [t])
  {
    if |ticks| == 0 {
      FirstTickKeepsDaySplit(p, ticks, t);
    } else if DateOf(t.time) > LastDate(p[|p| - 1]) {
      NewDayKeepsDaySplit(p, ticks, t);
    } else {
      SameListKeepsDaySplit(p, ticks, t);
    }
  }

  lemma FirstTickKeepsDaySplit(p: seq<seq<Trade>>, ticks: seq<Trade>, t: Trade)
    requires IsDaySplit(p, ticks)
    requires |ticks| == 0
    ensures IsDaySplit(AddTick(p, t), ticks + [t])
  {
    assert Flatten(p) == Flatten(p[..0]) + p[0];
    assert p == [[]];
    assert AddTick(p, t) == [[] + [t]];
  }

  lemma NewDayKeepsDaySplit(p: seq<seq<Trade>>, ticks: seq<Trade>, t: Trade)
    requires IsDaySplit(p, ticks)
    requires |ticks| > 0
    requires DateOf(t.time) > LastDate(p[|p| - 1])
    ensures IsDaySplit(AddTick(p, t), ticks + [t])
  {
    var r := AddTick(p, t);
    assert r == p + [[t]];
    assert forall i :: 0 <= i < |p| ==> r[i] == p[i];
  }

  lemma SameListKeepsDaySplit(p: seq<seq<Trade>>, ticks: seq<Trade>, t: Trade)
    requires IsDaySplit(p, ticks)
    requires |ticks| > 0
    requires DateOf(t.time) <= LastDate(p[|p| - 1])
    ensures IsDaySplit(AddTick(p, t), ticks + [t])
  {
    var n := |p|;
    var current := p[n - 1];
    var r := AddTick(p, t);
    var last := current + [t];
    assert r == p[..n - 1] + [last];
    assert forall i :: 0 <= i < n - 1 ==> r[i] == p[i];
    assert NoDayBreakWithin(last) by {
      assert NoDayBreakWithin(current);
      forall j, k | 0 <= j && k == j + 1 && k < |last|
        ensures DateOf(last[k].time) <= DateOf(last[j].time)
      {
        if k < |current| {
          assert last[j] == current[j] && last[k] == current[k];
        }
      }
    }
    assert last[0] == current[0];
  }

  /** The partition the callback builds is a day split of its input. */
  lemma {:induction false} PartitionIsDaySplit(ticks: seq<Trade>)
    ensures IsDaySplit(Partition(ticks), ticks)
    decreases |ticks|
  {
    if |ticks| == 0 {
      FlattenSingle<Trade>([]);
    } else {
      var init := ticks[..|ticks| - 1];
      var t := ticks[|ticks| - 1];
      PartitionIsDaySplit(init);
      AddTickKeepsDaySplit(Partition(init), init, t);
      assert init + [t] == ticks;
    }
  }

  /** Taking the last tick back out of a day split leaves a day split of the
      earlier ticks from which the callback rebuilds the original. */
  lemma RemoveLastTick(parts: seq<seq<Trade>>, ticks: seq<Trade>) returns (s: seq<seq<Trade>>)
    requires IsDaySplit(parts, ticks)
    requires |ticks| > 0
    ensures IsDaySplit(s, ticks[..|ticks| - 1])
    ensures AddTick(s, ticks[|ticks| - 1]) == parts
  {
    var n := |parts|;
    var last := parts[n - 1];
    assert Flatten(parts) == Flatten(parts[..n - 1]) + last;
    assert |last| > 0;
    if |last| > 1 {
      s := RemoveFromLongList(parts, ticks);
    } else if n > 1 {
      s := RemoveSingletonList(parts, ticks);
    } else {
      s := [[]];
      assert Flatten(parts[..0]) == [];
      assert ticks == last;
      assert parts == [last];
      assert last == [ticks[0]];
      assert ticks[..|ticks| - 1] == [];
      FlattenSingle<Trade>([]);
      assert parts == [[] + [ticks[0]]];
    }
  }

  /** The last tick was alone in a list that is not the first. */
  lemma RemoveSingletonList(parts: seq<seq<Trade>>, ticks: seq<Trade>) returns (s: seq<seq<Trade>>)
    requires IsDaySplit(parts, ticks)
    requires |ticks| > 0 && |parts| > 1 && |parts[|parts| - 1]| == 1
    ensures IsDaySplit(s, ticks[..|ticks| - 1])
    ensures AddTick(s, ticks[|ticks| - 1]) == parts
  {
    var init := ticks[..|ticks| - 1];
    var t := ticks[|ticks| - 1];
    var n := |parts|;
    var last := parts[n - 1];
    s := parts[..n - 1];
    assert Flatten(parts) == Flatten(s) + last;
    assert last == [t];
    assert Flatten(s) == init;
    assert Flatten(s) == Flatten(s[..n - 2]) + s[n - 2];
    assert forall i :: 0 <= i < |s| ==> s[i] == parts[i];
    assert DateOf(parts[n - 1][0].time) > DateOf(parts[n - 2][|parts[n - 2]| - 1].time);
    assert parts == s + [[t]];
  }

  /** The last tick shares its list with earlier ticks. */
  lemma RemoveFromLongList(parts: seq<seq<Trade>>, ticks: seq<Trade>) returns (s: seq<seq<Trade>>)
    requires IsDaySplit(parts, ticks)
    requires |ticks| > 0 && |parts[|parts| - 1]| > 1
    ensures IsDaySplit(s, ticks[..|ticks| - 1])
    ensures AddTick(s, ticks[|ticks| - 1]) == parts
  {
    var n := |parts|;
    var last := parts[n - 1];
    var front := last[..|last| - 1];
    assert Flatten(parts) == Flatten(parts[..n - 1]) + last;
    SplitOffLast(Flatten(parts[..n - 1]), last, ticks);
    s := parts[..n - 1] + [front];
    ShortenLastList(parts, front, ticks[..|ticks| - 1]);
    LastTickJoinsLastList(parts, front, ticks[|ticks| - 1]);
  }

  /** The last element of `before + last` is the last element of `last`. */
  lemma SplitOffLast(before: seq<Trade>, last: seq<Trade>, ticks: seq<Trade>)
    requires ticks == before + last && |last| > 0
    ensures last == last[..|last| - 1] + [ticks[|ticks| - 1]]
    ensures ticks[..|ticks| - 1] == before + last[..|last| - 1]
  {
    var front := last[..|last| - 1];
    assert last == front + [last[|last| - 1]];
    assert ticks == (before + front) + [last[|last| - 1]];
  }

  /** Dropping the last trade of a list of several keeps a day split of the
      earlier ticks. */
  lemma ShortenLastList(parts: seq<seq<Trade>>, front: seq<Trade>, init: seq<Trade>)
    requires |parts| > 0 && IsDaySplit(parts, Flatten(parts))
    requires |front| > 0 && |parts[|parts| - 1]| == |front| + 1 && parts[|parts| - 1][..|front|] == front
    requires Flatten(parts[..|parts| - 1]) + front == init
    ensures IsDaySplit(parts[..|parts| - 1] + [front], init)
  {
    var n := |parts|;
    var last := parts[n - 1];
    var s := parts[..n - 1] + [front];
    assert s[..n - 1] == parts[..n - 1];
    assert Flatten(s) == Flatten(parts[..n - 1]) + front;
    assert forall i :: 0 <= i < n - 1 ==> s[i] == parts[i];
    assert NoDayBreakWithin(front) by {
      assert NoDayBreakWithin(last);
      forall j, k | 0 <= j && k == j + 1 && k < |front|
        ensures DateOf(front[k].time) <= DateOf(front[j].time)
      {
        assert front[j] == last[j] && front[k] == last[k];
      }
    }
    assert s[n - 1][0] == parts[n - 1][0];
  }

  /** A tick no later than the trade before it in its list joins that
      list. */
  lemma LastTickJoinsLastList(parts: seq<seq<Trade>>, front: seq<Trade>, t: Trade)
    requires |parts| > 0 && |front| > 0
    requires NoDayBreakWithin(parts[|parts| - 1])
    requires parts[|parts| - 1] == front + [t]
    ensures AddTick(parts[..|parts| - 1] + [front], t) == parts
  {
    var n := |parts|;
    var last := parts[n - 1];
    var s := parts[..n - 1] + [front];
    assert last[|last| - 1] == t && last[|last| - 2] == front[|front| - 1];
    assert DateOf(t.time) <= DateOf(front[|front| - 1].time);
    assert s[n - 1] == front;
    assert s[..n - 1] == parts[..n - 1];
    assert parts == parts[..n - 1] + [front + [t]];
  }

  /** The day split of a tick sequence is unique, so it is exactly what the
      callback builds. */
  lemma {:induction false} DaySplitIsPartition(parts: seq<seq<Trade>>, ticks: seq<Trade>)
    requires IsDaySplit(parts, ticks)
    ensures parts == Partition(ticks)
    decreases |ticks|
  {
    if |ticks| == 0 {
      assert Flatten(parts) == Flatten(parts[..0]) + parts[0];
      assert parts == [[]];
    } else {
      var s := RemoveLastTick(parts, ticks);
      DaySplitIsPartition(s, ticks[..|ticks| - 1]);
    }
  }

  // ---------------------------------------------------------------------
  // Time-ordered input
  // ---------------------------------------------------------------------

  /** The dates of the ticks never decrease. */
  ghost predicate DatesNonDecreasing(ticks: seq<Trade>)
  {
    forall j, k {:trigger ticks[j], ticks[k]} :: 0 <= j && k == j + 1 && k < |ticks| ==>
      DateOf(ticks[j].time) <= DateOf(ticks[k].time)
  }

  /** Every trade of the list has the date of its first trade. */
  ghost predicate SingleDay(list: seq<Trade>)
  {
    forall j :: 0 <= j < |list| ==> DateOf(list[j].time) == DateOf(list[0].time)
  }

  /** No list is empty, each list holds one date, and the dates strictly
      increase from list to list, so no date is split over two lists. */
  ghost predicate OneListPerDay(parts: seq<seq<Trade>>)
  {
    && (forall i :: 0 <= i < |parts| ==> |parts[i]| > 0 && SingleDay(parts[i]))
    && (forall i, k :: 0 <= i < k < |parts| ==> DateOf(parts[i][0].time) < DateOf(parts[k][0].time))
  }

  /** For time-ordered input the callback builds one list per day. */
  lemma {:induction false} OrderedInputGivesOneListPerDay(ticks: seq<Trade>)
    requires |ticks| > 0
    requires DatesNonDecreasing(ticks)
    ensures OneListPerDay(Partition(ticks))
    decreases |ticks|
  {
    var init := ticks[..|ticks| - 1];
    var t := ticks[|ticks| - 1];
    if |init| == 0 {
      SingleTickIsOneList(ticks);
    } else {
      PrefixNonDecreasing(ticks);
      OrderedInputGivesOneListPerDay(init);
      assert init[|init| - 1] == ticks[|ticks| - 2];
      AddLaterTickKeepsOneListPerDay(Partition(init), init, t);
      assert Partition(ticks) == AddTick(Partition(init), t);
    }
  }

  lemma SingleTickIsOneList(ticks: seq<Trade>)
    requires |ticks| == 1
    ensures OneListPerDay(Partition(ticks))
  {
    PartitionOfOne(ticks);
    FirstTickJoinsEmptyList(ticks[0]);
    OneTickIsOneDay(ticks[0]);
  }

  lemma PartitionOfOne(ticks: seq<Trade>)
    requires |ticks| == 1
    ensures Partition(ticks) == AddTick([[]], ticks[0])
  {
    assert ticks[..0] == [];
  }

  lemma OneTickIsOneDay(t: Trade)
    ensures OneListPerDay([[t]])
  {
  }

  /** The very first tick never opens a new list: the callback compares it
      with `DateTime.MaxValue`, and no date is later than that. */
  lemma FirstTickJoinsEmptyList(t: Trade)
    ensures AddTick([[]], t) == [[t]]
  {
    var p: seq<seq<Trade>> := [[]];
    var r := AddTick(p, t);
    assert LastDate(p[0]) == MaxDay;
    assert |r| == 1;
    FlattenSingle<Trade>([]);
    assert Flatten(r) == Flatten(r[..0]) + r[0];
    assert r[0] == [t];
  }

  lemma PrefixNonDecreasing(ticks: seq<Trade>)
    requires |ticks| > 0 && DatesNonDecreasing(ticks)
    ensures DatesNonDecreasing(ticks[..|ticks| - 1])
    ensures |ticks| > 1 ==> DateOf(ticks[|ticks| - 2].time) <= DateOf(ticks[|ticks| - 1].time)
  {
    var init := ticks[..|ticks| - 1];
    forall j, k | 0 <= j && k == j + 1 && k < |init|
      ensures DateOf(init[j].time) <= DateOf(init[k].time)
    {
      assert init[j] == ticks[j] && init[k] == ticks[k];
    }
  }

  /** A tick no earlier than every tick before it keeps one list per day. */
  lemma AddLaterTickKeepsOneListPerDay(p: seq<seq<Trade>>, ticks: seq<Trade>, t: Trade)
    requires OneListPerDay(p) && |p| > 0
    requires Flatten(p) == ticks && |ticks| > 0
    requires DateOf(ticks[|ticks| - 1].time) <= DateOf(t.time)
    ensures OneListPerDay(AddTick(p, t))
  {
    var n := |p|;
    var current := p[n - 1];
    // the last tick handled is the last trade of the current list
    assert Flatten(p) == Flatten(p[..n - 1]) + current;
    assert current[|current| - 1] == ticks[|ticks| - 1];
    assert DateOf(current[|current| - 1].time) == DateOf(current[0].time);
    if DateOf(t.time) > LastDate(current) {
      NewDayKeepsOneListPerDay(p, t);
    } else {
      SameDayKeepsOneListPerDay(p, t);
    }
  }

  lemma NewDayKeepsOneListPerDay(p: seq<seq<Trade>>, t: Trade)
    requires OneListPerDay(p) && |p| > 0
    requires DateOf(t.time) > DateOf(p[|p| - 1][0].time)
    requires DateOf(t.time) > LastDate(p[|p| - 1])
    ensures OneListPerDay(AddTick(p, t))
  {
    var r := AddTick(p, t);
    assert r == p + [[t]];
    assert forall i :: 0 <= i < |p| ==> r[i] == p[i];
  }

  lemma SameDayKeepsOneListPerDay(p: seq<seq<Trade>>, t: Trade)
    requires OneListPerDay(p) && |p| > 0
    requires DateOf(t.time) == DateOf(p[|p| - 1][0].time)
    requires DateOf(t.time) <= LastDate(p[|p| - 1])
    ensures OneListPerDay(AddTick(p, t))
  {
    var n := |p|;
    var current := p[n - 1];
    var r := AddTick(p, t);
    var last := current + [t];
    assert r == p[..n - 1] + [last];
    assert forall i :: 0 <= i < n - 1 ==> r[i] == p[i];
    assert SingleDay(last) by {
      forall j | 0 <= j < |last|
        ensures DateOf(last[j].time) == DateOf(last[0].time)
      {
        if j < |current| {
          assert last[j] == current[j];
        }
      }
    }
    assert r[n - 1][0] == current[0];
  }
}
