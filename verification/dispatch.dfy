/** The save loop of `ConvertPart`: every day list with more than one trade
    is saved, then turned into candles for every configured timeframe, and
    then cleared. Storage and the candle builder are external; the model
    records the calls made to them. */
module Dispatch {
  import opened QshTypes

  /** One call into storage: `SaveTrades` is `Storage.Save(list, sec)`;
      `SaveCandles` is `Storage.Save(candles, tf, sec)` for the candles a
      `CandleBuilder(tf)` builds from `trades`. */
  datatype StorageCall =
    | SaveTrades(trades: seq<Trade>, security: Security)
    | SaveCandles(trades: seq<Trade>, timeFrame: TimeFrame, security: Security)

  /** The candle saves for one list, one per timeframe in order. */
  function CandleCalls(list: seq<Trade>, timeFrames: seq<TimeFrame>, sec: Security): (calls: seq<StorageCall>)
    ensures |calls| == |timeFrames|
    ensures forall j :: 0 <= j < |calls| ==> calls[j] == SaveCandles(list, timeFrames[j], sec)
  {
    if |timeFrames| == 0 then []
    else CandleCalls(list, timeFrames[..|timeFrames| - 1], sec) + [SaveCandles(list, timeFrames[|timeFrames| - 1], sec)]
  }

  /** The calls made for one day list. */
  function ListCalls(list: seq<Trade>, timeFrames: seq<TimeFrame>): (calls: seq<StorageCall>)
    // lists of zero or one trade are never saved
    ensures |list| <= 1 <==> calls == []
    // otherwise: one trade save, then one candle save per timeframe in
    // order, all keyed by the instrument of the first trade
    ensures |list| > 1 ==>
              |calls| == 1 + |timeFrames|
              && calls[0] == SaveTrades(list, list[0].security)
              && forall j :: 1 <= j < |calls| ==>
                   calls[j] == SaveCandles(list, timeFrames[j - 1], list[0].security)
  {
    if |list| > 1 then [SaveTrades(list, list[0].security)] + CandleCalls(list, timeFrames, list[0].security)
    else []
  }

  /** The calls made for the day lists of one file, list after list. */
  function DispatchCalls(parts: seq<seq<Trade>>, timeFrames: seq<TimeFrame>): (calls: seq<StorageCall>)
    // storage is not touched exactly when no list has more than one trade
    ensures calls == [] <==> forall i :: 0 <= i < |parts| ==> |parts[i]| <= 1
  {
    if |parts| == 0 then []
    else DispatchCalls(parts[..|parts| - 1], timeFrames) + ListCalls(parts[|parts| - 1], timeFrames)
  }

  /** The body of the save loop for one list, as written: the list is
      saved, then one candle save per timeframe follows. */
  method SaveList(list: seq<Trade>, timeFrames: seq<TimeFrame>) returns (calls: seq<StorageCall>)
    ensures calls == ListCalls(list, timeFrames)
  {
    calls := [];
    if |list| > 1 {
      var sec := list[0].security;
      calls := [SaveTrades(list, sec)];
      for j := 0 to |timeFrames|
        invariant calls == [SaveTrades(list, sec)] + CandleCalls(list, timeFrames[..j], sec)
      {
        assert timeFrames[..j + 1][..j] == timeFrames[..j];
        calls := calls + [SaveCandles(list, timeFrames[j], sec)];
      }
      assert timeFrames[..|timeFrames|] == timeFrames;
    }
  }

  /** The save loop as written: saves the lists in order and clears every
      list it saved. */
  method DispatchAll(parts: seq<seq<Trade>>, timeFrames: seq<TimeFrame>) returns (calls: seq<StorageCall>, after: seq<seq<Trade>>)
    ensures calls == DispatchCalls(parts, timeFrames)
    ensures |after| == |parts|
    ensures forall i :: 0 <= i < |parts| ==> after[i] == (if |parts[i]| > 1 then [] else parts[i])
  {
    calls := [];
    after := parts;
    for i := 0 to |parts|
      invariant calls == DispatchCalls(parts[..i], timeFrames)
      invariant |after| == |parts|
      invariant forall k :: 0 <= k < i ==> after[k] == (if |parts[k]| > 1 then [] else parts[k])
      invariant forall k :: i <= k < |parts| ==> after[k] == parts[k]
    {
      assert parts[..i + 1][..i] == parts[..i];
      var listCalls := SaveList(parts[i], timeFrames);
      calls := calls + listCalls;
      if |parts[i]| > 1 {
        after := after[i := []];
      }
    }
    assert parts[..|parts|] == parts;
  }

  // ---------------------------------------------------------------------
  // What a file's calls contain
  // ---------------------------------------------------------------------

  /** The lists that are saved: those with more than one trade, in order. */
  function SavedLists(parts: seq<seq<Trade>>): (saved: seq<seq<Trade>>)
    ensures forall l :: l in saved <==> l in parts && |l| > 1
  {
    if |parts| == 0 then []
    else
      var last := parts[|parts| - 1];
      SavedLists(parts[..|parts| - 1]) + (if |last| > 1 then [last] else [])
  }

  /** The trade lists handed to `SaveTrades`, in call order. */
  function TradeSaves(calls: seq<StorageCall>): seq<seq<Trade>>
  {
    if |calls| == 0 then []
    else
      var c := calls[|calls| - 1];
      TradeSaves(calls[..|calls| - 1]) + (if c.SaveTrades? then [c.trades] else [])
  }

  lemma {:induction false} TradeSavesAppend(a: seq<StorageCall>, b: seq<StorageCall>)
    ensures TradeSaves(a + b) == TradeSaves(a) + TradeSaves(b)
    decreases |b|
  {
    if |b| == 0 {
      assert a + b == a;
    } else {
      var b' := b[..|b| - 1];
      assert (a + b)[..|a + b| - 1] == a + b';
      TradeSavesAppend(a, b');
    }
  }

  lemma {:induction false} NoTradeSavesAmongCandles(list: seq<Trade>, timeFrames: seq<TimeFrame>, sec: Security)
    ensures TradeSaves(CandleCalls(list, timeFrames, sec)) == []
    decreases |timeFrames|
  {
    if |timeFrames| > 0 {
      var init := timeFrames[..|timeFrames| - 1];
      NoTradeSavesAmongCandles(list, init, sec);
      TradeSavesAppend(CandleCalls(list, init, sec), [SaveCandles(list, timeFrames[|timeFrames| - 1], sec)]);
    }
  }

  /** Exactly the lists with more than one trade are saved, each once and in
      order, whatever the timeframes. */
  lemma {:induction false} DispatchSavesBigLists(parts: seq<seq<Trade>>, timeFrames: seq<TimeFrame>)
    ensures TradeSaves(DispatchCalls(parts, timeFrames)) == SavedLists(parts)
    decreases |parts|
  {
    if |parts| > 0 {
      var init := parts[..|parts| - 1];
      var last := parts[|parts| - 1];
      DispatchSavesBigLists(init, timeFrames);
      TradeSavesAppend(DispatchCalls(init, timeFrames), ListCalls(last, timeFrames));
      if |last| > 1 {
        TradeSavesAppend([SaveTrades(last, last[0].security)], CandleCalls(last, timeFrames, last[0].security));
        NoTradeSavesAmongCandles(last, timeFrames, last[0].security);
        assert TradeSaves([SaveTrades(last, last[0].security)]) == [last];
      }
    }
  }

  /** Every call is keyed by the instrument of the first trade of the list
      it saves, and that list has more than one trade. */
  lemma {:induction false} DispatchCallsKeyedByFirstTrade(parts: seq<seq<Trade>>, timeFrames: seq<TimeFrame>)
    ensures forall c :: c in DispatchCalls(parts, timeFrames) ==>
              |c.trades| > 1 && c.security == c.trades[0].security
    decreases |parts|
  {
    if |parts| > 0 {
      DispatchCallsKeyedByFirstTrade(parts[..|parts| - 1], timeFrames);
    }
  }
}
