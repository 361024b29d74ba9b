/** The two per-file readers of `QshConverter`: `OrdLogReader`, which feeds
    the first order-log stream into the order-book reconstructor and
    partitions the trades it emits by day, and `DealsReader`, which turns
    the deals of every deals stream into trades. */
module Readers {
  import opened Wrappers
  import opened QshTypes
  import opened RecordMapping
  import opened DayPartition

  /** The order-book reconstructor (`OrderLogToMarketDepth`) built for one
      instrument: the trades it emits, in order, for the order-log records
      fed to it in order. */
  type Reconstructor = (Security, seq<OrderLog>) -> seq<Trade>

  // ---------------------------------------------------------------------
  // Order log
  // ---------------------------------------------------------------------

  /** The stream search of `OrdLogReader`: the index of the first
      order-log stream at or after `from`, if any. */
  function FirstOrdLogStream(streams: seq<QshStream>, from: nat): (r: Option<nat>)
    requires from <= |streams|
    ensures r.Some? ==> from <= r.value < |streams| && streams[r.value].kind == OrdLogStream
    ensures r.Some? ==> forall j :: from <= j < r.value ==> streams[j].kind != OrdLogStream
    ensures r.None? <==> forall j :: from <= j < |streams| ==> streams[j].kind != OrdLogStream
    decreases |streams| - from
  {
    if from == |streams| then Option.None
    else if streams[from].kind == OrdLogStream then Some(from)
    else FirstOrdLogStream(streams, from + 1)
  }

  /** The records the handler of stream `index` feeds to the reconstructor:
      the order-log entries of that stream, converted, in reading order.
      Events of other streams have no handler. */
  function OrdLogFeed(events: seq<TaggedEvent>, index: int): (feed: seq<OrderLog>)
    ensures |feed| <= |events|
    // nothing is fed exactly when no delivered event is an order-log entry
    // of the stream
    ensures feed == [] <==>
              forall k :: 0 <= k < |events| ==> !(events[k].stream == index && events[k].event.OrdLogEvent?)
  {
    if |events| == 0 then []
    else
      var e := events[|events| - 1];
      OrdLogFeed(events[..|events| - 1], index)
        + (if e.stream == index && e.event.OrdLogEvent? then [OrdLogConverter(e.event.entry)] else [])
  }

  /** A single delivered event feeds its converted entry exactly when it is
      an order-log entry of the stream, and nothing otherwise. */
  lemma OrdLogFeedOne(e: TaggedEvent, index: int)
    ensures OrdLogFeed([e], index) ==
              if e.stream == index && e.event.OrdLogEvent? then [OrdLogConverter(e.event.entry)] else []
  {
    assert [e][..0] == [];
  }

  /** The feed only ever grows as the decoder delivers more events. */
  lemma {:induction false} OrdLogFeedAppend(a: seq<TaggedEvent>, b: seq<TaggedEvent>, index: int)
    ensures OrdLogFeed(a + b, index) == OrdLogFeed(a, index) + OrdLogFeed(b, index)
    decreases |b|
  {
    if |b| == 0 {
      assert a + b == a;
    } else {
      var b' := b[..|b| - 1];
      assert (a + b)[..|a + b| - 1] == a + b';
      OrdLogFeedAppend(a, b', index);
    }
  }

  /** The day lists of one order-log file. Opening the file and reading it
      may throw; the exception leaves the reader. A file without an
      order-log stream is not read at all and gives one empty list. */
  function OrdLogReader(file: QshFile, reconstruct: Reconstructor): (r: Outcome<seq<seq<Trade>>>)
    ensures file.openFails ==> r.Failed?
    ensures !file.openFails && FirstOrdLogStream(file.streams, 0).None? ==> r == Ok([[]])
    ensures FirstOrdLogStream(file.streams, 0).Some? ==> (r.Failed? <==> file.openFails || file.readFails)
    ensures r.Ok? && FirstOrdLogStream(file.streams, 0).Some? ==>
              var index := FirstOrdLogStream(file.streams, 0).value;
              var security := SecurityConverter(file.streams[index].security);
              IsDaySplit(r.value, reconstruct(security, OrdLogFeed(file.events, index)))
  {
    if file.openFails then Failed
    else
      match FirstOrdLogStream(file.streams, 0)
      case None => Ok([[]])
      case Some(index) =>
        if file.readFails then Failed
        else
          var security := SecurityConverter(file.streams[index].security);
          var ticks := reconstruct(security, OrdLogFeed(file.events, index));
          PartitionIsDaySplit(ticks);
          Ok(Partition(ticks))
  }

  // ---------------------------------------------------------------------
  // Deals
  // ---------------------------------------------------------------------

  /** The stream loop of `DealsReader` gets past every stream (registering
      a handler on each) only when every stream is a deals stream; at the
      first other stream it returns before anything is read. */
  predicate AllDealsStreams(streams: seq<QshStream>)
  {
    forall j :: 0 <= j < |streams| ==> streams[j].kind == DealsStream
  }

  /** The trade a deals-stream handler appends for one delivered event, if
      the event is a deal of a stream with a handler. */
  function DealTrade(streams: seq<QshStream>, e: TaggedEvent): (t: Option<Trade>)
    ensures t.Some? <==> 0 <= e.stream < |streams| && e.event.DealEvent?
    ensures t.Some? ==>
              var q := streams[e.stream].security;
              t.value == DealToTrade(e.event.deal, SecurityConverter(q), q.step)
  {
    if 0 <= e.stream < |streams| && e.event.DealEvent? then
      var q := streams[e.stream].security;
      Some(DealToTrade(e.event.deal, SecurityConverter(q), q.step))
    else Option.None
  }

  /** The deals among the delivered events, in reading order. */
  function DeliveredDeals(streams: seq<QshStream>, events: seq<TaggedEvent>): (ds: seq<TaggedEvent>)
    ensures forall k :: 0 <= k < |ds| ==> ds[k] in events && DealTrade(streams, ds[k]).Some?
  {
    if |events| == 0 then []
    else
      var e := events[|events| - 1];
      DeliveredDeals(streams, events[..|events| - 1])
        + (if DealTrade(streams, e).Some? then [e] else [])
  }

  /** The list the handlers build while the decoder delivers `events`. */
  function CollectTrades(streams: seq<QshStream>, events: seq<TaggedEvent>): (trades: seq<Trade>)
    ensures |trades| == |DeliveredDeals(streams, events)|
    ensures forall k :: 0 <= k < |trades| ==>
              Some(trades[k]) == DealTrade(streams, DeliveredDeals(streams, events)[k])
  {
    if |events| == 0 then []
    else
      var init := events[..|events| - 1];
      var e := events[|events| - 1];
      var earlier := CollectTrades(streams, init);
      match DealTrade(streams, e)
      case None => earlier
      case Some(t) => earlier + [t]
  }

  /** The trades of one deals file. Opening the file may throw and the
      exception leaves the reader; an exception while reading is swallowed
      and the trades collected so far are returned. */
  function DealsReader(file: QshFile): (r: Outcome<seq<Trade>>)
    ensures r.Failed? <==> file.openFails
    ensures r.Ok? && !AllDealsStreams(file.streams) ==> r.value == []
    // one trade per delivered deal, in reading order, whether or not
    // reading ended with an exception
    ensures r.Ok? && AllDealsStreams(file.streams) ==>
              var deals := DeliveredDeals(file.streams, file.events);
              |r.value| == |deals|
              && forall k :: 0 <= k < |deals| ==> Some(r.value[k]) == DealTrade(file.streams, deals[k])
  {
    if file.openFails then Failed
    else if !AllDealsStreams(file.streams) then Ok([])
    else Ok(CollectTrades(file.streams, file.events))
  }

  /** Trades already collected are kept when the decoder delivers more
      events: a read that throws returns a prefix of what a complete read
      would have returned. */
  lemma {:induction false} CollectTradesPrefix(streams: seq<QshStream>, a: seq<TaggedEvent>, b: seq<TaggedEvent>)
    ensures CollectTrades(streams, a) <= CollectTrades(streams, a + b)
    decreases |b|
  {
    if |b| == 0 {
      assert a + b == a;
    } else {
      var b' := b[..|b| - 1];
      assert (a + b)[..|a + b| - 1] == a + b';
      CollectTradesPrefix(streams, a, b');
    }
  }

  lemma DealsReaderIgnoresReadFault(file: QshFile)
    ensures DealsReader(file.(readFails := true)) == DealsReader(file.(readFails := false))
  {
  }
}
