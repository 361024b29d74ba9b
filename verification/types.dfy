/** The records the converter reads from the QScalp decoder and the records
    it hands to the SAT storage, reduced to the fields the converter touches. */
module QshTypes {

  // ---------------------------------------------------------------------
  // Time
  // ---------------------------------------------------------------------

  /** .NET `DateTime` ticks (100 ns) per day. */
  const TicksPerDay: int := 864_000_000_000

  /** `DateTime.MaxValue.Ticks`, also the decoder's end-of-stream sentinel. */
  const MaxTicks: int := 3_155_378_975_999_999_999

  /** The day number of `DateTime.MaxValue`, `MaxTicks / TicksPerDay`
      (`DateOf` checks it). */
  const MaxDay: int := 3_652_058

  /** A `DateTime`, as its tick count. */
  type Ticks = t: int | 0 <= t <= MaxTicks

  /** `DateTime.Date`, as a day number. */
  function DateOf(t: Ticks): (d: int)
    ensures 0 <= d <= MaxDay
  {
    t / TicksPerDay
  }

  /** A candle timeframe (`TimeSpan`), as its tick count. */
  type TimeFrame = int

  // ---------------------------------------------------------------------
  // Instruments
  // ---------------------------------------------------------------------

  /** The decoder's instrument descriptor (`QScalp.Security`); `step` is the
      price increment, taken as an exact number. A null `AuxCode` is the
      empty string here. */
  datatype QSecurity = QSecurity(id: int, ticker: string, auxCode: string, cName: string, step: real)

  datatype SecurityType = Futures | Options

  /** The storage's instrument record (`SAT.Trading.Security`). */
  datatype Security = Security(id: int, symbol: string, name: string, secType: SecurityType, tick: real)

  // ---------------------------------------------------------------------
  // Deals and trades
  // ---------------------------------------------------------------------

  /** Direction of a raw deal as the decoder reports it. */
  datatype DealType = Unknown | Buy | Sell

  /** Aggressor side of a stored trade. */
  datatype AggressorSide = None | Buy | Sell

  /** A raw deal: `price` counts price steps. */
  datatype DealEntry = DealEntry(id: int, price: int, volume: int, dateTime: Ticks, dealType: DealType)

  /** A stored trade; `price` is in currency units. */
  datatype Trade = Trade(id: int, price: real, volume: int, time: Ticks, security: Security, aggressor: AggressorSide)

  // ---------------------------------------------------------------------
  // Order log
  // ---------------------------------------------------------------------

  /** The single-bit flags of a raw order-log entry. A flag mask is the set
      of its bits; `Other(bit)` stands for every bit the converter never
      inspects. */
  datatype OrdLogFlags = Add | Fill | Buy | Sell | Snapshot | NonSystem | Other(bit: nat)

  /** The semantic states of a stored order-log record. */
  datatype OrderLogStates = NonSystem | Add | Fill | Buy | Sell

  /** A raw order-log entry as the decoder reports it. */
  datatype OrdLogEntry = OrdLogEntry(
    flags: set<OrdLogFlags>,
    dateTime: Ticks,
    orderId: int,
    price: int,
    amount: int,
    amountRest: int,
    dealId: int,
    dealPrice: int)

  /** The order-log record fed to the order-book reconstructor. */
  datatype OrderLog = OrderLog(
    states: set<OrderLogStates>,
    time: Ticks,
    orderId: int,
    price: int,
    volume: int,
    volumeRest: int,
    tradeId: int,
    tradePrice: int)

  // ---------------------------------------------------------------------
  // Decoded files
  // ---------------------------------------------------------------------

  /** The capability of one sub-stream of a `.qsh` file. */
  datatype StreamKind = OrdLogStream | DealsStream | OtherStream

  datatype QshStream = QshStream(kind: StreamKind, security: QSecurity)

  datatype RawEvent = DealEvent(deal: DealEntry) | OrdLogEvent(entry: OrdLogEntry) | OtherEvent

  /** One event the decoder delivers, tagged with the index of its sub-stream. */
  datatype TaggedEvent = TaggedEvent(stream: int, event: RawEvent)

  /** What the decoder does with one file: whether opening it throws, its
      sub-streams, the events it delivers in reading order, and whether
      reading stops with an exception after those events. */
  datatype QshFile = QshFile(openFails: bool, streams: seq<QshStream>, events: seq<TaggedEvent>, readFails: bool)

  /** The kind of data a converter is configured for. `AuxInfo` stands for
      every kind other than the three the converter names. */
  datatype SourceDataType = OrderLog | Deals | Quotes | AuxInfo

  // ---------------------------------------------------------------------
  // Sequences of sequences
  // ---------------------------------------------------------------------

  /** The concatenation of a sequence of lists, in order. */
  function Flatten<T>(parts: seq<seq<T>>): seq<T>
  {
    if |parts| == 0 then [] else Flatten(parts[..|parts| - 1]) + parts[|parts| - 1]
  }

  lemma {:induction false} FlattenAppend<T>(a: seq<seq<T>>, b: seq<seq<T>>)
    ensures Flatten(a + b) == Flatten(a) + Flatten(b)
    decreases |b|
  {
    if |b| == 0 {
      assert a + b == a;
    } else {
      var b' := b[..|b| - 1];
      assert (a + b)[..|a + b| - 1] == a + b';
      FlattenAppend(a, b');
    }
  }

  lemma FlattenSingle<T>(x: seq<T>)
    ensures Flatten([x]) == x
  {
    assert [x][..0] == [];
  }
}
