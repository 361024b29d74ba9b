/** Field-by-field mapping of decoder records onto storage records:
    `SecurityConverter`, `DealTypeConverter`, the deal handler of
    `DealsReader` and `OrdLogConverter`. */
module RecordMapping {
  import opened QshTypes

  /** Ordinal `string.EndsWith`. */
  predicate EndsWith(s: string, suffix: string)
  {
    |suffix| <= |s| && s[|s| - |suffix|..] == suffix
  }

  // ---------------------------------------------------------------------
  // Instruments
  // ---------------------------------------------------------------------

  /** The storage instrument for a decoder instrument. The category is
      read off the ticker's suffix; the display name is the auxiliary code
      and the short name joined by a dash, or the short name alone when
      there is no auxiliary code. */
  function SecurityConverter(q: QSecurity): (r: Security)
    ensures r.secType == Options <==> EndsWith(q.ticker, "TOM") || EndsWith(q.ticker, "TOD")
    ensures r.id == q.id && r.symbol == q.ticker && r.tick == q.step
    // the short name always ends the display name ...
    ensures |q.cName| <= |r.name| && r.name[|r.name| - |q.cName|..] == q.cName
    // ... preceded by the auxiliary code and a dash exactly when there is one
    ensures |q.auxCode| == 0 ==> r.name == q.cName
    ensures |q.auxCode| > 0 ==>
              |r.name| == |q.auxCode| + 1 + |q.cName|
              && r.name[..|q.auxCode|] == q.auxCode
              && r.name[|q.auxCode|] == '-'
  {
    var secType := if EndsWith(q.ticker, "TOM") || EndsWith(q.ticker, "TOD") then Options else Futures;
    var name := if |q.auxCode| > 0 then q.auxCode + "-" + q.cName else q.cName;
    Security(q.id, q.ticker, name, secType, q.step)
  }

  /** The category depends on the last three characters of the ticker only,
      and a ticker shorter than three characters is always a future. */
  lemma SecurityTypeBySuffix(a: QSecurity, b: QSecurity)
    requires |a.ticker| >= 3 && |b.ticker| >= 3
    requires a.ticker[|a.ticker| - 3..] == b.ticker[|b.ticker| - 3..]
    ensures SecurityConverter(a).secType == SecurityConverter(b).secType
  {
  }

  lemma ShortTickerIsFutures(q: QSecurity)
    requires |q.ticker| < 3
    ensures SecurityConverter(q).secType == Futures
  {
  }

  // ---------------------------------------------------------------------
  // Deals
  // ---------------------------------------------------------------------

  /** The aggressor side of a raw deal direction; every direction other
      than buy and sell has no aggressor. */
  function DealTypeConverter(t: DealType): (side: AggressorSide)
    ensures side == AggressorSide.Buy <==> t == DealType.Buy
    ensures side == AggressorSide.Sell <==> t == DealType.Sell
    ensures side == AggressorSide.None <==> t != DealType.Buy && t != DealType.Sell
  {
    if t == DealType.Buy then AggressorSide.Buy
    else if t == DealType.Sell then AggressorSide.Sell
    else AggressorSide.None
  }

  /** The trade the deal handler builds from one raw deal of a stream whose
      instrument is `sec` and whose price step is `step`. */
  function DealToTrade(d: DealEntry, sec: Security, step: real): (t: Trade)
    ensures t.price == d.price as real * step
    ensures t.id == d.id && t.volume == d.volume && t.time == d.dateTime
    ensures t.security == sec
    ensures t.aggressor == DealTypeConverter(d.dealType)
  {
    Trade(d.id, d.price as real * step, d.volume, d.dateTime, sec, DealTypeConverter(d.dealType))
  }

  /** The price is scaled by the step exactly once: dividing by a non-zero
      step gives back the raw step count. */
  lemma DealPriceScaledOnce(d: DealEntry, sec: Security, step: real)
    requires step != 0.0
    ensures DealToTrade(d, sec, step).price / step == d.price as real
  {
  }

  // ---------------------------------------------------------------------
  // Order log
  // ---------------------------------------------------------------------

  /** The order-log record fed to the reconstructor for one raw entry. */
  function OrdLogConverter(ol: OrdLogEntry): (r: OrderLog)
    ensures OrderLogStates.NonSystem in r.states <==>
              OrdLogFlags.NonSystem in ol.flags || OrdLogFlags.Snapshot in ol.flags
    ensures OrderLogStates.Add in r.states <==> OrdLogFlags.Add in ol.flags
    ensures OrderLogStates.Fill in r.states <==> OrdLogFlags.Fill in ol.flags
    ensures OrderLogStates.Buy in r.states <==> OrdLogFlags.Buy in ol.flags
    ensures OrderLogStates.Sell in r.states <==> OrdLogFlags.Sell in ol.flags
    ensures r.time == ol.dateTime && r.orderId == ol.orderId && r.price == ol.price
    ensures r.volume == ol.amount && r.volumeRest == ol.amountRest
    ensures r.tradeId == ol.dealId && r.tradePrice == ol.dealPrice
  {
    var states :=
      (if OrdLogFlags.NonSystem in ol.flags || OrdLogFlags.Snapshot in ol.flags then {OrderLogStates.NonSystem} else {})
      + (if OrdLogFlags.Add in ol.flags then {OrderLogStates.Add} else {})
      + (if OrdLogFlags.Fill in ol.flags then {OrderLogStates.Fill} else {})
      + (if OrdLogFlags.Buy in ol.flags then {OrderLogStates.Buy} else {})
      + (if OrdLogFlags.Sell in ol.flags then {OrderLogStates.Sell} else {});
    OrderLog.OrderLog(states, ol.dateTime, ol.orderId, ol.price, ol.amount, ol.amountRest, ol.dealId, ol.dealPrice)
  }

  /** Setting more flags never removes a state, and flags the converter
      does not inspect never change the states. */
  lemma OrdLogStatesMonotone(a: OrdLogEntry, b: OrdLogEntry)
    requires a.flags <= b.flags
    ensures OrdLogConverter(a).states <= OrdLogConverter(b).states
  {
  }

  lemma OrdLogStatesIgnoreOtherFlags(ol: OrdLogEntry, bit: nat)
    ensures OrdLogConverter(ol.(flags := ol.flags + {OrdLogFlags.Other(bit)})).states == OrdLogConverter(ol).states
  {
  }
}
