/** `simulate_trades` of the first copy (scripts/backtest_strategy.py): a
    unit-based simulation that walks the rows, trades a fixed number of units
    of each metal on every long or short signal, liquidates on a flat signal,
    and records the portfolio value of every row. */
module Trades {
  import opened Common

  /** The defaults of `simulate_trades`. */
  const DefaultGoldUnits: real := 1.0
  const DefaultSilverUnits: real := 1.0
  const DefaultCash: real := 100000.0

  /** The three cells `simulate_trades` reads from a row. */
  datatype Row = Row(signal: int, goldPrice: real, silverPrice: real)

  /** Cash and the units held of each metal. */
  datatype Book = Book(cash: real, gold: real, silver: real)

  /** The trade one row's signal makes: +1 buys gold and sells silver, -1
      the opposite, 0 sells everything held at the row's prices, and any
      other signal does nothing. */
  function Trade(b: Book, row: Row, goldUnits: real, silverUnits: real): (r: Book)
  {
    if row.signal == 1 then
      Book(b.cash - row.goldPrice * goldUnits + row.silverPrice * silverUnits,
           b.gold + goldUnits, b.silver - silverUnits)
    else if row.signal == -1 then
      Book(b.cash + row.goldPrice * goldUnits - row.silverPrice * silverUnits,
           b.gold - goldUnits, b.silver + silverUnits)
    else if row.signal == 0 then
      Book(b.cash + b.gold * row.goldPrice + b.silver * row.silverPrice, 0.0, 0.0)
    else b
  }

  /** The three trading branches of `Trade`, each spelled out: the
      definition unfolded for the loop's proof, not a property of its own. */
  lemma TradeCases(b: Book, row: Row, goldUnits: real, silverUnits: real)
    ensures row.signal == 1 ==>
      Trade(b, row, goldUnits, silverUnits)
      == Book(b.cash - row.goldPrice * goldUnits + row.silverPrice * silverUnits, b.gold + goldUnits, b.silver - silverUnits)
    ensures row.signal == -1 ==>
      Trade(b, row, goldUnits, silverUnits)
      == Book(b.cash + row.goldPrice * goldUnits - row.silverPrice * silverUnits, b.gold - goldUnits, b.silver + silverUnits)
    ensures row.signal == 0 ==>
      Trade(b, row, goldUnits, silverUnits)
      == Book(b.cash + b.gold * row.goldPrice + b.silver * row.silverPrice, 0.0, 0.0)
    ensures row.signal !in {-1, 0, 1} ==> Trade(b, row, goldUnits, silverUnits) == b
  {
  }

  /** Cash plus both holdings marked at the row's prices. */
  function Value(b: Book, row: Row): real {
    b.cash + b.gold * row.goldPrice + b.silver * row.silverPrice
  }

  /** What a trade does to the holdings alone: the definition unfolded for
      the proofs about lots below. */
  lemma TradeHoldings(b: Book, row: Row, goldUnits: real, silverUnits: real)
    ensures Trade(b, row, goldUnits, silverUnits).gold
      == if row.signal == 1 then b.gold + goldUnits
         else if row.signal == -1 then b.gold - goldUnits
         else if row.signal == 0 then 0.0
         else b.gold
    ensures Trade(b, row, goldUnits, silverUnits).silver
      == if row.signal == 1 then b.silver - silverUnits
         else if row.signal == -1 then b.silver + silverUnits
         else if row.signal == 0 then 0.0
         else b.silver
  {
  }

  /** The definition of `Value` unfolded, for the loop's proof. */
  lemma ValueOfBook(cash: real, gold: real, silver: real, row: Row)
    ensures Value(Book(cash, gold, silver), row) == cash + gold * row.goldPrice + silver * row.silverPrice
  {
  }

  /** The book after trading every row of `rows`, starting from `cash` and no metal. */
  function BookAfter(rows: seq<Row>, goldUnits: real, silverUnits: real, cash: real): (b: Book)
    ensures rows == [] ==> b == Book(cash, 0.0, 0.0)
  {
    if rows == [] then Book(cash, 0.0, 0.0)
    else Trade(BookAfter(rows[..|rows| - 1], goldUnits, silverUnits, cash), rows[|rows| - 1], goldUnits, silverUnits)
  }

  /** The `portfolio_values` list: one value per row, taken after the row's trade. */
  function PortfolioValues(rows: seq<Row>, goldUnits: real, silverUnits: real, cash: real): (v: seq<real>)
    ensures |v| == |rows|
  {
    if rows == [] then []
    else PortfolioValues(rows[..|rows| - 1], goldUnits, silverUnits, cash)
         + [Value(BookAfter(rows, goldUnits, silverUnits, cash), rows[|rows| - 1])]
  }

  /** One more row of the loop: the recursive cases of `BookAfter` and
      `PortfolioValues` read at a prefix, unfolded for the loop's proof and
      not a property of their own. */
  lemma NextRow(rows: seq<Row>, goldUnits: real, silverUnits: real, cash: real, i: nat)
    requires i < |rows|
    ensures BookAfter(rows[..i + 1], goldUnits, silverUnits, cash)
         == Trade(BookAfter(rows[..i], goldUnits, silverUnits, cash), rows[i], goldUnits, silverUnits)
    ensures PortfolioValues(rows[..i + 1], goldUnits, silverUnits, cash)
         == PortfolioValues(rows[..i], goldUnits, silverUnits, cash)
            + [Value(BookAfter(rows[..i + 1], goldUnits, silverUnits, cash), rows[i])]
  {
    assert rows[..i + 1][..i] == rows[..i];
  }

  /** `simulate_trades`. With no rows the loop never binds `portfolio_value`,
      and the closing report of the final value raises UnboundLocalError. */
  method SimulateTrades(rows: seq<Row>, goldUnits: real, silverUnits: real, cash: real)
    returns (result: Result<seq<real>>)
    ensures |rows| == 0 ==> result == Err(UnboundLocalError)
    ensures |rows| > 0 ==> result == Ok(PortfolioValues(rows, goldUnits, silverUnits, cash))
  {
    var balance := cash;
    var goldPosition := 0.0;
    var silverPosition := 0.0;
    var portfolioValues: seq<real> := [];
    var i := 0;
    while i < |rows|
      invariant 0 <= i <= |rows|
      invariant Book(balance, goldPosition, silverPosition) == BookAfter(rows[..i], goldUnits, silverUnits, cash)
      invariant portfolioValues == PortfolioValues(rows[..i], goldUnits, silverUnits, cash)
    {
      var row := rows[i];
      ghost var before := Book(balance, goldPosition, silverPosition);
      TradeCases(before, row, goldUnits, silverUnits);
      if row.signal == 1 {
        balance := balance - row.goldPrice * goldUnits;
        balance := balance + row.silverPrice * silverUnits;
        goldPosition := goldPosition + goldUnits;
        silverPosition := silverPosition - silverUnits;
      } else if row.signal == -1 {
        balance := balance + row.goldPrice * goldUnits;
        balance := balance - row.silverPrice * silverUnits;
        goldPosition := goldPosition - goldUnits;
        silverPosition := silverPosition + silverUnits;
      } else if row.signal == 0 {
        balance := balance + goldPosition * row.goldPrice;
        balance := balance + silverPosition * row.silverPrice;
        goldPosition := 0.0;
        silverPosition := 0.0;
      }
      assert Book(balance, goldPosition, silverPosition) == Trade(before, row, goldUnits, silverUnits);
      var portfolioValue := balance + goldPosition * row.goldPrice + silverPosition * row.silverPrice;
      ValueOfBook(balance, goldPosition, silverPosition, row);
      NextRow(rows, goldUnits, silverUnits, cash, i);
      portfolioValues := portfolioValues + [portfolioValue];
      i := i + 1;
    }
    assert rows[..|rows|] == rows;
    if |rows| == 0 {
      result := Err(UnboundLocalError);
    } else {
      result := Ok(portfolioValues);
    }
  }

  /** The lot count after one signal: one more lot long, one more lot
      short, none, or unchanged. */
  function LotsAfter(lots: real, signal: int): real {
    if signal == 1 then lots + 1.0
    else if signal == -1 then lots - 1.0
    else if signal == 0 then 0.0
    else lots
  }

  /** Lots held after `rows`: +1 per long signal and -1 per short signal
      since the last flat signal. */
  function NetLots(rows: seq<Row>): real {
    if rows == [] then 0.0
    else LotsAfter(NetLots(rows[..|rows| - 1]), rows[|rows| - 1].signal)
  }

  /** The book holds `lots` lots: `lots` gold units long against `lots`
      silver units short. */
  predicate HoldsLots(b: Book, lots: real, goldUnits: real, silverUnits: real) {
    b.gold == lots * goldUnits && -b.silver == lots * silverUnits
  }

  /** A book holding whole lots still holds whole lots after one trade. */
  lemma TradeKeepsLots(b: Book, row: Row, lots: real, goldUnits: real, silverUnits: real)
    requires HoldsLots(b, lots, goldUnits, silverUnits)
    ensures HoldsLots(Trade(b, row, goldUnits, silverUnits), LotsAfter(lots, row.signal), goldUnits, silverUnits)
  {
    TradeHoldings(b, row, goldUnits, silverUnits);
    var next := LotsAfter(lots, row.signal);
    if row.signal == 1 {
      assert next * goldUnits == lots * goldUnits + goldUnits;
      assert next * silverUnits == lots * silverUnits + silverUnits;
    } else if row.signal == -1 {
      assert next * goldUnits == lots * goldUnits - goldUnits;
      assert next * silverUnits == lots * silverUnits - silverUnits;
    } else if row.signal == 0 {
      assert next * goldUnits == 0.0;
      assert next * silverUnits == 0.0;
    }
  }

  /** The holdings after `rows` are `NetLots(rows)` lots. */
  lemma {:induction false} HoldingsAreLots(rows: seq<Row>, goldUnits: real, silverUnits: real, cash: real)
    ensures HoldsLots(BookAfter(rows, goldUnits, silverUnits, cash), NetLots(rows), goldUnits, silverUnits)
  {
    if rows != [] {
      var init := rows[..|rows| - 1];
      HoldingsAreLots(init, goldUnits, silverUnits, cash);
      TradeKeepsLots(BookAfter(init, goldUnits, silverUnits, cash), rows[|rows| - 1], NetLots(init), goldUnits, silverUnits);
    }
  }

  /** A flat signal closes both legs, whatever was held before it. */
  lemma FlatSignalCloses(rows: seq<Row>, goldUnits: real, silverUnits: real, cash: real)
    requires rows != [] && rows[|rows| - 1].signal == 0
    ensures NetLots(rows) == 0.0
    ensures BookAfter(rows, goldUnits, silverUnits, cash).gold == 0.0
    ensures BookAfter(rows, goldUnits, silverUnits, cash).silver == 0.0
  {
    var init := rows[..|rows| - 1];
    TradeHoldings(BookAfter(init, goldUnits, silverUnits, cash), rows[|rows| - 1], goldUnits, silverUnits);
  }

  /** Gold and silver held, each weighted by the other's unit size, cancel. */
  predicate Hedged(b: Book, goldUnits: real, silverUnits: real) {
    b.gold * silverUnits + b.silver * goldUnits == 0.0
  }

  lemma HedgeOfLots(b: Book, lots: real, goldUnits: real, silverUnits: real)
    requires HoldsLots(b, lots, goldUnits, silverUnits)
    ensures Hedged(b, goldUnits, silverUnits)
  {
    assert b.gold * silverUnits == lots * goldUnits * silverUnits;
    assert -b.silver * goldUnits == lots * silverUnits * goldUnits;
  }

  /** The holdings stay hedged: gold and silver weighted by each other's
      unit size cancel. */
  lemma HoldingsHedged(rows: seq<Row>, goldUnits: real, silverUnits: real, cash: real)
    ensures Hedged(BookAfter(rows, goldUnits, silverUnits, cash), goldUnits, silverUnits)
  {
    HoldingsAreLots(rows, goldUnits, silverUnits, cash);
    HedgeOfLots(BookAfter(rows, goldUnits, silverUnits, cash), NetLots(rows), goldUnits, silverUnits);
  }

  /** A trade swaps cash for metal at the row's own prices, so it leaves the
      value of the book at those prices unchanged. */
  lemma TradeIsValueNeutral(b: Book, row: Row, goldUnits: real, silverUnits: real)
    ensures Value(Trade(b, row, goldUnits, silverUnits), row) == Value(b, row)
  {
  }

  lemma {:induction false} PortfolioValuesPrefix(rows: seq<Row>, goldUnits: real, silverUnits: real, cash: real, k: nat)
    requires k <= |rows|
    ensures PortfolioValues(rows, goldUnits, silverUnits, cash)[..k] == PortfolioValues(rows[..k], goldUnits, silverUnits, cash)
  {
    if k < |rows| {
      var init := rows[..|rows| - 1];
      PortfolioValuesPrefix(init, goldUnits, silverUnits, cash, k);
      assert init[..k] == rows[..k];
    } else {
      assert rows[..k] == rows;
    }
  }

  /** Each recorded value is the book carried into the row, marked at the
      row's prices; in particular the first value is the starting cash. */
  lemma ValueOfCarriedBook(rows: seq<Row>, goldUnits: real, silverUnits: real, cash: real, t: nat)
    requires t < |rows|
    ensures PortfolioValues(rows, goldUnits, silverUnits, cash)[t]
         == Value(BookAfter(rows[..t], goldUnits, silverUnits, cash), rows[t])
    ensures t == 0 ==> PortfolioValues(rows, goldUnits, silverUnits, cash)[t] == cash
  {
    PortfolioValuesPrefix(rows, goldUnits, silverUnits, cash, t + 1);
    var prefix := rows[..t + 1];
    assert prefix[..t] == rows[..t];
    assert PortfolioValues(rows, goldUnits, silverUnits, cash)[t]
        == PortfolioValues(prefix, goldUnits, silverUnits, cash)[t];
    TradeIsValueNeutral(BookAfter(rows[..t], goldUnits, silverUnits, cash), rows[t], goldUnits, silverUnits);
  }

  /** Marking one book at two rows' prices differs by the holdings times
      the price moves. */
  predicate GainIsPriceMove(value: real, nextValue: real, b: Book, row: Row, next: Row) {
    nextValue - value == b.gold * (next.goldPrice - row.goldPrice) + b.silver * (next.silverPrice - row.silverPrice)
  }

  lemma RevalueBook(b: Book, row: Row, next: Row)
    ensures GainIsPriceMove(Value(b, row), Value(b, next), b, row, next)
  {
  }

  /** The carried book after row t: trading it at row t's prices did not
      change its value at those prices. */
  lemma CarriedValue(rows: seq<Row>, goldUnits: real, silverUnits: real, cash: real, t: nat)
    requires t < |rows|
    ensures PortfolioValues(rows, goldUnits, silverUnits, cash)[t]
         == Value(BookAfter(rows[..t + 1], goldUnits, silverUnits, cash), rows[t])
  {
    PortfolioValuesPrefix(rows, goldUnits, silverUnits, cash, t + 1);
    var prefix := rows[..t + 1];
    assert PortfolioValues(rows, goldUnits, silverUnits, cash)[t]
        == PortfolioValues(prefix, goldUnits, silverUnits, cash)[t];
  }

  /** From one row to the next the portfolio gains exactly what the holdings
      carried between them gain from the price moves. */
  lemma ValueChangeIsPriceMove(rows: seq<Row>, goldUnits: real, silverUnits: real, cash: real, t: nat)
    requires t + 1 < |rows|
    ensures var v := PortfolioValues(rows, goldUnits, silverUnits, cash);
      GainIsPriceMove(v[t], v[t + 1], BookAfter(rows[..t + 1], goldUnits, silverUnits, cash), rows[t], rows[t + 1])
  {
    CarriedValue(rows, goldUnits, silverUnits, cash, t);
    ValueOfCarriedBook(rows, goldUnits, silverUnits, cash, t + 1);
    RevalueBook(BookAfter(rows[..t + 1], goldUnits, silverUnits, cash), rows[t], rows[t + 1]);
  }

  /** Each long signal in a run adds one lot. */
  lemma {:induction false} LongSignalsAddLots(rows: seq<Row>, i: nat, j: nat)
    requires i <= j <= |rows|
    requires forall k :: i <= k < j ==> rows[k].signal == 1
    ensures NetLots(rows[..j]) == NetLots(rows[..i]) + (j - i) as real
  {
    if i < j {
      LongSignalsAddLots(rows, i, j - 1);
      assert rows[..j][..j - 1] == rows[..j - 1];
    }
  }

  /** `later` holds `lots` more gold unit lots than `earlier`. */
  predicate GoldLotsAdded(later: Book, earlier: Book, lots: real, goldUnits: real) {
    later.gold - earlier.gold == lots * goldUnits
  }

  lemma LotsDifference(later: Book, earlier: Book, lots: real, earlierLots: real, d: real, goldUnits: real, silverUnits: real)
    requires HoldsLots(later, lots, goldUnits, silverUnits) && HoldsLots(earlier, earlierLots, goldUnits, silverUnits)
    requires lots == earlierLots + d
    ensures GoldLotsAdded(later, earlier, d, goldUnits)
  {
  }

  /** Repeated long signals keep buying another lot each, rather than
      holding one target position: after a run of long signals the gold held
      has grown by one unit lot per row of the run. */
  lemma LongSignalsAccumulate(rows: seq<Row>, goldUnits: real, silverUnits: real, cash: real, i: nat, j: nat)
    requires i <= j <= |rows|
    requires forall k :: i <= k < j ==> rows[k].signal == 1
    ensures GoldLotsAdded(BookAfter(rows[..j], goldUnits, silverUnits, cash), BookAfter(rows[..i], goldUnits, silverUnits, cash),
                          (j - i) as real, goldUnits)
  {
    LongSignalsAddLots(rows, i, j);
    HoldingsAreLots(rows[..j], goldUnits, silverUnits, cash);
    HoldingsAreLots(rows[..i], goldUnits, silverUnits, cash);
    LotsDifference(BookAfter(rows[..j], goldUnits, silverUnits, cash), BookAfter(rows[..i], goldUnits, silverUnits, cash),
                   NetLots(rows[..j]), NetLots(rows[..i]), (j - i) as real, goldUnits, silverUnits);
  }

  /** With the default unit sizes and cash: going long at gold 2000 and
      silver 25 leaves the value at 100000, and closing at gold 2010 books the
      gold leg's gain of 10 (silver did not move). */
  lemma DefaultsExample()
    ensures PortfolioValues([Row(1, 2000.0, 25.0), Row(0, 2010.0, 25.0)], DefaultGoldUnits, DefaultSilverUnits, DefaultCash)
         == [100000.0, 100010.0]
  {
    var rows := [Row(1, 2000.0, 25.0), Row(0, 2010.0, 25.0)];
    assert rows[..1] == [rows[0]] && rows[..1][..0] == [] && rows[..2] == rows;
    assert BookAfter(rows[..1], DefaultGoldUnits, DefaultSilverUnits, DefaultCash) == Book(98025.0, 1.0, -1.0);
    assert BookAfter(rows, DefaultGoldUnits, DefaultSilverUnits, DefaultCash) == Book(100010.0, 0.0, 0.0);
  }
}
