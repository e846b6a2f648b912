/** The portfolio dialog: aggregate value, cost and profit/loss over all
    holdings, the per-holding rows, and the form that adds a holding. */
module PortfolioModal {
  import opened CryptoTypes
  import PortfolioStore

  // ---------------------------------------------------------------------
  // Looking a holding's coin up

  /** coins.find(c => c.id === id): the first coin with that id, if any. */
  function FindCoin(coins: seq<Coin>, id: string): (r: Option<Coin>)
    ensures r.Some? ==> r.value in coins && r.value.id == id
    ensures r.None? <==> forall c :: c in coins ==> c.id != id
    ensures r.Some? ==> exists i :: 0 <= i < |coins| && coins[i] == r.value &&
                          forall j :: 0 <= j < i ==> coins[j].id != id
    decreases |coins|
  {
    if coins == [] then None
    else if coins[0].id == id then Some(coins[0])
    else FindCoin(coins[1..], id)
  }

  // ---------------------------------------------------------------------
  // Aggregates (the two reduce folds and the totals built on them)

  /** What one holding adds to the total value: amount times the price of its
      first matching coin, or nothing when no coin matches. */
  function ValueOf(item: Holding, coins: seq<Coin>): real {
    match FindCoin(coins, item.coinId)
    case Some(coin) => item.amount * coin.currentPrice
    case None => 0.0
  }

  function CostBasis(item: Holding): real {
    item.amount * item.purchasePrice
  }

  /** calculatePortfolioValue: a left fold of ValueOf starting at 0. */
  function PortfolioValue(portfolio: seq<Holding>, coins: seq<Coin>): real
    decreases |portfolio|
  {
    if portfolio == [] then 0.0
    else PortfolioValue(portfolio[..|portfolio| - 1], coins) + ValueOf(portfolio[|portfolio| - 1], coins)
  }

  /** calculateTotalCost: a left fold of CostBasis over every holding,
      matched to a coin or not. */
  function TotalCost(portfolio: seq<Holding>): real
    decreases |portfolio|
  {
    if portfolio == [] then 0.0
    else TotalCost(portfolio[..|portfolio| - 1]) + CostBasis(portfolio[|portfolio| - 1])
  }

  function TotalPnl(portfolio: seq<Holding>, coins: seq<Coin>): real {
    PortfolioValue(portfolio, coins) - TotalCost(portfolio)
  }

  /** The total percentage, guarded against a cost that is not positive. */
  function TotalPnlPercent(portfolio: seq<Holding>, coins: seq<Coin>): real {
    var cost := TotalCost(portfolio);
    if cost > 0.0 then TotalPnl(portfolio, coins) / cost * 100.0 else 0.0
  }

  /** An empty portfolio has every total zero. */
  lemma EmptyPortfolioTotals(coins: seq<Coin>)
    ensures PortfolioValue([], coins) == 0.0 && TotalCost([]) == 0.0
    ensures TotalPnl([], coins) == 0.0 && TotalPnlPercent([], coins) == 0.0
  {
  }

  /** A holding whose coin is not in the listing adds nothing to the value
      but its whole cost basis to the cost, so it lowers the total P&L by its
      cost basis. */
  lemma UnmatchedHoldingCountsOnlyInCost(portfolio: seq<Holding>, item: Holding, coins: seq<Coin>)
    requires forall c :: c in coins ==> c.id != item.coinId
    ensures PortfolioValue(portfolio + [item], coins) == PortfolioValue(portfolio, coins)
    ensures TotalCost(portfolio + [item]) == TotalCost(portfolio) + CostBasis(item)
    ensures TotalPnl(portfolio + [item], coins) == TotalPnl(portfolio, coins) - CostBasis(item)
  {
    assert (portfolio + [item])[..|portfolio + [item]| - 1] == portfolio;
  }

  /** Both folds split over concatenation, so the totals do not depend on
      how the holdings are grouped. */
  lemma {:induction false} TotalsConcat(a: seq<Holding>, b: seq<Holding>, coins: seq<Coin>)
    ensures PortfolioValue(a + b, coins) == PortfolioValue(a, coins) + PortfolioValue(b, coins)
    ensures TotalCost(a + b) == TotalCost(a) + TotalCost(b)
    decreases |b|
  {
    if b == [] {
      assert a + b == a;
    } else {
      var init := b[..|b| - 1];
      TotalsConcat(a, init, coins);
      assert (a + b)[..|a + b| - 1] == a + init;
    }
  }

  /** When the cost is positive, the percentage has the sign of the P&L, so
      the '+' sign and the green colour the dialog shows always agree. */
  lemma TotalPercentSignMatchesPnl(portfolio: seq<Holding>, coins: seq<Coin>)
    ensures TotalCost(portfolio) > 0.0 ==>
              (TotalPnlPercent(portfolio, coins) >= 0.0 <==> TotalPnl(portfolio, coins) >= 0.0)
    ensures TotalCost(portfolio) <= 0.0 ==> TotalPnlPercent(portfolio, coins) == 0.0
  {
    var cost := TotalCost(portfolio);
    var pnl := TotalPnl(portfolio, coins);
    if cost > 0.0 {
      QuotientSign(pnl, cost);
    }
  }

  lemma QuotientSign(x: real, d: real)
    requires d > 0.0
    ensures x / d * 100.0 >= 0.0 <==> x >= 0.0
  {
    var q := x / d;
    assert q * d == x;
    if q < 0.0 {
      assert q * d < 0.0;
    } else {
      assert q * d >= 0.0;
    }
  }

  // ---------------------------------------------------------------------
  // Per-holding rows

  /** One rendered holding: its position in the portfolio (the index the
      delete button passes on), the matched coin and the three figures. */
  datatype HoldingRow = HoldingRow(index: nat, coin: Coin, currentValue: real, costBasis: real, pnl: real)

  function RowOf(item: Holding, index: nat, coins: seq<Coin>): Option<HoldingRow> {
    match FindCoin(coins, item.coinId)
    case None => None
    case Some(coin) =>
      var currentValue := item.amount * coin.currentPrice;
      var costBasis := CostBasis(item);
      Some(HoldingRow(index, coin, currentValue, costBasis, currentValue - costBasis))
  }

  /** portfolio.map(...) with the null rows of unmatched holdings dropped. */
  function HoldingRows(portfolio: seq<Holding>, coins: seq<Coin>): seq<HoldingRow>
    decreases |portfolio|
  {
    if portfolio == [] then []
    else
      var last := |portfolio| - 1;
      HoldingRows(portfolio[..last], coins) + RowAsList(RowOf(portfolio[last], last, coins))
  }

  function RowAsList(row: Option<HoldingRow>): seq<HoldingRow> {
    if row.Some? then [row.value] else []
  }

  function SumCurrentValue(rows: seq<HoldingRow>): real
    decreases |rows|
  {
    if rows == [] then 0.0 else SumCurrentValue(rows[..|rows| - 1]) + rows[|rows| - 1].currentValue
  }

  function SumCostBasis(rows: seq<HoldingRow>): real
    decreases |rows|
  {
    if rows == [] then 0.0 else SumCostBasis(rows[..|rows| - 1]) + rows[|rows| - 1].costBasis
  }

  /** The row describes holding row.index of the portfolio: the coin is the
      first listing entry with the holding's id and the figures are that
      holding's. */
  predicate DescribesHolding(row: HoldingRow, portfolio: seq<Holding>, coins: seq<Coin>) {
    && row.index < |portfolio|
    && FindCoin(coins, portfolio[row.index].coinId) == Some(row.coin)
    && row.currentValue == portfolio[row.index].amount * row.coin.currentPrice
    && row.costBasis == portfolio[row.index].amount * portfolio[row.index].purchasePrice
    && row.pnl == row.currentValue - row.costBasis
  }

  /** The rows of a prefix are rows of the whole portfolio. */
  lemma HoldingRowsSnoc(portfolio: seq<Holding>, coins: seq<Coin>)
    requires portfolio != []
    ensures HoldingRows(portfolio, coins) ==
              HoldingRows(portfolio[..|portfolio| - 1], coins) +
              RowAsList(RowOf(portfolio[|portfolio| - 1], |portfolio| - 1, coins))
  {
  }

  /** The row is what RowOf gives for the holding at row.index. */
  predicate RowFor(row: HoldingRow, portfolio: seq<Holding>, coins: seq<Coin>) {
    row.index < |portfolio| && RowOf(portfolio[row.index], row.index, coins) == Some(row)
  }

  lemma {:induction false} RowsAreRowsFor(portfolio: seq<Holding>, coins: seq<Coin>)
    ensures |HoldingRows(portfolio, coins)| <= |portfolio|
    ensures forall row :: row in HoldingRows(portfolio, coins) ==> RowFor(row, portfolio, coins)
    decreases |portfolio|
  {
    if portfolio != [] {
      var last := |portfolio| - 1;
      var init := portfolio[..last];
      RowsAreRowsFor(init, coins);
      var rows := HoldingRows(init, coins);
      var extra := RowAsList(RowOf(portfolio[last], last, coins));
      HoldingRowsSnoc(portfolio, coins);
      forall row | row in rows + extra
        ensures RowFor(row, portfolio, coins)
      {
        if row in rows {
          assert RowFor(row, init, coins);
          assert portfolio[row.index] == init[row.index];
        }
      }
    }
  }

  lemma RowForDescribes(row: HoldingRow, portfolio: seq<Holding>, coins: seq<Coin>)
    requires RowFor(row, portfolio, coins)
    ensures DescribesHolding(row, portfolio, coins)
  {
  }

  /** Every row belongs to a matched holding, so the delete button of a row
      removes that holding. */
  lemma {:induction false} RowsDescribeHoldings(portfolio: seq<Holding>, coins: seq<Coin>)
    ensures |HoldingRows(portfolio, coins)| <= |portfolio|
    ensures forall row :: row in HoldingRows(portfolio, coins) ==> DescribesHolding(row, portfolio, coins)
  {
    RowsAreRowsFor(portfolio, coins);
    forall row | row in HoldingRows(portfolio, coins)
      ensures DescribesHolding(row, portfolio, coins)
    {
      RowForDescribes(row, portfolio, coins);
    }
  }

  /** Rows appear in the holdings' order, each row index below the
      portfolio's length. */
  lemma {:induction false} RowsKeepOrder(portfolio: seq<Holding>, coins: seq<Coin>)
    ensures forall row :: row in HoldingRows(portfolio, coins) ==> row.index < |portfolio|
    ensures forall k, l :: 0 <= k < l < |HoldingRows(portfolio, coins)| ==>
              HoldingRows(portfolio, coins)[k].index < HoldingRows(portfolio, coins)[l].index
    decreases |portfolio|
  {
    if portfolio != [] {
      var last := |portfolio| - 1;
      var init := portfolio[..last];
      RowsKeepOrder(init, coins);
      var rows := HoldingRows(init, coins);
      var extra := RowAsList(RowOf(portfolio[last], last, coins));
      assert HoldingRows(portfolio, coins) == rows + extra;
      assert forall row :: row in extra ==> row.index == last;
      forall k, l | 0 <= k < l < |rows + extra|
        ensures (rows + extra)[k].index < (rows + extra)[l].index
      {
        if l >= |rows| {
          assert (rows + extra)[k] in rows;
          assert (rows + extra)[l] in extra;
        }
      }
    }
  }

  /** Every holding yields either one row or one unmatched entry. */
  lemma {:induction false} RowsAndUnmatchedCount(portfolio: seq<Holding>, coins: seq<Coin>)
    ensures |HoldingRows(portfolio, coins)| + |Unmatched(portfolio, coins)| == |portfolio|
    decreases |portfolio|
  {
    if portfolio != [] {
      RowsAndUnmatchedCount(portfolio[..|portfolio| - 1], coins);
    }
  }

  /** A holding whose coin is listed has its row among the rows. */
  lemma {:induction false} MatchedHoldingHasRow(portfolio: seq<Holding>, coins: seq<Coin>, i: int)
    requires 0 <= i < |portfolio| && RowOf(portfolio[i], i, coins).Some?
    ensures RowOf(portfolio[i], i, coins).value in HoldingRows(portfolio, coins)
    decreases |portfolio|
  {
    var last := |portfolio| - 1;
    var init := portfolio[..last];
    var found := RowOf(portfolio[i], i, coins);
    HoldingRowsSnoc(portfolio, coins);
    if i < last {
      assert init[i] == portfolio[i];
      MatchedHoldingHasRow(init, coins, i);
      assert found.value in HoldingRows(init, coins);
    } else {
      assert RowAsList(found) == [found.value];
    }
  }

  /** The two extreme listings: no holding matched gives no rows, every
      holding matched gives one row each. */
  lemma {:induction false} AllOrNoneMatched(portfolio: seq<Holding>, coins: seq<Coin>)
    ensures (forall c :: c in coins ==> forall i :: 0 <= i < |portfolio| ==> c.id != portfolio[i].coinId) ==>
              HoldingRows(portfolio, coins) == []
    ensures (forall i :: 0 <= i < |portfolio| ==> FindCoin(coins, portfolio[i].coinId).Some?) ==>
              |HoldingRows(portfolio, coins)| == |portfolio|
    decreases |portfolio|
  {
    if portfolio != [] {
      var last := |portfolio| - 1;
      var init := portfolio[..last];
      AllOrNoneMatched(init, coins);
      if forall c :: c in coins ==> forall i :: 0 <= i < |portfolio| ==> c.id != portfolio[i].coinId {
        assert forall c :: c in coins ==> c.id != portfolio[last].coinId;
      }
    }
  }

  /** Every matched holding gets a row and every unmatched one none: the
      number of rows is the number of holdings whose coin is listed. */
  lemma {:induction false} RowsCoverMatchedHoldings(portfolio: seq<Holding>, coins: seq<Coin>)
    ensures |HoldingRows(portfolio, coins)| + |Unmatched(portfolio, coins)| == |portfolio|
    ensures forall i :: 0 <= i < |portfolio| && FindCoin(coins, portfolio[i].coinId).Some? ==>
              exists row: HoldingRow :: row in HoldingRows(portfolio, coins) && row.index == i
    ensures (forall c :: c in coins ==> forall i :: 0 <= i < |portfolio| ==> c.id != portfolio[i].coinId) ==>
              HoldingRows(portfolio, coins) == []
    ensures (forall i :: 0 <= i < |portfolio| ==> FindCoin(coins, portfolio[i].coinId).Some?) ==>
              |HoldingRows(portfolio, coins)| == |portfolio|
  {
    RowsAndUnmatchedCount(portfolio, coins);
    AllOrNoneMatched(portfolio, coins);
    forall i | 0 <= i < |portfolio| && FindCoin(coins, portfolio[i].coinId).Some?
      ensures exists row: HoldingRow :: row in HoldingRows(portfolio, coins) && row.index == i
    {
      MatchedHoldingHasRow(portfolio, coins, i);
      assert RowOf(portfolio[i], i, coins).value.index == i;
    }
  }

  /** The total value is the sum of the rows' current values: holdings
      without a row contribute nothing to it. */
  lemma {:induction false} ValueIsSumOfRows(portfolio: seq<Holding>, coins: seq<Coin>)
    ensures PortfolioValue(portfolio, coins) == SumCurrentValue(HoldingRows(portfolio, coins))
    decreases |portfolio|
  {
    if portfolio != [] {
      var last := |portfolio| - 1;
      var init := portfolio[..last];
      ValueIsSumOfRows(init, coins);
      var rows := HoldingRows(init, coins);
      var extra := RowAsList(RowOf(portfolio[last], last, coins));
      var all := rows + extra;
      assert HoldingRows(portfolio, coins) == all;
      if extra == [] {
        assert all == rows;
      } else {
        assert all[..|all| - 1] == rows;
      }
    }
  }

  /** The total cost is the sum of the rows' cost bases plus the cost of the
      holdings that have no row. */
  lemma {:induction false} CostIsRowsPlusUnmatched(portfolio: seq<Holding>, coins: seq<Coin>)
    ensures TotalCost(portfolio) == SumCostBasis(HoldingRows(portfolio, coins)) + TotalCost(Unmatched(portfolio, coins))
    decreases |portfolio|
  {
    if portfolio != [] {
      var last := |portfolio| - 1;
      var init := portfolio[..last];
      CostIsRowsPlusUnmatched(init, coins);
      var rows := HoldingRows(init, coins);
      var un := Unmatched(init, coins);
      var extra := RowAsList(RowOf(portfolio[last], last, coins));
      var all := rows + extra;
      assert HoldingRows(portfolio, coins) == all;
      if extra == [] {
        assert all == rows;
        var u := un + [portfolio[last]];
        assert Unmatched(portfolio, coins) == u;
        assert u[..|u| - 1] == un;
      } else {
        assert all[..|all| - 1] == rows;
        assert FindCoin(coins, portfolio[last].coinId).Some?;
        assert Unmatched(portfolio, coins) == un + [];
        assert all[|all| - 1].costBasis == CostBasis(portfolio[last]);
        assert TotalCost(portfolio) == TotalCost(init) + CostBasis(portfolio[last]);
        assert un + [] == un;
        assert SumCostBasis(all) == SumCostBasis(rows) + all[|all| - 1].costBasis;
      }
    }
  }

  /** The holdings whose coin is not in the listing, in order. */
  function Unmatched(portfolio: seq<Holding>, coins: seq<Coin>): seq<Holding>
    decreases |portfolio|
  {
    if portfolio == [] then []
    else
      var last := portfolio[|portfolio| - 1];
      Unmatched(portfolio[..|portfolio| - 1], coins) + (if FindCoin(coins, last.coinId).None? then [last] else [])
  }

  /** The total P&L is the sum of the row P&Ls less the cost of the
      unmatched holdings. */
  lemma TotalPnlFromRows(portfolio: seq<Holding>, coins: seq<Coin>)
    ensures TotalPnl(portfolio, coins) ==
              SumCurrentValue(HoldingRows(portfolio, coins)) - SumCostBasis(HoldingRows(portfolio, coins))
              - TotalCost(Unmatched(portfolio, coins))
  {
    ValueIsSumOfRows(portfolio, coins);
    CostIsRowsPlusUnmatched(portfolio, coins);
  }

  // ---------------------------------------------------------------------
  // The per-row percentage

  /** The outcome of a floating-point division as the dialog would display
      it: a finite figure, or a non-finite one (Infinity or NaN). */
  datatype Displayed = Finite(v: real) | NonFinite

  /** The row percentage as the code computes it, pnl / costBasis * 100 with
      no guard: a zero cost basis divides by zero. */
  function RowPnlPercentAsWritten(row: HoldingRow): (r: Displayed)
    ensures r.NonFinite? <==> row.costBasis == 0.0
  {
    if row.costBasis == 0.0 then NonFinite else Finite(row.pnl / row.costBasis * 100.0)
  }

  /** A holding bought at price 0 (the form accepts "0") yields a non-finite
      percentage. */
  lemma ZeroPriceRowIsNonFinite()
    ensures var coin := Coin("btc", "btc", "Bitcoin", 50000.0, 2.5, 1, None, None, None, None);
            var item := Holding("btc", "btc", "Bitcoin", 2.0, 0.0, "2024-01-01T00:00:00.000Z");
            && RowOf(item, 0, [coin]).Some?
            && RowPnlPercentAsWritten(RowOf(item, 0, [coin]).value) == NonFinite
  {
  }

  /** The row percentage with the guard the total uses (cost > 0). */
  function RowPnlPercent(row: HoldingRow): real {
    if row.costBasis > 0.0 then row.pnl / row.costBasis * 100.0 else 0.0
  }

  /** With that guard a one-holding portfolio shows the same percentage in
      its row as in its total, and the row percentage is always finite
      where the written one is finite and the cost basis is positive. */
  lemma RowPercentAgreesWithTotal(item: Holding, coins: seq<Coin>)
    requires FindCoin(coins, item.coinId).Some?
    ensures |HoldingRows([item], coins)| == 1
    ensures RowPnlPercent(HoldingRows([item], coins)[0]) == TotalPnlPercent([item], coins)
    ensures HoldingRows([item], coins)[0].costBasis > 0.0 ==>
              RowPnlPercentAsWritten(HoldingRows([item], coins)[0]) ==
              Finite(RowPnlPercent(HoldingRows([item], coins)[0]))
  {
    assert [item][..0] == [];
    var row := RowOf(item, 0, coins).value;
    assert HoldingRows([item], coins) == [row];
    assert PortfolioValue([item], coins) == row.currentValue;
    assert TotalCost([item]) == row.costBasis;
    assert TotalPnl([item], coins) == row.pnl;
  }

  /** Worked scenario: 2 units bought at 40000 of a coin now at 50000. */
  lemma RowScenario()
    ensures var coin := Coin("btc", "btc", "Bitcoin", 50000.0, 2.5, 1, None, None, None, None);
            var item := Holding("btc", "btc", "Bitcoin", 2.0, 40000.0, "2024-01-01T00:00:00.000Z");
            var row := RowOf(item, 0, [coin]).value;
            && RowOf(item, 0, [coin]).Some?
            && row.currentValue == 100000.0 && row.costBasis == 80000.0
            && row.pnl == 20000.0 && RowPnlPercent(row) == 25.0
  {
  }

  // ---------------------------------------------------------------------
  // Adding a holding

  /** The holding the form submits, or None when no coin is selected or
      either text field is empty. parseNumber stands for parseFloat. */
  function SubmittedItem(selected: Option<Coin>, amount: string, purchasePrice: string,
                         parseNumber: string -> real, now: string): (r: Option<Holding>)
    ensures r.None? <==> selected.None? || amount == "" || purchasePrice == ""
    ensures r.Some? ==>
              && r.value.coinId == selected.value.id
              && r.value.symbol == selected.value.symbol
              && r.value.name == selected.value.name
              && r.value.amount == parseNumber(amount)
              && r.value.purchasePrice == parseNumber(purchasePrice)
  {
    if selected.None? || amount == "" || purchasePrice == "" then None
    else
      var coin := selected.value;
      Some(Holding(coin.id, coin.symbol, coin.name, parseNumber(amount), parseNumber(purchasePrice), now))
  }

  /** The form's two text fields. */
  class AddHoldingForm {
    var amount: string
    var purchasePrice: string

    constructor ()
      ensures amount == "" && purchasePrice == ""
    {
      amount := "";
      purchasePrice := "";
    }

    /** handleSubmit: when the guard passes, adds exactly one holding for the
        selected coin to the store and clears both fields; otherwise changes
        nothing. */
    method HandleSubmit(selected: Option<Coin>, store: PortfolioStore.Store,
                        parseNumber: string -> real, now: string)
      modifies this, store
      ensures var item := SubmittedItem(selected, old(amount), old(purchasePrice), parseNumber, now);
              if item.None? then
                unchanged(this) && unchanged(store)
              else
                && store.portfolio == old(store.portfolio) + [item.value]
                && store.watchlist == old(store.watchlist)
                && store.storage == old(store.storage)[PortfolioStore.PortfolioKey := PortfolioStore.HoldingsBlob(store.portfolio)]
                && amount == "" && purchasePrice == ""
      ensures old(store.Synced()) ==> store.Synced()
    {
      var item := SubmittedItem(selected, amount, purchasePrice, parseNumber, now);
      if item.None? {
        return;
      }
      store.AddToPortfolio(item.value, now);
      amount := "";
      purchasePrice := "";
    }
  }
}
