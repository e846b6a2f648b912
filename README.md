# Crypto price tracker — verified model of the dashboard's logic

The dashboard lists coins from a market-data API, lets the user keep a
watchlist and a simulated portfolio in the browser's local storage, and shows
profit/loss figures. This project models, in Dafny, the four pieces of logic
behind it:

- **The portfolio/watchlist store** (`use_portfolio.dfy`, module
  `PortfolioStore`). `Store` is a class with two `seq` fields, `portfolio`
  and `watchlist`, and a `storage` map from storage key to parsed blob. Each
  operation replaces one list and writes it through under its own key
  (`crypto_portfolio` or `crypto_watchlist`). The other key is untouched.
  Loading reads each key on its own. A missing, unparsable or wrong-shaped
  blob leaves only that list empty.
- **The portfolio dialog** (`portfolio_modal.dfy`, module `PortfolioModal`).
  It covers the two `reduce` folds (total value and total cost), the total
  P&L and its guarded percentage, the per-holding rows, and the add-holding
  form (`AddHoldingForm`, a class over the form's two text fields).
- **The coin list view** (`app.dfy`, module `CoinList`). It covers the
  case-insensitive search filter, the comparator sort, the watchlist toggle
  and the top gainer/loser cards. The sort is modelled as a stable
  insertion sort, because ECMAScript requires `Array.prototype.sort` to be
  stable.
- **The detail view** (`coin_detail.dfy`, module `CoinDetail`). It covers
  the "About" excerpt, which splits on `". "`, keeps three pieces, rejoins
  them and adds `"."`. It also covers the guard that shows the excerpt, and
  the truthiness guards on four optional market figures.

`crypto_types.dfy` (module `CryptoTypes`) holds the shared records: `Coin`,
`Holding`, the coin-detail record, and `Option`. Prices, amounts and
percentages are `real`, so every sum and product is exact.

Behaviour worth knowing, as the code has it:

- The total cost counts every holding. The total value counts only holdings
  whose coin is in the current listing. So a holding whose coin is missing
  lowers the total P&L by its whole cost basis
  (`PortfolioModal.UnmatchedHoldingCountsOnlyInCost`,
  `PortfolioModal.TotalPnlFromRows`). The model follows the code.
- Loading never removes duplicates from a stored watchlist. So "no
  duplicates" is an invariant every operation preserves, not one the store
  establishes.
- Toggling a watched id twice restores its membership. It does not restore
  its position: the id moves to the end of the list.
- An optional market figure that is present but 0 shows no card, yet it is
  not hidden like a missing one: `0 && (…)` evaluates to the number 0, which
  React prints as the text "0" in the card's place
  (`CoinDetail.ZeroFiguresShowText`).

## Model

| member | source | states |
|---|---|---|
| PortfolioStore.Store.Load | src/hooks/usePortfolio.ts:10-30 | at start-up each list is read from its own key, and storage is not written; reloading storage would give the lists in memory (`Synced`) |
| PortfolioStore.LoadingIsPerKey | src/hooks/usePortfolio.ts:15-29 | an unparsable blob, or no blob at all, under one key empties that list; the other key's content never affects it |
| PortfolioStore.ReloadAfterSave | src/hooks/usePortfolio.ts:32-40 | what a save writes under a key loads back as the same list |
| PortfolioStore.Store.SavePortfolio | src/hooks/usePortfolio.ts:32-35 | replaces the holdings and writes them under `crypto_portfolio`; the watchlist and every other key are unchanged; a watchlist already in storage stays in storage; a store whose storage reloads to its lists still does |
| PortfolioStore.Store.SaveWatchlist | src/hooks/usePortfolio.ts:37-40 | replaces the watchlist and writes it under `crypto_watchlist`; the holdings and every other key are unchanged; a store whose storage reloads to its lists still does |
| PortfolioStore.Store.AddToPortfolio | src/hooks/usePortfolio.ts:42-45 | the holdings grow by exactly one; earlier holdings are unchanged; the new last holding is the argument with `purchaseDate` replaced by the call-time timestamp; storage holds the new list; a store whose storage reloads to its lists still does |
| PortfolioStore.WithoutIndexIsSplice | src/hooks/usePortfolio.ts:48 | filtering out one index removes exactly that element and keeps the rest in order; an out-of-range index removes nothing |
| PortfolioStore.Store.RemoveFromPortfolio | src/hooks/usePortfolio.ts:47-50 | a valid index removes exactly that holding and keeps the order; an invalid index leaves the holdings as they were; the list is re-saved either way; a store whose storage reloads to its lists still does |
| PortfolioStore.Store.AddToWatchlist | src/hooks/usePortfolio.ts:52-57 | a watched id changes neither state nor storage; an unwatched id is appended and saved; a duplicate-free watchlist stays duplicate-free; a store whose storage reloads to its lists still does |
| PortfolioStore.WithoutIdMembers | src/hooks/usePortfolio.ts:60 | removing an id leaves no occurrence of it, keeps every other id with its multiplicity, and is the identity when the id is absent |
| PortfolioStore.WithoutIdConcat | src/hooks/usePortfolio.ts:60 | removal distributes over concatenation, so the remaining ids keep their relative order |
| PortfolioStore.WithoutIdNoDuplicates | src/hooks/usePortfolio.ts:60 | removal keeps a duplicate-free watchlist duplicate-free |
| PortfolioStore.AppendFreshNoDuplicates | src/hooks/usePortfolio.ts:53-54 | appending an id that is not in the list keeps it duplicate-free |
| PortfolioStore.Store.RemoveFromWatchlist | src/hooks/usePortfolio.ts:59-62 | the new watchlist has no occurrence of the id and exactly the other ids, in order; it is saved; the holdings are unchanged; a store whose storage reloads to its lists still does |
| PortfolioStore.Store.IsInWatchlist | src/hooks/usePortfolio.ts:64 | answers membership and changes nothing |
| PortfolioModal.FindCoin | src/components/PortfolioModal.tsx:51 | the result is the first listed coin with the id; None exactly when no coin has it |
| PortfolioModal.EmptyPortfolioTotals | src/components/PortfolioModal.tsx:49-66 | an empty portfolio has value, cost, P&L and percentage all 0 |
| PortfolioModal.ValueIsSumOfRows | src/components/PortfolioModal.tsx:49-57 | the total value is the sum of amount × current price over the holdings whose coin is found (their rows); unmatched holdings add nothing |
| PortfolioModal.CostIsRowsPlusUnmatched | src/components/PortfolioModal.tsx:59-61 | the total cost is the rows' cost bases plus the cost of the unmatched holdings: every holding counts |
| PortfolioModal.UnmatchedHoldingCountsOnlyInCost | src/components/PortfolioModal.tsx:49-65 | adding a holding whose coin is not listed leaves the value unchanged and adds its cost basis to the cost, lowering the P&L by that cost basis |
| PortfolioModal.TotalsConcat | src/components/PortfolioModal.tsx:49-61 | both folds split over concatenation of holding lists |
| PortfolioModal.TotalPnlFromRows | src/components/PortfolioModal.tsx:63-65 | total P&L = sum of row current values − sum of row cost bases − cost of unmatched holdings |
| PortfolioModal.TotalPercentSignMatchesPnl | src/components/PortfolioModal.tsx:66 | with a positive cost the percentage is ≥ 0 exactly when the P&L is ≥ 0, so the shown sign and colour agree; with cost ≤ 0 it is 0 and nothing is divided |
| PortfolioModal.RowsDescribeHoldings | src/components/PortfolioModal.tsx:161-167 | each row's index points at a holding whose first matching coin is the row's coin; its current value, cost basis and P&L are amount × price, amount × purchase price, and their difference |
| PortfolioModal.RowsKeepOrder | src/components/PortfolioModal.tsx:161-191 | rows follow the holdings' order and their indices (used by the delete button) are valid positions |
| PortfolioModal.RowsCoverMatchedHoldings | src/components/PortfolioModal.tsx:161-163 | every holding whose coin is listed has a row carrying its index; rows plus unmatched holdings number exactly the holdings; no match gives no rows and all matched gives one row per holding |
| PortfolioModal.RowsAndUnmatchedCount | src/components/PortfolioModal.tsx:161-163 | each holding yields either one row or one unmatched entry |
| PortfolioModal.MatchedHoldingHasRow | src/components/PortfolioModal.tsx:161-163 | a holding whose coin is found has its own row among the rows |
| PortfolioModal.RowPnlPercentAsWritten | src/components/PortfolioModal.tsx:168 | the unguarded per-row percentage is non-finite exactly when the cost basis is 0 |
| PortfolioModal.ZeroPriceRowIsNonFinite | src/components/PortfolioModal.tsx:168 | a holding bought at price 0 produces a non-finite row percentage |
| PortfolioModal.RowPercentAgreesWithTotal | src/components/PortfolioModal.tsx:168 | with the guard the total uses at line 66, a one-holding portfolio shows the same percentage in its row as in its total, and the guarded and unguarded values agree whenever the cost basis is positive |
| PortfolioModal.RowScenario | src/components/PortfolioModal.tsx:165-168 | 2 units bought at 40000 of a coin at 50000 give value 100000, cost basis 80000, P&L 20000 and 25% |
| PortfolioModal.SubmittedItem | src/components/PortfolioModal.tsx:33-42 | nothing is submitted exactly when no coin is selected or either field is empty; otherwise the holding copies the coin's id, symbol and name, with the parsed amount and price |
| PortfolioModal.AddHoldingForm.HandleSubmit | src/components/PortfolioModal.tsx:30-47 | a failed guard changes neither the form nor the store; otherwise exactly one holding is added to the store (stamped at call time), storage is updated and both fields are cleared; storage still reloads to the lists |
| CoinList.IncludesIffOccurs | src/App.tsx:30-31 | `includes` holds exactly when the query occurs at some position of the text |
| CoinList.ToLowerIdempotent | src/App.tsx:30-31 | lower-casing keeps the length and lower-casing twice is lower-casing once |
| CoinList.QueryCaseIgnored | src/App.tsx:29-32 | a query and its lower-cased form match the same coins |
| CoinList.FilterKeepsExactlyMatches | src/App.tsx:29-32 | the filter keeps exactly the coins whose lower-cased name or symbol contains the lower-cased query, each as often as listed |
| CoinList.FilterConcat | src/App.tsx:29-32 | the filter distributes over concatenation, so kept coins keep the listing order |
| CoinList.EmptyQueryKeepsAll | src/App.tsx:29-32 | an empty query keeps the whole listing unchanged |
| CoinList.CompareIsKeyDifference | src/App.tsx:34-43 | the comparator is a difference of keys (−price, −24h change, or rank), so it is consistent |
| CoinList.SortPermutesAndOrders | src/App.tsx:34 | the sort returns a permutation of its input, ordered by the comparator's key |
| CoinList.SortIsStable | src/App.tsx:34 | for every key value, the coins with that key come out in the order they went in |
| CoinList.InsertStable | src/App.tsx:34 | inserting into a sorted list places the coin after every coin of equal key |
| CoinList.SortedWithSameKeysEqual | src/App.tsx:34 | two lists sorted by the key with the same coins of each key in the same order are equal |
| CoinList.SortIsUnique | src/App.tsx:34 | any list sorted by the key that keeps each key's coins in input order is the sort's result, so every stable sort by this comparator gives the same list |
| CoinList.FilterAndSortSpec | src/App.tsx:28-44 | the rendered list is a permutation of the matching coins; every earlier/later pair has comparator ≤ 0; `price` gives non-increasing price, `change` non-increasing 24h change, any other key non-decreasing market-cap rank; equal keys keep listing order |
| CoinList.EmptyQueryShowsAll | src/App.tsx:28-44 | with an empty query the rendered list has the same length and the same coins as the listing |
| CoinList.ToggleFlipsMembership | src/App.tsx:46-52 | one toggle flips the id's membership and no other id's; two toggles restore the membership; they restore the exact list when the id was absent, and otherwise move the id to the end |
| CoinList.ToggleNoDuplicates | src/App.tsx:46-52 | a toggle keeps a duplicate-free watchlist duplicate-free |
| CoinList.ToggleWatchlist | src/App.tsx:46-52 | the store's watchlist becomes the toggled list and is saved; the holdings are unchanged; storage still reloads to the lists |
| CoinList.MaxChange | src/App.tsx:142 | the top gainer is a 24h change of some listed coin and no coin's change exceeds it |
| CoinList.MinChange | src/App.tsx:153 | the top loser is a 24h change of some listed coin and no coin's change is below it |
| CoinList.GainerNotBelowLoser | src/App.tsx:139-156 | both cards are computed exactly when the listing is non-empty, and the gainer is ≥ the loser |
| CoinList.MarketSummaryScenario | src/App.tsx:139-156 | changes 2.5 and −1.2 give gainer 2.5 and loser −1.2 |
| CoinDetail.IndexOf | src/components/CoinDetail.tsx:211 | the separator search returns the first position where `". "` occurs, or None when it occurs nowhere |
| CoinDetail.JoinSplit | src/components/CoinDetail.tsx:211 | joining the pieces of a split with the separator gives the text back |
| CoinDetail.SplitPiecesAvoidSeparator | src/components/CoinDetail.tsx:211 | no piece of a split contains the separator |
| CoinDetail.JoinCut | src/components/CoinDetail.tsx:211 | the first k pieces joined, the separator, and the remaining pieces joined make the whole join |
| CoinDetail.ExcerptIsPrefix | src/components/CoinDetail.tsx:211 | the excerpt ends in "."; without it, it is a prefix of the description, so its length is at most the description's + 1; with more than three pieces, excerpt text + `". "` + the rest rebuilds the description |
| CoinDetail.ExcerptOfShortDescription | src/components/CoinDetail.tsx:211 | a description with at most three pieces, in particular one with no `". "`, gives the description + "." |
| CoinDetail.AboutText | src/components/CoinDetail.tsx:205-213 | the excerpt is shown exactly when the detail, its description and its English text are present and the text is non-empty |
| CoinDetail.ShownFigure | src/components/CoinDetail.tsx:118-157 | a figure's slot shows its card, with its own value, exactly when the figure is present and non-zero; the text "0" exactly when it is a present 0; nothing exactly when it is missing |
| CoinDetail.ZeroFiguresShowText | src/components/CoinDetail.tsx:118-157 | a coin whose four figures are 0 shows no card but the text "0" in each slot, while the same coin with the figures missing shows nothing there |

## Left out

- Network access: `src/hooks/useCrypto.ts` (listing fetch, 30-second polling, loading and error flags) is I/O and is not part of this model. The listing is a plain `seq<Coin>` input.
- The asynchronous detail loader (`src/components/CoinDetail.tsx:26-35`) is I/O. The detail record is an `Option` input. The code has no guard against a late response for a previously opened coin, so the model has none either.
- JSON and `localStorage`: storage is a map from key to a parsed `Blob`. `Unparsable` stands for text that does not parse. A blob that parses to the wrong shape (say, a JSON number under `crypto_portfolio`) is treated as unparsable, whereas the code would install it as the list.
- Logging of load errors (`console.error`) is a side effect with no bearing on state.
- `new Date().toISOString()` is a `now` parameter. `HandleSubmit` passes the same `now` to the store, which overrides the form's own timestamp in any case.
- `parseFloat` is a `parseNumber` parameter. NaN, infinities and floating-point rounding are not modelled: numbers are exact reals. `toFixed` and the formatters are presentation.
- `toLowerCase` is ASCII lower-casing. Unicode case mapping is not modelled.
- React's state batching and stale closures are not modelled: each operation sees the current state.
- The JavaScript engine's sort algorithm is not modelled. A stable insertion sort stands in for it; `CoinList.SortIsUnique` shows that any stable sort by this comparator gives the same list.
- Null figures in the listing are not modelled: price, 24h change and market-cap rank are always numbers here. In JavaScript a null operand of `-` counts as 0 (`null - 3` is `-3`), so a coin with a null `market_cap_rank` would sort first under the market-cap key, and a null price or change would sort as 0.
- For the same reason a null 24h change is not modelled in the gainer and loser cards: `Math.max` and `Math.min` would count it as 0.
- JSX markup, `dangerouslySetInnerHTML`, `src/components/CoinCard.tsx`, `src/components/LoadingSpinner.tsx`, and the card at `src/App.tsx:134` (it shows `portfolio.length` under "Watchlist") are presentation.

## Findings

| source | as written | input that shows it | evidently intended | confidence | as-written member | corrected member |
|---|---|---|---|---|---|---|
| src/components/PortfolioModal.tsx:168 | the per-holding percentage divides `pnl` by `costBasis` with no guard | a holding with purchase price 0 (the form accepts "0"): cost basis 0, so the row shows Infinity% or NaN% | the guard the total uses at line 66: the percentage is 0 unless the cost is positive | medium, not executed | PortfolioModal.ZeroPriceRowIsNonFinite | PortfolioModal.RowPercentAgreesWithTotal |
