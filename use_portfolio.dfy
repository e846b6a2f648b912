/** The portfolio/watchlist store: an ordered list of holdings and a list of
    watched coin ids, each written through to the browser's key-value storage
    under its own key after every change. */
module PortfolioStore {
  import opened CryptoTypes

  const PortfolioKey: string := "crypto_portfolio"
  const WatchlistKey: string := "crypto_watchlist"

  /** What one storage key holds, as the JSON parser would read it back.
      Unparsable stands for text that does not parse. */
  datatype Blob = HoldingsBlob(items: seq<Holding>) | IdsBlob(ids: seq<string>) | Unparsable

  predicate NoDuplicates(w: seq<string>) {
    forall i, j :: 0 <= i < j < |w| ==> w[i] != w[j]
  }

  // ---------------------------------------------------------------------
  // Loading

  /** The holdings read at start-up: a missing, unparsable or wrong-shaped
      blob leaves the list empty. */
  function LoadedHoldings(saved: map<string, Blob>): seq<Holding> {
    if PortfolioKey in saved && saved[PortfolioKey].HoldingsBlob? then saved[PortfolioKey].items else []
  }

  /** The watchlist read at start-up, with the same fallback. */
  function LoadedWatchlist(saved: map<string, Blob>): seq<string> {
    if WatchlistKey in saved && saved[WatchlistKey].IdsBlob? then saved[WatchlistKey].ids else []
  }

  /** A bad blob under one key resets only that collection: whatever the
      other key holds, the loaded holdings do not depend on it, and
      conversely. */
  lemma LoadingIsPerKey(saved: map<string, Blob>, b: Blob)
    ensures LoadedHoldings(saved[WatchlistKey := b]) == LoadedHoldings(saved)
    ensures LoadedWatchlist(saved[PortfolioKey := b]) == LoadedWatchlist(saved)
    ensures LoadedHoldings(saved[PortfolioKey := Unparsable]) == []
    ensures LoadedWatchlist(saved[WatchlistKey := Unparsable]) == []
    ensures LoadedHoldings(saved - {PortfolioKey}) == []
    ensures LoadedWatchlist(saved - {WatchlistKey}) == []
  {
  }

  /** Saving a list and loading it again gives the list back. */
  lemma ReloadAfterSave(saved: map<string, Blob>, p: seq<Holding>, w: seq<string>)
    ensures LoadedHoldings(saved[PortfolioKey := HoldingsBlob(p)]) == p
    ensures LoadedWatchlist(saved[WatchlistKey := IdsBlob(w)]) == w
    ensures LoadedHoldings(saved[PortfolioKey := HoldingsBlob(p)][WatchlistKey := IdsBlob(w)]) == p
  {
  }

  // ---------------------------------------------------------------------
  // The list transformations the store applies

  /** filter((_, i) => i !== index): every element whose position differs
      from index, in order. */
  function WithoutIndex<T>(s: seq<T>, index: int): seq<T>
    decreases |s|
  {
    if s == [] then []
    else WithoutIndex(s[..|s| - 1], index) + (if |s| - 1 != index then [s[|s| - 1]] else [])
  }

  /** Removing by index drops exactly element index and keeps the others in
      order; an index outside the list removes nothing. */
  lemma {:induction false} WithoutIndexIsSplice<T>(s: seq<T>, index: int)
    ensures 0 <= index < |s| ==> WithoutIndex(s, index) == s[..index] + s[index + 1..]
    ensures !(0 <= index < |s|) ==> WithoutIndex(s, index) == s
    decreases |s|
  {
    if s != [] {
      var init := s[..|s| - 1];
      WithoutIndexIsSplice(init, index);
      if 0 <= index < |s| - 1 {
        assert init[..index] == s[..index];
        assert init[index + 1..] + [s[|s| - 1]] == s[index + 1..];
      } else if index == |s| - 1 {
        assert init == s[..index];
        assert s[index + 1..] == [];
      } else {
        assert init + [s[|s| - 1]] == s;
      }
    }
  }

  /** filter(id => id !== coinId): every entry other than coinId, in order. */
  function WithoutId(w: seq<string>, id: string): seq<string>
    decreases |w|
  {
    if w == [] then []
    else WithoutId(w[..|w| - 1], id) + (if w[|w| - 1] != id then [w[|w| - 1]] else [])
  }

  /** Removal leaves no occurrence of id, keeps every other entry, adds
      nothing, and is the identity when id is absent. */
  lemma {:induction false} WithoutIdMembers(w: seq<string>, id: string)
    ensures forall x :: x in WithoutId(w, id) <==> x in w && x != id
    ensures multiset(WithoutId(w, id)) == multiset(w)[id := 0]
    ensures id !in w ==> WithoutId(w, id) == w
    decreases |w|
  {
    if w != [] {
      var init := w[..|w| - 1];
      WithoutIdMembers(init, id);
      assert w == init + [w[|w| - 1]];
    }
  }

  /** Removal distributes over concatenation, so the relative order of the
      remaining entries is the order they had. */
  lemma {:induction false} WithoutIdConcat(a: seq<string>, b: seq<string>, id: string)
    ensures WithoutId(a + b, id) == WithoutId(a, id) + WithoutId(b, id)
    decreases |b|
  {
    if b == [] {
      assert a + b == a;
    } else {
      var init := b[..|b| - 1];
      WithoutIdConcat(a, init, id);
      assert (a + b)[..|a + b| - 1] == a + init;
    }
  }

  /** Removal keeps a duplicate-free watchlist duplicate-free. */
  lemma {:induction false} WithoutIdNoDuplicates(w: seq<string>, id: string)
    requires NoDuplicates(w)
    ensures NoDuplicates(WithoutId(w, id))
    decreases |w|
  {
    if w != [] {
      var init := w[..|w| - 1];
      assert NoDuplicates(init) by {
        forall i, j | 0 <= i < j < |init| ensures init[i] != init[j] {
          assert init[i] == w[i] && init[j] == w[j];
        }
      }
      WithoutIdNoDuplicates(init, id);
      WithoutIdMembers(init, id);
      assert w[|w| - 1] !in init;
    }
  }

  /** Appending an id the list lacks keeps it duplicate-free. */
  lemma AppendFreshNoDuplicates(w: seq<string>, id: string)
    requires NoDuplicates(w) && id !in w
    ensures NoDuplicates(w + [id])
  {
    forall i, j | 0 <= i < j < |w + [id]| ensures (w + [id])[i] != (w + [id])[j] {
      if j == |w| {
        assert (w + [id])[i] == w[i];
      }
    }
  }

  // ---------------------------------------------------------------------
  // The store

  class Store {
    var portfolio: seq<Holding>
    var watchlist: seq<string>
    /** The browser's key-value storage, as far as this store can see it. */
    var storage: map<string, Blob>

    /** The stored holdings are the in-memory holdings. */
    ghost predicate PortfolioSaved()
      reads this
    {
      PortfolioKey in storage && storage[PortfolioKey] == HoldingsBlob(portfolio)
    }

    /** The stored watchlist is the in-memory watchlist. */
    ghost predicate WatchlistSaved()
      reads this
    {
      WatchlistKey in storage && storage[WatchlistKey] == IdsBlob(watchlist)
    }

    /** What a reload of storage would give is what is in memory. */
    ghost predicate Synced()
      reads this
    {
      LoadedHoldings(storage) == portfolio && LoadedWatchlist(storage) == watchlist
    }

    /** The start-up effect: each collection is read from its own key and
        storage is left as it was. */
    constructor Load(saved: map<string, Blob>)
      ensures storage == saved
      ensures portfolio == LoadedHoldings(saved)
      ensures watchlist == LoadedWatchlist(saved)
      ensures Synced()
    {
      storage := saved;
      portfolio := LoadedHoldings(saved);
      watchlist := LoadedWatchlist(saved);
    }

    /** Replaces the holdings and writes them to their key; the watchlist
        and every other key stay as they were. */
    method SavePortfolio(newPortfolio: seq<Holding>)
      modifies this
      ensures portfolio == newPortfolio
      ensures watchlist == old(watchlist)
      ensures storage == old(storage)[PortfolioKey := HoldingsBlob(newPortfolio)]
      ensures PortfolioSaved()
      ensures old(WatchlistSaved()) ==> WatchlistSaved()
      ensures old(Synced()) ==> Synced()
    {
      portfolio := newPortfolio;
      storage := storage[PortfolioKey := HoldingsBlob(newPortfolio)];
    }

    /** Replaces the watchlist and writes it to its key; the holdings and
        every other key stay as they were. */
    method SaveWatchlist(newWatchlist: seq<string>)
      modifies this
      ensures watchlist == newWatchlist
      ensures portfolio == old(portfolio)
      ensures storage == old(storage)[WatchlistKey := IdsBlob(newWatchlist)]
      ensures WatchlistSaved()
      ensures old(PortfolioSaved()) ==> PortfolioSaved()
      ensures old(Synced()) ==> Synced()
    {
      watchlist := newWatchlist;
      storage := storage[WatchlistKey := IdsBlob(newWatchlist)];
    }

    /** Appends the holding stamped with the call-time timestamp now, which
        overrides the caller's purchaseDate; earlier holdings are kept. */
    method AddToPortfolio(item: Holding, now: string)
      modifies this
      ensures portfolio == old(portfolio) + [item.(purchaseDate := now)]
      ensures |portfolio| == |old(portfolio)| + 1
      ensures portfolio[|portfolio| - 1].coinId == item.coinId
      ensures portfolio[|portfolio| - 1].amount == item.amount
      ensures portfolio[|portfolio| - 1].purchasePrice == item.purchasePrice
      ensures portfolio[|portfolio| - 1].purchaseDate == now
      ensures watchlist == old(watchlist)
      ensures storage == old(storage)[PortfolioKey := HoldingsBlob(portfolio)]
      ensures old(Synced()) ==> Synced()
    {
      SavePortfolio(portfolio + [item.(purchaseDate := now)]);
    }

    /** Drops the holding at index (nothing when index is out of range) and
        re-saves the holdings either way. */
    method RemoveFromPortfolio(index: int)
      modifies this
      ensures portfolio == WithoutIndex(old(portfolio), index)
      ensures 0 <= index < |old(portfolio)| ==>
                portfolio == old(portfolio)[..index] + old(portfolio)[index + 1..]
      ensures !(0 <= index < |old(portfolio)|) ==> portfolio == old(portfolio)
      ensures watchlist == old(watchlist)
      ensures storage == old(storage)[PortfolioKey := HoldingsBlob(portfolio)]
      ensures old(Synced()) ==> Synced()
    {
      WithoutIndexIsSplice(portfolio, index);
      SavePortfolio(WithoutIndex(portfolio, index));
    }

    /** Appends coinId unless it is already watched, in which case neither
        the state nor the storage changes. */
    method AddToWatchlist(coinId: string)
      modifies this
      ensures coinId in old(watchlist) ==>
                watchlist == old(watchlist) && storage == old(storage)
      ensures coinId !in old(watchlist) ==>
                watchlist == old(watchlist) + [coinId] &&
                storage == old(storage)[WatchlistKey := IdsBlob(watchlist)]
      ensures portfolio == old(portfolio)
      ensures coinId in watchlist
      ensures NoDuplicates(old(watchlist)) ==> NoDuplicates(watchlist)
      ensures old(Synced()) ==> Synced()
    {
      if coinId !in watchlist {
        if NoDuplicates(watchlist) {
          AppendFreshNoDuplicates(watchlist, coinId);
        }
        SaveWatchlist(watchlist + [coinId]);
      }
    }

    /** Removes every occurrence of coinId, keeping the other entries in
        order, and re-saves the watchlist. */
    method RemoveFromWatchlist(coinId: string)
      modifies this
      ensures watchlist == WithoutId(old(watchlist), coinId)
      ensures coinId !in watchlist
      ensures forall x :: x in watchlist <==> x in old(watchlist) && x != coinId
      ensures NoDuplicates(old(watchlist)) ==> NoDuplicates(watchlist)
      ensures portfolio == old(portfolio)
      ensures storage == old(storage)[WatchlistKey := IdsBlob(watchlist)]
      ensures old(Synced()) ==> Synced()
    {
      WithoutIdMembers(watchlist, coinId);
      if NoDuplicates(watchlist) {
        WithoutIdNoDuplicates(watchlist, coinId);
      }
      SaveWatchlist(WithoutId(watchlist, coinId));
    }

    /** Membership query; changes nothing. */
    method IsInWatchlist(coinId: string) returns (b: bool)
      ensures b <==> coinId in watchlist
    {
      b := coinId in watchlist;
    }
  }
}
