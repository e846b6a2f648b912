/** The coin list view: the case-insensitive search filter, the three-way
    stable sort, the watchlist toggle and the top gainer/loser cards. */
module CoinList {
  import opened CryptoTypes
  import PortfolioStore

  // ---------------------------------------------------------------------
  // Search

  /** ASCII lower-casing of one character. */
  function LowerChar(c: char): char {
    if 'A' <= c <= 'Z' then (c as int + 32) as char else c
  }

  function ToLower(s: string): string
    decreases |s|
  {
    if s == [] then [] else [LowerChar(s[0])] + ToLower(s[1..])
  }

  /** Lower-casing twice is lower-casing once, so a query that is already
      lower case is searched for unchanged. */
  lemma {:induction false} ToLowerIdempotent(s: string)
    ensures |ToLower(s)| == |s|
    ensures ToLower(ToLower(s)) == ToLower(s)
    decreases |s|
  {
    if s != [] {
      ToLowerIdempotent(s[1..]);
      assert ToLower(s)[1..] == ToLower(s[1..]);
    }
  }

  /** String.prototype.includes, searching from the left. */
  function Includes(hay: string, needle: string): bool
    decreases |hay|
  {
    if |needle| > |hay| then false
    else hay[..|needle|] == needle || Includes(hay[1..], needle)
  }

  ghost predicate OccursAt(hay: string, needle: string, i: int) {
    0 <= i && i + |needle| <= |hay| && hay[i..i + |needle|] == needle
  }

  /** includes holds exactly when the needle occurs at some position. */
  lemma {:induction false} IncludesIffOccurs(hay: string, needle: string)
    ensures Includes(hay, needle) <==> exists i :: OccursAt(hay, needle, i)
    decreases |hay|
  {
    if |needle| <= |hay| {
      if hay[..|needle|] == needle {
        assert OccursAt(hay, needle, 0);
      } else {
        IncludesIffOccurs(hay[1..], needle);
        if Includes(hay[1..], needle) {
          var i :| OccursAt(hay[1..], needle, i);
          assert hay[1..][i..i + |needle|] == hay[i + 1..i + 1 + |needle|];
          assert OccursAt(hay, needle, i + 1);
        }
        if exists i :: OccursAt(hay, needle, i) {
          var i :| OccursAt(hay, needle, i);
          assert i != 0;
          assert hay[1..][i - 1..i - 1 + |needle|] == hay[i..i + |needle|];
          assert OccursAt(hay[1..], needle, i - 1);
        }
      }
    }
  }

  /** The search predicate: the lower-cased name or symbol contains the
      lower-cased query. */
  predicate Matches(coin: Coin, query: string) {
    Includes(ToLower(coin.name), ToLower(query)) || Includes(ToLower(coin.symbol), ToLower(query))
  }

  /** coins.filter(Matches): the matching coins, in their listing order. */
  function FilterCoins(coins: seq<Coin>, query: string): seq<Coin>
    decreases |coins|
  {
    if coins == [] then []
    else
      var last := coins[|coins| - 1];
      FilterCoins(coins[..|coins| - 1], query) + (if Matches(last, query) then [last] else [])
  }

  /** Each coin occurs in the filter as often as in the listing when it
      matches, and not at all otherwise. */
  lemma {:induction false} FilterMultiplicity(coins: seq<Coin>, query: string, c: Coin)
    ensures multiset(FilterCoins(coins, query))[c] == if Matches(c, query) then multiset(coins)[c] else 0
    decreases |coins|
  {
    if coins != [] {
      var init := coins[..|coins| - 1];
      var last := coins[|coins| - 1];
      FilterMultiplicity(init, query, c);
      assert coins == init + [last];
      assert multiset(coins) == multiset(init) + multiset{last};
      var kept := if Matches(last, query) then [last] else [];
      assert FilterCoins(coins, query) == FilterCoins(init, query) + kept;
      assert multiset(FilterCoins(coins, query)) == multiset(FilterCoins(init, query)) + multiset(kept);
    }
  }

  /** The filter keeps exactly the matching coins, each as often as it was
      listed, and drops nothing else. */
  lemma FilterKeepsExactlyMatches(coins: seq<Coin>, query: string)
    ensures forall c :: c in FilterCoins(coins, query) <==> c in coins && Matches(c, query)
    ensures forall c :: Matches(c, query) ==> multiset(FilterCoins(coins, query))[c] == multiset(coins)[c]
    ensures forall c :: !Matches(c, query) ==> multiset(FilterCoins(coins, query))[c] == 0
  {
    forall c
      ensures multiset(FilterCoins(coins, query))[c] == if Matches(c, query) then multiset(coins)[c] else 0
    {
      FilterMultiplicity(coins, query, c);
    }
  }

  /** The filter distributes over concatenation: the kept coins stay in
      their listing order. */
  lemma {:induction false} FilterConcat(a: seq<Coin>, b: seq<Coin>, query: string)
    ensures FilterCoins(a + b, query) == FilterCoins(a, query) + FilterCoins(b, query)
    decreases |b|
  {
    if b == [] {
      assert a + b == a;
    } else {
      FilterConcat(a, b[..|b| - 1], query);
      assert (a + b)[..|a + b| - 1] == a + b[..|b| - 1];
    }
  }

  /** An empty query matches every coin, so the filter keeps the whole
      listing. */
  lemma {:induction false} EmptyQueryKeepsAll(coins: seq<Coin>)
    ensures FilterCoins(coins, "") == coins
    decreases |coins|
  {
    if coins != [] {
      EmptyQueryKeepsAll(coins[..|coins| - 1]);
      assert coins[..|coins| - 1] + [coins[|coins| - 1]] == coins;
    }
  }

  /** Searching is case-insensitive: lower-casing the query first changes
      nothing. */
  lemma QueryCaseIgnored(coin: Coin, query: string)
    ensures Matches(coin, query) <==> Matches(coin, ToLower(query))
  {
    ToLowerIdempotent(query);
  }

  // ---------------------------------------------------------------------
  // Sorting

  const PriceSort: string := "price"
  const ChangeSort: string := "change"

  /** The comparator handed to sort: negative when a goes first. */
  function Compare(a: Coin, b: Coin, sortBy: string): real {
    if sortBy == PriceSort then b.currentPrice - a.currentPrice
    else if sortBy == ChangeSort then b.priceChangePercentage24h - a.priceChangePercentage24h
    else (a.marketCapRank - b.marketCapRank) as real
  }

  /** A key whose ascending order is the comparator's order. */
  function SortKey(c: Coin, sortBy: string): real {
    if sortBy == PriceSort then -c.currentPrice
    else if sortBy == ChangeSort then -c.priceChangePercentage24h
    else c.marketCapRank as real
  }

  /** The comparator is the difference of the keys, so it is a consistent
      comparator and sorting by it is sorting by the key. */
  lemma CompareIsKeyDifference(a: Coin, b: Coin, sortBy: string)
    ensures Compare(a, b, sortBy) == SortKey(a, sortBy) - SortKey(b, sortBy)
  {
  }

  ghost predicate Sorted(s: seq<Coin>, sortBy: string) {
    forall i, j :: 0 <= i < j < |s| ==> SortKey(s[i], sortBy) <= SortKey(s[j], sortBy)
  }

  /** The coins of s whose key is k, in the order of s. */
  function WithKey(s: seq<Coin>, sortBy: string, k: real): seq<Coin>
    decreases |s|
  {
    if s == [] then []
    else (if SortKey(s[0], sortBy) == k then [s[0]] else []) + WithKey(s[1..], sortBy, k)
  }

  /** Inserts x into a sorted list after every coin whose key is not
      greater, which is what keeps the sort stable. */
  function Insert(x: Coin, s: seq<Coin>, sortBy: string): seq<Coin>
    decreases |s|
  {
    if s == [] then [x]
    else if SortKey(x, sortBy) < SortKey(s[0], sortBy) then [x] + s
    else [s[0]] + Insert(x, s[1..], sortBy)
  }

  /** A stable sort by the comparator (insertion sort, inserting the coins
      in listing order). */
  function SortCoins(s: seq<Coin>, sortBy: string): seq<Coin>
    decreases |s|
  {
    if s == [] then [] else Insert(s[|s| - 1], SortCoins(s[..|s| - 1], sortBy), sortBy)
  }

  lemma {:induction false} InsertPermutes(x: Coin, s: seq<Coin>, sortBy: string)
    ensures multiset(Insert(x, s, sortBy)) == multiset(s) + multiset{x}
    decreases |s|
  {
    if s != [] && SortKey(x, sortBy) >= SortKey(s[0], sortBy) {
      InsertPermutes(x, s[1..], sortBy);
      assert s == [s[0]] + s[1..];
    }
  }

  lemma {:induction false} InsertMembers(x: Coin, s: seq<Coin>, sortBy: string)
    ensures forall y :: y in Insert(x, s, sortBy) <==> y == x || y in s
    decreases |s|
  {
    if s != [] && SortKey(x, sortBy) >= SortKey(s[0], sortBy) {
      InsertMembers(x, s[1..], sortBy);
      assert forall y :: y in s <==> y == s[0] || y in s[1..];
    }
  }

  /** A coin no greater than every coin of a sorted list may head it. */
  lemma SortedCons(a: Coin, t: seq<Coin>, sortBy: string)
    requires Sorted(t, sortBy)
    requires forall y :: y in t ==> SortKey(a, sortBy) <= SortKey(y, sortBy)
    ensures Sorted([a] + t, sortBy)
  {
    var r := [a] + t;
    forall i, j | 0 <= i < j < |r| ensures SortKey(r[i], sortBy) <= SortKey(r[j], sortBy) {
      assert r[j] == t[j - 1];
      if i == 0 {
        assert r[j] in t;
      } else {
        assert r[i] == t[i - 1];
      }
    }
  }

  lemma SortedTail(s: seq<Coin>, sortBy: string)
    requires Sorted(s, sortBy) && s != []
    ensures Sorted(s[1..], sortBy)
    ensures forall y :: y in s ==> SortKey(s[0], sortBy) <= SortKey(y, sortBy)
  {
    forall y | y in s ensures SortKey(s[0], sortBy) <= SortKey(y, sortBy) {
      var j :| 0 <= j < |s| && s[j] == y;
      if j > 0 {
        assert SortKey(s[0], sortBy) <= SortKey(s[j], sortBy);
      }
    }
  }

  lemma {:induction false} InsertSorted(x: Coin, s: seq<Coin>, sortBy: string)
    requires Sorted(s, sortBy)
    ensures Sorted(Insert(x, s, sortBy), sortBy)
    decreases |s|
  {
    if s == [] {
    } else {
      SortedTail(s, sortBy);
      if SortKey(x, sortBy) < SortKey(s[0], sortBy) {
        SortedCons(x, s, sortBy);
      } else {
        InsertSorted(x, s[1..], sortBy);
        InsertMembers(x, s[1..], sortBy);
        SortedCons(s[0], Insert(x, s[1..], sortBy), sortBy);
      }
    }
  }

  lemma {:induction false} WithKeyConcat(a: seq<Coin>, b: seq<Coin>, sortBy: string, k: real)
    ensures WithKey(a + b, sortBy, k) == WithKey(a, sortBy, k) + WithKey(b, sortBy, k)
    decreases |a|
  {
    if a == [] {
      assert a + b == b;
    } else {
      WithKeyConcat(a[1..], b, sortBy, k);
      assert (a + b)[1..] == a[1..] + b;
      var head := if SortKey(a[0], sortBy) == k then [a[0]] else [];
      assert WithKey(a + b, sortBy, k) == head + WithKey(a[1..] + b, sortBy, k);
      assert WithKey(a, sortBy, k) == head + WithKey(a[1..], sortBy, k);
    }
  }

  lemma {:induction false} WithKeyAbsent(s: seq<Coin>, sortBy: string, k: real)
    requires forall c :: c in s ==> SortKey(c, sortBy) != k
    ensures WithKey(s, sortBy, k) == []
    decreases |s|
  {
    if s != [] {
      assert s[0] in s;
      assert forall c :: c in s[1..] ==> c in s;
      WithKeyAbsent(s[1..], sortBy, k);
    }
  }

  /** Inserting x into a sorted list puts it after every coin of equal key. */
  lemma {:induction false} InsertStable(x: Coin, s: seq<Coin>, sortBy: string, k: real)
    requires Sorted(s, sortBy)
    ensures WithKey(Insert(x, s, sortBy), sortBy, k) ==
              WithKey(s, sortBy, k) + (if SortKey(x, sortBy) == k then [x] else [])
    decreases |s|
  {
    if s != [] {
      var kx, k0 := SortKey(x, sortBy), SortKey(s[0], sortBy);
      var tail := if kx == k then [x] else [];
      var head := if k0 == k then [s[0]] else [];
      assert WithKey(s, sortBy, k) == head + WithKey(s[1..], sortBy, k);
      if kx < k0 {
        assert Insert(x, s, sortBy) == [x] + s;
        assert ([x] + s)[1..] == s;
        assert WithKey([x] + s, sortBy, k) == tail + WithKey(s, sortBy, k);
        if kx == k {
          forall c | c in s ensures SortKey(c, sortBy) != k {
            var i :| 0 <= i < |s| && s[i] == c;
            assert SortKey(s[0], sortBy) <= SortKey(s[i], sortBy);
          }
          WithKeyAbsent(s, sortBy, k);
        }
      } else {
        SortedTail(s, sortBy);
        var rest := Insert(x, s[1..], sortBy);
        InsertStable(x, s[1..], sortBy, k);
        assert Insert(x, s, sortBy) == [s[0]] + rest;
        assert ([s[0]] + rest)[1..] == rest;
        assert WithKey([s[0]] + rest, sortBy, k) == head + WithKey(rest, sortBy, k);
      }
    }
  }

  lemma {:induction false} SortPermutes(s: seq<Coin>, sortBy: string)
    ensures multiset(SortCoins(s, sortBy)) == multiset(s)
    decreases |s|
  {
    if s != [] {
      var init, x := s[..|s| - 1], s[|s| - 1];
      var sorted := SortCoins(init, sortBy);
      calc {
        multiset(SortCoins(s, sortBy));
        multiset(Insert(x, sorted, sortBy));
        { InsertPermutes(x, sorted, sortBy); }
        multiset(sorted) + multiset{x};
        { SortPermutes(init, sortBy); }
        multiset(init) + multiset{x};
        multiset(init + [x]);
        { assert init + [x] == s; }
        multiset(s);
      }
    }
  }

  lemma {:induction false} SortOrders(s: seq<Coin>, sortBy: string)
    ensures Sorted(SortCoins(s, sortBy), sortBy)
    decreases |s|
  {
    if s != [] {
      var init := s[..|s| - 1];
      SortOrders(init, sortBy);
      InsertSorted(s[|s| - 1], SortCoins(init, sortBy), sortBy);
    }
  }

  /** The sort returns a permutation of its input, ordered by the key. */
  lemma SortPermutesAndOrders(s: seq<Coin>, sortBy: string)
    ensures multiset(SortCoins(s, sortBy)) == multiset(s)
    ensures |SortCoins(s, sortBy)| == |s|
    ensures Sorted(SortCoins(s, sortBy), sortBy)
  {
    SortPermutes(s, sortBy);
    SortOrders(s, sortBy);
    assert |SortCoins(s, sortBy)| == |multiset(SortCoins(s, sortBy))|;
  }

  /** The sort is stable: for every key, the coins carrying it come out in
      the order they went in. */
  lemma {:induction false} SortIsStable(s: seq<Coin>, sortBy: string, k: real)
    ensures WithKey(SortCoins(s, sortBy), sortBy, k) == WithKey(s, sortBy, k)
    decreases |s|
  {
    if s != [] {
      var init := s[..|s| - 1];
      var last := s[|s| - 1];
      SortIsStable(init, sortBy, k);
      SortOrders(init, sortBy);
      InsertStable(last, SortCoins(init, sortBy), sortBy, k);
      WithKeyConcat(init, [last], sortBy, k);
      assert WithKey([last], sortBy, k) == if SortKey(last, sortBy) == k then [last] else [];
      assert init + [last] == s;
    }
  }

  /** Two lists sorted by the key, with the same coins of each key in the
      same order, are the same list. */
  lemma {:induction false} SortedWithSameKeysEqual(a: seq<Coin>, b: seq<Coin>, sortBy: string)
    requires Sorted(a, sortBy) && Sorted(b, sortBy)
    requires forall k :: WithKey(a, sortBy, k) == WithKey(b, sortBy, k)
    ensures a == b
    decreases |a|
  {
    HeadsAgree(a, b, sortBy);
    if a != [] {
      SameHeadSameTailKeys(a, b, sortBy);
      SortedTail(a, sortBy);
      SortedTail(b, sortBy);
      SortedWithSameKeysEqual(a[1..], b[1..], sortBy);
      assert a == [a[0]] + a[1..];
      assert b == [b[0]] + b[1..];
    }
  }

  /** Such lists are empty together and start with the same key. */
  lemma HeadsAgree(a: seq<Coin>, b: seq<Coin>, sortBy: string)
    requires Sorted(a, sortBy) && Sorted(b, sortBy)
    requires forall k :: WithKey(a, sortBy, k) == WithKey(b, sortBy, k)
    ensures a == [] <==> b == []
    ensures a != [] ==> SortKey(a[0], sortBy) == SortKey(b[0], sortBy)
  {
    if a != [] && (b == [] || SortKey(a[0], sortBy) < SortKey(b[0], sortBy)) {
      FirstKeyPresent(a, b, sortBy);
      assert false;
    } else if b != [] && (a == [] || SortKey(b[0], sortBy) < SortKey(a[0], sortBy)) {
      FirstKeyPresent(b, a, sortBy);
      assert false;
    }
  }

  /** The coins of key k in a non-empty list: its head when that has key k,
      then those of its tail. */
  lemma WithKeyHead(a: seq<Coin>, sortBy: string, k: real)
    requires a != []
    ensures WithKey(a, sortBy, k) ==
              (if SortKey(a[0], sortBy) == k then [a[0]] else []) + WithKey(a[1..], sortBy, k)
  {
  }

  /** With equal head keys the heads are the same coin, and the tails again
      have the same coins of each key in the same order. */
  lemma SameHeadSameTailKeys(a: seq<Coin>, b: seq<Coin>, sortBy: string)
    requires a != [] && b != [] && SortKey(a[0], sortBy) == SortKey(b[0], sortBy)
    requires forall k :: WithKey(a, sortBy, k) == WithKey(b, sortBy, k)
    ensures a[0] == b[0]
    ensures forall k :: WithKey(a[1..], sortBy, k) == WithKey(b[1..], sortBy, k)
  {
    var k0 := SortKey(a[0], sortBy);
    WithKeyHead(a, sortBy, k0);
    WithKeyHead(b, sortBy, k0);
    assert WithKey(a, sortBy, k0)[0] == a[0];
    assert WithKey(b, sortBy, k0)[0] == b[0];
    forall k ensures WithKey(a[1..], sortBy, k) == WithKey(b[1..], sortBy, k) {
      WithKeyHead(a, sortBy, k);
      WithKeyHead(b, sortBy, k);
      var wa, wb := WithKey(a, sortBy, k), WithKey(b, sortBy, k);
      assert wa == wb;
      if k == k0 {
        assert WithKey(a[1..], sortBy, k) == wa[1..];
        assert WithKey(b[1..], sortBy, k) == wb[1..];
      } else {
        assert WithKey(a[1..], sortBy, k) == wa;
        assert WithKey(b[1..], sortBy, k) == wb;
      }
    }
  }

  /** The key of the head of a non-empty sorted list a is missing from a
      sorted list b whose coins all have greater keys, so the two lists
      differ in the coins of that key. */
  lemma FirstKeyPresent(a: seq<Coin>, b: seq<Coin>, sortBy: string)
    requires a != [] && Sorted(b, sortBy)
    requires b != [] ==> SortKey(a[0], sortBy) < SortKey(b[0], sortBy)
    ensures WithKey(a, sortBy, SortKey(a[0], sortBy)) != WithKey(b, sortBy, SortKey(a[0], sortBy))
  {
    var k0 := SortKey(a[0], sortBy);
    assert WithKey(a, sortBy, k0) == [a[0]] + WithKey(a[1..], sortBy, k0);
    forall c | c in b ensures SortKey(c, sortBy) != k0 {
      var i :| 0 <= i < |b| && b[i] == c;
      assert SortKey(b[0], sortBy) <= SortKey(b[i], sortBy);
    }
    WithKeyAbsent(b, sortBy, k0);
  }

  /** The sort is the only stable one: any list sorted by the key that keeps
      the coins of each key in their input order is the sort's result. */
  lemma SortIsUnique(s: seq<Coin>, t: seq<Coin>, sortBy: string)
    requires Sorted(t, sortBy)
    requires forall k :: WithKey(t, sortBy, k) == WithKey(s, sortBy, k)
    ensures t == SortCoins(s, sortBy)
  {
    SortOrders(s, sortBy);
    forall k ensures WithKey(t, sortBy, k) == WithKey(SortCoins(s, sortBy), sortBy, k) {
      SortIsStable(s, sortBy, k);
    }
    SortedWithSameKeysEqual(t, SortCoins(s, sortBy), sortBy);
  }

  /** The list the grid renders: the filtered coins, sorted. */
  function FilterAndSort(coins: seq<Coin>, query: string, sortBy: string): seq<Coin> {
    SortCoins(FilterCoins(coins, query), sortBy)
  }

  /** What the rendered list is: a permutation of the matching coins;
      price descending, 24h change descending, or market-cap rank ascending
      by the sort key; coins with equal keys in listing order. */
  lemma FilterAndSortSpec(coins: seq<Coin>, query: string, sortBy: string)
    ensures var r := FilterAndSort(coins, query, sortBy);
      && multiset(r) == multiset(FilterCoins(coins, query))
      && (forall c :: c in r <==> c in coins && Matches(c, query))
      && (forall i, j :: 0 <= i < j < |r| ==> Compare(r[i], r[j], sortBy) <= 0.0)
      && (sortBy == PriceSort ==>
            forall i, j :: 0 <= i < j < |r| ==> r[i].currentPrice >= r[j].currentPrice)
      && (sortBy == ChangeSort ==>
            forall i, j :: 0 <= i < j < |r| ==> r[i].priceChangePercentage24h >= r[j].priceChangePercentage24h)
      && (sortBy != PriceSort && sortBy != ChangeSort ==>
            forall i, j :: 0 <= i < j < |r| ==> r[i].marketCapRank <= r[j].marketCapRank)
      && (forall k :: WithKey(r, sortBy, k) == WithKey(FilterCoins(coins, query), sortBy, k))
  {
    var f := FilterCoins(coins, query);
    var r := FilterAndSort(coins, query, sortBy);
    SortPermutesAndOrders(f, sortBy);
    FilterKeepsExactlyMatches(coins, query);
    forall c ensures c in r <==> c in f {
      assert c in r <==> c in multiset(r);
      assert c in f <==> c in multiset(f);
    }
    forall k ensures WithKey(r, sortBy, k) == WithKey(f, sortBy, k) {
      SortIsStable(f, sortBy, k);
    }
  }

  /** With an empty query the grid shows every listed coin, as often as it
      is listed. */
  lemma EmptyQueryShowsAll(coins: seq<Coin>, sortBy: string)
    ensures multiset(FilterAndSort(coins, "", sortBy)) == multiset(coins)
    ensures |FilterAndSort(coins, "", sortBy)| == |coins|
  {
    EmptyQueryKeepsAll(coins);
    SortPermutesAndOrders(coins, sortBy);
  }

  // ---------------------------------------------------------------------
  // Watchlist toggle

  /** The watchlist after one toggle of id. */
  function Toggled(w: seq<string>, id: string): seq<string> {
    if id in w then PortfolioStore.WithoutId(w, id) else w + [id]
  }

  /** A toggle flips the membership of id and of nothing else; two toggles
      restore it, and restore the very list when id was absent (a watched id
      comes back at the end). */
  lemma ToggleFlipsMembership(w: seq<string>, id: string)
    ensures (id in Toggled(w, id)) <==> id !in w
    ensures forall x :: x != id ==> (x in Toggled(w, id) <==> x in w)
    ensures (id in Toggled(Toggled(w, id), id)) <==> id in w
    ensures id !in w ==> Toggled(Toggled(w, id), id) == w
    ensures id in w ==> Toggled(Toggled(w, id), id) == PortfolioStore.WithoutId(w, id) + [id]
  {
    PortfolioStore.WithoutIdMembers(w, id);
    PortfolioStore.WithoutIdMembers(w + [id], id);
    if id !in w {
      PortfolioStore.WithoutIdConcat(w, [id], id);
      assert PortfolioStore.WithoutId([id], id) == PortfolioStore.WithoutId([], id) + [];
    } else {
      var t := Toggled(w, id);
      assert id !in t;
      assert Toggled(t, id) == t + [id];
    }
  }

  /** A toggle keeps a duplicate-free watchlist duplicate-free. */
  lemma ToggleNoDuplicates(w: seq<string>, id: string)
    requires PortfolioStore.NoDuplicates(w)
    ensures PortfolioStore.NoDuplicates(Toggled(w, id))
  {
    if id in w {
      PortfolioStore.WithoutIdNoDuplicates(w, id);
    } else {
      PortfolioStore.AppendFreshNoDuplicates(w, id);
    }
  }

  /** handleToggleWatchlist: removes the id when it is watched, adds it
      otherwise; the watchlist is re-saved and the holdings are untouched. */
  method ToggleWatchlist(store: PortfolioStore.Store, coinId: string)
    modifies store
    ensures store.watchlist == Toggled(old(store.watchlist), coinId)
    ensures store.portfolio == old(store.portfolio)
    ensures store.storage == old(store.storage)[PortfolioStore.WatchlistKey := PortfolioStore.IdsBlob(store.watchlist)]
    ensures old(store.Synced()) ==> store.Synced()
  {
    var watched := store.IsInWatchlist(coinId);
    if watched {
      store.RemoveFromWatchlist(coinId);
    } else {
      store.AddToWatchlist(coinId);
    }
  }

  // ---------------------------------------------------------------------
  // Market overview cards

  /** Math.max over the 24h changes of a non-empty listing. */
  function MaxChange(coins: seq<Coin>): (m: real)
    requires |coins| > 0
    ensures forall c :: c in coins ==> c.priceChangePercentage24h <= m
    ensures exists c :: c in coins && c.priceChangePercentage24h == m
    decreases |coins|
  {
    if |coins| == 1 then coins[0].priceChangePercentage24h
    else
      var rest := MaxChange(coins[1..]);
      assert forall c :: c in coins ==> c == coins[0] || c in coins[1..];
      if coins[0].priceChangePercentage24h >= rest then coins[0].priceChangePercentage24h else rest
  }

  /** Math.min over the 24h changes of a non-empty listing. */
  function MinChange(coins: seq<Coin>): (m: real)
    requires |coins| > 0
    ensures forall c :: c in coins ==> m <= c.priceChangePercentage24h
    ensures exists c :: c in coins && c.priceChangePercentage24h == m
    decreases |coins|
  {
    if |coins| == 1 then coins[0].priceChangePercentage24h
    else
      var rest := MinChange(coins[1..]);
      assert forall c :: c in coins ==> c == coins[0] || c in coins[1..];
      if coins[0].priceChangePercentage24h <= rest then coins[0].priceChangePercentage24h else rest
  }

  /** The two cards: nothing for an empty listing, otherwise the largest and
      the smallest 24h change. */
  function TopGainer(coins: seq<Coin>): Option<real> {
    if |coins| > 0 then Some(MaxChange(coins)) else None
  }

  function TopLoser(coins: seq<Coin>): Option<real> {
    if |coins| > 0 then Some(MinChange(coins)) else None
  }

  /** Both cards appear together, only for a non-empty listing, and the
      gainer's change is never below the loser's. */
  lemma GainerNotBelowLoser(coins: seq<Coin>)
    ensures TopGainer(coins).Some? <==> |coins| > 0
    ensures TopLoser(coins).Some? <==> |coins| > 0
    ensures |coins| > 0 ==> TopLoser(coins).value <= TopGainer(coins).value
  {
    if |coins| > 0 {
      assert coins[0] in coins;
    }
  }

  /** Worked scenario: a listing with changes 2.5 and -1.2. */
  lemma MarketSummaryScenario()
    ensures var btc := Coin("bitcoin", "btc", "Bitcoin", 50000.0, 2.5, 1, None, None, None, None);
            var eth := Coin("ethereum", "eth", "Ethereum", 3000.0, -1.2, 2, None, None, None, None);
            TopGainer([btc, eth]) == Some(2.5) && TopLoser([btc, eth]) == Some(-1.2)
  {
  }
}
