/** The coin detail view: the short "About" excerpt cut from the coin's
    English description, when that excerpt is shown, and which optional
    market figures are shown. */
module CoinDetail {
  import opened CryptoTypes

  /** The separator the description is split on: a full stop and a space. */
  const Separator: string := ". "

  ghost predicate SeparatorAt(s: string, sep: string, j: int) {
    0 <= j && j + |sep| <= |s| && s[j..j + |sep|] == sep
  }

  lemma SeparatorShift(s: string, sep: string, j: int)
    requires 1 <= j && |s| >= 1
    ensures SeparatorAt(s, sep, j) <==> SeparatorAt(s[1..], sep, j - 1)
  {
    if j + |sep| <= |s| {
      var here, there := s[j..j + |sep|], s[1..][j - 1..j - 1 + |sep|];
      forall k | 0 <= k < |sep| ensures here[k] == there[k] {
        assert here[k] == s[j + k];
      }
      assert here == there;
    }
  }

  /** String.prototype.indexOf: the first position where sep occurs. */
  function IndexOf(s: string, sep: string): (r: Option<nat>)
    requires |sep| > 0
    ensures r.Some? ==> SeparatorAt(s, sep, r.value)
    ensures r.Some? ==> forall j :: 0 <= j < r.value ==> !SeparatorAt(s, sep, j)
    ensures r.None? ==> forall j :: !SeparatorAt(s, sep, j)
    decreases |s|
  {
    if |s| < |sep| then None
    else if s[..|sep|] == sep then Some(0)
    else
      var rest := IndexOf(s[1..], sep);
      assert forall j :: 1 <= j ==> (SeparatorAt(s, sep, j) <==> SeparatorAt(s[1..], sep, j - 1)) by {
        forall j | 1 <= j ensures SeparatorAt(s, sep, j) <==> SeparatorAt(s[1..], sep, j - 1) {
          SeparatorShift(s, sep, j);
        }
      }
      match rest
      case None => None
      case Some(i) => Some(i + 1)
  }

  /** String.prototype.split with a non-empty separator: the pieces between
      the occurrences of sep, found from the left. */
  function Split(s: string, sep: string): (pieces: seq<string>)
    requires |sep| > 0
    ensures |pieces| >= 1
    decreases |s|
  {
    match IndexOf(s, sep)
    case None => [s]
    case Some(i) => [s[..i]] + Split(s[i + |sep|..], sep)
  }

  /** Array.prototype.join. */
  function Join(pieces: seq<string>, sep: string): string
    decreases |pieces|
  {
    if pieces == [] then ""
    else if |pieces| == 1 then pieces[0]
    else pieces[0] + sep + Join(pieces[1..], sep)
  }

  /** Joining the pieces of a split gives the text back. */
  lemma {:induction false} JoinSplit(s: string, sep: string)
    requires |sep| > 0
    ensures Join(Split(s, sep), sep) == s
    decreases |s|
  {
    var found := IndexOf(s, sep);
    if found.Some? {
      var i := found.value;
      var rest := s[i + |sep|..];
      JoinSplit(rest, sep);
      JoinCons(s[..i], Split(rest, sep), sep);
      SeparatorSplice(s, sep, i);
    }
  }

  lemma JoinCons(a: string, tail: seq<string>, sep: string)
    requires |tail| >= 1
    ensures Join([a] + tail, sep) == a + sep + Join(tail, sep)
  {
    assert ([a] + tail)[1..] == tail;
  }

  lemma SeparatorSplice(s: string, sep: string, i: int)
    requires SeparatorAt(s, sep, i)
    ensures s == s[..i] + sep + s[i + |sep|..]
  {
    assert s == s[..i] + s[i..i + |sep|] + s[i + |sep|..];
  }

  /** No piece of a split contains the separator. */
  lemma {:induction false} SplitPiecesAvoidSeparator(s: string, sep: string)
    requires |sep| > 0
    ensures forall p, j :: p in Split(s, sep) ==> !SeparatorAt(p, sep, j)
    decreases |s|
  {
    match IndexOf(s, sep)
    case None =>
    case Some(i) =>
      var rest := s[i + |sep|..];
      SplitPiecesAvoidSeparator(rest, sep);
      forall j ensures !SeparatorAt(s[..i], sep, j) {
        if SeparatorAt(s[..i], sep, j) {
          assert s[..i][j..j + |sep|] == s[j..j + |sep|];
          assert SeparatorAt(s, sep, j);
        }
      }
  }

  /** Cutting the pieces after the k-th one: the first k pieces joined, the
      separator, and the remaining pieces joined make up the whole. */
  lemma {:induction false} JoinCut(pieces: seq<string>, sep: string, k: nat)
    requires 1 <= k < |pieces|
    ensures Join(pieces, sep) == Join(pieces[..k], sep) + sep + Join(pieces[k..], sep)
    decreases k
  {
    if k > 1 {
      JoinCut(pieces[1..], sep, k - 1);
      assert pieces[..k][1..] == pieces[1..][..k - 1];
      assert pieces[1..][k - 1..] == pieces[k..];
    } else {
      assert pieces[..1] == [pieces[0]];
      assert pieces[1..] == pieces[k..];
    }
  }

  /** The excerpt: the first three pieces of the description split on ". ",
      joined with ". ", and a closing ".". */
  function Excerpt(description: string): string {
    var pieces := Split(description, Separator);
    Join(pieces[..if |pieces| < 3 then |pieces| else 3], Separator) + "."
  }

  /** The excerpt ends in "." and, without it, is a prefix of the
      description; when the description has more than three pieces, the
      excerpt text, a separator and the other pieces rebuild it. */
  lemma ExcerptIsPrefix(description: string)
    ensures var e := Excerpt(description);
      && |e| >= 1 && e[|e| - 1] == '.'
      && e[..|e| - 1] <= description
      && |e| <= |description| + 1
    ensures var pieces := Split(description, Separator);
      |pieces| > 3 ==>
        description == Excerpt(description)[..|Excerpt(description)| - 1] + Separator + Join(pieces[3..], Separator)
  {
    var pieces := Split(description, Separator);
    var e := Excerpt(description);
    JoinSplit(description, Separator);
    var n := if |pieces| < 3 then |pieces| else 3;
    assert e[..|e| - 1] == Join(pieces[..n], Separator);
    if |pieces| > 3 {
      JoinCut(pieces, Separator, 3);
    } else {
      assert pieces[..n] == pieces;
    }
  }

  /** A description with at most two separators (so at most three pieces),
      in particular one with none, is shown whole with a "." added. */
  lemma ExcerptOfShortDescription(description: string)
    ensures |Split(description, Separator)| <= 3 ==> Excerpt(description) == description + "."
    ensures (forall j :: !SeparatorAt(description, Separator, j)) ==> Excerpt(description) == description + "."
  {
    var pieces := Split(description, Separator);
    JoinSplit(description, Separator);
    if |pieces| <= 3 {
      assert pieces[..|pieces|] == pieces;
    }
  }

  /** The "About" section: shown only when the detail, its description and
      its English text are all present and that text is not empty. */
  function AboutText(detail: Option<CoinDetailRecord>): (r: Option<string>)
    ensures r.Some? <==>
              && detail.Some? && detail.value.description.Some?
              && detail.value.description.value.en.Some?
              && detail.value.description.value.en.value != ""
    ensures r.Some? ==> r.value == Excerpt(detail.value.description.value.en.value)
  {
    match detail
    case None => None
    case Some(d) =>
      match d.description
      case None => None
      case Some(desc) =>
        match desc.en
        case None => None
        case Some(en) => if en == "" then None else Some(Excerpt(en))
  }

  // ---------------------------------------------------------------------
  // Optional market figures

  /** What a slot guarded by `value && (<card/>)` renders: the card, the
      bare text "0" (the guard's value when the figure is a present zero,
      which React prints as text), or nothing (a missing figure). */
  datatype Rendered = Card(value: real) | ZeroText | Nothing

  /** A figure's slot: a card exactly when the figure is present and not
      zero, the text "0" exactly when it is a present zero, and nothing
      exactly when it is missing. */
  function ShownFigure(v: Option<real>): (r: Rendered)
    ensures r.Card? <==> v.Some? && v.value != 0.0
    ensures r.Card? ==> r.value == v.value
    ensures r.ZeroText? <==> v == Some(0.0)
    ensures r.Nothing? <==> v.None?
  {
    match v
    case None => Nothing
    case Some(x) => if x == 0.0 then ZeroText else Card(x)
  }

  /** The four optional slots of the market-data grid, as rendered. */
  datatype ShownFigures = ShownFigures(
    marketCapChange: Rendered,
    totalSupply: Rendered,
    maxSupply: Rendered,
    fullyDilutedValuation: Rendered
  )

  function VisibleFigures(coin: Coin): ShownFigures {
    ShownFigures(
      ShownFigure(coin.marketCapChangePercentage24h),
      ShownFigure(coin.totalSupply),
      ShownFigure(coin.maxSupply),
      ShownFigure(coin.fullyDilutedValuation))
  }

  /** A coin whose optional figures are zero shows no card, like a coin
      whose figures are missing, but its grid is not the same: each slot
      shows the text "0" where the other shows nothing. */
  lemma ZeroFiguresShowText(coin: Coin)
    requires coin.totalSupply == Some(0.0) && coin.maxSupply == Some(0.0)
    requires coin.marketCapChangePercentage24h == Some(0.0) && coin.fullyDilutedValuation == Some(0.0)
    ensures VisibleFigures(coin) == ShownFigures(ZeroText, ZeroText, ZeroText, ZeroText)
    ensures VisibleFigures(coin.(totalSupply := None, maxSupply := None,
                                 marketCapChangePercentage24h := None,
                                 fullyDilutedValuation := None)) == ShownFigures(Nothing, Nothing, Nothing, Nothing)
  {
  }
}
