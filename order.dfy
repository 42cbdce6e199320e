/** The order parameters of `buy` and `sell`, and the query string that is
    hashed into the order's signature. */
module Order {
  import opened Wrappers
  import opened Text

  /** A parameter dictionary, in insertion order. */
  type Params = seq<(string, string)>

  /** The two orders the handler can place. The amount is the text Python's
      `str()` gives the requested number. */
  datatype Order =
    | BuyOrder(ticker: string, price: string)
    | SellOrder(ticker: string, volume: string)
  {
    function Amount(): string
    {
      match this
      case BuyOrder(_, price) => price
      case SellOrder(_, volume) => volume
    }
  }

  /** The `params` dictionary each order function posts as its body. */
  function ParamsOf(o: Order): (ps: Params)
    ensures |ps| == 4
    ensures ps[0] == ("market", "KRW-" + o.ticker)
    ensures ps[1] == ("side", if o.BuyOrder? then "bid" else "ask")
    ensures ps[2] == ("ord_type", if o.BuyOrder? then "price" else "market")
    ensures ps[3] == (if o.BuyOrder? then "price" else "volume", o.Amount())
  {
    match o
    case BuyOrder(ticker, price) =>
      [("market", "KRW-" + ticker), ("side", "bid"), ("ord_type", "price"), ("price", price)]
    case SellOrder(ticker, volume) =>
      [("market", "KRW-" + ticker), ("side", "ask"), ("ord_type", "market"), ("volume", volume)]
  }

  /** `unquote(quote_plus(s))`: quote_plus writes a space as '+', which unquote
      leaves alone; every other character comes back as it was. */
  function FormText(s: string): (r: string)
    ensures |r| == |s|
    ensures forall i | 0 <= i < |s| :: r[i] == if s[i] == ' ' then '+' else s[i]
    ensures ' ' !in r
    decreases |s|
  {
    if s == [] then [] else [if s[0] == ' ' then '+' else s[0]] + FormText(s[1..])
  }

  function Pair(p: (string, string)): string
  {
    FormText(p.0) + "=" + FormText(p.1)
  }

  function Pairs(ps: Params): (pieces: seq<string>)
    ensures |pieces| == |ps|
  {
    seq(|ps|, i requires 0 <= i < |ps| => Pair(ps[i]))
  }

  /** `unquote(urlencode(params))`: the `k=v` pairs in insertion order, joined
      by '&'; the empty dictionary gives the empty string. */
  function QueryString(ps: Params): (q: string)
    ensures q == "" <==> ps == []
    ensures ps != [] ==> Pair(ps[0]) <= q
  {
    if ps == [] then "" else Join(Pairs(ps), '&')
  }

  /** Reads one `k=v` piece back. */
  function ParsePair(piece: string): Option<(string, string)>
  {
    var kv := Split(piece, '=');
    if |kv| == 2 then Some((kv[0], kv[1])) else None
  }

  function ParsePieces(pieces: seq<string>): (r: Option<Params>)
    ensures r.Some? ==> |r.value| == |pieces|
  {
    if pieces == [] then Some([])
    else match (ParsePair(pieces[0]), ParsePieces(pieces[1..]))
      case (Some(p), Some(rest)) => Some([p] + rest)
      case _ => None
  }

  /** Reads a query string back into its parameter list. */
  function ParseQuery(q: string): Option<Params>
  {
    if q == "" then Some([]) else ParsePieces(Split(q, '&'))
  }

  /** Text that passes through the query string unchanged and unambiguously. */
  predicate Plain(s: string)
  {
    '&' !in s && '=' !in s && ' ' !in s
  }

  predicate PlainParams(ps: Params)
  {
    forall i | 0 <= i < |ps| :: Plain(ps[i].0) && Plain(ps[i].1)
  }

  lemma PairRoundTrip(p: (string, string))
    requires Plain(p.0) && Plain(p.1)
    ensures ParsePair(Pair(p)) == Some(p)
  {
    assert FormText(p.0) == p.0 && FormText(p.1) == p.1;
    SplitAfter(p.0, '=', p.1);
    SplitWithout(p.1, '=');
  }

  lemma {:induction false} PiecesRoundTrip(ps: Params)
    requires PlainParams(ps)
    ensures ParsePieces(Pairs(ps)) == Some(ps)
    decreases |ps|
  {
    if ps != [] {
      PairRoundTrip(ps[0]);
      assert Pairs(ps)[1..] == Pairs(ps[1..]);
      PiecesRoundTrip(ps[1..]);
      assert [ps[0]] + ps[1..] == ps;
    }
  }

  /** Reading the query string back yields the same parameters in the same
      order, as long as no name or value contains '&', '=' or a space. */
  lemma QueryRoundTrip(ps: Params)
    requires PlainParams(ps)
    ensures ParseQuery(QueryString(ps)) == Some(ps)
  {
    if ps != [] {
      var pieces := Pairs(ps);
      forall k | 0 <= k < |pieces| ensures '&' !in pieces[k] {
        assert FormText(ps[k].0) == ps[k].0 && FormText(ps[k].1) == ps[k].1;
      }
      assert '=' in pieces[0];
      SplitJoin(pieces, '&');
      PiecesRoundTrip(ps);
    }
  }

  /** The string that is hashed and signed lists exactly the parameters the
      order posts as its body, in the same order. */
  lemma SignedQueryMatchesBody(o: Order)
    requires Plain(o.ticker) && Plain(o.Amount())
    ensures ParseQuery(QueryString(ParamsOf(o))) == Some(ParamsOf(o))
  {
    assert Plain("KRW-" + o.ticker);
    QueryRoundTrip(ParamsOf(o));
  }

  /** A pair without spaces is written as `k=v` verbatim. */
  lemma PairVerbatim(p: (string, string))
    requires ' ' !in p.0 && ' ' !in p.1
    ensures Pair(p) == p.0 + "=" + p.1
  {
    assert FormText(p.0) == p.0 && FormText(p.1) == p.1;
  }

  /** Four parameters without spaces are written `k=v` verbatim. */
  lemma FourPairs(ps: Params)
    requires |ps| == 4
    requires forall i | 0 <= i < 4 :: ' ' !in ps[i].0 && ' ' !in ps[i].1
    ensures Pairs(ps) == [
      ps[0].0 + "=" + ps[0].1, ps[1].0 + "=" + ps[1].1,
      ps[2].0 + "=" + ps[2].1, ps[3].0 + "=" + ps[3].1]
  {
    PairVerbatim(ps[0]);
    PairVerbatim(ps[1]);
    PairVerbatim(ps[2]);
    PairVerbatim(ps[3]);
  }

  /** A buy is a price-type bid for the KRW market of the ticker. */
  lemma BuyQueryText(ticker: string, price: string)
    requires ' ' !in ticker && ' ' !in price
    ensures QueryString(ParamsOf(BuyOrder(ticker, price))) ==
      Join(["market" + "=" + ("KRW-" + ticker), "side" + "=" + "bid",
            "ord_type" + "=" + "price", "price" + "=" + price], '&')
  {
    assert ' ' !in "KRW-" + ticker;
    FourPairs(ParamsOf(BuyOrder(ticker, price)));
  }

  /** A sell is a market-type ask for the KRW market of the ticker. */
  lemma SellQueryText(ticker: string, volume: string)
    requires ' ' !in ticker && ' ' !in volume
    ensures QueryString(ParamsOf(SellOrder(ticker, volume))) ==
      Join(["market" + "=" + ("KRW-" + ticker), "side" + "=" + "ask",
            "ord_type" + "=" + "market", "volume" + "=" + volume], '&')
  {
    assert ' ' !in "KRW-" + ticker;
    FourPairs(ParamsOf(SellOrder(ticker, volume)));
  }
}
