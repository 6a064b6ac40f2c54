/**
 * The listing indexer: from the market records, a map from upper-cased coin
 * symbol to the set of lower-cased exchange ids the coin trades on.
 */
module Listings {
  import opened Wrappers
  import opened Ascii
  import opened Records

  type Index = map<string, set<string>>

  /**
   * The normalised (symbol, exchange) pair a market record contributes: a
   * missing field reads as "", and a record whose symbol or exchange is empty
   * contributes nothing.
   */
  function Entry(m: Market): (e: Option<(string, string)>)
    ensures e.None? <==> m.baseSymbol.GetOr("") == "" || m.exchangeId.GetOr("") == ""
    ensures e.Some? ==> e.value.0 != "" && IsUpperCase(e.value.0) && e.value.0 == ToUpper(m.baseSymbol.value)
    ensures e.Some? ==> e.value.1 != "" && IsLowerCase(e.value.1) && e.value.1 == ToLower(m.exchangeId.value)
  {
    var symbol := ToUpper(m.baseSymbol.GetOr(""));
    var exchange := ToLower(m.exchangeId.GetOr(""));
    if symbol != "" && exchange != "" then Some((symbol, exchange)) else None
  }

  /** The exchanges `idx` lists for `symbol`; a symbol that is not a key has none. */
  function Lookup(idx: Index, symbol: string): set<string> {
    if symbol in idx then idx[symbol] else {}
  }

  /** The index after one more market record. */
  function Add(idx: Index, m: Market): Index {
    match Entry(m)
    case None => idx
    case Some((symbol, exchange)) => idx[symbol := Lookup(idx, symbol) + {exchange}]
  }

  /** The index of a sequence of market records, folded left to right. */
  function IndexOf(markets: seq<Market>): Index
    decreases |markets|
  {
    if markets == [] then map[] else Add(IndexOf(markets[..|markets| - 1]), markets[|markets| - 1])
  }

  /** Some record of `markets` contributes the pair (symbol, exchange). */
  ghost predicate Lists(markets: seq<Market>, symbol: string, exchange: string) {
    exists j :: 0 <= j < |markets| && Entry(markets[j]) == Some((symbol, exchange))
  }

  /** Every key is a non-empty upper-case symbol whose set is non-empty and holds non-empty lower-case ids. */
  ghost predicate Normalised(idx: Index) {
    forall symbol :: symbol in idx ==>
      symbol != "" && IsUpperCase(symbol) && idx[symbol] != {} &&
      forall exchange :: exchange in idx[symbol] ==> exchange != "" && IsLowerCase(exchange)
  }

  /** `get_exchange_listings`: builds the index record by record. */
  method GetExchangeListings(markets: seq<Market>) returns (listings: Index)
    ensures listings == IndexOf(markets)
    ensures Normalised(listings)
  {
    listings := map[];
    for i := 0 to |markets|
      invariant listings == IndexOf(markets[..i])
    {
      var market := markets[i];
      var baseSymbol := ToUpper(market.baseSymbol.GetOr(""));
      var exchangeId := ToLower(market.exchangeId.GetOr(""));
      if baseSymbol != "" && exchangeId != "" {
        if baseSymbol !in listings {
          listings := listings[baseSymbol := {}];
        }
        listings := listings[baseSymbol := listings[baseSymbol] + {exchangeId}];
      }
      assert markets[..i + 1][..i] == markets[..i];
    }
    assert markets[..|markets|] == markets;
    IndexNormalised(markets);
  }

  lemma IndexOfSnoc(markets: seq<Market>, m: Market)
    ensures IndexOf(markets + [m]) == Add(IndexOf(markets), m)
  {
    assert (markets + [m])[..|markets|] == markets;
  }

  /** Every key of the index is upper-case, every stored id lower-case, and no set is empty. */
  lemma {:induction false} IndexNormalised(markets: seq<Market>)
    ensures Normalised(IndexOf(markets))
  {
    if markets != [] {
      IndexNormalised(markets[..|markets| - 1]);
    }
  }

  /**
   * The index is the union over the records: `exchange` is stored under
   * `symbol` exactly when some record contributes that pair.
   */
  lemma {:induction false} IndexIsUnion(markets: seq<Market>, symbol: string, exchange: string)
    ensures exchange in Lookup(IndexOf(markets), symbol) <==> Lists(markets, symbol, exchange)
  {
    if markets != [] {
      var init, m := markets[..|markets| - 1], markets[|markets| - 1];
      IndexIsUnion(init, symbol, exchange);
      assert markets == init + [m];
      if Lists(markets, symbol, exchange) && !Lists(init, symbol, exchange) {
        var j :| 0 <= j < |markets| && Entry(markets[j]) == Some((symbol, exchange));
        assert j == |markets| - 1;
      }
      if Lists(init, symbol, exchange) {
        var j :| 0 <= j < |init| && Entry(init[j]) == Some((symbol, exchange));
        assert markets[j] == init[j];
      }
    }
  }

  /** A symbol is a key only if some record produced it, and every produced symbol is a key. */
  lemma KeysAreProduced(markets: seq<Market>, symbol: string)
    ensures symbol in IndexOf(markets) <==> exists exchange :: Lists(markets, symbol, exchange)
  {
    IndexNormalised(markets);
    if symbol in IndexOf(markets) {
      var exchange :| exchange in IndexOf(markets)[symbol];
      IndexIsUnion(markets, symbol, exchange);
    }
    if exists exchange :: Lists(markets, symbol, exchange) {
      var exchange :| Lists(markets, symbol, exchange);
      IndexIsUnion(markets, symbol, exchange);
    }
  }

  /** A record with an empty or missing symbol or exchange id leaves the index as it was. */
  lemma SkippedMarket(markets: seq<Market>, m: Market)
    requires m.baseSymbol.GetOr("") == "" || m.exchangeId.GetOr("") == ""
    ensures IndexOf(markets + [m]) == IndexOf(markets)
  {
    IndexOfSnoc(markets, m);
  }

  /**
   * Appending a record only adds its exchange to its own symbol's set; every
   * other key keeps its set, and no key disappears.
   */
  lemma AppendMarket(markets: seq<Market>, m: Market, symbol: string, exchange: string)
    requires Entry(m) == Some((symbol, exchange))
    ensures IndexOf(markets + [m]).Keys == IndexOf(markets).Keys + {symbol}
    ensures IndexOf(markets + [m])[symbol] == Lookup(IndexOf(markets), symbol) + {exchange}
    ensures forall other :: other in IndexOf(markets) && other != symbol ==>
              IndexOf(markets + [m])[other] == IndexOf(markets)[other]
  {
    IndexOfSnoc(markets, m);
  }

  /**
   * A record whose normalised pair was already contributed earlier, by any
   * record at any position, leaves the index unchanged: the pair is stored once.
   */
  lemma DuplicateMarket(xs: seq<Market>, m1: Market, ys: seq<Market>, m2: Market)
    requires Entry(m1).Some? && Entry(m2) == Entry(m1)
    ensures IndexOf(xs + [m1] + ys + [m2]) == IndexOf(xs + [m1] + ys)
  {
    var pre := xs + [m1] + ys;
    var (symbol, exchange) := Entry(m1).value;
    assert pre[|xs|] == m1;
    IndexIsUnion(pre, symbol, exchange);
    assert symbol in IndexOf(pre) && IndexOf(pre)[symbol] + {exchange} == IndexOf(pre)[symbol];
    IndexOfSnoc(pre, m2);
  }

  /** The three records of the example below, normalised. */
  lemma ExampleEntries()
    ensures Entry(Market(Some("btc"), Some("Binance"))) == Some(("BTC", "binance"))
    ensures Entry(Market(Some("BTC"), Some("binance"))) == Some(("BTC", "binance"))
    ensures Entry(Market(Some("eth"), Some("binance"))) == Some(("ETH", "binance"))
  {
    assert ToUpper("btc") == "BTC";
    assert ToUpper("BTC") == "BTC";
    assert ToUpper("eth") == "ETH";
    assert ToLower("Binance") == "binance";
    assert ToLower("binance") == "binance";
  }

  /** "btc"/"BTC" on "Binance"/"binance" and "eth" on "binance" give {"BTC": {"binance"}, "ETH": {"binance"}}. */
  lemma CaseNormalisedExample()
    ensures IndexOf([
              Market(Some("btc"), Some("Binance")),
              Market(Some("BTC"), Some("binance")),
              Market(Some("eth"), Some("binance"))])
            == map["BTC" := {"binance"}, "ETH" := {"binance"}]
  {
    var ms := [
      Market(Some("btc"), Some("Binance")),
      Market(Some("BTC"), Some("binance")),
      Market(Some("eth"), Some("binance"))];
    ExampleEntries();
    assert IndexOf([]) == map[];
    assert Lookup(map[], "BTC") + {"binance"} == {"binance"};
    IndexOfSnoc([], ms[0]);
    IndexOfSnoc(ms[..1], ms[1]);
    IndexOfSnoc(ms[..2], ms[2]);
    assert [] + [ms[0]] == ms[..1] && ms[..1] + [ms[1]] == ms[..2] && ms[..2] + [ms[2]] == ms;
    assert IndexOf(ms[..1]) == map["BTC" := {"binance"}];
    assert IndexOf(ms[..2]) == map["BTC" := {"binance"}];
  }
}
