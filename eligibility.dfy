/**
 * The eligibility filter: each asset passes through ordered gates (data
 * present, market cap, volume, exchange tiers); the first gate it fails
 * bumps one rejection counter. A failed number parse, a missing name or a
 * missing price drops the asset without touching any counter.
 */
module Eligibility {
  import opened Wrappers
  import opened Ascii
  import opened Records
  import opened Listings

  const MarketCapFloor: real := 1_000_000.0
  const VolumeFloor: real := 150_000.0

  const Tier1: set<string> := {"binance", "coinbase", "kraken", "bitfinex", "okex", "bybit"}
  const Tier2: set<string> := {"gate.io", "kucoin", "huobi", "bitstamp", "crypto.com"}

  /** Decimal-string to number conversion; `None` is the `ValueError` path. */
  type Parser = string -> Option<real>

  /** The keys of the rejection table. */
  datatype Reason = MarketCap | Volume | Exchanges | InvalidData

  /** The rejection table, one counter per reason. */
  datatype SkipCounts = SkipCounts(marketCap: nat, volume: nat, exchanges: nat, invalidData: nat) {

    /** The table with the counter of `reason` one higher and the others as they were. */
    function Bump(reason: Reason): (t: SkipCounts)
      ensures t.Total() == Total() + 1
      ensures t.marketCap == marketCap + (if reason == MarketCap then 1 else 0)
      ensures t.volume == volume + (if reason == Volume then 1 else 0)
      ensures t.exchanges == exchanges + (if reason == Exchanges then 1 else 0)
      ensures t.invalidData == invalidData + (if reason == InvalidData then 1 else 0)
    {
      match reason
      case MarketCap => this.(marketCap := marketCap + 1)
      case Volume => this.(volume := volume + 1)
      case Exchanges => this.(exchanges := exchanges + 1)
      case InvalidData => this.(invalidData := invalidData + 1)
    }

    function Total(): nat {
      marketCap + volume + exchanges + invalidData
    }

    function Plus(other: SkipCounts): SkipCounts {
      SkipCounts(marketCap + other.marketCap, volume + other.volume,
                 exchanges + other.exchanges, invalidData + other.invalidData)
    }
  }

  const NoSkips := SkipCounts(0, 0, 0, 0)

  /** What the filter does with one asset. */
  datatype Verdict = Accept(coin: AcceptedCoin) | Skip(reason: Reason) | Drop

  /** A field that is missing or holds the empty string. */
  predicate Blank(field: Option<string>) {
    field == None || field == Some("")
  }

  /** The upper-cased symbol, "UNKNOWN" when the field is missing. */
  function SymbolOf(a: Asset): (symbol: string)
    ensures IsUpperCase(symbol)
    ensures a.symbol.None? ==> symbol == "UNKNOWN"
    ensures a.symbol.Some? ==> symbol == ToUpper(a.symbol.value)
  {
    ToUpper(a.symbol.GetOr("UNKNOWN"))
  }

  /** The parsed value of a present field. */
  function ParseField(parse: Parser, field: Option<string>): Option<real> {
    match field
    case None => None
    case Some(s) => parse(s)
  }

  /** Both amounts present, non-empty and parsable. */
  predicate AmountsParse(a: Asset, parse: Parser) {
    !Blank(a.marketCapUsd) && !Blank(a.volumeUsd24Hr) &&
    parse(a.marketCapUsd.value).Some? && parse(a.volumeUsd24Hr.value).Some?
  }

  /** The amounts parse and both clear their floors. */
  predicate ClearsFloors(a: Asset, parse: Parser) {
    AmountsParse(a, parse) &&
    parse(a.marketCapUsd.value).value > MarketCapFloor &&
    parse(a.volumeUsd24Hr.value).value > VolumeFloor
  }

  /** The verdict on one asset: the body of the loop in `filter_coins`, gate by gate. */
  function Judge(a: Asset, listings: Index, parse: Parser): Verdict {
    if Blank(a.marketCapUsd) || Blank(a.volumeUsd24Hr) then Skip(InvalidData)
    else Floors(a, listings, parse, parse(a.marketCapUsd.value), parse(a.volumeUsd24Hr.value))
  }

  /** The numeric gates, once both amounts are present: a failed parse drops the asset. */
  function Floors(a: Asset, listings: Index, parse: Parser, marketCap: Option<real>, volume: Option<real>): Verdict {
    if marketCap.None? || volume.None? then Drop
    else if marketCap.value <= MarketCapFloor then Skip(MarketCap)
    else if volume.value <= VolumeFloor then Skip(Volume)
    else Listed(a, parse, marketCap.value, volume.value, Lookup(listings, SymbolOf(a)))
  }

  /** The tier gate and the accepted record, once both floors are cleared. */
  function Listed(a: Asset, parse: Parser, marketCap: real, volume: real, listed: set<string>): Verdict {
    var tier1, tier2 := |listed * Tier1|, |listed * Tier2|;
    if tier1 + tier2 == 0 then Skip(Exchanges)
    else if a.name.None? || ParseField(parse, a.priceUsd).None? then Drop
    else Accept(AcceptedCoin(a.name.value, SymbolOf(a), marketCap, volume,
                             ParseField(parse, a.priceUsd).value, tier1, tier2))
  }

  /** The tier gate passes exactly when some listed exchange is Tier-1 or Tier-2. */
  lemma TierGate(listed: set<string>)
    ensures |listed * Tier1| + |listed * Tier2| >= 1 <==> listed * (Tier1 + Tier2) != {}
  {
    if listed * (Tier1 + Tier2) != {} {
      var x :| x in listed * (Tier1 + Tier2);
      if x in Tier1 {
        assert x in listed * Tier1;
      } else {
        assert x in listed * Tier2;
      }
    } else {
      assert listed * Tier1 == {};
      assert listed * Tier2 == {};
    }
  }

  /** What the tier gate does with the listings of an asset that cleared both floors. */
  lemma ListedGate(a: Asset, parse: Parser, marketCap: real, volume: real, listed: set<string>)
    ensures Listed(a, parse, marketCap, volume, listed) == Skip(Exchanges) <==> listed * (Tier1 + Tier2) == {}
    ensures Listed(a, parse, marketCap, volume, listed) == Drop <==>
              listed * (Tier1 + Tier2) != {} && (a.name.None? || ParseField(parse, a.priceUsd).None?)
    ensures !Listed(a, parse, marketCap, volume, listed).Skip? || Listed(a, parse, marketCap, volume, listed).reason == Exchanges
  {
    TierGate(listed);
  }

  /** First gate: a missing or empty market cap or volume is `invalid_data`, whatever else the asset holds. */
  lemma InvalidDataGate(a: Asset, listings: Index, parse: Parser)
    ensures Judge(a, listings, parse) == Skip(InvalidData) <==>
              Blank(a.marketCapUsd) || Blank(a.volumeUsd24Hr)
  {
    if ClearsFloors(a, parse) {
      ListedGate(a, parse, parse(a.marketCapUsd.value).value, parse(a.volumeUsd24Hr.value).value,
                 Lookup(listings, SymbolOf(a)));
    }
  }

  /** Second gate: with both amounts parsed, a market cap of at most 1,000,000 is `market_cap`. */
  lemma MarketCapGate(a: Asset, listings: Index, parse: Parser)
    ensures Judge(a, listings, parse) == Skip(MarketCap) <==>
              AmountsParse(a, parse) && parse(a.marketCapUsd.value).value <= MarketCapFloor
  {
    if ClearsFloors(a, parse) {
      ListedGate(a, parse, parse(a.marketCapUsd.value).value, parse(a.volumeUsd24Hr.value).value,
                 Lookup(listings, SymbolOf(a)));
    }
  }

  /** Third gate: past the market-cap gate, a volume of at most 150,000 is `volume`. */
  lemma VolumeGate(a: Asset, listings: Index, parse: Parser)
    ensures Judge(a, listings, parse) == Skip(Volume) <==>
              AmountsParse(a, parse) && parse(a.marketCapUsd.value).value > MarketCapFloor &&
              parse(a.volumeUsd24Hr.value).value <= VolumeFloor
  {
    if ClearsFloors(a, parse) {
      ListedGate(a, parse, parse(a.marketCapUsd.value).value, parse(a.volumeUsd24Hr.value).value,
                 Lookup(listings, SymbolOf(a)));
    }
  }

  /** Fourth gate: past both floors, no Tier-1 and no Tier-2 listing is `exchanges`. */
  lemma ExchangesGate(a: Asset, listings: Index, parse: Parser)
    ensures Judge(a, listings, parse) == Skip(Exchanges) <==>
              ClearsFloors(a, parse) && Lookup(listings, SymbolOf(a)) * (Tier1 + Tier2) == {}
  {
    if ClearsFloors(a, parse) {
      ListedGate(a, parse, parse(a.marketCapUsd.value).value, parse(a.volumeUsd24Hr.value).value,
                 Lookup(listings, SymbolOf(a)));
    }
  }

  /**
   * A parse failure of either amount, or a missing name or unparsable price
   * on an asset that passed every gate, drops the asset without a counter.
   */
  lemma DropPath(a: Asset, listings: Index, parse: Parser)
    ensures Judge(a, listings, parse) == Drop <==>
              && !Blank(a.marketCapUsd) && !Blank(a.volumeUsd24Hr)
              && (|| parse(a.marketCapUsd.value).None?
                  || parse(a.volumeUsd24Hr.value).None?
                  || (&& ClearsFloors(a, parse)
                      && Lookup(listings, SymbolOf(a)) * (Tier1 + Tier2) != {}
                      && (a.name.None? || ParseField(parse, a.priceUsd).None?)))
  {
    if ClearsFloors(a, parse) {
      ListedGate(a, parse, parse(a.marketCapUsd.value).value, parse(a.volumeUsd24Hr.value).value,
                 Lookup(listings, SymbolOf(a)));
    }
  }

  /**
   * An asset is accepted exactly when it passes every gate and has a name and
   * a parsable price.
   */
  lemma Acceptance(a: Asset, listings: Index, parse: Parser)
    ensures Judge(a, listings, parse).Accept? <==>
              ClearsFloors(a, parse) && Lookup(listings, SymbolOf(a)) * (Tier1 + Tier2) != {} &&
              a.name.Some? && ParseField(parse, a.priceUsd).Some?
  {
    if ClearsFloors(a, parse) {
      ListedGate(a, parse, parse(a.marketCapUsd.value).value, parse(a.volumeUsd24Hr.value).value,
                 Lookup(listings, SymbolOf(a)));
    }
  }

  /**
   * The coin an asset that passes every gate turns into: its name, its
   * upper-cased symbol, the parsed amounts and the sizes of the intersections
   * of its listings with the two tiers, of which at least one is positive.
   */
  lemma AcceptedFields(a: Asset, listings: Index, parse: Parser)
    requires ClearsFloors(a, parse) && Lookup(listings, SymbolOf(a)) * (Tier1 + Tier2) != {}
    requires a.name.Some? && ParseField(parse, a.priceUsd).Some?
    ensures var listed := Lookup(listings, SymbolOf(a));
            Judge(a, listings, parse) ==
              Accept(AcceptedCoin(a.name.value, SymbolOf(a),
                                  parse(a.marketCapUsd.value).value,
                                  parse(a.volumeUsd24Hr.value).value,
                                  ParseField(parse, a.priceUsd).value,
                                  |listed * Tier1|, |listed * Tier2|))
    ensures |Lookup(listings, SymbolOf(a)) * Tier1| + |Lookup(listings, SymbolOf(a)) * Tier2| >= 1
  {
    TierGate(Lookup(listings, SymbolOf(a)));
  }

  /** The counter a verdict bumps, if any. */
  function Count(counts: SkipCounts, v: Verdict): SkipCounts {
    if v.Skip? then counts.Bump(v.reason) else counts
  }

  /** The verdict on each asset, in input order. */
  function Verdicts(coins: seq<Asset>, listings: Index, parse: Parser): (vs: seq<Verdict>)
    ensures |vs| == |coins|
    decreases |coins|
  {
    if coins == [] then []
    else Verdicts(coins[..|coins| - 1], listings, parse) + [Judge(coins[|coins| - 1], listings, parse)]
  }

  /** The verdict at position `j` is the verdict on the `j`-th asset. */
  lemma {:induction false} VerdictAt(coins: seq<Asset>, listings: Index, parse: Parser, j: nat)
    requires j < |coins|
    ensures Verdicts(coins, listings, parse)[j] == Judge(coins[j], listings, parse)
    decreases |coins|
  {
    if j < |coins| - 1 {
      VerdictAt(coins[..|coins| - 1], listings, parse, j);
    }
  }

  /** The accepted coins of a run of verdicts, in order. */
  function AcceptedOf(vs: seq<Verdict>): seq<AcceptedCoin>
    decreases |vs|
  {
    if vs == [] then []
    else AcceptedOf(vs[..|vs| - 1]) + (if vs[|vs| - 1].Accept? then [vs[|vs| - 1].coin] else [])
  }

  /** The rejection table after a run of verdicts. */
  function Tally(vs: seq<Verdict>): SkipCounts
    decreases |vs|
  {
    if vs == [] then NoSkips else Count(Tally(vs[..|vs| - 1]), vs[|vs| - 1])
  }

  /** The number of assets dropped without a counter. */
  function DroppedOf(vs: seq<Verdict>): nat
    decreases |vs|
  {
    if vs == [] then 0 else DroppedOf(vs[..|vs| - 1]) + (if vs[|vs| - 1].Drop? then 1 else 0)
  }

  /**
   * `filter_coins`: the accepted coins and the rejection table. Every asset is
   * looked at; one whose processing fails is dropped and the loop goes on.
   */
  method FilterCoins(coins: seq<Asset>, listings: Index, parse: Parser)
    returns (filtered: seq<AcceptedCoin>, skipped: SkipCounts)
    ensures filtered == AcceptedOf(Verdicts(coins, listings, parse))
    ensures skipped == Tally(Verdicts(coins, listings, parse))
    ensures skipped.Total() + |filtered| <= |coins|
  {
    ghost var vs := Verdicts(coins, listings, parse);
    filtered, skipped := [], NoSkips;
    for i := 0 to |coins|
      invariant filtered == AcceptedOf(vs[..i])
      invariant skipped == Tally(vs[..i])
    {
      var coin := coins[i];
      FoldStep(vs, i);
      VerdictAt(coins, listings, parse, i);
      var marketCapStr := coin.marketCapUsd;
      var volumeStr := coin.volumeUsd24Hr;
      var symbol := ToUpper(coin.symbol.GetOr("UNKNOWN"));

      if marketCapStr == None || marketCapStr == Some("") {
        assert vs[i] == Skip(InvalidData);
        skipped := skipped.Bump(InvalidData);
        continue;
      }
      if volumeStr == None || volumeStr == Some("") {
        assert vs[i] == Skip(InvalidData);
        skipped := skipped.Bump(InvalidData);
        continue;
      }

      var marketCapParsed := parse(marketCapStr.value);
      if marketCapParsed.None? {
        assert vs[i] == Drop;
        continue;
      }
      var volumeParsed := parse(volumeStr.value);
      if volumeParsed.None? {
        assert vs[i] == Drop;
        continue;
      }
      var marketCap, volume := marketCapParsed.value, volumeParsed.value;

      if marketCap <= MarketCapFloor {
        assert vs[i] == Skip(MarketCap);
        skipped := skipped.Bump(MarketCap);
        continue;
      }
      if volume <= VolumeFloor {
        assert vs[i] == Skip(Volume);
        skipped := skipped.Bump(Volume);
        continue;
      }

      var coinExchanges := if symbol in listings then listings[symbol] else {};
      assert symbol == SymbolOf(coin) && coinExchanges == Lookup(listings, symbol);
      assert vs[i] == Listed(coin, parse, marketCap, volume, coinExchanges);
      var tier1Count := |coinExchanges * Tier1|;
      var tier2Count := |coinExchanges * Tier2|;
      if tier1Count + tier2Count == 0 {
        assert vs[i] == Skip(Exchanges);
        skipped := skipped.Bump(Exchanges);
        continue;
      }

      if coin.name.None? || coin.priceUsd.None? {
        assert vs[i] == Drop;
        continue;
      }
      var price := parse(coin.priceUsd.value);
      if price.None? {
        assert vs[i] == Drop;
        continue;
      }
      assert vs[i] == Accept(AcceptedCoin(coin.name.value, symbol, marketCap, volume, price.value,
                                          tier1Count, tier2Count));
      filtered := filtered + [AcceptedCoin(coin.name.value, symbol, marketCap, volume, price.value,
                                           tier1Count, tier2Count)];
    }
    assert vs[..|coins|] == vs;
    CountIdentity(vs);
  }

  /** One more verdict extends the accepted coins and the rejection table by that verdict alone. */
  lemma FoldStep(vs: seq<Verdict>, i: nat)
    requires i < |vs|
    ensures AcceptedOf(vs[..i + 1]) == AcceptedOf(vs[..i]) + (if vs[i].Accept? then [vs[i].coin] else [])
    ensures Tally(vs[..i + 1]) == Count(Tally(vs[..i]), vs[i])
  {
    assert vs[..i + 1][..i] == vs[..i];
  }

  /** Counters, accepted coins and dropped assets together account for every verdict exactly once. */
  lemma {:induction false} CountIdentity(vs: seq<Verdict>)
    ensures Tally(vs).Total() + |AcceptedOf(vs)| + DroppedOf(vs) == |vs|
  {
    if vs != [] {
      CountIdentity(vs[..|vs| - 1]);
    }
  }

  /** Nothing is dropped exactly when no verdict is `Drop`. */
  lemma {:induction false} NoneDropped(vs: seq<Verdict>)
    ensures DroppedOf(vs) == 0 <==> forall j :: 0 <= j < |vs| ==> !vs[j].Drop?
  {
    if vs != [] {
      var init := vs[..|vs| - 1];
      NoneDropped(init);
      assert forall j :: 0 <= j < |init| ==> init[j] == vs[j];
    }
  }

  /**
   * The counters plus the accepted coins never exceed the number of assets,
   * and equal it exactly when no asset was dropped.
   */
  lemma CountsAreExact(coins: seq<Asset>, listings: Index, parse: Parser)
    ensures var vs := Verdicts(coins, listings, parse);
            && Tally(vs).Total() + |AcceptedOf(vs)| <= |coins|
            && (Tally(vs).Total() + |AcceptedOf(vs)| == |coins| <==>
                forall j :: 0 <= j < |coins| ==> !Judge(coins[j], listings, parse).Drop?)
  {
    var vs := Verdicts(coins, listings, parse);
    CountIdentity(vs);
    NoneDropped(vs);
  }

  /**
   * Filtering a batch is filtering its parts one after the other: the accepted
   * coins keep their input order, and what happens to one asset does not stop
   * the ones after it.
   */
  lemma {:induction false} AcceptedSplits(xs: seq<Verdict>, ys: seq<Verdict>)
    ensures AcceptedOf(xs + ys) == AcceptedOf(xs) + AcceptedOf(ys)
    decreases |ys|
  {
    if ys == [] {
      assert xs + ys == xs;
    } else {
      var init, last := ys[..|ys| - 1], ys[|ys| - 1];
      AcceptedSplits(xs, init);
      assert (xs + ys)[..|xs + ys| - 1] == xs + init;
      assert (xs + ys)[|xs + ys| - 1] == last;
    }
  }

  /** The rejection table of a batch is the sum of the tables of its parts. */
  lemma {:induction false} TallySplits(xs: seq<Verdict>, ys: seq<Verdict>)
    ensures Tally(xs + ys) == Tally(xs).Plus(Tally(ys))
    decreases |ys|
  {
    if ys == [] {
      assert xs + ys == xs;
      PlusNone(Tally(xs));
    } else {
      var init, last := ys[..|ys| - 1], ys[|ys| - 1];
      assert ys == init + [last];
      assert xs + ys == (xs + init) + [last];
      calc {
        Tally(xs + ys);
        { TallySnoc(xs + init, last); }
        Count(Tally(xs + init), last);
        { TallySplits(xs, init); }
        Count(Tally(xs).Plus(Tally(init)), last);
        { CountPlus(Tally(xs), Tally(init), last); }
        Tally(xs).Plus(Count(Tally(init), last));
        { TallySnoc(init, last); }
        Tally(xs).Plus(Tally(ys));
      }
    }
  }

  lemma TallySnoc(vs: seq<Verdict>, v: Verdict)
    ensures Tally(vs + [v]) == Count(Tally(vs), v)
  {
    assert (vs + [v])[..|vs|] == vs;
  }

  lemma PlusNone(t: SkipCounts)
    ensures t.Plus(NoSkips) == t
  {
  }

  lemma CountPlus(a: SkipCounts, b: SkipCounts, v: Verdict)
    ensures Count(a.Plus(b), v) == a.Plus(Count(b, v))
  {
  }

  /** The verdicts of a concatenation are the verdicts of its parts. */
  lemma VerdictsSplit(xs: seq<Asset>, ys: seq<Asset>, listings: Index, parse: Parser)
    ensures Verdicts(xs + ys, listings, parse) == Verdicts(xs, listings, parse) + Verdicts(ys, listings, parse)
  {
    var whole := Verdicts(xs + ys, listings, parse);
    var parts := Verdicts(xs, listings, parse) + Verdicts(ys, listings, parse);
    forall j | 0 <= j < |whole|
      ensures whole[j] == parts[j]
    {
      VerdictAt(xs + ys, listings, parse, j);
      if j < |xs| {
        assert (xs + ys)[j] == xs[j];
        VerdictAt(xs, listings, parse, j);
      } else {
        assert (xs + ys)[j] == ys[j - |xs|];
        VerdictAt(ys, listings, parse, j - |xs|);
      }
    }
  }

  /**
   * Filtering a batch of assets is filtering its parts one after the other:
   * the accepted coins of the second part follow those of the first, whatever
   * happened to the assets of the first, and the rejection tables add up.
   */
  lemma FilterSplits(xs: seq<Asset>, ys: seq<Asset>, listings: Index, parse: Parser)
    ensures AcceptedOf(Verdicts(xs + ys, listings, parse)) ==
              AcceptedOf(Verdicts(xs, listings, parse)) + AcceptedOf(Verdicts(ys, listings, parse))
    ensures Tally(Verdicts(xs + ys, listings, parse)) ==
              Tally(Verdicts(xs, listings, parse)).Plus(Tally(Verdicts(ys, listings, parse)))
  {
    VerdictsSplit(xs, ys, listings, parse);
    AcceptedSplits(Verdicts(xs, listings, parse), Verdicts(ys, listings, parse));
    TallySplits(Verdicts(xs, listings, parse), Verdicts(ys, listings, parse));
  }

  /** A coin is accepted exactly when some asset's verdict accepts it. */
  lemma {:induction false} AcceptedMembers(vs: seq<Verdict>, c: AcceptedCoin)
    ensures c in AcceptedOf(vs) <==> Accept(c) in vs
  {
    if vs != [] {
      var init := vs[..|vs| - 1];
      AcceptedMembers(init, c);
      assert vs == init + [vs[|vs| - 1]];
    }
  }

  /**
   * An asset with a 2,000,000 market cap and a 200,000 volume, listed on one
   * Tier-2 exchange and no Tier-1 exchange, is accepted with counts 0 and 1.
   */
  lemma SingleTier2Example(parse: Parser)
    requires parse("2000000") == Some(2_000_000.0)
    requires parse("200000") == Some(200_000.0)
    requires parse("1.5") == Some(1.5)
    ensures Judge(Asset(Some("abc"), Some("Abc"), Some("2000000"), Some("200000"), Some("1.5")),
                  map["ABC" := {"kucoin"}], parse)
            == Accept(AcceptedCoin("Abc", "ABC", 2_000_000.0, 200_000.0, 1.5, 0, 1))
  {
    assert ToUpper("abc") == "ABC";
    assert {"kucoin"} * Tier1 == {};
    assert {"kucoin"} * Tier2 == {"kucoin"};
  }
}
