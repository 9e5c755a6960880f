/** The crypto store slice: the asset records, the fixed seed list, the
    `updatePrices` random-walk reducer and the `selectCryptos` accessor.

    Prices, percentages and magnitudes are `real`: the model makes no claim
    about floating-point rounding. Each `Math.random()` call is an explicit
    draw in [0, 1). */
module CryptoSlice {

  datatype Option<T> = None | Some(value: T)

  /** One tracked asset. `maxSupply` is `None` where the source has `null`. */
  datatype CryptoData = CryptoData(
    id: int,
    name: string,
    symbol: string,
    price: real,
    change1h: real,
    change24h: real,
    change7d: real,
    marketCap: real,
    volume24h: real,
    circulatingSupply: real,
    maxSupply: Option<real>,
    sparklineData: seq<real>)

  /** The four `Math.random()` results drawn while one asset is rebuilt,
      in the order the reducer draws them. */
  datatype Draws = Draws(forPrice: real, forChange1h: real, forChange24h: real, forVolume: real)

  /** Number of samples in every seeded sparkline. */
  const SparklineLength: nat := 7

  predicate IsDraw(r: real) {
    0.0 <= r < 1.0
  }

  predicate ValidDraws(d: Draws) {
    IsDraw(d.forPrice) && IsDraw(d.forChange1h) && IsDraw(d.forChange24h) && IsDraw(d.forVolume)
  }

  predicate AllValidDraws(ds: seq<Draws>) {
    forall j :: 0 <= j < |ds| ==> ValidDraws(ds[j])
  }

  // ---------------------------------------------------------------------
  // The random-walk steps of one update

  /** Multiplier applied to the price: 1 + U(-0.001, 0.001). */
  function PriceFactor(r: real): (f: real)
    requires IsDraw(r)
    ensures 0.999 <= f < 1.001
    ensures f == 1.0 <==> r == 0.5
  {
    1.0 + (r * 0.002 - 0.001)
  }

  /** Amount added to `change1h`: U(-0.1, 0.1). */
  function Change1hStep(r: real): (d: real)
    requires IsDraw(r)
    ensures -0.1 <= d < 0.1
  {
    r * 0.2 - 0.1
  }

  /** Amount added to `change24h`: U(-0.2, 0.2). */
  function Change24hStep(r: real): (d: real)
    requires IsDraw(r)
    ensures -0.2 <= d < 0.2
  {
    r * 0.4 - 0.2
  }

  /** Multiplier applied to `volume24h`: 1 + U(-0.002, 0.002). */
  function VolumeFactor(r: real): (f: real)
    requires IsDraw(r)
    ensures 0.998 <= f < 1.002
  {
    1.0 + (r * 0.004 - 0.002)
  }

  /** A non-negative magnitude scaled by a factor in [lo, hi) stays within
      [lo * x, hi * x], strictly below the top when it is positive. */
  lemma ScaledBetween(x: real, f: real, lo: real, hi: real)
    requires 0.0 <= x && lo <= f < hi
    ensures x * lo <= x * f <= x * hi
    ensures 0.0 < x ==> x * f < x * hi
  {
  }

  /** The new price: old price times `PriceFactor`. A non-negative price
      stays non-negative and moves by at most 0.1% (strictly less upward). */
  function NudgedPrice(p: real, r: real): (q: real)
    requires IsDraw(r)
    ensures 0.0 <= p ==> 0.999 * p <= q <= 1.001 * p
    ensures 0.0 < p ==> q < 1.001 * p
  {
    var q := p * PriceFactor(r);
    if 0.0 <= p then ScaledBetween(p, PriceFactor(r), 0.999, 1.001); q else q
  }

  /** The new 24h volume: old volume times `VolumeFactor`, so it moves by at
      most 0.2%. */
  function NudgedVolume(v: real, r: real): (w: real)
    requires IsDraw(r)
    ensures 0.0 <= v ==> 0.998 * v <= w <= 1.002 * v
    ensures 0.0 < v ==> w < 1.002 * v
  {
    var w := v * VolumeFactor(r);
    if 0.0 <= v then ScaledBetween(v, VolumeFactor(r), 0.998, 1.002); w else w
  }

  /** `[...window.slice(1), x]`: drop the oldest sample (nothing when the
      window is empty, as `slice(1)` of an empty array is empty) and append
      `x` as the newest. */
  function ShiftWindow(window: seq<real>, x: real): (w: seq<real>)
    ensures |w| == if window == [] then 1 else |window|
    ensures w[|w| - 1] == x
    ensures forall i :: 0 <= i < |w| - 1 ==> w[i] == window[i + 1]
  {
    (if window == [] then [] else window[1..]) + [x]
  }

  /** Feeds the samples `xs` into the window one at a time, oldest first. */
  function ShiftAll(window: seq<real>, xs: seq<real>): seq<real>
    decreases |xs|
  {
    if xs == [] then window else ShiftAll(ShiftWindow(window, xs[0]), xs[1..])
  }

  /** A non-empty window fed with samples `xs` keeps its length and holds
      exactly the latest |window| samples of its old contents followed by `xs`. */
  lemma {:induction false} ShiftAllKeepsLatest(window: seq<real>, xs: seq<real>)
    requires window != []
    ensures |ShiftAll(window, xs)| == |window|
    ensures ShiftAll(window, xs) == (window + xs)[|xs|..]
    decreases |xs|
  {
    if xs != [] {
      var next := ShiftWindow(window, xs[0]);
      assert next == window[1..] + [xs[0]];
      ShiftAllKeepsLatest(next, xs[1..]);
      assert window + xs == [window[0]] + (next + xs[1..]);
    }
  }

  // ---------------------------------------------------------------------
  // The per-asset transformation of `updatePrices`

  /** One asset as rebuilt by `updatePrices`: every field copied through
      except price, change1h, change24h, volume24h and sparklineData. */
  function UpdateAsset(c: CryptoData, d: Draws): (u: CryptoData)
    requires ValidDraws(d)
    // identity and static figures are copied through
    ensures u.id == c.id && u.name == c.name && u.symbol == c.symbol
    ensures u.change7d == c.change7d && u.marketCap == c.marketCap
    ensures u.circulatingSupply == c.circulatingSupply && u.maxSupply == c.maxSupply
    // the percentage changes drift by a bounded, unclamped amount
    ensures c.change1h - 0.1 <= u.change1h < c.change1h + 0.1
    ensures c.change24h - 0.2 <= u.change24h < c.change24h + 0.2
    // price and volume move by at most 0.1% and 0.2%, keeping their sign
    ensures 0.0 <= c.price ==> 0.999 * c.price <= u.price <= 1.001 * c.price
    ensures 0.0 < c.price ==> u.price < 1.001 * c.price
    ensures 0.0 <= c.volume24h ==> 0.998 * c.volume24h <= u.volume24h <= 1.002 * c.volume24h
    ensures 0.0 < c.volume24h ==> u.volume24h < 1.002 * c.volume24h
    // the window shifts by one and its newest sample is the price BEFORE this update
    ensures u.sparklineData == ShiftWindow(c.sparklineData, c.price)
    ensures u.sparklineData[|u.sparklineData| - 1] == c.price
  {
    c.(
      price := NudgedPrice(c.price, d.forPrice),
      change1h := c.change1h + Change1hStep(d.forChange1h),
      change24h := c.change24h + Change24hStep(d.forChange24h),
      volume24h := NudgedVolume(c.volume24h, d.forVolume),
      sparklineData := ShiftWindow(c.sparklineData, c.price))
  }

  /** After an update the newest sparkline sample equals the new price only
      when the price is zero or the price draw is exactly 0.5: the chart
      otherwise lags the displayed price by one tick. */
  lemma SparklineLagsPrice(c: CryptoData, d: Draws)
    requires ValidDraws(d)
    ensures var u := UpdateAsset(c, d);
      u.sparklineData[|u.sparklineData| - 1] == u.price <==> c.price == 0.0 || d.forPrice == 0.5
  {
    var u := UpdateAsset(c, d);
    var f := PriceFactor(d.forPrice);
    assert u.price - c.price == c.price * (f - 1.0);
    NonZeroProduct(c.price, f - 1.0);
  }

  lemma NonZeroProduct(a: real, b: real)
    ensures a * b == 0.0 <==> a == 0.0 || b == 0.0
  {
  }

  /** `state.cryptos.map(...)`: the i-th asset is rebuilt from the i-th
      draws; asset count and order are kept. */
  function UpdateAll(cs: seq<CryptoData>, ds: seq<Draws>): (r: seq<CryptoData>)
    requires |ds| == |cs| && AllValidDraws(ds)
    ensures |r| == |cs|
    ensures forall i :: 0 <= i < |cs| ==> r[i] == UpdateAsset(cs[i], ds[i])
    decreases |cs|
  {
    if cs == [] then [] else [UpdateAsset(cs[0], ds[0])] + UpdateAll(cs[1..], ds[1..])
  }

  // ---------------------------------------------------------------------
  // Store-wide invariant

  predicate DistinctIds(cs: seq<CryptoData>) {
    forall i, j :: 0 <= i < j < |cs| ==> cs[i].id != cs[j].id
  }

  /** Positive distinct ids, seven-sample sparklines, non-negative price
      and volume. */
  predicate WellFormed(cs: seq<CryptoData>) {
    DistinctIds(cs) &&
    forall i :: 0 <= i < |cs| ==>
      0 < cs[i].id && |cs[i].sparklineData| == SparklineLength &&
      0.0 <= cs[i].price && 0.0 <= cs[i].volume24h
  }

  /** One `updatePrices` keeps the store invariant. */
  lemma UpdateAllPreservesWellFormed(cs: seq<CryptoData>, ds: seq<Draws>)
    requires |ds| == |cs| && AllValidDraws(ds)
    requires WellFormed(cs)
    ensures WellFormed(UpdateAll(cs, ds))
  {
  }

  predicate RoundsFit(cs: seq<CryptoData>, rounds: seq<seq<Draws>>) {
    forall k :: 0 <= k < |rounds| ==> |rounds[k]| == |cs| && AllValidDraws(rounds[k])
  }

  /** Successive `updatePrices` calls, one per element of `rounds`. Count,
      order and ids of the assets never change. */
  function UpdateRounds(cs: seq<CryptoData>, rounds: seq<seq<Draws>>): (r: seq<CryptoData>)
    requires RoundsFit(cs, rounds)
    ensures |r| == |cs|
    ensures forall i :: 0 <= i < |cs| ==> r[i].id == cs[i].id
    decreases |rounds|
  {
    if rounds == [] then cs else UpdateRounds(UpdateAll(cs, rounds[0]), rounds[1..])
  }

  /** Any number of `updatePrices` calls keeps the store invariant. */
  lemma {:induction false} UpdateRoundsPreservesWellFormed(cs: seq<CryptoData>, rounds: seq<seq<Draws>>)
    requires RoundsFit(cs, rounds) && WellFormed(cs)
    ensures WellFormed(UpdateRounds(cs, rounds))
    decreases |rounds|
  {
    if rounds != [] {
      UpdateAllPreservesWellFormed(cs, rounds[0]);
      UpdateRoundsPreservesWellFormed(UpdateAll(cs, rounds[0]), rounds[1..]);
    }
  }

  // ---------------------------------------------------------------------
  // One asset over many calls

  /** One asset after a sequence of updates. */
  function UpdateAssetMany(c: CryptoData, ds: seq<Draws>): CryptoData
    requires AllValidDraws(ds)
    decreases |ds|
  {
    if ds == [] then c else UpdateAssetMany(UpdateAsset(c, ds[0]), ds[1..])
  }

  /** The prices the asset held just before each of the updates in `ds`. */
  function PriceTrail(c: CryptoData, ds: seq<Draws>): (t: seq<real>)
    requires AllValidDraws(ds)
    ensures |t| == |ds|
    decreases |ds|
  {
    if ds == [] then [] else [c.price] + PriceTrail(UpdateAsset(c, ds[0]), ds[1..])
  }

  function Column(rounds: seq<seq<Draws>>, i: nat): (col: seq<Draws>)
    requires forall k :: 0 <= k < |rounds| ==> i < |rounds[k]|
    ensures |col| == |rounds|
    ensures forall k :: 0 <= k < |rounds| ==> col[k] == rounds[k][i]
  {
    seq(|rounds|, k requires 0 <= k < |rounds| => rounds[k][i])
  }

  /** Assets evolve independently: asset i after several calls depends only
      on asset i and the draws made for it. */
  lemma {:induction false} AssetsEvolveIndependently(cs: seq<CryptoData>, rounds: seq<seq<Draws>>, i: nat)
    requires RoundsFit(cs, rounds) && i < |cs|
    ensures AllValidDraws(Column(rounds, i))
    ensures UpdateRounds(cs, rounds)[i] == UpdateAssetMany(cs[i], Column(rounds, i))
    decreases |rounds|
  {
    var col := Column(rounds, i);
    forall k | 0 <= k < |col| ensures ValidDraws(col[k]) {
      assert AllValidDraws(rounds[k]);
    }
    if rounds != [] {
      var next := UpdateAll(cs, rounds[0]);
      assert next[i] == UpdateAsset(cs[i], col[0]);
      assert RoundsFit(next, rounds[1..]);
      AssetsEvolveIndependently(next, rounds[1..], i);
      assert Column(rounds[1..], i) == col[1..];
      assert UpdateRounds(cs, rounds) == UpdateRounds(next, rounds[1..]);
      assert UpdateAssetMany(cs[i], col) == UpdateAssetMany(next[i], col[1..]);
    }
  }

  /** The sparkline after several updates is the old sparkline fed with the
      pre-update price of each call: for a non-empty sparkline, the latest
      |sparkline| values of old samples followed by those prices. */
  lemma {:induction false} SparklineHistory(c: CryptoData, ds: seq<Draws>)
    requires AllValidDraws(ds)
    ensures UpdateAssetMany(c, ds).sparklineData == ShiftAll(c.sparklineData, PriceTrail(c, ds))
    ensures c.sparklineData != [] ==>
      UpdateAssetMany(c, ds).sparklineData == (c.sparklineData + PriceTrail(c, ds))[|ds|..]
    decreases |ds|
  {
    var trail := PriceTrail(c, ds);
    if ds != [] {
      var u := UpdateAsset(c, ds[0]);
      SparklineHistory(u, ds[1..]);
      assert trail[0] == c.price && trail[1..] == PriceTrail(u, ds[1..]);
    }
    if c.sparklineData != [] {
      ShiftAllKeepsLatest(c.sparklineData, trail);
    }
  }

  /** `k` updates that all use the same draws. */
  function Repeat(d: Draws, k: nat): (ds: seq<Draws>)
    ensures |ds| == k
    ensures forall j :: 0 <= j < k ==> ds[j] == d
  {
    seq(k, _ => d)
  }

  /** `k` updates with the same draws move `change1h` by exactly `k` steps. */
  lemma {:induction false} Change1hAfterRepeat(c: CryptoData, d: Draws, k: nat)
    requires ValidDraws(d)
    ensures AllValidDraws(Repeat(d, k))
    ensures UpdateAssetMany(c, Repeat(d, k)).change1h == c.change1h + (k as real) * Change1hStep(d.forChange1h)
    decreases k
  {
    if k > 0 {
      var ds := Repeat(d, k);
      assert ds[1..] == Repeat(d, k - 1);
      Change1hAfterRepeat(UpdateAsset(c, d), d, k - 1);
    }
  }

  /** `k` updates with the same draws move `change24h` by exactly `k` steps. */
  lemma {:induction false} Change24hAfterRepeat(c: CryptoData, d: Draws, k: nat)
    requires ValidDraws(d)
    ensures AllValidDraws(Repeat(d, k))
    ensures UpdateAssetMany(c, Repeat(d, k)).change24h == c.change24h + (k as real) * Change24hStep(d.forChange24h)
    decreases k
  {
    if k > 0 {
      var ds := Repeat(d, k);
      assert ds[1..] == Repeat(d, k - 1);
      Change24hAfterRepeat(UpdateAsset(c, d), d, k - 1);
    }
  }

  /** Number of steps of size `step` > 0 that carry `from` strictly past `to`. */
  function StepsPast(from: real, to: real, step: real): (k: nat)
    requires 0.0 < step
    ensures from + (k as real) * step > to
  {
    if to < from then 0
    else
      var q := (to - from) / step;
      MoreStepsGoFurther(q, q.Floor + 1, step);
      q.Floor + 1
  }

  lemma MoreStepsGoFurther(q: real, k: int, step: real)
    requires 0.0 < step && q < k as real
    ensures q * step < (k as real) * step
  {
  }

  /** No clamping: runs of valid draws push `change1h` above any bound `hi`
      and below any bound `lo`. */
  lemma Change1hDriftUnbounded(c: CryptoData, hi: real, lo: real) returns (up: seq<Draws>, down: seq<Draws>)
    ensures AllValidDraws(up) && AllValidDraws(down)
    ensures UpdateAssetMany(c, up).change1h > hi
    ensures UpdateAssetMany(c, down).change1h < lo
  {
    var rise := Draws(0.5, 0.75, 0.5, 0.5);   // change1h step +0.05
    var fall := Draws(0.5, 0.25, 0.5, 0.5);   // change1h step -0.05
    var m := StepsPast(c.change1h, hi, 0.05);
    var n := StepsPast(-c.change1h, -lo, 0.05);
    Change1hAfterRepeat(c, rise, m);
    Change1hAfterRepeat(c, fall, n);
    up, down := Repeat(rise, m), Repeat(fall, n);
  }

  /** No clamping: runs of valid draws push `change24h` above any bound `hi`
      and below any bound `lo`. */
  lemma Change24hDriftUnbounded(c: CryptoData, hi: real, lo: real) returns (up: seq<Draws>, down: seq<Draws>)
    ensures AllValidDraws(up) && AllValidDraws(down)
    ensures UpdateAssetMany(c, up).change24h > hi
    ensures UpdateAssetMany(c, down).change24h < lo
  {
    var rise := Draws(0.5, 0.5, 0.75, 0.5);   // change24h step +0.1
    var fall := Draws(0.5, 0.5, 0.25, 0.5);   // change24h step -0.1
    var m := StepsPast(c.change24h, hi, 0.1);
    var n := StepsPast(-c.change24h, -lo, 0.1);
    Change24hAfterRepeat(c, rise, m);
    Change24hAfterRepeat(c, fall, n);
    up, down := Repeat(rise, m), Repeat(fall, n);
  }

  // ---------------------------------------------------------------------
  // Seed data

  /** The five seeded assets (ids 1 to 5, seven-sample sparklines). */
  function InitialCryptos(): (r: seq<CryptoData>)
    ensures |r| == 5
    ensures forall i :: 0 <= i < |r| ==> r[i].id == i + 1
    ensures WellFormed(r)
  {
    [
      CryptoData(1, "Bitcoin", "BTC", 93759.48, 0.43, 0.93, 11.11,
        1861618902186.0, 43874950947.0, 19.85, Some(21.0),
        [91000.0, 92000.0, 93000.0, 92500.0, 93500.0, 93800.0, 93759.0]),
      CryptoData(2, "Ethereum", "ETH", 1802.46, 0.60, 3.21, 13.68,
        217581279327.0, 23547469307.0, 120.71, None,
        [1750.0, 1780.0, 1790.0, 1785.0, 1800.0, 1805.0, 1802.0]),
      CryptoData(3, "Tether", "USDT", 1.00, 0.01, -0.02, 0.00,
        102481279327.0, 52547469307.0, 102481.27, None,
        [1.0, 1.0, 1.0, 0.999, 1.001, 1.0, 1.0]),
      CryptoData(4, "BNB", "BNB", 567.82, -0.32, 2.45, 8.91,
        85749623145.0, 12458963247.0, 151.01, Some(200.0),
        [550.0, 555.0, 563.0, 558.0, 565.0, 568.0, 567.82]),
      CryptoData(5, "Solana", "SOL", 188.34, 1.24, 5.67, 15.89,
        42365897412.0, 8965412357.0, 224.94, None,
        [175.0, 180.0, 185.0, 182.0, 186.0, 189.0, 188.34])
    ]
  }

  /** From the seed, any number of `updatePrices` calls leaves five assets
      with ids 1 to 5 in order, distinct, each with a seven-sample sparkline. */
  lemma SeedStaysWellFormed(rounds: seq<seq<Draws>>)
    requires RoundsFit(InitialCryptos(), rounds)
    ensures var r := UpdateRounds(InitialCryptos(), rounds);
      |r| == 5 && (forall i :: 0 <= i < 5 ==> r[i].id == i + 1) && WellFormed(r)
  {
    UpdateRoundsPreservesWellFormed(InitialCryptos(), rounds);
  }

  // ---------------------------------------------------------------------
  // The store

  /** The slice state: `cryptos`, `loading`, `error` (`None` for `null`). */
  class CryptoStore {
    var cryptos: seq<CryptoData>
    var loading: bool
    var error: Option<string>

    predicate Valid()
      reads this
    {
      WellFormed(cryptos)
    }

    /** The store as seeded by `initialState`. */
    constructor ()
      ensures cryptos == InitialCryptos() && !loading && error == None
      ensures Valid()
    {
      cryptos := InitialCryptos();
      loading := false;
      error := None;
    }

    /** `selectCryptos`: the asset list as stored, neither copied nor
        reordered. */
    function SelectCryptos(): (r: seq<CryptoData>)
      reads this
      ensures r == cryptos
    {
      cryptos
    }

    /** The `updatePrices` reducer: reassigns `cryptos` to the asset-wise
        update; `loading` and `error` are untouched. */
    method UpdatePrices(draws: seq<Draws>)
      requires |draws| == |cryptos| && AllValidDraws(draws)
      modifies this`cryptos
      ensures SelectCryptos() == UpdateAll(old(SelectCryptos()), draws)
      ensures loading == old(loading) && error == old(error)
      ensures old(Valid()) ==> Valid()
    {
      if Valid() {
        UpdateAllPreservesWellFormed(cryptos, draws);
      }
      cryptos := UpdateAll(cryptos, draws);
    }
  }
}
