# Crypto tracker store, in Dafny

A model of the Redux slice of the crypto tracker dashboard
(`src/store/cryptoSlice.ts`). The slice holds a fixed list of five assets
(Bitcoin, Ethereum, Tether, BNB, Solana) together with `loading` and `error`
flags. Its one reducer, `updatePrices`, simulates live markets. It rebuilds
every asset with a small random walk on price, 1h change, 24h change and 24h
volume, and shifts the asset's seven-sample sparkline by one.

Everything lives in module `CryptoSlice` (`crypto_slice.dfy`):

- `CryptoData` is one asset record. `maxSupply` is an `Option<real>`, with
  `None` standing for the source's `null`.
- `Draws` holds the four `Math.random()` results the reducer draws for one
  asset, in call order: price, change1h, change24h, volume24h. Each draw is
  a parameter in [0, 1).
- `UpdateAsset` is the pure per-asset transformation, i.e. the object spread
  plus the five overwritten fields. `UpdateAll` is the `map` over the list.
- `CryptoStore` is the slice state as a class with fields `cryptos`,
  `loading` and `error`. The constructor seeds it with `initialState`.
  `UpdatePrices` reassigns `cryptos`, and `SelectCryptos` is the
  `selectCryptos` accessor.
- `WellFormed` is the store invariant: ids are positive and distinct, every
  sparkline has 7 samples, and price and volume are non-negative.
  `UpdateRounds` models any number of successive `updatePrices` calls.

Prices, volumes and percentages are `real`.

Line 113 of `src/store/cryptoSlice.ts` appends `crypto.price` read before
the update. So the newest sparkline sample trails the displayed price by one
tick. `SparklineLagsPrice` proves that, after an update, the newest sample
equals the displayed price only when the old price is 0 or the price draw is
exactly 0.5.

## Model

| member | source | states |
|---|---|---|
| `CryptoSlice.PriceFactor` | src/store/cryptoSlice.ts:109 | the price multiplier lies in [0.999, 1.001) and is exactly 1 only for the draw 0.5 |
| `CryptoSlice.Change1hStep` | src/store/cryptoSlice.ts:110 | the amount added to change1h lies in [-0.1, 0.1) |
| `CryptoSlice.Change24hStep` | src/store/cryptoSlice.ts:111 | the amount added to change24h lies in [-0.2, 0.2) |
| `CryptoSlice.VolumeFactor` | src/store/cryptoSlice.ts:112 | the volume multiplier lies in [0.998, 1.002) |
| `CryptoSlice.NudgedPrice` | src/store/cryptoSlice.ts:109 | a non-negative price stays non-negative and ends within [0.999·p, 1.001·p], and strictly below 1.001·p when p > 0, so it moves by at most 0.1% |
| `CryptoSlice.NudgedVolume` | src/store/cryptoSlice.ts:112 | a non-negative volume ends within [0.998·v, 1.002·v], and strictly below 1.002·v when v > 0 |
| `CryptoSlice.ShiftWindow` | src/store/cryptoSlice.ts:113 | `[...s.slice(1), x]`: the length is kept for a non-empty window and becomes 1 for an empty one; the last element is x; element i is the old element i+1 |
| `CryptoSlice.ShiftAllKeepsLatest` | src/store/cryptoSlice.ts:113 | a non-empty window fed samples xs one at a time keeps its length and holds the last \|window\| values of window ++ xs |
| `CryptoSlice.UpdateAsset` | src/store/cryptoSlice.ts:107-113 | id, name, symbol, change7d, marketCap, circulatingSupply and maxSupply are copied through; change1h and change24h move by amounts in [-0.1, 0.1) and [-0.2, 0.2); price and volume stay within 0.1% and 0.2%; the sparkline shifts by one and its newest sample is the price before the update |
| `CryptoSlice.SparklineLagsPrice` | src/store/cryptoSlice.ts:109-113 | after an update, the newest sparkline sample equals the new price if and only if the old price is 0 or the price draw is 0.5 |
| `CryptoSlice.UpdateAll` | src/store/cryptoSlice.ts:107-114 | the asset count is kept and asset i is rebuilt from asset i and its own draws, so order is kept |
| `CryptoSlice.UpdateAllPreservesWellFormed` | src/store/cryptoSlice.ts:106-115 | one update keeps ids positive and distinct, sparklines at 7 samples, and price and volume non-negative |
| `CryptoSlice.UpdateRounds` | src/store/cryptoSlice.ts:106-115 | any number of updates keeps the asset count and, position by position, the ids |
| `CryptoSlice.UpdateRoundsPreservesWellFormed` | src/store/cryptoSlice.ts:106-115 | any number of updates keeps the store invariant |
| `CryptoSlice.AssetsEvolveIndependently` | src/store/cryptoSlice.ts:107-114 | after several updates, asset i depends only on asset i and the draws made for it |
| `CryptoSlice.SparklineHistory` | src/store/cryptoSlice.ts:113 | after several updates the sparkline is the old one fed with the pre-update price of each call, i.e. for a non-empty sparkline, the latest \|sparkline\| values of the old samples followed by those prices |
| `CryptoSlice.Change1hAfterRepeat` | src/store/cryptoSlice.ts:110 | k updates with the same draw move change1h by exactly k times that step, with no clamping |
| `CryptoSlice.Change1hDriftUnbounded` | src/store/cryptoSlice.ts:110 | for any bounds hi and lo, one run of valid draws pushes change1h above hi and another pushes it below lo |
| `CryptoSlice.Change24hAfterRepeat` | src/store/cryptoSlice.ts:111 | k updates with the same draw move change24h by exactly k times that step, with no clamping |
| `CryptoSlice.Change24hDriftUnbounded` | src/store/cryptoSlice.ts:111 | for any bounds hi and lo, one run of valid draws pushes change24h above hi and another pushes it below lo |
| `CryptoSlice.InitialCryptos` | src/store/cryptoSlice.ts:25-97 | the seed has five assets with ids 1 to 5 in order and satisfies the store invariant, including 7-sample sparklines |
| `CryptoSlice.SeedStaysWellFormed` | src/store/cryptoSlice.ts:25-115 | from the seed, after any number of updates there are still five assets with ids 1 to 5, distinct, each with a 7-sample sparkline |
| `CryptoSlice.CryptoStore.constructor` | src/store/cryptoSlice.ts:25-100 | the store starts with the seeded assets, `loading` false and `error` null |
| `CryptoSlice.CryptoStore.SelectCryptos` | src/store/cryptoSlice.ts:119 | the accessor returns the stored asset list itself, neither copied nor reordered |
| `CryptoSlice.CryptoStore.UpdatePrices` | src/store/cryptoSlice.ts:106-115 | `cryptos` becomes the asset-wise update of the old list; `loading` and `error` are unchanged; the store invariant is kept |

## Left out

- `Math.random()` is not modelled. Each draw is an explicit parameter in [0, 1), and `UpdatePrices` takes one `Draws` record per asset.
- IEEE-754 rounding is not modelled. Prices, volumes and percentages are `real`, and no claim is made about floating-point precision.
- Redux Toolkit's `createSlice`, its Immer drafts and the exported action creators are library plumbing. The reducer is a method that reassigns `cryptos`.
- `src/components/CryptoTable.tsx` and `src/components/CryptoDetail.tsx` are not part of this model. They hold React rendering, charts, icons and the 2-second `setInterval` timer that dispatches `updatePrices`. The timer is event-loop plumbing, and `SeedStaysWellFormed` covers any number of its firings.
- `src/utils/formatters.ts` is not part of this model. It wraps `Intl.NumberFormat` and `toFixed`, which are locale and floating-point formatting in library code.
- The sort/filter selector, `setSortField`/`setFilterType` and the persisted view preferences are not modelled. None of them appears in the store file.
