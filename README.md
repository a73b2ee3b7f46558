# Steam card seller: pricing and sell/retry model

A Dafny model of the selling core of `sell_cards.py`, a script that lists
Steam trading cards on the Community Market. It covers three parts:

- **Price derivation** (`pricing.dfy`, module `Pricing`). The card is listed
  at the lowest competing listing times `REDUCTION` (0.90), truncated to
  pennies. From that listing price the script computes what the seller
  receives, `sale / (1 + MARKET_FEE) - MINIMUM_FEE` with a 5% fee and a 0.01
  flat fee, in two forms. The pennies form is what the sell order is
  submitted with. The pounds form is printed and added to the running total.
  Money is an exact `real` number of pounds, and truncation toward zero is
  written out (`Trunc`), so binary-float artefacts do not appear.
- **Eligibility filter** (`inventory.dfy`, module `Inventory`). An inventory
  item is selected for listing when one of its tags has a lower-cased name
  containing "trading card", it is marketable, and its id is not among the
  ids of the seller's current listings. Inventory order is kept.
- **Per-card sell/retry loop** (`selling.dfy`, module `Selling`). For each
  card, the backoff starts at 4 seconds. While it is below 120, a sell order
  is submitted. A success counts the card, adds its proceeds to the total,
  pauses 4 seconds and ends the card. A failure whose lower-cased message
  contains "refresh the page" sleeps for the backoff, multiplies it by 1.6
  and tries again. Any other failure ends the card. If the backoff reaches
  the cap, the card is skipped. The remote service is an oracle: the method
  receives the responses it would return. It also returns the submitted
  orders and the sleep durations as ghost logs. `Settle` is the same loop
  written as a function of the responses, and the lemmas about it say which
  outcome each response pattern leads to.

`text.dfy` (module `Text`) holds the two string operations the filter and
the retry test use: lower-casing and the substring test.

Behaviour worth knowing (the named lemmas prove it):

- The guard lets through exactly the attempts 0 to 7, because
  4·1.6^7 ≈ 107.4 < 120 ≤ 4·1.6^8 ≈ 171.8. So a card causes between 1 and 8
  sell orders (`BackoffBelowCap`, `SettleShape`).
- Only the pounds form is clamped at `MINIMUM_FEE`. This is the precedence
  of the conditional expression on line 31. Above the floor the two forms
  agree exactly. At or below it they part: a card whose lowest listing is
  0.03 is listed at 0.02, submitted at 0 pennies and reported as 0.01. A
  lowest listing of 0.01 gives a listing price of 0.00 and an order of -1
  pennies (`PenniesDivergeAtFloor`). In every case the reported amount is at
  least the submitted one (`ReportedCoversSubmitted`).
- The pause after a success is `STARTING_BACKOFF`, the same constant as the
  first backoff (`SleepLog`, `SellCard`).

## Model

| member | source | states |
|---|---|---|
| `Pricing.Trunc` | sell_cards.py:24 | truncation toward zero: for x ≥ 0 the result n has n ≤ x < n+1, for x < 0 it has n-1 < x ≤ n |
| `Pricing.TruncateToPrice` | sell_cards.py:23-24 | the result is a whole number of pennies; for price ≥ 0 it has 0 ≤ r ≤ price < r + 0.01; for price < 0 it has r - 0.01 < price ≤ r ≤ 0 |
| `Pricing.TruncateToPriceFixpoint` | sell_cards.py:23-24 | `truncate_to_price` leaves x unchanged exactly when x is a whole number of pennies |
| `Pricing.TruncateToPriceIdempotent` | sell_cards.py:23-24 | truncating twice equals truncating once |
| `Pricing.TruncateToPricePennies` | sell_cards.py:26-27 | the result p is int(100·price) truncated toward zero: p ≤ 100·price < p+1 for price ≥ 0, and symmetrically below 0 |
| `Pricing.SteamPrice` | sell_cards.py:30 | the fee inversion: (proceeds + MINIMUM_FEE)·(1 + MARKET_FEE) equals the sale price |
| `Pricing.GetSteamPrice` | sell_cards.py:29-31 | pennies form: the truncation of 100·steam_price with no floor, so it can be 0 or negative; pounds form: exactly MINIMUM_FEE when steam_price ≤ MINIMUM_FEE, otherwise the 2-decimal truncation of steam_price, and always ≥ MINIMUM_FEE |
| `Pricing.ListingPrice` | sell_cards.py:72 | for lowest ≥ 0 the listing price is whole pennies, 0 ≤ r ≤ lowest·REDUCTION < r + 0.01, and r ≤ lowest |
| `Pricing.ListingPriceTruncates` | sell_cards.py:72 | a lowest listing of 10.999 is listed at 9.89, not rounded up to 9.90 |
| `Pricing.ExpectedProceeds` | sell_cards.py:73 | the proceeds reported for a card are never below MINIMUM_FEE |
| `Pricing.PenniesMatchPoundsAboveFloor` | sell_cards.py:31 | when steam_price > MINIMUM_FEE, the pennies form is exactly 100 × the pounds form and at least 1 |
| `Pricing.ReportedCoversSubmitted` | sell_cards.py:73-84 | the submitted pennies never exceed 100 × the reported pounds, and for a sale price ≥ 0 fall short by at most 2 |
| `Pricing.PenniesDivergeAtFloor` | sell_cards.py:72-73 | lowest listing 0.03: listed at 0.02, order of 0 pennies, reported 0.01; lowest listing 0.01: listed at 0.00, order of -1 pennies, reported 0.01 |
| `Pricing.OrderPennies` | sell_cards.py:72-73 | the pennies a card's order is submitted at never exceed 100 × its reported proceeds, and for a lowest listing ≥ 0 fall short of them by at most 2 |
| `Pricing.OrderPenniesMonotone` | sell_cards.py:29-31 | a higher sale price never yields a smaller pennies order |
| `Text.Lower` | sell_cards.py:87 | lower-casing keeps the length and maps each character on its own |
| `Text.Contains` | sell_cards.py:57 | Python's substring `in`: the empty pattern occurs in every string, and a pattern longer than the string never occurs |
| `Text.ContainsIff` | sell_cards.py:57 | the substring test holds exactly when the pattern occurs at some index |
| `Inventory.IsTradingCardTag` | sell_cards.py:57 | a tag marks a trading card exactly when "trading card" occurs at some index of its lower-cased name |
| `Inventory.IsTradingCard` | sell_cards.py:57 | the `any` over the item's tags: holds exactly when some tag's lower-cased name has "trading card" at some index |
| `Inventory.Eligible` | sell_cards.py:57 | an item passes the filter exactly when it is marketable, its id is not among the listing ids, and some tag's lower-cased name contains "trading card" |
| `Inventory.TradingCards` | sell_cards.py:57 | the selected cards are no more than the inventory, and each is an eligible inventory item |
| `Inventory.TradingCardsMembership` | sell_cards.py:57 | an item is selected exactly when it is in the inventory, has a trading-card tag, is marketable and is not already listed |
| `Inventory.TradingCardsAppend` | sell_cards.py:57 | filtering a concatenation is the concatenation of the filtered parts, so inventory order is kept |
| `Inventory.TradingCardsSingle` | sell_cards.py:57 | a single item is kept exactly when it is eligible |
| `Selling.Backoff` | sell_cards.py:77-91 | the backoff before any attempt is at least STARTING_BACKOFF |
| `Selling.BackoffIncreasing` | sell_cards.py:91 | the backoff strictly increases from attempt to attempt |
| `Selling.BackoffBelowCap` | sell_cards.py:78 | the guard `backoff < SKIP_ITEM_BACKOFF` holds at attempt n exactly when n < 8 |
| `Selling.GuardHeld` | sell_cards.py:77-80 | when at most 8 orders were submitted, every one of them was submitted while the backoff was below SKIP_ITEM_BACKOFF |
| `Selling.Backoffs` | sell_cards.py:90 | the sleeps of n retried attempts are the backoffs 0 to n-1, in order |
| `Selling.SkippedSleepReachesCap` | sell_cards.py:78-96 | a skipped card has slept, in total, at least SKIP_ITEM_BACKOFF seconds |
| `Selling.Retryable` | sell_cards.py:87 | a failure message is retried exactly when "refresh the page" occurs at some index of its lower-cased form |
| `Selling.RetryableCaseInsensitive` | sell_cards.py:87 | lower-casing a message first never changes whether it is retried |
| `Selling.Settle` | sell_cards.py:77-96 | the per-card loop as a function of the responses: from an attempt below 8 it takes at least one and at most 8 orders in all; from attempt 8 on the guard fails at once and the card is skipped; a skipped card always took exactly 8 orders |
| `Selling.SleepLog` | sell_cards.py:85-90 | a card's sleeps: one per retried attempt, plus one after a success; each at least STARTING_BACKOFF; a success ends with the STARTING_BACKOFF pause |
| `Selling.SettleShape` | sell_cards.py:78-94 | a card takes 1 to 8 orders; all responses but the last were retryable failures; the last is a success when listed, a non-retryable failure when errored, and the 8th retryable failure when skipped |
| `Selling.SettleDecided` | sell_cards.py:78-94 | if the first k responses are retryable failures and response k is not, the card ends after k+1 orders, listed on success and errored otherwise |
| `Selling.SettleExhausted` | sell_cards.py:78-96 | if all 8 responses the guard admits are retryable failures, the card is skipped after 8 orders |
| `Selling.RetryTwiceThenList` | sell_cards.py:78-91 | two retryable failures then a success list the card after exactly 3 orders |
| `Selling.RetryableIgnoresCase` | sell_cards.py:87 | "Please Refresh The Page" is retried: the test is case-insensitive |
| `Selling.SellCard` | sell_cards.py:77-96 | the outcome and order count are Settle's; every order is (card id, pennies) and was admitted by the guard; the sleeps are the successive backoffs of the retried attempts, plus one STARTING_BACKOFF pause after a success; the count rises by 1 and the total by the pounds proceeds on a success only, and both are unchanged otherwise |
| `Selling.CountListed` | sell_cards.py:60-83 | `listed_cards` as it accumulates: at most one per card, and 0 exactly when no card was listed |
| `Selling.Earned` | sell_cards.py:59-84 | `total_money` as it accumulates: never negative, and 0 when no card was listed |
| `Selling.CountedStep` | sell_cards.py:83-84 | one more card raises the count by 1 exactly when it is listed, and the total by that card's reported proceeds exactly when it is listed; otherwise both stay as they were |
| `Selling.CountListedBound` | sell_cards.py:83 | the number of listed cards never exceeds the number of cards, with equality exactly when every card was listed |
| `Selling.EarnedAtLeastFloor` | sell_cards.py:84 | the total is at least MINIMUM_FEE times the number of listed cards |
| `Selling.SellCards` | sell_cards.py:59-96 | starting from 0 and 0.0, for every card i (the ghost predicate `CardSold`): its outcome and number of orders are Settle's on its responses; every order of card i is (its id, the pennies form derived from its lowest listing); its sleeps are those of its settled outcome; the count is the number of listed outcomes, and the total is the sum of the listed cards' pounds proceeds |

## Left out

- All calls to the Steam client: login, inventory and listings retrieval, `fetch_price`, `create_sell_order` and the wallet balance (sell_cards.py:51-61, 71, 80, 98). These are network I/O through a library that is not part of this model. The inventory, the listing ids and the lowest prices are parameters. The sell-order responses are an oracle sequence.
- `Selling.SellCard` and `Selling.SettleShape` require at least 8 responses per card. This is the most the guard can ask for, so every call the loop makes has an answer.
- `sleep` as a real delay (sell_cards.py:85, 90). The durations are recorded in a ghost log instead.
- Reading `keys.json`, the required-key check and `exit(0)` (sell_cards.py:33-49). These are file I/O and process control.
- All printed output, including the "Got a retry condition." prefix and the end-of-run summary (sell_cards.py:62-68, 75, 89, 93, 96, 99-102). This is presentation only.
- Parsing `lowest_price` by dropping the currency character and calling `float` (sell_cards.py:71), and the wallet-balance difference (sell_cards.py:100).
- Binary floating point. Prices and backoffs are exact reals, so float rounding artefacts are not modelled. The string rendering of prices by `str` is not modelled either; prices are kept as numbers.
- The string/number mix of `get_steam_price(..., False)`: in the floor case it returns the number `MINIMUM_FEE` itself rather than a string. Line 84 passes both kinds through `float`, so the model uses one `real` for the pounds form.
- `Text.Lower`: maps only the ASCII letters A-Z. Python's `str.lower` also lower-cases other Unicode letters, and can change a string's length ('İ' becomes two code points); the model's lower-casing always keeps the length.
- Tag records, inventory items and market responses are reduced to the fields the core reads. A missing `message` key, or a non-string message passed through `str`, is not modelled.
