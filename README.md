# Trading bot core: key vault, perpetuals market orders, prediction-market and swap flows

This project models the decision logic of a Telegram trading bot's three service
modules and proves properties of that model in Dafny.

- **Key vault** (`src/services/wallet.ts`). A user's private key is stored as
  `hex(iv):hex(authTag):hex(ciphertext)`. The cipher is AES-256-GCM (NIST SP 800-38D)
  under a key that scrypt (RFC 7914) derives from the configured passphrase and the
  fixed salt `"salt"`. The model keeps GCM's structure: a counter-mode keystream that
  is its own inverse, and a tag over the ciphertext. These primitives, scrypt and
  UTF-8 are abstract fields of `KeyVault.Primitives`, and `KeyVault.Sound` names the
  only facts assumed about them. Node's cipher objects are classes (`KeyVault.Cipher`,
  `KeyVault.Decipher`) driven by the two imperative procedures. The iv and tag are
  read with Node's lenient `Buffer.from(…, 'hex')`, which stops at the first pair
  that is not hex and drops an odd trailing digit. The ciphertext goes to
  `decipher.update(…, 'hex')`, which refuses hex of odd length.
- **Perpetuals market orders** (`src/services/hyperliquid.ts`). A market order is
  emulated by one immediate-or-cancel limit order:
  - priced 1% through the mid of the top of book;
  - with the size floored to the asset's size decimals;
  - its outcome read from the first embedded status.

  Prices and sizes are exact rationals. The venue's info and exchange endpoints are
  parameters. Open positions are a pure filter and map.
- **Prediction market and swaps** (`src/services/polymarket.ts`):
  - EIP-1559 fee settings in whole wei;
  - the per-address CLOB credential cache, a class whose map the lookup updates;
  - the paged market listing loop, and the exact condition-id lookup;
  - the approve-then-trade flows. The USDC swap flow is modelled with the
    corrected 1inch leg, which approves the router the swap is sent to. The leg
    as written is modelled beside it, with the counterexample under "Findings".

  The flows run against `Ledger.Chain`. This class holds:
  - the wallet's ERC-20 balances (EIP-20);
  - its allowances;
  - a log of every read, transaction and API request, in order.

  That log lets the contracts state the sequencing:
  - nothing is requested before the local checks pass;
  - Kyberswap is asked exactly once, and only after a 1inch answer that is not ok;
  - every swap or BUY order is submitted after an event that grants the spender
    the allowance it needs (`Ledger.SwapsAuthorised`, `Ledger.BuysAuthorised`).

Network answers, transaction outcomes, RPC reads and the random iv are parameters.
Examples are `Common.Fetch` (a value or a thrown message), `SwapRouter.Http`,
`Ledger.TxOutcome` and `GasOracle.FeeData`.

Two facts about the code shape the model:
- The credential cache has no single-flight guard. Its read and its write are
  separated by an `await` (src/services/polymarket.ts:57-72). The model is one
  sequential lookup.
- The perpetuals limit price is the mid of the best bid and best ask, ±1%, written
  with `toFixed(6)` (src/services/hyperliquid.ts:65-69, 85).

## Model

| member | source | states |
|---|---|---|
| Hex.EncodeHasNoColon | src/services/wallet.ts:30 | hex output contains no `:`, so it cannot break the blob's separators |
| Hex.DecodeEncode | src/services/wallet.ts:37-38 | `Buffer.from(b.toString('hex'), 'hex') == b` for every byte string |
| Hex.EncodeDecode | src/services/wallet.ts:43 | even-length lower-case hex text is the encoding of what it decodes to |
| Hex.EncodeAppend | src/services/wallet.ts:24-25 | hex of `update` output followed by hex of `final` output is the hex of the whole ciphertext |
| KeyVault.Split | src/services/wallet.ts:34 | `split(':')` yields at least one part and no part contains the separator |
| KeyVault.SplitJoin | src/services/wallet.ts:30-34 | splitting separator-free parts joined by `:` gives back exactly those parts, in order |
| KeyVault.JoinSplit | src/services/wallet.ts:34 | joining the parts of a split gives back the original text |
| KeyVault.ParseBlob | src/services/wallet.ts:34-38 | a blob without a separator is refused (its tag field is `undefined`, which `Buffer.from` rejects); a two-segment blob gives iv and tag and no ciphertext, and is exactly those two joined by `:`; with three or more segments the three taken are a prefix of the blob |
| KeyVault.ParseJoinBlob | src/services/wallet.ts:30-34 | parsing the blob written from three separator-free segments recovers them in the order iv, tag, ciphertext |
| KeyVault.EncryptShape | src/services/wallet.ts:7-8 | the blob is exactly three segments; the first is the 32-character hex of the 16-byte iv and the second the 32-character hex of the tag |
| KeyVault.DecryptEncrypt | src/services/wallet.ts:19-47 | decrypting the blob produced from a key under the same passphrase returns that key (same scrypt key from the fixed salt) |
| KeyVault.DecryptFailsClosed | src/services/wallet.ts:40-46 | plaintext comes back only if the iv is non-empty, the tag length is accepted, the ciphertext hex has even length and the tag matches the ciphertext supplied; it is then the keystream inverse of that ciphertext |
| KeyVault.TwoFieldBlobRejected | src/services/wallet.ts:34-43 | a two-segment blob fails with the empty-iv error, else with "Invalid authentication tag length: N" for the decoded tag length N, else with Node's error for `update(undefined)` |
| KeyVault.OneFieldBlobRejected | src/services/wallet.ts:34-38 | a blob with no `:` fails on `Buffer.from(undefined)` before any cipher object is built |
| KeyVault.TamperedTagRejected | src/services/wallet.ts:41-44 | with even-length ciphertext hex, a full-length tag that differs from the ciphertext's tag makes decryption throw the authentication error |
| KeyVault.OddCiphertextRejected | src/services/wallet.ts:43 | with a usable iv and tag, ciphertext hex of odd length makes `update` throw Node's invalid-argument error for that length, before any authentication |
| KeyVault.Cipher.constructor | src/services/wallet.ts:22 | a new cipher under the given key and iv, nothing processed and no tag yet |
| KeyVault.Cipher.Update | src/services/wallet.ts:24 | returns the counter-mode ciphertext of the plaintext and records it |
| KeyVault.Cipher.Final | src/services/wallet.ts:25 | returns no further bytes and fixes the tag over the recorded ciphertext |
| KeyVault.Cipher.GetAuthTag | src/services/wallet.ts:27 | returns the fixed tag |
| KeyVault.Decipher.constructor | src/services/wallet.ts:40 | a new decipher under the given key and iv, with no expected tag |
| KeyVault.Decipher.SetAuthTag | src/services/wallet.ts:41 | accepts exactly the tag lengths GCM allows and records an accepted tag |
| KeyVault.Decipher.Update | src/services/wallet.ts:43 | returns the unverified keystream inverse of the ciphertext and records the ciphertext |
| KeyVault.Decipher.Final | src/services/wallet.ts:44 | succeeds (with no further bytes) if and only if the expected tag is a prefix of the ciphertext's tag |
| KeyVault.EncryptPrivateKey | src/services/wallet.ts:19-31 | the cipher-object procedure produces exactly the blob `Encrypt` describes |
| KeyVault.DecryptPrivateKey | src/services/wallet.ts:33-47 | the decipher-object procedure returns exactly what `Decrypt` describes, including each thrown error: one segment, empty iv, bad tag length (with the length), missing ciphertext for two segments, odd-length ciphertext hex (with the length), failed authentication |
| KeyVault.AccountFromEncryptedKey | src/services/wallet.ts:49-52 | a decryption failure is reported with Node's message for that failure (the tag-length and odd-hex messages carrying their lengths) and no account |
| KeyVault.AccountOfEncryptedKey | src/services/wallet.ts:49-52 | the account of an encrypted key is `privateKeyToAccount` of the key itself |
| Hyperliquid.TopOfBook | src/services/hyperliquid.ts:62-64 | a best bid and best ask exist exactly when the book came back and each side has a level |
| Hyperliquid.LimitPrice | src/services/hyperliquid.ts:67-69 | the limit is the mid moved by 1% of the mid, up for a buy and down for a sell |
| Hyperliquid.LimitPricesBracketMid | src/services/hyperliquid.ts:65-69 | for positive prices, sell limit < mid < buy limit |
| Hyperliquid.FloorToDecimalsBounds | src/services/hyperliquid.ts:80 | the rounded size is at most the size, loses less than 10^-szDecimals, and is non-negative for a non-negative size |
| Hyperliquid.OnGrid | src/services/hyperliquid.ts:80-87 | a multiple of 10^-d is its own floor and its own `toFixed(d)` |
| Hyperliquid.FloorToDecimalsIdempotent | src/services/hyperliquid.ts:80-87 | flooring twice equals flooring once, and `roundedSize.toFixed(szDecimals)` sends exactly the rounded size |
| Hyperliquid.FindAsset | src/services/hyperliquid.ts:73-84 | the index of the first asset with that name, or none when no asset has it |
| Hyperliquid.Classify | src/services/hyperliquid.ts:94-109 | success exactly when the first embedded status is `filled`, with its size and price; `resting` and any other status give their failure messages; an answer that is not an order response gives "Order not filled"; an order response with no status gives the no-status message |
| Hyperliquid.PlaceMarketOrder | src/services/hyperliquid.ts:51-116 | requests go book, metadata, order, each at most once; a signer error fails with its message and no request; a thrown book or metadata request fails with its message and nothing after it; a book without a top level fails before metadata; an unknown coin fails with no order; the one order is built from the first matching asset, and the result is the classification of the exchange's answer to it, or the message it threw |
| Hyperliquid.MarketOrderActionShape | src/services/hyperliquid.ts:82-92 | for any book, exactly one order: IOC, not reduce-only, grouping `na`, the given asset and side, size floored within 10^-szDecimals, price the slipped mid at six decimals |
| Hyperliquid.View | src/services/hyperliquid.ts:41-47 | fields are copied; a missing entry price, or an empty one, becomes "0" |
| Hyperliquid.OpenPositions | src/services/hyperliquid.ts:39-47 | no more entries than positions, and none of zero size |
| Hyperliquid.OpenPositionsAppend | src/services/hyperliquid.ts:39-47 | the filter works entry by entry, so the listing order is preserved |
| Hyperliquid.OpenPositionsOne | src/services/hyperliquid.ts:39-47 | one position is kept, as its view, exactly when its size does not parse to zero |
| GasOracle.PolygonGasSettings | src/services/polymarket.ts:25-39 | tip = max(suggested tip, 35 gwei); max fee − tip = 2 × (last base fee, or 30 gwei when absent); so max fee ≥ tip ≥ 35 gwei |
| GasOracle.ZeroBaseFeeKept | src/services/polymarket.ts:36 | a reported base fee of zero is used, not replaced by 30 gwei |
| GasOracle.GasSettingsMonotone | src/services/polymarket.ts:31-37 | higher fee data never yields a lower tip or max fee |
| CredentialCache.ToLower | src/services/polymarket.ts:54 | same length, each character lower-cased |
| CredentialCache.ToLowerIdempotent | src/services/polymarket.ts:54 | a cache key lower-cased again is unchanged |
| CredentialCache.SameKeyIgnoringCase | src/services/polymarket.ts:54-57 | spellings of an address that differ only in case share one key |
| CredentialCache.Lookup | src/services/polymarket.ts:54-73 | a hit derives nothing and changes nothing; a miss derives once; a successful derivation is stored under the lower-cased key and returned in the client; a thrown one stores nothing and returns its message (each stated for a miss); no other entry changes; success iff the key is present afterwards |
| CredentialCache.LookupAfterSuccess | src/services/polymarket.ts:57-73 | after one successful lookup, a lookup for the same address in any case derives nothing and returns the same credentials |
| CredentialCache.Cache.constructor | src/services/polymarket.ts:43 | the cache starts empty |
| CredentialCache.Cache.GetClobClient | src/services/polymarket.ts:52-83 | a failed key decryption changes nothing; otherwise the new map, result and derivation are those of `Lookup` |
| Markets.TextOr | src/services/polymarket.ts:156-157 | `v || '0'`: a missing or empty value becomes the default |
| Markets.ToGamma | src/services/polymarket.ts:149-161 | id, question, slug and the active flag copied; present outcomes and prices copied, absent ones default to Yes/No and 0.5/0.5; volume and liquidity copied when present and non-empty, else "0" |
| Markets.Tradeables | src/services/polymarket.ts:145-167 | the kept markets are no more than those listed |
| Markets.TradeableIndices | src/services/polymarket.ts:145-167 | the kept markets are exactly the converted entries that have the order book enabled, are not closed and have ≥ 2 token ids, at increasing positions, none left out |
| Markets.TradeablesAppend | src/services/polymarket.ts:129-170 | filtering page by page equals filtering the concatenated pages |
| Markets.Take | src/services/polymarket.ts:163-165 | a prefix of length min(limit, size), none when limit ≤ 0 |
| Markets.TrendingMarkets | src/services/polymarket.ts:123-174 | at most 10 requests at offsets 0, 50, 100, … made only while under the limit; a page that is not ok ends in its error; otherwise the result is the first `limit` tradeable markets of the pages read, stopping at an empty page; a last page that is not ok always ends in an error, the tenth included |
| Markets.CrawledRequests | src/services/polymarket.ts:129-172 | every page requested, including a last one that ended the loop, was requested while fewer than `limit` markets were found, and every page before the last was ok and not empty |
| Markets.ScanPage | src/services/polymarket.ts:145-167 | scanning a page, stopping at the limit, extends the found list to the first `limit` tradeable markets so far |
| Markets.ScanStep | src/services/polymarket.ts:145-166 | one more entry extends the tradeable list by that entry's contribution |
| Markets.TrendingResult | src/services/polymarket.ts:129-170 | the result holds at most `limit` markets, a prefix of the tradeable ones in listing order, each converted from an entry with the order book enabled, not closed and with ≥ 2 token ids |
| Markets.FindCondition | src/services/polymarket.ts:190 | the first entry whose condition id equals the query exactly, or none |
| Markets.GetMarket | src/services/polymarket.ts:177-221 | a market is returned iff the response was ok and the first exact match has the order book enabled and ≥ 2 token ids; it is that entry, converted |
| Markets.GetMarketFirstMatchOnly | src/services/polymarket.ts:190-200 | a disabled first match hides any later entry with the same id |
| Ledger.TxEvents | src/services/polymarket.ts:323-330 | sending logs the submission, and waiting logs the confirmation only for a mined transaction |
| Ledger.Apply | src/services/polymarket.ts:323-327 | a mined approval sets that allowance and leaves every other one |
| Ledger.SwapsAuthorisedAppend | src/services/polymarket.ts:551-575 | events that are not swaps, appended, keep every swap authorised |
| Ledger.SwapsAuthorisedPrepend | src/services/polymarket.ts:548-552 | an event that is not a swap, put in front, keeps every swap authorised |
| Ledger.AllowanceFollowsLogPrepend | src/services/polymarket.ts:548-552 | a read or request before a log keeps every allowance change explained by a confirmed approval in it |
| Ledger.Chain.ReadBalance | src/services/polymarket.ts:493 | reads the balance (zero if never credited) and logs the read |
| Ledger.Chain.ReadAllowance | src/services/polymarket.ts:308 | reads the allowance (zero if never set) and logs the read |
| Ledger.Chain.ReadFeeData | src/services/polymarket.ts:320 | returns the Polygon fee settings of the fee data and logs them |
| Ledger.Chain.Request | src/services/polymarket.ts:516 | logs one API request and changes no chain state |
| Ledger.Chain.SendAndWait | src/services/polymarket.ts:323-330 | a mined call applies its effect and returns its hash; a refused or reverted one changes nothing on chain and returns its message |
| Ledger.GasErrorMessage | src/services/polymarket.ts:337-343 | an error mentioning "insufficient funds" is reported as missing POL for gas, any other as itself |
| PolymarketOrders.EnsurePolymarketApprovals | src/services/polymarket.ts:294-345 | an unlimited allowance means one read and no transaction; otherwise one unlimited approval of the exchange, sent with the Polygon fees and waited for; success only once the exchange holds the unlimited allowance; no API request; the log is exactly `ApprovalTrace` and the allowances `ApprovalAllowance`, every change a confirmed approval in the new log entries |
| PolymarketOrders.ApprovalTrace | src/services/polymarket.ts:300-330 | the approval step requests nothing from an API |
| PolymarketOrders.ApprovalAllowance | src/services/polymarket.ts:308-330 | at most the exchange's USDC.e allowance changes, to the unlimited amount; nothing changes without a key or a mined approval; with a key it ends unlimited when it was or the approval mined |
| PolymarketOrders.ApprovalAllowanceFollowsLog | src/services/polymarket.ts:308-330 | every allowance the approval step changes is its confirmed approval, which holds afterwards |
| PolymarketOrders.ApprovalTraceGrants | src/services/polymarket.ts:308-334 | with a key, an unlimited allowance or a mined approval, the step's log shows the exchange approved |
| PolymarketOrders.PostOutcome | src/services/polymarket.ts:418-428 | placed iff the post succeeded, with its order id; otherwise its error message, or "Order not filled" when that is empty |
| PolymarketOrders.OrderErrorMessage | src/services/polymarket.ts:433-444 | "market not found" or "toString" gives the not-tradeable message; an empty message gives "Unknown error"; any other is kept |
| Common.ContainsAt | src/services/polymarket.ts:434 | `includes` holds when the text occurs at some position |
| Common.ContainsFound | src/services/polymarket.ts:434 | `includes` holds only when the text occurs at some position |
| PolymarketOrders.PostAfterApproval | src/services/polymarket.ts:389-406 | an order posted after an approval step that showed the exchange approved (or a SELL) keeps BUYs authorised |
| PolymarketOrders.PostMarketOrder | src/services/polymarket.ts:403-428 | at most one order request is logged; the cache ends as `Lookup` leaves it, the order is posted iff the lookup gives a client, and a failed lookup is reported through the error mapping; the result is the post's answer or its mapped error |
| PolymarketOrders.ApproveForSide | src/services/polymarket.ts:389-401 | a SELL does nothing: no log entry and no allowance change; a BUY logs exactly `ApprovalTrace` and leaves the allowances as `ApprovalAllowance`; it continues iff the step passes (a SELL, or a key with an unlimited allowance or a mined approval), continues only when the log shows the exchange approved, and fails with the mapped message otherwise |
| PolymarketOrders.PlacePolymarketOrder | src/services/polymarket.ts:374-446 | a BUY's order follows the approval, and a failed approval returns "Approval failed: …" with no order and no credential lookup; a SELL only posts; every posted BUY is authorised; "placed" carries the venue's order id; once the approval step passes, the cache ends as `Lookup` leaves it, a failed lookup is reported through the error mapping with no order, and otherwise the log ends with the one order and the result is the post's answer or its mapped error; the whole log is the BUY's approval step followed by the order iff it is posted (`OrderTrace`); the allowances are `OrderAllowance`, unchanged for a SELL; the cache is `OrderEntries` and the report `OrderReport` |
| PolymarketOrders.OrderAllowance | src/services/polymarket.ts:389-401 | a SELL, a missing key or an approval that did not mine leaves every allowance; otherwise only the exchange's may become unlimited |
| PolymarketOrders.OrderReport | src/services/polymarket.ts:374-446 | "placed" only when the order was posted and the venue accepted it, with its order id |
| PolymarketOrders.PlaceOrderSteps | src/services/polymarket.ts:374-446 | logs exactly `OrderTrace`, leaves `OrderAllowance` and `OrderEntries`, and returns `OrderReport` |
| PolymarketOrders.OrderFacts | src/services/polymarket.ts:374-446 | every posted BUY is authorised; a failed approval posts nothing and leaves the cache; a SELL only posts; a placed order ends the log; once the approval step passes with a key, the lookup decides the cache, whether the order is posted, and the report |
| PolymarketOrders.AfterApproval | src/services/polymarket.ts:389-428 | the order flow's log is the approval step, which requests nothing, followed by what was posted |
| Units.ParseUnits | src/services/polymarket.ts:498 | succeeds iff the amount is a whole number of smallest units, and is that number; otherwise the fraction error |
| Units.ParseUnitsOfUnits | src/services/polymarket.ts:498 | a whole number of smallest units, written as a decimal amount, parses back to itself |
| Units.ParseUnitsRefusesDust | src/services/polymarket.ts:498 | 1.0000001 USDC (six decimals), which `toString` writes positionally, is refused with the fraction error |
| Units.FormatUnits | src/services/polymarket.ts:581 | with no decimals the integer's digits; never empty |
| Units.FractionDigits | src/services/polymarket.ts:581 | between one digit and the padded width |
| Units.GasLimit | src/services/polymarket.ts:573 | ⌈1.3 × estimate⌉ in exact arithmetic, so at least the estimate |
| SwapRouter.LegAuthorised | src/services/polymarket.ts:682-709 | when the approved router is the swap's target, the swap is submitted only after a large enough allowance read or a confirmed unlimited approval |
| SwapRouter.LegApprovals | src/services/polymarket.ts:684-697 | an approval is sent only when the allowance is below the amount, only for the unlimited amount and only to the leg's router; one swap at most |
| SwapRouter.LegSuccess | src/services/polymarket.ts:711-721 | a leg that reports a hash ends with that swap's confirmation |
| SwapRouter.LegMakesNoRequests | src/services/polymarket.ts:680-713 | a leg makes no API request |
| SwapRouter.ApproveAndSwap | src/services/polymarket.ts:682-713 | logs the allowance read, the approval when it falls short, and the swap unless the approval failed; the allowances become `LegAllowance`: only a mined approval changes them |
| SwapRouter.LegAllowance | src/services/polymarket.ts:683-697 | after a leg at most the router's USDC allowance has changed, and then to the unlimited amount; nothing changes when the allowance sufficed or the approval did not mine |
| SwapRouter.LegAllowanceFollowsLog | src/services/polymarket.ts:683-697 | every allowance a leg changes is the amount of an approval confirmed in its log, and that confirmed approval holds afterwards |
| SwapRouter.OneInchSwapCall | src/services/polymarket.ts:569-575 | sent to the quote's `tx.to`, with a gas limit at least the quoted gas |
| SwapRouter.OneInchLegAsWritten | src/services/polymarket.ts:551-575 | the leg with the fixed router's allowance checked and granted, and the swap sent to `tx.to`; the allowances become `LegAllowance` of the fixed router |
| SwapRouter.OneInchLegAsWrittenUnauthorised | src/services/polymarket.ts:552-570 | with the v6 router as `tx.to`, the leg as written submits a swap that no event authorises |
| SwapRouter.OneInchLeg | src/services/polymarket.ts:551-575 | the corrected leg approves the router it swaps through, so its swap is authorised; the allowances become `LegAllowance` of the quote's router |
| SwapRouter.KyberGas | src/services/polymarket.ts:707 | the build's gas estimate, else the route's |
| SwapRouter.KyberSwapCall | src/services/polymarket.ts:703-709 | sent to the built router with zero value and ⌈1.3 × estimate⌉ gas |
| SwapRouter.Kyberswap | src/services/polymarket.ts:602-730 | logs exactly `KyberTrace` and returns `KyberResult`; one route request first, no second one; the build request second; a route that is not ok, missing, or fails to build ends with its message and no transaction; every swap is authorised; success carries the formatted route amount and the confirmed swap's hash; the allowances become `KyberAllowance`, and every change is a confirmed approval in the new log entries |
| SwapRouter.KyberOutcome | src/services/polymarket.ts:703-709 | with a gas estimate the send has the swap's own outcome; without one it is taken to fail with the invalid gas limit message (an assumption, see Left out) |
| SwapRouter.KyberRequests | src/services/polymarket.ts:627-722 | the route request, then the build and swap; logs `KyberTrace` and returns `KyberResult`; the allowances become `KyberAllowance` |
| SwapRouter.KyberBuildAndSwap | src/services/polymarket.ts:646-722 | after a route: the build request, then the fee read and the leg; logs `KyberBuildTrace` and returns `KyberResult`; the allowances become `KyberAllowance` |
| SwapRouter.KyberTrace | src/services/polymarket.ts:627-649 | the Kyberswap log starts with the route request |
| SwapRouter.KyberBuildTrace | src/services/polymarket.ts:649-664 | the log after a route starts with the build request for its amount |
| SwapRouter.KyberBuiltResult | src/services/polymarket.ts:674-722 | after the build, success iff the leg through the built router succeeds, with the requested amount and the formatted route amount |
| SwapRouter.KyberResult | src/services/polymarket.ts:602-730 | success only with a route found and built, the requested amount in and the formatted route amount out |
| SwapRouter.KyberAllowance | src/services/polymarket.ts:627-697 | without a route found and built no allowance changes; otherwise at most the built router's, to the unlimited amount |
| SwapRouter.KyberAllowanceFollowsLog | src/services/polymarket.ts:627-697 | every allowance Kyberswap changes is a confirmed approval in its log, and that approval holds afterwards |
| SwapRouter.KyberTraceFacts | src/services/polymarket.ts:602-730 | no route request after the first event; every swap authorised; the build request second when there is a route; only API requests unless the route was built; success ends with the confirmed Kyberswap transaction |
| SwapRouter.KyberBuiltShape | src/services/polymarket.ts:649-709 | a built Kyberswap log has the build request second, no later route request, and ends where its leg ends |
| SwapRouter.KyberBuiltSwap | src/services/polymarket.ts:674-722 | after the build: logs the fee read and the leg through the built router, makes no API request; the result is the swap's hash with the formatted route amount, or the failing step's message; success ends with the confirmed Kyberswap transaction; the allowances become `LegAllowance` of the built router |
| SwapRouter.KyberPrefixAuthorised | src/services/polymarket.ts:627-683 | the route, build and fee steps before the leg keep its swaps authorised |
| SwapRouter.PreCheck | src/services/polymarket.ts:493-502 | a zero balance, an amount with too many decimals, or more than the balance fails with its message; a parsed amount within a positive balance is returned as it parsed; success is the amount in smallest units, positive balance and within it |
| SwapRouter.OneInchSwap | src/services/polymarket.ts:548-598 | logs the fee read and the corrected 1inch leg (not the leg as written, see Findings); the swap is authorised; the result is `OneInchResult` for the allowance of the router the swap is sent to; the allowances become `LegAllowance` of the quote's router |
| SwapRouter.OneInchResult | src/services/polymarket.ts:569-587 | success iff the leg succeeds, with the requested amount and the quote's formatted destination amount |
| SwapRouter.QuoteResult | src/services/polymarket.ts:516-598 | a thrown 1inch request fails through the gas message; an answer that is not ok gives Kyberswap's result; success carries the requested amount |
| SwapRouter.QuoteTrace | src/services/polymarket.ts:516-525 | the log after the local checks starts with the 1inch quote request |
| SwapRouter.QuoteAllowance | src/services/polymarket.ts:516-598 | a thrown 1inch request changes no allowance; an answer that is not ok changes them as Kyberswap does; an ok answer changes at most the quote router's, to the unlimited amount |
| SwapRouter.QuoteAllowanceFollowsLog | src/services/polymarket.ts:516-598 | every allowance changed after the local checks is a confirmed approval in the log, and that approval holds afterwards |
| SwapRouter.QuoteTraceFacts | src/services/polymarket.ts:516-598 | Kyberswap asked exactly at the second event iff 1inch answered not ok; every swap authorised; success ends with a confirmed swap carrying the reported hash |
| SwapRouter.QuoteRequests | src/services/polymarket.ts:516-598 | logs exactly `QuoteTrace` and returns `QuoteResult`; the allowances become `QuoteAllowance` |
| SwapRouter.QuoteAndSwap | src/services/polymarket.ts:516-598 | with the corrected 1inch leg: logs `QuoteTrace` and returns `QuoteResult`, which is `OneInchResult` on an ok answer and `KyberResult` on one that is not ok; one 1inch request; Kyberswap asked exactly once iff 1inch answered not ok; swaps authorised; a thrown request maps through the gas message; the allowances become `QuoteAllowance`, and every change is a confirmed approval in the new log entries |
| SwapRouter.SwapUsdcToUsdce | src/services/polymarket.ts:472-599 | with the corrected 1inch leg: a wallet error fails with no log; the balance is the only logged read before the local checks, whose failure is reported with their message; once they pass, the log is the balance read then `QuoteTrace` and the result `QuoteResult`; Kyberswap iff 1inch not ok; every swap authorised; success ends with the confirmed swap's hash; the allowances become `UsdcSwapAllowance`, unchanged unless the local checks pass, and every change is a confirmed approval in the new log entries |
| SwapRouter.UsdcSwapResult | src/services/polymarket.ts:472-599 | a wallet error and a failed local check are reported with their messages |
| SwapRouter.UsdcSwapAllowance | src/services/polymarket.ts:472-599 | a wallet error or a failed local check changes no allowance; otherwise the allowances are those after the quote |
| SwapRouter.UsdcSwapAllowanceFollowsLog | src/services/polymarket.ts:472-599 | every allowance the whole swap changes is a confirmed approval in its log, and that approval holds afterwards |
| SwapRouter.UsdcSwapFacts | src/services/polymarket.ts:472-599 | the whole flow's log extends the old one: nothing for a wallet error, the balance read alone when a local check fails, else the balance read, the 1inch request and the quote path, with swaps authorised; Kyberswap asked only at the third event after 1inch answers not ok; success ends with a confirmed swap |
| SwapRouter.UsdcSwapSteps | src/services/polymarket.ts:472-599 | logs exactly `UsdcSwapTrace` and returns `UsdcSwapResult` for the starting balance and allowances; the allowances become `UsdcSwapAllowance` |

## Left out

- Cryptographic internals: AES-256-GCM, scrypt, `randomBytes`, `generatePrivateKey` and address derivation are abstract, with only the facts in `KeyVault.Sound` assumed. `generateWallet` (src/services/wallet.ts:10-17) is only a call into them.
- Node's UTF-8 conversion is an abstract codec. Only its round trip is assumed.
- Floating point: prices, sizes and amounts are exact rationals. Not modelled are the IEEE rounding of `midPrice * 1.01`, `Math.pow`, `toFixed` (its binary-to-decimal rounding), `parseFloat`, and `amount.toString()` in exponent form.
- Units.GasLimit: computed exactly as ⌈13·gas/10⌉. The source computes `Math.ceil(gas * 1.3)` in doubles, which can differ by one for some estimates.
- SwapRouter.Kyberswap: gas estimates are given as parsed numbers. An empty or non-numeric estimate string is modelled like a missing one, so the send fails. The source would fall back to the route's estimate for an empty build estimate, and would send a zero gas limit for an empty route estimate.
- SwapRouter.SwapUsdcToUsdce: the `usdcNative.decimals()` read (src/services/polymarket.ts:490) is not logged; the token's decimals are the parameter `env.decimals`.
- SwapRouter.KyberOutcome: the failure message for a gas estimate that is missing or not a number is an assumption. The gas limit is then `NaN` (src/services/polymarket.ts:707), and the library may send a zero gas limit instead of refusing it; that path is not modelled.
- SwapRouter.SwapUsdcToUsdce: `amountIn` is the requested amount as a number, not `amount.toString()`. Failures of the `decimals()`, `balanceOf` and `getFeeData` RPC reads are not modelled. Swaps do not change the modelled balances.
- SwapRouter.SwapUsdcToUsdce: `Ledger.Apply` leaves the allowances unchanged by a swap. On chain, the router's `transferFrom` of native USDC lowers its allowance by the amount swapped (unless it is unlimited); `SwapRouter.LegAllowance` and the allowances built on it do not model that decrease.
- SwapRouter.SwapUsdcToUsdce: its 1inch path is the corrected leg (`SwapRouter.OneInchLeg`). The leg as written approves the fixed v5 router and sends to `quote.tx.to` (src/services/polymarket.ts:552-570); only the leg itself is modelled that way (`SwapRouter.OneInchLegAsWritten`), not the whole flow.
- SwapRouter.QuoteAndSwap: its 1inch branch runs the corrected leg, as in `SwapRouter.SwapUsdcToUsdce`; its contract does not describe the code as written.
- SwapRouter.OneInchSwap: it runs the corrected leg. The fixed-router approval of the code as written is captured only by `SwapRouter.OneInchLegAsWritten`.
- SwapRouter.ApproveAndSwap: the allowance read (src/services/polymarket.ts:552, 683) never fails in the model. An RPC failure there would throw into the catch blocks (src/services/polymarket.ts:589-597 and 723-729), which is not modelled.
- PolymarketOrders.EnsurePolymarketApprovals: the allowance read (src/services/polymarket.ts:308) and `getFeeData` (src/services/polymarket.ts:320) never fail in the model. Their failure would be reported by the catch block (src/services/polymarket.ts:337-343) as its message or the gas-fee message; that path is not modelled.
- Ledger.Chain.ReadAllowance, Ledger.Chain.ReadFeeData, Ledger.Chain.ReadBalance: RPC reads always answer. The chain's state is their only input.
- Units.ParseUnits: the error is ethers' reason "fractional component exceeds decimals". The thrown message also carries the logger's details (fault, operation `parseFixed`, code `NUMERIC_FAULT`, library version), which are not modelled. An amount that `toString` prints in exponent form (such as 1e-7) makes ethers throw "invalid decimal value" instead; that case is not modelled.
- Units.FormatUnits: only its zero-decimals case and non-emptiness are stated. The digit layout with a point is in its definition, not in a proved property.
- Markets.TrendingMarkets: `JSON.parse` of `outcomes`, `outcomePrices` and `clobTokenIds` is taken as already done; a JSON parse failure and the console output are not modelled. The `statusText` of a page that is not ok is modelled: it is the error of `fetch`, and the call fails with "Failed to fetch markets: " followed by it.
- Markets.TrendingMarkets: a `fetch` or `response.json()` that throws (src/services/polymarket.ts:129-131, 138) is not modelled. There is no try/catch there, so the raw exception would escape the call; the model's `fetch` only answers with a page or a status text.
- Markets.GetMarket: a `fetch` or `response.json()` that throws (src/services/polymarket.ts:180, 187) is not modelled. There is no try/catch there, so the raw exception would escape the call; the model only knows an ok listing or a response that is not ok.
- Concurrency: interleaved `getClobClient` calls that both miss the cache are not modelled.
- Progress callbacks (`onProgress`) and console logging are left out; they do not affect control flow.
- Pass-through functions with no logic of their own are not modelled: `getPositions`' info request, `getPolygonBalances`, `getPolymarketBalance`, `getPolymarketPositions`, `cancelPolymarketOrder`, `searchMarkets`, `getBalance`, `getAvailableCoins`, `getExchangeClient`.
- Negative amounts and sizes are accepted by the model, as by the code. The callers' own checks are not part of this model.

## Findings

| source | as written | input that shows it | evidently intended | confidence | as-written member | corrected member |
|---|---|---|---|---|---|---|
| src/services/polymarket.ts:552-570 | the 1inch path checks and grants the allowance of the fixed v5 router `0x1111111254EEB25477B68fb85Ed929f73A960582`, but sends the swap to the quote's `tx.to` | a v6.0 swap quote whose `tx.to` is the v6 router `0x111111125421cA6dc452d289314280a0f8842A65`, with the v5 router already approved without limit: no approval is sent, and the swap goes to a router with no allowance | check and approve the router the swap is sent to (`quote.tx.to`) | not executed | SwapRouter.OneInchLegAsWritten, SwapRouter.OneInchLegAsWrittenUnauthorised | SwapRouter.OneInchLeg |
