# Telegram token listener — a Dafny model of its decision core

The listener watches announcement messages from Telegram channels. It pulls a
candidate token contract address out of each message. It then polls the
PancakeSwap factory until the token has a liquidity pool against BNB or
BUSD. As soon as one exists, it sends one swap that spends `BUY_AMOUNT` BUSD
on the token, routed through BNB when the BNB pool is worth more.

This project models the two pure decisions inside that I/O code, and the
glue that joins them:

- `Extractor` (`Extractor.dfy`): the extraction in `on_new_message`. An
  `AMA ANNOUNCEMENT` veto comes first. Then the first `outputCurrency=` link
  wins. Then the leftmost bare `0x` address. Otherwise there is no candidate.
  `re.findall` over the three fixed-width patterns is modelled by
  `Text.FindAll`. `str.replace('outputCurrency=', '')` is modelled by
  `Text.RemoveAll`.
- `Pancake` (`Pancake.dfy`): `check_liquidity` with its helpers `get_balance`
  and `bnb_to_usd`, and the transaction that `buy_tokens` builds. Reserves and
  prices are exact rationals (see `Pancake.BnbToUsd` under Left out for the
  rounding this leaves aside). Python's `int()` is `Units.Trunc`, which rounds toward
  zero. Wei, gwei and ether scaling in `Units` is exact: integer for `toWei`, rational for `fromWei`.
- `Listener` (`Listener.dfy`): polling until liquidity shows, then one
  purchase with the pair flag of that poll.

Every external query is an input to the model:
- `Web3.toChecksumAddress` is a function that returns `None` where it raises.
- The factory's `getPair`, the token `balanceOf` and the Binance BNB price
  make up one `Pancake.Chain` snapshot per poll.
- `time.time()`, the account nonce and the node's gas estimate make up a
  `Pancake.TradeContext`.
- `BUY_AMOUNT`, `GAS_PRICE` and `GAS_MULTIPLIER` make up a
  `Pancake.TradeConfig`.
- `Tokens.bnb` and `Tokens.busd` are a `Pancake.QuoteTokens` value, because
  `tokens.py` is not part of this model.

Three consequences of the code that are easy to miss:
- A link whose address has only 39 characters after `0x` matches neither
  pattern, so the message yields no candidate
  (`ExtractorScenarios.ShortLinkIgnored`).
- `int()` truncates the scaled gas limit; it never rounds it up
  (`Pancake.BuyTokens`).
- The price is truncated to an integer before it multiplies the BNB reserve.
  So with a BNB price below 1 USD, a token whose only pool is a BNB pool
  counts as having no liquidity at all: `(false, false)`
  (`PancakeProperties.OnlyBnbPool`).

## Model

| member | source | states |
|---|---|---|
| `Extractor.Extract` | main.py:58-73 | a candidate, when there is one, matches `0[xX][a-zA-Z0-9]{40}` (42 characters, not necessarily hex) and occurs contiguously in the message |
| `Text.FindAll` | main.py:65-72 | `re.findall` for a fixed-width pattern: each reported position is a match, and positions run left to right without overlapping |
| `Text.FindAllFirst` | main.py:65-72 | what `re.findall` reports is non-empty iff the pattern matches at some position, and its first entry is the leftmost match |
| `Extractor.MatchesFirst` | main.py:60-72 | the same two facts for the AMA, link and bare-address patterns over a message |
| `Text.RemoveAll` | main.py:67 | `str.replace(pat, '')` never lengthens a string and leaves a string without occurrences of `pat` unchanged |
| `Text.RemoveAllLeading` | main.py:67 | replacing in `pat + t` drops the leading `pat` and continues in `t` |
| `Extractor.LinkAddressAt` | main.py:65-67 | removing `outputCurrency=` from a link match leaves exactly its 42-character address, because an address holds no `=` |
| `ExtractorProperties.AmaVeto` | main.py:60-63 | a message containing `AMA ANNOUNCEMENT` case-insensitively, with `AMA` not preceded by a word character, yields no candidate whatever addresses it holds |
| `ExtractorProperties.LinkWins` | main.py:65-67 | without the veto, the candidate is exactly the address of the first link, even when a bare address appears earlier |
| `ExtractorProperties.LeftmostBareAddress` | main.py:69-72 | without the veto and without any link, the candidate is the leftmost bare address |
| `ExtractorProperties.NoCandidateIff` | main.py:58-75 | there is no candidate iff the message is an AMA announcement or holds no bare address; every link contains one |
| `ExtractorScenarios.AmaAnnouncementIgnored` | main.py:60-63 | the AMA example message with a valid address yields no candidate |
| `ExtractorScenarios.ShortLinkIgnored` | main.py:65-72 | a link with 39 characters after `0x` matches neither pattern, so there is no candidate |
| `Units.Trunc` | pancake.py:128 | `int(x)` drops the fraction toward zero: for `x >= 0` the result `r` satisfies `r <= x < r + 1`, and symmetrically below zero |
| `Units.EtherRoundTrip` | pancake.py:69 | `toWei(amount, 'ether')` followed by `fromWei(_, 'ether')` gives back the amount |
| `Units.WeiToEtherMonotone` | pancake.py:121-123 | `fromWei` keeps the order of wei amounts and is zero only for zero wei |
| `Units.ScaleEther` | pancake.py:131 | the integer price times an ether value is the ether value of the price times the wei amount |
| `Pancake.AddressToInt` | pancake.py:97-98 | `Web3.toInt(hexstr=pair)` succeeds on a `0x` address with 40 hex digits and is zero iff every digit is `0` |
| `Pancake.HexValueZeroIff` | pancake.py:97-98 | a hex numeral denotes zero iff all its digits are `0` |
| `Pancake.Checksum` | pancake.py:88 | the checksum call fails with the rejected text, or yields the checksummed address |
| `Pancake.GetBalance` | pancake.py:112-123 | the balance times 10^18 is the wei amount `balanceOf` returned |
| `Pancake.BnbToUsd` | pancake.py:125-131 | a missing price is an error and never zero; a price strictly between −1 and 1 makes any reserve worth 0; a price of at least 1 never lowers a positive amount |
| `Pancake.CheckLiquidity` | pancake.py:86-110 | an address the checksum rejects is an error; a BNB pair always has liquidity |
| `PancakeProperties.CheckLiquidityInWei` | pancake.py:97-110 | with `usd = int(price) * bnbWei` (0 when there is no BNB reserve), liquidity iff `usd > 0` or `busdWei > 0`, and BNB pair iff `usd > busdWei`; a missing price is an error only when the BNB reserve is positive |
| `PancakeProperties.DecideMeaning` | pancake.py:106-110 | with a non-negative BUSD value, liquidity iff some value is positive, and BNB pair iff the BNB value is strictly greater (ties go to BUSD) |
| `PancakeProperties.ZeroPairNotQueried` | pancake.py:97-98 | only pools with a nonzero pair address have their balance read: any balance oracle that agrees on those gives the same answer |
| `PancakeProperties.PriceReadOnlyForBnbReserve` | pancake.py:100-101 | with no BNB reserve the price feed is not consulted: any price, even a failed fetch, gives the same answer |
| `PancakeProperties.NoPoolsNoLiquidity` | pancake.py:97-110 | no pair for either quote asset gives `(False, False)` |
| `PancakeProperties.OnlyBnbPool` | pancake.py:97-108 | only a BNB pool with a positive reserve gives `(True, True)` at a price of at least 1, and `(False, False)` at any price below 1 |
| `PancakeProperties.OnlyBusdPool` | pancake.py:97-108 | only a BUSD pool with a positive reserve gives `(True, False)` |
| `Pancake.SwapPath` | pancake.py:62-66 | the path starts with BUSD and ends with the token; it has length 3 with BNB second for a BNB pair, and length 2 otherwise |
| `PancakeProperties.NegativeConfigFails` | pancake.py:68-76 | a negative `BUY_AMOUNT` or `GAS_PRICE` makes `buy_tokens` raise before building a transaction, with the out-of-range error once the token is accepted |
| `PancakeProperties.SwapPathBnbIff` | pancake.py:62-66 | when BNB is neither BUSD nor the token, BNB is on the path iff the token is a BNB pair |
| `Pancake.BuyTokens` | pancake.py:58-80 | fails iff the checksum rejects the token, or `BUY_AMOUNT` in wei or `GAS_PRICE` in wei falls outside `0 .. 2^256 - 1` (`Web3.toWei` raises, checked in that order); otherwise the swap uses the checksummed path, `amountIn` worth `BUY_AMOUNT` ether, `amountOutMin` 0, the deadline `int(now) + 14400` (strictly more than `now + 14399`, at most `now + 14400`), `GAS_PRICE * 10^9` wei, the looked-up nonce, and a gas limit that is the scaled estimate truncated, never rounded up |
| `Listener.PollThenBuy` | main.py:78-82 | polls read successive snapshots and stop at the first positive one; there is at most one purchase, and only as the last action, right after a positive poll and with that poll's `is_bnb_pair`; a failure is either a raising poll after only negative polls or a raising `buy_tokens` right after a positive poll; when some snapshot is the first positive one, `buy_tokens` is called right after it and its transaction or its error ends the run |
| `Listener.OnNewMessage` | main.py:55-82 | no candidate means no poll and no purchase; otherwise the poll-then-buy guarantees hold for the extracted candidate, and a failure comes from its poll or its purchase |

## Left out

- The Telegram client: session start, channel checks, handler registration and the asyncio loop (main.py:20-53, 85-93). This is network and event-loop plumbing.
- Configuration loading: `.env`, environment variables and `exit`. `BUY_AMOUNT`, `GAS_PRICE` and `GAS_MULTIPLIER` are the fields of `TradeConfig`.
- Web3 client construction and the loading of ABI and bytecode files (pancake.py:22-55). This is I/O.
- `Web3.toChecksumAddress` (EIP-55 needs Keccak-256). It is an opaque input that may reject a candidate, and candidates need not be hex.
- Signing and `send_raw_transaction` (pancake.py:82-84), and the HTTP fetch and JSON parse of the price (pancake.py:127-128). The gas estimate, the nonce, `time.time()` and the price are inputs. Failures of these calls are not modelled, except a price fetch that fails. The `BUY_AMOUNT`, `GAS_PRICE` and `GAS_MULTIPLIER` strings are already integers and a rational, so a failing `int()` or `float()` parse is not modelled.
- Logging and `print`.
- Listener.OnNewMessage: the source polls without bound. Here poll `k` reads snapshot `k` of a finite sequence, and running out of snapshots ends the run as `StillPolling`. Termination of the real loop is not claimed.
- Listener.OnNewMessage: concurrent dispatch of several messages by the event loop is not modelled. The handler runs one message at a time.
- Text.IsWordChar: `\b` is modelled with ASCII word characters. Python's `\w` also counts non-ASCII letters and digits, so a message where `AMA` directly follows such a letter is vetoed here but not by the source. Folding case only on ASCII is exact for the letters of the phrase.
- Pancake.BnbToUsd: `float(price)` is an exact rational here. IEEE rounding of the price string is not modelled.
- Pancake.BnbToUsd: `fromWei` returns a `decimal.Decimal`, so `price * bnb_amount` is rounded to 28 significant digits by Python's default decimal context; here the product is exact. The two differ only when the truncated price times the reserve in wei exceeds 10^28, a BNB reserve worth more than about 10^10 USD, where a BNB value rounded onto or across the BUSD value can flip `is_bnb_pair`.
- Pancake.CheckLiquidity: `getPair(...).call()` and `balanceOf(...).call()` are total functions of a `Chain` snapshot, so an RPC failure of either call, which would raise out of `check_liquidity` and end the handler without a purchase, is not represented.
- Pancake.BuyTokens: `gas * float(GAS_MULTIPLIER)` is an exact rational product. The deadline and gas bounds are stated for a non-negative clock and a non-negative scaled estimate.
- Pancake.AddressToInt: only the `0x` plus 40 hex digits shape that `getPair` returns is accepted. Any other string is `MalformedPair`, though Python's `int(s, 16)` also takes other spellings.
- Pancake.GetBalance: the checksum calls `get_balance` makes on the quote token and the pair address are left out. Both values are already checksummed addresses. The `balanceOf` oracle returns an unbounded `nat`, so `fromWei`'s `ValueError` above 2^256 - 1 is not modelled; a decoded `uint256` never exceeds that bound, so no reachable behaviour is lost.
