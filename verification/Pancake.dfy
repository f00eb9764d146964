/**
 * The PancakeSwap side of the listener: the liquidity decision of
 * `check_liquidity` with its `get_balance` and `bnb_to_usd` helpers, and the
 * swap transaction `buy_tokens` builds. Every query to the chain, the price
 * feed, the clock and the checksum routine is an input.
 */
module Pancake {
  import opened Wrappers
  import opened Text
  import opened Units

  /** An address as a `0x`-prefixed hex string. */
  type Address = string

  /** `Tokens.bnb` (wrapped BNB) and `Tokens.busd`, the two quote assets. */
  datatype QuoteTokens = QuoteTokens(bnb: Address, busd: Address)

  /** The errors the core raises and passes on to its caller. */
  datatype Failure =
    | InvalidAddress(text: string)  // `Web3.toChecksumAddress` rejected the text
    | MalformedPair(pair: Address)  // `Web3.toInt(hexstr=...)` rejected a pair address
    | PriceUnavailable              // the BNB price could not be fetched
    | WeiOutOfRange(wei: int)       // `Web3.toWei` produced a negative or above-`uint256` amount

  /**
   * Process-wide constants: the quote tokens and `Web3.toChecksumAddress`,
   * which yields `None` where it raises.
   */
  datatype Env = Env(tokens: QuoteTokens, toChecksum: string -> Option<Address>)

  /**
   * What one liquidity check reads: the factory's `getPair(token, quote)`,
   * the raw `balanceOf(wallet)` of a token contract in wei, and the BNB/USDT
   * price feed (`None` when the request or its parse fails).
   */
  datatype Chain = Chain(
    getPair: (Address, Address) -> Address,
    balanceOf: (Address, Address) -> nat,
    bnbPrice: Option<real>)

  /** The `(has_liquidity, is_bnb_pair)` pair `check_liquidity` returns. */
  datatype Liquidity = Liquidity(hasLiquidity: bool, isBnbPair: bool)

  // ---------------------------------------------------------------------------
  // Pair addresses as integers
  // ---------------------------------------------------------------------------

  predicate AllHex(d: string) {
    forall k :: 0 <= k < |d| ==> IsHexDigit(d[k])
  }

  /** The shape `getPair` returns: `0x` and 40 hex digits. */
  predicate IsHexAddress(a: string) {
    |a| == 42 && a[0] == '0' && (a[1] == 'x' || a[1] == 'X') && AllHex(a[2..])
  }

  function HexDigitValue(c: char): (v: nat)
    requires IsHexDigit(c)
    ensures v < 16
    ensures v == 0 <==> c == '0'
  {
    if '0' <= c <= '9' then c as int - '0' as int
    else if 'a' <= c <= 'f' then c as int - 'a' as int + 10
    else c as int - 'A' as int + 10
  }

  /** The number a string of hex digits denotes, most significant first. */
  function HexValue(d: string): nat
    requires AllHex(d)
  {
    if |d| == 0 then 0 else HexValue(d[..|d| - 1]) * 16 + HexDigitValue(d[|d| - 1])
  }

  /** A hex numeral denotes zero exactly when all its digits are `0`. */
  lemma {:induction false} HexValueZeroIff(d: string)
    requires AllHex(d)
    ensures HexValue(d) == 0 <==> forall k :: 0 <= k < |d| ==> d[k] == '0'
  {
    if |d| > 0 {
      var init := d[..|d| - 1];
      assert AllHex(init) by {
        forall k | 0 <= k < |init| ensures IsHexDigit(init[k]) {
          assert init[k] == d[k];
        }
      }
      HexValueZeroIff(init);
      if forall k :: 0 <= k < |d| ==> d[k] == '0' {
        forall k | 0 <= k < |init| ensures init[k] == '0' {
          assert init[k] == d[k];
        }
      }
      if HexValue(d) == 0 {
        forall k | 0 <= k < |d| ensures d[k] == '0' {
          if k < |d| - 1 {
            assert init[k] == d[k];
          }
        }
      }
    }
  }

  /** `Web3.toInt(hexstr=a)` on the pair addresses the factory returns. */
  function AddressToInt(a: Address): (r: Option<nat>)
    ensures r.Some? <==> IsHexAddress(a)
    ensures r.Some? ==> (r.value == 0 <==> forall k :: 2 <= k < |a| ==> a[k] == '0')
  {
    if IsHexAddress(a) then
      var digits := a[2..];
      HexValueZeroIff(digits);
      assert forall k :: 2 <= k < |a| ==> a[k] == digits[k - 2];
      Some(HexValue(digits))
    else None
  }

  // ---------------------------------------------------------------------------
  // check_liquidity
  // ---------------------------------------------------------------------------

  function Checksum(env: Env, text: string): (r: Result<Address, Failure>)
    ensures r.Err? <==> env.toChecksum(text).None?
    ensures r.Err? ==> r.error == InvalidAddress(text)
    ensures r.Ok? ==> r.value == env.toChecksum(text).value
  {
    match env.toChecksum(text)
    case None => Err(InvalidAddress(text))
    case Some(a) => Ok(a)
  }

  /** `get_balance`: the token balance of `wallet`, scaled from wei to whole tokens. */
  function GetBalance(chain: Chain, token: Address, wallet: Address): (b: real)
    ensures b * WeiPerEther as real == chain.balanceOf(token, wallet) as real
  {
    WeiToEther(chain.balanceOf(token, wallet))
  }

  /**
   * The reserve `check_liquidity` reads for one quote asset: zero, with no
   * balance query, when the pair address is the zero address.
   */
  function Reserve(chain: Chain, quote: Address, pair: Address): Result<real, Failure> {
    match AddressToInt(pair)
    case None => Err(MalformedPair(pair))
    case Some(v) => Ok(if v > 0 then GetBalance(chain, quote, pair) else 0.0)
  }

  /** `bnb_to_usd`: the amount times the price truncated to an integer first. */
  function BnbToUsd(price: Option<real>, amount: real): (r: Result<real, Failure>)
    ensures r.Err? <==> price.None?
    ensures r.Err? ==> r.error == PriceUnavailable
    ensures r.Ok? && -1.0 < price.value < 1.0 ==> r.value == 0.0
    ensures r.Ok? && 1.0 <= price.value && amount > 0.0 ==> r.value >= amount
  {
    match price
    case None => Err(PriceUnavailable)
    case Some(p) =>
      var n := Trunc(p);
      assert -1.0 < p < 1.0 ==> n == 0;
      assert 1.0 <= p && amount > 0.0 ==> n >= 1;
      ScaledAtLeast(n, amount);
      Ok(n as real * amount)
  }

  lemma ScaledAtLeast(n: int, x: real)
    ensures n >= 1 && x > 0.0 ==> n as real * x >= x
  {
    if n >= 1 && x > 0.0 {
      assert n as real * x == (n as real - 1.0) * x + x;
    }
  }

  /** The BNB reserve in USD: converted only when it is positive. */
  function BnbValue(price: Option<real>, bnbReserve: real): (r: Result<real, Failure>)
    ensures bnbReserve <= 0.0 ==> r == Ok(bnbReserve)
  {
    if bnbReserve > 0.0 then BnbToUsd(price, bnbReserve) else Ok(bnbReserve)
  }

  /** The final decision of `check_liquidity` on the two reserve values. */
  function Decide(bnbValue: real, busdValue: real): Liquidity {
    if bnbValue > 0.0 || busdValue > 0.0 then Liquidity(true, bnbValue > busdValue)
    else Liquidity(false, false)
  }

  /**
   * `check_liquidity(token)`: look up the token's BNB and BUSD pairs, read
   * their reserves, convert the BNB reserve to USD when it is positive, and
   * decide.
   */
  function CheckLiquidity(env: Env, chain: Chain, token: string): (r: Result<Liquidity, Failure>)
    ensures env.toChecksum(token).None? ==> r == Err(InvalidAddress(token))
    ensures r.Ok? ==> (r.value.isBnbPair ==> r.value.hasLiquidity)
  {
    var t :- Checksum(env, token);
    var bnbLp := chain.getPair(t, env.tokens.bnb);
    var busdLp := chain.getPair(t, env.tokens.busd);
    var bnbReserve :- Reserve(chain, env.tokens.bnb, bnbLp);
    var busdReserve :- Reserve(chain, env.tokens.busd, busdLp);
    var bnbValue :- BnbValue(chain.bnbPrice, bnbReserve);
    Ok(Decide(bnbValue, busdReserve))
  }

  // ---------------------------------------------------------------------------
  // buy_tokens
  // ---------------------------------------------------------------------------

  /** `BUY_AMOUNT`, `GAS_PRICE` and `GAS_MULTIPLIER` from the environment. */
  datatype TradeConfig = TradeConfig(buyAmount: int, gasPrice: int, gasMultiplier: real)

  /** The arguments of `swapExactTokensForTokensSupportingFeeOnTransferTokens`. */
  datatype SwapCall = SwapCall(amountIn: int, amountOutMin: int, path: seq<Address>, to: Address, deadline: int)

  /** The transaction dictionary that gets signed and sent. */
  datatype Transaction = Transaction(call: SwapCall, gasPrice: int, from: Address, nonce: nat, gas: int)

  /**
   * What `buy_tokens` reads besides its configuration: the signing account,
   * `time.time()`, the account's transaction count and the node's gas estimate.
   */
  datatype TradeContext = TradeContext(account: Address, now: real, nonce: nat, estimateGas: SwapCall -> nat)

  /** Four hours, in seconds. */
  const DeadlineWindow: int := 4 * 60 * 60

  /** `Web3.toWei`'s range check on the wei amount it has computed. */
  function CheckedWei(wei: int): (r: Result<nat, Failure>)
    ensures r.Ok? <==> 0 <= wei <= MaxWei
    ensures r.Ok? ==> r.value == wei
    ensures r.Err? ==> r.error == WeiOutOfRange(wei)
  {
    if InWeiRange(wei) then Ok(wei) else Err(WeiOutOfRange(wei))
  }

  /** The router path: BUSD, then BNB for a BNB pair, then the token. */
  function SwapPath(tokens: QuoteTokens, token: Address, bnbPair: bool): (path: seq<Address>)
    ensures |path| == (if bnbPair then 3 else 2)
    ensures path[0] == tokens.busd && path[|path| - 1] == token
    ensures bnbPair ==> path[1] == tokens.bnb
  {
    [tokens.busd] + (if bnbPair then [tokens.bnb] else []) + [token]
  }

  /**
   * `buy_tokens(token, bnb_pair)`: checksum the token, then build the swap
   * of `BUY_AMOUNT` BUSD with no minimum output, a four-hour deadline, the
   * configured gas price and the gas estimate scaled by the multiplier.
   * `Web3.toWei` raises, in this order, for an amount in wei and then a gas
   * price in wei outside `0 .. 2^256 - 1`.
   */
  function BuyTokens(env: Env, cfg: TradeConfig, ctx: TradeContext, token: string, bnbPair: bool): (r: Result<Transaction, Failure>)
    ensures r.Err? <==>
      || env.toChecksum(token).None?
      || !(0 <= cfg.buyAmount * WeiPerEther <= MaxWei)
      || !(0 <= cfg.gasPrice * WeiPerGwei <= MaxWei)
    ensures env.toChecksum(token).None? ==> r == Err(InvalidAddress(token))
    ensures env.toChecksum(token).Some? && !(0 <= cfg.buyAmount * WeiPerEther <= MaxWei) ==>
      r == Err(WeiOutOfRange(cfg.buyAmount * WeiPerEther))
    ensures
      && env.toChecksum(token).Some?
      && 0 <= cfg.buyAmount * WeiPerEther <= MaxWei
      && !(0 <= cfg.gasPrice * WeiPerGwei <= MaxWei)
      ==> r == Err(WeiOutOfRange(cfg.gasPrice * WeiPerGwei))
    ensures r.Ok? ==> r.value.call.path == SwapPath(env.tokens, env.toChecksum(token).value, bnbPair)
    ensures r.Ok? ==> WeiToEther(r.value.call.amountIn) == cfg.buyAmount as real
    ensures r.Ok? ==> r.value.call.amountOutMin == 0
    ensures r.Ok? ==> r.value.call.to == ctx.account && r.value.from == ctx.account
    ensures r.Ok? && 0.0 <= ctx.now ==>
      ctx.now + DeadlineWindow as real - 1.0 < r.value.call.deadline as real <= ctx.now + DeadlineWindow as real
    ensures r.Ok? ==> r.value.gasPrice == cfg.gasPrice * 1_000_000_000
    ensures r.Ok? ==> r.value.nonce == ctx.nonce
    ensures r.Ok? ==>
      var scaled := ctx.estimateGas(r.value.call) as real * cfg.gasMultiplier;
      0.0 <= scaled ==> r.value.gas as real <= scaled < r.value.gas as real + 1.0
  {
    var t :- Checksum(env, token);
    var amountIn :- CheckedWei(EtherToWei(cfg.buyAmount));
    var gasPrice :- CheckedWei(GweiToWei(cfg.gasPrice));
    var call := SwapCall(
      amountIn := amountIn,
      amountOutMin := 0,
      path := SwapPath(env.tokens, t, bnbPair),
      to := ctx.account,
      deadline := Trunc(ctx.now) + DeadlineWindow);
    EtherRoundTrip(cfg.buyAmount);
    var estimate := ctx.estimateGas(call);
    Ok(Transaction(
      call := call,
      gasPrice := gasPrice,
      from := ctx.account,
      nonce := ctx.nonce,
      gas := Trunc(estimate as real * cfg.gasMultiplier)))
  }
}

module PancakeProperties {
  import opened Wrappers
  import opened Units
  import opened Pancake

  /**
   * The final comparison of `check_liquidity` read directly: with a
   * non-negative BUSD value, liquidity means some positive value and a BNB
   * pair means a BNB value strictly above the BUSD value, so ties go to BUSD.
   */
  lemma DecideMeaning(bnbValue: real, busdValue: real)
    requires busdValue >= 0.0
    ensures Decide(bnbValue, busdValue).hasLiquidity <==> bnbValue > 0.0 || busdValue > 0.0
    ensures Decide(bnbValue, busdValue).isBnbPair <==> bnbValue > busdValue
  {
  }

  /** The wei reserve of one pool as `check_liquidity` sees it: none without a pair. */
  function PoolWei(chain: Chain, quote: Address, pair: Address): nat
    requires IsHexAddress(pair)
  {
    if AddressToInt(pair).value > 0 then chain.balanceOf(quote, pair) else 0
  }

  /** The checksummed token resolves and the factory answers with well-formed addresses. */
  predicate PairsReadable(env: Env, chain: Chain, token: string) {
    && env.toChecksum(token).Some?
    && IsHexAddress(chain.getPair(env.toChecksum(token).value, env.tokens.bnb))
    && IsHexAddress(chain.getPair(env.toChecksum(token).value, env.tokens.busd))
  }

  function BnbPair(env: Env, chain: Chain, token: string): Address
    requires PairsReadable(env, chain, token)
  {
    chain.getPair(env.toChecksum(token).value, env.tokens.bnb)
  }

  function BusdPair(env: Env, chain: Chain, token: string): Address
    requires PairsReadable(env, chain, token)
  {
    chain.getPair(env.toChecksum(token).value, env.tokens.busd)
  }

  function BnbWei(env: Env, chain: Chain, token: string): nat
    requires PairsReadable(env, chain, token)
  {
    PoolWei(chain, env.tokens.bnb, BnbPair(env, chain, token))
  }

  function BusdWei(env: Env, chain: Chain, token: string): nat
    requires PairsReadable(env, chain, token)
  {
    PoolWei(chain, env.tokens.busd, BusdPair(env, chain, token))
  }

  /**
   * `check_liquidity` stated on integer wei amounts: with `usd` the truncated
   * price times the BNB reserve in wei, there is liquidity iff `usd` or the
   * BUSD reserve is positive, and the token is a BNB pair iff `usd` is
   * strictly above the BUSD reserve. A missing price fails the check only
   * when the BNB reserve is positive.
   */
  lemma CheckLiquidityInWei(env: Env, chain: Chain, token: string)
    requires PairsReadable(env, chain, token)
    ensures BnbWei(env, chain, token) > 0 && chain.bnbPrice.None? ==>
      CheckLiquidity(env, chain, token) == Err(PriceUnavailable)
    ensures BnbWei(env, chain, token) == 0 || chain.bnbPrice.Some? ==>
      var bnbWei := BnbWei(env, chain, token);
      var busdWei := BusdWei(env, chain, token);
      var usd := if bnbWei > 0 then Trunc(chain.bnbPrice.value) * bnbWei else 0;
      CheckLiquidity(env, chain, token) == Ok(Liquidity(usd > 0 || busdWei > 0, usd > busdWei))
  {
    var bnbWei := BnbWei(env, chain, token);
    var busdWei := BusdWei(env, chain, token);
    CheckLiquidityFromReserves(env, chain, token);
    BnbValueInWei(chain.bnbPrice, bnbWei);
    if bnbWei == 0 || chain.bnbPrice.Some? {
      var usd := if bnbWei > 0 then Trunc(chain.bnbPrice.value) * bnbWei else 0;
      DecideInWei(usd, busdWei);
    }
  }

  /** `check_liquidity` once the reserves are read: convert the BNB reserve, then decide. */
  lemma CheckLiquidityFromReserves(env: Env, chain: Chain, token: string)
    requires PairsReadable(env, chain, token)
    ensures
      var bnbValue := BnbValue(chain.bnbPrice, WeiToEther(BnbWei(env, chain, token)));
      var busdReserve := WeiToEther(BusdWei(env, chain, token));
      CheckLiquidity(env, chain, token) ==
        if bnbValue.Err? then Err(bnbValue.error) else Ok(Decide(bnbValue.value, busdReserve))
  {
    assert Reserve(chain, env.tokens.bnb, BnbPair(env, chain, token)) == Ok(WeiToEther(BnbWei(env, chain, token)));
    assert Reserve(chain, env.tokens.busd, BusdPair(env, chain, token)) == Ok(WeiToEther(BusdWei(env, chain, token)));
  }

  /** The converted BNB reserve is the ether value of the truncated price times the wei reserve. */
  lemma BnbValueInWei(price: Option<real>, bnbWei: nat)
    ensures bnbWei > 0 && price.None? ==> BnbValue(price, WeiToEther(bnbWei)) == Err(PriceUnavailable)
    ensures bnbWei == 0 ==> BnbValue(price, WeiToEther(bnbWei)) == Ok(WeiToEther(0))
    ensures bnbWei > 0 && price.Some? ==>
      BnbValue(price, WeiToEther(bnbWei)) == Ok(WeiToEther(Trunc(price.value) * bnbWei))
  {
    WeiToEtherMonotone(0, bnbWei);
    if bnbWei > 0 && price.Some? {
      var reserve := WeiToEther(bnbWei);
      var p := price.value;
      assert price == Some(p);
      assert reserve > 0.0;
      assert BnbValue(price, reserve) == BnbToUsd(Some(p), reserve);
      ScaleEther(Trunc(price.value), bnbWei);
    }
  }

  /** The decision on ether values is the decision on the wei amounts. */
  lemma DecideInWei(usd: int, busdWei: nat)
    ensures Decide(WeiToEther(usd), WeiToEther(busdWei)) == Liquidity(usd > 0 || busdWei > 0, usd > busdWei)
  {
    WeiToEtherMonotone(0, usd);
    WeiToEtherMonotone(0, busdWei);
    WeiToEtherMonotone(busdWei, usd);
    DecideMeaning(WeiToEther(usd), WeiToEther(busdWei));
  }

  /**
   * The only balances `check_liquidity` reads are those of pools whose pair
   * address is not zero: any other balance oracle gives the same answer.
   */
  lemma ZeroPairNotQueried(env: Env, chain: Chain, token: string, other: (Address, Address) -> nat)
    requires PairsReadable(env, chain, token)
    requires AddressToInt(BnbPair(env, chain, token)).value > 0 ==>
      other(env.tokens.bnb, BnbPair(env, chain, token)) == chain.balanceOf(env.tokens.bnb, BnbPair(env, chain, token))
    requires AddressToInt(BusdPair(env, chain, token)).value > 0 ==>
      other(env.tokens.busd, BusdPair(env, chain, token)) == chain.balanceOf(env.tokens.busd, BusdPair(env, chain, token))
    ensures CheckLiquidity(env, chain.(balanceOf := other), token) == CheckLiquidity(env, chain, token)
  {
    var chain' := chain.(balanceOf := other);
    assert PairsReadable(env, chain', token);
    assert BnbWei(env, chain', token) == BnbWei(env, chain, token);
    assert BusdWei(env, chain', token) == BusdWei(env, chain, token);
    CheckLiquidityInWei(env, chain, token);
    CheckLiquidityInWei(env, chain', token);
  }

  /** The price feed is read only when the BNB reserve is positive. */
  lemma PriceReadOnlyForBnbReserve(env: Env, chain: Chain, token: string, price: Option<real>)
    requires PairsReadable(env, chain, token)
    requires BnbWei(env, chain, token) == 0
    ensures CheckLiquidity(env, chain.(bnbPrice := price), token) == CheckLiquidity(env, chain, token)
  {
    var chain' := chain.(bnbPrice := price);
    assert PairsReadable(env, chain', token);
    CheckLiquidityInWei(env, chain, token);
    CheckLiquidityInWei(env, chain', token);
  }

  /** No pair for either quote asset: no liquidity, whatever the balances and price. */
  lemma NoPoolsNoLiquidity(env: Env, chain: Chain, token: string)
    requires PairsReadable(env, chain, token)
    requires AddressToInt(BnbPair(env, chain, token)) == Some(0)
    requires AddressToInt(BusdPair(env, chain, token)) == Some(0)
    ensures CheckLiquidity(env, chain, token) == Ok(Liquidity(false, false))
  {
    CheckLiquidityInWei(env, chain, token);
  }

  /**
   * Only a BNB pool with a positive reserve: a BNB pair with liquidity when
   * the price is at least 1, but no liquidity at all for any price below 1,
   * which truncates to 0 or to a negative integer.
   */
  lemma OnlyBnbPool(env: Env, chain: Chain, token: string, price: real)
    requires PairsReadable(env, chain, token)
    requires BnbWei(env, chain, token) > 0
    requires AddressToInt(BusdPair(env, chain, token)) == Some(0)
    requires chain.bnbPrice == Some(price)
    ensures 1.0 <= price ==> CheckLiquidity(env, chain, token) == Ok(Liquidity(true, true))
    ensures price < 1.0 ==> CheckLiquidity(env, chain, token) == Ok(Liquidity(false, false))
  {
    CheckLiquidityInWei(env, chain, token);
    var n := Trunc(price);
    var w := BnbWei(env, chain, token);
    if 1.0 <= price {
      assert n >= 1;
      assert n * w >= w;
    } else {
      assert n <= 0;
      assert n * w <= 0;
    }
  }

  /** Only a BUSD pool with a positive reserve: liquidity, and not a BNB pair. */
  lemma OnlyBusdPool(env: Env, chain: Chain, token: string)
    requires PairsReadable(env, chain, token)
    requires AddressToInt(BnbPair(env, chain, token)) == Some(0)
    requires BusdWei(env, chain, token) > 0
    ensures CheckLiquidity(env, chain, token) == Ok(Liquidity(true, false))
  {
    CheckLiquidityInWei(env, chain, token);
  }

  /**
   * A negative `BUY_AMOUNT` or `GAS_PRICE` makes `buy_tokens` raise before
   * any transaction is built, even for a token the checksum accepts.
   */
  lemma NegativeConfigFails(env: Env, cfg: TradeConfig, ctx: TradeContext, token: string, bnbPair: bool)
    requires cfg.buyAmount < 0 || cfg.gasPrice < 0
    ensures BuyTokens(env, cfg, ctx, token, bnbPair).Err?
    ensures env.toChecksum(token).Some? ==> BuyTokens(env, cfg, ctx, token, bnbPair).error.WeiOutOfRange?
  {
  }

  /** BNB appears on the swap path exactly for a BNB pair. */
  lemma SwapPathBnbIff(tokens: QuoteTokens, token: Address, bnbPair: bool)
    requires tokens.bnb != tokens.busd && tokens.bnb != token
    ensures tokens.bnb in SwapPath(tokens, token, bnbPair) <==> bnbPair
  {
    var path := SwapPath(tokens, token, bnbPair);
    if !bnbPair {
      assert path == [tokens.busd, token];
    }
  }
}
