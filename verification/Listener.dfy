/**
 * The glue of `on_new_message`: extract a candidate, poll `check_liquidity`
 * until it reports liquidity, then buy once with the pair flag of that
 * last poll.
 */
module Listener {
  import opened Wrappers
  import opened Extractor
  import opened Pancake

  /** What the handler does, in order. */
  datatype Action =
    | Polled(result: Liquidity)  // a `check_liquidity` call that returned
    | Bought(tx: Transaction)    // the transaction `buy_tokens` signs and sends

  /** How the handler ends. */
  datatype Outcome =
    | Ignored           // no candidate in the message
    | Failed(error: Failure)
    | StillPolling      // every supplied chain snapshot showed no liquidity
    | Submitted(tx: Transaction)

  /**
   * The actions a run for `token` may take: polls that read the snapshots
   * in order, polling that stops at the first positive poll, and a purchase
   * only as the last action, right after a positive poll and with that
   * poll's pair flag.
   */
  ghost predicate PollThenBuyTrace(env: Env, cfg: TradeConfig, ctx: TradeContext, token: string,
                                   views: seq<Chain>, trace: seq<Action>)
  {
    && (forall i :: 0 <= i < |trace| && trace[i].Polled? ==>
          i < |views| && CheckLiquidity(env, views[i], token) == Ok(trace[i].result))
    && (forall i :: 0 <= i < |trace| && trace[i].Polled? && trace[i].result.hasLiquidity ==>
          i == |trace| - 1 || (i == |trace| - 2 && trace[i + 1].Bought?))
    && (forall i :: 0 <= i < |trace| && trace[i].Bought? ==>
          && i == |trace| - 1 && i > 0
          && trace[i - 1].Polled? && trace[i - 1].result.hasLiquidity
          && BuyTokens(env, cfg, ctx, token, trace[i - 1].result.isBnbPair) == Ok(trace[i].tx))
  }

  /** Polls so far read the snapshots in order and were all negative. */
  ghost predicate NegativePolls(env: Env, token: string, views: seq<Chain>, trace: seq<Action>) {
    && |trace| <= |views|
    && forall i :: 0 <= i < |trace| ==>
         && trace[i].Polled? && !trace[i].result.hasLiquidity
         && CheckLiquidity(env, views[i], token) == Ok(trace[i].result)
  }

  /** Snapshot `k` is the first to show liquidity, and every earlier poll succeeded. */
  ghost predicate FirstPositive(env: Env, token: string, views: seq<Chain>, k: int) {
    && 0 <= k < |views|
    && CheckLiquidity(env, views[k], token).Ok?
    && CheckLiquidity(env, views[k], token).value.hasLiquidity
    && forall j :: 0 <= j < k ==>
         CheckLiquidity(env, views[j], token).Ok? && !CheckLiquidity(env, views[j], token).value.hasLiquidity
  }

  /** Every poll so far was negative, and the next one raised `error`. */
  ghost predicate PollFailed(env: Env, token: string, views: seq<Chain>, trace: seq<Action>, error: Failure) {
    && NegativePolls(env, token, views, trace)
    && |trace| < |views|
    && CheckLiquidity(env, views[|trace|], token) == Err(error)
  }

  /** The last action is a positive poll, and `buy_tokens` with its pair flag raised `error`. */
  ghost predicate BuyFailed(env: Env, cfg: TradeConfig, ctx: TradeContext, token: string,
                            trace: seq<Action>, error: Failure) {
    && |trace| > 0
    && trace[|trace| - 1].Polled?
    && trace[|trace| - 1].result.hasLiquidity
    && BuyTokens(env, cfg, ctx, token, trace[|trace| - 1].result.isBnbPair) == Err(error)
  }

  lemma NegativePollsTrace(env: Env, cfg: TradeConfig, ctx: TradeContext, token: string,
                           views: seq<Chain>, trace: seq<Action>)
    requires NegativePolls(env, token, views, trace)
    ensures PollThenBuyTrace(env, cfg, ctx, token, views, trace)
  {
  }

  lemma PositivePollTrace(env: Env, cfg: TradeConfig, ctx: TradeContext, token: string,
                          views: seq<Chain>, trace: seq<Action>, r: Liquidity)
    requires NegativePolls(env, token, views, trace)
    requires |trace| < |views| && CheckLiquidity(env, views[|trace|], token) == Ok(r)
    ensures PollThenBuyTrace(env, cfg, ctx, token, views, trace + [Polled(r)])
  {
  }

  lemma BuyTrace(env: Env, cfg: TradeConfig, ctx: TradeContext, token: string,
                 views: seq<Chain>, trace: seq<Action>, r: Liquidity, tx: Transaction)
    requires NegativePolls(env, token, views, trace)
    requires |trace| < |views| && CheckLiquidity(env, views[|trace|], token) == Ok(r)
    requires r.hasLiquidity && BuyTokens(env, cfg, ctx, token, r.isBnbPair) == Ok(tx)
    ensures PollThenBuyTrace(env, cfg, ctx, token, views, trace + [Polled(r), Bought(tx)])
  {
    var polls := trace + [Polled(r)];
    var full := polls + [Bought(tx)];
    PositivePollTrace(env, cfg, ctx, token, views, trace, r);
    assert full == trace + [Polled(r), Bought(tx)];
    forall i | 0 <= i < |full| && full[i].Polled?
      ensures i < |views| && CheckLiquidity(env, views[i], token) == Ok(full[i].result)
    {
      assert i < |polls| && full[i] == polls[i];
    }
    forall i | 0 <= i < |trace|
      ensures full[i].Polled? && !full[i].result.hasLiquidity
    {
      assert full[i] == trace[i];
    }
  }

  /**
   * Poll `check_liquidity` for `token` until it reports liquidity, then call
   * `buy_tokens` once. Poll `k` reads chain snapshot `views[k]`.
   */
  method PollThenBuy(env: Env, cfg: TradeConfig, ctx: TradeContext, token: string, views: seq<Chain>)
    returns (trace: seq<Action>, outcome: Outcome)
    ensures PollThenBuyTrace(env, cfg, ctx, token, views, trace)
    ensures outcome != Ignored
    ensures outcome.Submitted? ==> |trace| > 0 && trace[|trace| - 1] == Bought(outcome.tx)
    ensures |trace| > 0 && trace[|trace| - 1].Bought? ==> outcome == Submitted(trace[|trace| - 1].tx)
    ensures outcome.StillPolling? ==> |trace| == |views| && NegativePolls(env, token, views, trace)
    ensures outcome.Failed? ==> PollFailed(env, token, views, trace, outcome.error)
                                || BuyFailed(env, cfg, ctx, token, trace, outcome.error)
    ensures forall k :: FirstPositive(env, token, views, k) ==>
      var r := CheckLiquidity(env, views[k], token).value;
      var tx := BuyTokens(env, cfg, ctx, token, r.isBnbPair);
      && (tx.Ok? ==> |trace| == k + 2 && outcome == Submitted(tx.value))
      && (tx.Err? ==> |trace| == k + 1 && outcome == Failed(tx.error))
  {
    trace := [];
    outcome := StillPolling;
    var k := 0;
    while k < |views|
      invariant 0 <= k <= |views|
      invariant |trace| == k
      invariant NegativePolls(env, token, views, trace)
      invariant forall k' :: FirstPositive(env, token, views, k') ==> k <= k'
      decreases |views| - k
    {
      var polled := CheckLiquidity(env, views[k], token);
      if polled.Err? {
        NegativePollsTrace(env, cfg, ctx, token, views, trace);
        return trace, Failed(polled.error);
      }
      if polled.value.hasLiquidity {
        PositivePollTrace(env, cfg, ctx, token, views, trace, polled.value);
        var tx := BuyTokens(env, cfg, ctx, token, polled.value.isBnbPair);
        if tx.Err? {
          return trace + [Polled(polled.value)], Failed(tx.error);
        }
        BuyTrace(env, cfg, ctx, token, views, trace, polled.value, tx.value);
        return trace + [Polled(polled.value), Bought(tx.value)], Submitted(tx.value);
      }
      trace := trace + [Polled(polled.value)];
      k := k + 1;
    }
    NegativePollsTrace(env, cfg, ctx, token, views, trace);
  }

  /** `on_new_message(text)`: no candidate, no poll and no purchase. */
  method OnNewMessage(env: Env, cfg: TradeConfig, ctx: TradeContext, text: string, views: seq<Chain>)
    returns (trace: seq<Action>, outcome: Outcome)
    ensures Extract(text).None? ==> trace == [] && outcome == Ignored
    ensures Extract(text).Some? ==>
      && outcome != Ignored
      && PollThenBuyTrace(env, cfg, ctx, Extract(text).value, views, trace)
    ensures outcome.Submitted? ==> |trace| > 0 && trace[|trace| - 1] == Bought(outcome.tx)
    ensures outcome.StillPolling? ==> |trace| == |views|
    ensures outcome.Failed? ==>
      && Extract(text).Some?
      && (|| PollFailed(env, Extract(text).value, views, trace, outcome.error)
          || BuyFailed(env, cfg, ctx, Extract(text).value, trace, outcome.error))
    ensures Extract(text).Some? ==> forall k :: FirstPositive(env, Extract(text).value, views, k) ==>
      var r := CheckLiquidity(env, views[k], Extract(text).value).value;
      var tx := BuyTokens(env, cfg, ctx, Extract(text).value, r.isBnbPair);
      && (tx.Ok? ==> outcome == Submitted(tx.value))
      && (tx.Err? ==> outcome == Failed(tx.error))
  {
    var candidate := Extract(text);
    if candidate.None? {
      return [], Ignored;
    }
    trace, outcome := PollThenBuy(env, cfg, ctx, candidate.value, views);
  }
}
