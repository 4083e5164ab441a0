/**
 The integer pool arithmetic of src/solana/dexes/common.rs: constant-product quotes, rounded
 fees and slippage, and what they guarantee over whole sequences of trades.
 */
module ConstantProduct {
  import opened Types
  import opened Arithmetic

  function BaseOutForQuoteIn(quoteReserve: u64, baseReserve: u64, quoteIn: u64): u64 {
    if quoteIn == 0 || quoteReserve == 0 || baseReserve == 0 then 0
    else Wrap64(FloorDiv(baseReserve * quoteIn, quoteReserve + quoteIn))
  }

  function QuoteOutForBaseIn(quoteReserve: u64, baseReserve: u64, baseIn: u64): u64 {
    if baseIn == 0 || quoteReserve == 0 || baseReserve == 0 then 0
    else Wrap64(FloorDiv(quoteReserve * baseIn, baseReserve + baseIn))
  }

  function FeeFloor(amount: u64, bps: u64): u64 {
    Wrap64(FloorShare(amount, bps))
  }

  function FeeCeil(amount: u64, bps: u64): u64 {
    Wrap64(CeilShare(amount, bps))
  }

  function SlippageDown(x: u64, bps: u64): int {
    x - Wrap64(FloorShare(x, bps))
  }

  // ---- one quote

  /** The output stays strictly below its reserve and is the largest one the invariant can pay. */
  lemma OutputIsLargestAffordable(reserveIn: u64, reserveOut: u64, amountIn: u64)
    requires reserveIn > 0 && reserveOut > 0
    ensures var out := BaseOutForQuoteIn(reserveIn, reserveOut, amountIn);
            && out < reserveOut
            && out * (reserveIn + amountIn) <= reserveOut * amountIn
            && reserveOut * amountIn < (out + 1) * (reserveIn + amountIn)
  {
    var paid, d := reserveOut * amountIn, reserveIn + amountIn;
    var q := FloorDiv(paid, d);
    BelowReserve(reserveIn, reserveOut, amountIn, q);
    assert BaseOutForQuoteIn(reserveIn, reserveOut, amountIn) == q by {
      if amountIn == 0 {
        assert paid == 0;
      } else {
        Wrap64Identity(q);
      }
    }
  }

  lemma BelowReserve(reserveIn: nat, reserveOut: nat, amountIn: nat, out: nat)
    requires reserveIn > 0 && reserveOut > 0
    requires out * (reserveIn + amountIn) <= reserveOut * amountIn
    ensures out < reserveOut
    ensures (out + 1) * (reserveIn + amountIn) == out * (reserveIn + amountIn) + (reserveIn + amountIn)
  {
    assert reserveOut * (reserveIn + amountIn) == reserveOut * reserveIn + reserveOut * amountIn;
    assert reserveOut * reserveIn > 0;
    MulCancelStrict(out, reserveOut, reserveIn + amountIn);
  }

  lemma OutputWithinReserve(reserveIn: u64, reserveOut: u64, amountIn: u64)
    ensures BaseOutForQuoteIn(reserveIn, reserveOut, amountIn) <= reserveOut
    ensures reserveIn == 0 || amountIn == 0 ==> BaseOutForQuoteIn(reserveIn, reserveOut, amountIn) == 0
    ensures QuoteOutForBaseIn(reserveOut, reserveIn, amountIn)
         == BaseOutForQuoteIn(reserveIn, reserveOut, amountIn)
  {
    if reserveIn > 0 && reserveOut > 0 {
      OutputIsLargestAffordable(reserveIn, reserveOut, amountIn);
    }
  }

  lemma OutputMonotone(reserveIn: u64, reserveOut: u64, less: u64, more: u64)
    requires less <= more
    ensures BaseOutForQuoteIn(reserveIn, reserveOut, less) <= BaseOutForQuoteIn(reserveIn, reserveOut, more)
  {
    if less > 0 && reserveIn > 0 && reserveOut > 0 {
      var out := BaseOutForQuoteIn(reserveIn, reserveOut, less);
      OutputIsLargestAffordable(reserveIn, reserveOut, less);
      OutputIsLargestAffordable(reserveIn, reserveOut, more);
      // Every extra unit in adds at least as much to the payable side as to the owed side.
      MulMonotone(out, reserveOut, more - less);
      assert out * (reserveIn + more) == out * (reserveIn + less) + out * (more - less);
      assert reserveOut * more == reserveOut * less + reserveOut * (more - less);
      MulCancelStrict(out, BaseOutForQuoteIn(reserveIn, reserveOut, more) + 1, reserveIn + more);
    }
  }

  /** The casts in the fee functions lose nothing exactly while the fee fits. */
  lemma FeesFit(amount: u64, bps: u64)
    ensures FeeCeil(amount, bps) == CeilShare(amount, bps) <==> CeilShare(amount, bps) < U64_LIMIT
    ensures FeeFloor(amount, bps) == FloorShare(amount, bps) <==> FloorShare(amount, bps) < U64_LIMIT
  {
  }

  /** Slippage rounds in the trader's disfavour by less than one unit. */
  lemma SlippageDownIsCeiling(x: u64, bps: u64, kept: u64)
    requires bps + kept == 10_000
    ensures 0 <= SlippageDown(x, bps) <= x
    ensures SlippageDown(x, bps) == CeilShare(x, kept)
  {
    var taken := FloorShare(x, bps);
    ShareAndRest(x, bps, kept);
    Wrap64Identity(taken);
  }

  lemma ShareAndRest(x: nat, bps: nat, kept: nat)
    requires bps + kept == 10_000
    ensures FloorShare(x, bps) <= x
    ensures x - FloorShare(x, bps) == CeilShare(x, kept)
  {
    assert x * bps + x * kept == x * (bps + kept) == x * 10_000;
  }

  /** Selling at most the tokens a deposit paid for returns at most the deposit. */
  lemma BuyBackCostsAtMost(quote: u64, base: u64, paid: u64, tokens: u64)
    requires quote + paid < U64_LIMIT
    requires tokens <= BaseOutForQuoteIn(quote, base, paid) <= base
    ensures QuoteOutForBaseIn(quote + paid, base - tokens, tokens) <= paid
  {
    OutputWithinReserve(base - tokens, quote + paid, tokens);
    if tokens > 0 {
      OutputIsLargestAffordable(quote, base, paid);
      OutputIsLargestAffordable(base - tokens, quote + paid, tokens);
      var back := BaseOutForQuoteIn(base - tokens, quote + paid, tokens);
      // back·base ≤ (quote + paid)·tokens ≤ base·paid
      MulMonotone(tokens, BaseOutForQuoteIn(quote, base, paid), quote + paid);
      assert back * base <= paid * base;
      MulCancel(back, paid, base);
    }
  }

  // ---- runs of trades against one pool

  datatype Pool = Pool(quote: u64, base: u64)

  datatype Order = Buy(quoteIn: u64) | Sell(baseIn: u64)

  /** A pool and the trader on the other side of it. */
  datatype Market = Market(pool: Pool, traderQuote: int, traderBase: int)

  /** Settles an order at its quote; `None` when the pool's balance would leave 64 bits. */
  function Settle(m: Market, order: Order): Option<Market> {
    var Pool(quote, base) := m.pool;
    match order
    case Buy(quoteIn) =>
      var out := BaseOutForQuoteIn(quote, base, quoteIn);
      OutputWithinReserve(quote, base, quoteIn);
      if quote + quoteIn >= U64_LIMIT then None
      else Some(Market(Pool(quote + quoteIn, base - out), m.traderQuote - quoteIn, m.traderBase + out))
    case Sell(baseIn) =>
      var out := QuoteOutForBaseIn(quote, base, baseIn);
      OutputWithinReserve(base, quote, baseIn);
      if base + baseIn >= U64_LIMIT then None
      else Some(Market(Pool(quote - out, base + baseIn), m.traderQuote + out, m.traderBase - baseIn))
  }

  function Run(m: Market, orders: seq<Order>): Option<Market>
    decreases |orders|
  {
    if orders == [] then Some(m)
    else
      match Settle(m, orders[0])
      case None => None
      case Some(next) => Run(next, orders[1..])
  }

  lemma SettleKeepsProduct(m: Market, order: Order)
    requires Settle(m, order).Some?
    ensures var pool := Settle(m, order).value.pool;
            && m.pool.quote * m.pool.base <= pool.quote * pool.base
            && (m.pool.base > 0 ==> pool.base > 0)
            && (m.pool.quote > 0 ==> pool.quote > 0)
  {
    var Pool(quote, base) := m.pool;
    match order
    case Buy(quoteIn) => ProductGrows(quote, base, quoteIn);
    case Sell(baseIn) =>
      OutputWithinReserve(base, quote, baseIn);
      ProductGrows(base, quote, baseIn);
  }

  lemma ProductGrows(reserveIn: u64, reserveOut: u64, amountIn: u64)
    ensures var out := BaseOutForQuoteIn(reserveIn, reserveOut, amountIn);
            && reserveIn * reserveOut <= (reserveIn + amountIn) * (reserveOut - out)
            && (reserveOut > 0 ==> reserveOut - out > 0)
  {
    var out := BaseOutForQuoteIn(reserveIn, reserveOut, amountIn);
    if reserveIn > 0 && reserveOut > 0 {
      OutputIsLargestAffordable(reserveIn, reserveOut, amountIn);
    }
    assert (reserveIn + amountIn) * (reserveOut - out)
        == reserveIn * reserveOut + reserveOut * amountIn - out * (reserveIn + amountIn);
  }

  /**
   Over any run of buys and sells the reserve product never falls, a stocked side never runs
   dry, and nothing is created: pool plus trader hold the same totals.
   */
  lemma {:induction false} RunKeepsProductAndTotals(m: Market, orders: seq<Order>)
    requires Run(m, orders).Some?
    ensures var end := Run(m, orders).value;
            && m.pool.quote * m.pool.base <= end.pool.quote * end.pool.base
            && (m.pool.base > 0 ==> end.pool.base > 0)
            && (m.pool.quote > 0 ==> end.pool.quote > 0)
            && end.pool.quote + end.traderQuote == m.pool.quote + m.traderQuote
            && end.pool.base + end.traderBase == m.pool.base + m.traderBase
    decreases |orders|
  {
    if orders != [] {
      SettleKeepsProduct(m, orders[0]);
      RunKeepsProductAndTotals(Settle(m, orders[0]).value, orders[1..]);
    }
  }

  /** A pool that ends without tokens never paid for the ones it was sold. */
  lemma {:induction false} EmptyPoolPaysNothing(m: Market, orders: seq<Order>)
    requires Run(m, orders).Some? && Run(m, orders).value.pool.base == 0
    ensures m.pool.base == 0
    ensures m.pool.quote <= Run(m, orders).value.pool.quote
    decreases |orders|
  {
    RunKeepsProductAndTotals(m, orders);
    if orders != [] {
      var next := Settle(m, orders[0]).value;
      EmptyPoolPaysNothing(next, orders[1..]);
    }
  }

  /** A trader who ends with at least the tokens held at the start has not gained any quote currency. */
  lemma NoFreeQuote(m: Market, orders: seq<Order>)
    requires Run(m, orders).Some?
    requires Run(m, orders).value.traderBase >= m.traderBase
    ensures Run(m, orders).value.traderQuote <= m.traderQuote
  {
    var end := Run(m, orders).value;
    RunKeepsProductAndTotals(m, orders);
    if end.pool.base == 0 {
      EmptyPoolPaysNothing(m, orders);
    } else {
      MulMonotone(end.pool.base, m.pool.base, end.pool.quote);
      MulCancel(m.pool.quote, end.pool.quote, m.pool.base);
    }
  }

  // ---- splitting one buy

  function Sum(pieces: seq<u64>): nat {
    if pieces == [] then 0 else pieces[0] + Sum(pieces[1..])
  }

  function Buys(pieces: seq<u64>): seq<Order> {
    if pieces == [] then [] else [Buy(pieces[0])] + Buys(pieces[1..])
  }

  /** Tokens received for buying `pieces` one after another. */
  function BoughtInPieces(pool: Pool, pieces: seq<u64>): (total: int)
    requires pool.quote + Sum(pieces) < U64_LIMIT
    ensures exists end :: Run(Market(pool, 0, 0), Buys(pieces)) == Some(end) && end.traderBase == total
  {
    RunOfBuys(Market(pool, 0, 0), pieces);
    Run(Market(pool, 0, 0), Buys(pieces)).value.traderBase
  }

  lemma {:induction false} RunOfBuys(m: Market, pieces: seq<u64>)
    requires m.pool.quote + Sum(pieces) < U64_LIMIT
    ensures Run(m, Buys(pieces)).Some?
    decreases |pieces|
  {
    if pieces != [] {
      var orders := Buys(pieces);
      assert orders[0] == Buy(pieces[0]) && orders[1..] == Buys(pieces[1..]);
      RunOfBuys(Settle(m, orders[0]).value, pieces[1..]);
    }
  }

  /** Two consecutive buys never beat one buy of their sum. */
  lemma TwoBuysNeverBeatOne(quote: u64, base: u64, first: u64, second: u64)
    requires quote > 0 && quote + first + second < U64_LIMIT
    ensures var out := BaseOutForQuoteIn(quote, base, first);
            && out <= base
            && out + BaseOutForQuoteIn(quote + first, base - out, second)
               <= BaseOutForQuoteIn(quote, base, first + second)
  {
    var out := BaseOutForQuoteIn(quote, base, first);
    OutputWithinReserve(quote, base, first);
    if base > 0 {
      OutputIsLargestAffordable(quote, base, first);
      OutputIsLargestAffordable(quote + first, base - out, second);
      OutputIsLargestAffordable(quote, base, first + second);
      var rest := BaseOutForQuoteIn(quote + first, base - out, second);
      var whole := BaseOutForQuoteIn(quote, base, first + second);
      SplitOutputs(quote, base, first, second, out, rest);
      assert (out + rest) * (quote + first + second) < (whole + 1) * (quote + first + second);
      MulCancelStrict(out + rest, whole + 1, quote + first + second);
    }
  }

  lemma SplitOutputs(quote: nat, base: nat, first: nat, second: nat, out: nat, rest: nat)
    requires out <= base
    requires out * (quote + first) <= base * first
    requires rest * (quote + first + second) <= (base - out) * second
    ensures (out + rest) * (quote + first + second) <= base * (first + second)
  {
    var d := quote + first + second;
    assert (out + rest) * d == out * d + rest * d;
    assert out * d == out * (quote + first) + out * second;
    assert (base - out) * second == base * second - out * second;
    assert base * (first + second) == base * first + base * second;
  }

  lemma {:induction false} RunOfBuysNeverBeatsOne(m: Market, pieces: seq<u64>)
    requires m.pool.quote > 0 && m.pool.quote + Sum(pieces) < U64_LIMIT
    ensures Run(m, Buys(pieces)).Some?
    ensures Run(m, Buys(pieces)).value.traderBase
         <= m.traderBase + BaseOutForQuoteIn(m.pool.quote, m.pool.base, Sum(pieces))
    decreases |pieces|
  {
    if pieces != [] {
      var orders := Buys(pieces);
      assert orders[0] == Buy(pieces[0]) && orders[1..] == Buys(pieces[1..]);
      RunOfBuysNeverBeatsOne(Settle(m, orders[0]).value, pieces[1..]);
      TwoBuysNeverBeatOne(m.pool.quote, m.pool.base, pieces[0], Sum(pieces[1..]));
    }
  }

  ghost predicate SplittingNeverPays(pool: Pool) {
    forall pieces: seq<u64> | pool.quote + Sum(pieces) < U64_LIMIT ::
      BoughtInPieces(pool, pieces) <= BaseOutForQuoteIn(pool.quote, pool.base, Sum(pieces))
  }

  /** A pool holding at most one token has nothing to pay out. */
  lemma {:induction false} RunOfBuysFromDust(m: Market, pieces: seq<u64>)
    requires m.pool.base <= 1 && m.pool.quote + Sum(pieces) < U64_LIMIT
    ensures Run(m, Buys(pieces)).Some? && Run(m, Buys(pieces)).value.traderBase == m.traderBase
    decreases |pieces|
  {
    if pieces != [] {
      var orders := Buys(pieces);
      assert orders[0] == Buy(pieces[0]) && orders[1..] == Buys(pieces[1..]);
      ProductGrows(m.pool.quote, m.pool.base, pieces[0]);
      RunOfBuysFromDust(Settle(m, orders[0]).value, pieces[1..]);
    }
  }

  /**
   Splitting one buy into any number of pieces never yields more tokens, except from a pool with
   no quote reserve: there the zero-reserve branch pays nothing for the first piece, which then
   prices the second.
   */
  lemma SplittingNeverPaysExactly(pool: Pool)
    ensures SplittingNeverPays(pool) <==> pool.quote > 0 || pool.base <= 1
  {
    if pool.quote > 0 || pool.base <= 1 {
      forall pieces: seq<u64> | pool.quote + Sum(pieces) < U64_LIMIT
        ensures BoughtInPieces(pool, pieces) <= BaseOutForQuoteIn(pool.quote, pool.base, Sum(pieces))
      {
        if pool.quote > 0 {
          RunOfBuysNeverBeatsOne(Market(pool, 0, 0), pieces);
        } else {
          RunOfBuysFromDust(Market(pool, 0, 0), pieces);
        }
      }
    } else {
      SplitOfEmptyQuoteReserve(pool.base);
    }
  }

  /** The counterexample: two one-unit buys against an empty quote reserve take half the tokens. */
  lemma SplitOfEmptyQuoteReserve(base: u64)
    requires base > 1
    ensures var pieces: seq<u64> := [1, 1];
            && Sum(pieces) == 2
            && BoughtInPieces(Pool(0, base), pieces) == base / 2
            && BaseOutForQuoteIn(0, base, 2) == 0 < base / 2
  {
    var pieces: seq<u64> := [1, 1];
    assert pieces[1..] == [1] && pieces[1..][1..] == [];
    assert Sum(pieces[1..]) == 1;
    var orders := Buys(pieces);
    assert orders == [Buy(1)] + Buys(pieces[1..]) && Buys(pieces[1..]) == [Buy(1)];
    var m := Market(Pool(0, base), 0, 0);
    var m1 := Settle(m, orders[0]).value;
    assert m1 == Market(Pool(1, base), -1, 0);
    assert orders[1..] == [Buy(1)] && orders[1..][1..] == [];
    assert BaseOutForQuoteIn(1, base, 1) == base / 2;
    assert Run(m, orders) == Run(m1, orders[1..]);
    assert Run(m1, orders[1..]) == Run(Settle(m1, Buy(1)).value, []);
  }
}
