/** Swapping native USDC into USDC.e (`swapUsdcToUsdce` and `swapViaKyberswap`
    in `src/services/polymarket.ts`): local balance checks, a 1inch quote with
    a single fallback to Kyberswap, and on either path an allowance check, an
    unlimited approval when it falls short, and the swap transaction. */
module SwapRouter {
  import opened Common
  import opened GasOracle
  import opened Ledger
  import opened Units

  /** The router the 1inch path approves. */
  const ONEINCH_ROUTER: Address := "0x1111111254EEB25477B68fb85Ed929f73A960582"
  /** The router the 1inch v6.0 swap API names as `tx.to` on Polygon. */
  const ONEINCH_V6_ROUTER: Address := "0x111111125421cA6dc452d289314280a0f8842A65"

  const NO_BALANCE: string := "No native USDC balance to swap"
  const NO_ROUTE_ANYWHERE: string := "No swap route found on any aggregator"
  const NO_ROUTE: string := "No swap route found"
  const BUILD_FAILED: string := "Failed to build swap transaction"
  /** The failure assumed for a gas limit that is not a number. */
  const INVALID_GAS_LIMIT: string := "invalid BigNumber value"

  /** A `fetch` answer: an ok response with its parsed body, a response that
      was not ok with its text, or a throw (network or JSON error). */
  datatype Http<+T> = HttpOk(body: T) | HttpNotOk(text: string) | HttpThrew(message: string)

  /** The 1inch swap answer: amount out and the transaction to send. */
  datatype Quote = Quote(dstAmount: nat, to: Address, data: string, value: string, gas: nat)
  /** Kyberswap's route summary; its gas may be absent. */
  datatype RouteSummary = RouteSummary(amountOut: nat, gas: Option<nat>)
  /** Kyberswap's built transaction; its gas may be absent. */
  datatype Build = Build(data: string, routerAddress: Address, gas: Option<nat>)

  datatype SwapResult = Swapped(amountIn: real, amountOut: string, txHash: string) | SwapFailed(error: string)

  /** Everything outside the wallet's own chain state that a swap depends on. */
  datatype SwapEnv = SwapEnv(
    decimals: nat,
    oneInch: Http<Quote>,
    kyberRoute: Http<Option<RouteSummary>>,
    kyberBuild: Http<Build>,
    fee: FeeData,
    approval: TxOutcome,
    swap: TxOutcome)

  // ---------------------------------------------------------------------------
  // One swap leg: allowance check, approval, swap
  // ---------------------------------------------------------------------------

  /** The log of one leg: the allowance read for `spender`, an unlimited
      approval of `spender` when the allowance is below `amount`, and the
      swap unless that approval failed. */
  function LegTrace(spender: Address, current: nat, amount: int, swap: Call, fees: GasSettings,
                    approval: TxOutcome, outcome: TxOutcome): seq<Event>
  {
    [AllowanceRead(USDC_NATIVE, spender, current)]
    + (if current < amount then TxEvents(ApproveCall(USDC_NATIVE, spender, MAX_UINT256), fees, approval) else [])
    + (if current < amount && !approval.Mines? then [] else TxEvents(swap, fees, outcome))
  }

  /** The leg's result: the swap's hash, or the message of the step that threw. */
  function LegResult(current: nat, amount: int, approval: TxOutcome, outcome: TxOutcome): Result<string, string> {
    if current < amount && !approval.Mines? then Err(approval.message)
    else if outcome.Mines? then Ok(outcome.hash)
    else Err(outcome.message)
  }

  /** The allowances after a leg: the unlimited approval of `spender` takes
      effect when the allowance fell short of `amount` and the approval mined;
      the swap itself changes no allowance. */
  function LegAllowance(allowance: map<(Address, Address), nat>, spender: Address, amount: int, approval: TxOutcome)
    : (a: map<(Address, Address), nat>)
    ensures a == allowance || a == allowance[(USDC_NATIVE, spender) := MAX_UINT256]
    ensures AllowanceIn(allowance, USDC_NATIVE, spender) >= amount || !approval.Mines? ==> a == allowance
  {
    if AllowanceIn(allowance, USDC_NATIVE, spender) < amount && approval.Mines?
    then Apply(allowance, ApproveCall(USDC_NATIVE, spender, MAX_UINT256))
    else allowance
  }

  /** The allowances a leg leaves are those its log explains: a changed
      allowance is the leg's confirmed approval, and that approval holds. */
  lemma LegAllowanceFollowsLog(allowance: map<(Address, Address), nat>, spender: Address, amount: int, swap: Call,
                               fees: GasSettings, approval: TxOutcome, outcome: TxOutcome)
    requires swap.SwapCall?
    ensures AllowanceFollowsLog(allowance, LegAllowance(allowance, spender, amount, approval),
                                LegTrace(spender, AllowanceIn(allowance, USDC_NATIVE, spender), amount, swap, fees,
                                         approval, outcome))
  {
    var current := AllowanceIn(allowance, USDC_NATIVE, spender);
    var t := LegTrace(spender, current, amount, swap, fees, approval, outcome);
    var after := LegAllowance(allowance, spender, amount, approval);
    var approve := ApproveCall(USDC_NATIVE, spender, MAX_UINT256);
    if current < amount && approval.Mines? {
      assert t == [AllowanceRead(USDC_NATIVE, spender, current)] + TxEvents(approve, fees, approval)
                  + TxEvents(swap, fees, outcome);
      assert t[2] == Confirmed(approve, approval.hash);
      forall token: Address, s: Address | AllowanceIn(after, token, s) != AllowanceIn(allowance, token, s)
        ensures exists j :: 0 <= j < |t| && t[j].Confirmed?
                            && t[j].call == ApproveCall(token, s, AllowanceIn(after, token, s))
      {
        assert (token, s) == (USDC_NATIVE, spender);
        assert t[2].call == ApproveCall(token, s, AllowanceIn(after, token, s));
      }
      forall j | 0 <= j < |t| && t[j].Confirmed? && t[j].call.ApproveCall?
        ensures AllowanceIn(after, t[j].call.token, t[j].call.spender) == t[j].call.amount
      {
        assert j == 2;
      }
    } else {
      assert after == allowance;
      forall j | 0 <= j < |t| && t[j].Confirmed?
        ensures !t[j].call.ApproveCall?
      {
        assert current >= amount;
        assert t == [AllowanceRead(USDC_NATIVE, spender, current)] + TxEvents(swap, fees, outcome);
      }
    }
  }

  /** A leg that approves the router it swaps through submits its swap only
      after an event granting that router `amount`: a large enough allowance
      read, or the confirmation of the approval. */
  lemma LegAuthorised(spender: Address, current: nat, amount: int, swap: Call, fees: GasSettings,
                      approval: TxOutcome, outcome: TxOutcome)
    requires swap.SwapCall? && swap.to == spender
    ensures SwapsAuthorised(LegTrace(spender, current, amount, swap, fees, approval, outcome), USDC_NATIVE, amount)
  {
    var t := LegTrace(spender, current, amount, swap, fees, approval, outcome);
    var approve := ApproveCall(USDC_NATIVE, spender, MAX_UINT256);
    forall i | 0 <= i < |t| && t[i].Submitted? && t[i].call.SwapCall?
      ensures exists j :: 0 <= j < i && Grants(t[j], USDC_NATIVE, t[i].call.to, amount)
    {
      if current < amount {
        assert approval.Mines?;
        assert t == [AllowanceRead(USDC_NATIVE, spender, current)] + TxEvents(approve, fees, approval)
                    + TxEvents(swap, fees, outcome);
        assert t[2] == Confirmed(approve, approval.hash);
        assert i == 3;
        assert Grants(t[2], USDC_NATIVE, t[i].call.to, amount);
      } else {
        assert Grants(t[0], USDC_NATIVE, t[i].call.to, amount);
      }
    }
  }

  /** An approval is sent only when the allowance read falls short, only for
      the unlimited amount and only to the leg's spender; at most one
      transaction of each kind is submitted. */
  lemma LegApprovals(spender: Address, current: nat, amount: int, swap: Call, fees: GasSettings,
                     approval: TxOutcome, outcome: TxOutcome)
    requires swap.SwapCall?
    ensures var t := LegTrace(spender, current, amount, swap, fees, approval, outcome);
            forall i :: 0 <= i < |t| && t[i].Submitted? ==>
              (t[i].call.ApproveCall? ==> current < amount && t[i].call == ApproveCall(USDC_NATIVE, spender, MAX_UINT256) && i == 1)
              && (t[i].call.SwapCall? ==> t[i].call == swap && (i == 1 || i == 3))
  {
  }

  /** A leg that reports a hash ends with that swap's confirmation. */
  lemma LegSuccess(spender: Address, current: nat, amount: int, swap: Call, fees: GasSettings,
                   approval: TxOutcome, outcome: TxOutcome)
    requires swap.SwapCall?
    requires LegResult(current, amount, approval, outcome).Ok?
    ensures var t := LegTrace(spender, current, amount, swap, fees, approval, outcome);
            t[|t| - 1] == Confirmed(swap, LegResult(current, amount, approval, outcome).value)
  {
  }

  /** Reads the allowance of `spender`, approves it without limit when the
      allowance is below `amount`, waits for that approval, then sends `swap`
      and waits for it. */
  method ApproveAndSwap(chain: Chain, spender: Address, swap: Call, amount: int, fees: GasSettings,
                        approval: TxOutcome, outcome: TxOutcome)
    returns (r: Result<string, string>)
    requires swap.SwapCall?
    modifies chain
    ensures chain.balance == old(chain.balance)
    ensures chain.log == old(chain.log)
              + LegTrace(spender, old(chain.AllowanceOf(USDC_NATIVE, spender)), amount, swap, fees, approval, outcome)
    ensures r == LegResult(old(chain.AllowanceOf(USDC_NATIVE, spender)), amount, approval, outcome)
    ensures chain.allowance == LegAllowance(old(chain.allowance), spender, amount, approval)
  {
    var current := chain.ReadAllowance(USDC_NATIVE, spender);
    if current < amount {
      var approved := chain.SendAndWait(ApproveCall(USDC_NATIVE, spender, MAX_UINT256), fees, approval);
      if approved.Err? {
        return approved;
      }
    }
    r := chain.SendAndWait(swap, fees, outcome);
  }

  /** The transaction the 1inch quote describes; an empty value means zero. */
  function OneInchSwapCall(quote: Quote): (c: Call)
    ensures c.SwapCall? && c.to == quote.to && c.gasLimit >= quote.gas
  {
    SwapCall(quote.to, quote.data, if quote.value != "" then quote.value else "0", GasLimit(quote.gas))
  }

  /** The 1inch leg as written: the allowance is checked and granted for the
      fixed `ONEINCH_ROUTER`, while the swap goes to the quote's `tx.to`. */
  method OneInchLegAsWritten(chain: Chain, quote: Quote, amount: int, fees: GasSettings,
                             approval: TxOutcome, outcome: TxOutcome)
    returns (r: Result<string, string>)
    modifies chain
    ensures chain.balance == old(chain.balance)
    ensures chain.log == old(chain.log)
              + LegTrace(ONEINCH_ROUTER, old(chain.AllowanceOf(USDC_NATIVE, ONEINCH_ROUTER)), amount,
                         OneInchSwapCall(quote), fees, approval, outcome)
    ensures r == LegResult(old(chain.AllowanceOf(USDC_NATIVE, ONEINCH_ROUTER)), amount, approval, outcome)
    ensures chain.allowance == LegAllowance(old(chain.allowance), ONEINCH_ROUTER, amount, approval)
  {
    r := ApproveAndSwap(chain, ONEINCH_ROUTER, OneInchSwapCall(quote), amount, fees, approval, outcome);
  }

  /** With the v6 quote's router as `tx.to`, the leg as written can submit a
      swap that no event authorises: the allowance it read (unlimited) belongs
      to another router. */
  lemma OneInchLegAsWrittenUnauthorised()
    ensures var quote := Quote(1, ONEINCH_V6_ROUTER, "", "", 100000);
            !SwapsAuthorised(LegTrace(ONEINCH_ROUTER, MAX_UINT256, 1_000_000, OneInchSwapCall(quote),
                                      GasSettings(0, 0), Mines("approve"), Mines("swap")),
                             USDC_NATIVE, 1_000_000)
  {
    var quote := Quote(1, ONEINCH_V6_ROUTER, "", "", 100000);
    var t := LegTrace(ONEINCH_ROUTER, MAX_UINT256, 1_000_000, OneInchSwapCall(quote),
                      GasSettings(0, 0), Mines("approve"), Mines("swap"));
    assert t[1] == Submitted(OneInchSwapCall(quote), GasSettings(0, 0), "swap");
    assert ONEINCH_ROUTER[12] != ONEINCH_V6_ROUTER[12];
    assert !Grants(t[0], USDC_NATIVE, ONEINCH_V6_ROUTER, 1_000_000);
  }

  /** The 1inch leg as intended: the router the swap is sent to is the one
      whose allowance is checked and granted. */
  method OneInchLeg(chain: Chain, quote: Quote, amount: int, fees: GasSettings,
                    approval: TxOutcome, outcome: TxOutcome)
    returns (r: Result<string, string>)
    modifies chain
    ensures chain.balance == old(chain.balance)
    ensures chain.log == old(chain.log)
              + LegTrace(quote.to, old(chain.AllowanceOf(USDC_NATIVE, quote.to)), amount,
                         OneInchSwapCall(quote), fees, approval, outcome)
    ensures r == LegResult(old(chain.AllowanceOf(USDC_NATIVE, quote.to)), amount, approval, outcome)
    ensures chain.allowance == LegAllowance(old(chain.allowance), quote.to, amount, approval)
    ensures SwapsAuthorised(chain.log[|old(chain.log)|..], USDC_NATIVE, amount)
  {
    ghost var current := chain.AllowanceOf(USDC_NATIVE, quote.to);
    r := ApproveAndSwap(chain, quote.to, OneInchSwapCall(quote), amount, fees, approval, outcome);
    LegAuthorised(quote.to, current, amount, OneInchSwapCall(quote), fees, approval, outcome);
    assert chain.log[|old(chain.log)|..]
        == LegTrace(quote.to, current, amount, OneInchSwapCall(quote), fees, approval, outcome);
  }

  // ---------------------------------------------------------------------------
  // The two aggregators and the whole swap
  // ---------------------------------------------------------------------------

  /** `Number(build.gas || routeSummary.gas)`: the build's estimate, else the route's. */
  function KyberGas(route: RouteSummary, build: Build): (gas: Option<nat>)
    ensures build.gas.Some? ==> gas == build.gas
    ensures build.gas.None? ==> gas == route.gas
  {
    if build.gas.Some? then build.gas else route.gas
  }

  /** The Kyberswap transaction: sent to the built router with no value. */
  function KyberSwapCall(route: RouteSummary, build: Build): (c: Call)
    ensures c.SwapCall? && c.to == build.routerAddress && c.value == "0"
    ensures KyberGas(route, build).Some? ==> c.gasLimit == GasLimit(KyberGas(route, build).value)
  {
    var gas := KyberGas(route, build);
    SwapCall(build.routerAddress, build.data, "0", if gas.Some? then GasLimit(gas.value) else 0)
  }

  /** A leg sends transactions and reads chain state; it makes no API request. */
  lemma LegMakesNoRequests(spender: Address, current: nat, amount: int, swap: Call, fees: GasSettings,
                           approval: TxOutcome, outcome: TxOutcome)
    ensures var t := LegTrace(spender, current, amount, swap, fees, approval, outcome);
            forall i :: 0 <= i < |t| ==> !t[i].ApiRequest?
  {
  }

  /** Whether `e` is a Kyberswap route request. */
  predicate AsksKyber(e: Event) {
    e.ApiRequest? && e.api.KyberRoute?
  }

  /** `swapViaKyberswap`: one route request, one build request, then the leg
      through the built router. Every error is reported with its own message. */
  method Kyberswap(chain: Chain, amountToSwap: int, amount: real, env: SwapEnv) returns (r: SwapResult)
    modifies chain
    ensures chain.balance == old(chain.balance)
    // the whole log and result, the built path included
    ensures chain.log == old(chain.log) + KyberTrace(old(chain.allowance), amountToSwap, env)
    ensures r == KyberResult(old(chain.allowance), amountToSwap, amount, env)
    // the allowances: at most the built router's approval, as the log shows
    ensures chain.allowance == KyberAllowance(old(chain.allowance), amountToSwap, env)
    ensures AllowanceFollowsLog(old(chain.allowance), chain.allowance, chain.log[|old(chain.log)|..])
    ensures |old(chain.log)| < |chain.log| && chain.log[..|old(chain.log)|] == old(chain.log)
    ensures chain.log[|old(chain.log)|] == ApiRequest(KyberRoute(amountToSwap))
    ensures forall i :: |old(chain.log)| < i < |chain.log| ==> !AsksKyber(chain.log[i])
    ensures SwapsAuthorised(chain.log[|old(chain.log)|..], USDC_NATIVE, amountToSwap)
    ensures env.kyberRoute.HttpThrew? ==> r == SwapFailed(env.kyberRoute.message)
    ensures env.kyberRoute.HttpNotOk? ==> r == SwapFailed(NO_ROUTE_ANYWHERE)
    ensures env.kyberRoute == HttpOk(None) ==> r == SwapFailed(NO_ROUTE)
    ensures env.kyberRoute.HttpOk? && env.kyberRoute.body.Some? ==>
              && |chain.log| > |old(chain.log)| + 1
              && chain.log[|old(chain.log)| + 1] == ApiRequest(KyberBuild(env.kyberRoute.body.value.amountOut))
              && (env.kyberBuild.HttpThrew? ==> r == SwapFailed(env.kyberBuild.message))
              && (env.kyberBuild.HttpNotOk? ==> r == SwapFailed(BUILD_FAILED))
    // no transaction is sent unless a route was found and built
    ensures !(env.kyberRoute.HttpOk? && env.kyberRoute.body.Some? && env.kyberBuild.HttpOk?) ==>
              forall i :: |old(chain.log)| <= i < |chain.log| ==> chain.log[i].ApiRequest?
    ensures r.Swapped? ==> env.kyberRoute.HttpOk? && env.kyberRoute.body.Some? && env.kyberBuild.HttpOk?
                           && r.amountIn == amount
                           && r.amountOut == FormatUnits(env.kyberRoute.body.value.amountOut, env.decimals)
                           && chain.log[|chain.log| - 1]
                              == Confirmed(KyberSwapCall(env.kyberRoute.body.value, env.kyberBuild.body), r.txHash)
  {
    ghost var allowance := chain.allowance;
    r := KyberRequests(chain, amountToSwap, amount, env);
    assert chain.log[|old(chain.log)|..] == KyberTrace(allowance, amountToSwap, env);
    KyberTraceFacts(allowance, amountToSwap, amount, env);
    KyberAllowanceFollowsLog(allowance, amountToSwap, env);
  }

  /** The steps of `swapViaKyberswap`, proved against the log and result they produce. */
  method KyberRequests(chain: Chain, amountToSwap: int, amount: real, env: SwapEnv) returns (r: SwapResult)
    modifies chain
    ensures chain.balance == old(chain.balance)
    ensures chain.log == old(chain.log) + KyberTrace(old(chain.allowance), amountToSwap, env)
    ensures r == KyberResult(old(chain.allowance), amountToSwap, amount, env)
    ensures chain.allowance == KyberAllowance(old(chain.allowance), amountToSwap, env)
  {
    ghost var allowance := chain.allowance;
    chain.Request(KyberRoute(amountToSwap));
    match env.kyberRoute
    case HttpThrew(message) =>
      r := SwapFailed(message);
    case HttpNotOk(_) =>
      r := SwapFailed(NO_ROUTE_ANYWHERE);
    case HttpOk(None) =>
      r := SwapFailed(NO_ROUTE);
    case HttpOk(Some(route)) =>
      r := KyberBuildAndSwap(chain, route, amountToSwap, amount, env);
      AppendBoth(old(chain.log), [ApiRequest(KyberRoute(amountToSwap))], KyberBuildTrace(allowance, route, amountToSwap, env));
  }

  /** `swapViaKyberswap` once a route was found: the build request, then the
      leg through the built router. */
  method KyberBuildAndSwap(chain: Chain, route: RouteSummary, amountToSwap: int, amount: real, env: SwapEnv)
    returns (r: SwapResult)
    requires env.kyberRoute == HttpOk(Some(route))
    modifies chain
    ensures chain.balance == old(chain.balance)
    ensures chain.log == old(chain.log) + KyberBuildTrace(old(chain.allowance), route, amountToSwap, env)
    ensures r == KyberResult(old(chain.allowance), amountToSwap, amount, env)
    ensures chain.allowance == KyberAllowance(old(chain.allowance), amountToSwap, env)
  {
    ghost var allowance := chain.allowance;
    ghost var request := [ApiRequest(KyberBuild(route.amountOut))];
    chain.Request(KyberBuild(route.amountOut));
    match env.kyberBuild
    case HttpThrew(message) =>
      r := SwapFailed(message);
    case HttpNotOk(_) =>
      r := SwapFailed(BUILD_FAILED);
    case HttpOk(build) =>
      ghost var current := chain.AllowanceOf(USDC_NATIVE, build.routerAddress);
      assert current == AllowanceIn(allowance, USDC_NATIVE, build.routerAddress);
      r := KyberBuiltSwap(chain, route, build, amountToSwap, amount, env);
      assert r == KyberBuiltResult(current, route, build, amountToSwap, amount, env);
      ghost var fees := [FeeDataRead(PolygonGasSettings(env.fee))];
      ghost var leg := LegTrace(build.routerAddress, current, amountToSwap, KyberSwapCall(route, build),
                                PolygonGasSettings(env.fee), env.approval, KyberOutcome(route, build, env.swap));
      AppendBoth(old(chain.log) + request, fees, leg);
      AppendBoth(old(chain.log), request, fees + leg);
  }

  /** What the Kyberswap log and result mean: the route is asked for once, at
      the start; a build request follows a route; nothing but requests is
      logged unless the route was built; every swap is authorised; and a
      reported swap ends the log with its confirmation. */
  lemma KyberTraceFacts(allowance: map<(Address, Address), nat>, amountToSwap: int, amount: real, env: SwapEnv)
    ensures var t := KyberTrace(allowance, amountToSwap, env);
            && (forall i :: 0 < i < |t| ==> !AsksKyber(t[i]))
            && SwapsAuthorised(t, USDC_NATIVE, amountToSwap)
            && (env.kyberRoute.HttpOk? && env.kyberRoute.body.Some? ==>
                  |t| > 1 && t[1] == ApiRequest(KyberBuild(env.kyberRoute.body.value.amountOut)))
            && (!(env.kyberRoute.HttpOk? && env.kyberRoute.body.Some? && env.kyberBuild.HttpOk?) ==>
                  forall i :: 0 <= i < |t| ==> t[i].ApiRequest?)
            && (KyberResult(allowance, amountToSwap, amount, env).Swapped? ==>
                  t[|t| - 1] == Confirmed(KyberSwapCall(env.kyberRoute.body.value, env.kyberBuild.body),
                                          KyberResult(allowance, amountToSwap, amount, env).txHash))
  {
    var t := KyberTrace(allowance, amountToSwap, env);
    var ask := ApiRequest(KyberRoute(amountToSwap));
    if env.kyberRoute.HttpOk? && env.kyberRoute.body.Some? {
      var route := env.kyberRoute.body.value;
      var request := ApiRequest(KyberBuild(route.amountOut));
      if env.kyberBuild.HttpOk? {
        var build := env.kyberBuild.body;
        var current := AllowanceIn(allowance, USDC_NATIVE, build.routerAddress);
        var fees := PolygonGasSettings(env.fee);
        var swap := KyberSwapCall(route, build);
        var outcome := KyberOutcome(route, build, env.swap);
        var leg := LegTrace(build.routerAddress, current, amountToSwap, swap, fees, env.approval, outcome);
        assert t == [ask, request, FeeDataRead(fees)] + leg;
        LegMakesNoRequests(build.routerAddress, current, amountToSwap, swap, fees, env.approval, outcome);
        KyberBuiltShape(t, leg, amountToSwap, route.amountOut, fees);
        LegAuthorised(build.routerAddress, current, amountToSwap, swap, fees, env.approval, outcome);
        KyberPrefixAuthorised(t, leg, amountToSwap, route.amountOut, fees);
        if KyberResult(allowance, amountToSwap, amount, env).Swapped? {
          LegSuccess(build.routerAddress, current, amountToSwap, swap, fees, env.approval, outcome);
        }
      } else {
        assert t == [ask, request];
      }
    } else {
      assert t == [ask];
    }
  }

  /** The outcome of sending the built swap. A missing gas estimate makes the
      gas limit NaN; this model takes it that sending then fails with
      `INVALID_GAS_LIMIT`, which the library's own handling of NaN does not
      settle. */
  function KyberOutcome(route: RouteSummary, build: Build, swap: TxOutcome): (o: TxOutcome)
    ensures KyberGas(route, build).Some? ==> o == swap
    ensures KyberGas(route, build).None? ==> o == SendFails(INVALID_GAS_LIMIT)
  {
    if KyberGas(route, build).Some? then swap else SendFails(INVALID_GAS_LIMIT)
  }

  /** What `swapViaKyberswap` reports once the route is built, where
      `current` is the built router's allowance. */
  function KyberBuiltResult(current: nat, route: RouteSummary, build: Build, amountToSwap: int, amount: real,
                            env: SwapEnv): (r: SwapResult)
    ensures r.Swapped? <==> LegResult(current, amountToSwap, env.approval, KyberOutcome(route, build, env.swap)).Ok?
    ensures r.Swapped? ==> r.amountIn == amount && r.amountOut == FormatUnits(route.amountOut, env.decimals)
  {
    match LegResult(current, amountToSwap, env.approval, KyberOutcome(route, build, env.swap))
    case Ok(hash) => Swapped(amount, FormatUnits(route.amountOut, env.decimals), hash)
    case Err(message) => SwapFailed(message)
  }

  /** What `swapViaKyberswap` reports, given the wallet's allowances when it starts. */
  function KyberResult(allowance: map<(Address, Address), nat>, amountToSwap: int, amount: real, env: SwapEnv)
    : (r: SwapResult)
    ensures r.Swapped? ==> env.kyberRoute.HttpOk? && env.kyberRoute.body.Some? && env.kyberBuild.HttpOk?
                           && r.amountIn == amount
                           && r.amountOut == FormatUnits(env.kyberRoute.body.value.amountOut, env.decimals)
  {
    match env.kyberRoute
    case HttpThrew(message) => SwapFailed(message)
    case HttpNotOk(_) => SwapFailed(NO_ROUTE_ANYWHERE)
    case HttpOk(None) => SwapFailed(NO_ROUTE)
    case HttpOk(Some(route)) =>
      match env.kyberBuild
      case HttpThrew(message) => SwapFailed(message)
      case HttpNotOk(_) => SwapFailed(BUILD_FAILED)
      case HttpOk(build) =>
        KyberBuiltResult(AllowanceIn(allowance, USDC_NATIVE, build.routerAddress), route, build, amountToSwap, amount, env)
  }

  /** What `swapViaKyberswap` adds to the log: the route request, the build
      request once there is a route, and fee settings and the leg once it is built. */
  function KyberTrace(allowance: map<(Address, Address), nat>, amountToSwap: int, env: SwapEnv): (t: seq<Event>)
    ensures |t| >= 1 && t[0] == ApiRequest(KyberRoute(amountToSwap))
  {
    [ApiRequest(KyberRoute(amountToSwap))]
    + match env.kyberRoute
      case HttpOk(Some(route)) => KyberBuildTrace(allowance, route, amountToSwap, env)
      case _ => []
  }

  /** The part of the Kyberswap log from the build request on. */
  function KyberBuildTrace(allowance: map<(Address, Address), nat>, route: RouteSummary, amountToSwap: int,
                           env: SwapEnv): (t: seq<Event>)
    ensures |t| >= 1 && t[0] == ApiRequest(KyberBuild(route.amountOut))
  {
    [ApiRequest(KyberBuild(route.amountOut))]
    + match env.kyberBuild
      case HttpOk(build) =>
        [FeeDataRead(PolygonGasSettings(env.fee))]
        + LegTrace(build.routerAddress, AllowanceIn(allowance, USDC_NATIVE, build.routerAddress), amountToSwap,
                   KyberSwapCall(route, build), PolygonGasSettings(env.fee), env.approval,
                   KyberOutcome(route, build, env.swap))
      case _ => []
  }

  /** The allowances after `swapViaKyberswap`: only a built route reaches the
      leg, and so the approval of the built router. */
  function KyberAllowance(allowance: map<(Address, Address), nat>, amountToSwap: int, env: SwapEnv)
    : (a: map<(Address, Address), nat>)
    ensures !(env.kyberRoute.HttpOk? && env.kyberRoute.body.Some? && env.kyberBuild.HttpOk?) ==> a == allowance
    ensures a == allowance
            || (env.kyberBuild.HttpOk? && a == allowance[(USDC_NATIVE, env.kyberBuild.body.routerAddress) := MAX_UINT256])
  {
    match (env.kyberRoute, env.kyberBuild)
    case (HttpOk(Some(_)), HttpOk(build)) => LegAllowance(allowance, build.routerAddress, amountToSwap, env.approval)
    case _ => allowance
  }

  /** The allowances Kyberswap leaves are those its log explains. */
  lemma KyberAllowanceFollowsLog(allowance: map<(Address, Address), nat>, amountToSwap: int, env: SwapEnv)
    ensures AllowanceFollowsLog(allowance, KyberAllowance(allowance, amountToSwap, env),
                                KyberTrace(allowance, amountToSwap, env))
  {
    var t := KyberTrace(allowance, amountToSwap, env);
    var ask := ApiRequest(KyberRoute(amountToSwap));
    if env.kyberRoute.HttpOk? && env.kyberRoute.body.Some? && env.kyberBuild.HttpOk? {
      var route := env.kyberRoute.body.value;
      var build := env.kyberBuild.body;
      var fees := PolygonGasSettings(env.fee);
      var after := KyberAllowance(allowance, amountToSwap, env);
      var leg := LegTrace(build.routerAddress, AllowanceIn(allowance, USDC_NATIVE, build.routerAddress), amountToSwap,
                          KyberSwapCall(route, build), fees, env.approval, KyberOutcome(route, build, env.swap));
      LegAllowanceFollowsLog(allowance, build.routerAddress, amountToSwap, KyberSwapCall(route, build), fees,
                             env.approval, KyberOutcome(route, build, env.swap));
      AllowanceFollowsLogPrepend(FeeDataRead(fees), leg, allowance, after);
      AllowanceFollowsLogPrepend(ApiRequest(KyberBuild(route.amountOut)), [FeeDataRead(fees)] + leg, allowance, after);
      AllowanceFollowsLogPrepend(ask, [ApiRequest(KyberBuild(route.amountOut))] + ([FeeDataRead(fees)] + leg),
                                 allowance, after);
      assert t == [ask] + ([ApiRequest(KyberBuild(route.amountOut))] + ([FeeDataRead(fees)] + leg));
    } else if env.kyberRoute.HttpOk? && env.kyberRoute.body.Some? {
      assert t == [ask, ApiRequest(KyberBuild(env.kyberRoute.body.value.amountOut))];
    } else {
      assert t == [ask];
    }
  }

  /** The part of `swapViaKyberswap` after the build: fee settings, then the
      leg through the built router. */
  method KyberBuiltSwap(chain: Chain, route: RouteSummary, build: Build, amountToSwap: int, amount: real, env: SwapEnv)
    returns (r: SwapResult)
    modifies chain
    ensures chain.balance == old(chain.balance)
    ensures chain.log == old(chain.log) + [FeeDataRead(PolygonGasSettings(env.fee))]
              + LegTrace(build.routerAddress, old(chain.AllowanceOf(USDC_NATIVE, build.routerAddress)), amountToSwap,
                         KyberSwapCall(route, build), PolygonGasSettings(env.fee), env.approval,
                         KyberOutcome(route, build, env.swap))
    ensures chain.allowance == LegAllowance(old(chain.allowance), build.routerAddress, amountToSwap, env.approval)
    ensures forall i :: |old(chain.log)| <= i < |chain.log| ==> !chain.log[i].ApiRequest?
    ensures r == match LegResult(old(chain.AllowanceOf(USDC_NATIVE, build.routerAddress)), amountToSwap,
                                 env.approval, KyberOutcome(route, build, env.swap))
                 case Ok(hash) => Swapped(amount, FormatUnits(route.amountOut, env.decimals), hash)
                 case Err(message) => SwapFailed(message)
    ensures r.Swapped? ==> chain.log[|chain.log| - 1] == Confirmed(KyberSwapCall(route, build), r.txHash)
  {
    var fees := chain.ReadFeeData(env.fee);
    ghost var current := chain.AllowanceOf(USDC_NATIVE, build.routerAddress);
    var outcome := KyberOutcome(route, build, env.swap);
    var swap := KyberSwapCall(route, build);
    var sent := ApproveAndSwap(chain, build.routerAddress, swap, amountToSwap, fees, env.approval, outcome);
    LegMakesNoRequests(build.routerAddress, current, amountToSwap, swap, fees, env.approval, outcome);
    if sent.Err? {
      return SwapFailed(sent.error);
    }
    LegSuccess(build.routerAddress, current, amountToSwap, swap, fees, env.approval, outcome);
    r := Swapped(amount, FormatUnits(route.amountOut, env.decimals), sent.value);
  }

  /** Requests before a leg do not disturb its authorisation. */
  lemma KyberPrefixAuthorised(trace: seq<Event>, leg: seq<Event>, amountToSwap: int, amountOut: nat, fees: GasSettings)
    requires trace == [ApiRequest(KyberRoute(amountToSwap)), ApiRequest(KyberBuild(amountOut)), FeeDataRead(fees)] + leg
    requires SwapsAuthorised(leg, USDC_NATIVE, amountToSwap)
    ensures SwapsAuthorised(trace, USDC_NATIVE, amountToSwap)
  {
    var afterBuild := [FeeDataRead(fees)] + leg;
    var afterRoute := [ApiRequest(KyberBuild(amountOut))] + afterBuild;
    SwapsAuthorisedPrepend(FeeDataRead(fees), leg, USDC_NATIVE, amountToSwap);
    SwapsAuthorisedPrepend(ApiRequest(KyberBuild(amountOut)), afterBuild, USDC_NATIVE, amountToSwap);
    SwapsAuthorisedPrepend(ApiRequest(KyberRoute(amountToSwap)), afterRoute, USDC_NATIVE, amountToSwap);
    assert trace == [ApiRequest(KyberRoute(amountToSwap))] + afterRoute;
  }

  /** The shape of a Kyberswap trace whose route was built: after the first
      event no route request follows, the second event is the build request,
      and the trace ends where the leg ends. */
  lemma KyberBuiltShape(trace: seq<Event>, leg: seq<Event>, amountToSwap: int, amountOut: nat, fees: GasSettings)
    requires trace == [ApiRequest(KyberRoute(amountToSwap)), ApiRequest(KyberBuild(amountOut)), FeeDataRead(fees)] + leg
    requires forall i :: 0 <= i < |leg| ==> !leg[i].ApiRequest?
    ensures forall i :: 0 < i < |trace| ==> !AsksKyber(trace[i])
    ensures |trace| > 1 && trace[1] == ApiRequest(KyberBuild(amountOut))
    ensures |leg| > 0 ==> trace[|trace| - 1] == leg[|leg| - 1]
  {
    forall i | 0 < i < |trace|
      ensures !AsksKyber(trace[i])
    {
      if i >= 3 {
        assert trace[i] == leg[i - 3];
      }
    }
  }

  /** The local checks before any aggregator is asked: a non-zero balance,
      an amount the token can represent, and no more than the balance. The
      amount to swap in smallest units, or the failure message. */
  function PreCheck(balance: nat, amount: real, decimals: nat): (r: Result<int, string>)
    ensures balance == 0 ==> r == Err(NO_BALANCE)
    ensures balance > 0 && ParseUnits(amount, decimals).Err? ==> r == Err(GasErrorMessage(FRACTION_TOO_LONG))
    ensures balance > 0 && ParseUnits(amount, decimals).Ok? && ParseUnits(amount, decimals).value > balance ==>
              r == Err("Insufficient balance. Have " + FormatUnits(balance, decimals) + " USDC")
    ensures r.Ok? ==> 0 < balance && r.value <= balance && r.value as real == InUnits(amount, decimals)
    ensures balance > 0 && ParseUnits(amount, decimals).Ok? && ParseUnits(amount, decimals).value <= balance ==>
              r == Ok(ParseUnits(amount, decimals).value)
  {
    if balance == 0 then Err(NO_BALANCE)
    else match ParseUnits(amount, decimals)
      // thrown inside the outer `try`, so reported through its catch
      case Err(message) => Err(GasErrorMessage(message))
      case Ok(units) =>
        if units > balance then Err("Insufficient balance. Have " + FormatUnits(balance, decimals) + " USDC")
        else Ok(units)
  }

  /** The 1inch path once a quote is in: fee settings, then the leg through
      the quote's router; a thrown error is reported through the gas mapping. */
  method OneInchSwap(chain: Chain, quote: Quote, amountToSwap: int, amount: real, env: SwapEnv)
    returns (r: SwapResult)
    modifies chain
    ensures chain.balance == old(chain.balance)
    ensures chain.log == old(chain.log) + [FeeDataRead(PolygonGasSettings(env.fee))]
              + LegTrace(quote.to, old(chain.AllowanceOf(USDC_NATIVE, quote.to)), amountToSwap,
                         OneInchSwapCall(quote), PolygonGasSettings(env.fee), env.approval, env.swap)
    ensures chain.allowance == LegAllowance(old(chain.allowance), quote.to, amountToSwap, env.approval)
    ensures SwapsAuthorised(chain.log[|old(chain.log)|..], USDC_NATIVE, amountToSwap)
    ensures r == OneInchResult(old(chain.AllowanceOf(USDC_NATIVE, quote.to)), quote, amountToSwap, amount, env)
  {
    var fees := chain.ReadFeeData(env.fee);
    ghost var afterFees := chain.log;
    var sent := OneInchLeg(chain, quote, amountToSwap, fees, env.approval, env.swap);
    ghost var leg := chain.log[|afterFees|..];
    assert chain.log[|old(chain.log)|..] == [FeeDataRead(fees)] + leg;
    SwapsAuthorisedPrepend(FeeDataRead(fees), leg, USDC_NATIVE, amountToSwap);
    match sent
    case Ok(hash) =>
      r := Swapped(amount, FormatUnits(quote.dstAmount, env.decimals), hash);
    case Err(message) =>
      r := SwapFailed(GasErrorMessage(message));
  }

  /** What the 1inch path reports once a quote is in, where `current` is the
      quote router's allowance. */
  function OneInchResult(current: nat, quote: Quote, amountToSwap: int, amount: real, env: SwapEnv): (r: SwapResult)
    ensures r.Swapped? <==> LegResult(current, amountToSwap, env.approval, env.swap).Ok?
    ensures r.Swapped? ==> r.amountIn == amount && r.amountOut == FormatUnits(quote.dstAmount, env.decimals)
  {
    match LegResult(current, amountToSwap, env.approval, env.swap)
    case Ok(hash) => Swapped(amount, FormatUnits(quote.dstAmount, env.decimals), hash)
    case Err(message) => SwapFailed(GasErrorMessage(message))
  }

  /** What `swapUsdcToUsdce` reports after its local checks, given the
      wallet's allowances when the quote is asked for. */
  function QuoteResult(allowance: map<(Address, Address), nat>, amountToSwap: int, amount: real, env: SwapEnv)
    : (r: SwapResult)
    ensures env.oneInch.HttpThrew? ==> r == SwapFailed(GasErrorMessage(env.oneInch.message))
    ensures env.oneInch.HttpNotOk? ==> r == KyberResult(allowance, amountToSwap, amount, env)
    ensures r.Swapped? ==> r.amountIn == amount
  {
    match env.oneInch
    case HttpThrew(message) => SwapFailed(GasErrorMessage(message))
    case HttpNotOk(_) => KyberResult(allowance, amountToSwap, amount, env)
    case HttpOk(quote) => OneInchResult(AllowanceIn(allowance, USDC_NATIVE, quote.to), quote, amountToSwap, amount, env)
  }

  /** What `swapUsdcToUsdce` adds to the log after its local checks: the
      1inch request, then the Kyberswap fallback or the 1inch path. */
  function QuoteTrace(allowance: map<(Address, Address), nat>, amountToSwap: int, env: SwapEnv): (t: seq<Event>)
    ensures |t| >= 1 && t[0] == ApiRequest(OneInchQuote(amountToSwap))
  {
    [ApiRequest(OneInchQuote(amountToSwap))]
    + match env.oneInch
      case HttpThrew(_) => []
      case HttpNotOk(_) => KyberTrace(allowance, amountToSwap, env)
      case HttpOk(quote) =>
        [FeeDataRead(PolygonGasSettings(env.fee))]
        + LegTrace(quote.to, AllowanceIn(allowance, USDC_NATIVE, quote.to), amountToSwap,
                   OneInchSwapCall(quote), PolygonGasSettings(env.fee), env.approval, env.swap)
  }

  /** The allowances after the local checks: the 1inch path may approve the
      quote's router, the Kyberswap fallback the built router, and a thrown
      1inch request nothing. */
  function QuoteAllowance(allowance: map<(Address, Address), nat>, amountToSwap: int, env: SwapEnv)
    : (a: map<(Address, Address), nat>)
    ensures env.oneInch.HttpThrew? ==> a == allowance
    ensures env.oneInch.HttpNotOk? ==> a == KyberAllowance(allowance, amountToSwap, env)
    ensures env.oneInch.HttpOk? ==>
              a == allowance || a == allowance[(USDC_NATIVE, env.oneInch.body.to) := MAX_UINT256]
  {
    match env.oneInch
    case HttpThrew(_) => allowance
    case HttpNotOk(_) => KyberAllowance(allowance, amountToSwap, env)
    case HttpOk(quote) => LegAllowance(allowance, quote.to, amountToSwap, env.approval)
  }

  /** The allowances left after the local checks are those the log explains. */
  lemma QuoteAllowanceFollowsLog(allowance: map<(Address, Address), nat>, amountToSwap: int, env: SwapEnv)
    ensures AllowanceFollowsLog(allowance, QuoteAllowance(allowance, amountToSwap, env),
                                QuoteTrace(allowance, amountToSwap, env))
  {
    var t := QuoteTrace(allowance, amountToSwap, env);
    var after := QuoteAllowance(allowance, amountToSwap, env);
    var ask := ApiRequest(OneInchQuote(amountToSwap));
    match env.oneInch
    case HttpThrew(_) =>
      assert t == [ask];
    case HttpNotOk(_) =>
      KyberAllowanceFollowsLog(allowance, amountToSwap, env);
      AllowanceFollowsLogPrepend(ask, KyberTrace(allowance, amountToSwap, env), allowance, after);
      assert t == [ask] + KyberTrace(allowance, amountToSwap, env);
    case HttpOk(quote) =>
      var fees := PolygonGasSettings(env.fee);
      var leg := LegTrace(quote.to, AllowanceIn(allowance, USDC_NATIVE, quote.to), amountToSwap,
                          OneInchSwapCall(quote), fees, env.approval, env.swap);
      LegAllowanceFollowsLog(allowance, quote.to, amountToSwap, OneInchSwapCall(quote), fees, env.approval, env.swap);
      AllowanceFollowsLogPrepend(FeeDataRead(fees), leg, allowance, after);
      AllowanceFollowsLogPrepend(ask, [FeeDataRead(fees)] + leg, allowance, after);
      assert t == [ask] + ([FeeDataRead(fees)] + leg);
  }

  /** What the log and result after the local checks mean: Kyberswap is asked
      exactly once, right after the 1inch request, when 1inch answers not ok,
      and never otherwise; every swap is authorised; and a reported swap ends
      the log with its confirmation. */
  lemma QuoteTraceFacts(allowance: map<(Address, Address), nat>, amountToSwap: int, amount: real, env: SwapEnv)
    ensures var t := QuoteTrace(allowance, amountToSwap, env);
            var r := QuoteResult(allowance, amountToSwap, amount, env);
            && (forall i :: 0 <= i < |t| ==> (AsksKyber(t[i]) <==> env.oneInch.HttpNotOk? && i == 1))
            && SwapsAuthorised(t, USDC_NATIVE, amountToSwap)
            && (r.Swapped? ==> t[|t| - 1].Confirmed? && t[|t| - 1].call.SwapCall? && t[|t| - 1].hash == r.txHash)
  {
    var t := QuoteTrace(allowance, amountToSwap, env);
    var ask := ApiRequest(OneInchQuote(amountToSwap));
    match env.oneInch
    case HttpThrew(_) =>
      assert t == [ask];
    case HttpNotOk(_) =>
      var kyber := KyberTrace(allowance, amountToSwap, env);
      assert t == [ask] + kyber;
      KyberTraceFacts(allowance, amountToSwap, amount, env);
      SwapsAuthorisedPrepend(ask, kyber, USDC_NATIVE, amountToSwap);
    case HttpOk(quote) =>
      var current := AllowanceIn(allowance, USDC_NATIVE, quote.to);
      var fees := PolygonGasSettings(env.fee);
      var leg := LegTrace(quote.to, current, amountToSwap, OneInchSwapCall(quote), fees, env.approval, env.swap);
      assert t == [ask] + ([FeeDataRead(fees)] + leg);
      LegMakesNoRequests(quote.to, current, amountToSwap, OneInchSwapCall(quote), fees, env.approval, env.swap);
      LegAuthorised(quote.to, current, amountToSwap, OneInchSwapCall(quote), fees, env.approval, env.swap);
      SwapsAuthorisedPrepend(FeeDataRead(fees), leg, USDC_NATIVE, amountToSwap);
      SwapsAuthorisedPrepend(ask, [FeeDataRead(fees)] + leg, USDC_NATIVE, amountToSwap);
      if QuoteResult(allowance, amountToSwap, amount, env).Swapped? {
        LegSuccess(quote.to, current, amountToSwap, OneInchSwapCall(quote), fees, env.approval, env.swap);
      }
  }

  /** The part of `swapUsdcToUsdce` after the local checks: one 1inch
      request; its answer decides between the 1inch path, the Kyberswap
      fallback and a failure. */
  method QuoteAndSwap(chain: Chain, amountToSwap: int, amount: real, env: SwapEnv) returns (r: SwapResult)
    modifies chain
    ensures chain.balance == old(chain.balance)
    // the whole log and result: the 1inch path on an ok answer, Kyberswap's on one that is not ok
    ensures chain.log == old(chain.log) + QuoteTrace(old(chain.allowance), amountToSwap, env)
    ensures r == QuoteResult(old(chain.allowance), amountToSwap, amount, env)
    // the allowances: at most the approval of the router swapped through, as the log shows
    ensures chain.allowance == QuoteAllowance(old(chain.allowance), amountToSwap, env)
    ensures AllowanceFollowsLog(old(chain.allowance), chain.allowance, chain.log[|old(chain.log)|..])
    ensures env.oneInch.HttpOk? ==>
              r == OneInchResult(old(chain.AllowanceOf(USDC_NATIVE, env.oneInch.body.to)), env.oneInch.body,
                                 amountToSwap, amount, env)
    ensures env.oneInch.HttpNotOk? ==> r == KyberResult(old(chain.allowance), amountToSwap, amount, env)
    ensures |old(chain.log)| < |chain.log| && chain.log[..|old(chain.log)|] == old(chain.log)
    ensures chain.log[|old(chain.log)|] == ApiRequest(OneInchQuote(amountToSwap))
    ensures forall i :: |old(chain.log)| <= i < |chain.log| ==>
              (AsksKyber(chain.log[i]) <==> env.oneInch.HttpNotOk? && i == |old(chain.log)| + 1)
    ensures SwapsAuthorised(chain.log[|old(chain.log)|..], USDC_NATIVE, amountToSwap)
    ensures env.oneInch.HttpThrew? ==> r == SwapFailed(GasErrorMessage(env.oneInch.message))
    ensures r.Swapped? ==> r.amountIn == amount
                           && chain.log[|chain.log| - 1].Confirmed? && chain.log[|chain.log| - 1].call.SwapCall?
                           && chain.log[|chain.log| - 1].hash == r.txHash
  {
    ghost var allowance := chain.allowance;
    r := QuoteRequests(chain, amountToSwap, amount, env);
    assert chain.log[|old(chain.log)|..] == QuoteTrace(allowance, amountToSwap, env);
    QuoteTraceFacts(allowance, amountToSwap, amount, env);
    QuoteAllowanceFollowsLog(allowance, amountToSwap, env);
  }

  /** The steps of `swapUsdcToUsdce` after its local checks, proved against
      the log and result they produce. */
  method QuoteRequests(chain: Chain, amountToSwap: int, amount: real, env: SwapEnv) returns (r: SwapResult)
    modifies chain
    ensures chain.balance == old(chain.balance)
    ensures chain.log == old(chain.log) + QuoteTrace(old(chain.allowance), amountToSwap, env)
    ensures r == QuoteResult(old(chain.allowance), amountToSwap, amount, env)
    ensures chain.allowance == QuoteAllowance(old(chain.allowance), amountToSwap, env)
  {
    ghost var allowance := chain.allowance;
    ghost var request := [ApiRequest(OneInchQuote(amountToSwap))];
    chain.Request(OneInchQuote(amountToSwap));
    match env.oneInch
    case HttpThrew(message) =>
      r := SwapFailed(GasErrorMessage(message));
    case HttpNotOk(_) =>
      r := KyberRequests(chain, amountToSwap, amount, env);
      AppendBoth(old(chain.log), request, KyberTrace(allowance, amountToSwap, env));
    case HttpOk(quote) =>
      ghost var current := chain.AllowanceOf(USDC_NATIVE, quote.to);
      assert current == AllowanceIn(allowance, USDC_NATIVE, quote.to);
      r := OneInchSwap(chain, quote, amountToSwap, amount, env);
      ghost var fees := [FeeDataRead(PolygonGasSettings(env.fee))];
      ghost var leg := LegTrace(quote.to, current, amountToSwap, OneInchSwapCall(quote), PolygonGasSettings(env.fee),
                                env.approval, env.swap);
      AppendBoth(old(chain.log) + request, fees, leg);
      AppendBoth(old(chain.log), request, fees + leg);
  }

  /** `swapUsdcToUsdce`: the balance checks first, then one 1inch request; a
      1inch answer that is not ok hands over to Kyberswap, once. `wallet` is
      the decrypted key's address, or the message decryption threw with. */
  method SwapUsdcToUsdce(chain: Chain, wallet: Result<Address, string>, amount: real, env: SwapEnv)
    returns (r: SwapResult)
    modifies chain
    ensures chain.balance == old(chain.balance)
    // the allowances: unchanged unless the local checks pass, and then as the log shows
    ensures chain.allowance
            == UsdcSwapAllowance(wallet, old(chain.BalanceOf(USDC_NATIVE)), old(chain.allowance), amount, env)
    ensures |old(chain.log)| <= |chain.log| && chain.log[..|old(chain.log)|] == old(chain.log)
    ensures AllowanceFollowsLog(old(chain.allowance), chain.allowance, chain.log[|old(chain.log)|..])
    ensures wallet.Err? ==> r == SwapFailed(GasErrorMessage(wallet.error)) && chain.log == old(chain.log)
    // the balance is the only chain state the model reads before the local
    // checks pass; the token's decimals, also read by the source, are `env.decimals`
    ensures wallet.Ok? && PreCheck(old(chain.BalanceOf(USDC_NATIVE)), amount, env.decimals).Err? ==>
              r == SwapFailed(PreCheck(old(chain.BalanceOf(USDC_NATIVE)), amount, env.decimals).error)
              && chain.log == old(chain.log) + [BalanceRead(USDC_NATIVE, old(chain.BalanceOf(USDC_NATIVE)))]
    ensures wallet.Ok? && PreCheck(old(chain.BalanceOf(USDC_NATIVE)), amount, env.decimals).Ok? ==>
              |chain.log| >= |old(chain.log)| + 2
              && chain.log[|old(chain.log)| + 1]
                 == ApiRequest(OneInchQuote(PreCheck(old(chain.BalanceOf(USDC_NATIVE)), amount, env.decimals).value))
    // Kyberswap is asked exactly once when 1inch answers not ok, and never otherwise
    ensures forall i :: |old(chain.log)| <= i < |chain.log| ==>
              (AsksKyber(chain.log[i]) <==>
                 wallet.Ok? && PreCheck(old(chain.BalanceOf(USDC_NATIVE)), amount, env.decimals).Ok?
                 && env.oneInch.HttpNotOk? && i == |old(chain.log)| + 2)
    ensures wallet.Ok? && PreCheck(old(chain.BalanceOf(USDC_NATIVE)), amount, env.decimals).Ok? ==>
              SwapsAuthorised(chain.log[|old(chain.log)|..], USDC_NATIVE,
                              PreCheck(old(chain.BalanceOf(USDC_NATIVE)), amount, env.decimals).value)
    ensures wallet.Ok? && PreCheck(old(chain.BalanceOf(USDC_NATIVE)), amount, env.decimals).Ok?
            && env.oneInch.HttpThrew? ==>
              r == SwapFailed(GasErrorMessage(env.oneInch.message))
    ensures r.Swapped? ==> r.amountIn == amount && |chain.log| > 0
                           && chain.log[|chain.log| - 1].Confirmed? && chain.log[|chain.log| - 1].call.SwapCall?
                           && chain.log[|chain.log| - 1].hash == r.txHash
    // once the local checks pass: the balance read, then what `QuoteAndSwap` logs and reports
    ensures wallet.Ok? && PreCheck(old(chain.BalanceOf(USDC_NATIVE)), amount, env.decimals).Ok? ==>
              && chain.log == old(chain.log) + [BalanceRead(USDC_NATIVE, old(chain.BalanceOf(USDC_NATIVE)))]
                 + QuoteTrace(old(chain.allowance), PreCheck(old(chain.BalanceOf(USDC_NATIVE)), amount, env.decimals).value, env)
              && r == QuoteResult(old(chain.allowance), PreCheck(old(chain.BalanceOf(USDC_NATIVE)), amount, env.decimals).value,
                                  amount, env)
  {
    ghost var balance := chain.BalanceOf(USDC_NATIVE);
    ghost var allowance := chain.allowance;
    r := UsdcSwapSteps(chain, wallet, amount, env);
    UsdcSwapFacts(old(chain.log), wallet, balance, allowance, amount, env);
    UsdcSwapAllowanceFollowsLog(wallet, balance, allowance, amount, env);
  }

  /** What `swapUsdcToUsdce` adds to the log, given the wallet's balance and
      allowances when it starts: nothing when there is no key, the balance
      read, and after the local checks what follows the 1inch request. */
  function UsdcSwapTrace(wallet: Result<Address, string>, balance: nat, allowance: map<(Address, Address), nat>,
                         amount: real, env: SwapEnv): seq<Event>
  {
    if wallet.Err? then []
    else
      [BalanceRead(USDC_NATIVE, balance)]
      + match PreCheck(balance, amount, env.decimals)
        case Err(_) => []
        case Ok(amountToSwap) => QuoteTrace(allowance, amountToSwap, env)
  }

  /** What `swapUsdcToUsdce` reports, given the same starting state. */
  function UsdcSwapResult(wallet: Result<Address, string>, balance: nat, allowance: map<(Address, Address), nat>,
                          amount: real, env: SwapEnv): (r: SwapResult)
    ensures wallet.Err? ==> r == SwapFailed(GasErrorMessage(wallet.error))
    ensures wallet.Ok? && PreCheck(balance, amount, env.decimals).Err? ==>
              r == SwapFailed(PreCheck(balance, amount, env.decimals).error)
  {
    if wallet.Err? then SwapFailed(GasErrorMessage(wallet.error))
    else match PreCheck(balance, amount, env.decimals)
      case Err(message) => SwapFailed(message)
      case Ok(amountToSwap) => QuoteResult(allowance, amountToSwap, amount, env)
  }

  /** The allowances `swapUsdcToUsdce` leaves, given the same starting state:
      unchanged unless the local checks pass. */
  function UsdcSwapAllowance(wallet: Result<Address, string>, balance: nat, allowance: map<(Address, Address), nat>,
                             amount: real, env: SwapEnv): (a: map<(Address, Address), nat>)
    ensures wallet.Err? || PreCheck(balance, amount, env.decimals).Err? ==> a == allowance
    ensures wallet.Ok? && PreCheck(balance, amount, env.decimals).Ok? ==>
              a == QuoteAllowance(allowance, PreCheck(balance, amount, env.decimals).value, env)
  {
    if wallet.Err? then allowance
    else match PreCheck(balance, amount, env.decimals)
      case Err(_) => allowance
      case Ok(amountToSwap) => QuoteAllowance(allowance, amountToSwap, env)
  }

  /** The allowances `swapUsdcToUsdce` leaves are those its log explains. */
  lemma UsdcSwapAllowanceFollowsLog(wallet: Result<Address, string>, balance: nat,
                                    allowance: map<(Address, Address), nat>, amount: real, env: SwapEnv)
    ensures AllowanceFollowsLog(allowance, UsdcSwapAllowance(wallet, balance, allowance, amount, env),
                                UsdcSwapTrace(wallet, balance, allowance, amount, env))
  {
    var t := UsdcSwapTrace(wallet, balance, allowance, amount, env);
    var checked := PreCheck(balance, amount, env.decimals);
    var read := BalanceRead(USDC_NATIVE, balance);
    if wallet.Ok? && checked.Ok? {
      var rest := QuoteTrace(allowance, checked.value, env);
      QuoteAllowanceFollowsLog(allowance, checked.value, env);
      AllowanceFollowsLogPrepend(read, rest, allowance, UsdcSwapAllowance(wallet, balance, allowance, amount, env));
      assert t == [read] + rest;
    } else if wallet.Ok? {
      assert t == [read];
    }
  }

  /** What the log after `swapUsdcToUsdce` and its result mean, for a log
      `log` before it: nothing is appended without a key; only the balance
      read when the local checks fail; otherwise the 1inch request follows the
      balance read, Kyberswap is asked exactly once, right after it, when
      1inch answers not ok, and never otherwise, every swap is authorised,
      and a reported swap ends the log with its confirmation. */
  lemma UsdcSwapFacts(log: seq<Event>, wallet: Result<Address, string>, balance: nat,
                      allowance: map<(Address, Address), nat>, amount: real, env: SwapEnv)
    ensures var after := log + UsdcSwapTrace(wallet, balance, allowance, amount, env);
            var r := UsdcSwapResult(wallet, balance, allowance, amount, env);
            var checked := PreCheck(balance, amount, env.decimals);
            && |log| <= |after| && after[..|log|] == log
            && (wallet.Err? ==> after == log)
            && (wallet.Ok? && checked.Err? ==> after == log + [BalanceRead(USDC_NATIVE, balance)])
            && (wallet.Ok? && checked.Ok? ==>
                  && after == log + [BalanceRead(USDC_NATIVE, balance)] + QuoteTrace(allowance, checked.value, env)
                  && r == QuoteResult(allowance, checked.value, amount, env)
                  && |after| >= |log| + 2 && after[|log| + 1] == ApiRequest(OneInchQuote(checked.value))
                  && SwapsAuthorised(after[|log|..], USDC_NATIVE, checked.value))
            && (forall i :: |log| <= i < |after| ==>
                  (AsksKyber(after[i]) <==> wallet.Ok? && checked.Ok? && env.oneInch.HttpNotOk? && i == |log| + 2))
            && (r.Swapped? ==> r.amountIn == amount && |after| > 0 && after[|after| - 1].Confirmed?
                               && after[|after| - 1].call.SwapCall? && after[|after| - 1].hash == r.txHash)
  {
    var t := UsdcSwapTrace(wallet, balance, allowance, amount, env);
    var checked := PreCheck(balance, amount, env.decimals);
    AppendedPart(log, t);
    if wallet.Ok? && checked.Ok? {
      var read := BalanceRead(USDC_NATIVE, balance);
      var rest := QuoteTrace(allowance, checked.value, env);
      assert t == [read] + rest;
      AppendBoth(log, [read], rest);
      QuoteTraceFacts(allowance, checked.value, amount, env);
      AfterBalanceRead(log, read, rest, checked.value, env.oneInch.HttpNotOk?,
                       QuoteResult(allowance, checked.value, amount, env));
    }
  }

  /** The facts about a trace that starts with the 1inch request carry over,
      shifted, to a log extended by a balance read and then that trace. */
  lemma AfterBalanceRead(log: seq<Event>, read: Event, rest: seq<Event>, amountToSwap: int, kyber: bool, r: SwapResult)
    requires read.BalanceRead?
    requires |rest| >= 1 && rest[0] == ApiRequest(OneInchQuote(amountToSwap))
    requires forall i :: 0 <= i < |rest| ==> (AsksKyber(rest[i]) <==> kyber && i == 1)
    requires SwapsAuthorised(rest, USDC_NATIVE, amountToSwap)
    requires r.Swapped? ==> rest[|rest| - 1].Confirmed? && rest[|rest| - 1].call.SwapCall?
                            && rest[|rest| - 1].hash == r.txHash
    ensures var after := log + [read] + rest;
            && |after| >= |log| + 2 && after[|log| + 1] == ApiRequest(OneInchQuote(amountToSwap))
            && SwapsAuthorised(after[|log|..], USDC_NATIVE, amountToSwap)
            && (forall i :: |log| <= i < |after| ==> (AsksKyber(after[i]) <==> kyber && i == |log| + 2))
            && (r.Swapped? ==> after[|after| - 1].Confirmed? && after[|after| - 1].call.SwapCall?
                               && after[|after| - 1].hash == r.txHash)
  {
    var after := log + [read] + rest;
    assert after[|log|..] == [read] + rest;
    SwapsAuthorisedPrepend(read, rest, USDC_NATIVE, amountToSwap);
    forall i | |log| <= i < |after|
      ensures AsksKyber(after[i]) <==> kyber && i == |log| + 2
    {
      if i > |log| {
        assert after[i] == rest[i - |log| - 1];
      }
    }
  }

  /** The steps of `swapUsdcToUsdce`, proved against the log and result they produce. */
  method UsdcSwapSteps(chain: Chain, wallet: Result<Address, string>, amount: real, env: SwapEnv)
    returns (r: SwapResult)
    modifies chain
    ensures chain.balance == old(chain.balance)
    ensures chain.log == old(chain.log)
              + UsdcSwapTrace(wallet, old(chain.BalanceOf(USDC_NATIVE)), old(chain.allowance), amount, env)
    ensures r == UsdcSwapResult(wallet, old(chain.BalanceOf(USDC_NATIVE)), old(chain.allowance), amount, env)
    ensures chain.allowance
            == UsdcSwapAllowance(wallet, old(chain.BalanceOf(USDC_NATIVE)), old(chain.allowance), amount, env)
  {
    if wallet.Err? {
      return SwapFailed(GasErrorMessage(wallet.error));
    }
    ghost var allowance := chain.allowance;
    var balance := chain.ReadBalance(USDC_NATIVE);
    var checked := PreCheck(balance, amount, env.decimals);
    if checked.Err? {
      return SwapFailed(checked.error);
    }
    AppendBoth(old(chain.log), [BalanceRead(USDC_NATIVE, balance)], QuoteTrace(allowance, checked.value, env));
    r := QuoteAndSwap(chain, checked.value, amount, env);
  }
}
