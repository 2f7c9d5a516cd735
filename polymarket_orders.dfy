/** The venue's approve-then-trade flow (`ensurePolymarketApprovals` and
    `placePolymarketOrder` in `src/services/polymarket.ts`). `wallet` is the
    address of the decrypted key, or the message decryption or key parsing
    threw with (`KeyVault.AccountFromEncryptedKey`). */
module PolymarketOrders {
  import opened Common
  import opened GasOracle
  import opened Ledger
  import CredentialCache

  datatype ApprovalResult = Approved(txHash: Option<string>) | ApprovalFailed(error: string)

  /** A new unlimited USDC.e approval of the exchange. */
  const EXCHANGE_APPROVAL: Call := ApproveCall(USDC_BRIDGED, CTF_EXCHANGE, MAX_UINT256)

  /** Whether `trace` shows the exchange holding an unlimited USDC.e allowance. */
  predicate ExchangeApproved(trace: seq<Event>) {
    exists j :: 0 <= j < |trace| && Grants(trace[j], USDC_BRIDGED, CTF_EXCHANGE, MAX_UINT256)
  }

  /** What `ensurePolymarketApprovals` adds to the log, where `current` is the
      exchange's USDC.e allowance: nothing without a key; the allowance read;
      and, unless it is unlimited, the fee settings and the approval. */
  function ApprovalTrace(wallet: Result<Address, string>, current: nat, fee: FeeData, outcome: TxOutcome)
    : (t: seq<Event>)
    ensures forall i :: 0 <= i < |t| ==> !t[i].ApiRequest?
  {
    if wallet.Err? then []
    else if current == MAX_UINT256 then [AllowanceRead(USDC_BRIDGED, CTF_EXCHANGE, MAX_UINT256)]
    else [AllowanceRead(USDC_BRIDGED, CTF_EXCHANGE, current), FeeDataRead(PolygonGasSettings(fee))]
         + TxEvents(EXCHANGE_APPROVAL, PolygonGasSettings(fee), outcome)
  }

  /** The allowances after `ensurePolymarketApprovals`: the exchange's
      approval takes effect when it was needed and mined. */
  function ApprovalAllowance(wallet: Result<Address, string>, allowance: map<(Address, Address), nat>,
                             outcome: TxOutcome): (a: map<(Address, Address), nat>)
    ensures a == allowance || a == allowance[(USDC_BRIDGED, CTF_EXCHANGE) := MAX_UINT256]
    ensures wallet.Err? || !outcome.Mines? ==> a == allowance
    ensures wallet.Ok? && (AllowanceIn(allowance, USDC_BRIDGED, CTF_EXCHANGE) == MAX_UINT256 || outcome.Mines?) ==>
              AllowanceIn(a, USDC_BRIDGED, CTF_EXCHANGE) == MAX_UINT256
  {
    if wallet.Ok? && AllowanceIn(allowance, USDC_BRIDGED, CTF_EXCHANGE) != MAX_UINT256 && outcome.Mines?
    then Apply(allowance, EXCHANGE_APPROVAL)
    else allowance
  }

  /** The allowances the approval step leaves are those its log explains. */
  lemma ApprovalAllowanceFollowsLog(wallet: Result<Address, string>, allowance: map<(Address, Address), nat>,
                                    fee: FeeData, outcome: TxOutcome)
    ensures AllowanceFollowsLog(allowance, ApprovalAllowance(wallet, allowance, outcome),
                                ApprovalTrace(wallet, AllowanceIn(allowance, USDC_BRIDGED, CTF_EXCHANGE), fee, outcome))
  {
    var current := AllowanceIn(allowance, USDC_BRIDGED, CTF_EXCHANGE);
    var t := ApprovalTrace(wallet, current, fee, outcome);
    var after := ApprovalAllowance(wallet, allowance, outcome);
    if wallet.Ok? && current != MAX_UINT256 && outcome.Mines? {
      assert t[3] == Confirmed(EXCHANGE_APPROVAL, outcome.hash);
      forall token: Address, spender: Address | AllowanceIn(after, token, spender) != AllowanceIn(allowance, token, spender)
        ensures exists j :: 0 <= j < |t| && t[j].Confirmed?
                            && t[j].call == ApproveCall(token, spender, AllowanceIn(after, token, spender))
      {
        assert (token, spender) == (USDC_BRIDGED, CTF_EXCHANGE);
        assert t[3].call == ApproveCall(token, spender, AllowanceIn(after, token, spender));
      }
      forall j | 0 <= j < |t| && t[j].Confirmed? && t[j].call.ApproveCall?
        ensures AllowanceIn(after, t[j].call.token, t[j].call.spender) == t[j].call.amount
      {
        assert j == 3;
      }
    } else {
      assert after == allowance;
      forall j | 0 <= j < |t|
        ensures !t[j].Confirmed?
      {
        assert j < 3;
      }
    }
  }

  /** `ensurePolymarketApprovals`: nothing is sent when the exchange already
      holds an unlimited allowance; otherwise one unlimited approval is sent
      with the Polygon fee settings and waited for. */
  method EnsurePolymarketApprovals(chain: Chain, wallet: Result<Address, string>, fee: FeeData, outcome: TxOutcome)
    returns (r: ApprovalResult)
    modifies chain
    ensures chain.balance == old(chain.balance)
    ensures wallet.Err? ==> r == ApprovalFailed(GasErrorMessage(wallet.error))
                            && chain.log == old(chain.log) && chain.allowance == old(chain.allowance)
    ensures wallet.Ok? && old(chain.AllowanceOf(USDC_BRIDGED, CTF_EXCHANGE)) == MAX_UINT256 ==>
              r == Approved(None) && chain.allowance == old(chain.allowance)
              && chain.log == old(chain.log) + [AllowanceRead(USDC_BRIDGED, CTF_EXCHANGE, MAX_UINT256)]
    ensures wallet.Ok? && old(chain.AllowanceOf(USDC_BRIDGED, CTF_EXCHANGE)) != MAX_UINT256 ==>
              && chain.log == old(chain.log)
                   + [AllowanceRead(USDC_BRIDGED, CTF_EXCHANGE, old(chain.AllowanceOf(USDC_BRIDGED, CTF_EXCHANGE))),
                      FeeDataRead(PolygonGasSettings(fee))]
                   + TxEvents(EXCHANGE_APPROVAL, PolygonGasSettings(fee), outcome)
              && r == (if outcome.Mines? then Approved(Some(outcome.hash)) else ApprovalFailed(GasErrorMessage(outcome.message)))
              && chain.allowance == (if outcome.Mines? then Apply(old(chain.allowance), EXCHANGE_APPROVAL) else old(chain.allowance))
    // the whole log and the new allowances, which the log explains
    ensures chain.log == old(chain.log)
              + ApprovalTrace(wallet, old(chain.AllowanceOf(USDC_BRIDGED, CTF_EXCHANGE)), fee, outcome)
    ensures chain.allowance == ApprovalAllowance(wallet, old(chain.allowance), outcome)
    ensures AllowanceFollowsLog(old(chain.allowance), chain.allowance, chain.log[|old(chain.log)|..])
    ensures |old(chain.log)| <= |chain.log| && chain.log[..|old(chain.log)|] == old(chain.log)
    ensures forall i :: |old(chain.log)| <= i < |chain.log| ==> !chain.log[i].ApiRequest?
    // success only once the exchange is shown to hold an unlimited allowance
    ensures r.Approved? ==> chain.AllowanceOf(USDC_BRIDGED, CTF_EXCHANGE) == MAX_UINT256
                            && ExchangeApproved(chain.log[|old(chain.log)|..])
  {
    ApprovalAllowanceFollowsLog(wallet, chain.allowance, fee, outcome);
    if wallet.Err? {
      return ApprovalFailed(GasErrorMessage(wallet.error));
    }
    ghost var start := |chain.log|;
    var current := chain.ReadAllowance(USDC_BRIDGED, CTF_EXCHANGE);
    if current == MAX_UINT256 {
      assert Grants(chain.log[start..][0], USDC_BRIDGED, CTF_EXCHANGE, MAX_UINT256);
      return Approved(None);
    }
    var settings := chain.ReadFeeData(fee);
    var sent := chain.SendAndWait(EXCHANGE_APPROVAL, settings, outcome);
    if sent.Err? {
      return ApprovalFailed(GasErrorMessage(sent.error));
    }
    assert Grants(chain.log[start..][3], USDC_BRIDGED, CTF_EXCHANGE, MAX_UINT256);
    r := Approved(Some(sent.value));
  }

  /** What `createAndPostMarketOrder` answered. */
  datatype PostResponse = PostResponse(success: bool, orderID: string, errorMsg: string)

  datatype OrderResult = Placed(orderId: string) | OrderFailed(error: string)

  const ORDER_NOT_FILLED: string := "Order not filled"
  const UNKNOWN_ERROR: string := "Unknown error"
  const NOT_TRADEABLE: string := "Market not tradeable on CLOB. It may be closed or not active. Try a different market."

  /** The answer of a post that did not throw. */
  function PostOutcome(response: PostResponse): (r: OrderResult)
    ensures r.Placed? <==> response.success
    ensures r.Placed? ==> r.orderId == response.orderID
    ensures !response.success && response.errorMsg != "" ==> r == OrderFailed(response.errorMsg)
    ensures !response.success && response.errorMsg == "" ==> r == OrderFailed(ORDER_NOT_FILLED)
  {
    if response.success then Placed(response.orderID)
    else OrderFailed(if response.errorMsg != "" then response.errorMsg else ORDER_NOT_FILLED)
  }

  /** The report for an error caught while getting the client or posting. */
  function OrderErrorMessage(message: string): (m: string)
    ensures Contains(message, "market not found") || Contains(message, "toString") ==> m == NOT_TRADEABLE
    ensures message == "" ==> m == UNKNOWN_ERROR
    ensures message != "" && !Contains(message, "market not found") && !Contains(message, "toString") ==> m == message
  {
    // `error?.message || 'Unknown error'`; the fallback text matches neither pattern
    if message == "" then UNKNOWN_ERROR
    else if Contains(message, "market not found") || Contains(message, "toString") then NOT_TRADEABLE
    else message
  }

  /** An order posted after the approval step is authorised when it is a
      SELL, or when that step showed the exchange approved. */
  lemma PostAfterApproval(approvalTrace: seq<Event>, posted: seq<Event>)
    requires forall i :: 0 <= i < |approvalTrace| ==> !approvalTrace[i].ApiRequest?
    requires |posted| <= 1
    requires forall i :: 0 <= i < |posted| ==>
               posted[i].ApiRequest? && posted[i].api.ClobOrder? && (posted[i].api.side == Buy ==> ExchangeApproved(approvalTrace))
    ensures BuysAuthorised(approvalTrace + posted)
  {
    var t := approvalTrace + posted;
    forall i | 0 <= i < |t| && t[i].ApiRequest? && t[i].api.ClobOrder? && t[i].api.side == Buy
      ensures exists j :: 0 <= j < i && Grants(t[j], USDC_BRIDGED, CTF_EXCHANGE, MAX_UINT256)
    {
      assert i == |approvalTrace| && t[i] == posted[0];
      var j :| 0 <= j < |approvalTrace| && Grants(approvalTrace[j], USDC_BRIDGED, CTF_EXCHANGE, MAX_UINT256);
      assert t[j] == approvalTrace[j];
    }
  }

  /** The part of `placePolymarketOrder` after the approval step: get the
      CLOB client, post a fill-or-kill market order, report its answer. */
  method PostMarketOrder(chain: Chain, cache: CredentialCache.Cache, wallet: Result<Address, string>,
                         derive: Fetch<CredentialCache.ApiCreds>, tokenId: string, side: Side, amount: real,
                         post: Fetch<PostResponse>)
    returns (r: OrderResult, posted: bool)
    modifies chain, cache
    ensures chain.balance == old(chain.balance) && chain.allowance == old(chain.allowance)
    ensures chain.log == old(chain.log) + (if posted then [ApiRequest(ClobOrder(tokenId, side, amount))] else [])
    ensures wallet.Err? ==> !posted && r == OrderFailed(OrderErrorMessage(wallet.error)) && cache.entries == old(cache.entries)
    ensures posted && post.Threw? ==> r == OrderFailed(OrderErrorMessage(post.message))
    ensures posted && post.Got? ==> r == PostOutcome(post.value)
    ensures r.Placed? ==> posted
    // the order is posted exactly when the credential cache yields a client
    ensures wallet.Ok? ==>
              var s := CredentialCache.Lookup(old(cache.entries), wallet.value, derive);
              && cache.entries == s.entries
              && (posted <==> s.result.Ok?)
              && (!posted ==> r == OrderFailed(OrderErrorMessage(s.result.error)))
  {
    var client, _ := cache.GetClobClient(wallet, derive);
    if client.Err? {
      return OrderFailed(OrderErrorMessage(client.error)), false;
    }
    chain.Request(ClobOrder(tokenId, side, amount));
    posted := true;
    match post
    case Threw(message) =>
      r := OrderFailed(OrderErrorMessage(message));
    case Got(response) =>
      r := PostOutcome(response);
  }

  /** Whether the approval step of `placePolymarketOrder` lets the order go
      on, where `current` is the exchange's USDC.e allowance: always for a
      SELL; for a BUY, with a key and an allowance that is unlimited or an
      approval that mines. */
  predicate ApprovalPasses(side: Side, wallet: Result<Address, string>, current: nat, approval: TxOutcome) {
    side == Sell || (wallet.Ok? && (current == MAX_UINT256 || approval.Mines?))
  }

  /** Whether `placePolymarketOrder` posts its order: the approval step
      passes, and the credential cache yields a client for the key. */
  predicate OrderPosted(side: Side, wallet: Result<Address, string>, current: nat, approval: TxOutcome,
                        entries: map<Address, CredentialCache.ApiCreds>, derive: Fetch<CredentialCache.ApiCreds>)
  {
    ApprovalPasses(side, wallet, current, approval) && wallet.Ok?
    && CredentialCache.Lookup(entries, wallet.value, derive).result.Ok?
  }

  /** The approval step of `placePolymarketOrder`: only a BUY needs the
      exchange approved; the failure message, if the approval failed. */
  method ApproveForSide(chain: Chain, side: Side, wallet: Result<Address, string>, fee: FeeData, approval: TxOutcome)
    returns (failure: Option<string>)
    modifies chain
    ensures chain.balance == old(chain.balance)
    // a BUY logs and approves what `ensurePolymarketApprovals` does; a SELL does nothing
    ensures chain.log == old(chain.log)
              + (if side == Buy then ApprovalTrace(wallet, old(chain.AllowanceOf(USDC_BRIDGED, CTF_EXCHANGE)), fee, approval)
                 else [])
    ensures chain.allowance
            == (if side == Buy then ApprovalAllowance(wallet, old(chain.allowance), approval) else old(chain.allowance))
    ensures failure.None? <==> ApprovalPasses(side, wallet, old(chain.AllowanceOf(USDC_BRIDGED, CTF_EXCHANGE)), approval)
    ensures |old(chain.log)| <= |chain.log| && chain.log[..|old(chain.log)|] == old(chain.log)
    ensures forall i :: |old(chain.log)| <= i < |chain.log| ==> !chain.log[i].ApiRequest?
    ensures side == Sell ==> failure.None? && chain.log == old(chain.log)
    ensures side == Buy && failure.None? ==> ExchangeApproved(chain.log[|old(chain.log)|..])
    ensures side == Buy && wallet.Err? ==> failure == Some(GasErrorMessage(wallet.error)) && chain.log == old(chain.log)
    ensures side == Buy && wallet.Ok? && old(chain.AllowanceOf(USDC_BRIDGED, CTF_EXCHANGE)) != MAX_UINT256
            && !approval.Mines?
            ==> failure == Some(GasErrorMessage(approval.message))
    ensures side == Buy && wallet.Ok?
            && (old(chain.AllowanceOf(USDC_BRIDGED, CTF_EXCHANGE)) == MAX_UINT256 || approval.Mines?)
            ==> failure.None?
  {
    if side == Buy {
      var approved := EnsurePolymarketApprovals(chain, wallet, fee, approval);
      if approved.ApprovalFailed? {
        return Some(approved.error);
      }
    }
    failure := None;
  }

  /** An approval step that passes for a BUY shows the exchange approved:
      the unlimited allowance read, or the approval's confirmation. */
  lemma ApprovalTraceGrants(wallet: Result<Address, string>, current: nat, fee: FeeData, outcome: TxOutcome)
    requires wallet.Ok? && (current == MAX_UINT256 || outcome.Mines?)
    ensures ExchangeApproved(ApprovalTrace(wallet, current, fee, outcome))
  {
    var t := ApprovalTrace(wallet, current, fee, outcome);
    if current == MAX_UINT256 {
      assert Grants(t[0], USDC_BRIDGED, CTF_EXCHANGE, MAX_UINT256);
    } else {
      assert Grants(t[3], USDC_BRIDGED, CTF_EXCHANGE, MAX_UINT256);
    }
  }

  /** What `placePolymarketOrder` adds to the log, where `current` is the
      exchange's USDC.e allowance and `entries` the credential cache when it
      starts: a BUY's approval step, then the order if it is posted. */
  function OrderTrace(side: Side, wallet: Result<Address, string>, current: nat, fee: FeeData, approval: TxOutcome,
                      entries: map<Address, CredentialCache.ApiCreds>, derive: Fetch<CredentialCache.ApiCreds>,
                      tokenId: string, amount: real): seq<Event>
  {
    (if side == Buy then ApprovalTrace(wallet, current, fee, approval) else [])
    + (if OrderPosted(side, wallet, current, approval, entries, derive)
       then [ApiRequest(ClobOrder(tokenId, side, amount))] else [])
  }

  /** The allowances `placePolymarketOrder` leaves: a BUY's approval step
      may approve the exchange; a SELL changes nothing. */
  function OrderAllowance(side: Side, wallet: Result<Address, string>, allowance: map<(Address, Address), nat>,
                          approval: TxOutcome): (a: map<(Address, Address), nat>)
    ensures side == Sell || wallet.Err? || !approval.Mines? ==> a == allowance
    ensures a == allowance || a == allowance[(USDC_BRIDGED, CTF_EXCHANGE) := MAX_UINT256]
  {
    if side == Buy then ApprovalAllowance(wallet, allowance, approval) else allowance
  }

  /** The credential cache `placePolymarketOrder` leaves: looked up only
      once the approval step passes with a key. */
  function OrderEntries(side: Side, wallet: Result<Address, string>, current: nat, approval: TxOutcome,
                        entries: map<Address, CredentialCache.ApiCreds>, derive: Fetch<CredentialCache.ApiCreds>)
    : map<Address, CredentialCache.ApiCreds>
  {
    if ApprovalPasses(side, wallet, current, approval) && wallet.Ok?
    then CredentialCache.Lookup(entries, wallet.value, derive).entries
    else entries
  }

  /** What `placePolymarketOrder` reports, given the same starting state. */
  function OrderReport(side: Side, wallet: Result<Address, string>, current: nat, approval: TxOutcome,
                       entries: map<Address, CredentialCache.ApiCreds>, derive: Fetch<CredentialCache.ApiCreds>,
                       post: Fetch<PostResponse>): (r: OrderResult)
    ensures r.Placed? ==> OrderPosted(side, wallet, current, approval, entries, derive)
                          && post.Got? && post.value.success && r.orderId == post.value.orderID
  {
    if !ApprovalPasses(side, wallet, current, approval) then
      OrderFailed("Approval failed: " + GasErrorMessage(if wallet.Err? then wallet.error else approval.message))
    else if wallet.Err? then OrderFailed(OrderErrorMessage(wallet.error))
    else match CredentialCache.Lookup(entries, wallet.value, derive).result
      case Err(message) => OrderFailed(OrderErrorMessage(message))
      case Ok(_) =>
        match post
        case Got(response) => PostOutcome(response)
        case Threw(message) => OrderFailed(OrderErrorMessage(message))
  }

  /** `placePolymarketOrder`: a BUY first makes sure the exchange may spend
      USDC.e; then the CLOB client is obtained from the credential cache and
      a fill-or-kill market order is posted. `derive` is what deriving API
      credentials gives on a cache miss and `post` what posting the order
      gives. */
  method PlacePolymarketOrder(chain: Chain, cache: CredentialCache.Cache, wallet: Result<Address, string>,
                              derive: Fetch<CredentialCache.ApiCreds>, fee: FeeData, approval: TxOutcome,
                              tokenId: string, side: Side, amount: real, post: Fetch<PostResponse>)
    returns (r: OrderResult)
    modifies chain, cache
    ensures chain.balance == old(chain.balance)
    // the whole log, the new allowances and cache, and the report
    ensures chain.log == old(chain.log)
              + OrderTrace(side, wallet, old(chain.AllowanceOf(USDC_BRIDGED, CTF_EXCHANGE)), fee, approval,
                           old(cache.entries), derive, tokenId, amount)
    ensures chain.allowance == OrderAllowance(side, wallet, old(chain.allowance), approval)
    ensures cache.entries
            == OrderEntries(side, wallet, old(chain.AllowanceOf(USDC_BRIDGED, CTF_EXCHANGE)), approval,
                            old(cache.entries), derive)
    ensures r == OrderReport(side, wallet, old(chain.AllowanceOf(USDC_BRIDGED, CTF_EXCHANGE)), approval,
                             old(cache.entries), derive, post)
    ensures |old(chain.log)| <= |chain.log| && chain.log[..|old(chain.log)|] == old(chain.log)
    // a BUY is posted only once the exchange may spend USDC.e
    ensures BuysAuthorised(chain.log[|old(chain.log)|..])
    // a failed approval posts nothing and touches no credentials
    ensures side == Buy && wallet.Err? ==>
              r == OrderFailed("Approval failed: " + GasErrorMessage(wallet.error))
              && chain.log == old(chain.log) && cache.entries == old(cache.entries)
    ensures side == Buy && wallet.Ok? && old(chain.AllowanceOf(USDC_BRIDGED, CTF_EXCHANGE)) != MAX_UINT256
            && !approval.Mines? ==>
              r == OrderFailed("Approval failed: " + GasErrorMessage(approval.message))
              && cache.entries == old(cache.entries)
              && forall i :: |old(chain.log)| <= i < |chain.log| ==> !chain.log[i].ApiRequest?
    // a SELL sends no transaction, reads no allowance and approves nothing
    ensures side == Sell ==> chain.allowance == old(chain.allowance)
                             && forall i :: |old(chain.log)| <= i < |chain.log| ==>
                                  chain.log[i] == ApiRequest(ClobOrder(tokenId, side, amount))
    // a placed order was accepted by the venue
    ensures r.Placed? ==> post.Got? && post.value.success && r.orderId == post.value.orderID
                          && |chain.log| > |old(chain.log)|
                          && chain.log[|chain.log| - 1] == ApiRequest(ClobOrder(tokenId, side, amount))
    // once the approval step passes, the credential lookup decides whether the
    // order is posted, and the venue's answer decides the report
    ensures wallet.Ok?
            && (side == Sell || old(chain.AllowanceOf(USDC_BRIDGED, CTF_EXCHANGE)) == MAX_UINT256 || approval.Mines?) ==>
              var s := CredentialCache.Lookup(old(cache.entries), wallet.value, derive);
              && cache.entries == s.entries
              && (s.result.Err? ==> r == OrderFailed(OrderErrorMessage(s.result.error))
                                    && forall i :: |old(chain.log)| <= i < |chain.log| ==> !chain.log[i].ApiRequest?)
              && (s.result.Ok? ==>
                    && r == (if post.Got? then PostOutcome(post.value) else OrderFailed(OrderErrorMessage(post.message)))
                    && |chain.log| > |old(chain.log)|
                    && chain.log[|chain.log| - 1] == ApiRequest(ClobOrder(tokenId, side, amount))
                    && forall i :: |old(chain.log)| <= i < |chain.log| - 1 ==> !chain.log[i].ApiRequest?)
    ensures side == Sell && wallet.Err? ==>
              r == OrderFailed(OrderErrorMessage(wallet.error)) && chain.log == old(chain.log)
              && cache.entries == old(cache.entries)
  {
    ghost var current := chain.AllowanceOf(USDC_BRIDGED, CTF_EXCHANGE);
    ghost var entries := cache.entries;
    r := PlaceOrderSteps(chain, cache, wallet, derive, fee, approval, tokenId, side, amount, post);
    OrderFacts(old(chain.log), side, wallet, current, fee, approval, entries, derive, tokenId, amount, post);
  }

  /** The steps of `placePolymarketOrder`, proved against the log, state and
      report they produce. */
  method PlaceOrderSteps(chain: Chain, cache: CredentialCache.Cache, wallet: Result<Address, string>,
                         derive: Fetch<CredentialCache.ApiCreds>, fee: FeeData, approval: TxOutcome,
                         tokenId: string, side: Side, amount: real, post: Fetch<PostResponse>)
    returns (r: OrderResult)
    modifies chain, cache
    ensures chain.balance == old(chain.balance)
    ensures chain.log == old(chain.log)
              + OrderTrace(side, wallet, old(chain.AllowanceOf(USDC_BRIDGED, CTF_EXCHANGE)), fee, approval,
                           old(cache.entries), derive, tokenId, amount)
    ensures chain.allowance == OrderAllowance(side, wallet, old(chain.allowance), approval)
    ensures cache.entries
            == OrderEntries(side, wallet, old(chain.AllowanceOf(USDC_BRIDGED, CTF_EXCHANGE)), approval,
                            old(cache.entries), derive)
    ensures r == OrderReport(side, wallet, old(chain.AllowanceOf(USDC_BRIDGED, CTF_EXCHANGE)), approval,
                             old(cache.entries), derive, post)
  {
    ghost var current := chain.AllowanceOf(USDC_BRIDGED, CTF_EXCHANGE);
    var failure := ApproveForSide(chain, side, wallet, fee, approval);
    if failure.Some? {
      return OrderFailed("Approval failed: " + failure.value);
    }
    ghost var approvalTrace := if side == Buy then ApprovalTrace(wallet, current, fee, approval) else [];
    var posted;
    r, posted := PostMarketOrder(chain, cache, wallet, derive, tokenId, side, amount, post);
    AppendBoth(old(chain.log), approvalTrace, if posted then [ApiRequest(ClobOrder(tokenId, side, amount))] else []);
  }

  /** What the log after `placePolymarketOrder`, its cache and its report
      mean, for a log `log` before it: every posted BUY is authorised; a
      failed approval posts nothing and leaves the cache; a SELL only posts;
      a placed order ends the log; and once the approval step passes with a
      key, the credential lookup decides the cache, whether the order is
      posted, and the report. */
  lemma OrderFacts(log: seq<Event>, side: Side, wallet: Result<Address, string>, current: nat, fee: FeeData,
                   approval: TxOutcome, entries: map<Address, CredentialCache.ApiCreds>,
                   derive: Fetch<CredentialCache.ApiCreds>, tokenId: string, amount: real, post: Fetch<PostResponse>)
    ensures var t := OrderTrace(side, wallet, current, fee, approval, entries, derive, tokenId, amount);
            var after := log + t;
            var e := OrderEntries(side, wallet, current, approval, entries, derive);
            var r := OrderReport(side, wallet, current, approval, entries, derive, post);
            var order := ApiRequest(ClobOrder(tokenId, side, amount));
            && |log| <= |after| && after[..|log|] == log && after[|log|..] == t
            && BuysAuthorised(t)
            && (side == Buy && wallet.Err? ==>
                  r == OrderFailed("Approval failed: " + GasErrorMessage(wallet.error)) && after == log && e == entries)
            && (side == Buy && wallet.Ok? && current != MAX_UINT256 && !approval.Mines? ==>
                  r == OrderFailed("Approval failed: " + GasErrorMessage(approval.message)) && e == entries
                  && forall i :: |log| <= i < |after| ==> !after[i].ApiRequest?)
            && (side == Sell ==> forall i :: |log| <= i < |after| ==> after[i] == order)
            && (r.Placed? ==> |after| > |log| && after[|after| - 1] == order)
            && (wallet.Ok? && ApprovalPasses(side, wallet, current, approval) ==>
                  var s := CredentialCache.Lookup(entries, wallet.value, derive);
                  && e == s.entries
                  && (s.result.Err? ==> r == OrderFailed(OrderErrorMessage(s.result.error))
                                        && forall i :: |log| <= i < |after| ==> !after[i].ApiRequest?)
                  && (s.result.Ok? ==>
                        && r == (if post.Got? then PostOutcome(post.value)
                                 else OrderFailed(OrderErrorMessage(post.message)))
                        && |after| > |log| && after[|after| - 1] == order
                        && forall i :: |log| <= i < |after| - 1 ==> !after[i].ApiRequest?))
            && (side == Sell && wallet.Err? ==>
                  r == OrderFailed(OrderErrorMessage(wallet.error)) && after == log && e == entries)
  {
    var approvalTrace := if side == Buy then ApprovalTrace(wallet, current, fee, approval) else [];
    var sent := if OrderPosted(side, wallet, current, approval, entries, derive)
                then [ApiRequest(ClobOrder(tokenId, side, amount))] else [];
    var t := OrderTrace(side, wallet, current, fee, approval, entries, derive, tokenId, amount);
    assert t == approvalTrace + sent;
    AppendedPart(log, t);
    if side == Buy && |sent| > 0 {
      ApprovalTraceGrants(wallet, current, fee, approval);
    }
    PostAfterApproval(approvalTrace, sent);
    AfterApproval(log, approvalTrace, sent);
  }

  /** The log of an order flow: the approval step, which makes no request,
      followed by what was posted. */
  lemma AfterApproval(log: seq<Event>, approvalTrace: seq<Event>, posted: seq<Event>)
    requires forall i :: 0 <= i < |approvalTrace| ==> !approvalTrace[i].ApiRequest?
    ensures var t := log + approvalTrace + posted;
            && t[..|log|] == log
            && t[|log|..] == approvalTrace + posted
            && (forall i :: |log| <= i < |t| - |posted| ==> !t[i].ApiRequest?)
            && (|posted| > 0 ==> t[|t| - 1] == posted[|posted| - 1])
  {
    var t := log + approvalTrace + posted;
    assert t == log + (approvalTrace + posted);
    forall i | |log| <= i < |t| - |posted|
      ensures !t[i].ApiRequest?
    {
      assert t[i] == approvalTrace[i - |log|];
    }
  }
}
