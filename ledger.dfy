/** The part of Polygon the bot's wallet sees, for the approval, order and swap
    flows of `src/services/polymarket.ts`: the wallet's ERC-20 balances and
    allowances (EIP-20 `balanceOf`, `allowance`, `approve`), and a log of every
    read, transaction and API request made on the wallet's behalf, in order. */
module Ledger {
  import opened Common
  import opened GasOracle

  type Address = string

  /** Native USDC (Circle) on Polygon. */
  const USDC_NATIVE: Address := "0x3c499c542cEF5E3811e1192ce70d8cC03d5c3359"
  /** USDC.e, bridged from Ethereum: the venue's collateral. */
  const USDC_BRIDGED: Address := "0x2791Bca1f2de4661ED88A30C99A7a9449Aa84174"
  /** The venue's CLOB exchange contract. */
  const CTF_EXCHANGE: Address := "0x4bFb41d5B3570DeFd03C39a9A4D8dE6Bd8B8982E"
  /** `ethers.constants.MaxUint256`, 2^256 - 1: an unlimited approval. */
  const MAX_UINT256: nat := 0xffff_ffff_ffff_ffff_ffff_ffff_ffff_ffff_ffff_ffff_ffff_ffff_ffff_ffff_ffff_ffff

  datatype Side = Buy | Sell

  /** A transaction the wallet signs: an ERC-20 `approve` on `token`, or an
      aggregator swap whose calldata is opaque here. */
  datatype Call =
    | ApproveCall(token: Address, spender: Address, amount: nat)
    | SwapCall(to: Address, data: string, value: string, gasLimit: nat)

  /** What becomes of a transaction that is sent and then waited for: the
      provider refuses it (`sendTransaction` throws), it is mined but reverts
      (`wait()` throws), or it is mined successfully. */
  datatype TxOutcome = SendFails(message: string) | Reverts(hash: string, message: string) | Mines(hash: string)

  /** Off-chain requests: the 1inch swap quote, the Kyberswap route and build
      calls, and posting an order to the venue's CLOB. */
  datatype Api =
    | OneInchQuote(amount: int)
    | KyberRoute(amount: int)
    | KyberBuild(amountOut: nat)
    | ClobOrder(tokenId: string, side: Side, size: real)

  datatype Event =
    | BalanceRead(token: Address, value: nat)
    | AllowanceRead(token: Address, spender: Address, value: nat)
    | FeeDataRead(settings: GasSettings)
    | Submitted(call: Call, fees: GasSettings, hash: string)
    | Confirmed(call: Call, hash: string)
    | ApiRequest(api: Api)

  /** The events sending and waiting for one transaction adds to the log. */
  function TxEvents(call: Call, fees: GasSettings, outcome: TxOutcome): (es: seq<Event>)
    ensures |es| <= 2
    ensures forall i :: 0 <= i < |es| ==> es[i].Submitted? || es[i].Confirmed?
    ensures es != [] ==> es[0] == Submitted(call, fees, es[0].hash)
    ensures outcome.Mines? <==> |es| == 2
    ensures |es| == 2 ==> es[1] == Confirmed(call, outcome.hash) && es[0].hash == outcome.hash
  {
    match outcome
    case SendFails(_) => []
    case Reverts(hash, _) => [Submitted(call, fees, hash)]
    case Mines(hash) => [Submitted(call, fees, hash), Confirmed(call, hash)]
  }

  /** A mined `approve` sets the allowance; the effect of a swap on balances is
      not modelled. */
  function Apply(allowance: map<(Address, Address), nat>, call: Call): (a: map<(Address, Address), nat>)
    ensures call.ApproveCall? ==> (call.token, call.spender) in a && a[(call.token, call.spender)] == call.amount
    ensures forall k :: k in allowance && (call.SwapCall? || k != (call.token, call.spender)) ==> k in a && a[k] == allowance[k]
  {
    if call.ApproveCall? then allowance[(call.token, call.spender) := call.amount] else allowance
  }

  /** `e` shows that `spender` may move at least `amount` of the wallet's
      `token`: a read allowance that large, or a confirmed approval of that
      much or of the unlimited amount. */
  predicate Grants(e: Event, token: Address, spender: Address, amount: int) {
    || (e.AllowanceRead? && e.token == token && e.spender == spender && e.value >= amount)
    || (e.Confirmed? && e.call.ApproveCall? && e.call.token == token && e.call.spender == spender
        && (e.call.amount >= amount || e.call.amount == MAX_UINT256))
  }

  /** Every swap in `trace` is submitted after an event that grants its
      target the right to spend `amount` of `token`. */
  predicate SwapsAuthorised(trace: seq<Event>, token: Address, amount: int) {
    forall i :: 0 <= i < |trace| && trace[i].Submitted? && trace[i].call.SwapCall? ==>
      exists j :: 0 <= j < i && Grants(trace[j], token, trace[i].call.to, amount)
  }

  /** Every BUY order in `trace` is posted after the exchange was shown to
      hold an unlimited USDC.e allowance. */
  predicate BuysAuthorised(trace: seq<Event>) {
    forall i :: 0 <= i < |trace| && trace[i].ApiRequest? && trace[i].api.ClobOrder? && trace[i].api.side == Buy ==>
      exists j :: 0 <= j < i && Grants(trace[j], USDC_BRIDGED, CTF_EXCHANGE, MAX_UINT256)
  }

  /** Authorisation is kept when the trace grows at the end. */
  lemma SwapsAuthorisedAppend(a: seq<Event>, b: seq<Event>, token: Address, amount: int)
    requires SwapsAuthorised(a, token, amount)
    requires forall i :: 0 <= i < |b| ==> !(b[i].Submitted? && b[i].call.SwapCall?)
    ensures SwapsAuthorised(a + b, token, amount)
  {
    forall i | 0 <= i < |a + b| && (a + b)[i].Submitted? && (a + b)[i].call.SwapCall?
      ensures exists j :: 0 <= j < i && Grants((a + b)[j], token, (a + b)[i].call.to, amount)
    {
      assert i < |a|;
      var j :| 0 <= j < i && Grants(a[j], token, a[i].call.to, amount);
      assert (a + b)[j] == a[j];
    }
  }

  /** An event that is not a swap, put in front, does not disturb authorisation. */
  lemma SwapsAuthorisedPrepend(e: Event, trace: seq<Event>, token: Address, amount: int)
    requires !(e.Submitted? && e.call.SwapCall?)
    requires SwapsAuthorised(trace, token, amount)
    ensures SwapsAuthorised([e] + trace, token, amount)
  {
    var t := [e] + trace;
    forall i | 0 <= i < |t| && t[i].Submitted? && t[i].call.SwapCall?
      ensures exists j :: 0 <= j < i && Grants(t[j], token, t[i].call.to, amount)
    {
      assert i != 0;
      assert t[i] == trace[i - 1];
      var j :| 0 <= j < i - 1 && Grants(trace[j], token, trace[i - 1].call.to, amount);
      assert t[j + 1] == trace[j];
    }
  }

  /** The allowance `spender` holds over the wallet's `token` in an allowance
      map; one never set reads as zero. */
  function AllowanceIn(allowance: map<(Address, Address), nat>, token: Address, spender: Address): nat {
    if (token, spender) in allowance then allowance[(token, spender)] else 0
  }

  /** The allowances went from `before` to `after` through the approvals
      confirmed in `trace`: every allowance that changed now holds the amount
      of a confirmed approval of its token and spender, and every confirmed
      approval holds in `after`. */
  ghost predicate AllowanceFollowsLog(before: map<(Address, Address), nat>, after: map<(Address, Address), nat>,
                                      trace: seq<Event>)
  {
    && (forall token: Address, spender: Address ::
          AllowanceIn(after, token, spender) != AllowanceIn(before, token, spender) ==>
            exists j :: 0 <= j < |trace| && trace[j].Confirmed?
                        && trace[j].call == ApproveCall(token, spender, AllowanceIn(after, token, spender)))
    && (forall j :: 0 <= j < |trace| && trace[j].Confirmed? && trace[j].call.ApproveCall? ==>
          AllowanceIn(after, trace[j].call.token, trace[j].call.spender) == trace[j].call.amount)
  }

  /** An event that confirms nothing, put in front, keeps the allowances
      explained by the log. */
  lemma AllowanceFollowsLogPrepend(e: Event, trace: seq<Event>, before: map<(Address, Address), nat>,
                                   after: map<(Address, Address), nat>)
    requires !e.Confirmed?
    requires AllowanceFollowsLog(before, after, trace)
    ensures AllowanceFollowsLog(before, after, [e] + trace)
  {
    var t := [e] + trace;
    forall token: Address, spender: Address | AllowanceIn(after, token, spender) != AllowanceIn(before, token, spender)
      ensures exists j :: 0 <= j < |t| && t[j].Confirmed?
                          && t[j].call == ApproveCall(token, spender, AllowanceIn(after, token, spender))
    {
      var j :| 0 <= j < |trace| && trace[j].Confirmed?
               && trace[j].call == ApproveCall(token, spender, AllowanceIn(after, token, spender));
      assert t[j + 1] == trace[j];
    }
    forall j | 0 <= j < |t| && t[j].Confirmed? && t[j].call.ApproveCall?
      ensures AllowanceIn(after, t[j].call.token, t[j].call.spender) == t[j].call.amount
    {
      assert t[j] == trace[j - 1];
    }
  }

  /** A log extended by the first event of a trace and then by the rest of it
      is the log extended by the whole trace. */
  lemma AppendFirstThenRest(log: seq<Event>, t: seq<Event>)
    requires |t| >= 1
    ensures log + [t[0]] + t[1..] == log + t
  {
    assert t == [t[0]] + t[1..];
  }

  /** Extending a log by two traces in turn extends it by both together. */
  lemma AppendBoth(log: seq<Event>, a: seq<Event>, b: seq<Event>)
    ensures log + a + b == log + (a + b)
  {
  }

  /** What was appended to a log is what follows its old length. */
  lemma AppendedPart(log: seq<Event>, t: seq<Event>)
    ensures (log + t)[|log|..] == t && (log + t)[..|log|] == log
  {
  }

  /** The chain as the wallet sees it, and the log of what the bot did. */
  class Chain {
    var balance: map<Address, nat>
    var allowance: map<(Address, Address), nat>
    var log: seq<Event>

    constructor (balance: map<Address, nat>, allowance: map<(Address, Address), nat>)
      ensures this.balance == balance && this.allowance == allowance && log == []
    {
      this.balance := balance;
      this.allowance := allowance;
      log := [];
    }

    /** `balanceOf(wallet)`; a token never credited reads as zero. */
    function BalanceOf(token: Address): nat
      reads this
    {
      if token in balance then balance[token] else 0
    }

    /** `allowance(wallet, spender)`; an allowance never set reads as zero. */
    function AllowanceOf(token: Address, spender: Address): nat
      reads this
    {
      AllowanceIn(allowance, token, spender)
    }

    method ReadBalance(token: Address) returns (value: nat)
      modifies this
      ensures value == old(BalanceOf(token))
      ensures balance == old(balance) && allowance == old(allowance)
      ensures log == old(log) + [BalanceRead(token, value)]
    {
      value := BalanceOf(token);
      log := log + [BalanceRead(token, value)];
    }

    method ReadAllowance(token: Address, spender: Address) returns (value: nat)
      modifies this
      ensures value == old(AllowanceOf(token, spender))
      ensures balance == old(balance) && allowance == old(allowance)
      ensures log == old(log) + [AllowanceRead(token, spender, value)]
    {
      value := AllowanceOf(token, spender);
      log := log + [AllowanceRead(token, spender, value)];
    }

    /** `getPolygonGasSettings(provider)`, where `fee` is what `getFeeData()` returned. */
    method ReadFeeData(fee: FeeData) returns (settings: GasSettings)
      modifies this
      ensures settings == PolygonGasSettings(fee)
      ensures balance == old(balance) && allowance == old(allowance)
      ensures log == old(log) + [FeeDataRead(settings)]
    {
      settings := PolygonGasSettings(fee);
      log := log + [FeeDataRead(settings)];
    }

    method Request(api: Api)
      modifies this
      ensures balance == old(balance) && allowance == old(allowance)
      ensures log == old(log) + [ApiRequest(api)]
    {
      log := log + [ApiRequest(api)];
    }

    /** Sends `call` with the given fees and waits for its receipt; the hash
      of a mined transaction, or the message of whichever step threw. */
    method SendAndWait(call: Call, fees: GasSettings, outcome: TxOutcome) returns (r: Result<string, string>)
      modifies this
      ensures r == (if outcome.Mines? then Ok(outcome.hash) else Err(outcome.message))
      ensures balance == old(balance)
      ensures allowance == (if outcome.Mines? then Apply(old(allowance), call) else old(allowance))
      ensures log == old(log) + TxEvents(call, fees, outcome)
    {
      match outcome
      case SendFails(message) =>
        r := Err(message);
      case Reverts(hash, message) =>
        log := log + [Submitted(call, fees, hash)];
        r := Err(message);
      case Mines(hash) =>
        log := log + [Submitted(call, fees, hash)];
        allowance := Apply(allowance, call);
        log := log + [Confirmed(call, hash)];
        r := Ok(hash);
    }
  }

  /** The message a caught transaction error is reported with: a provider
      complaint about funds means the wallet lacks gas. */
  const INSUFFICIENT_GAS: string := "Insufficient POL for gas fees"

  function GasErrorMessage(message: string): (m: string)
    ensures Contains(message, "insufficient funds") ==> m == INSUFFICIENT_GAS
    ensures !Contains(message, "insufficient funds") ==> m == message
  {
    if Contains(message, "insufficient funds") then INSUFFICIENT_GAS else message
  }
}
