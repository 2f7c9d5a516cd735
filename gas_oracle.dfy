/** `getPolygonGasSettings` of `src/services/polymarket.ts`: EIP-1559 fee
    parameters for Polygon, computed in wei from the provider's fee data. */
module GasOracle {
  import opened Common

  const GWEI: nat := 1_000_000_000
  /** The floor on the priority fee (tip): 35 gwei. */
  const MIN_TIP: nat := 35 * GWEI
  /** The base fee assumed when the provider reports none: 30 gwei. */
  const DEFAULT_BASE_FEE: nat := 30 * GWEI

  /** `provider.getFeeData()`: either field may be null. */
  datatype FeeData = FeeData(lastBaseFeePerGas: Option<nat>, maxPriorityFeePerGas: Option<nat>)

  datatype GasSettings = GasSettings(maxFeePerGas: nat, maxPriorityFeePerGas: nat)

  /** The suggested tip when it is strictly above 35 gwei, else 35 gwei: the
      larger of the two. The max fee leaves room for the base fee to double. */
  function PolygonGasSettings(fee: FeeData): (g: GasSettings)
    ensures g.maxPriorityFeePerGas >= MIN_TIP
    ensures fee.maxPriorityFeePerGas.Some? ==> g.maxPriorityFeePerGas >= fee.maxPriorityFeePerGas.value
    ensures g.maxPriorityFeePerGas == MIN_TIP
            || (fee.maxPriorityFeePerGas.Some? && g.maxPriorityFeePerGas == fee.maxPriorityFeePerGas.value)
    ensures g.maxFeePerGas - g.maxPriorityFeePerGas
            == 2 * (if fee.lastBaseFeePerGas.Some? then fee.lastBaseFeePerGas.value else DEFAULT_BASE_FEE)
    ensures g.maxFeePerGas >= g.maxPriorityFeePerGas >= MIN_TIP
  {
    var tip := if fee.maxPriorityFeePerGas.Some? && fee.maxPriorityFeePerGas.value > MIN_TIP
               then fee.maxPriorityFeePerGas.value else MIN_TIP;
    // `lastBaseFeePerGas || 30 gwei`: a BigNumber is an object, so only a null falls back
    var baseFee := if fee.lastBaseFeePerGas.Some? then fee.lastBaseFeePerGas.value else DEFAULT_BASE_FEE;
    GasSettings(baseFee * 2 + tip, tip)
  }

  /** A reported base fee of zero is used as zero, not replaced by the default. */
  lemma ZeroBaseFeeKept(tip: Option<nat>)
    ensures PolygonGasSettings(FeeData(Some(0), tip)).maxFeePerGas
            == PolygonGasSettings(FeeData(Some(0), tip)).maxPriorityFeePerGas
  {
  }

  /** Fees never fall when the network's fee data rises. */
  lemma GasSettingsMonotone(a: FeeData, b: FeeData)
    requires a.lastBaseFeePerGas.Some? <==> b.lastBaseFeePerGas.Some?
    requires a.lastBaseFeePerGas.Some? ==> a.lastBaseFeePerGas.value <= b.lastBaseFeePerGas.value
    requires a.maxPriorityFeePerGas.Some? ==> b.maxPriorityFeePerGas.Some?
                                              && a.maxPriorityFeePerGas.value <= b.maxPriorityFeePerGas.value
    ensures PolygonGasSettings(a).maxPriorityFeePerGas <= PolygonGasSettings(b).maxPriorityFeePerGas
    ensures PolygonGasSettings(a).maxFeePerGas <= PolygonGasSettings(b).maxFeePerGas
  {
  }
}
