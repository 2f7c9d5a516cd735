/** Token amounts as ethers v5 converts them (`parseUnits`, `formatUnits`),
    and the padded gas limit the swap path sends with. */
module Units {
  import opened Common

  /** The reason `parseUnits` gives when the amount has more decimals than the token. */
  const FRACTION_TOO_LONG: string := "fractional component exceeds decimals"

  /** The amount counted in the token's smallest unit. */
  function InUnits(amount: real, decimals: nat): real {
    amount * (Pow10(decimals) as real)
  }

  predicate Whole(x: real) {
    x.Floor as real == x
  }

  /** `parseUnits(amount.toString(), decimals)`: the amount in the token's
      smallest unit, which must be whole. */
  function ParseUnits(amount: real, decimals: nat): (r: Result<int, string>)
    ensures r.Ok? <==> Whole(InUnits(amount, decimals))
    ensures r.Ok? ==> r.value as real == InUnits(amount, decimals)
    ensures r.Err? ==> r.error == FRACTION_TOO_LONG
  {
    if Whole(InUnits(amount, decimals)) then Ok(InUnits(amount, decimals).Floor) else Err(FRACTION_TOO_LONG)
  }

  /** A whole number of smallest units, written as a decimal amount, parses back to itself. */
  lemma ParseUnitsOfUnits(units: int, decimals: nat)
    ensures ParseUnits((units as real) / (Pow10(decimals) as real), decimals) == Ok(units)
  {
    var s := Pow10(decimals) as real;
    DivMul(units as real, s);
    assert InUnits(units as real / s, decimals) == units as real;
  }

  /** An amount with more decimals than the token has is refused: one USDC
      and a tenth of a micro-USDC, with USDC's six decimals (`toString` writes
      this amount as "1.0000001"). */
  lemma ParseUnitsRefusesDust()
    ensures ParseUnits(1.0000001, 6) == Err(FRACTION_TOO_LONG)
  {
    assert Pow10(6) == 1_000_000;
    assert InUnits(1.0000001, 6) == 1_000_000.1;
  }

  /** `formatUnits(v, decimals)` of ethers v5: the whole part, then (when the
      token has decimals) a point and the fraction without trailing zeros,
      keeping at least one digit. */
  function FormatUnits(v: nat, decimals: nat): (s: string)
    ensures decimals == 0 ==> s == NatToString(v)
    ensures |s| >= 1
  {
    if decimals == 0 then NatToString(v)
    else NatToString(Quotient(v, Pow10(decimals))) + "." + FractionDigits(v % Pow10(decimals), decimals)
  }

  /** The whole tokens in `v` smallest units of size `unit`. */
  function Quotient(v: nat, unit: nat): nat
    requires unit >= 1
  {
    v / unit
  }

  /** The digits after the point: `decimals` digits, trailing zeros dropped
      down to one digit. */
  function FractionDigits(m: nat, decimals: nat): (r: string)
    ensures 1 <= |r| <= if |NatToString(m)| >= decimals then |NatToString(m)| else decimals
  {
    TrimZeros(PadLeft(NatToString(m), decimals))
  }

  function PadLeft(s: string, n: nat): (r: string)
    ensures |r| == if |s| >= n then |s| else n
    decreases n - |s|
  {
    if |s| >= n then s else PadLeft("0" + s, n)
  }

  function TrimZeros(s: string): (r: string)
    requires |s| >= 1
    ensures 1 <= |r| <= |s| && r == s[..|r|]
    ensures |r| > 1 ==> r[|r| - 1] != '0'
  {
    if |s| > 1 && s[|s| - 1] == '0' then TrimZeros(s[..|s| - 1]) else s
  }

  /** `Math.ceil(gas * 1.3)`, in exact arithmetic. */
  function GasLimit(gas: nat): (limit: nat)
    ensures 10 * limit >= 13 * gas && 10 * limit < 13 * gas + 10
    ensures limit >= gas
  {
    (13 * gas + 9) / 10
  }
}
