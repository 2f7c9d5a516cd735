/** Shared vocabulary: optional values, results, bytes and the few string and
    decimal helpers that several services use. */
module Common {

  datatype Option<+T> = None | Some(value: T)

  datatype Result<+T, +E> = Ok(value: T) | Err(error: E)

  /** An exception escaping an SDK or network call: either the call returned a
      value, or it threw an error carrying `message`. */
  datatype Fetch<+T> = Got(value: T) | Threw(message: string)

  type byte = b: int | 0 <= b < 256

  /** JavaScript's `String.prototype.includes`. */
  predicate Contains(s: string, sub: string)
    decreases |s|
  {
    if |sub| <= |s| && s[..|sub|] == sub then true
    else if |s| == 0 then false
    else Contains(s[1..], sub)
  }

  /** `sub` occurs in `s` at position `i`. */
  predicate OccursAt(s: string, sub: string, i: nat) {
    i + |sub| <= |s| && s[i..i + |sub|] == sub
  }

  /** An occurrence of `sub` at any position means `s` contains it. */
  lemma {:induction false} ContainsAt(s: string, sub: string, i: nat)
    requires OccursAt(s, sub, i)
    ensures Contains(s, sub)
    decreases i
  {
    if i > 0 && !(|sub| <= |s| && s[..|sub|] == sub) {
      assert s[1..][i - 1..i - 1 + |sub|] == s[i..i + |sub|];
      ContainsAt(s[1..], sub, i - 1);
    }
  }

  /** Conversely, `s` contains `sub` only where it occurs at some position. */
  lemma {:induction false} ContainsFound(s: string, sub: string)
    requires Contains(s, sub)
    ensures exists i: nat :: OccursAt(s, sub, i)
    decreases |s|
  {
    if !(|sub| <= |s| && s[..|sub|] == sub) {
      ContainsFound(s[1..], sub);
      var i: nat :| OccursAt(s[1..], sub, i);
      assert s[i + 1..i + 1 + |sub|] == s[1..][i..i + |sub|];
      assert OccursAt(s, sub, i + 1);
    } else {
      assert OccursAt(s, sub, 0);
    }
  }

  /** `q / s * s == q` for a positive scale. */
  lemma DivMul(q: real, s: real)
    requires s > 0.0
    ensures q / s * s == q
  {
  }

  function Pow10(n: nat): (r: nat)
    ensures r >= 1
  {
    if n == 0 then 1 else 10 * Pow10(n - 1)
  }

  /** Decimal digits of a natural number, as JavaScript's `toString()` prints it. */
  function NatToString(n: nat): (s: string)
    ensures |s| >= 1
    ensures forall i :: 0 <= i < |s| ==> '0' <= s[i] <= '9'
  {
    if n < 10 then [Digit(n)] else NatToString(n / 10) + [Digit(n % 10)]
  }

  function Digit(d: nat): (c: char)
    requires d < 10
    ensures '0' <= c <= '9'
  {
    "0123456789"[d]
  }
}
