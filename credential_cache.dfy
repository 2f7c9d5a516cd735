/** The CLOB API-credential cache of `getClobClient` in
    `src/services/polymarket.ts`: a process-wide map from the lower-cased
    wallet address to the credentials the venue derived for it, filled on a miss. */
module CredentialCache {
  import opened Common

  type Address = string

  datatype ApiCreds = ApiCreds(key: string, secret: string, passphrase: string)

  /** A CLOB client: the signing wallet and the L2 credentials it uses. */
  datatype ClobClient = ClobClient(wallet: Address, creds: ApiCreds)

  /** `String.prototype.toLowerCase` on the ASCII letters an address is made of. */
  function LowerChar(c: char): char {
    if 'A' <= c <= 'Z' then (c as int + 32) as char else c
  }

  function ToLower(s: string): (r: string)
    ensures |r| == |s|
    ensures forall i :: 0 <= i < |s| ==> r[i] == LowerChar(s[i])
  {
    if s == [] then [] else [LowerChar(s[0])] + ToLower(s[1..])
  }

  /** Lower-casing twice is lower-casing once. */
  lemma ToLowerIdempotent(s: string)
    ensures ToLower(ToLower(s)) == ToLower(s)
  {
  }

  /** Two spellings of an address that differ only in letter case share one cache entry. */
  lemma SameKeyIgnoringCase(a: string, b: string)
    requires |a| == |b| && forall i :: 0 <= i < |a| ==> LowerChar(a[i]) == LowerChar(b[i])
    ensures ToLower(a) == ToLower(b)
  {
  }

  /** The outcome of one lookup: the map afterwards, the client or the error,
      and whether the venue was asked to derive credentials. */
  datatype Step = Step(entries: map<Address, ApiCreds>, result: Result<ClobClient, string>, derived: bool)

  /** One lookup for `address`, where `derive` is what `createOrDeriveApiKey`
      would return (or throw) if it were called. */
  function Lookup(entries: map<Address, ApiCreds>, address: Address, derive: Fetch<ApiCreds>): (s: Step)
    // a hit asks for nothing and changes nothing
    ensures ToLower(address) in entries ==>
              !s.derived && s.entries == entries && s.result == Ok(ClobClient(address, entries[ToLower(address)]))
    // a miss asks exactly once; only a successful derivation is stored, under the lower-cased key
    ensures ToLower(address) !in entries ==> s.derived
    ensures ToLower(address) !in entries && derive.Got? ==>
              s.entries == entries[ToLower(address) := derive.value]
              && s.result == Ok(ClobClient(address, derive.value))
    ensures ToLower(address) !in entries && derive.Threw? ==>
              s.entries == entries && s.result == Err(derive.message)
    ensures s.entries.Keys <= entries.Keys + {ToLower(address)}
    ensures forall k :: k in entries ==> k in s.entries && s.entries[k] == entries[k]
    ensures s.result.Ok? <==> ToLower(address) in s.entries
    ensures s.result.Ok? ==> s.result.value == ClobClient(address, s.entries[ToLower(address)])
    ensures s.result.Err? ==> s.entries == entries && derive.Threw? && s.result.error == derive.message
  {
    var key := ToLower(address);
    if key in entries then Step(entries, Ok(ClobClient(address, entries[key])), false)
    else match derive
      case Got(creds) => Step(entries[key := creds], Ok(ClobClient(address, creds)), true)
      case Threw(msg) => Step(entries, Err(msg), true)
  }

  /** Once credentials for an address are cached, every later lookup for it,
      in any letter case, derives nothing and returns the same credentials. */
  lemma LookupAfterSuccess(entries: map<Address, ApiCreds>, address: Address, again: Address,
                           first: Fetch<ApiCreds>, second: Fetch<ApiCreds>)
    requires Lookup(entries, address, first).result.Ok?
    requires ToLower(again) == ToLower(address)
    ensures var s1 := Lookup(entries, address, first);
            var s2 := Lookup(s1.entries, again, second);
            !s2.derived && s2.entries == s1.entries && s2.result.Ok?
            && s2.result.value.creds == s1.result.value.creds
  {
  }

  /** The process-wide cache (`apiCredsCache`). */
  class Cache {
    var entries: map<Address, ApiCreds>

    constructor ()
      ensures entries == map[]
    {
      entries := map[];
    }

    /** `getClobClient`: `wallet` is the address of the decrypted key, or the
        message decryption threw. */
    method GetClobClient(wallet: Result<Address, string>, derive: Fetch<ApiCreds>)
      returns (r: Result<ClobClient, string>, derived: bool)
      modifies this
      ensures wallet.Err? ==> r == Err(wallet.error) && !derived && entries == old(entries)
      ensures wallet.Ok? ==> Step(entries, r, derived) == Lookup(old(entries), wallet.value, derive)
    {
      if wallet.Err? {
        return Err(wallet.error), false;
      }
      var address := ToLower(wallet.value);
      if address in entries {
        return Ok(ClobClient(wallet.value, entries[address])), false;
      }
      derived := true;
      match derive
      case Threw(msg) =>
        r := Err(msg);
      case Got(creds) =>
        entries := entries[address := creds];
        r := Ok(ClobClient(wallet.value, creds));
    }
  }
}
