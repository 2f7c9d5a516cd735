/** Node.js `Buffer` hex conversion: `buf.toString('hex')` and
    `Buffer.from(str, 'hex')`. */
module Hex {
  import opened Common

  predicate IsLowerHexDigit(c: char) {
    '0' <= c <= '9' || 'a' <= c <= 'f'
  }

  /** The lower-case digit for a nibble. */
  function NibbleChar(n: nat): (c: char)
    requires n < 16
    ensures IsLowerHexDigit(c)
    ensures NibbleValue(c) == Some(n)
  {
    if n < 10 then ('0' as int + n) as char else ('a' as int + n - 10) as char
  }

  /** The value of one hex digit, either case, or None for any other character. */
  function NibbleValue(c: char): (r: Option<nat>)
    ensures r.Some? ==> r.value < 16
    ensures r.Some? <==> ('0' <= c <= '9' || 'a' <= c <= 'f' || 'A' <= c <= 'F')
  {
    if '0' <= c <= '9' then Some(c as int - '0' as int)
    else if 'a' <= c <= 'f' then Some(c as int - 'a' as int + 10)
    else if 'A' <= c <= 'F' then Some(c as int - 'A' as int + 10)
    else None
  }

  /** `buf.toString('hex')`: two lower-case digits per byte, high nibble first. */
  function Encode(b: seq<byte>): (s: string)
    ensures |s| == 2 * |b|
    ensures forall i :: 0 <= i < |s| ==> IsLowerHexDigit(s[i])
  {
    if b == [] then "" else [NibbleChar(b[0] / 16), NibbleChar(b[0] % 16)] + Encode(b[1..])
  }

  /** `Buffer.from(s, 'hex')`: decodes pairs of hex digits from the left and
      stops at the first pair that is not two hex digits; a trailing single
      digit is dropped. It never fails. */
  function Decode(s: string): (b: seq<byte>)
    ensures 2 * |b| <= |s|
  {
    if |s| < 2 then []
    else match (NibbleValue(s[0]), NibbleValue(s[1]))
      case (Some(hi), Some(lo)) => [16 * hi + lo] + Decode(s[2..])
      case _ => []
  }

  /** Hex output carries no separator, so a `:`-joined blob can be split back. */
  lemma EncodeHasNoColon(b: seq<byte>)
    ensures ':' !in Encode(b)
  {
  }

  /** Decoding what was encoded gives back the same bytes. */
  lemma {:induction false} DecodeEncode(b: seq<byte>)
    ensures Decode(Encode(b)) == b
  {
    if b != [] {
      var hi, lo := b[0] / 16, b[0] % 16;
      var s := Encode(b);
      assert s == [NibbleChar(hi), NibbleChar(lo)] + Encode(b[1..]);
      assert s[2..] == Encode(b[1..]);
      DecodeEncode(b[1..]);
      assert Decode(s) == [16 * hi + lo] + Decode(s[2..]);
    }
  }

  /** Hex text made of whole bytes in lower case is the encoding of what it decodes to. */
  lemma {:induction false} EncodeDecode(s: string)
    requires |s| % 2 == 0
    requires forall i :: 0 <= i < |s| ==> IsLowerHexDigit(s[i])
    ensures Encode(Decode(s)) == s
  {
    if |s| >= 2 {
      NibbleCharValue(s[0]);
      NibbleCharValue(s[1]);
      var hi, lo := NibbleValue(s[0]).value, NibbleValue(s[1]).value;
      var t := s[2..];
      forall i | 0 <= i < |t|
        ensures IsLowerHexDigit(t[i])
      {
        assert t[i] == s[i + 2];
      }
      EncodeDecode(t);
      SplitByte(hi, lo);
      var x: byte := 16 * hi + lo;
      DecodeCons(s);
      assert Decode(s) == [x] + Decode(t);
      EncodeCons(x, Decode(t));
      assert Encode(Decode(s)) == [NibbleChar(hi), NibbleChar(lo)] + t;
      assert s == [s[0], s[1]] + t;
    } else {
      assert s == [];
    }
  }

  /** Two leading hex digits decode to one byte in front of the rest. */
  lemma DecodeCons(s: string)
    requires |s| >= 2 && NibbleValue(s[0]).Some? && NibbleValue(s[1]).Some?
    ensures Decode(s) == [16 * NibbleValue(s[0]).value + NibbleValue(s[1]).value] + Decode(s[2..])
  {
  }

  /** Encoding one more leading byte puts its two digits in front. */
  lemma EncodeCons(x: byte, rest: seq<byte>)
    ensures Encode([x] + rest) == [NibbleChar(x / 16), NibbleChar(x % 16)] + Encode(rest)
  {
    assert ([x] + rest)[1..] == rest;
  }

  /** A lower-case hex digit is written back as itself. */
  lemma NibbleCharValue(c: char)
    requires IsLowerHexDigit(c)
    ensures NibbleValue(c).Some? && NibbleChar(NibbleValue(c).value) == c
  {
  }

  /** The byte made of two nibbles splits back into them. */
  lemma SplitByte(hi: nat, lo: nat)
    requires hi < 16 && lo < 16
    ensures (16 * hi + lo) / 16 == hi && (16 * hi + lo) % 16 == lo
  {
  }

  /** Concatenating encodings encodes the concatenation (update output then final output). */
  lemma {:induction false} EncodeAppend(a: seq<byte>, b: seq<byte>)
    ensures Encode(a + b) == Encode(a) + Encode(b)
  {
    if a != [] {
      assert (a + b)[1..] == a[1..] + b;
      EncodeAppend(a[1..], b);
    } else {
      assert a + b == b;
    }
  }
}
