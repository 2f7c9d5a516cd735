/** The key vault of `src/services/wallet.ts`: a private key is encrypted with
    AES-256-GCM (NIST SP 800-38D) under a key derived by scrypt (RFC 7914) from
    the configured passphrase and the fixed salt "salt", and stored as the text
    `hex(iv):hex(authTag):hex(ciphertext)`.

    The cryptographic primitives are not implemented. GCM is modelled by its
    structure: a counter-mode keystream that is its own inverse, and an
    authentication tag computed over the ciphertext. Both, together with scrypt
    and Node's UTF-8 conversion, are fields of `Primitives`; `Sound` states the
    only facts the model relies on. */
module KeyVault {
  import opened Common
  import Hex

  const IV_LENGTH: nat := 16
  const AUTH_TAG_LENGTH: nat := 16
  const KEY_LENGTH: nat := 32
  const SALT: string := "salt"
  const SEPARATOR: char := ':'

  datatype Primitives = Primitives(
    scrypt: (string, string, nat) -> seq<byte>,                // (password, salt, key length) -> key
    keystream: (seq<byte>, seq<byte>, seq<byte>) -> seq<byte>, // AES-256-CTR under (key, iv)
    ghash: (seq<byte>, seq<byte>, seq<byte>) -> seq<byte>,     // GCM tag of a ciphertext under (key, iv)
    utf8Encode: string -> seq<byte>,
    utf8Decode: seq<byte> -> string)

  /** What the model assumes of the primitives: counter mode undoes itself,
      tags are 16 bytes, and UTF-8 text survives a trip through bytes. */
  ghost predicate Sound(p: Primitives) {
    (forall k, iv, d, c :: c == p.keystream(k, iv, d) ==> p.keystream(k, iv, c) == d)
    && (forall k, iv, c :: |p.ghash(k, iv, c)| == AUTH_TAG_LENGTH)
    && (forall s, b :: b == p.utf8Encode(s) ==> p.utf8Decode(b) == s)
    && p.utf8Decode([]) == ""
  }

  /** Tag lengths Node accepts for GCM in `setAuthTag` when none was fixed at creation. */
  predicate ValidTagLength(n: nat) {
    n == 4 || n == 8 || 12 <= n <= 16
  }

  datatype VaultError =
    | MalformedBlob
    | InvalidIv
    | InvalidTagLength(length: nat)
    | MissingCiphertext
    | OddCiphertextHex(length: nat)
    | AuthenticationFailed

  /** The message of the error Node throws in each case. */
  function Message(e: VaultError): string {
    match e
    case MalformedBlob => "The first argument must be of type string or an instance of Buffer, ArrayBuffer, or Array or an Array-like Object. Received undefined"
    case InvalidIv => "Invalid initialization vector"
    case InvalidTagLength(n) => "Invalid authentication tag length: " + NatToString(n)
    case MissingCiphertext => "The \"data\" argument must be of type string or an instance of Buffer, TypedArray, or DataView. Received undefined"
    case OddCiphertextHex(n) => "The argument 'encoding' is invalid for data of length " + NatToString(n) + ". Received 'hex'"
    case AuthenticationFailed => "Unsupported state or unable to authenticate data"
  }

  // ---------------------------------------------------------------------------
  // The blob format

  /** `String.prototype.split` with a one-character separator. */
  function Split(s: string, sep: char): (parts: seq<string>)
    ensures |parts| >= 1
    ensures forall i :: 0 <= i < |parts| ==> sep !in parts[i]
  {
    if s == [] then [""]
    else
      var rest := Split(s[1..], sep);
      if s[0] == sep then [""] + rest else [[s[0]] + rest[0]] + rest[1..]
  }

  /** `Array.prototype.join` with a one-character separator. */
  function Join(parts: seq<string>, sep: char): string
    requires |parts| >= 1
  {
    if |parts| == 1 then parts[0] else parts[0] + [sep] + Join(parts[1..], sep)
  }

  /** The template literal of wallet.ts line 30. */
  function JoinBlob(ivHex: string, tagHex: string, ctHex: string): string {
    Join([ivHex, tagHex, ctHex], SEPARATOR)
  }

  /** Splitting text that begins with a separator-free run `a`. */
  lemma {:induction false} SplitAfterRun(a: string, t: string, sep: char)
    requires sep !in a
    ensures Split(a + t, sep) == [a + Split(t, sep)[0]] + Split(t, sep)[1..]
  {
    if a != [] {
      var st := Split(t, sep);
      var rest := Split(a[1..] + t, sep);
      assert (a + t)[0] == a[0] && (a + t)[1..] == a[1..] + t;
      assert Split(a + t, sep) == [[a[0]] + rest[0]] + rest[1..];
      SplitAfterRun(a[1..], t, sep);
      assert rest == [a[1..] + st[0]] + st[1..];
      assert rest[0] == a[1..] + st[0] && rest[1..] == st[1..];
      assert [a[0]] + (a[1..] + st[0]) == a + st[0];
    } else {
      var st := Split(t, sep);
      assert a + t == t && a + st[0] == st[0];
      assert st == [st[0]] + st[1..];
    }
  }

  /** Splitting undoes joining when no part contains the separator. */
  lemma {:induction false} SplitJoin(parts: seq<string>, sep: char)
    requires |parts| >= 1
    requires forall i :: 0 <= i < |parts| ==> sep !in parts[i]
    ensures Split(Join(parts, sep), sep) == parts
  {
    if |parts| == 1 {
      assert Split("", sep) == [""];
      SplitAfterRun(parts[0], "", sep);
      assert parts[0] + "" == parts[0];
      assert Join(parts, sep) == parts[0];
      assert Split(parts[0], sep) == [parts[0]];
    } else {
      var rest := Join(parts[1..], sep);
      SplitJoin(parts[1..], sep);
      var tail := [sep] + rest;
      assert tail[0] == sep && tail[1..] == rest;
      var x := Split(tail, sep);
      assert x == [""] + parts[1..];
      assert x[0] == "" && x[1..] == parts[1..];
      assert Join(parts, sep) == parts[0] + tail;
      SplitAfterRun(parts[0], tail, sep);
      assert parts[0] + x[0] == parts[0];
      assert [parts[0]] + parts[1..] == parts;
    }
  }

  /** Joining undoes splitting: no character of the text is lost or moved. */
  lemma {:induction false} JoinSplit(s: string, sep: char)
    ensures Join(Split(s, sep), sep) == s
  {
    if s != [] {
      JoinSplit(s[1..], sep);
      var rest := Split(s[1..], sep);
      assert s == [s[0]] + s[1..];
      if s[0] == sep {
        assert Split(s, sep) == [""] + rest;
        assert (([""] + rest)[1..]) == rest;
        assert Join(Split(s, sep), sep) == "" + [sep] + Join(rest, sep);
      } else if |rest| == 1 {
        assert Split(s, sep) == [[s[0]] + rest[0]];
      } else {
        var parts := [[s[0]] + rest[0]] + rest[1..];
        assert Split(s, sep) == parts;
        assert parts[1..] == rest[1..];
        assert Join(parts, sep) == [s[0]] + rest[0] + [sep] + Join(rest[1..], sep);
        assert Join(rest, sep) == rest[0] + [sep] + Join(rest[1..], sep);
      }
    }
  }

  /** The fields line 34 destructures: the iv and tag hex, and the ciphertext
      hex when a third field is present. Fields beyond the third are ignored. */
  datatype Fields = Fields(ivHex: string, tagHex: string, ctHex: Option<string>)

  /** The fields of a blob, or MalformedBlob when there is no `:` at all: the
      tag field is then `undefined`, which `Buffer.from` (line 38) refuses. A
      blob with two fields gets past both `Buffer.from` calls and has no
      ciphertext. */
  function ParseBlob(blob: string): (r: Result<Fields, VaultError>)
    ensures r.Err? <==> |Split(blob, SEPARATOR)| == 1
    ensures r.Err? ==> r.error == MalformedBlob
    ensures r.Ok? ==> (r.value.ctHex.Some? <==> |Split(blob, SEPARATOR)| >= 3)
    ensures r.Ok? && r.value.ctHex.None? ==> blob == r.value.ivHex + [SEPARATOR] + r.value.tagHex
    ensures r.Ok? && r.value.ctHex.Some? ==> JoinBlob(r.value.ivHex, r.value.tagHex, r.value.ctHex.value) <= blob
  {
    var parts := Split(blob, SEPARATOR);
    JoinSplit(blob, SEPARATOR);
    if |parts| == 1 then Err(MalformedBlob)
    else if |parts| == 2 then
      assert parts[1..] == [parts[1]];
      Ok(Fields(parts[0], parts[1], None))
    else
      JoinPrefix(parts, SEPARATOR);
      assert parts[..3] == [parts[0], parts[1], parts[2]];
      Ok(Fields(parts[0], parts[1], Some(parts[2])))
  }

  /** The first three fields, joined, begin the text they were split from. */
  lemma JoinPrefix(parts: seq<string>, sep: char)
    requires |parts| >= 3
    ensures Join(parts[..3], sep) <= Join(parts, sep)
  {
    var q := parts[..3];
    assert q[1..] == parts[1..3] && q[1..][1..] == [parts[2]];
    assert Join(q[1..][1..], sep) == parts[2];
    assert Join(q[1..], sep) == parts[1] + [sep] + parts[2];
    assert Join(q, sep) == parts[0] + [sep] + (parts[1] + [sep] + parts[2]);
    assert parts[1..][1..] == parts[2..];
    assert Join(parts, sep) == parts[0] + [sep] + (parts[1] + [sep] + Join(parts[2..], sep));
    if |parts| > 3 {
      assert parts[2..][1..] == parts[3..];
      assert Join(parts[2..], sep) == parts[2] + ([sep] + Join(parts[3..], sep));
    }
  }

  /** Parsing a blob built from three separator-free segments gives back the
      same segments in the same order. */
  lemma ParseJoinBlob(ivHex: string, tagHex: string, ctHex: string)
    requires SEPARATOR !in ivHex && SEPARATOR !in tagHex && SEPARATOR !in ctHex
    ensures ParseBlob(JoinBlob(ivHex, tagHex, ctHex)) == Ok(Fields(ivHex, tagHex, Some(ctHex)))
  {
    SplitJoin([ivHex, tagHex, ctHex], SEPARATOR);
  }

  // ---------------------------------------------------------------------------
  // Encryption and decryption as functions of their inputs

  /** `crypto.scryptSync(config.encryptionKey, 'salt', 32)`: the same key on
      both sides, because the salt is fixed. */
  function DeriveKey(p: Primitives, passphrase: string): seq<byte> {
    p.scrypt(passphrase, SALT, KEY_LENGTH)
  }

  /** The blob `encryptPrivateKey` returns for a given random `iv`. */
  function Encrypt(p: Primitives, passphrase: string, iv: seq<byte>, privateKey: string): string
    requires |iv| == IV_LENGTH
  {
    var key := DeriveKey(p, passphrase);
    var ct := p.keystream(key, iv, p.utf8Encode(privateKey));
    JoinBlob(Hex.Encode(iv), Hex.Encode(p.ghash(key, iv, ct)), Hex.Encode(ct))
  }

  /** What `decryptPrivateKey` returns, or the error it throws. The iv and
      the tag go through the lenient `Buffer.from(…, 'hex')`, but
      `decipher.update(…, 'hex')` refuses ciphertext hex of odd length. */
  function Decrypt(p: Primitives, passphrase: string, blob: string): Result<string, VaultError> {
    match ParseBlob(blob)
    case Err(e) => Err(e)
    case Ok(fields) =>
      var key := DeriveKey(p, passphrase);
      var iv := Hex.Decode(fields.ivHex);
      var tag := Hex.Decode(fields.tagHex);
      if |iv| == 0 then Err(InvalidIv)
      else if !ValidTagLength(|tag|) then Err(InvalidTagLength(|tag|))
      else if fields.ctHex.None? then Err(MissingCiphertext)
      else if |fields.ctHex.value| % 2 == 1 then Err(OddCiphertextHex(|fields.ctHex.value|))
      else
        var ct := Hex.Decode(fields.ctHex.value);
        if !(tag <= p.ghash(key, iv, ct)) then Err(AuthenticationFailed)
        else Ok(p.utf8Decode(p.keystream(key, iv, ct)))
  }

  /** The blob is three `:`-separated segments: the 32-character hex of the iv,
      the 32-character hex of the tag, and the hex of the ciphertext. */
  lemma EncryptShape(p: Primitives, passphrase: string, iv: seq<byte>, privateKey: string)
    requires Sound(p) && |iv| == IV_LENGTH
    ensures var key := DeriveKey(p, passphrase);
            var ct := p.keystream(key, iv, p.utf8Encode(privateKey));
            Split(Encrypt(p, passphrase, iv, privateKey), SEPARATOR)
              == [Hex.Encode(iv), Hex.Encode(p.ghash(key, iv, ct)), Hex.Encode(ct)]
    ensures var parts := Split(Encrypt(p, passphrase, iv, privateKey), SEPARATOR);
            |parts[0]| == 2 * IV_LENGTH && |parts[1]| == 2 * AUTH_TAG_LENGTH && Hex.Decode(parts[0]) == iv
  {
    var key := DeriveKey(p, passphrase);
    var ct := p.keystream(key, iv, p.utf8Encode(privateKey));
    var tag := p.ghash(key, iv, ct);
    Hex.EncodeHasNoColon(iv);
    Hex.EncodeHasNoColon(tag);
    Hex.EncodeHasNoColon(ct);
    SplitJoin([Hex.Encode(iv), Hex.Encode(tag), Hex.Encode(ct)], SEPARATOR);
    Hex.DecodeEncode(iv);
  }

  /** Decrypting what was encrypted under the same passphrase gives back the key. */
  lemma DecryptEncrypt(p: Primitives, passphrase: string, iv: seq<byte>, privateKey: string)
    requires Sound(p) && |iv| == IV_LENGTH
    ensures Decrypt(p, passphrase, Encrypt(p, passphrase, iv, privateKey)) == Ok(privateKey)
  {
    var key := DeriveKey(p, passphrase);
    var pt := p.utf8Encode(privateKey);
    var ct := p.keystream(key, iv, pt);
    var tag := p.ghash(key, iv, ct);
    Hex.EncodeHasNoColon(iv);
    Hex.EncodeHasNoColon(tag);
    Hex.EncodeHasNoColon(ct);
    ParseJoinBlob(Hex.Encode(iv), Hex.Encode(tag), Hex.Encode(ct));
    Hex.DecodeEncode(iv);
    Hex.DecodeEncode(tag);
    Hex.DecodeEncode(ct);
    assert p.keystream(key, iv, ct) == pt;
  }

  /** Decryption fails closed: plaintext comes back only when the supplied tag
      is a valid-length prefix of the tag of the ciphertext actually supplied,
      and it is then the keystream inverse of that ciphertext. */
  lemma DecryptFailsClosed(p: Primitives, passphrase: string, blob: string)
    requires Decrypt(p, passphrase, blob).Ok?
    ensures var parts := Split(blob, SEPARATOR);
            var key := DeriveKey(p, passphrase);
            var iv := Hex.Decode(parts[0]);
            var tag := Hex.Decode(parts[1]);
            var ct := Hex.Decode(parts[2]);
            |parts| >= 3 && |iv| > 0 && ValidTagLength(|tag|) && |parts[2]| % 2 == 0
            && tag <= p.ghash(key, iv, ct)
            && Decrypt(p, passphrase, blob).value == p.utf8Decode(p.keystream(key, iv, ct))
  {
  }

  /** Tampering with a full-length tag is always detected. */
  lemma TamperedTagRejected(p: Primitives, passphrase: string, ivHex: string, tagHex: string, ctHex: string)
    requires Sound(p)
    requires SEPARATOR !in ivHex && SEPARATOR !in tagHex && SEPARATOR !in ctHex && |ctHex| % 2 == 0
    requires |Hex.Decode(ivHex)| > 0 && |Hex.Decode(tagHex)| == AUTH_TAG_LENGTH
    requires Hex.Decode(tagHex) != p.ghash(DeriveKey(p, passphrase), Hex.Decode(ivHex), Hex.Decode(ctHex))
    ensures Decrypt(p, passphrase, JoinBlob(ivHex, tagHex, ctHex)) == Err(AuthenticationFailed)
  {
    ParseJoinBlob(ivHex, tagHex, ctHex);
  }

  /** Ciphertext hex of odd length is refused, whatever the tag, once the iv
      and the tag length have been accepted; the message carries the length. */
  lemma OddCiphertextRejected(p: Primitives, passphrase: string, ivHex: string, tagHex: string, ctHex: string)
    requires SEPARATOR !in ivHex && SEPARATOR !in tagHex && SEPARATOR !in ctHex && |ctHex| % 2 == 1
    requires |Hex.Decode(ivHex)| > 0 && ValidTagLength(|Hex.Decode(tagHex)|)
    ensures Decrypt(p, passphrase, JoinBlob(ivHex, tagHex, ctHex)) == Err(OddCiphertextHex(|ctHex|))
  {
    ParseJoinBlob(ivHex, tagHex, ctHex);
  }

  /** A blob with two fields never decrypts: it fails on its iv, then on its
      tag length (the message carries the length), and otherwise because
      there is no ciphertext to hand to `decipher.update`. */
  lemma TwoFieldBlobRejected(p: Primitives, passphrase: string, ivHex: string, tagHex: string)
    requires SEPARATOR !in ivHex && SEPARATOR !in tagHex
    ensures var r := Decrypt(p, passphrase, ivHex + [SEPARATOR] + tagHex);
            var iv := Hex.Decode(ivHex);
            var tag := Hex.Decode(tagHex);
            r == if |iv| == 0 then Err(InvalidIv)
                 else if !ValidTagLength(|tag|) then Err(InvalidTagLength(|tag|))
                 else Err(MissingCiphertext)
  {
    SplitJoin([ivHex, tagHex], SEPARATOR);
    assert Join([ivHex, tagHex], SEPARATOR) == ivHex + [SEPARATOR] + tagHex;
  }

  /** A blob without a separator fails before any cipher object is built. */
  lemma OneFieldBlobRejected(p: Primitives, passphrase: string, blob: string)
    requires SEPARATOR !in blob
    ensures Decrypt(p, passphrase, blob) == Err(MalformedBlob)
  {
    SplitJoin([blob], SEPARATOR);
  }

  // ---------------------------------------------------------------------------
  // Node's cipher objects and the two procedures that drive them

  /** `crypto.createCipheriv('aes-256-gcm', key, iv)`: `update` returns the
      counter-mode ciphertext, `final` returns nothing more and fixes the tag. */
  class Cipher {
    const prims: Primitives
    const key: seq<byte>
    const iv: seq<byte>
    var ciphertext: seq<byte>
    var authTag: Option<seq<byte>>

    constructor (prims: Primitives, key: seq<byte>, iv: seq<byte>)
      ensures this.prims == prims && this.key == key && this.iv == iv
      ensures ciphertext == [] && authTag == None
    {
      this.prims, this.key, this.iv := prims, key, iv;
      ciphertext, authTag := [], None;
    }

    method Update(plaintext: seq<byte>) returns (out: seq<byte>)
      requires ciphertext == [] && authTag == None
      modifies this
      ensures out == prims.keystream(key, iv, plaintext)
      ensures ciphertext == out && authTag == None
    {
      out := prims.keystream(key, iv, plaintext);
      ciphertext := out;
    }

    method Final() returns (out: seq<byte>)
      requires authTag == None
      modifies this
      ensures out == [] && ciphertext == old(ciphertext)
      ensures authTag == Some(prims.ghash(key, iv, ciphertext))
    {
      out := [];
      authTag := Some(prims.ghash(key, iv, ciphertext));
    }

    method GetAuthTag() returns (tag: seq<byte>)
      requires authTag.Some?
      ensures tag == authTag.value
    {
      tag := authTag.value;
    }
  }

  /** `crypto.createDecipheriv('aes-256-gcm', key, iv)`: `update` hands back
      counter-mode output before anything is verified; only `final` checks the tag. */
  class Decipher {
    const prims: Primitives
    const key: seq<byte>
    const iv: seq<byte>
    var expectedTag: Option<seq<byte>>
    var ciphertext: seq<byte>

    constructor (prims: Primitives, key: seq<byte>, iv: seq<byte>)
      ensures this.prims == prims && this.key == key && this.iv == iv
      ensures expectedTag == None && ciphertext == []
    {
      this.prims, this.key, this.iv := prims, key, iv;
      expectedTag, ciphertext := None, [];
    }

    /** Throws (here: returns false) for a tag length GCM does not allow. */
    method SetAuthTag(tag: seq<byte>) returns (accepted: bool)
      modifies this
      ensures accepted == ValidTagLength(|tag|)
      ensures expectedTag == (if accepted then Some(tag) else old(expectedTag))
      ensures ciphertext == old(ciphertext)
    {
      accepted := ValidTagLength(|tag|);
      if accepted {
        expectedTag := Some(tag);
      }
    }

    method Update(ct: seq<byte>) returns (unverified: seq<byte>)
      requires ciphertext == []
      modifies this
      ensures unverified == prims.keystream(key, iv, ct)
      ensures ciphertext == ct && expectedTag == old(expectedTag)
    {
      unverified := prims.keystream(key, iv, ct);
      ciphertext := ct;
    }

    /** Throws (here: returns None) unless the tag authenticates the ciphertext. */
    method Final() returns (out: Option<seq<byte>>)
      requires expectedTag.Some?
      ensures out.Some? <==> expectedTag.value <= prims.ghash(key, iv, ciphertext)
      ensures out.Some? ==> out.value == []
    {
      if expectedTag.value <= prims.ghash(key, iv, ciphertext) {
        out := Some([]);
      } else {
        out := None;
      }
    }
  }

  /** `encryptPrivateKey`, with the random iv of line 21 as a parameter. */
  method EncryptPrivateKey(prims: Primitives, passphrase: string, iv: seq<byte>, privateKey: string)
    returns (blob: string)
    requires |iv| == IV_LENGTH
    ensures blob == Encrypt(prims, passphrase, iv, privateKey)
  {
    var key := DeriveKey(prims, passphrase);
    var cipher := new Cipher(prims, key, iv);
    var out := cipher.Update(prims.utf8Encode(privateKey));
    var encrypted := Hex.Encode(out);
    var last := cipher.Final();
    assert Hex.Encode(last) == "";
    encrypted := encrypted + Hex.Encode(last);
    assert encrypted == Hex.Encode(out);
    var authTag := cipher.GetAuthTag();
    assert authTag == prims.ghash(key, iv, out);
    blob := JoinBlob(Hex.Encode(iv), Hex.Encode(authTag), encrypted);
  }

  /** `decryptPrivateKey`: the plaintext produced by `update` is dropped when
      `final` rejects the tag. */
  method DecryptPrivateKey(prims: Primitives, passphrase: string, encryptedData: string)
    returns (r: Result<string, VaultError>)
    requires Sound(prims)
    ensures r == Decrypt(prims, passphrase, encryptedData)
  {
    var parts := Split(encryptedData, SEPARATOR);
    if |parts| < 2 {
      return Err(MalformedBlob);
    }
    var key := DeriveKey(prims, passphrase);
    var iv := Hex.Decode(parts[0]);
    var authTag := Hex.Decode(parts[1]);
    if |iv| == 0 {
      return Err(InvalidIv);
    }
    var decipher := new Decipher(prims, key, iv);
    var accepted := decipher.SetAuthTag(authTag);
    if !accepted {
      return Err(InvalidTagLength(|authTag|));
    }
    if |parts| < 3 {
      // `decipher.update(undefined, 'hex', 'utf8')`
      return Err(MissingCiphertext);
    }
    if |parts[2]| % 2 == 1 {
      // `update` checks the length of hex input before decoding it
      return Err(OddCiphertextHex(|parts[2]|));
    }
    var out := decipher.Update(Hex.Decode(parts[2]));
    var decrypted := prims.utf8Decode(out);
    var last := decipher.Final();
    if last.None? {
      return Err(AuthenticationFailed);
    }
    assert prims.utf8Decode(last.value) == "";
    decrypted := decrypted + prims.utf8Decode(last.value);
    assert decrypted == prims.utf8Decode(prims.keystream(key, iv, Hex.Decode(parts[2])));
    assert ParseBlob(encryptedData) == Ok(Fields(parts[0], parts[1], Some(parts[2])));
    r := Ok(decrypted);
  }

  /** `getAccountFromEncryptedKey`: `privateKeyToAccount` (which throws on text
      that is not a key) applied to the decrypted key. */
  function AccountFromEncryptedKey<A>(p: Primitives, passphrase: string, blob: string,
                                      toAccount: string -> Result<A, string>): (r: Result<A, string>)
    ensures Decrypt(p, passphrase, blob).Err? ==> r == Err(Message(Decrypt(p, passphrase, blob).error))
  {
    match Decrypt(p, passphrase, blob)
    case Err(e) => Err(Message(e))
    case Ok(privateKey) => toAccount(privateKey)
  }

  /** The account of an encrypted key is the account of the key itself. */
  lemma AccountOfEncryptedKey<A>(p: Primitives, passphrase: string, iv: seq<byte>, privateKey: string,
                                 toAccount: string -> Result<A, string>)
    requires Sound(p) && |iv| == IV_LENGTH
    ensures AccountFromEncryptedKey(p, passphrase, Encrypt(p, passphrase, iv, privateKey), toAccount)
            == toAccount(privateKey)
  {
    DecryptEncrypt(p, passphrase, iv, privateKey);
  }
}
