/**
GovPay+ field encryption (external-integration/payment/govpay/crypto.go): PKCS7 padding, CBC chaining and the
base64 envelope. The block cipher, the key digest and base64 are parameters.
*/
module GovPayCipher {
  import opened Basics
  import opened Wrappers

  datatype CryptError = NotBase64 | BadKeyLength | NotWholeBlocks | InvalidPaddedLength | InvalidPadding

  const BLOCK := 16
  const KEY_LENGTH := 32

  // ---- PKCS7 (section 6.3 of RFC 5652) ----

  function Repeat(b: Byte, n: nat): Bytes {
    seq(n, _ => b)
  }

  function PadLength(data: Bytes, size: nat): (n: nat)
    requires size > 0
    ensures 1 <= n <= size
  {
    size - |data| % size
  }

  // The pad byte is the pad length cut down to a byte.
  function Pad(data: Bytes, size: nat): Bytes
    requires size > 0
  {
    var n := PadLength(data, size);
    data + Repeat(n % 256, n)
  }

  // The loop over the claimed padding: it stops at the first byte that differs.
  method CheckPadding(tail: Bytes, b: Byte) returns (ok: bool)
    ensures ok <==> forall i :: 0 <= i < |tail| ==> tail[i] == b
  {
    for i := 0 to |tail|
      invariant forall k :: 0 <= k < i ==> tail[k] == b
    {
      if tail[i] != b {
        return false;
      }
    }
    return true;
  }

  function Unpad(data: Bytes, size: nat): Result<Bytes, CryptError>
    requires size > 0
  {
    var n := |data|;
    if n == 0 || n % size != 0 then Err(InvalidPaddedLength)
    else
      var pad: nat := data[n - 1];
      if pad == 0 || pad > size then Err(InvalidPadding)
      else if pad <= n && data[n - pad..] == Repeat(data[n - 1], pad) then Ok(data[..n - pad])
      else Err(InvalidPadding)
  }

  // Unpad as the source runs it; the length check is what keeps its slice in bounds.
  method UnpadInLoop(data: Bytes, size: nat) returns (r: Result<Bytes, CryptError>)
    requires size > 0
    ensures r == Unpad(data, size)
  {
    var n := |data|;
    if n == 0 || n % size != 0 {
      return Err(InvalidPaddedLength);
    }
    var pad: nat := data[n - 1];
    if pad == 0 || pad > size {
      return Err(InvalidPadding);
    }
    ghost var tail := Repeat(data[n - 1], pad);
    assert forall i :: 0 <= i < pad ==> tail[i] == data[n - 1];
    var ok := CheckPadding(data[n - pad..], data[n - 1]);
    if !ok {
      return Err(InvalidPadding);
    }
    assert data[n - pad..] == tail;
    return Ok(data[..n - pad]);
  }

  lemma ModIs(x: nat, q: int, r: nat, size: nat)
    requires x == size * q + r && r < size
    ensures x % size == r
  {
    var d := q - x / size;
    assert size * d == size * q - size * (x / size);
    assert size * d == x % size - r;
  }

  lemma WholeBlocksAfterPadding(n: nat, size: nat)
    requires size > 0
    ensures (n + (size - n % size)) % size == 0
  {
    assert size * (n / size + 1) == size * (n / size) + size;
    ModIs(n + (size - n % size), n / size + 1, 0, size);
  }

  lemma PadIsWholeBlocks(data: Bytes, size: nat)
    requires size > 0
    ensures |Pad(data, size)| == |data| + PadLength(data, size)
    ensures |Pad(data, size)| % size == 0
  {
    WholeBlocksAfterPadding(|data|, size);
  }

  // A length that the padding completes to whole blocks leaves the padding as its shortfall.
  lemma ShortfallIs(n: nat, pad: nat, size: nat)
    requires 1 <= pad <= size && (n + pad) % size == 0
    ensures size - n % size == pad
  {
    var q := (n + pad) / size;
    assert n + pad == size * q;
    assert size * (q - 1) == size * q - size;
    if pad == size {
      ModIs(n, q - 1, 0, size);
    } else {
      ModIs(n, q - 1, size - pad, size);
    }
  }

  // What Unpad looks at: the last byte, and the tail it speaks of.
  lemma PadTail(data: Bytes, size: nat)
    requires size > 0
    ensures
      var n := PadLength(data, size);
      var padded := Pad(data, size);
      && padded[|data|..] == Repeat(n % 256, n)
      && padded[..|data|] == data
      && padded[|padded| - 1] == n % 256
  {
  }

  lemma UnpadOfPad(data: Bytes, size: nat)
    requires size > 0 && PadLength(data, size) <= 255
    ensures Unpad(Pad(data, size), size) == Ok(data)
  {
    PadIsWholeBlocks(data, size);
    PadTail(data, size);
  }

  lemma UnpadAcceptsOnlyPadded(padded: Bytes, size: nat)
    requires 1 <= size <= 255 && Unpad(padded, size).Ok?
    ensures padded == Pad(Unpad(padded, size).value, size)
  {
    var data := Unpad(padded, size).value;
    var pad: nat := padded[|padded| - 1];
    assert padded == data + padded[|data|..];
    ShortfallIs(|data|, pad, size);
  }

  // Unpad accepts exactly the images of Pad, and gives back what was padded.
  lemma UnpadInvertsPad(data: Bytes, padded: Bytes, size: nat)
    requires 1 <= size <= 255
    ensures Unpad(padded, size) == Ok(data) <==> padded == Pad(data, size)
  {
    if Unpad(padded, size) == Ok(data) {
      UnpadAcceptsOnlyPadded(padded, size);
    }
    UnpadOfPad(data, size);
  }

  // For blocks of any size, padding is undone exactly when its length fits the byte that states it.
  lemma PaddingIsUndoneIff(data: Bytes, size: nat)
    requires size > 0
    ensures Unpad(Pad(data, size), size) == Ok(data) <==> PadLength(data, size) <= 255
  {
    var n := PadLength(data, size);
    if n <= 255 {
      UnpadOfPad(data, size);
    } else {
      PadIsWholeBlocks(data, size);
      PadTail(data, size);
      var r := Unpad(Pad(data, size), size);
      assert r.Ok? ==> |r.value| == |data| + n - n % 256;
    }
  }

  // ---- CBC (section 6.2 of NIST SP 800-38A) ----

  // Exclusive or of the low n bits.
  function XorBits(a: nat, b: nat, n: nat): (x: nat)
    requires a < Pow2(n) && b < Pow2(n)
    ensures x < Pow2(n)
  {
    if n == 0 then 0
    else 2 * XorBits(a / 2, b / 2, n - 1) + (if a % 2 == b % 2 then 0 else 1)
  }

  function Xor(a: Bytes, b: Bytes): (r: Bytes)
    requires |a| == |b|
    ensures |r| == |a|
  {
    seq(|a|, i requires 0 <= i < |a| => XorBits(a[i], b[i], 8))
  }

  // Bit k of a number, counted from the lowest.
  function Bit(x: nat, k: nat): nat {
    if k == 0 then x % 2 else Bit(x / 2, k - 1)
  }

  // A bit of the exclusive or is set exactly when that bit is set in one of the two and not in both.
  lemma {:induction false} XorBitsAt(a: nat, b: nat, n: nat, k: nat)
    requires a < Pow2(n) && b < Pow2(n) && k < n
    ensures Bit(XorBits(a, b, n), k) == if Bit(a, k) != Bit(b, k) then 1 else 0
  {
    var x := XorBits(a, b, n);
    assert x / 2 == XorBits(a / 2, b / 2, n - 1);
    if k > 0 {
      XorBitsAt(a / 2, b / 2, n - 1, k - 1);
    }
  }

  // The exclusive or of two texts is that of their bytes, bit by bit.
  lemma XorIs(a: Bytes, b: Bytes, i: nat, k: nat)
    requires |a| == |b| && i < |a| && k < 8
    ensures Bit(Xor(a, b)[i], k) == if Bit(a[i], k) != Bit(b[i], k) then 1 else 0
  {
    XorBitsAt(a[i], b[i], 8, k);
  }

  // Numbers of n bits are their bits, so that says what the exclusive or is.
  lemma {:induction false} BitsDetermine(a: nat, b: nat, n: nat)
    requires a < Pow2(n) && b < Pow2(n) && forall k :: 0 <= k < n ==> Bit(a, k) == Bit(b, k)
    ensures a == b
  {
    if n > 0 {
      assert Bit(a, 0) == Bit(b, 0);
      forall k | 0 <= k < n - 1
        ensures Bit(a / 2, k) == Bit(b / 2, k)
      {
        assert Bit(a, k + 1) == Bit(b, k + 1);
      }
      BitsDetermine(a / 2, b / 2, n - 1);
    }
  }

  lemma XorTwice(a: Bytes, b: Bytes)
    requires |a| == |b|
    ensures Xor(Xor(a, b), b) == a
  {
    forall i | 0 <= i < |a|
      ensures XorBits(XorBits(a[i], b[i], 8), b[i], 8) == a[i]
    {
      XorBitsTwice(a[i], b[i], 8);
    }
  }

  lemma {:induction false} XorBitsTwice(a: nat, b: nat, n: nat)
    requires a < Pow2(n) && b < Pow2(n)
    ensures XorBits(XorBits(a, b, n), b, n) == a
  {
    if n > 0 {
      var x := XorBits(a, b, n);
      assert x / 2 == XorBits(a / 2, b / 2, n - 1);
      XorBitsTwice(a / 2, b / 2, n - 1);
    }
  }

  // digest is SHA-256; enc and dec the block cipher under a key; the last two base64.
  datatype Primitives = Primitives(
    digest: Bytes -> Bytes,
    enc: (Bytes, Bytes) -> Bytes,
    dec: (Bytes, Bytes) -> Bytes,
    encode64: Bytes -> Bytes,
    decode64: Bytes -> Option<Bytes>)

  // A cipher that is a permutation of blocks under every key, and a text encoding that decodes to what it
  // encoded.
  ghost predicate Sound(c: Primitives) {
    && (forall k: Bytes :: |c.digest(k)| == KEY_LENGTH)
    && (forall k: Bytes, b: Bytes :: |b| == BLOCK ==> |c.enc(k, b)| == BLOCK && c.dec(k, c.enc(k, b)) == b)
    && (forall k: Bytes, b: Bytes :: |b| == BLOCK ==> |c.dec(k, b)| == BLOCK && c.enc(k, c.dec(k, b)) == b)
    && (forall b: Bytes :: c.decode64(c.encode64(b)) == Some(b))
  }

  const PLAIN := Primitives(_ => Repeat(0, KEY_LENGTH), (_, b) => b, (_, b) => b, b => b, b => Some(b))

  type Suite = c: Primitives | Sound(c) ghost witness PLAIN

  function CbcEncrypt(c: Suite, key: Bytes, iv: Bytes, data: Bytes): (r: Bytes)
    requires |iv| == BLOCK && |data| % BLOCK == 0
    ensures |r| == |data|
    decreases |data|
  {
    if data == [] then []
    else
      var block := c.enc(key, Xor(data[..BLOCK], iv));
      block + CbcEncrypt(c, key, block, data[BLOCK..])
  }

  function CbcDecrypt(c: Suite, key: Bytes, iv: Bytes, data: Bytes): (r: Bytes)
    requires |iv| == BLOCK && |data| % BLOCK == 0
    ensures |r| == |data|
    decreases |data|
  {
    if data == [] then []
    else
      Xor(c.dec(key, data[..BLOCK]), iv) + CbcDecrypt(c, key, data[..BLOCK], data[BLOCK..])
  }

  // Block i of a text.
  function Block(data: Bytes, i: nat): (b: Bytes)
    requires (i + 1) * BLOCK <= |data|
    ensures |b| == BLOCK
  {
    data[i * BLOCK..(i + 1) * BLOCK]
  }

  // What block i of a text is chained with: the ciphertext before it, which the IV stands in for.
  function Chained(iv: Bytes, cipher: Bytes, i: nat): (b: Bytes)
    requires |iv| == BLOCK && i * BLOCK <= |cipher|
    ensures |b| == BLOCK
  {
    if i == 0 then iv else Block(cipher, i - 1)
  }

  lemma BlockOfRest(data: Bytes, i: nat)
    requires 1 <= i && (i + 1) * BLOCK <= |data|
    ensures Block(data[BLOCK..], i - 1) == Block(data, i)
  {
  }

  // Each block of a ciphertext is the cipher's of the text's block chained with the block before.
  lemma {:induction false} CbcBlockIs(c: Suite, key: Bytes, iv: Bytes, data: Bytes, i: nat)
    requires |iv| == BLOCK && |data| % BLOCK == 0 && (i + 1) * BLOCK <= |data|
    ensures
      var sent := CbcEncrypt(c, key, iv, data);
      Block(sent, i) == c.enc(key, Xor(Block(data, i), Chained(iv, sent, i)))
    decreases i
  {
    var sent := CbcEncrypt(c, key, iv, data);
    var first := c.enc(key, Xor(data[..BLOCK], iv));
    var rest := CbcEncrypt(c, key, first, data[BLOCK..]);
    assert sent == first + rest;
    assert Block(sent, 0) == first;
    if i > 0 {
      CbcBlockIs(c, key, first, data[BLOCK..], i - 1);
      assert sent[BLOCK..] == rest;
      BlockOfRest(data, i);
      BlockOfRest(sent, i);
      if i > 1 {
        BlockOfRest(sent, i - 1);
      }
    }
  }

  lemma {:induction false} CbcRoundTrip(c: Suite, key: Bytes, iv: Bytes, data: Bytes)
    requires |iv| == BLOCK && |data| % BLOCK == 0
    ensures CbcDecrypt(c, key, iv, CbcEncrypt(c, key, iv, data)) == data
    decreases |data|
  {
    if data != [] {
      var block := c.enc(key, Xor(data[..BLOCK], iv));
      var rest := CbcEncrypt(c, key, block, data[BLOCK..]);
      assert (block + rest)[..BLOCK] == block && (block + rest)[BLOCK..] == rest;
      XorTwice(data[..BLOCK], iv);
      CbcRoundTrip(c, key, block, data[BLOCK..]);
      assert data == data[..BLOCK] + data[BLOCK..];
    }
  }

  lemma {:induction false} CbcRoundTripBack(c: Suite, key: Bytes, iv: Bytes, data: Bytes)
    requires |iv| == BLOCK && |data| % BLOCK == 0
    ensures CbcEncrypt(c, key, iv, CbcDecrypt(c, key, iv, data)) == data
    decreases |data|
  {
    if data != [] {
      var block := Xor(c.dec(key, data[..BLOCK]), iv);
      var rest := CbcDecrypt(c, key, data[..BLOCK], data[BLOCK..]);
      assert (block + rest)[..BLOCK] == block && (block + rest)[BLOCK..] == rest;
      XorTwice(c.dec(key, data[..BLOCK]), iv);
      CbcRoundTripBack(c, key, data[..BLOCK], data[BLOCK..]);
      assert data == data[..BLOCK] + data[BLOCK..];
    }
  }

  // ---- A field ----

  function Encrypt(c: Suite, key: Bytes, plaintext: Bytes): Result<Bytes, CryptError>
  {
    if |key| != KEY_LENGTH then Err(BadKeyLength)
    else
      var derived := c.digest(key);
      PadIsWholeBlocks(plaintext, BLOCK);
      Ok(c.encode64(CbcEncrypt(c, derived, derived[..BLOCK], Pad(plaintext, BLOCK))))
  }

  function Decrypt(c: Suite, key: Bytes, text: Bytes): Result<Bytes, CryptError>
  {
    var decoded := c.decode64(text);
    if decoded.None? then Err(NotBase64)
    else if |key| != KEY_LENGTH then Err(BadKeyLength)
    else if |decoded.value| == 0 || |decoded.value| % BLOCK != 0 then Err(NotWholeBlocks)
    else
      var derived := c.digest(key);
      Unpad(CbcDecrypt(c, derived, derived[..BLOCK], decoded.value), BLOCK)
  }

  // sent is the CBC encryption, block by block, of the text padded with n bytes that say n.
  ghost predicate IsCbcOf(c: Suite, key: Bytes, iv: Bytes, plaintext: Bytes, n: Byte, sent: Bytes)
    requires |iv| == BLOCK
  {
    var padded := plaintext + seq(n, _ => n);
    && 1 <= n <= BLOCK && |sent| == |padded| && |padded| % BLOCK == 0
    && forall i: nat :: (i + 1) * BLOCK <= |sent| ==>
         Block(sent, i) == c.enc(key, Xor(Block(padded, i), Chained(iv, sent, i)))
  }

  // An encrypted field is the base64 of that, under the digest of the transaction key and with the first sixteen
  // bytes of the digest as the IV.
  lemma EncryptIs(c: Suite, key: Bytes, plaintext: Bytes)
    requires |key| == 32
    ensures Encrypt(c, key, plaintext).Ok?
    ensures exists n, sent ::
      && Encrypt(c, key, plaintext).value == c.encode64(sent)
      && IsCbcOf(c, c.digest(key), c.digest(key)[..16], plaintext, n, sent)
  {
    var derived := c.digest(key);
    var padded := Pad(plaintext, BLOCK);
    var n: Byte := PadLength(plaintext, BLOCK);
    PadIsWholeBlocks(plaintext, BLOCK);
    var sent := CbcEncrypt(c, derived, derived[..BLOCK], padded);
    assert padded == plaintext + seq(n, _ => n);
    forall i: nat | (i + 1) * BLOCK <= |sent|
      ensures Block(sent, i) == c.enc(derived, Xor(Block(padded, i), Chained(derived[..BLOCK], sent, i)))
    {
      CbcBlockIs(c, derived, derived[..BLOCK], padded, i);
    }
    assert IsCbcOf(c, derived, derived[..BLOCK], plaintext, n, sent);
  }

  // Every text encrypts under a 32-byte key, and decrypts to itself.
  lemma DecryptUndoesEncrypt(c: Suite, key: Bytes, plaintext: Bytes)
    requires |key| == KEY_LENGTH
    ensures Encrypt(c, key, plaintext).Ok?
    ensures Decrypt(c, key, Encrypt(c, key, plaintext).value) == Ok(plaintext)
  {
    var derived := c.digest(key);
    var padded := Pad(plaintext, BLOCK);
    PadIsWholeBlocks(plaintext, BLOCK);
    CbcRoundTrip(c, derived, derived[..BLOCK], padded);
    UnpadInvertsPad(plaintext, padded, BLOCK);
  }

  // Decrypt accepts exactly the encodings of encrypted texts: what it accepts, encrypting its answer
  // gives back, up to the base64 spelling.
  lemma DecryptAcceptsOnlyEncrypted(c: Suite, key: Bytes, text: Bytes, plaintext: Bytes)
    ensures Decrypt(c, key, text) == Ok(plaintext) <==>
      |key| == KEY_LENGTH && c.decode64(text).Some? &&
        Encrypt(c, key, plaintext) == Ok(c.encode64(c.decode64(text).value))
  {
    if |key| == KEY_LENGTH && c.decode64(text).Some? {
      var derived := c.digest(key);
      var iv := derived[..BLOCK];
      var data := c.decode64(text).value;
      PadIsWholeBlocks(plaintext, BLOCK);
      var sent := CbcEncrypt(c, derived, iv, Pad(plaintext, BLOCK));
      if Decrypt(c, key, text) == Ok(plaintext) {
        UnpadInvertsPad(plaintext, CbcDecrypt(c, derived, iv, data), BLOCK);
        CbcRoundTripBack(c, derived, iv, data);
      }
      if Encrypt(c, key, plaintext) == Ok(c.encode64(data)) {
        assert c.decode64(c.encode64(sent)) == c.decode64(c.encode64(data));
        DecryptUndoesEncrypt(c, key, plaintext);
      }
    }
  }
}
