/**
 * Block padding, key folding and the AES framing of the utils package. The block ciphers
 * themselves (DES, AES) are parameters: a cipher is a function from a key and a 16-byte block
 * to a 16-byte block.
 */
module Encrypt {
  import opened Wrappers
  import opened Bytes

  const PaddingTypePKCS7: int := 0
  const PaddingTypePKCS5: int := 1
  const PaddingTypeZero: int := 2
  const PaddingTypeNoPadding: int := 3

  /** aes.BlockSize. */
  const BlockSize: nat := 16

  /** bytes.Repeat([]byte{b}, n). */
  function Repeat(b: byte, n: nat): (r: seq<byte>)
    ensures |r| == n && forall i :: 0 <= i < n ==> r[i] == b
  {
    seq(n, _ => b)
  }

  /** The pad length of both schemes: blockSize - len % blockSize, which completes the block. */
  function PadCount(n: nat, blockSize: nat): (p: nat)
    requires blockSize > 0
    ensures 1 <= p <= blockSize && n + p == (n / blockSize + 1) * blockSize
  {
    PadCompletes(n, blockSize);
    blockSize - n % blockSize
  }

  lemma PadCompletes(n: nat, blockSize: nat)
    requires blockSize > 0
    ensures n + (blockSize - n % blockSize) == (n / blockSize + 1) * blockSize
  {
    var q := n / blockSize;
    assert n == q * blockSize + n % blockSize;
  }

  /**
   * PKCS7Padding: p = blockSize - len % blockSize copies of byte(p). The result is the next
   * multiple of the block size strictly above the input length.
   */
  function PKCS7Padding(text: seq<byte>, blockSize: nat): (r: seq<byte>)
    requires blockSize > 0
    ensures |r| == (|text| / blockSize + 1) * blockSize && |text| < |r| <= |text| + blockSize
    ensures r[..|text|] == text
    ensures forall i :: |text| <= i < |r| ==> r[i] == (|r| - |text|) % Two8
  {
    var p := PadCount(|text|, blockSize);
    text + Repeat(p % Two8, p)
  }

  /**
   * PKCS7UnPadding: nil for empty data; a last byte outside 1..32 removes nothing; a last byte
   * above the length gives nil; otherwise that many trailing bytes are dropped.
   */
  function PKCS7UnPadding(data: seq<byte>): (r: Option<seq<byte>>)
    ensures |data| == 0 ==> r == None
    ensures r.Some? ==> |r.value| <= |data| && r.value == data[..|r.value|] && |data| - |r.value| <= 32
    ensures |data| > 0 && (data[|data| - 1] < 1 || data[|data| - 1] > 32) ==> r == Some(data)
    ensures |data| > 0 && 1 <= data[|data| - 1] <= 32 && |data| < data[|data| - 1] as int ==> r == None
    ensures |data| > 0 && 1 <= data[|data| - 1] <= 32 && data[|data| - 1] as int <= |data| ==>
            r == Some(data[..|data| - data[|data| - 1] as int])
  {
    if |data| == 0 then None
    else
      var last := data[|data| - 1];
      if last < 1 || last > 32 then Some(data)
      else if |data| < last then None
      else Some(data[..|data| - last])
  }

  /** Unpadding undoes padding for every block size in 1..32 (PKCS5 is block size 8). */
  lemma PKCS7RoundTrip(text: seq<byte>, blockSize: nat)
    requires 1 <= blockSize <= 32
    ensures PKCS7UnPadding(PKCS7Padding(text, blockSize)) == Some(text)
  {
    var r := PKCS7Padding(text, blockSize);
    assert r[|r| - 1] == |r| - |text|;
  }

  function PKCS5Padding(text: seq<byte>): (r: seq<byte>)
    ensures r == PKCS7Padding(text, 8)
  {
    PKCS7Padding(text, 8)
  }

  function PKCS5UnPadding(data: seq<byte>): (r: Option<seq<byte>>)
    ensures r == PKCS7UnPadding(data)
  {
    PKCS7UnPadding(data)
  }

  /**
   * ZeroPadding: blockSize - len % blockSize zero bytes, so already aligned data gains a whole
   * block of zeros.
   */
  function ZeroPadding(text: seq<byte>, blockSize: nat): (r: seq<byte>)
    requires blockSize > 0
    ensures |r| == (|text| / blockSize + 1) * blockSize && |text| < |r| <= |text| + blockSize
    ensures r[..|text|] == text && forall i :: |text| <= i < |r| ==> r[i] == 0
  {
    text + Repeat(0, PadCount(|text|, blockSize))
  }

  /** Aligned input is padded with a full block, not left as it is. */
  lemma ZeroPaddingAligned(text: seq<byte>, blockSize: nat)
    requires blockSize > 0 && |text| % blockSize == 0
    ensures ZeroPadding(text, blockSize) == text + Repeat(0, blockSize)
  {
  }

  /** ZeroUnPadding: every trailing zero byte is trimmed. */
  function ZeroUnPadding(data: seq<byte>): (r: seq<byte>)
    ensures |r| <= |data| && r == data[..|r|]
    ensures |r| == 0 || r[|r| - 1] != 0
    ensures forall i :: |r| <= i < |data| ==> data[i] == 0
    decreases |data|
  {
    if |data| > 0 && data[|data| - 1] == 0 then ZeroUnPadding(data[..|data| - 1]) else data
  }

  /** Trimming the zeros back gives the input exactly when the input does not end in a zero. */
  lemma ZeroRoundTrip(text: seq<byte>, blockSize: nat)
    requires blockSize > 0
    ensures ZeroUnPadding(ZeroPadding(text, blockSize)) == text <==> (|text| == 0 || text[|text| - 1] != 0)
  {
    var z := ZeroUnPadding(ZeroPadding(text, blockSize));
    if |text| == 0 || text[|text| - 1] != 0 {
      ZeroTrimStops(text, ZeroPadding(text, blockSize));
    }
  }

  /** Trimming zeros from text followed by zeros stops at the end of text when it ends in a non-zero. */
  lemma {:induction false} ZeroTrimStops(text: seq<byte>, padded: seq<byte>)
    requires |text| <= |padded| && padded[..|text|] == text
    requires forall i :: |text| <= i < |padded| ==> padded[i] == 0
    requires |text| == 0 || text[|text| - 1] != 0
    ensures ZeroUnPadding(padded) == text
    decreases |padded|
  {
    if |padded| > |text| {
      var init := padded[..|padded| - 1];
      assert init[..|text|] == text;
      ZeroTrimStops(text, init);
    } else {
      assert padded == text;
    }
  }

  /** padding: the scheme chosen by type; nil for any other type. */
  function Padding(packType: int, text: seq<byte>, blockSize: nat): (r: Option<seq<byte>>)
    requires packType == PaddingTypePKCS7 || packType == PaddingTypeZero ==> blockSize > 0
    ensures r.Some? <==> packType in {PaddingTypePKCS7, PaddingTypePKCS5, PaddingTypeZero}
  {
    if packType == PaddingTypePKCS7 then Some(PKCS7Padding(text, blockSize))
    else if packType == PaddingTypePKCS5 then Some(PKCS5Padding(text))
    else if packType == PaddingTypeZero then Some(ZeroPadding(text, blockSize))
    else None
  }

  /** unPacking: PKCS7 and PKCS5 are unpadded; zero padding and unknown types are left as they are. */
  function UnPacking(packType: int, data: seq<byte>): (r: Option<seq<byte>>)
    ensures packType != PaddingTypePKCS7 && packType != PaddingTypePKCS5 ==> r == Some(data)
  {
    if packType == PaddingTypePKCS7 || packType == PaddingTypePKCS5 then PKCS7UnPadding(data)
    else Some(data)
  }

  /** The two PKCS schemes round-trip through padding and unPacking (PKCS7 for block sizes 1..32). */
  lemma PaddingRoundTrip(packType: int, text: seq<byte>, blockSize: nat)
    requires packType == PaddingTypePKCS5 || (packType == PaddingTypePKCS7 && 1 <= blockSize <= 32)
    ensures Padding(packType, text, blockSize).Some?
    ensures UnPacking(packType, Padding(packType, text, blockSize).value) == Some(text)
  {
    if packType == PaddingTypePKCS5 {
      PKCS7RoundTrip(text, 8);
    } else {
      PKCS7RoundTrip(text, blockSize);
    }
  }

  /**
   * Byte t of the folded key: the exclusive or of the key bytes among the first n at positions
   * congruent to t modulo 16, 0 when there are none.
   */
  function ColumnXor(key: seq<byte>, t: nat, n: nat): byte
    requires n <= |key|
    decreases n
  {
    if n == 0 then 0
    else if (n - 1) % 16 != t then ColumnXor(key, t, n - 1)
    else if n - 1 < 16 then key[n - 1]
    else Xor(ColumnXor(key, t, n - 1), key[n - 1])
  }

  /** The 16 columns of the fold over the first n key bytes. */
  function Fold(key: seq<byte>, n: nat): (r: seq<byte>)
    requires n <= |key|
    ensures |r| == 16 && forall t :: 0 <= t < 16 ==> r[t] == ColumnXor(key, t, n)
  {
    seq(16, t requires 0 <= t < 16 => ColumnXor(key, t, n))
  }

  /** The 16-byte AES key generateKey derives from a key of any length. */
  function FoldedKey(key: seq<byte>): (r: seq<byte>)
    ensures |r| == 16 && forall t :: 0 <= t < 16 ==> r[t] == ColumnXor(key, t, |key|)
  {
    Fold(key, |key|)
  }

  /** Among the first n <= 16 bytes, byte t of the fold is the key byte itself, or 0 past the key. */
  lemma {:induction false} ColumnXorPrefix(key: seq<byte>, t: nat, n: nat)
    requires n <= |key| && n <= 16 && t < 16
    ensures ColumnXor(key, t, n) == if t < n then key[t] else 0
    decreases n
  {
    if n > 0 {
      ColumnXorPrefix(key, t, n - 1);
    }
  }

  /** The fold over at most 16 bytes is those bytes followed by zeros. */
  lemma FoldPrefix(key: seq<byte>, n: nat)
    requires n <= |key| && n <= 16
    ensures Fold(key, n) == key[..n] + Repeat(0, 16 - n)
  {
    forall t | 0 <= t < 16 ensures Fold(key, n)[t] == (key[..n] + Repeat(0, 16 - n))[t] {
      ColumnXorPrefix(key, t, n);
    }
  }

  /** Past the first 16 bytes, one more key byte is xored into its own column only. */
  lemma FoldStep(key: seq<byte>, i: nat)
    requires 16 <= i < |key|
    ensures Fold(key, i + 1) == Fold(key, i)[i % 16 := Xor(Fold(key, i)[i % 16], key[i])]
  {
  }

  /** Byte base + j of the key, with base a multiple of 16 and j < 16, falls in column j. */
  lemma ColumnOf(base: nat, j: nat)
    requires base % 16 == 0 && j < 16
    ensures (base + j) % 16 == j
  {
  }

  /** A key of at most 16 bytes is zero-extended to 16 bytes. */
  lemma FoldShortKey(key: seq<byte>)
    requires |key| <= 16
    ensures FoldedKey(key) == key + Repeat(0, 16 - |key|)
  {
    FoldPrefix(key, |key|);
    assert key[..|key|] == key;
  }

  /**
   * generateKey: the key copied into 16 zero bytes, then each further 16-byte group of the key
   * xored onto them.
   */
  method GenerateKey(key: seq<byte>) returns (genKey: seq<byte>)
    ensures genKey == FoldedKey(key)
  {
    var g := new byte[16](_ => 0);
    var n := if |key| < 16 then |key| else 16;
    forall t | 0 <= t < n {
      g[t] := key[t];
    }
    FoldPrefix(key, n);
    assert g[..] == Fold(key, n);
    var i := 16;
    while i < |key|
      invariant 16 <= i && (i < |key| ==> i % 16 == 0) && (i > |key| ==> i == 16)
      invariant g[..] == Fold(key, if i < |key| then i else |key|)
      decreases |key| - i
    {
      i := XorGroup(g, key, i);
    }
    genKey := g[..];
  }

  /** One pass of generateKey's outer loop: the 16-byte group of the key at base xored onto g. */
  method XorGroup(g: array<byte>, key: seq<byte>, base: nat) returns (i: nat)
    requires g.Length == 16 && base % 16 == 0 && 16 <= base < |key| && g[..] == Fold(key, base)
    modifies g
    ensures i == if base + 16 <= |key| then base + 16 else |key|
    ensures g[..] == Fold(key, i)
  {
    var j := 0;
    i := base;
    while j < 16 && i < |key|
      invariant 0 <= j <= 16 && i == base + j && 16 <= i <= |key|
      invariant g[..] == Fold(key, i)
    {
      FoldStep(key, i);
      ColumnOf(base, j);
      ghost var prev := g[..];
      g[j] := Xor(g[j], key[i]);
      assert g[..] == prev[j := Xor(prev[j], key[i])];
      j, i := j + 1, i + 1;
    }
  }

  /** The first byte of block i / 16: the offset of the 16-byte block holding index i. */
  function BlockStart(i: nat): nat {
    i / BlockSize * BlockSize
  }

  /** A cipher applied to every 16-byte block of data, in place. */
  function BlockImage(f: (seq<byte>, seq<byte>) -> seq<byte>, k: seq<byte>, data: seq<byte>): (r: seq<byte>)
    requires |data| % BlockSize == 0
    requires forall b :: |b| == BlockSize ==> |f(k, b)| == BlockSize
    ensures |r| == |data|
  {
    seq(|data|, i requires 0 <= i < |data| =>
      f(k, data[BlockStart(i)..BlockStart(i) + BlockSize])[i % BlockSize])
  }

  /**
   * AESEncrypt's plaintext: the source followed by pad copies of byte pad, up to the next
   * multiple of 16 strictly above its length (pad in 1..16).
   */
  function AESPlain(src: seq<byte>): (r: seq<byte>)
    ensures |r| == (|src| + BlockSize) / BlockSize * BlockSize
    ensures |r| % BlockSize == 0 && |src| < |r| <= |src| + BlockSize
    ensures r[..|src|] == src && forall i :: |src| <= i < |r| ==> r[i] == |r| - |src|
  {
    var n := (|src| + BlockSize) / BlockSize * BlockSize;
    src + Repeat(n - |src|, n - |src|)
  }

  /** AESDecrypt's last step: drop as many bytes as the last byte says; nil when that is too many. */
  function AESTrim(d: seq<byte>): (r: Option<seq<byte>>)
    ensures |d| == 0 ==> r == Some([])
    ensures |d| > 0 && d[|d| - 1] > |d| ==> r == None
    ensures |d| > 0 && d[|d| - 1] <= |d| ==> r == Some(d[..|d| - d[|d| - 1]])
  {
    var trim := if |d| > 0 then |d| - d[|d| - 1] else 0;
    if trim < 0 then None else Some(d[..trim])
  }

  /** In a multiple of 16, a block that starts at or before n < length ends within it. */
  lemma BlockFits(n: nat, bs: nat, total: nat)
    requires bs % BlockSize == 0 && total % BlockSize == 0 && bs <= n < total
    ensures bs + BlockSize <= total
  {
  }

  /** A multiple of 16 above n and no further than the AES plaintext length is that length. */
  lemma BlocksDone(n: nat, bs: nat)
    requires bs % BlockSize == 0 && n < bs <= (n + BlockSize) / BlockSize * BlockSize
    ensures bs == (n + BlockSize) / BlockSize * BlockSize
  {
  }

  /** The padding step of AESEncrypt: the source copied into whole blocks, then the pad bytes. */
  method Pad(src: seq<byte>) returns (p: seq<byte>)
    ensures p == AESPlain(src)
  {
    var length := (|src| + BlockSize) / BlockSize;
    var plain := new byte[length * BlockSize](_ => 0);
    forall i | 0 <= i < |src| {
      plain[i] := src[i];
    }
    var pad := plain.Length - |src|;
    var i := |src|;
    while i < plain.Length
      invariant |src| <= i <= plain.Length
      invariant plain[..|src|] == src
      invariant forall t :: |src| <= t < i ==> plain[t] == pad
    {
      plain[i] := pad;
      i := i + 1;
    }
    p := plain[..];
    assert p == AESPlain(src);
  }

  /**
   * AESEncrypt: the padded plaintext encrypted block by block under the folded key. The loop
   * runs while the block start is within the source, which covers every block of the plaintext.
   */
  method AESEncrypt(src: seq<byte>, key: seq<byte>, encrypt: (seq<byte>, seq<byte>) -> seq<byte>)
    returns (encrypted: seq<byte>)
    requires forall k, b :: |b| == BlockSize ==> |encrypt(k, b)| == BlockSize
    ensures encrypted == BlockImage(encrypt, FoldedKey(key), AESPlain(src))
  {
    var genKey := GenerateKey(key);
    var p := Pad(src);
    ghost var image := BlockImage(encrypt, genKey, p);
    var out := new byte[|p|](_ => 0);
    var bs := 0;
    while bs <= |src|
      invariant bs % BlockSize == 0 && bs <= |p|
      invariant forall t :: 0 <= t < bs ==> out[t] == image[t]
    {
      BlockFits(|src|, bs, |p|);
      var blk := encrypt(genKey, p[bs..bs + BlockSize]);
      ImageBlock(encrypt, genKey, p, bs);
      assert blk == image[bs..bs + BlockSize];
      forall t | 0 <= t < BlockSize {
        out[bs + t] := blk[t];
      }
      bs := bs + BlockSize;
    }
    BlocksDone(|src|, bs);
    assert out[..] == image;
    encrypted := out[..];
  }

  /**
   * AESDecrypt: every 16-byte block decrypted under the folded key, then trimmed by the last
   * byte. The source slices past the buffer, and panics, when the input is not whole blocks.
   */
  method AESDecrypt(encrypted: seq<byte>, key: seq<byte>, decrypt: (seq<byte>, seq<byte>) -> seq<byte>)
    returns (r: Outcome<Option<seq<byte>>>)
    requires forall k, b :: |b| == BlockSize ==> |decrypt(k, b)| == BlockSize
    ensures |encrypted| % BlockSize != 0 ==> r == Panics
    ensures |encrypted| % BlockSize == 0 ==> r == Returns(AESTrim(BlockImage(decrypt, FoldedKey(key), encrypted)))
  {
    var genKey := GenerateKey(key);
    var size := |encrypted|;
    if size % BlockSize != 0 {
      return Panics;
    }
    ghost var image := BlockImage(decrypt, genKey, encrypted);
    var decrypted := new byte[size](_ => 0);
    var bs := 0;
    while bs < size
      invariant bs % BlockSize == 0 && bs <= size
      invariant forall t :: 0 <= t < bs ==> decrypted[t] == image[t]
    {
      BlockFits(bs, bs, size);
      var blk := decrypt(genKey, encrypted[bs..bs + BlockSize]);
      ImageBlock(decrypt, genKey, encrypted, bs);
      assert blk == image[bs..bs + BlockSize];
      forall t | 0 <= t < BlockSize {
        decrypted[bs + t] := blk[t];
      }
      bs := bs + BlockSize;
    }
    assert decrypted[..] == image;
    var trim := 0;
    if size > 0 {
      trim := size - decrypted[size - 1];
    }
    if trim < 0 {
      return Returns(None);
    }
    return Returns(Some(decrypted[..trim]));
  }

  /** The block of a block image starting at s is the cipher applied to the block at s. */
  lemma ImageBlock(f: (seq<byte>, seq<byte>) -> seq<byte>, k: seq<byte>, data: seq<byte>, s: nat)
    requires |data| % BlockSize == 0 && s % BlockSize == 0 && s + BlockSize <= |data|
    requires forall b :: |b| == BlockSize ==> |f(k, b)| == BlockSize
    ensures BlockImage(f, k, data)[s..s + BlockSize] == f(k, data[s..s + BlockSize])
  {
    var img := BlockImage(f, k, data)[s..s + BlockSize];
    forall t | 0 <= t < BlockSize ensures img[t] == f(k, data[s..s + BlockSize])[t] {
      assert BlockStart(s + t) == s;
    }
  }

  /** Decrypting every block of an encryption gives the data back when decryption inverts it. */
  lemma ImageInverse(f: (seq<byte>, seq<byte>) -> seq<byte>, g: (seq<byte>, seq<byte>) -> seq<byte>,
                     k: seq<byte>, data: seq<byte>)
    requires |data| % BlockSize == 0
    requires forall b :: |b| == BlockSize ==> |f(k, b)| == BlockSize && |g(k, b)| == BlockSize
    requires forall b :: |b| == BlockSize ==> g(k, f(k, b)) == b
    ensures BlockImage(g, k, BlockImage(f, k, data)) == data
  {
    var c := BlockImage(f, k, data);
    var d := BlockImage(g, k, c);
    forall i | 0 <= i < |data| ensures d[i] == data[i] {
      ImageInverseAt(f, g, k, data, i);
    }
  }

  /** ImageInverse at one index: the block holding it is decrypted back to itself. */
  lemma ImageInverseAt(f: (seq<byte>, seq<byte>) -> seq<byte>, g: (seq<byte>, seq<byte>) -> seq<byte>,
                       k: seq<byte>, data: seq<byte>, i: nat)
    requires |data| % BlockSize == 0 && i < |data|
    requires forall b :: |b| == BlockSize ==> |f(k, b)| == BlockSize && |g(k, b)| == BlockSize
    requires forall b :: |b| == BlockSize ==> g(k, f(k, b)) == b
    ensures BlockImage(g, k, BlockImage(f, k, data))[i] == data[i]
  {
    var s := BlockStart(i);
    BlockStartOf(i, |data|);
    var blk := data[s..s + BlockSize];
    ImageBlock(f, k, data, s);
    var c := BlockImage(f, k, data);
    assert c[s..s + BlockSize] == f(k, blk);
    assert BlockImage(g, k, c)[i] == g(k, c[s..s + BlockSize])[i % BlockSize];
    assert blk[i % BlockSize] == data[i];
  }

  /** The block holding index i of whole blocks starts at a multiple of 16 and fits. */
  lemma BlockStartOf(i: nat, n: nat)
    requires n % BlockSize == 0 && i < n
    ensures BlockStart(i) % BlockSize == 0 && BlockStart(i) + i % BlockSize == i
    ensures BlockStart(i) + BlockSize <= n
  {
  }

  /**
   * With a decryption that inverts the encryption block by block, AESDecrypt gives back what
   * AESEncrypt was given.
   */
  lemma AESRoundTrip(src: seq<byte>, k: seq<byte>, encrypt: (seq<byte>, seq<byte>) -> seq<byte>,
                     decrypt: (seq<byte>, seq<byte>) -> seq<byte>)
    requires forall b :: |b| == BlockSize ==> |encrypt(k, b)| == BlockSize && |decrypt(k, b)| == BlockSize
    requires forall b :: |b| == BlockSize ==> decrypt(k, encrypt(k, b)) == b
    ensures AESTrim(BlockImage(decrypt, k, BlockImage(encrypt, k, AESPlain(src)))) == Some(src)
  {
    ImageInverse(encrypt, decrypt, k, AESPlain(src));
  }
}
