/** The XTEA block cipher (Needham and Wheeler, 1997: 64-bit blocks, a
    128-bit key, 32 rounds), PKCS#7 padding as in section 6.3 of RFC 5652,
    and the CBC and CFB modes of sections 6.2 and 6.3 of NIST SP 800-38A,
    both with an all-zero initialisation vector. */
module Xtea {
  import opened Wrappers
  import opened Bytes

  const BlockSize: nat := 8
  const NumRounds: nat := 32
  const Delta: uint32 := 0x9E3779B9
  /** The running sum decryption starts from: 32 * Delta modulo 2^32. */
  const DecryptStartSum: uint32 := 0xC6EF3720
  /** The fixed initialisation vector of both modes. */
  const ZeroIV: seq<byte> := [0, 0, 0, 0, 0, 0, 0, 0]

  datatype CipherError =
    | InvalidKeyLength           // the key is not 16 bytes long
    | CiphertextNotBlockAligned  // the ciphertext is not a whole number of blocks
    | EmptyData                  // unpad: nothing to unpad
    | InvalidPadding             // unpad: the padding bytes are malformed

  /** An XTEA instance: the four big-endian key words. The Go struct is never
      changed after construction, so it is a value here. */
  datatype Cipher = Cipher(k0: uint32, k1: uint32, k2: uint32, k3: uint32) {
    /** `key[i]` for an index below four. */
    function Word(i: nat): uint32
      requires i < 4
    {
      if i == 0 then k0 else if i == 1 then k1 else if i == 2 then k2 else k3
    }

    /** The 16 key bytes the words were read from. */
    function KeyBytes(): (b: seq<byte>)
      ensures |b| == 16
    {
      PutUint32BE(k0) + PutUint32BE(k1) + PutUint32BE(k2) + PutUint32BE(k3)
    }
  }

  /** `NewXTEA`: fails exactly when the key is not 16 bytes long; otherwise the
      key words are the big-endian readings of key[0:4], ..., key[12:16], so
      writing them back gives the key. */
  function NewXTEA(key: seq<byte>): (r: Result<Cipher, CipherError>)
    ensures r.Err? <==> |key| != 16
    ensures r.Err? ==> r.error == InvalidKeyLength
    ensures r.Ok? ==> r.value.KeyBytes() == key
  {
    if |key| != 16 then Err(InvalidKeyLength)
    else
      var c := Cipher(Uint32BE(key[0..4]), Uint32BE(key[4..8]), Uint32BE(key[8..12]), Uint32BE(key[12..16]));
      PutOfUint32(key[0..4]);
      PutOfUint32(key[4..8]);
      PutOfUint32(key[8..12]);
      PutOfUint32(key[12..16]);
      assert key == key[0..4] + key[4..8] + key[8..12] + key[12..16];
      Ok(c)
  }

  // ---------------------------------------------------------------------
  // The round function

  /** The state the round loops update: the two halves and the running sum. */
  datatype Rounds = Rounds(v0: uint32, v1: uint32, sum: uint32)

  /** `((v << 4) ^ (v >> 5)) + v` on `uint32`. */
  function Mix(v: uint32): uint32 {
    Add32(Xor32((v * 16) % Modulus32, v / 32), v)
  }

  /** One iteration of the loop in block `Encrypt`. */
  function EncRound(c: Cipher, s: Rounds): Rounds {
    var v0 := Add32(s.v0, Xor32(Mix(s.v1), Add32(s.sum, c.Word(s.sum % 4))));
    var sum := Add32(s.sum, Delta);
    var v1 := Add32(s.v1, Xor32(Mix(v0), Add32(sum, c.Word((sum / 2048) % 4))));
    Rounds(v0, v1, sum)
  }

  /** One iteration of the loop in block `Decrypt`. */
  function DecRound(c: Cipher, s: Rounds): Rounds {
    var v1 := Sub32(s.v1, Xor32(Mix(s.v0), Add32(s.sum, c.Word((s.sum / 2048) % 4))));
    var sum := Sub32(s.sum, Delta);
    var v0 := Sub32(s.v0, Xor32(Mix(v1), Add32(sum, c.Word(sum % 4))));
    Rounds(v0, v1, sum)
  }

  lemma DecRoundUndoesEncRound(c: Cipher, s: Rounds)
    ensures DecRound(c, EncRound(c, s)) == s
  {
    var e := EncRound(c, s);
    Sub32Add32(s.sum, Delta);
    Sub32Add32(s.v1, Xor32(Mix(e.v0), Add32(e.sum, c.Word((e.sum / 2048) % 4))));
    Sub32Add32(s.v0, Xor32(Mix(s.v1), Add32(s.sum, c.Word(s.sum % 4))));
  }

  lemma EncRoundUndoesDecRound(c: Cipher, s: Rounds)
    ensures EncRound(c, DecRound(c, s)) == s
  {
    var d := DecRound(c, s);
    Add32Sub32(s.sum, Delta);
    Add32Sub32(s.v0, Xor32(Mix(d.v1), Add32(d.sum, c.Word(d.sum % 4))));
    Add32Sub32(s.v1, Xor32(Mix(s.v0), Add32(s.sum, c.Word((s.sum / 2048) % 4))));
  }

  /** `f` applied `n` times to `s`. */
  function Iterate(f: Rounds -> Rounds, n: nat, s: Rounds): Rounds {
    if n == 0 then s else f(Iterate(f, n - 1, s))
  }

  /** When `g` undoes `f`, `j` applications of `g` after `n` of `f` undo the
      last `j` of them. */
  lemma {:induction false} IterateUndone(f: Rounds -> Rounds, g: Rounds -> Rounds, n: nat, j: nat, s: Rounds)
    requires forall t :: g(f(t)) == t
    requires j <= n
    ensures Iterate(g, j, Iterate(f, n, s)) == Iterate(f, n - j, s)
  {
    if j > 0 {
      IterateUndone(f, g, n, j - 1, s);
      assert Iterate(f, n - (j - 1), s) == f(Iterate(f, n - j, s));
    }
  }

  /** The loop body of block `Encrypt` as a function on states. */
  function EncRounds(c: Cipher): Rounds -> Rounds {
    s => EncRound(c, s)
  }

  /** The loop body of block `Decrypt` as a function on states. */
  function DecRounds(c: Cipher): Rounds -> Rounds {
    s => DecRound(c, s)
  }

  /** The state after `n` encryption rounds. */
  function EncIter(c: Cipher, n: nat, s: Rounds): Rounds {
    Iterate(EncRounds(c), n, s)
  }

  /** The state after `n` decryption rounds. */
  function DecIter(c: Cipher, n: nat, s: Rounds): Rounds {
    Iterate(DecRounds(c), n, s)
  }

  /** Delta added `n` times. */
  function SumAfter(n: nat): uint32 {
    if n == 0 then 0 else Add32(SumAfter(n - 1), Delta)
  }

  /** The starting sum of decryption is the sum encryption ends with:
      32 * 0x9E3779B9 modulo 2^32 is 0xC6EF3720. */
  lemma StartSumIsFinalSum()
    ensures SumAfter(NumRounds) == DecryptStartSum
  {
    assert SumAfter(4) == 0x78DDE6E4;
    assert SumAfter(8) == 0xF1BBCDC8;
    assert SumAfter(12) == 0x6A99B4AC;
    assert SumAfter(16) == 0xE3779B90;
    assert SumAfter(20) == 0x5C558274;
    assert SumAfter(24) == 0xD5336958;
    assert SumAfter(28) == 0x4E11503C;
  }

  lemma {:induction false} EncIterSum(c: Cipher, n: nat, s: Rounds)
    ensures EncIter(c, n, s).sum == Add32(s.sum, SumAfter(n))
  {
    if n > 0 {
      EncIterSum(c, n - 1, s);
      Add32Assoc(s.sum, SumAfter(n - 1), Delta);
    }
  }

  lemma {:induction false} DecIterSum(c: Cipher, n: nat, s: Rounds)
    ensures DecIter(c, n, s).sum == Sub32(s.sum, SumAfter(n))
  {
    if n > 0 {
      DecIterSum(c, n - 1, s);
      Sub32Assoc(s.sum, SumAfter(n - 1), Delta);
    }
  }

  /** Running `j` decryption rounds after `n` encryption rounds undoes the
      last `j` of them. */
  lemma DecIterAfterEncIter(c: Cipher, n: nat, j: nat, s: Rounds)
    requires j <= n
    ensures DecIter(c, j, EncIter(c, n, s)) == EncIter(c, n - j, s)
  {
    forall t ensures DecRounds(c)(EncRounds(c)(t)) == t {
      DecRoundUndoesEncRound(c, t);
    }
    IterateUndone(EncRounds(c), DecRounds(c), n, j, s);
  }

  /** Running `j` encryption rounds after `n` decryption rounds undoes the
      last `j` of them. */
  lemma EncIterAfterDecIter(c: Cipher, n: nat, j: nat, s: Rounds)
    requires j <= n
    ensures EncIter(c, j, DecIter(c, n, s)) == DecIter(c, n - j, s)
  {
    forall t ensures EncRounds(c)(DecRounds(c)(t)) == t {
      EncRoundUndoesDecRound(c, t);
    }
    IterateUndone(DecRounds(c), EncRounds(c), n, j, s);
  }

  // ---------------------------------------------------------------------
  // Single blocks

  /** The ciphertext block for an 8-byte plaintext block. */
  function EncryptedBlock(c: Cipher, b: seq<byte>): (r: seq<byte>)
    requires |b| == BlockSize
    ensures |r| == BlockSize
  {
    var s := EncIter(c, NumRounds, Rounds(Uint32BE(b[0..4]), Uint32BE(b[4..8]), 0));
    PutUint32BE(s.v0) + PutUint32BE(s.v1)
  }

  /** The plaintext block for an 8-byte ciphertext block. */
  function DecryptedBlock(c: Cipher, b: seq<byte>): (r: seq<byte>)
    requires |b| == BlockSize
    ensures |r| == BlockSize
  {
    var s := DecIter(c, NumRounds, Rounds(Uint32BE(b[0..4]), Uint32BE(b[4..8]), DecryptStartSum));
    PutUint32BE(s.v0) + PutUint32BE(s.v1)
  }

  /** On the two words: the 32 decryption rounds, started from the final
      sum of encryption, undo the 32 encryption rounds. */
  lemma DecIterUndoesEncIter(c: Cipher, s: Rounds)
    requires s.sum == 0
    ensures var e := EncIter(c, NumRounds, s);
            DecIter(c, NumRounds, Rounds(e.v0, e.v1, DecryptStartSum)) == s
  {
    EncIterSum(c, NumRounds, s);
    StartSumIsFinalSum();
    DecIterAfterEncIter(c, NumRounds, NumRounds, s);
  }

  /** On the two words: the 32 encryption rounds, started from zero, undo
      the 32 decryption rounds. */
  lemma EncIterUndoesDecIter(c: Cipher, s: Rounds)
    requires s.sum == DecryptStartSum
    ensures var d := DecIter(c, NumRounds, s);
            EncIter(c, NumRounds, Rounds(d.v0, d.v1, 0)) == s
  {
    DecIterSum(c, NumRounds, s);
    StartSumIsFinalSum();
    EncIterAfterDecIter(c, NumRounds, NumRounds, s);
  }

  /** Splitting an 8-byte block into two words and writing them back gives
      the block. */
  lemma BlockWords(b: seq<byte>)
    requires |b| == BlockSize
    ensures PutUint32BE(Uint32BE(b[0..4])) + PutUint32BE(Uint32BE(b[4..8])) == b
  {
    PutOfUint32(b[0..4]);
    PutOfUint32(b[4..8]);
    assert b == b[0..4] + b[4..8];
  }

  /** Writing two words and reading them back gives the words. */
  lemma WordsBlock(v0: uint32, v1: uint32)
    ensures var b := PutUint32BE(v0) + PutUint32BE(v1);
            Uint32BE(b[0..4]) == v0 && Uint32BE(b[4..8]) == v1
  {
    var b := PutUint32BE(v0) + PutUint32BE(v1);
    assert b[0..4] == PutUint32BE(v0) && b[4..8] == PutUint32BE(v1);
    Uint32OfPut(v0);
    Uint32OfPut(v1);
  }

  /** Block decryption inverts block encryption, for every key and block. */
  lemma DecryptedEncryptedBlock(c: Cipher, b: seq<byte>)
    requires |b| == BlockSize
    ensures DecryptedBlock(c, EncryptedBlock(c, b)) == b
  {
    var s0 := Rounds(Uint32BE(b[0..4]), Uint32BE(b[4..8]), 0);
    var e := EncIter(c, NumRounds, s0);
    WordsBlock(e.v0, e.v1);
    DecIterUndoesEncIter(c, s0);
    BlockWords(b);
  }

  /** Block encryption inverts block decryption: the block cipher is a
      permutation of 8-byte blocks. */
  lemma EncryptedDecryptedBlock(c: Cipher, b: seq<byte>)
    requires |b| == BlockSize
    ensures EncryptedBlock(c, DecryptedBlock(c, b)) == b
  {
    var s0 := Rounds(Uint32BE(b[0..4]), Uint32BE(b[4..8]), DecryptStartSum);
    var d := DecIter(c, NumRounds, s0);
    WordsBlock(d.v0, d.v1);
    EncIterUndoesDecIter(c, s0);
    BlockWords(b);
  }

  /** Block `Encrypt(dst, src)`: reads src[0:8] and writes dst[off:off+8] and
      nothing else (`dst` with `off` stands for the Go slice dst[off:]). A
      shorter buffer makes the source panic, so it is excluded here. */
  method EncryptBlock(c: Cipher, dst: array<byte>, off: nat, src: seq<byte>)
    requires |src| >= BlockSize
    requires off + BlockSize <= dst.Length
    modifies dst
    ensures dst[off..off + BlockSize] == EncryptedBlock(c, src[..BlockSize])
    ensures forall k :: 0 <= k < dst.Length && !(off <= k < off + BlockSize) ==> dst[k] == old(dst[k])
  {
    var v0: uint32 := Uint32BE(src[0..4]);
    var v1: uint32 := Uint32BE(src[4..8]);
    var sum: uint32 := 0;
    ghost var start := Rounds(v0, v1, sum);
    var i := 0;
    while i < NumRounds
      invariant 0 <= i <= NumRounds
      invariant Rounds(v0, v1, sum) == EncIter(c, i, start)
    {
      v0 := Add32(v0, Xor32(Add32(Xor32((v1 * 16) % Modulus32, v1 / 32), v1), Add32(sum, c.Word(sum % 4))));
      sum := Add32(sum, Delta);
      v1 := Add32(v1, Xor32(Add32(Xor32((v0 * 16) % Modulus32, v0 / 32), v0), Add32(sum, c.Word((sum / 2048) % 4))));
      i := i + 1;
    }
    PutUint32(dst, off, v0);
    PutUint32(dst, off + 4, v1);
    assert dst[off..off + BlockSize] == dst[off..off + 4] + dst[off + 4..off + 8];
    assert src[..BlockSize][0..4] == src[0..4] && src[..BlockSize][4..8] == src[4..8];
  }

  /** Block `Decrypt(dst, src)`, with the same footprint as `EncryptBlock`. */
  method DecryptBlock(c: Cipher, dst: array<byte>, off: nat, src: seq<byte>)
    requires |src| >= BlockSize
    requires off + BlockSize <= dst.Length
    modifies dst
    ensures dst[off..off + BlockSize] == DecryptedBlock(c, src[..BlockSize])
    ensures forall k :: 0 <= k < dst.Length && !(off <= k < off + BlockSize) ==> dst[k] == old(dst[k])
  {
    var v0: uint32 := Uint32BE(src[0..4]);
    var v1: uint32 := Uint32BE(src[4..8]);
    var sum: uint32 := DecryptStartSum;
    ghost var start := Rounds(v0, v1, sum);
    var i := 0;
    while i < NumRounds
      invariant 0 <= i <= NumRounds
      invariant Rounds(v0, v1, sum) == DecIter(c, i, start)
    {
      v1 := Sub32(v1, Xor32(Add32(Xor32((v0 * 16) % Modulus32, v0 / 32), v0), Add32(sum, c.Word((sum / 2048) % 4))));
      sum := Sub32(sum, Delta);
      v0 := Sub32(v0, Xor32(Add32(Xor32((v1 * 16) % Modulus32, v1 / 32), v1), Add32(sum, c.Word(sum % 4))));
      i := i + 1;
    }
    PutUint32(dst, off, v0);
    PutUint32(dst, off + 4, v1);
    assert dst[off..off + BlockSize] == dst[off..off + 4] + dst[off + 4..off + 8];
    assert src[..BlockSize][0..4] == src[0..4] && src[..BlockSize][4..8] == src[4..8];
  }

  // ---------------------------------------------------------------------
  // PKCS#7 padding

  /** `pad(data, 8)`: appends n copies of the byte n, where n = 8 - |data| % 8. */
  function Pad(data: seq<byte>): (r: seq<byte>)
    ensures |r| % BlockSize == 0
    ensures |data| < |r| <= |data| + BlockSize
    ensures |data| % BlockSize == 0 ==> |r| == |data| + BlockSize
    ensures r[..|data|] == data
    ensures forall i :: |data| <= i < |r| ==> r[i] as int == |r| - |data|
  {
    var n := BlockSize - |data| % BlockSize;
    data + Repeat(n, n)
  }

  /** `unpad` stays inside `data`. Go panics only when the final byte is a
      padding length from 1 to 8 larger than the data and every byte of the
      data equals it: the check of the last bytes then runs off the front. */
  predicate UnpadInBounds(data: seq<byte>) {
    !(|data| > 0 && 0 < data[|data| - 1] as int <= BlockSize && data[|data| - 1] as int > |data|
      && forall k :: 0 <= k < |data| ==> data[k] == data[|data| - 1])
  }

  /** A whole number of blocks never sends `unpad` out of bounds. */
  lemma WholeInBounds(data: seq<byte>)
    requires |data| % BlockSize == 0
    ensures UnpadInBounds(data)
  {
  }

  /** What `unpad(data, 8)` returns. */
  function Unpadded(data: seq<byte>): (r: Result<seq<byte>, CipherError>)
    requires UnpadInBounds(data)
    ensures r == Err(EmptyData) <==> |data| == 0
    ensures r.Ok? ==> |data| - BlockSize <= |r.value| < |data| && r.value == data[..|r.value|]
  {
    if |data| == 0 then Err(EmptyData)
    else
      var n := data[|data| - 1] as int;
      if n > BlockSize || n == 0 then Err(InvalidPadding)
      else if n > |data| then Err(InvalidPadding)
      else if data[|data| - n..] == Repeat(n, n) then Ok(data[..|data| - n])
      else Err(InvalidPadding)
  }

  /** `unpad` removes exactly what `pad` added. */
  lemma UnpadPad(data: seq<byte>)
    ensures Unpadded(Pad(data)) == Ok(data)
  {
    var p := Pad(data);
    var n := BlockSize - |data| % BlockSize;
    assert p[|p| - 1] as int == n;
    assert p[|p| - n..] == Repeat(n, n);
    assert p[..|p| - n] == data;
  }

  /** Conversely, whatever `unpad` accepts is the padding of what it returns:
      unpad succeeds on x exactly when x is `pad` of something. */
  lemma PadUnpad(x: seq<byte>)
    requires |x| % BlockSize == 0
    requires Unpadded(x).Ok?
    ensures Pad(Unpadded(x).value) == x
  {
    var n := x[|x| - 1] as int;
    var d := x[..|x| - n];
    assert |d| % BlockSize == BlockSize - n;
    assert x == d + x[|x| - n..];
  }

  /** `unpad`: rejects empty data, a final byte of 0 or above 8, and any of the
      last n bytes differing from n; otherwise drops those n bytes. */
  method Unpad(data: seq<byte>) returns (r: Result<seq<byte>, CipherError>)
    requires UnpadInBounds(data)
    ensures r == Unpadded(data)
  {
    if |data| == 0 {
      return Err(EmptyData);
    }
    var padding := data[|data| - 1] as int;
    if padding > BlockSize || padding == 0 {
      return Err(InvalidPadding);
    }
    var i := 0;
    while i < padding
      invariant 0 <= i <= padding && i <= |data|
      invariant forall k :: |data| - i <= k < |data| ==> data[k] == padding
    {
      if data[|data| - 1 - i] != padding {
        if padding <= |data| {
          assert data[|data| - padding..][padding - 1 - i] != Repeat(padding, padding)[padding - 1 - i];
        }
        return Err(InvalidPadding);
      }
      i := i + 1;
    }
    assert data[|data| - padding..] == Repeat(padding, padding);
    return Ok(data[..|data| - padding]);
  }

  // ---------------------------------------------------------------------
  // Block functions for the modes

  /** A block function as the modes of operation see it: Go's `cipher.Block`
      `Encrypt` or `Decrypt`, applied to one 8-byte block. */
  type BlockFn = seq<byte> -> seq<byte>

  /** `f` maps 8-byte blocks to 8-byte blocks. */
  ghost predicate KeepsBlockSize(f: BlockFn) {
    forall b :: |b| == BlockSize ==> |f(b)| == BlockSize
  }

  /** `g` undoes `f` on every 8-byte block. */
  ghost predicate Undoes(g: BlockFn, f: BlockFn) {
    forall b :: |b| == BlockSize ==> g(f(b)) == b
  }

  /** `Encrypt` of an XTEA instance as a block function. */
  function Encrypter(c: Cipher): (f: BlockFn)
    ensures KeepsBlockSize(f)
  {
    b => if |b| == BlockSize then EncryptedBlock(c, b) else b
  }

  /** `Decrypt` of an XTEA instance as a block function. */
  function Decrypter(c: Cipher): (f: BlockFn)
    ensures KeepsBlockSize(f)
  {
    b => if |b| == BlockSize then DecryptedBlock(c, b) else b
  }

  /** The two directions of one XTEA instance undo each other. */
  lemma EncrypterDecrypterInverse(c: Cipher)
    ensures Undoes(Decrypter(c), Encrypter(c))
    ensures Undoes(Encrypter(c), Decrypter(c))
  {
    forall b | |b| == BlockSize
      ensures Decrypter(c)(Encrypter(c)(b)) == b
    {
      DecryptedEncryptedBlock(c, b);
    }
    forall b | |b| == BlockSize
      ensures Encrypter(c)(Decrypter(c)(b)) == b
    {
      EncryptedDecryptedBlock(c, b);
    }
  }

  // ---------------------------------------------------------------------
  // CBC mode (NIST SP 800-38A, section 6.2), as `cipher.NewCBCEncrypter`
  // and `cipher.NewCBCDecrypter` run it over any block function

  /** `n` bytes are a whole number of blocks (stated by peeling off one
      block at a time, the way the modes consume their input). */
  ghost predicate WholeBlocks(n: int) {
    n == 0 || (n >= BlockSize && WholeBlocks(n - BlockSize))
  }

  lemma {:induction false} WholeBlocksMod(n: nat)
    ensures WholeBlocks(n) <==> n % BlockSize == 0
    decreases n
  {
    if n >= BlockSize {
      WholeBlocksMod(n - BlockSize);
    }
  }

  /** CBC encryption of whole blocks chained from `iv`. */
  function CBCEncrypt(e: BlockFn, iv: seq<byte>, p: seq<byte>): (r: seq<byte>)
    requires KeepsBlockSize(e)
    requires |iv| == BlockSize && WholeBlocks(|p|)
    ensures |r| == |p|
    decreases |p|
  {
    if |p| == 0 then []
    else
      var b := e(Xor(p[..BlockSize], iv));
      b + CBCEncrypt(e, b, p[BlockSize..])
  }

  /** CBC decryption of whole blocks chained from `iv`. */
  function CBCDecrypt(d: BlockFn, iv: seq<byte>, ct: seq<byte>): (r: seq<byte>)
    requires KeepsBlockSize(d)
    requires |iv| == BlockSize && WholeBlocks(|ct|)
    ensures |r| == |ct|
    decreases |ct|
  {
    if |ct| == 0 then []
    else Xor(d(ct[..BlockSize]), iv) + CBCDecrypt(d, ct[..BlockSize], ct[BlockSize..])
  }

  /** A non-empty whole number of blocks is its first block followed by a
      whole number of blocks. */
  lemma SplitBlock(s: seq<byte>)
    requires |s| > 0 && WholeBlocks(|s|)
    ensures |s| >= BlockSize && WholeBlocks(|s| - BlockSize)
    ensures s == s[..BlockSize] + s[BlockSize..]
  {
  }

  /** CBC encryption of a first block followed by more blocks. */
  lemma CBCEncryptCons(e: BlockFn, iv: seq<byte>, blk: seq<byte>, q: seq<byte>)
    requires KeepsBlockSize(e)
    requires |iv| == BlockSize && |blk| == BlockSize && WholeBlocks(|q|)
    ensures CBCEncrypt(e, iv, blk + q) == e(Xor(blk, iv)) + CBCEncrypt(e, e(Xor(blk, iv)), q)
  {
    assert (blk + q)[..BlockSize] == blk && (blk + q)[BlockSize..] == q;
  }

  /** CBC decryption of a first block followed by more blocks. */
  lemma CBCDecryptCons(d: BlockFn, iv: seq<byte>, blk: seq<byte>, q: seq<byte>)
    requires KeepsBlockSize(d)
    requires |iv| == BlockSize && |blk| == BlockSize && WholeBlocks(|q|)
    ensures CBCDecrypt(d, iv, blk + q) == Xor(d(blk), iv) + CBCDecrypt(d, blk, q)
  {
    assert (blk + q)[..BlockSize] == blk && (blk + q)[BlockSize..] == q;
  }

  /** CBC decryption undoes CBC encryption with the same IV whenever the block
      functions undo each other. */
  lemma {:induction false} CBCDecryptEncrypt(e: BlockFn, d: BlockFn, iv: seq<byte>, p: seq<byte>)
    requires KeepsBlockSize(e) && KeepsBlockSize(d) && Undoes(d, e)
    requires |iv| == BlockSize && WholeBlocks(|p|)
    ensures CBCDecrypt(d, iv, CBCEncrypt(e, iv, p)) == p
    decreases |p|
  {
    if |p| > 0 {
      var blk, rest := p[..BlockSize], p[BlockSize..];
      SplitBlock(p);
      CBCDecryptEncrypt(e, d, e(Xor(blk, iv)), rest);
      CBCDecryptEncryptStep(e, d, iv, blk, rest);
    }
  }

  /** The first block of `CBCDecryptEncrypt`, the rest being given. */
  lemma CBCDecryptEncryptStep(e: BlockFn, d: BlockFn, iv: seq<byte>, blk: seq<byte>, rest: seq<byte>)
    requires KeepsBlockSize(e) && KeepsBlockSize(d) && Undoes(d, e)
    requires |iv| == BlockSize && |blk| == BlockSize && WholeBlocks(|rest|)
    requires CBCDecrypt(d, e(Xor(blk, iv)), CBCEncrypt(e, e(Xor(blk, iv)), rest)) == rest
    ensures CBCDecrypt(d, iv, CBCEncrypt(e, iv, blk + rest)) == blk + rest
  {
    var b := e(Xor(blk, iv));
    CBCEncryptCons(e, iv, blk, rest);
    CBCDecryptCons(d, iv, b, CBCEncrypt(e, b, rest));
    XorCancel(blk, iv);
  }

  /** CBC encryption undoes CBC decryption: every whole-block string is the
      encryption of its decryption. */
  lemma {:induction false} CBCEncryptDecrypt(e: BlockFn, d: BlockFn, iv: seq<byte>, ct: seq<byte>)
    requires KeepsBlockSize(e) && KeepsBlockSize(d) && Undoes(e, d)
    requires |iv| == BlockSize && WholeBlocks(|ct|)
    ensures CBCEncrypt(e, iv, CBCDecrypt(d, iv, ct)) == ct
    decreases |ct|
  {
    if |ct| > 0 {
      var blk, rest := ct[..BlockSize], ct[BlockSize..];
      SplitBlock(ct);
      CBCEncryptDecrypt(e, d, blk, rest);
      CBCEncryptDecryptStep(e, d, iv, blk, rest);
    }
  }

  /** The first block of `CBCEncryptDecrypt`, the rest being given. */
  lemma CBCEncryptDecryptStep(e: BlockFn, d: BlockFn, iv: seq<byte>, blk: seq<byte>, rest: seq<byte>)
    requires KeepsBlockSize(e) && KeepsBlockSize(d) && Undoes(e, d)
    requires |iv| == BlockSize && |blk| == BlockSize && WholeBlocks(|rest|)
    requires CBCEncrypt(e, blk, CBCDecrypt(d, blk, rest)) == rest
    ensures CBCEncrypt(e, iv, CBCDecrypt(d, iv, blk + rest)) == blk + rest
  {
    var x := Xor(d(blk), iv);
    CBCDecryptCons(d, iv, blk, rest);
    CBCEncryptCons(e, iv, x, CBCDecrypt(d, blk, rest));
    XorCancel(d(blk), iv);
  }

  // ---------------------------------------------------------------------
  // CFB mode (NIST SP 800-38A, section 6.3, full-block feedback), as
  // `cipher.NewCFBEncrypter` and `cipher.NewCFBDecrypter` run it

  /** CFB encryption from the feedback block `iv`: each key-stream block is the
      encryption of the previous ciphertext block; a final partial block uses
      a prefix of its key-stream block. */
  function CFBEncrypt(e: BlockFn, iv: seq<byte>, p: seq<byte>): (r: seq<byte>)
    requires KeepsBlockSize(e)
    requires |iv| == BlockSize
    ensures |r| == |p|
    decreases |p|
  {
    if |p| == 0 then []
    else
      var ks := e(iv);
      if |p| < BlockSize then Xor(p, ks[..|p|])
      else
        var b := Xor(p[..BlockSize], ks);
        b + CFBEncrypt(e, b, p[BlockSize..])
  }

  /** CFB decryption: the same key stream, fed back from the ciphertext. */
  function CFBDecrypt(e: BlockFn, iv: seq<byte>, ct: seq<byte>): (r: seq<byte>)
    requires KeepsBlockSize(e)
    requires |iv| == BlockSize
    ensures |r| == |ct|
    decreases |ct|
  {
    if |ct| == 0 then []
    else
      var ks := e(iv);
      if |ct| < BlockSize then Xor(ct, ks[..|ct|])
      else Xor(ct[..BlockSize], ks) + CFBDecrypt(e, ct[..BlockSize], ct[BlockSize..])
  }

  /** CFB decryption undoes CFB encryption, for inputs of any length; only
      the forward direction of the block function is used. */
  lemma {:induction false} CFBDecryptEncrypt(e: BlockFn, iv: seq<byte>, p: seq<byte>)
    requires KeepsBlockSize(e)
    requires |iv| == BlockSize
    ensures CFBDecrypt(e, iv, CFBEncrypt(e, iv, p)) == p
    decreases |p|
  {
    var ks := e(iv);
    if 0 < |p| < BlockSize {
      XorCancel(p, ks[..|p|]);
    } else if |p| >= BlockSize {
      var b := Xor(p[..BlockSize], ks);
      var ct := CFBEncrypt(e, iv, p);
      assert ct[..BlockSize] == b && ct[BlockSize..] == CFBEncrypt(e, b, p[BlockSize..]);
      XorCancel(p[..BlockSize], ks);
      CFBDecryptEncrypt(e, b, p[BlockSize..]);
      assert p == p[..BlockSize] + p[BlockSize..];
    }
  }

  /** CFB encryption undoes CFB decryption. */
  lemma {:induction false} CFBEncryptDecrypt(e: BlockFn, iv: seq<byte>, ct: seq<byte>)
    requires KeepsBlockSize(e)
    requires |iv| == BlockSize
    ensures CFBEncrypt(e, iv, CFBDecrypt(e, iv, ct)) == ct
    decreases |ct|
  {
    var ks := e(iv);
    if 0 < |ct| < BlockSize {
      XorCancel(ct, ks[..|ct|]);
    } else if |ct| >= BlockSize {
      var b := ct[..BlockSize];
      var p := CFBDecrypt(e, iv, ct);
      assert p[..BlockSize] == Xor(b, ks) && p[BlockSize..] == CFBDecrypt(e, b, ct[BlockSize..]);
      XorCancel(b, ks);
      CFBEncryptDecrypt(e, b, ct[BlockSize..]);
      assert ct == b + ct[BlockSize..];
    }
  }

  // ---------------------------------------------------------------------
  // The package-level operations

  /** `(*XTEA).EncryptCFB`: CFB with a zero IV; its error result is always
      nil and is left out. The output is as long as the input. */
  function EncryptCFB(c: Cipher, plaintext: seq<byte>): (ciphertext: seq<byte>)
    ensures |ciphertext| == |plaintext|
  {
    CFBEncrypt(Encrypter(c), ZeroIV, plaintext)
  }

  /** `(*XTEA).DecryptCFB`: CFB decryption with a zero IV. */
  function DecryptCFB(c: Cipher, ciphertext: seq<byte>): (plaintext: seq<byte>)
    ensures |plaintext| == |ciphertext|
  {
    CFBDecrypt(Encrypter(c), ZeroIV, ciphertext)
  }

  /** The CFB pair are inverse to each other on strings of every length. */
  lemma CFBRoundTrip(c: Cipher, x: seq<byte>)
    ensures DecryptCFB(c, EncryptCFB(c, x)) == x
    ensures EncryptCFB(c, DecryptCFB(c, x)) == x
  {
    CFBDecryptEncrypt(Encrypter(c), ZeroIV, x);
    CFBEncryptDecrypt(Encrypter(c), ZeroIV, x);
  }

  /** Package-level `Encrypt(key, data)`: the key check, then CBC with a zero
      IV over the padded data. The ciphertext is whole blocks and one block
      longer than the data when the data is already whole blocks. */
  function Encrypt(key: seq<byte>, data: seq<byte>): (r: Result<seq<byte>, CipherError>)
    ensures r.Err? <==> |key| != 16
    ensures r.Err? ==> r.error == InvalidKeyLength
    ensures r.Ok? ==> |r.value| == (|data| / BlockSize + 1) * BlockSize
  {
    match NewXTEA(key)
    case Err(e) => Err(e)
    case Ok(c) =>
      WholeBlocksMod(|Pad(data)|);
      Ok(CBCEncrypt(Encrypter(c), ZeroIV, Pad(data)))
  }

  /** Package-level `Decrypt(key, ciphertext)`: the key check, the block
      alignment check (where the source panics inside `CryptBlocks`), CBC
      decryption with a zero IV, then `unpad`. */
  function Decrypt(key: seq<byte>, ciphertext: seq<byte>): (r: Result<seq<byte>, CipherError>)
    ensures |key| != 16 ==> r == Err(InvalidKeyLength)
    ensures |key| == 16 && |ciphertext| % BlockSize != 0 ==> r == Err(CiphertextNotBlockAligned)
    ensures |key| == 16 && |ciphertext| == 0 ==> r == Err(EmptyData)
    ensures r.Ok? ==> |ciphertext| - BlockSize <= |r.value| < |ciphertext|
  {
    match NewXTEA(key)
    case Err(e) => Err(e)
    case Ok(c) =>
      if |ciphertext| % BlockSize != 0 then Err(CiphertextNotBlockAligned)
      else
        WholeBlocksMod(|ciphertext|);
        WholeInBounds(CBCDecrypt(Decrypter(c), ZeroIV, ciphertext));
        Unpadded(CBCDecrypt(Decrypter(c), ZeroIV, ciphertext))
  }

  /** Round trip: for every 16-byte key and every message, empty included,
      decryption returns the message. */
  lemma DecryptEncrypt(key: seq<byte>, data: seq<byte>)
    requires |key| == 16
    ensures Decrypt(key, Encrypt(key, data).value) == Ok(data)
  {
    var c := NewXTEA(key).value;
    var p := Pad(data);
    WholeBlocksMod(|p|);
    var ct := CBCEncrypt(Encrypter(c), ZeroIV, p);
    assert Encrypt(key, data) == Ok(ct);
    WholeBlocksMod(|ct|);
    EncrypterDecrypterInverse(c);
    CBCDecryptEncrypt(Encrypter(c), Decrypter(c), ZeroIV, p);
    UnpadPad(data);
    WholeInBounds(p);
    assert Decrypt(key, ct) == Unpadded(p);
  }

  /** Decryption accepts nothing but ciphertexts: whatever it accepts is the
      encryption of what it returns. */
  lemma EncryptDecrypt(key: seq<byte>, ciphertext: seq<byte>)
    requires Decrypt(key, ciphertext).Ok?
    ensures Encrypt(key, Decrypt(key, ciphertext).value) == Ok(ciphertext)
  {
    var c := NewXTEA(key).value;
    WholeBlocksMod(|ciphertext|);
    var x := CBCDecrypt(Decrypter(c), ZeroIV, ciphertext);
    PadUnpad(x);
    EncrypterDecrypterInverse(c);
    CBCEncryptDecrypt(Encrypter(c), Decrypter(c), ZeroIV, ciphertext);
  }
}
