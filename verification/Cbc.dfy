/** AES-256-CBC as the chat uses it: cipher block chaining (section 6.2 of NIST SP 800-38A) over a keyed
    block permutation, with the padding of section 6.3 of RFC 5652. */
module Cbc {
  import opened Wrappers

  type Byte = x: int | 0 <= x < 256

  type Bytes = seq<Byte>

  const BLOCK: nat := 16

  type Block = b: Bytes | |b| == BLOCK witness seq(BLOCK, i => 0)

  /** The block cipher under one key. */
  datatype Cipher = Cipher(encrypt: Block -> Block, decrypt: Block -> Block) {
    ghost predicate Valid() {
      && (forall b: Block :: decrypt(encrypt(b)) == b)
      && (forall b: Block :: encrypt(decrypt(b)) == b)
    }
  }

  function Pow2(k: nat): (r: nat)
    ensures r > 0
  {
    if k == 0 then 1 else 2 * Pow2(k - 1)
  }

  /** The exclusive or of the lowest k bits. */
  function BitXor(a: nat, b: nat, k: nat): (r: nat)
    ensures r < Pow2(k)
  {
    if k == 0 then 0 else 2 * BitXor(a / 2, b / 2, k - 1) + (if a % 2 == b % 2 then 0 else 1)
  }

  lemma {:induction false} BitXorTwice(a: nat, b: nat, k: nat)
    requires a < Pow2(k)
    ensures BitXor(BitXor(a, b, k), b, k) == a
  {
    if k > 0 {
      var half, low := BitXor(a / 2, b / 2, k - 1), if a % 2 == b % 2 then 0 else 1;
      assert BitXor(a, b, k) == 2 * half + low;
      assert BitXor(a, b, k) / 2 == half && BitXor(a, b, k) % 2 == low;
      BitXorTwice(a / 2, b / 2, k - 1);
    }
  }

  function ByteXor(a: Byte, b: Byte): Byte {
    assert Pow2(8) == 256;
    BitXor(a, b, 8)
  }

  lemma ByteXorTwice(a: Byte, b: Byte)
    ensures ByteXor(ByteXor(a, b), b) == a
  {
    assert Pow2(8) == 256;
    BitXorTwice(a, b, 8);
  }

  // The bits of the exclusive or.

  function Bit(a: nat, i: nat): nat { a / Pow2(i) % 2 }

  lemma {:induction false} MulLe(d: nat, x: nat, y: nat)
    requires x <= y
    ensures d * x <= d * y
    decreases y
  {
    if x < y {
      MulLe(d, x, y - 1);
      assert d * y == d * (y - 1) + d;
    }
  }

  lemma NotBelow(d: nat, q: nat, r: nat, s: nat, t: nat)
    requires d * q + r == d * s + t && t < d
    ensures q <= s
  {
    assert d * (s + 1) == d * s + d;
    if s < q { MulLe(d, s + 1, q); }
  }

  lemma DivUnique(a: nat, d: nat, q: nat, r: nat)
    requires a == d * q + r && r < d
    ensures a / d == q
  {
    var s, t := a / d, a % d;
    assert a == d * s + t;
    NotBelow(d, q, r, s, t);
    NotBelow(d, s, t, q, r);
  }

  lemma DivTwice(a: nat, n: nat)
    requires n > 0
    ensures a / (2 * n) == a / 2 / n
  {
    var q, r := a / 2 / n, a / 2 % n;
    assert a / 2 == n * q + r;
    assert a == 2 * (a / 2) + a % 2;
    assert 2 * (n * q) == (2 * n) * q;
    DivUnique(a, 2 * n, q, 2 * r + a % 2);
  }

  lemma BitOfHalf(a: nat, i: nat)
    ensures Bit(a, 0) == a % 2 && Bit(a, i + 1) == Bit(a / 2, i)
  {
    DivTwice(a, Pow2(i));
  }

  /** A bit of the result is set exactly where the bits of the operands differ. */
  lemma {:induction false} BitXorBits(a: nat, b: nat, k: nat, i: nat)
    requires i < k
    ensures Bit(BitXor(a, b, k), i) == 1 <==> Bit(a, i) != Bit(b, i)
  {
    var r, half, low := BitXor(a, b, k), BitXor(a / 2, b / 2, k - 1), if a % 2 == b % 2 then 0 else 1;
    assert r == 2 * half + low;
    assert r / 2 == half && r % 2 == low;
    if i == 0 {
      BitOfHalf(r, 0);
      BitOfHalf(a, 0);
      BitOfHalf(b, 0);
    } else {
      BitXorBits(a / 2, b / 2, k - 1, i - 1);
      BitOfHalf(r, i - 1);
      BitOfHalf(a, i - 1);
      BitOfHalf(b, i - 1);
      hide Bit, BitXor;
    }
  }

  /** Numbers with the same k bits are the same below 2^k, so the bits leave no choice. */
  lemma {:induction false} BitsDecide(a: nat, b: nat, k: nat)
    requires a < Pow2(k) && b < Pow2(k) && forall i | 0 <= i < k :: Bit(a, i) == Bit(b, i)
    ensures a == b
  {
    if k > 0 {
      assert Bit(a, 0) == Bit(b, 0);
      BitOfHalf(a, 0);
      BitOfHalf(b, 0);
      forall i | 0 <= i < k - 1 ensures Bit(a / 2, i) == Bit(b / 2, i) {
        BitOfHalf(a, i);
        BitOfHalf(b, i);
        assert Bit(a, i + 1) == Bit(b, i + 1);
      }
      hide Bit;
      BitsDecide(a / 2, b / 2, k - 1);
    }
  }

  lemma {:induction false} BitXorLaws(a: nat, b: nat, k: nat)
    requires a < Pow2(k)
    ensures BitXor(a, 0, k) == a && BitXor(a, a, k) == 0 && BitXor(a, b, k) == BitXor(b, a, k)
  {
    if k > 0 { BitXorLaws(a / 2, b / 2, k - 1); }
  }

  lemma ByteXorLaws(a: Byte, b: Byte)
    ensures ByteXor(a, 0) == a && ByteXor(a, a) == 0 && ByteXor(a, b) == ByteXor(b, a)
    ensures forall i | 0 <= i < 8 :: Bit(ByteXor(a, b), i) == 1 <==> Bit(a, i) != Bit(b, i)
  {
    assert Pow2(8) == 256;
    BitXorLaws(a, b, 8);
    forall i | 0 <= i < 8 ensures Bit(ByteXor(a, b), i) == 1 <==> Bit(a, i) != Bit(b, i) { BitXorBits(a, b, 8, i); }
  }

  function Xor(a: Block, b: Block): Block {
    seq(BLOCK, i requires 0 <= i < BLOCK => ByteXor(a[i], b[i]))
  }

  lemma XorTwice(a: Block, b: Block)
    ensures Xor(Xor(a, b), b) == a
  {
    hide ByteXor;
    forall i | 0 <= i < BLOCK ensures Xor(Xor(a, b), b)[i] == a[i] { ByteXorTwice(a[i], b[i]); }
  }

  // ---------- chaining ----------

  predicate Whole(p: Bytes) { |p| % BLOCK == 0 }

  function Chain(c: Cipher, iv: Block, p: Bytes): (r: Bytes)
    requires Whole(p)
    ensures |r| == |p|
    decreases |p|
  {
    if p == [] then []
    else
      var x := c.encrypt(Xor(p[..BLOCK], iv));
      x + Chain(c, x, p[BLOCK..])
  }

  function Unchain(c: Cipher, iv: Block, q: Bytes): (r: Bytes)
    requires Whole(q)
    ensures |r| == |q|
    decreases |q|
  {
    if q == [] then []
    else Xor(c.decrypt(q[..BLOCK]), iv) + Unchain(c, q[..BLOCK], q[BLOCK..])
  }

  lemma {:induction false} UnchainAfterChain(c: Cipher, iv: Block, p: Bytes)
    requires c.Valid() && Whole(p)
    ensures Unchain(c, iv, Chain(c, iv, p)) == p
    decreases |p|
  {
    if p != [] {
      var x := c.encrypt(Xor(p[..BLOCK], iv));
      var q := Chain(c, iv, p);
      assert q[..BLOCK] == x && q[BLOCK..] == Chain(c, x, p[BLOCK..]);
      UnchainAfterChain(c, x, p[BLOCK..]);
      XorTwice(p[..BLOCK], iv);
      assert p == p[..BLOCK] + p[BLOCK..];
    }
  }

  lemma {:induction false} ChainAfterUnchain(c: Cipher, iv: Block, q: Bytes)
    requires c.Valid() && Whole(q)
    ensures Chain(c, iv, Unchain(c, iv, q)) == q
    decreases |q|
  {
    if q != [] {
      var p := Unchain(c, iv, q);
      var first := Xor(c.decrypt(q[..BLOCK]), iv);
      assert p[..BLOCK] == first && p[BLOCK..] == Unchain(c, q[..BLOCK], q[BLOCK..]);
      XorTwice(c.decrypt(q[..BLOCK]), iv);
      ChainAfterUnchain(c, q[..BLOCK], q[BLOCK..]);
      assert q == q[..BLOCK] + q[BLOCK..];
    }
  }

  function BlockAt(q: Bytes, j: nat): Block
    requires BLOCK * (j + 1) <= |q|
  {
    q[BLOCK * j..BLOCK * (j + 1)]
  }

  /** The block that the j-th one is chained to. */
  function BlockBefore(iv: Block, q: Bytes, j: nat): Block
    requires BLOCK * j <= |q|
  {
    if j == 0 then iv else BlockAt(q, j - 1)
  }

  lemma SliceOfDrop(p: Bytes, n: nat, lo: nat, hi: nat)
    requires lo <= hi && n + hi <= |p|
    ensures p[n..][lo..hi] == p[n + lo..n + hi]
  {
  }

  lemma BlockOfRest(p: Bytes, j: nat)
    requires BLOCK * (j + 2) <= |p|
    ensures BlockAt(p, j + 1) == BlockAt(p[BLOCK..], j)
  {
    SliceOfDrop(p, BLOCK, BLOCK * j, BLOCK * (j + 1));
  }

  lemma BlockOfTail(x: Block, tail: Bytes, j: nat)
    requires BLOCK * (j + 1) <= |tail|
    ensures BlockAt(x + tail, j + 1) == BlockAt(tail, j)
  {
    assert (x + tail)[BLOCK..] == tail;
    BlockOfRest(x + tail, j);
  }

  lemma FirstBlock(x: Block, tail: Bytes)
    ensures BlockAt(x + tail, 0) == x
  {
  }

  /** Section 6.2 of NIST SP 800-38A: each cipher block is the encryption of the text block xored with the
      cipher block before it, the first with the IV. */
  lemma {:induction false} ChainBlock(c: Cipher, iv: Block, p: Bytes, j: nat)
    requires Whole(p) && BLOCK * (j + 1) <= |p|
    ensures var q := Chain(c, iv, p);
            BlockAt(q, j) == c.encrypt(Xor(BlockAt(p, j), BlockBefore(iv, q, j)))
    decreases j
  {
    var x := c.encrypt(Xor(p[..BLOCK], iv));
    var tail := Chain(c, x, p[BLOCK..]);
    assert Chain(c, iv, p) == x + tail;
    if j == 0 {
      assert BlockAt(p, 0) == p[..BLOCK];
      FirstBlock(x, tail);
    } else {
      ChainBlock(c, x, p[BLOCK..], j - 1);
      hide Chain, Xor;
      BlockOfRest(p, j - 1);
      BlockOfTail(x, tail, j - 1);
      if j == 1 { FirstBlock(x, tail); } else { BlockOfTail(x, tail, j - 2); }
      hide BlockAt;
    }
  }

  /** And each text block is the decryption of its cipher block, xored with the cipher block before it. */
  lemma {:induction false} UnchainBlock(c: Cipher, iv: Block, q: Bytes, j: nat)
    requires Whole(q) && BLOCK * (j + 1) <= |q|
    ensures BlockAt(Unchain(c, iv, q), j) == Xor(c.decrypt(BlockAt(q, j)), BlockBefore(iv, q, j))
    decreases j
  {
    var x, rest := q[..BLOCK], q[BLOCK..];
    var first, tail := Xor(c.decrypt(x), iv), Unchain(c, x, rest);
    assert Unchain(c, iv, q) == first + tail;
    if j == 0 {
      assert BlockAt(q, 0) == x;
      FirstBlock(first, tail);
    } else {
      UnchainBlock(c, x, rest, j - 1);
      hide Unchain, Xor;
      BlockOfRest(q, j - 1);
      BlockOfTail(first, tail, j - 1);
      if j == 1 { assert BlockAt(q, 0) == x; } else { BlockOfRest(q, j - 2); }
      hide BlockAt;
    }
  }

  /** The block that the next one is chained to. */
  function LastBlock(iv: Block, q: Bytes): Block
    requires Whole(q)
  {
    if q == [] then iv else q[|q| - BLOCK..]
  }

  lemma LastBlockOfLonger(iv: Block, x: Block, tail: Bytes)
    requires Whole(tail) && Whole(x + tail)
    ensures LastBlock(iv, x + tail) == LastBlock(x, tail)
  {
    if tail == [] { assert x + tail == x; }
  }

  lemma ChainFirst(c: Cipher, iv: Block, p: Bytes, r: Bytes)
    requires p != [] && Whole(p) && Whole(p + r) && Whole(p[BLOCK..] + r)
    ensures var x := c.encrypt(Xor(p[..BLOCK], iv));
            Chain(c, iv, p) == x + Chain(c, x, p[BLOCK..]) && Chain(c, iv, p + r) == x + Chain(c, x, p[BLOCK..] + r)
  {
    assert (p + r)[..BLOCK] == p[..BLOCK] && (p + r)[BLOCK..] == p[BLOCK..] + r;
  }

  lemma {:induction false} ChainAppend(c: Cipher, iv: Block, p: Bytes, r: Bytes)
    requires Whole(p) && Whole(r) && Whole(p + r)
    ensures Chain(c, iv, p + r) == Chain(c, iv, p) + Chain(c, LastBlock(iv, Chain(c, iv, p)), r)
    decreases |p|
  {
    if p == [] {
      assert p + r == r;
    } else {
      var x := c.encrypt(Xor(p[..BLOCK], iv));
      ChainFirst(c, iv, p, r);
      ChainAppend(c, x, p[BLOCK..], r);
      var tail := Chain(c, x, p[BLOCK..]);
      LastBlockOfLonger(iv, x, tail);
      hide Chain, LastBlock, Xor;
      assert x + (tail + Chain(c, LastBlock(x, tail), r)) == x + tail + Chain(c, LastBlock(x, tail), r);
    }
  }

  // ---------- padding ----------

  function PadLength(n: nat): nat { BLOCK - n % BLOCK }

  function Repeat(n: nat, b: Byte): (r: Bytes)
    ensures |r| == n && forall i | 0 <= i < n :: r[i] == b
  {
    seq(n, i => b)
  }

  function Pad(p: Bytes): (r: Bytes)
    ensures Whole(r) && |r| == BLOCK * (|p| / BLOCK + 1)
  {
    var n := PadLength(|p|);
    p + Repeat(n, n)
  }

  function Unpad(q: Bytes): Option<Bytes> {
    if q == [] || !Whole(q) then None
    else
      var n := q[|q| - 1];
      if n < 1 || n > BLOCK || exists i | |q| - n <= i < |q| :: q[i] != q[|q| - 1] then None
      else Some(q[..|q| - n])
  }

  /** Section 6.3 of RFC 5652: one to sixteen bytes, each of which is their number, fill up the last block. */
  lemma PadExactly(p: Bytes, q: Bytes)
    ensures q == Pad(p) <==>
            && Whole(q) && p <= q && 1 <= |q| - |p| <= BLOCK
            && forall i | |p| <= i < |q| :: q[i] == |q| - |p|
  {
    if Whole(q) && p <= q && 1 <= |q| - |p| <= BLOCK && forall i | |p| <= i < |q| :: q[i] == |q| - |p| {
      assert |q| - |p| == PadLength(|p|);
      assert q == p + Repeat(|q| - |p|, |q| - |p|);
    }
  }

  lemma UnpadAfterPad(p: Bytes)
    ensures Unpad(Pad(p)) == Some(p)
  {
    assert Pad(p)[..|p|] == p;
  }

  lemma PadLengthBack(length: nat, n: nat)
    requires length % BLOCK == 0 && 1 <= n <= BLOCK && n <= length
    ensures PadLength(length - n) == n
  {
  }

  lemma PadWith(p: Bytes, b: Byte, n: nat)
    requires b == n && PadLength(|p|) == n
    ensures Pad(p) == p + Repeat(n, b)
  {
    hide Repeat;
  }

  lemma UnpadShape(q: Bytes, n: nat)
    requires Unpad(q).Some? && q[|q| - 1] == n
    ensures 1 <= n <= BLOCK && n <= |q| && Whole(q) && Unpad(q) == Some(q[..|q| - n])
    ensures q == q[..|q| - n] + Repeat(n, q[|q| - 1])
  {
  }

  lemma PadAfterUnpad(q: Bytes)
    requires Unpad(q).Some?
    ensures Pad(Unpad(q).value) == q
  {
    hide Pad, Repeat, PadLength;
    var last := q[|q| - 1];
    var n := last;
    UnpadShape(q, n);
    hide Unpad;
    PadLengthBack(|q|, n);
    PadWith(q[..|q| - n], last, n);
  }

  // ---------- messages ----------

  /** What `aes256CBCEncrypt` returns: the IV and the chained blocks of the padded text. */
  function Encrypted(c: Cipher, iv: Block, p: Bytes): Bytes {
    iv + Chain(c, iv, Pad(p))
  }

  /** `aes256CBCDecrypt`; `None` where it throws. */
  function Decrypted(c: Cipher, q: Bytes): Option<Bytes> {
    if |q| <= BLOCK || !Whole(q[BLOCK..]) then None
    else Unpad(Unchain(c, q[..BLOCK], q[BLOCK..]))
  }

  /** `aes256CBCEncrypt` with its output buffer: the update call writes the whole blocks, the final call
      the padded rest. The buffer of |p| + 16 bytes is large enough for both. */
  method Aes256CbcEncrypt(c: Cipher, iv: Block, p: Bytes) returns (output: Bytes)
    ensures output == Encrypted(c, iv, p)
    ensures |output| == BLOCK + BLOCK * (|p| / BLOCK + 1)
  {
    EncryptedLength(c, iv, p);
    StreamedIsWhole(c, iv, p);
    var whole := Floor(|p|);
    var updated := Chain(c, iv, p[..whole]);
    var final := Chain(c, LastBlock(iv, updated), Pad(p[whole..]));
    hide *;
    var text := Filled(|p| + BLOCK, updated, final);
    output := iv + text;
  }

  /** `aes256CBCDecrypt` with its output buffer: the update call writes all but the last block, which the
      final call unpads. A cipher text that is not whole fails in the final call. */
  method Aes256CbcDecrypt(c: Cipher, q: Bytes) returns (plaintext: Option<Bytes>)
    ensures plaintext == Decrypted(c, q)
  {
    if |q| <= BLOCK { return None; }
    var iv, body := q[..BLOCK], q[BLOCK..];
    if !Whole(body) { return None; }
    SplitLastBlock(c, q);
    hide *;
    var held := |body| - BLOCK;
    var updated := Unchain(c, iv, body[..held]);
    var final := Unpad(Unchain(c, LastBlock(iv, body[..held]), body[held..]));
    if final.None? { return None; }
    var text := Filled(|body| + BLOCK, updated, final.value);
    plaintext := Some(text);
  }

  /** A buffer into which the update call and then the final call write. */
  method Filled(size: nat, updated: Bytes, final: Bytes) returns (text: Bytes)
    requires |updated| + |final| <= size
    ensures text == updated + final
  {
    var buffer := new Byte[size];
    var outLen1, outLen2 := |updated|, |final|;
    Write(buffer, 0, updated);
    Write(buffer, outLen1, final);
    text := buffer[..outLen1 + outLen2];
  }

  method Write(buffer: array<Byte>, at: nat, data: Bytes)
    requires at + |data| <= buffer.Length
    modifies buffer
    ensures buffer[..at] == old(buffer[..at]) && buffer[at..at + |data|] == data
  {
    forall i | 0 <= i < |data| { buffer[at + i] := data[i]; }
  }

  /** The length of the whole blocks. */
  function Floor(n: nat): (whole: nat)
    ensures whole <= n < whole + BLOCK && whole % BLOCK == 0
  {
    n - n % BLOCK
  }

  lemma EncryptedLength(c: Cipher, iv: Block, p: Bytes)
    ensures |Encrypted(c, iv, p)| == BLOCK + BLOCK * (|p| / BLOCK + 1)
  {
  }

  lemma PadOfRest(p: Bytes)
    ensures var whole := Floor(|p|);
            Whole(p[..whole]) && |Pad(p[whole..])| == BLOCK && p[..whole] + Pad(p[whole..]) == Pad(p)
  {
    var whole := Floor(|p|);
    assert |p[whole..]| == |p| % BLOCK && PadLength(|p[whole..]|) == PadLength(|p|);
  }

  /** The update and the final call together write the chained blocks of the padded text. */
  lemma StreamedIsWhole(c: Cipher, iv: Block, p: Bytes)
    ensures var whole := Floor(|p|);
            && Whole(p[..whole]) && |Pad(p[whole..])| == BLOCK && Whole(Pad(p[whole..]))
            && var updated := Chain(c, iv, p[..whole]);
               Whole(updated) && iv + (updated + Chain(c, LastBlock(iv, updated), Pad(p[whole..]))) == Encrypted(c, iv, p)
  {
    var whole := Floor(|p|);
    PadOfRest(p);
    hide Pad, Floor;
    ChainAppend(c, iv, p[..whole], Pad(p[whole..]));
  }

  lemma UnchainFirst(c: Cipher, iv: Block, x: Block, tail: Bytes)
    requires Whole(tail) && Whole(x + tail)
    ensures Unchain(c, iv, x + tail) == Xor(c.decrypt(x), iv) + Unchain(c, x, tail)
  {
    assert (x + tail)[..BLOCK] == x && (x + tail)[BLOCK..] == tail;
  }

  lemma {:induction false} UnchainAppend(c: Cipher, iv: Block, a: Bytes, b: Bytes)
    requires Whole(a) && Whole(b) && Whole(a + b)
    ensures Unchain(c, iv, a + b) == Unchain(c, iv, a) + Unchain(c, LastBlock(iv, a), b)
    decreases |a|
  {
    if a == [] {
      assert a + b == b;
    } else {
      var x, tail := a[..BLOCK], a[BLOCK..];
      assert a == x + tail && x + (tail + b) == a + b;
      assert Whole(tail) && Whole(tail + b);
      LastBlockOfLonger(iv, x, tail);
      hide *;
      UnchainFirst(c, iv, x, tail);
      UnchainFirst(c, iv, x, tail + b);
      UnchainAppend(c, x, tail, b);
      Associative(Xor(c.decrypt(x), iv), Unchain(c, x, tail), Unchain(c, LastBlock(x, tail), b));
    }
  }

  lemma Associative(a: Bytes, b: Bytes, c: Bytes)
    ensures a + (b + c) == a + b + c
  {
  }

  /** Only the last block carries padding. */
  lemma UnpadLast(a: Bytes, last: Block)
    requires Whole(a)
    ensures Whole(a + last)
    ensures Unpad(a + last) == match Unpad(last) case None => None case Some(rest) => Some(a + rest)
    ensures Unpad(last).Some? ==> |Unpad(last).value| < BLOCK
  {
    var q := a + last;
    var b := last[BLOCK - 1];
    var n := b;
    assert q[|q| - 1] == b;
    if 1 <= n <= BLOCK {
      if i :| BLOCK - n <= i < BLOCK && last[i] != b {
        assert q[|a| + i] != b;
      } else {
        assert forall i | |q| - n <= i < |q| :: q[i] == last[i - |a|] == b;
        assert q[..|q| - n] == a + last[..BLOCK - n];
      }
    }
  }

  lemma SplitLastBlock(c: Cipher, q: Bytes)
    requires |q| > BLOCK && Whole(q[BLOCK..])
    ensures var iv, body := q[..BLOCK], q[BLOCK..];
            var held := |body| - BLOCK;
            && held >= 0 && Whole(body[..held]) && Whole(body[held..])
            && var final := Unpad(Unchain(c, LastBlock(iv, body[..held]), body[held..]));
               && (final.Some? ==> |final.value| < BLOCK)
               && Decrypted(c, q)
                  == match final case None => None case Some(rest) => Some(Unchain(c, iv, body[..held]) + rest)
  {
    var iv, body := q[..BLOCK], q[BLOCK..];
    var held := |body| - BLOCK;
    var last := LastBlock(iv, body[..held]);
    assert body == body[..held] + body[held..];
    hide Unpad, Unchain, LastBlock;
    UnchainAppend(c, iv, body[..held], body[held..]);
    UnpadLast(Unchain(c, iv, body[..held]), Unchain(c, last, body[held..]));
  }

  /** Decryption recovers the text, and accepts nothing but encryptions. */
  lemma DecryptedExactlyEncrypted(c: Cipher, q: Bytes, p: Bytes)
    requires c.Valid()
    ensures Decrypted(c, q) == Some(p) <==> |q| > BLOCK && q == Encrypted(c, q[..BLOCK], p)
  {
    if |q| > BLOCK && q == Encrypted(c, q[..BLOCK], p) {
      assert q[BLOCK..] == Chain(c, q[..BLOCK], Pad(p));
      UnchainAfterChain(c, q[..BLOCK], Pad(p));
      UnpadAfterPad(p);
    }
    if Decrypted(c, q) == Some(p) {
      var iv, body := q[..BLOCK], q[BLOCK..];
      ChainAfterUnchain(c, iv, body);
      PadAfterUnpad(Unchain(c, iv, body));
      assert q == iv + body;
    }
  }

  lemma RoundTrip(c: Cipher, iv: Block, p: Bytes)
    requires c.Valid()
    ensures Decrypted(c, Encrypted(c, iv, p)) == Some(p)
  {
    var q := Encrypted(c, iv, p);
    assert q[..BLOCK] == iv;
    DecryptedExactlyEncrypted(c, q, p);
  }
}
