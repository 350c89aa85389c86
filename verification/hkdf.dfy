/** HKDF over a 32-byte HMAC, as sections 2.2 and 2.3 of RFC 5869 define it. */
module Hkdf {
  import opened Base64

  const HASH_LENGTH: nat := 32
  const ZEROS: Bytes := seq(HASH_LENGTH, i => 0)

  /** The keyed hash: whatever it computes, its output is 32 bytes. */
  type Hmac = h: (Bytes, Bytes) -> Bytes | (forall k, m :: |h(k, m)| == HASH_LENGTH)
    witness (k: Bytes, m: Bytes) => ZEROS

  datatype Derived = Negative | TooLong | Key(bytes: Bytes)

  // ---------------------------------------------------------------- the standard's chain

  /** The n-th block: the keyed hash of the block before, the info and the counter byte. */
  function Block(h: Hmac, prk: Bytes, info: Bytes, n: nat): Bytes
    requires n <= 255
  {
    if n == 0 then [] else h(prk, Block(h, prk, info, n - 1) + info + [n])
  }

  function Chain(h: Hmac, prk: Bytes, info: Bytes, n: nat): Bytes
    requires n <= 255
  {
    if n == 0 then [] else Chain(h, prk, info, n - 1) + Block(h, prk, info, n)
  }

  function Blocks(length: nat): nat {
    (length + HASH_LENGTH - 1) / HASH_LENGTH
  }

  lemma {:induction false} ChainLength(h: Hmac, prk: Bytes, info: Bytes, n: nat)
    requires n <= 255
    ensures |Chain(h, prk, info, n)| == n * HASH_LENGTH
  {
    if n > 0 { ChainLength(h, prk, info, n - 1); }
  }

  /** The counter stays within one byte exactly up to the standard's ceiling. */
  lemma CounterFits(length: nat)
    ensures Blocks(length) <= 255 <==> length <= 255 * HASH_LENGTH
  {}

  function Okm(h: Hmac, prk: Bytes, info: Bytes, length: nat): (r: Bytes)
    requires length <= 255 * HASH_LENGTH
    ensures |r| == length
  {
    CounterFits(length);
    ChainLength(h, prk, info, Blocks(length));
    Chain(h, prk, info, Blocks(length))[..length]
  }

  lemma {:induction false} ChainAt(h: Hmac, prk: Bytes, info: Bytes, n: nat, i: nat)
    requires n <= 255 && i < n * HASH_LENGTH
    ensures |Chain(h, prk, info, n)| == n * HASH_LENGTH
    ensures 1 <= i / HASH_LENGTH + 1 <= n && Chain(h, prk, info, n)[i] == Block(h, prk, info, i / HASH_LENGTH + 1)[i % HASH_LENGTH]
  {
    ChainLength(h, prk, info, n);
    ChainLength(h, prk, info, n - 1);
    if i < (n - 1) * HASH_LENGTH { ChainAt(h, prk, info, n - 1, i); }
  }

  /** Every output byte belongs to the block its position names, whose counter is between 1 and 255. */
  lemma OkmAt(h: Hmac, prk: Bytes, info: Bytes, length: nat, i: nat)
    requires i < length <= 255 * HASH_LENGTH
    ensures 1 <= i / HASH_LENGTH + 1 <= 255
    ensures Okm(h, prk, info, length)[i] == Block(h, prk, info, i / HASH_LENGTH + 1)[i % HASH_LENGTH]
  {
    CounterFits(length);
    ChainAt(h, prk, info, Blocks(length), i);
  }

  /** A shorter derivation is the front of a longer one. */
  lemma ShorterIsPrefix(h: Hmac, prk: Bytes, info: Bytes, m: nat, n: nat)
    requires m <= n <= 255 * HASH_LENGTH
    ensures Okm(h, prk, info, m) == Okm(h, prk, info, n)[..m]
  {
    forall i | 0 <= i < m ensures Okm(h, prk, info, m)[i] == Okm(h, prk, info, n)[..m][i] {
      OkmAt(h, prk, info, m, i);
      OkmAt(h, prk, info, n, i);
    }
  }

  /** Where a block starts in the output. */
  function Ahead(i: nat): nat {
    i / HASH_LENGTH * HASH_LENGTH
  }

  /**
    The output in its own terms: each byte is the keyed hash's, over the 32 bytes of output before its block
    (none for the first), the info and the number of the block.
  */
  lemma OkmRecurs(h: Hmac, prk: Bytes, info: Bytes, length: nat, i: nat)
    requires i < length <= 255 * HASH_LENGTH
    ensures var okm := Okm(h, prk, info, length); var at := Ahead(i);
      && at <= i < at + HASH_LENGTH && at / HASH_LENGTH + 1 <= 255
      && okm[i] == h(prk, (if at == 0 then [] else okm[at - HASH_LENGTH..at]) + info + [at / HASH_LENGTH + 1])[i - at]
  {
    var okm, at := Okm(h, prk, info, length), Ahead(i);
    var n := i / HASH_LENGTH;
    OkmAt(h, prk, info, length, i);
    if n > 0 {
      ChainLength(h, prk, info, n);
      var before := okm[at - HASH_LENGTH..at];
      assert before == Block(h, prk, info, n) by {
        forall j | 0 <= j < HASH_LENGTH ensures before[j] == Block(h, prk, info, n)[j] {
          OkmAt(h, prk, info, length, at - HASH_LENGTH + j);
        }
      }
    }
  }

  // ---------------------------------------------------------------- the code

  function ExtractKey(h: Hmac, master: Bytes, salt: Bytes): Bytes {
    h(if salt == [] then ZEROS else salt, master)
  }

  method ExpandKey(h: Hmac, prk: Bytes, info: Bytes, length: int) returns (r: Derived)
    ensures r.Negative? <==> length < 0
    ensures r.TooLong? <==> length > 255 * HASH_LENGTH
    ensures r.Key? ==> |r.bytes| == length && r.bytes == Okm(h, prk, info, length)
  {
    if length < 0 {
      return Negative;
    }
    if length > 255 * HASH_LENGTH {
      return TooLong;
    }
    var output: Bytes, block: Bytes := [], [];
    var counter := 1;
    while |output| < length
      invariant 1 <= counter <= 256
      invariant |output| == (counter - 1) * HASH_LENGTH
      invariant |output| < length + HASH_LENGTH
      invariant block == Block(h, prk, info, counter - 1) && output == Chain(h, prk, info, counter - 1)
      decreases length + HASH_LENGTH - |output|
    {
      block := h(prk, block + info + [counter]);
      output := output + block;
      counter := counter + 1;
    }
    assert counter - 1 == Blocks(length);
    r := Key(output[..length]);
  }

  method DeriveKey(h: Hmac, master: Bytes, info: Bytes, length: int, salt: Bytes) returns (r: Derived)
    ensures r.Key? <==> 0 <= length <= 255 * HASH_LENGTH
    ensures r.Key? ==> r.bytes == Okm(h, h(if salt == [] then seq(32, i => 0) else salt, master), info, length)
  {
    r := ExpandKey(h, ExtractKey(h, master, salt), info, length);
  }
}
