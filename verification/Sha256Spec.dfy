/** SHA-256 as FIPS 180-4 defines it, on byte-aligned messages. */
module Sha256Spec {
  import opened Bytes

  type word = bv32

  // ---------------------------------------------------------------- sections 4.1.2 and 4.2.2

  function Ch(x: word, y: word, z: word): word { (x & y) ^ (!x & z) }
  function Maj(x: word, y: word, z: word): word { (x & y) ^ (x & z) ^ (y & z) }

  function Rotr(x: word, n: word): word
    requires n <= 32
  {
    (x >> n) | (x << (32 - n))
  }

  function BigSigma0(x: word): word { Rotr(x, 2) ^ Rotr(x, 13) ^ Rotr(x, 22) }
  function BigSigma1(x: word): word { Rotr(x, 6) ^ Rotr(x, 11) ^ Rotr(x, 25) }
  function SmallSigma0(x: word): word { Rotr(x, 7) ^ Rotr(x, 18) ^ (x >> 3) }
  function SmallSigma1(x: word): word { Rotr(x, 17) ^ Rotr(x, 19) ^ (x >> 10) }

  /** Addition modulo 2^32. */
  function Plus(x: word, y: word): word { x + y }

  /** The table of constants, row by row. */
  const K0: seq<word> := [0x428a2f98, 0x71374491, 0xb5c0fbcf, 0xe9b5dba5, 0x3956c25b, 0x59f111f1, 0x923f82a4, 0xab1c5ed5]
  const K8: seq<word> := [0xd807aa98, 0x12835b01, 0x243185be, 0x550c7dc3, 0x72be5d74, 0x80deb1fe, 0x9bdc06a7, 0xc19bf174]
  const K16: seq<word> := [0xe49b69c1, 0xefbe4786, 0x0fc19dc6, 0x240ca1cc, 0x2de92c6f, 0x4a7484aa, 0x5cb0a9dc, 0x76f988da]
  const K24: seq<word> := [0x983e5152, 0xa831c66d, 0xb00327c8, 0xbf597fc7, 0xc6e00bf3, 0xd5a79147, 0x06ca6351, 0x14292967]
  const K32: seq<word> := [0x27b70a85, 0x2e1b2138, 0x4d2c6dfc, 0x53380d13, 0x650a7354, 0x766a0abb, 0x81c2c92e, 0x92722c85]
  const K40: seq<word> := [0xa2bfe8a1, 0xa81a664b, 0xc24b8b70, 0xc76c51a3, 0xd192e819, 0xd6990624, 0xf40e3585, 0x106aa070]
  const K48: seq<word> := [0x19a4c116, 0x1e376c08, 0x2748774c, 0x34b0bcb5, 0x391c0cb3, 0x4ed8aa4a, 0x5b9cca4f, 0x682e6ff3]
  const K56: seq<word> := [0x748f82ee, 0x78a5636f, 0x84c87814, 0x8cc70208, 0x90befffa, 0xa4506ceb, 0xbef9a3f7, 0xc67178f2]

  const K: seq<word> := K0 + K8 + K16 + K24 + K32 + K40 + K48 + K56

  /** Eight words: the working variables, and also a hash value. */
  datatype Vars = Vars(a: word, b: word, c: word, d: word, e: word, f: word, g: word, h: word)

  // ---------------------------------------------------------------- section 5.3.3

  const H0: Vars := Vars(0x6a09e667, 0xbb67ae85, 0x3c6ef372, 0xa54ff53a,
                         0x510e527f, 0x9b05688c, 0x1f83d9ab, 0x5be0cd19)

  // ---------------------------------------------------------------- section 6.2.2

  type Block = w: seq<word> | |w| == 16 witness seq(16, i => 0)

  function NextWord(w2: word, w7: word, w15: word, w16: word): word {
    Plus(Plus(Plus(SmallSigma1(w2), w7), SmallSigma0(w15)), w16)
  }

  /** The first `n` words of the message schedule. */
  function Schedule(block: Block, n: nat): (w: seq<word>)
    ensures |w| == n
  {
    if n == 0 then []
    else
      var w := Schedule(block, n - 1);
      var t := n - 1;
      w + [if t < 16 then block[t]
           else NextWord(w[t - 2], w[t - 7], w[t - 15], w[t - 16])]
  }

  function Round(v: Vars, k: word, w: word): Vars {
    var t1 := Plus(Plus(Plus(Plus(v.h, BigSigma1(v.e)), Ch(v.e, v.f, v.g)), k), w);
    var t2 := Plus(BigSigma0(v.a), Maj(v.a, v.b, v.c));
    Vars(Plus(t1, t2), v.a, v.b, v.c, Plus(v.d, t1), v.e, v.f, v.g)
  }

  function Rounds(v: Vars, w: seq<word>, t: nat): Vars
    requires t <= 64 == |w|
  {
    if t == 0 then v else Round(Rounds(v, w, t - 1), K[t - 1], w[t - 1])
  }

  function Add(x: Vars, y: Vars): Vars {
    Vars(Plus(x.a, y.a), Plus(x.b, y.b), Plus(x.c, y.c), Plus(x.d, y.d),
         Plus(x.e, y.e), Plus(x.f, y.f), Plus(x.g, y.g), Plus(x.h, y.h))
  }

  function Compress(hash: Vars, block: Block): Vars {
    Add(hash, Rounds(hash, Schedule(block, 64), 64))
  }

  // ---------------------------------------------------------------- section 5.2.1

  function BigEndian(b0: byte, b1: byte, b2: byte, b3: byte): word {
    ((b0 as word) << 24) | ((b1 as word) << 16) | ((b2 as word) << 8) | (b3 as word)
  }

  function ParseBlock(b: seq<byte>): Block
    requires |b| == 64
  {
    seq(16, i requires 0 <= i < 16 => BigEndian(b[4 * i], b[4 * i + 1], b[4 * i + 2], b[4 * i + 3]))
  }

  /** The whole 64-byte blocks of `bytes`, hashed one after the other. */
  function HashBlocks(hash: Vars, bytes: seq<byte>): Vars
    decreases |bytes|
  {
    if |bytes| < 64 then hash else HashBlocks(Compress(hash, ParseBlock(bytes[..64])), bytes[64..])
  }

  // ---------------------------------------------------------------- section 5.1.1

  /** After `len` bytes, 0x80 and `k` zero bytes, eight bytes complete a block. */
  predicate RoomForLength(len: nat, k: nat) {
    (len + 1 + k) % 64 == 56
  }

  /** The number of zero bytes after the 0x80 byte: the least that leaves room for exactly the length. */
  function PadZeros(len: nat): (k: nat)
    ensures RoomForLength(len, k) && k < 64
    ensures forall j: nat :: RoomForLength(len, j) ==> k <= j
  {
    var r := len % 64;
    assert len == 64 * (len / 64) + r;
    if r <= 55 then 55 - r else 119 - r
  }

  /** The byte of `n` that counts multiples of `unit`. */
  function Octet(n: nat, unit: nat): byte
    requires 0 < unit
  {
    ((n / unit) % 256) as byte
  }

  /** A 64-bit number, most significant byte first. */
  function LengthBytes(bits: nat): (r: seq<byte>)
    ensures |r| == 8
  {
    [Octet(bits, 0x100_0000_0000_0000), Octet(bits, 0x1_0000_0000_0000), Octet(bits, 0x100_0000_0000),
     Octet(bits, 0x1_0000_0000), Octet(bits, 0x100_0000), Octet(bits, 0x1_0000), Octet(bits, 0x100), Octet(bits, 1)]
  }

  /** The padding that follows `len` bytes when the bit count written at its end is `bits`. */
  function Padding(len: nat, bits: nat): seq<byte> {
    [0x80 as byte] + Zeros(PadZeros(len)) + LengthBytes(bits)
  }

  function ByteOf(w: word, i: nat): byte
    requires i < 4
  {
    if i == 0 then ((w >> 24) & 0xff) as byte
    else if i == 1 then ((w >> 16) & 0xff) as byte
    else if i == 2 then ((w >> 8) & 0xff) as byte
    else (w & 0xff) as byte
  }

  function WordBytes(w: word): (r: seq<byte>)
    ensures |r| == 4
  {
    [ByteOf(w, 0), ByteOf(w, 1), ByteOf(w, 2), ByteOf(w, 3)]
  }

  function Serialize(words: seq<word>): (r: seq<byte>)
    ensures |r| == 4 * |words|
  {
    if words == [] then [] else Serialize(words[..|words| - 1]) + WordBytes(words[|words| - 1])
  }

  function Digest(v: Vars): seq<byte> {
    Serialize([v.a, v.b, v.c, v.d, v.e, v.f, v.g, v.h])
  }

  /** The hash of `m` when its padding states the bit count `bits`. */
  function HashWithCount(m: seq<byte>, bits: nat): seq<byte> {
    Digest(HashBlocks(H0, m + Padding(|m|, bits)))
  }

  /** SHA-256 of a message whose bit length fits in 64 bits. */
  function Sha256(m: seq<byte>): seq<byte>
    requires |m| < 0x2000_0000_0000_0000
  {
    HashWithCount(m, 8 * |m|)
  }

  // ---------------------------------------------------------------- splitting

  /** Hashing whole blocks can be split at any block boundary. */
  lemma {:induction false} HashBlocksSplit(hash: Vars, x: seq<byte>, y: seq<byte>)
    requires |x| % 64 == 0
    ensures HashBlocks(hash, x + y) == HashBlocks(HashBlocks(hash, x), y)
    decreases |x|
  {
    hide Compress, ParseBlock;
    if |x| == 0 {
      assert x + y == y;
    } else {
      assert (x + y)[..64] == x[..64];
      assert (x + y)[64..] == x[64..] + y;
      HashBlocksSplit(Compress(hash, ParseBlock(x[..64])), x[64..], y);
    }
  }

  /** Each further block is compressed into the hash of those before it. */
  lemma BlockByBlock(hash: Vars, x: seq<byte>, last: seq<byte>)
    requires |x| % 64 == 0 && |last| == 64
    ensures HashBlocks(hash, x + last) == Compress(HashBlocks(hash, x), ParseBlock(last))
  {
    HashBlocksSplit(hash, x, last);
    hide Compress, ParseBlock;
    assert last[..64] == last;
  }

  // ---------------------------------------------------------------- the count, read back

  lemma Shifts(n: nat)
    ensures n / 0x100 / 256 == n / 0x1_0000 && n / 0x1_0000 / 256 == n / 0x100_0000
    ensures n / 0x100_0000 / 256 == n / 0x1_0000_0000 && n / 0x1_0000_0000 / 256 == n / 0x100_0000_0000
    ensures n / 0x100_0000_0000 / 256 == n / 0x1_0000_0000_0000
    ensures n / 0x1_0000_0000_0000 / 256 == n / 0x100_0000_0000_0000
  {
  }

  lemma NextByte(n: nat, k: nat, high: seq<byte>)
    requires high == ToNetwork(n / 256, k)
    ensures ToNetwork(n, k + 1) == high + [Octet(n, 1)]
  {
  }

  lemma OctetOfQuotient(n: nat, unit: nat)
    requires unit > 0
    ensures Octet(n, unit) == Octet(n / unit, 1)
  {
  }

  lemma FourBytes(high: seq<byte>, k: nat, q3: nat, q4: nat, q5: nat, q6: nat, q7: nat)
    requires high == ToNetwork(q3, k)
    requires q3 == q4 / 256 && q4 == q5 / 256 && q5 == q6 / 256 && q6 == q7 / 256
    ensures ToNetwork(q7, k + 4) == high + [Octet(q4, 1), Octet(q5, 1), Octet(q6, 1), Octet(q7, 1)]
  {
    hide ToNetwork, Octet;
    NextByte(q4, k, high);
    NextByte(q5, k + 1, high + [Octet(q4, 1)]);
    NextByte(q6, k + 2, high + [Octet(q4, 1)] + [Octet(q5, 1)]);
    NextByte(q7, k + 3, high + [Octet(q4, 1)] + [Octet(q5, 1)] + [Octet(q6, 1)]);
  }

  lemma LengthOctets(bits: nat)
    ensures LengthBytes(bits) ==
      [Octet(bits / 0x100_0000_0000_0000, 1), Octet(bits / 0x1_0000_0000_0000, 1),
       Octet(bits / 0x100_0000_0000, 1), Octet(bits / 0x1_0000_0000, 1)]
      + [Octet(bits / 0x100_0000, 1), Octet(bits / 0x1_0000, 1), Octet(bits / 0x100, 1), Octet(bits, 1)]
  {
    hide Octet;
    OctetOfQuotient(bits, 0x100_0000_0000_0000);
    OctetOfQuotient(bits, 0x1_0000_0000_0000);
    OctetOfQuotient(bits, 0x100_0000_0000);
    OctetOfQuotient(bits, 0x1_0000_0000);
    OctetOfQuotient(bits, 0x100_0000);
    OctetOfQuotient(bits, 0x1_0000);
    OctetOfQuotient(bits, 0x100);
  }

  lemma LengthWritten(bits: nat)
    ensures LengthBytes(bits) == ToNetwork(bits, 8)
  {
    hide Octet, LengthBytes, ToNetwork;
    Shifts(bits);
    LengthOctets(bits);
    var top := bits / 0x100_0000_0000_0000;
    NoBytes(top / 256);
    FourBytes([], 0, top / 256, top, bits / 0x1_0000_0000_0000, bits / 0x100_0000_0000, bits / 0x1_0000_0000);
    FourBytes(ToNetwork(bits / 0x1_0000_0000, 4), 4,
              bits / 0x1_0000_0000, bits / 0x100_0000, bits / 0x1_0000, bits / 0x100, bits);
  }

  lemma NoBytes(n: nat)
    ensures ToNetwork(n, 0) == []
  {
  }

  /** The eight bytes, read most significant byte first, are the number. */
  lemma LengthValue(bits: nat)
    requires bits < 0x1_0000_0000_0000_0000
    ensures FromNetwork(LengthBytes(bits)) == bits
  {
    LengthWritten(bits);
    Pow256Of8();
    NetworkRoundTrip(bits, 8);
  }
}
