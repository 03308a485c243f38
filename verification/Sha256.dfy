/** The streaming hash: a context that absorbs chunks of any size, and its final padding. */
module Sha256Stream {
  import opened Bytes
  import opened Sha256Spec

  const TWO_32: nat := 0x1_0000_0000
  const TWO_64: nat := 0x1_0000_0000_0000_0000

  /** The part of `m` in whole blocks, and the rest. */
  function Full(m: seq<byte>): seq<byte> {
    m[..|m| / 64 * 64]
  }

  function Tail(m: seq<byte>): (r: seq<byte>)
    ensures |r| == |m| % 64
  {
    m[|m| / 64 * 64..]
  }

  /** Bytes that do not complete a block only lengthen the tail. */
  lemma AbsorbPartial(m: seq<byte>, chunk: seq<byte>)
    requires |m| % 64 + |chunk| < 64
    ensures Full(m + chunk) == Full(m) && Tail(m + chunk) == Tail(m) + chunk
  {
    assert |m + chunk| / 64 == |m| / 64;
  }

  /** Bytes that complete a block hash it and empty the tail. */
  lemma AbsorbBlock(m: seq<byte>, chunk: seq<byte>)
    requires |m| % 64 + |chunk| == 64
    ensures HashBlocks(H0, Full(m + chunk)) == Compress(HashBlocks(H0, Full(m)), ParseBlock(Tail(m) + chunk))
    ensures Tail(m + chunk) == []
  {
    var block := Tail(m) + chunk;
    assert |m + chunk| / 64 == |m| / 64 + 1;
    assert Full(m + chunk) == Full(m) + block;
    HashBlocksSplit(H0, Full(m), block);
    assert block[..64] == block;
  }

  class Context {
    var sz0: nat
    var sz1: nat
    const counter: array<word>
    const saveBytes: array<byte>
    /** Everything absorbed so far. */
    ghost var absorbed: seq<byte>

    function Counter(): Vars
      requires counter.Length == 8
      reads counter
    {
      Vars(counter[0], counter[1], counter[2], counter[3], counter[4], counter[5], counter[6], counter[7])
    }

    /** The split 64-bit bit counter. */
    function Count(): nat
      reads this`sz0, this`sz1
    {
      sz1 * TWO_32 + sz0
    }

    /** The buffers fit, and together they determine the message absorbed so far. */
    ghost predicate Valid()
      reads this, counter, saveBytes
    {
      && counter.Length == 8 && saveBytes.Length == 64
      && sz0 < TWO_32 && sz1 < TWO_32
      && sz0 == (8 * |absorbed|) % TWO_32
      && Counter() == HashBlocks(H0, Full(absorbed))
      && saveBytes[..|absorbed| % 64] == Tail(absorbed)
    }

    constructor ()
      ensures Valid() && absorbed == [] && Count() == 0
      ensures fresh(counter) && fresh(saveBytes)
    {
      counter := new word[8];
      saveBytes := new byte[64];
      absorbed := [];
      new;
      Init();
    }

    method Init()
      requires counter.Length == 8 && saveBytes.Length == 64
      modifies this, counter
      ensures Valid() && absorbed == [] && Count() == 0
    {
      sz0 := 0;
      sz1 := 0;
      counter[0] := 0x6a09e667;
      counter[1] := 0xbb67ae85;
      counter[2] := 0x3c6ef372;
      counter[3] := 0xa54ff53a;
      counter[4] := 0x510e527f;
      counter[5] := 0x9b05688c;
      counter[6] := 0x1f83d9ab;
      counter[7] := 0x5be0cd19;
      absorbed := [];
    }

    /** One block of the compression function, in place. */
    method Calc(block: Block)
      requires counter.Length == 8
      modifies counter
      ensures Counter() == Compress(old(Counter()), block)
    {
      var data := ExpandBlock(block);
      var v := RunRounds(Counter(), data);
      AddToCounter(v);
    }

    method AddToCounter(v: Vars)
      requires counter.Length == 8
      modifies counter
      ensures Counter() == Add(old(Counter()), v)
    {
      hide Plus;
      counter[0] := Plus(counter[0], v.a);
      counter[1] := Plus(counter[1], v.b);
      counter[2] := Plus(counter[2], v.c);
      counter[3] := Plus(counter[3], v.d);
      counter[4] := Plus(counter[4], v.e);
      counter[5] := Plus(counter[5], v.f);
      counter[6] := Plus(counter[6], v.g);
      counter[7] := Plus(counter[7], v.h);
    }

    /** `memcpy` into the save buffer */
    method Save(offset: nat, chunk: seq<byte>)
      requires offset + |chunk| <= saveBytes.Length
      modifies saveBytes
      ensures saveBytes[..offset + |chunk|] == old(saveBytes[..offset]) + chunk
    {
      for i := 0 to |chunk|
        invariant saveBytes[..offset] == old(saveBytes[..offset])
        invariant saveBytes[offset..offset + i] == chunk[..i]
      {
        saveBytes[offset + i] := chunk[i];
      }
      assert saveBytes[..offset + |chunk|] == saveBytes[..offset] + saveBytes[offset..offset + |chunk|];
    }

    /** The counter and the first `offset` saved bytes determine message `m`. */
    ghost predicate Holds(m: seq<byte>, offset: nat)
      reads this, counter, saveBytes
    {
      && counter.Length == 8 && saveBytes.Length == 64
      && Counter() == HashBlocks(H0, Full(m))
      && offset == |m| % 64
      && saveBytes[..offset] == Tail(m)
    }

    /** One turn of the update loop: save a piece, and hash the block when it is complete. */
    method Absorb(offset: nat, chunk: seq<byte>) returns (next: nat)
      requires Holds(absorbed, offset) && offset + |chunk| <= 64
      modifies this`absorbed, counter, saveBytes
      ensures absorbed == old(absorbed) + chunk && Holds(absorbed, next)
    {
      hide HashBlocks, Compress, ParseBlock, Full, Tail, Counter;
      ghost var m := absorbed;
      Save(offset, chunk);
      absorbed := absorbed + chunk;
      next := offset + |chunk|;
      assert saveBytes[..next] == Tail(m) + chunk;
      if next == 64 {
        AbsorbBlock(m, chunk);
        FlushBlock();
        next := 0;
      } else {
        AbsorbPartial(m, chunk);
      }
    }

    /** The full save buffer goes through the compression function, as sixteen big-endian words. */
    method FlushBlock()
      requires counter.Length == 8 && saveBytes.Length == 64
      modifies counter
      ensures Counter() == Compress(old(Counter()), ParseBlock(saveBytes[..64]))
    {
      hide Compress, ParseBlock, Counter;
      assert saveBytes[..] == saveBytes[..64];
      Calc(ParseBlock(saveBytes[..]));
    }

    method AddToCount(len: nat)
      requires sz0 < TWO_32 && sz1 < TWO_32 && len < TWO_32
      modifies this`sz0, this`sz1
      ensures sz0 == (old(sz0) + 8 * len) % TWO_32 && sz1 < TWO_32
      ensures Count() == (old(Count()) + (8 * len) % TWO_32) % TWO_64
    {
      var oldSz := sz0;
      var bits := (len * 8) % TWO_32;
      WrapTwice(oldSz, 8 * len);
      Carry(oldSz, sz1, bits);
      sz0 := (sz0 + bits) % TWO_32;
      if sz0 < oldSz {
        sz1 := (sz1 + 1) % TWO_32;
      }
    }

    /**
     Absorbs any chunk whose length is a 32-bit number. The bit counter follows as long as eight times the
     length is also a 32-bit number, and otherwise falls behind by the lost high bits.
     */
    method Update(data: seq<byte>)
      requires Valid() && |data| < TWO_32
      modifies this, counter, saveBytes
      ensures Valid() && absorbed == old(absorbed) + data
      ensures Count() == (old(Count()) + (8 * |data|) % TWO_32) % TWO_64
    {
      hide HashBlocks, Full, Tail, Counter;
      var oldSz := sz0;
      ghost var start := absorbed;
      AddToCount(|data|);
      CountFollows(|start|, |data|);
      ghost var low, high := sz0, sz1;
      var offset := (oldSz / 8) % 64;
      OffsetIsTail(|start|);
      var p := 0;
      while p < |data|
        invariant p <= |data|
        invariant absorbed == start + data[..p]
        invariant Holds(absorbed, offset)
        invariant sz0 == low && sz1 == high
      {
        var l := 64 - offset;
        if |data| - p < l {
          l := |data| - p;
        }
        TakeMore(data, p, l);
        offset := Absorb(offset, data[p..p + l]);
        p := p + l;
      }
      assert data[..|data|] == data;
    }

    /**
     The digest of everything absorbed, padded with the bit counter. When the counter is right and the message
     is within the standard's limit, this is its SHA-256.
     */
    method Final() returns (result: seq<byte>)
      requires Valid()
      modifies this, counter, saveBytes
      ensures result == HashWithCount(old(absorbed), old(Count()))
      ensures old(Count()) == 8 * |old(absorbed)| && |old(absorbed)| < 0x2000_0000_0000_0000 ==>
        result == Sha256(old(absorbed))
    {
      hide HashBlocks, Padding, Counter, Digest;
      ghost var m, bits := absorbed, Count();
      var zeros, n := BuildPadding();
      PaddedLength(m, bits);
      Update(zeros[..n]);
      assert Full(absorbed) == absorbed;
      result := Output();
    }

    /** 0x80, zeros, and the bit counter in the last eight of `n` bytes. */
    method BuildPadding() returns (zeros: array<byte>, n: nat)
      requires Valid()
      ensures fresh(zeros) && n <= zeros.Length && zeros[..n] == Padding(|absorbed|, Count())
    {
      hide HashBlocks, Octet, Counter, Full, Tail;
      var offset := (sz0 / 8) % 64;
      OffsetIsTail(|absorbed|);
      var dstart := (120 - offset - 1) % 64 + 1;
      zeros := new byte[72](i => 0);
      zeros[0] := 0x80;
      assert zeros[..dstart] == [0x80 as byte] + Zeros(PadZeros(|absorbed|));
      WriteCount(zeros, dstart);
      n := dstart + 8;
      assert zeros[..n] == zeros[..dstart] + zeros[dstart..n];
    }

    method WriteCount(zeros: array<byte>, dstart: nat)
      requires dstart + 8 <= zeros.Length && sz0 < TWO_32 && sz1 < TWO_32
      modifies zeros
      ensures zeros[..dstart] == old(zeros[..dstart]) && zeros[dstart..dstart + 8] == LengthBytes(Count())
    {
      hide Octet;
      WriteWord(zeros, dstart + 4, sz0);
      ghost var low := zeros[dstart + 4..dstart + 8];
      assert zeros[dstart + 4..][..4] == low;
      WriteWord(zeros, dstart, sz1);
      assert zeros[dstart + 4..][..4] == zeros[dstart + 4..dstart + 8];
      CountBytes(sz0, sz1);
      assert zeros[dstart..dstart + 8] == zeros[dstart..dstart + 4] + zeros[dstart + 4..dstart + 8];
    }

    /** The eight words, most significant byte first. */
    method Output() returns (result: seq<byte>)
      requires counter.Length == 8
      ensures result == Digest(Counter())
    {
      hide WordBytes;
      result := [];
      for i := 0 to 8
        invariant result == Serialize(counter[..i])
      {
        assert counter[..i + 1] == counter[..i] + [counter[i]];
        result := result + WordBytes(counter[i]);
      }
      assert counter[..8] == [counter[0], counter[1], counter[2], counter[3], counter[4], counter[5], counter[6], counter[7]];
    }
  }

  /** Padding completes a block and takes at most 72 bytes. */
  lemma PaddedLength(m: seq<byte>, bits: nat)
    ensures |Padding(|m|, bits)| <= 72
    ensures |m + Padding(|m|, bits)| % 64 == 0
  {
    hide PadZeros, RoomForLength, LengthBytes;
    BlockCompleted(|m|, PadZeros(|m|));
  }

  lemma BlockCompleted(len: nat, k: nat)
    requires RoomForLength(len, k)
    ensures (len + (1 + k + 8)) % 64 == 0
  {
  }

  /** Within the standard's limit and with chunks below 2^29 bytes nothing is lost. */
  lemma CountStaysExact(before: nat, len: nat)
    requires len < 0x2000_0000 && before + len < 0x2000_0000_0000_0000
    ensures (8 * before + (8 * len) % TWO_32) % TWO_64 == 8 * (before + len)
  {
    assert (8 * len) % TWO_32 == 8 * len;
  }

  /** Four bytes of one half of the counter. */
  method WriteWord(zeros: array<byte>, at: nat, w: nat)
    requires at + 4 <= zeros.Length
    modifies zeros
    ensures zeros[..at] == old(zeros[..at]) && zeros[at + 4..] == old(zeros[at + 4..])
    ensures zeros[at..at + 4] == [Octet(w, 0x100_0000), Octet(w, 0x1_0000), Octet(w, 0x100), Octet(w, 1)]
  {
    hide Octet;
    zeros[at + 3] := Octet(w, 1);
    zeros[at + 2] := Octet(w, 0x100);
    zeros[at + 1] := Octet(w, 0x1_0000);
    zeros[at] := Octet(w, 0x100_0000);
  }

  lemma TakeMore(data: seq<byte>, p: nat, l: nat)
    requires p + l <= |data|
    ensures data[..p + l] == data[..p] + data[p..p + l]
  {
  }

  lemma CountFollows(before: nat, len: nat)
    ensures ((8 * before) % TWO_32 + 8 * len) % TWO_32 == (8 * (before + len)) % TWO_32
  {
  }

  lemma WrapTwice(low: nat, n: nat)
    ensures (low + n % TWO_32) % TWO_32 == (low + n) % TWO_32
  {
  }

  /** Two 32-bit words with a carry count like one 64-bit number. */
  lemma Carry(low: nat, high: nat, bits: nat)
    requires low < TWO_32 && high < TWO_32 && bits < TWO_32
    ensures var sum := (low + bits) % TWO_32;
            var carried := if sum < low then (high + 1) % TWO_32 else high;
            carried * TWO_32 + sum == (high * TWO_32 + low + bits) % TWO_64
  {
    if low + bits >= TWO_32 {
      assert (low + bits) % TWO_32 == low + bits - TWO_32;
      if high + 1 == TWO_32 {
        assert high * TWO_32 + low + bits == TWO_64 + (low + bits - TWO_32);
      }
    }
  }

  lemma Mod64Shift(x: int, k: int)
    ensures (x - 64 * k) % 64 == x % 64
  {
  }

  /** The low word of the bit counter is enough to find the place in the block. */
  lemma OffsetIsTail(len: nat)
    ensures ((8 * len) % TWO_32) / 8 % 64 == len % 64
  {
    var q := 8 * len / TWO_32;
    assert 8 * len == TWO_32 * q + (8 * len) % TWO_32;
    assert (8 * len) % TWO_32 == 8 * (len - 64 * (0x80_0000 * q));
    Mod64Shift(len, 0x80_0000 * q);
  }

  lemma HighBytes(low: nat, high: nat)
    requires low < TWO_32 && high < TWO_32
    ensures (high * TWO_32 + low) / 0x100_0000_0000_0000 == high / 0x100_0000
    ensures (high * TWO_32 + low) / 0x1_0000_0000_0000 == high / 0x1_0000
    ensures (high * TWO_32 + low) / 0x100_0000_0000 == high / 0x100
    ensures (high * TWO_32 + low) / 0x1_0000_0000 == high
  {
  }

  lemma LowByte3(low: nat, high: nat)
    ensures (high * TWO_32 + low) / 0x100_0000 % 256 == low / 0x100_0000 % 256
  {
    assert (high * TWO_32 + low) / 0x100_0000 == 256 * high + low / 0x100_0000;
  }

  lemma LowByte2(low: nat, high: nat)
    ensures (high * TWO_32 + low) / 0x1_0000 % 256 == low / 0x1_0000 % 256
  {
    assert (high * TWO_32 + low) / 0x1_0000 == 256 * (256 * high) + low / 0x1_0000;
  }

  lemma LowByte1(low: nat, high: nat)
    ensures (high * TWO_32 + low) / 0x100 % 256 == low / 0x100 % 256
  {
    assert (high * TWO_32 + low) / 0x100 == 256 * (0x1_0000 * high) + low / 0x100;
  }

  lemma LowByte0(low: nat, high: nat)
    ensures (high * TWO_32 + low) % 256 == low % 256
  {
    assert high * TWO_32 + low == 256 * (0x100_0000 * high) + low;
  }

  /** The two 32-bit halves give the eight bytes of the 64-bit count. */
  lemma CountBytes(low: nat, high: nat)
    requires low < TWO_32 && high < TWO_32
    ensures LengthBytes(high * TWO_32 + low) ==
      [Octet(high, 0x100_0000), Octet(high, 0x1_0000), Octet(high, 0x100), Octet(high, 1),
       Octet(low, 0x100_0000), Octet(low, 0x1_0000), Octet(low, 0x100), Octet(low, 1)]
  {
    HighBytes(low, high);
    LowByte3(low, high);
    LowByte2(low, high);
    LowByte1(low, high);
    LowByte0(low, high);
  }

  /** The message schedule, computed forwards into an array. */
  method ExpandBlock(block: Block) returns (data: array<word>)
    ensures fresh(data) && data.Length == 64 && data[..] == Schedule(block, 64)
  {
    hide NextWord;
    data := new word[64](i => 0);
    var i := 0;
    while i < 16
      invariant 0 <= i <= 16 && data[..i] == Schedule(block, i)
    {
      data[i] := block[i];
      assert data[..i + 1] == data[..i] + [data[i]];
      i := i + 1;
    }
    while i < 64
      invariant 16 <= i <= 64 && data[..i] == Schedule(block, i)
    {
      ghost var w := data[..i];
      data[i] := NextWord(data[i - 2], data[i - 7], data[i - 15], data[i - 16]);
      assert data[..i] == w;
      assert data[..i + 1] == w + [data[i]];
      i := i + 1;
    }
    assert data[..64] == data[..];
  }

  /** The 64 rounds over the eight working variables. */
  method RunRounds(start: Vars, data: array<word>) returns (v: Vars)
    requires data.Length == 64
    ensures v == Rounds(start, data[..], 64)
  {
    hide Plus, BigSigma0, BigSigma1, Ch, Maj;
    var a, b, c, d, e, f, g, h := start.a, start.b, start.c, start.d, start.e, start.f, start.g, start.h;
    for i := 0 to 64
      invariant Vars(a, b, c, d, e, f, g, h) == Rounds(start, data[..], i)
    {
      var t1 := Plus(Plus(Plus(Plus(h, BigSigma1(e)), Ch(e, f, g)), K[i]), data[i]);
      var t2 := Plus(BigSigma0(a), Maj(a, b, c));
      h := g;
      g := f;
      f := e;
      e := Plus(d, t1);
      d := c;
      c := b;
      b := a;
      a := Plus(t1, t2);
    }
    v := Vars(a, b, c, d, e, f, g, h);
  }

  /** One update keeps the counter right exactly when eight times the chunk length fits in 32 bits. */
  lemma CountsExactlyWhen(count: nat, len: nat)
    requires len < TWO_32 && count < TWO_64
    ensures (count + (8 * len) % TWO_32) % TWO_64 == (count + 8 * len) % TWO_64 <==> len < 0x2000_0000
  {
  }

  function Concat(chunks: seq<seq<byte>>): seq<byte> {
    if chunks == [] then [] else chunks[0] + Concat(chunks[1..])
  }

  lemma {:induction false} ConcatAppend(chunks: seq<seq<byte>>, i: nat)
    requires i < |chunks|
    ensures Concat(chunks[..i + 1]) == Concat(chunks[..i]) + chunks[i]
  {
    if i == 0 {
      assert chunks[..1] == [chunks[0]];
    } else {
      ConcatAppend(chunks[1..], i - 1);
      assert chunks[1..][..i] == chunks[..i + 1][1..];
      assert chunks[1..][..i - 1] == chunks[..i][1..];
    }
  }

  lemma {:induction false} ConcatLength(chunks: seq<seq<byte>>, i: nat)
    requires i <= |chunks|
    ensures |Concat(chunks[..i])| <= |Concat(chunks)|
    decreases |chunks|
  {
    if 0 < i {
      ConcatLength(chunks[1..], i - 1);
      assert chunks[1..][..i - 1] == chunks[..i][1..];
    }
  }

  /** Any way of cutting a message into chunks gives the hash of the whole message. */
  method HashChunks(chunks: seq<seq<byte>>) returns (result: seq<byte>)
    requires forall i :: 0 <= i < |chunks| ==> |chunks[i]| < 0x2000_0000
    requires |Concat(chunks)| < 0x2000_0000_0000_0000
    ensures result == Sha256(Concat(chunks))
  {
    hide HashBlocks, HashWithCount, Full, Tail;
    var m := new Context();
    for i := 0 to |chunks|
      invariant m.Valid() && m.absorbed == Concat(chunks[..i])
      invariant m.Count() == 8 * |m.absorbed|
      invariant fresh(m) && fresh(m.counter) && fresh(m.saveBytes)
    {
      ConcatAppend(chunks, i);
      ConcatLength(chunks, i + 1);
      CountStaysExact(|m.absorbed|, |chunks[i]|);
      m.Update(chunks[i]);
    }
    assert chunks[..|chunks|] == chunks;
    result := m.Final();
  }
}
