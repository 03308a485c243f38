/** Bytes, single bits of a byte, numbers in network order, and what else the models share. */
module Bytes {

  type byte = bv8

  datatype Option<+T> = None | Some(value: T)

  function Max(a: int, b: int): int {
    if a < b then b else a
  }

  function Min(a: int, b: int): int {
    if a < b then a else b
  }

  /** `1u << k` for one of the eight bits of a byte. */
  function Bit(k: nat): byte
    requires k < 8
  {
    1 << k
  }

  /** Setting bit `i` changes the answer of a test of bit `j` exactly when the two are the same bit. */
  lemma TestAfterSet(b: byte, i: nat, j: nat)
    requires i < 8 && j < 8
    ensures (b | Bit(i)) & Bit(j) != 0 <==> (i == j || b & Bit(j) != 0)
  {
  }

  lemma NoBitOfZero(j: nat)
    requires j < 8
    ensures (0 as byte) & Bit(j) == 0
  {
  }

  /** A byte survives the trip through a number. */
  lemma ByteOfNat(b: byte)
    ensures (b as nat) < 256 && (b as nat) as byte == b
  {
  }

  lemma NextByteValue(b: byte)
    requires b != 0xff
    ensures (b + 1) as nat == b as nat + 1
  {
  }

  /** Every number below 256 is the value of a byte. */
  lemma {:induction false} ByteWithValue(n: nat) returns (b: byte)
    requires n < 256
    ensures b as nat == n
  {
    if n == 0 {
      b := 0;
    } else {
      var c := ByteWithValue(n - 1);
      NextByteValue(c);
      b := c + 1;
    }
  }

  /** A small number survives the trip through a byte. */
  lemma NatOfByte(n: nat)
    requires n < 256
    ensures (n as byte) as nat == n
  {
    var b := ByteWithValue(n);
    ByteOfNat(b);
  }

  function Zeros(n: nat): (z: seq<byte>)
    ensures |z| == n && forall i :: 0 <= i < n ==> z[i] == 0
  {
    seq(n, i => 0)
  }

  lemma NonEmpty(s: set<int>)
    ensures s == {} || exists x :: x in s
  {
    if forall x :: x !in s {
      assert s == {};
    }
  }

  // ---------------------------------------------------------------- numbers in network order

  function Pow256(k: nat): nat {
    if k == 0 then 1 else 256 * Pow256(k - 1)
  }

  lemma Pow256Of8()
    ensures Pow256(8) == 0x1_0000_0000_0000_0000
  {
    assert Pow256(4) == 0x1_0000_0000;
    assert Pow256(6) == 256 * Pow256(5);
  }

  function ToNetwork(n: nat, k: nat): (r: seq<byte>)
    ensures |r| == k
  {
    if k == 0 then [] else ToNetwork(n / 256, k - 1) + [(n % 256) as byte]
  }

  function FromNetwork(b: seq<byte>): nat {
    if b == [] then 0 else 256 * FromNetwork(b[..|b| - 1]) + b[|b| - 1] as nat
  }

  lemma {:induction false} NetworkRoundTrip(n: nat, k: nat)
    requires n < Pow256(k)
    ensures FromNetwork(ToNetwork(n, k)) == n
  {
    if k != 0 {
      NetworkRoundTrip(n / 256, k - 1);
      var init, last := ToNetwork(n / 256, k - 1), (n % 256) as byte;
      assert ToNetwork(n, k) == init + [last];
      assert (init + [last])[..k - 1] == init;
      NatOfByte(n % 256);
    }
  }

  lemma {:induction false} FromNetworkBound(b: seq<byte>)
    ensures FromNetwork(b) < Pow256(|b|)
  {
    if b != [] {
      FromNetworkBound(b[..|b| - 1]);
    }
  }

  lemma SplitLast(high: nat, low: nat)
    requires low < 256
    ensures (256 * high + low) / 256 == high && (256 * high + low) % 256 == low
  {
  }

  lemma {:induction false} NetworkOfBytes(b: seq<byte>)
    ensures ToNetwork(FromNetwork(b), |b|) == b
  {
    if b != [] {
      var init, last := b[..|b| - 1], b[|b| - 1];
      NetworkOfBytes(init);
      ByteOfNat(last);
      SplitLast(FromNetwork(init), last as nat);
      assert b == init + [last];
    }
  }

  lemma WrittenLast(n: nat, k: nat, high: seq<byte>, last: byte)
    requires k > 0 && high == ToNetwork(n / 256, k - 1) && last == (n % 256) as byte
    ensures ToNetwork(n, k) == high + [last]
  {
  }
}
