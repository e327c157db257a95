/** Bytes and big-endian integers. */
module Bytes {

  type byte = x: int | 0 <= x < 256

  type Bytes = seq<byte>

  datatype Option<+T> = None | Some(value: T)

  function Pow256(k: nat): (r: nat)
    ensures r >= 1
  {
    if k == 0 then 1 else 256 * Pow256(k - 1)
  }

  /** The shortest big-endian form of n; zero takes one byte. */
  function BigEndian(n: nat): (r: Bytes)
    ensures |r| >= 1
    ensures n > 0 ==> r[0] != 0
  {
    if n < 256 then [n] else BigEndian(n / 256) + [n % 256]
  }

  function FromBigEndian(b: Bytes): (n: nat) {
    if b == [] then 0 else 256 * FromBigEndian(b[..|b| - 1]) + b[|b| - 1]
  }

  lemma {:induction false} BigEndianValue(n: nat)
    ensures FromBigEndian(BigEndian(n)) == n
  {
    if n >= 256 {
      BigEndianValue(n / 256);
      var r := BigEndian(n);
      assert r[..|r| - 1] == BigEndian(n / 256);
    } else {
      assert [n as byte][..0] == [];
    }
  }

  /** n needs at most k bytes exactly when it is below 256^k. */
  lemma {:induction false} BigEndianLength(n: nat, k: nat)
    requires k >= 1
    ensures |BigEndian(n)| <= k <==> n < Pow256(k)
    decreases k
  {
    if n < 256 {
      assert Pow256(k) == 256 * Pow256(k - 1);
    } else if k == 1 {
      assert Pow256(1) == 256 * Pow256(0);
    } else {
      BigEndianLength(n / 256, k - 1);
      assert Pow256(k) == 256 * Pow256(k - 1);
    }
  }

  /** A byte string without a leading zero is the shortest form of its value. */
  lemma {:induction false} BigEndianCanonical(b: Bytes)
    requires |b| >= 1 && b[0] != 0
    ensures BigEndian(FromBigEndian(b)) == b
    ensures FromBigEndian(b) >= 1
  {
    var front := b[..|b| - 1];
    if |b| == 1 {
      assert front == [];
      assert b == [b[0]];
    } else {
      BigEndianCanonical(front);
      var hi := FromBigEndian(front);
      var n := FromBigEndian(b);
      assert n == 256 * hi + b[|b| - 1];
      assert n / 256 == hi && n % 256 == b[|b| - 1];
      assert b == front + [b[|b| - 1]];
    }
  }

  lemma {:induction false} Concat4(a: Bytes, b: Bytes, c: Bytes, d: Bytes)
    ensures a + (b + c + d) == a + b + (c + d) == (a + b + c) + d
  {
  }
}
