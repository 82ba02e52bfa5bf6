/** Byte strings as Python's `bytes` objects, their concatenation
    (`b''.join`), and the bitwise XOR that the fault injector applies to a byte. */
module Bytes {

  type byte = b: int | 0 <= b < 256

  /** Regrouping a concatenation. */
  lemma AppendAssoc3<T>(a: seq<T>, b: seq<T>, c: seq<T>)
    ensures a + b + c == a + (b + c)
  {
  }

  lemma AppendAssoc4<T>(a: seq<T>, b: seq<T>, c: seq<T>, d: seq<T>)
    ensures a + b + c + d == a + (b + c + d)
  {
  }

  lemma Singletons3<T>(a: T, b: T, c: T, x: seq<T>)
    ensures [a] + [b] + [c] + x == [a, b, c] + x
  {
  }

  /** Appending after a run of at least two leaves its first two elements
      in place and its remainder followed by the appended part. */
  lemma AppendDropTwo<T>(a: seq<T>, b: seq<T>)
    requires |a| >= 2
    ensures (a + b)[0] == a[0] && (a + b)[1] == a[1] && (a + b)[2..] == a[2..] + b
  {
  }

  /** Concatenation of the parts in list order: `b''.join(parts)`. */
  function Flatten(parts: seq<seq<byte>>): (r: seq<byte>)
  {
    if parts == [] then [] else parts[0] + Flatten(parts[1..])
  }

  lemma {:induction false} FlattenAppend(a: seq<seq<byte>>, b: seq<seq<byte>>)
    ensures Flatten(a + b) == Flatten(a) + Flatten(b)
  {
    if a == [] {
      assert a + b == b;
    } else {
      assert (a + b)[1..] == a[1..] + b;
      FlattenAppend(a[1..], b);
    }
  }

  /** Appending one part appends its bytes: the accumulation step of a join loop. */
  lemma FlattenSnoc(a: seq<seq<byte>>, x: seq<byte>)
    ensures Flatten(a + [x]) == Flatten(a) + x
  {
    FlattenAppend(a, [x]);
    assert Flatten([x]) == x + Flatten([]);
  }

  function Pow2(k: nat): (r: nat)
    ensures r >= 1
  {
    if k == 0 then 1 else 2 * Pow2(k - 1)
  }

  /** XOR of the low k bits of a and b, bit by bit from the least significant. */
  function XorBits(a: nat, b: nat, k: nat): (r: nat)
    ensures r < Pow2(k)
  {
    if k == 0 then 0 else (a % 2 + b % 2) % 2 + 2 * XorBits(a / 2, b / 2, k - 1)
  }

  /** Python's `a ^ b` on two byte values. */
  function Xor(a: byte, b: byte): byte
  {
    XorBits(a, b, 8)
  }

  lemma {:induction false} XorBitsIdentity(a: nat, m: nat, k: nat)
    requires a < Pow2(k) && m < Pow2(k)
    requires XorBits(a, m, k) == a
    ensures m == 0
  {
    if k > 0 {
      var rest := XorBits(a / 2, m / 2, k - 1);
      assert (a % 2 + m % 2) % 2 + 2 * rest == a % 2 + 2 * (a / 2);
      assert m % 2 == 0;
      assert rest == a / 2;
      XorBitsIdentity(a / 2, m / 2, k - 1);
    }
  }

  /** XOR with a non-zero mask always changes the byte: a single corrupted
      position is never a no-op. */
  lemma XorNonZeroChanges(a: byte, m: byte)
    requires m != 0
    ensures Xor(a, m) != a
  {
    if Xor(a, m) == a {
      assert Pow2(8) == 256;
      XorBitsIdentity(a, m, 8);
    }
  }
}
