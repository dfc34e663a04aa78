/** Little-endian fields of a file, and overwriting part of a file in place. */
module AviBytes {
  import Arith

  type Bytes = seq<int>

  function Id(s: string): (b: Bytes)
    ensures |b| == |s|
  {
    seq(|s|, i requires 0 <= i < |s| => s[i] as int)
  }

  function Zeros(n: nat): (b: Bytes)
    ensures |b| == n
  {
    seq(n, i => 0)
  }

  /** The low k bytes of n, least significant first. */
  function Le(n: nat, k: nat): (b: Bytes)
    ensures |b| == k
  {
    if k == 0 then [] else [n % 256] + Le(n / 256, k - 1)
  }

  function Pow256(k: nat): (p: nat)
    ensures p > 0
  {
    if k == 0 then 1 else 256 * Pow256(k - 1)
  }

  /** The number stored in k bytes of the file. */
  function Field(file: Bytes, at: nat, k: nat): int
    requires at + k <= |file|
    decreases k
  {
    if k == 0 then 0 else file[at] + 256 * Field(file, at + 1, k - 1)
  }

  lemma {:induction false} FieldOfLe(file: Bytes, at: nat, n: nat, k: nat)
    requires at + k <= |file| && file[at..at + k] == Le(n, k)
    ensures Field(file, at, k) == n % Pow256(k)
    decreases k
  {
    if k > 0 {
      var rest := file[at..at + k];
      assert file[at] == rest[0] == n % 256;
      assert file[at + 1..at + 1 + (k - 1)] == rest[1..] == Le(n / 256, k - 1);
      FieldOfLe(file, at + 1, n / 256, k - 1);
      LowByte(n, Pow256(k - 1));
    }
  }

  lemma LowByte(n: nat, m: nat)
    requires m > 0
    ensures n % (256 * m) == n % 256 + 256 * (n / 256 % m)
  {
    var q, r := n / 256 / m, n / 256 % m;
    assert n / 256 == q * m + r;
    assert n == q * (256 * m) + (n % 256 + 256 * r);
    Arith.Division(n, 256 * m, q, n % 256 + 256 * r);
  }

  /** These bytes are at this place of the file. */
  predicate At(file: Bytes, at: nat, bytes: Bytes) {
    at + |bytes| <= |file| && file[at..at + |bytes|] == bytes
  }

  lemma Before(file: Bytes, at: nat, a: Bytes, b: Bytes)
    requires At(file, at, a + b)
    ensures At(file, at, a) && At(file, at + |a|, b)
    ensures at + |a| + |b| <= |file|
  {
    var all := a + b;
    forall k | 0 <= k < |a| ensures file[at + k] == a[k] {
      assert file[at..at + |all|][k] == all[k] == a[k];
    }
    forall k | 0 <= k < |b| ensures file[at + |a| + k] == b[k] {
      assert file[at..at + |all|][|a| + k] == all[|a| + k] == b[k];
    }
  }

  /** A 32-bit and a 64-bit field read back. */
  lemma Field32(file: Bytes, at: nat, n: nat)
    requires At(file, at, Le(n, 4))
    ensures at + 4 <= |file| && Field(file, at, 4) == n % 0x1_0000_0000
  {
    FieldOfLe(file, at, n, 4);
    assert Pow256(4) == 256 * (256 * (256 * (256 * Pow256(0))));
  }

  lemma Field16(file: Bytes, at: nat, n: nat)
    requires At(file, at, Le(n, 2))
    ensures at + 2 <= |file| && Field(file, at, 2) == n % 65536
  {
    FieldOfLe(file, at, n, 2);
    assert Pow256(2) == 256 * (256 * Pow256(0));
  }

  lemma Field64(file: Bytes, at: nat, n: nat)
    requires At(file, at, Le(n, 8))
    ensures at + 8 <= |file| && Field(file, at, 8) == n % 0x1_0000_0000_0000_0000
  {
    FieldOfLe(file, at, n, 8);
    assert Pow256(8) == 256 * (256 * (256 * (256 * Pow256(4))));
    assert Pow256(4) == 256 * (256 * (256 * (256 * Pow256(0))));
  }

  /** Writing at a position: over what is there, and past the end. */
  function Overwrite(file: Bytes, at: nat, bytes: Bytes): (r: Bytes)
    requires at <= |file|
    ensures |r| == if at + |bytes| <= |file| then |file| else at + |bytes|
  {
    file[..at] + bytes + (if at + |bytes| < |file| then file[at + |bytes|..] else [])
  }

  lemma OverwriteEnd(file: Bytes, bytes: Bytes)
    ensures Overwrite(file, |file|, bytes) == file + bytes
  {
  }

  /** Writing over the middle part of a concatenation. */
  lemma OverwriteMiddle(a: Bytes, was: Bytes, b: Bytes, bytes: Bytes)
    requires |bytes| == |was|
    ensures Overwrite(a + was + b, |a|, bytes) == a + bytes + b
  {
    var f := a + was + b;
    assert f[..|a|] == a;
    assert f[|a| + |was|..] == b;
    if |a| + |bytes| == |f| { assert b == []; }
  }
}
