/** Shared by all components: optional values, and strings of bytes. */
module Basics {

  datatype Option<T> = None | Some(value: T)

  type Bytes = seq<bv8>

  lemma ByteNext(b: bv8)
    requires b < 255
    ensures (b + 1) as nat == b as nat + 1
  {
  }

  lemma ByteOf(b: bv8, n: nat)
    requires n < 256 && b as nat == n
    ensures n as bv8 == b
  {
  }

  lemma NotLast(b: bv8)
    requires b as nat < 255
    ensures b < 255
  {
  }

  // A number below 256 fits its byte.
  lemma {:induction false} ByteBack(n: nat)
    requires n < 256
    ensures (n as bv8) as nat == n
  {
    if n > 0 {
      ByteBack(n - 1);
      var b := (n - 1) as bv8;
      NotLast(b);
      ByteNext(b);
      ByteOf(b + 1, n);
    }
  }

  // A slice of a slice
  lemma SubSlice(s: Bytes, p: nat, n: nat, i: nat, j: nat)
    requires i <= j <= n && p + n <= |s|
    ensures s[p..p + n][i..j] == s[p + i..p + j]
  {
    var w := s[p..p + n];
    assert forall k | 0 <= k < n :: w[k] == s[p + k];
    forall k | 0 <= k < j - i
      ensures w[i..j][k] == s[p + i..p + j][k]
    {
      assert w[i..j][k] == w[i + k];
      assert s[p + i..p + j][k] == s[p + i + k];
    }
  }

  // ---- the type of a NAL unit, in the five low bits of a byte or the six behind its first

  lemma LowFive(b: bv8)
    ensures (b & 0x1f) as nat == b as nat % 32
  {
    var q, r := b >> 5, b & 0x1f;
    assert b == 32 * q + r && q < 8 && r < 32;
    assert b as nat == 32 * q as nat + r as nat;
  }

  lemma MidSix(b: bv8)
    ensures ((b >> 1) & 0x3f) as nat == b as nat / 2 % 64
  {
    var q, m, r := b >> 7, (b >> 1) & 0x3f, b & 1;
    assert b == 128 * q + 2 * m + r && q < 2 && m < 64 && r < 2;
    assert b as nat == 128 * q as nat + 2 * m as nat + r as nat;
  }
}
