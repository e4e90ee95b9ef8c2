/** Emulation prevention: the RBSP escape and unescape loops, and the ways in
    which they undo each other. */
module VuiEscape {
  import opened Basics

  // ---- the two transformations

  // 03 goes in front of a byte up to 03 that follows two zeros.
  function Escaped(src: Bytes, zeros: nat): Bytes {
    if src == [] then []
    else if zeros >= 2 && src[0] <= 3 then [3, src[0]] + Escaped(src[1..], if src[0] == 0 then 1 else 0)
    else [src[0]] + Escaped(src[1..], if src[0] == 0 then zeros + 1 else 0)
  }

  function Escape(src: Bytes): Bytes {
    Escaped(src, 0)
  }

  predicate AfterZeros(y: Bytes, i: nat)
    requires i <= |y|
  {
    i >= 2 && y[i - 1] == 0 && y[i - 2] == 0
  }

  // Byte i is an emulation prevention byte.
  predicate Stuffed(y: Bytes, i: nat)
    requires i < |y|
  {
    AfterZeros(y, i) && y[i] == 3 && i + 1 < |y| && y[i + 1] <= 3
  }

  function UnescapedFrom(y: Bytes, i: nat): Bytes
    requires i <= |y|
    decreases |y| - i
  {
    if i == |y| then []
    else if Stuffed(y, i) then UnescapedFrom(y, i + 1)
    else [y[i]] + UnescapedFrom(y, i + 1)
  }

  function Unescape(y: Bytes): Bytes {
    UnescapedFrom(y, 0)
  }

  /** A NAL unit body as section 7.4.1 of ITU-T H.264 wants it: after two zeros
      comes no byte below 03, and 03 only to shield a byte that needs it. */
  predicate Conforming(y: Bytes) {
    forall i | 0 <= i < |y| && AfterZeros(y, i) :: y[i] > 3 || Stuffed(y, i)
  }

  // ---- the loop counter is the run of zeros

  // `zeros` is what the escape loop counts after writing `pre`.
  predicate CountsZeros(pre: Bytes, zeros: nat) {
    && (zeros >= 1 <==> |pre| >= 1 && pre[|pre| - 1] == 0)
    && (zeros >= 2 <==> AfterZeros(pre, |pre|))
  }

  lemma CountsPush(pre: Bytes, zeros: nat, b: bv8)
    requires CountsZeros(pre, zeros)
    ensures CountsZeros(pre + [b], if b == 0 then zeros + 1 else 0)
    ensures CountsZeros(pre + [3, b], if b == 0 then 1 else 0)
  {
  }

  // ---- unescape undoes escape

  lemma {:induction false} UnescapesEscaped(pre: Bytes, src: Bytes, zeros: nat)
    requires CountsZeros(pre, zeros)
    ensures UnescapedFrom(pre + Escaped(src, zeros), |pre|) == src
    decreases |src|
  {
    var y := pre + Escaped(src, zeros);
    if src != [] {
      var b := src[0];
      CountsPush(pre, zeros, b);
      if zeros >= 2 && b <= 3 {
        var rest := Escaped(src[1..], if b == 0 then 1 else 0);
        assert y == (pre + [3, b]) + rest;
        assert Stuffed(y, |pre|) && !Stuffed(y, |pre| + 1);
        UnescapesEscaped(pre + [3, b], src[1..], if b == 0 then 1 else 0);
      } else {
        var rest := Escaped(src[1..], if b == 0 then zeros + 1 else 0);
        assert y == (pre + [b]) + rest;
        assert AfterZeros(y, |pre|) <==> zeros >= 2;
        assert !Stuffed(y, |pre|);
        UnescapesEscaped(pre + [b], src[1..], if b == 0 then zeros + 1 else 0);
      }
    }
  }

  /** Unescaping what was escaped gives the bytes back, for every payload. */
  lemma UnescapeEscape(x: Bytes)
    ensures Unescape(Escape(x)) == x
  {
    assert [] + Escape(x) == Escape(x);
    UnescapesEscaped([], x, 0);
  }

  // ---- escape output conforms

  ghost predicate ConformingFrom(y: Bytes, n: nat) {
    forall i | n <= i < |y| && AfterZeros(y, i) :: y[i] > 3 || Stuffed(y, i)
  }

  lemma {:induction false} EscapedConforms(pre: Bytes, src: Bytes, zeros: nat)
    requires CountsZeros(pre, zeros)
    ensures ConformingFrom(pre + Escaped(src, zeros), |pre|)
    decreases |src|
  {
    var y := pre + Escaped(src, zeros);
    if src != [] {
      var b := src[0];
      CountsPush(pre, zeros, b);
      if zeros >= 2 && b <= 3 {
        var rest := Escaped(src[1..], if b == 0 then 1 else 0);
        assert y == (pre + [3, b]) + rest;
        EscapedConforms(pre + [3, b], src[1..], if b == 0 then 1 else 0);
        assert Stuffed(y, |pre|) && !AfterZeros(y, |pre| + 1);
      } else {
        var rest := Escaped(src[1..], if b == 0 then zeros + 1 else 0);
        assert y == (pre + [b]) + rest;
        EscapedConforms(pre + [b], src[1..], if b == 0 then zeros + 1 else 0);
        assert AfterZeros(y, |pre|) <==> zeros >= 2;
      }
    }
  }

  /** The output of escape never holds 00 00 followed by 00, 01 or 02, and every
      00 00 03 in it is an inserted byte, one that unescape takes out again. */
  lemma EscapeConforms(x: Bytes)
    ensures Conforming(Escape(x))
  {
    assert [] + Escape(x) == Escape(x);
    EscapedConforms([], x, 0);
  }

  // ---- escape undoes unescape on conforming bytes

  lemma {:induction false} EscapesUnescaped(y: Bytes, i: nat, zeros: nat)
    requires i <= |y| && Conforming(y) && CountsZeros(y[..i], zeros)
    ensures Escaped(UnescapedFrom(y, i), zeros) == y[i..]
    decreases |y| - i
  {
    if i < |y| {
      assert AfterZeros(y, i) <==> AfterZeros(y[..i], i);
      if Stuffed(y, i) {
        var b := y[i + 1];
        CountsPush(y[..i], zeros, b);
        assert y[..i + 2] == y[..i] + [3, b];
        assert !Stuffed(y, i + 1);
        EscapesUnescaped(y, i + 2, if b == 0 then 1 else 0);
        assert UnescapedFrom(y, i) == UnescapedFrom(y, i + 1) == [b] + UnescapedFrom(y, i + 2);
        assert UnescapedFrom(y, i)[1..] == UnescapedFrom(y, i + 2);
        assert y[i..] == [3, b] + y[i + 2..];
      } else {
        var b := y[i];
        CountsPush(y[..i], zeros, b);
        assert y[..i + 1] == y[..i] + [b];
        EscapesUnescaped(y, i + 1, if b == 0 then zeros + 1 else 0);
        assert UnescapedFrom(y, i) == [b] + UnescapedFrom(y, i + 1);
        assert UnescapedFrom(y, i)[1..] == UnescapedFrom(y, i + 1);
        assert y[i..] == [b] + y[i + 1..];
      }
    }
  }

  /** Escaping what was unescaped gives the bytes back exactly for the
      conforming ones. */
  lemma EscapeUnescape(y: Bytes)
    ensures Escape(Unescape(y)) == y <==> Conforming(y)
  {
    if Conforming(y) {
      EscapesUnescaped(y, 0, 0);
      assert y[0..] == y;
    }
    if Escape(Unescape(y)) == y {
      EscapeConforms(Unescape(y));
    }
  }

  // ---- lengths

  lemma {:induction false} UnescapedShorter(y: Bytes, i: nat)
    requires i <= |y|
    ensures |UnescapedFrom(y, i)| <= |y| - i
    decreases |y| - i
  {
    if i < |y| {
      UnescapedShorter(y, i + 1);
    }
  }

  // ---- the loops

  lemma UnescapeStep(src: Bytes, i: nat, out: Bytes)
    requires i < |src|
    ensures out + UnescapedFrom(src, i)
         == (if Stuffed(src, i) then out else out + [src[i]]) + UnescapedFrom(src, i + 1)
  {
    if !Stuffed(src, i) {
      assert out + ([src[i]] + UnescapedFrom(src, i + 1)) == out + [src[i]] + UnescapedFrom(src, i + 1);
    }
  }

  // vui_unescape into a buffer of any size
  method UnescapeInto(src: Bytes, dst: array<bv8>) returns (n: nat)
    modifies dst
    ensures n <= dst.Length
    ensures dst[..n] == if |Unescape(src)| <= dst.Length then Unescape(src) else Unescape(src)[..dst.Length]
  {
    hide Unescape, UnescapedFrom;
    n := 0;
    var i := 0;
    ghost var whole := UnescapedFrom(src, 0);
    UnescapeIs(src);
    while i < |src| && n < dst.Length
      invariant i <= |src| && n <= dst.Length
      invariant dst[..n] + UnescapedFrom(src, i) == whole
    {
      UnescapeStep(src, i, dst[..n]);
      if !(i >= 2 && src[i] == 3 && src[i - 1] == 0 && src[i - 2] == 0 && i + 1 < |src| && src[i + 1] <= 3) {
        ghost var before := dst[..n];
        dst[n] := src[i];
        n := n + 1;
        assert dst[..n] == before + [src[i]];
      }
      i := i + 1;
    }
    if n < dst.Length {
      UnescapeEnd(src, dst[..n]);
    }
  }

  lemma UnescapeIs(src: Bytes)
    ensures UnescapedFrom(src, 0) == Unescape(src)
  {
  }

  lemma UnescapeEnd(src: Bytes, out: Bytes)
    ensures out + UnescapedFrom(src, |src|) == out
  {
  }

  // One turn of the escape loop
  lemma EscapeStep(src: Bytes, i: nat, zeros: nat, out: Bytes)
    requires i < |src|
    ensures out + Escaped(src[i..], zeros)
         == if zeros >= 2 && src[i] <= 3 then out + [3] + [src[i]] + Escaped(src[i + 1..], if src[i] == 0 then 1 else 0)
            else out + [src[i]] + Escaped(src[i + 1..], if src[i] == 0 then zeros + 1 else 0)
  {
    assert src[i..][1..] == src[i + 1..];
    if zeros >= 2 && src[i] <= 3 {
      var rest := Escaped(src[i + 1..], if src[i] == 0 then 1 else 0);
      assert out + ([3, src[i]] + rest) == out + [3] + [src[i]] + rest;
    } else {
      var rest := Escaped(src[i + 1..], if src[i] == 0 then zeros + 1 else 0);
      assert out + ([src[i]] + rest) == out + [src[i]] + rest;
    }
  }

  method PutByte(dst: array<bv8>, n: nat, b: bv8)
    requires n < dst.Length
    modifies dst
    ensures dst[..n + 1] == old(dst[..n]) + [b]
  {
    dst[n] := b;
  }

  // vui_escape: the length written, or 0 when `dst` is too small
  method EscapeInto(src: Bytes, dst: array<bv8>) returns (n: nat)
    modifies dst
    ensures |Escape(src)| <= dst.Length ==> n == |Escape(src)| && dst[..n] == Escape(src)
    ensures |Escape(src)| > dst.Length ==> n == 0
  {
    n := 0;
    var zeros := 0;
    assert src[0..] == src;
    ghost var whole := Escape(src);
    assert Escaped(src[|src|..], zeros) == [];
    for i := 0 to |src|
      invariant n <= dst.Length
      invariant dst[..n] + Escaped(src[i..], zeros) == whole
    {
      hide Escape, Escaped;
      EscapeStep(src, i, zeros, dst[..n]);
      if zeros >= 2 && src[i] <= 3 {
        if n >= dst.Length {
          return 0;
        }
        PutByte(dst, n, 3);
        n := n + 1;
        zeros := 0;
      }
      if n >= dst.Length {
        return 0;
      }
      PutByte(dst, n, src[i]);
      n := n + 1;
      zeros := if src[i] == 0 then zeros + 1 else 0;
    }
  }
}
