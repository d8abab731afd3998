// The mirror step of BOOM's real-input FFT: after a real transform fills the
// first half of a frequency vector, `reflect` copies the complex conjugate of
// that half into the second half.

module FastFourierTransform {

  /** A complex number, as the pair of its real and imaginary parts. */
  datatype Complex = Complex(re: real, im: real)

  function Conj(z: Complex): Complex
  {
    Complex(z.re, -z.im)
  }

  /** `half_size` in reflect: the vector's length divided by two, rounded down. */
  function Half(n: nat): nat
  {
    n / 2
  }

  /** reflect only does anything when half_size is odd; the test is on half_size, not on the length. */
  predicate HalfIsOdd(n: nat)
  {
    Half(n) % 2 == 1
  }

  /** One pass of the loop body, for loop index i: freq[half + i] becomes conj(freq[half - i]). */
  function MirrorStep(s: seq<Complex>, i: nat): (r: seq<Complex>)
    requires 1 <= i < Half(|s|)
  {
    s[Half(|s|) + i := Conj(s[Half(|s|) - i])]
  }

  /** The loop of reflect run from index i up to half - 1, one step after the other, in the source's order. */
  function ReflectFrom(s: seq<Complex>, i: nat): (r: seq<Complex>)
    requires 1 <= i
    ensures |r| == |s|
    decreases Half(|s|) - i
  {
    if i < Half(|s|) then ReflectFrom(MirrorStep(s, i), i + 1) else s
  }

  /** What reflect leaves in the vector, as a function of what was there before. */
  function Reflected(s: seq<Complex>): (r: seq<Complex>)
    ensures |r| == |s|
  {
    if HalfIsOdd(|s|) then ReflectFrom(s, 1) else s
  }

  /**
   * The mirror stated element by element, independently of any loop order:
   * when half is odd, position k with half < k < 2 * half holds the conjugate
   * of position 2 * half - k; every other position keeps its value.
   */
  function Mirrored(s: seq<Complex>): (r: seq<Complex>)
  {
    var h := Half(|s|);
    seq(|s|, k requires 0 <= k < |s| =>
      if h % 2 == 1 && h < k < 2 * h then Conj(s[2 * h - k]) else s[k])
  }

  /**
   * After the loop has run from i on, positions half + i .. 2 * half - 1 hold
   * the mirror of the ORIGINAL values: the loop never writes a position it
   * later reads, since it reads below half and writes above half.
   */
  lemma {:induction false} ReflectFromAt(s: seq<Complex>, i: nat, k: nat)
    requires 1 <= i && k < |s|
    ensures ReflectFrom(s, i)[k] ==
      if Half(|s|) + i <= k < 2 * Half(|s|) then Conj(s[2 * Half(|s|) - k]) else s[k]
    decreases Half(|s|) - i
  {
    var h := Half(|s|);
    if i < h {
      var s' := MirrorStep(s, i);
      ReflectFromAt(s', i + 1, k);
      if h + i + 1 <= k < 2 * h {
        assert s'[2 * h - k] == s[2 * h - k];
      }
    }
  }

  /** The loop-shaped definition and the element-wise mirror agree on every vector. */
  lemma ReflectedIsMirrored(s: seq<Complex>)
    ensures Reflected(s) == Mirrored(s)
  {
    if HalfIsOdd(|s|) {
      forall k | 0 <= k < |s|
        ensures Reflected(s)[k] == Mirrored(s)[k]
      {
        ReflectFromAt(s, 1, k);
      }
    }
  }

  /** When half is odd, the upper half holds the conjugate mirror of the lower half. */
  lemma ReflectMirrorsLowerHalf(s: seq<Complex>, i: nat)
    requires HalfIsOdd(|s|) && 1 <= i < Half(|s|)
    ensures Half(|s|) + i < |s|
    ensures Reflected(s)[Half(|s|) + i].re == s[Half(|s|) - i].re
    ensures Reflected(s)[Half(|s|) + i].im == -s[Half(|s|) - i].im
  {
    ReflectedIsMirrored(s);
    var h := Half(|s|);
    assert 2 * h - (h + i) == h - i;
    assert Mirrored(s)[h + i] == Conj(s[h - i]);
  }

  /**
   * The only positions reflect can change are half + 1 .. 2 * half - 1, and
   * only when half is odd: positions 0 .. half (the source half and the middle
   * element) and, for an odd length, the last element are never touched.
   */
  lemma ReflectChangesOnlyUpperHalf(s: seq<Complex>, k: nat)
    requires k < |s|
    ensures Reflected(s)[k] != s[k] ==> HalfIsOdd(|s|) && Half(|s|) < k < 2 * Half(|s|)
  {
    ReflectedIsMirrored(s);
  }

  /** When half is even (a length of 0, 1, 4, 5, 8, 9, ...), the vector is left exactly as it was. */
  lemma ReflectKeepsEvenHalf(s: seq<Complex>)
    requires !HalfIsOdd(|s|)
    ensures Reflected(s) == s
  {
  }

  /** Reflecting twice is the same as reflecting once. */
  lemma ReflectIdempotent(s: seq<Complex>)
    ensures Reflected(Reflected(s)) == Reflected(s)
  {
    var r := Reflected(s);
    ReflectedIsMirrored(s);
    ReflectedIsMirrored(r);
    var h := Half(|s|);
    forall k | 0 <= k < |s|
      ensures Mirrored(r)[k] == r[k]
    {
      if h % 2 == 1 && h < k < 2 * h {
        assert r[2 * h - k] == s[2 * h - k];
      }
    }
  }

  /**
   * The conjugate symmetry a real input's transform has, which reflect's
   * documentation describes: position k above the middle holds the conjugate
   * of position n - k, and positions 0 .. n / 2 keep their values.
   */
  function ConjugateMirrored(s: seq<Complex>): (r: seq<Complex>)
    ensures |r| == |s|
  {
    seq(|s|, k requires 0 <= k < |s| => if Half(|s|) < k then Conj(s[|s| - k]) else s[k])
  }

  /**
   * ConjugateMirrored is Hermitian: r[n - k] is the conjugate of r[k] for
   * every 0 < k < n other than the middle of an even length, and it keeps the
   * lower half.
   */
  lemma ConjugateMirroredIsHermitian(s: seq<Complex>, k: nat)
    requires 0 < k < |s| && 2 * k != |s|
    ensures ConjugateMirrored(s)[|s| - k] == Conj(ConjugateMirrored(s)[k])
    ensures k <= Half(|s|) ==> ConjugateMirrored(s)[k] == s[k]
  {
    var n := |s|;
    if k <= Half(n) {
      assert Half(n) < n - k;
    } else {
      assert n - k <= Half(n) && n - (n - k) == k;
      assert Conj(Conj(s[n - k])) == s[n - k];
    }
  }

  /**
   * When the length is twice an odd half (6, 10, 14, ...), reflect produces
   * exactly the conjugate-symmetric vector.
   */
  lemma ReflectIsHermitianForTwiceOddHalf(s: seq<Complex>)
    requires |s| == 2 * Half(|s|) && HalfIsOdd(|s|)
    ensures Reflected(s) == ConjugateMirrored(s)
  {
    ReflectedIsMirrored(s);
  }

  /** A vector whose position k holds k + ki, so that every position is distinguishable. */
  function Ramp(n: nat): (r: seq<Complex>)
    ensures |r| == n
  {
    seq(n, k => Complex(k as real, k as real))
  }

  /**
   * For length 7 (half 3), reflect writes the conjugate of position 2 into
   * position 4, where the symmetry needs the conjugate of position 3; and
   * position 6 is never written.
   */
  lemma ReflectOddLengthCounterexample()
    ensures Reflected(Ramp(7))[4] == Complex(2.0, -2.0)
    ensures ConjugateMirrored(Ramp(7))[4] == Complex(3.0, -3.0)
    ensures Reflected(Ramp(7))[6] == Complex(6.0, 6.0)
    ensures ConjugateMirrored(Ramp(7))[6] == Complex(1.0, -1.0)
  {
    ReflectMirrorsLowerHalf(Ramp(7), 1);
    ReflectChangesOnlyUpperHalf(Ramp(7), 6);
    assert Half(7) == 3;
    assert ConjugateMirrored(Ramp(7))[4] == Conj(Ramp(7)[3]);
    assert ConjugateMirrored(Ramp(7))[6] == Conj(Ramp(7)[1]);
  }

  /** For length 4 (half 2), reflect leaves position 3 as it was instead of the conjugate of position 1. */
  lemma ReflectEvenHalfCounterexample()
    ensures Reflected(Ramp(4))[3] == Complex(3.0, 3.0)
    ensures ConjugateMirrored(Ramp(4))[3] == Complex(1.0, -1.0)
  {
    assert Half(4) == 2;
    assert ConjugateMirrored(Ramp(4))[3] == Conj(Ramp(4)[1]);
  }

  /** The in-place operation: FastFourierTransform::reflect on a vector of complex numbers. */
  method Reflect(freq: array<Complex>)
    modifies freq
    ensures freq[..] == Reflected(old(freq[..]))
  {
    var half := freq.Length / 2;
    if half % 2 == 1 {
      var i := 1;
      while i < half
        invariant 1 <= i <= half
        invariant ReflectFrom(freq[..], i) == Reflected(old(freq[..]))
      {
        ghost var before := freq[..];
        freq[half + i] := freq[half + i].(re := freq[half - i].re);
        freq[half + i] := freq[half + i].(im := -freq[half - i].im);
        assert freq[..] == MirrorStep(before, i);
        i := i + 1;
      }
    }
  }
}
