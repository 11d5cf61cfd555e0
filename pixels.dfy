/**
 * Pixel planes and the index arithmetic of a 5-D image flattened into a
 * stack of 2-D planes in (t, z, c) order.
 */
module Pixels {
  /**
   * The elements of one 2-D plane's Java pixel array, as ints. A 16-bit
   * image keeps them in a short[], so each lies in -32768 .. 32767 and is
   * the two's-complement pattern of ImageJ's unsigned sample.
   */
  type Plane = seq<int>

  /** A Java (short) cast: the value in -32768 .. 32767 congruent to x modulo 65536. */
  function ToShort(x: int): (s: int)
    ensures -32768 <= s < 32768 && (s - x) % 65536 == 0
  {
    (x + 32768) % 65536 - 32768
  }

  /** The unsigned 16-bit sample whose pattern a Java short holds. */
  function Unsigned16(s: int): (u: int)
    ensures 0 <= u < 65536 && (u - s) % 65536 == 0
  {
    s % 65536
  }

  /**
   * ArrayMath.subtract of a scalar from every sample of a short[] plane:
   * each difference is narrowed back to 16 bits.
   */
  function Subtract(p: Plane, v: int): (r: Plane)
    ensures |r| == |p|
    ensures forall i :: 0 <= i < |p| ==> -32768 <= r[i] < 32768 && (r[i] - (p[i] - v)) % 65536 == 0
  {
    seq(|p|, i requires 0 <= i < |p| => ToShort(p[i] - v))
  }

  /**
   * Subtracting 32768 from a short, with the 16-bit wrap, gives the
   * signed value of its unsigned sample: that sample minus 32768.
   */
  lemma SignedSample(s: int)
    requires -32768 <= s < 32768
    ensures ToShort(s - 32768) == Unsigned16(s) - 32768
  {
    if s < 0 {
      assert Unsigned16(s) == s + 65536;
      assert (s - 32768 + 32768) % 65536 == s + 65536;
    } else {
      assert (s - 32768 + 32768) % 65536 == s;
    }
  }

  /**
   * Zero-based position of plane (t, z, c) in a stack whose planes are
   * appended in nested t, z, c order.
   */
  function SliceIndex(t: int, z: int, c: int, sizeZ: int, sizeC: int): (i: int)
    ensures 0 <= t && 0 <= z && 0 <= c && 0 <= sizeZ && 0 <= sizeC ==> 0 <= i
  {
    c + sizeC * (z + sizeZ * t)
  }

  /** The index of (t, z, c) is the planes of t whole time points, then those of (z, c). */
  lemma SliceIndexSplit(t: int, z: int, c: int, sizeZ: int, sizeC: int)
    ensures SliceIndex(t, z, c, sizeZ, sizeC) == sizeC * (sizeZ * t) + (c + sizeC * z)
  {
    assert sizeC * (z + sizeZ * t) == sizeC * z + sizeC * (sizeZ * t);
  }

  /** Every in-range triple indexes inside a stack of sizeZ * sizeT * sizeC planes. */
  lemma {:induction false} SliceIndexInRange(t: int, z: int, c: int, sizeT: int, sizeZ: int, sizeC: int)
    requires 0 <= t < sizeT && 0 <= z < sizeZ && 0 <= c < sizeC
    ensures 0 <= SliceIndex(t, z, c, sizeZ, sizeC) < sizeZ * sizeT * sizeC
  {
    var zt := z + sizeZ * t;
    assert zt < sizeZ * (t + 1) by {
      assert sizeZ * (t + 1) == sizeZ * t + sizeZ;
    }
    assert sizeZ * (t + 1) <= sizeZ * sizeT by {
      MulLeftMonotone(sizeZ, t + 1, sizeT);
    }
    assert zt + 1 <= sizeZ * sizeT;
    assert sizeC * (zt + 1) <= sizeC * (sizeZ * sizeT) by {
      MulLeftMonotone(sizeC, zt + 1, sizeZ * sizeT);
    }
    assert sizeC * (zt + 1) == sizeC * zt + sizeC;
    assert 0 <= sizeC * zt by {
      MulLeftMonotone(sizeC, 0, zt);
    }
    assert sizeC * (sizeZ * sizeT) == sizeZ * sizeT * sizeC;
  }

  /** Different in-range triples index different planes. */
  lemma SliceIndexInjective(t: int, z: int, c: int, t': int, z': int, c': int, sizeZ: int, sizeC: int)
    requires 0 <= z < sizeZ && 0 <= c < sizeC && 0 <= z' < sizeZ && 0 <= c' < sizeC
    requires SliceIndex(t, z, c, sizeZ, sizeC) == SliceIndex(t', z', c', sizeZ, sizeC)
    ensures t == t' && z == z' && c == c'
  {
    DigitUnique(c, z + sizeZ * t, c', z' + sizeZ * t', sizeC);
    DigitUnique(z, t, z', t', sizeZ);
  }

  /** A digit and the rest of a mixed-radix number are determined by its value. */
  lemma DigitUnique(d: int, q: int, d': int, q': int, base: int)
    requires 0 <= d < base && 0 <= d' < base
    requires d + base * q == d' + base * q'
    ensures d == d' && q == q'
  {
    if q < q' {
      assert base * (q + 1) == base * q + base;
      MulLeftMonotone(base, q + 1, q');
    } else if q' < q {
      assert base * (q' + 1) == base * q' + base;
      MulLeftMonotone(base, q' + 1, q);
    }
  }

  lemma MulLeftMonotone(k: int, a: int, b: int)
    requires 0 <= k && a <= b
    ensures k * a <= k * b
  {
    assert k * b - k * a == k * (b - a);
  }
}
