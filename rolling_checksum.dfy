/**
 The rsync-style rolling checksum of the block-matching scanner: two 16-bit
 accumulators over a window of bytes, `a` the plain sum and `b` the sum
 weighted by distance from the window's end (the first byte carries the
 window length, the last carries 1), both modulo 2^16. Rolling moves the
 window forward by `skip` bytes in time proportional to `skip`.
 */
module Rolling {
  import opened ByteOrder

  type UInt16 = x: int | 0 <= x < 0x1_0000

  /** The two accumulators, as `a` and `b` of an instance. */
  datatype Checksum = Checksum(a: UInt16, b: UInt16)

  /** Σ w[i], accumulated from the back. */
  function Sum(w: seq<Byte>): nat
  {
    if w == [] then 0 else Sum(w[..|w| - 1]) + w[|w| - 1]
  }

  /**
   Σ (|w| - i) * w[i]: the first byte has weight |w|, the last weight 1.
   Written as the sum of the prefix sums, so that appending a byte adds
   the new total once.
   */
  function WeightedSum(w: seq<Byte>): nat
  {
    if w == [] then 0 else WeightedSum(w[..|w| - 1]) + Sum(w)
  }

  /** The checksum of a window computed from scratch. */
  function FromScratch(w: seq<Byte>): Checksum
  {
    Checksum(Sum(w) % 0x1_0000, WeightedSum(w) % 0x1_0000)
  }

  /**
   What RollForwardSeveral makes of checksum `c` when the bytes `leaving`
   (from the start of the current window) give way to the bytes `entering`
   (just past its end), for a window of `length` bytes.
   */
  function Rolled(c: Checksum, leaving: seq<Byte>, entering: seq<Byte>, length: nat): Checksum
    requires |leaving| == |entering|
  {
    Checksum(
      (c.a + Sum(entering) - Sum(leaving)) % 0x1_0000,
      (c.b + |leaving| * c.a + WeightedSum(entering) - WeightedSum(leaving) - length * Sum(leaving)) % 0x1_0000)
  }

  // ---------------------------------------------------------------------
  // Sums over concatenations

  lemma SumAppend(w: seq<Byte>, x: Byte)
    ensures Sum(w + [x]) == Sum(w) + x
  {
    assert (w + [x])[..|w|] == w;
  }

  /** Appending a byte gives it weight 1 and raises every other weight by 1. */
  lemma WeightedSumAppend(w: seq<Byte>, x: Byte)
    ensures WeightedSum(w + [x]) == WeightedSum(w) + Sum(w + [x])
  {
    assert (w + [x])[..|w|] == w;
  }

  lemma {:induction false} SumConcat(u: seq<Byte>, v: seq<Byte>)
    ensures Sum(u + v) == Sum(u) + Sum(v)
  {
    if v == [] {
      assert u + v == u;
    } else {
      var t, x := v[..|v| - 1], v[|v| - 1];
      assert v == t + [x];
      assert u + v == (u + t) + [x];
      SumConcat(u, t);
      SumAppend(u + t, x);
      SumAppend(t, x);
    }
  }

  /** Appending `v` raises the weight of every byte of `u` by |v|. */
  lemma {:induction false} WeightedSumConcat(u: seq<Byte>, v: seq<Byte>)
    ensures WeightedSum(u + v) == WeightedSum(u) + |v| * Sum(u) + WeightedSum(v)
  {
    if v == [] {
      assert u + v == u;
    } else {
      var t, x := v[..|v| - 1], v[|v| - 1];
      assert v == t + [x];
      assert u + v == (u + t) + [x];
      WeightedSumConcat(u, t);
      WeightedSumAppend(u + t, x);
      WeightedSumAppend(t, x);
      SumConcat(u, v);
      MulSucc(|t|, Sum(u));
    }
  }

  /** Σ (|w| - i) * w[i] written out term by term, from the front. */
  function Direct(w: seq<Byte>): nat
  {
    if w == [] then 0 else |w| * w[0] + Direct(w[1..])
  }

  /** The weighted sum gives the first byte weight |w|, the next |w| - 1, and so on. */
  lemma {:induction false} WeightedIsDirect(w: seq<Byte>)
    ensures WeightedSum(w) == Direct(w)
  {
    if w != [] {
      var x, rest := w[0], w[1..];
      assert w == [x] + rest;
      WeightedSumConcat([x], rest);
      ShortWindows(x, x);
      MulSucc(|rest|, x);
      WeightedIsDirect(rest);
    }
  }

  lemma MulSucc(i: int, x: int)
    ensures (i + 1) * x == i * x + x
  {
  }

  /** Both sums over a prefix, extended by the next byte. */
  lemma SumsGrow(w: seq<Byte>, i: nat)
    requires i < |w|
    ensures Sum(w[..i + 1]) == Sum(w[..i]) + w[i]
    ensures WeightedSum(w[..i + 1]) == WeightedSum(w[..i]) + Sum(w[..i + 1])
  {
    assert w[..i + 1][..i] == w[..i];
  }

  // ---------------------------------------------------------------------
  // Arithmetic modulo 2^16

  lemma ModShift(x: int, q: int)
    ensures (x + q * 0x1_0000) % 0x1_0000 == x % 0x1_0000
  {
  }

  /** Adding to a reduced value: (x mod 2^16) + y has the residue of x + y. */
  lemma ModStep(a: int, x: int, y: int, z: int)
    requires a == x % 0x1_0000 && z == x + y
    ensures (a + y) % 0x1_0000 == z % 0x1_0000
  {
    ModShift(a + y, x / 0x1_0000);
  }

  /** Scaling a reduced value and adding to it. */
  lemma ModScaleStep(a: int, x: int, k: int, y: int, z: int)
    requires a == x % 0x1_0000 && z == k * x + y
    ensures (k * a + y) % 0x1_0000 == z % 0x1_0000
  {
    var q := x / 0x1_0000;
    assert x == q * 0x1_0000 + a;
    assert k * x == k * a + (k * q) * 0x1_0000;
    ModShift(k * a + y, k * q);
  }

  lemma Regroup(x: int, s: int, c: int)
    ensures (x - 1) * (s + c) + s + c == x * s + x * c
  {
  }

  // ---------------------------------------------------------------------
  // The loops, one turn at a time

  /** Adding `d` to a value that lags `u` by `q` times 2^16, then reducing, lags `u + d` by `q` plus the carry. */
  lemma QuotientStep(v: int, d: int, q: int, u: int)
    requires v == u - 0x1_0000 * q
    ensures (v + d) % 0x1_0000 == u + d - 0x1_0000 * (q + (v + d) / 0x1_0000)
  {
  }

  /** A value in range that differs from `u` by a multiple of 2^16 is `u` reduced. */
  lemma Reduced(v: int, u: int, q: int)
    requires 0 <= v < 0x1_0000 && v == u - 0x1_0000 * q
    ensures v == u % 0x1_0000
  {
    ModShift(v, q);
  }

  /**
   After the loop of RollForwardSeveral, whose variables differ from the
   closed-form sums by multiples of 2^16, the correction `b - length * sumBegin`
   gives the closed form.
   */
  lemma RollDone(c: Checksum, start: seq<Byte>, last: seq<Byte>, skip: nat, length: nat,
                 sumBegin: UInt16, a: UInt16, b: UInt16, qs: int, qa: int, qb: int)
    requires skip <= |start| && skip <= |last|
    requires sumBegin == Sum(start[..skip]) - 0x1_0000 * qs
    requires a == c.a + Sum(last[..skip]) - Sum(start[..skip]) - 0x1_0000 * qa
    requires b == c.b + skip * c.a + WeightedSum(last[..skip]) - WeightedSum(start[..skip]) - 0x1_0000 * qb
    ensures Checksum(a, (b - length * sumBegin) % 0x1_0000) == Rolled(c, start[..skip], last[..skip], length)
  {
    var rest := c.b + skip * c.a + WeightedSum(last[..skip]) - WeightedSum(start[..skip]);
    Reduced(sumBegin, Sum(start[..skip]), qs);
    Reduced(a, c.a + Sum(last[..skip]) - Sum(start[..skip]), qa);
    Reduced(b, rest, qb);
    RollFinish(rest, Sum(start[..skip]), length, b, sumBegin);
  }

  /** The correction after the loop of RollForwardSeveral, taken modulo 2^16. */
  lemma RollFinish(rest: int, leavingSum: int, length: nat, b: int, sumBegin: int)
    requires sumBegin == leavingSum % 0x1_0000
    requires b == rest % 0x1_0000
    ensures (b - length * sumBegin) % 0x1_0000 == (rest - length * leavingSum) % 0x1_0000
  {
    var y := -(length as int) * leavingSum;
    ModScaleStep(sumBegin, leavingSum, -(length as int), b, b + y);
    ModStep(b, rest, y, rest - length * leavingSum);
  }

  // ---------------------------------------------------------------------
  // The key theorem

  /**
   Rolling the checksum of data[s .. s+length) forward by `skip` gives the
   checksum of data[s+skip .. s+skip+length) computed from scratch.
   */
  lemma {:induction false} RollEqualsRecompute(data: seq<Byte>, s: nat, length: nat, skip: nat)
    requires s + skip + length <= |data|
    ensures Rolled(FromScratch(data[s..s + length]), data[s..s + skip], data[s + length..s + length + skip], length)
         == FromScratch(data[s + skip..s + skip + length])
  {
    var window := data[s..s + length];
    var next := data[s + skip..s + skip + length];
    var leaving := data[s..s + skip];
    var entering := data[s + length..s + length + skip];
    var span := data[s..s + skip + length];
    assert span == leaving + next;
    assert span == window + entering;
    SumConcat(leaving, next);
    SumConcat(window, entering);
    WeightedSumConcat(leaving, next);
    WeightedSumConcat(window, entering);
    RollMatches(FromScratch(window), window, leaving, entering, next, length);
  }

  /** Rolling agrees with recomputing once the sums over the span are split both ways. */
  lemma {:induction false} RollMatches(c: Checksum, window: seq<Byte>, leaving: seq<Byte>, entering: seq<Byte>, next: seq<Byte>, length: nat)
    requires c == FromScratch(window)
    requires |leaving| == |entering| && |next| == length
    requires Sum(leaving) + Sum(next) == Sum(window) + Sum(entering)
    requires WeightedSum(leaving) + |next| * Sum(leaving) + WeightedSum(next)
          == WeightedSum(window) + |entering| * Sum(window) + WeightedSum(entering)
    ensures Rolled(c, leaving, entering, length) == FromScratch(next)
  {
    RollArithmetic(c.a, c.b, Sum(window), Sum(entering), Sum(leaving), Sum(next),
      WeightedSum(window), WeightedSum(entering), WeightedSum(leaving), WeightedSum(next),
      |leaving|, |entering|, length, |next|);
  }

  /**
   The reduced rolling update agrees with the unreduced sums, given how the
   sums over the span data[s .. s+skip+length) split two ways.
   - `ca`, `cb`: the checksum of the current window, reduced.
   - `sW`, `sE`, `sL`, `sN`: plain sums of the current window, the entering
     bytes, the leaving bytes and the next window.
   - `wW`, `wE`, `wL`, `wN`: the weighted sums of the same four.
   - `skip`, `length`: the step and the window length. `skipE` and `lengthN`
     are the same two values, the lengths of the entering bytes and of the
     next window, kept apart so that each product stays as it is written.
   */
  lemma RollArithmetic(ca: int, cb: int, sW: int, sE: int, sL: int, sN: int, wW: int, wE: int, wL: int, wN: int,
                       skip: int, skipE: int, length: int, lengthN: int)
    requires ca == sW % 0x1_0000 && cb == wW % 0x1_0000
    requires skipE == skip && lengthN == length
    requires sL + sN == sW + sE
    requires wL + lengthN * sL + wN == wW + skipE * sW + wE
    ensures (ca + sE - sL) % 0x1_0000 == sN % 0x1_0000
    ensures (cb + skip * ca + wE - wL - length * sL) % 0x1_0000 == wN % 0x1_0000
  {
    ModStep(ca, sW, sE - sL, sN);
    var y := wE - wL - length * sL;
    ModScaleStep(ca, sW, skip, cb + y, cb + skip * sW + y);
    ModStep(cb, wW, skip * sW + y, wN);
  }

  /**
   Two rolls in a row are one roll over the concatenated inputs: rolling by
   skip1 and then by skip2 is rolling once by skip1 + skip2.
   */
  lemma {:induction false} RollComposes(c: Checksum, leaving1: seq<Byte>, entering1: seq<Byte>,
                                        leaving2: seq<Byte>, entering2: seq<Byte>, length: nat)
    requires |leaving1| == |entering1| && |leaving2| == |entering2|
    ensures Rolled(Rolled(c, leaving1, entering1, length), leaving2, entering2, length)
         == Rolled(c, leaving1 + leaving2, entering1 + entering2, length)
  {
    RollComposesA(c, leaving1, entering1, leaving2, entering2, length);
    RollComposesB(c, leaving1, entering1, leaving2, entering2, length);
  }

  /** The plain sum of RollComposes. */
  lemma {:induction false} RollComposesA(c: Checksum, leaving1: seq<Byte>, entering1: seq<Byte>,
                                         leaving2: seq<Byte>, entering2: seq<Byte>, length: nat)
    requires |leaving1| == |entering1| && |leaving2| == |entering2|
    ensures Rolled(Rolled(c, leaving1, entering1, length), leaving2, entering2, length).a
         == Rolled(c, leaving1 + leaving2, entering1 + entering2, length).a
  {
    SumConcat(leaving1, leaving2);
    SumConcat(entering1, entering2);
    var r := Rolled(c, leaving1, entering1, length);
    ModStep(r.a, c.a + Sum(entering1) - Sum(leaving1), Sum(entering2) - Sum(leaving2),
      c.a + Sum(entering1 + entering2) - Sum(leaving1 + leaving2));
  }

  /** The weighted sum of RollComposes. */
  lemma {:induction false} RollComposesB(c: Checksum, leaving1: seq<Byte>, entering1: seq<Byte>,
                                         leaving2: seq<Byte>, entering2: seq<Byte>, length: nat)
    requires |leaving1| == |entering1| && |leaving2| == |entering2|
    ensures Rolled(Rolled(c, leaving1, entering1, length), leaving2, entering2, length).b
         == Rolled(c, leaving1 + leaving2, entering1 + entering2, length).b
  {
    SumConcat(leaving1, leaving2);
    SumConcat(entering1, entering2);
    WeightedSumConcat(leaving1, leaving2);
    WeightedSumConcat(entering1, entering2);
    var r := Rolled(c, leaving1, entering1, length);
    ComposeArithmetic(c.a, c.b, |leaving1|, |leaving2|, |entering2|, |leaving1 + leaving2|, length,
      Sum(entering1), Sum(leaving1), Sum(entering2), Sum(leaving2),
      WeightedSum(entering1), WeightedSum(leaving1), WeightedSum(entering2), WeightedSum(leaving2),
      Sum(entering1 + entering2), Sum(leaving1 + leaving2),
      WeightedSum(entering1 + entering2), WeightedSum(leaving1 + leaving2), r.a, r.b);
  }

  /** Rolling by zero bytes leaves the checksum as it is. */
  lemma ZeroSkip(c: Checksum, length: nat)
    ensures Rolled(c, [], [], length) == c
  {
  }

  /**
   The arithmetic of RollComposes, on the sums of each part and of the concatenations.
   - `ca`, `cb`: the checksum before both rolls; `a1`, `b1`: after the first.
   - `k1`, `k2`, `k`: the two steps and their total; `k2e` is `k2` again, the
     length of the second entering part, kept apart so that each product
     stays as it is written. `n` is the window length.
   - `e1`, `l1`, `e2`, `l2`: plain sums of the entering and leaving parts of
     each roll; `we1`, `wl1`, `we2`, `wl2`: their weighted sums.
   - `e`, `l`, `we`, `wl`: the same sums over the concatenated parts.
   */
  lemma ComposeArithmetic(ca: int, cb: int, k1: int, k2: int, k2e: int, k: int, n: int,
                          e1: int, l1: int, e2: int, l2: int, we1: int, wl1: int, we2: int, wl2: int,
                          e: int, l: int, we: int, wl: int, a1: int, b1: int)
    requires k2e == k2 && k == k1 + k2
    requires e == e1 + e2 && l == l1 + l2
    requires we == we1 + k2e * e1 + we2 && wl == wl1 + k2 * l1 + wl2
    requires a1 == (ca + e1 - l1) % 0x1_0000
    requires b1 == (cb + k1 * ca + we1 - wl1 - n * l1) % 0x1_0000
    ensures (a1 + e2 - l2) % 0x1_0000 == (ca + e - l) % 0x1_0000
    ensures (b1 + k2 * a1 + we2 - wl2 - n * l2) % 0x1_0000 == (cb + k * ca + we - wl - n * l) % 0x1_0000
  {
    var x := ca + e1 - l1;
    ModStep(a1, x, e2 - l2, ca + e - l);
    var y := b1 + we2 - wl2 - n * l2;
    ModScaleStep(a1, x, k2, y, k2 * x + y);
    var rawB := cb + k1 * ca + we1 - wl1 - n * l1;
    var z := k2 * x + we2 - wl2 - n * l2;
    ModStep(b1, rawB, z, rawB + z);
    assert k2 * x == k2 * ca + k2 * e1 - k2 * l1;
    assert k * ca == k1 * ca + k2 * ca;
    assert n * l == n * l1 + n * l2;
  }

  /** In a window of three bytes the weights are 3, 2 and 1. */
  lemma WindowOfThree(x: Byte, y: Byte, z: Byte)
    ensures Sum([x, y, z]) == x + y + z
    ensures WeightedSum([x, y, z]) == 3 * x + 2 * y + z
  {
    assert [x, y, z][..2] == [x, y];
    ShortWindows(x, y);
  }

  lemma ShortWindows(x: Byte, y: Byte)
    ensures Sum([x]) == x && WeightedSum([x]) == x
    ensures Sum([x, y]) == x + y && WeightedSum([x, y]) == 2 * x + y
  {
    assert [x, y][..1] == [x];
    assert [x][..0] == [];
    assert Sum([x]) == x;
  }

  /** A window of n copies of one byte: its sums in closed form. */
  lemma {:induction false} ConstantWindow(n: nat, x: Byte)
    ensures Sum(seq(n, _ => x)) == n * x
    ensures 2 * WeightedSum(seq(n, _ => x)) == n * (n + 1) * x
  {
    if n > 0 {
      var w, shorter := seq(n, _ => x), seq(n - 1, _ => x);
      assert w[..n - 1] == shorter;
      ConstantWindow(n - 1, x);
      ConstantStep(n, x, Sum(shorter), WeightedSum(shorter), Sum(w), WeightedSum(w));
    }
  }

  lemma ConstantStep(n: int, x: int, s0: int, w0: int, s: int, w: int)
    requires s0 == (n - 1) * x && 2 * w0 == (n - 1) * n * x
    requires s == s0 + x && w == w0 + s
    ensures s == n * x && 2 * w == n * (n + 1) * x
  {
    assert n * (n + 1) * x == (n - 1) * n * x + 2 * n * x;
  }

  /** The sums exceed 2^16 and are reduced: 300 bytes of 255 give (10964, 44450). */
  lemma Wraparound()
    ensures FromScratch(seq(300, _ => 255)) == Checksum(10964, 44450)
  {
    ConstantWindow(300, 255);
  }

  // ---------------------------------------------------------------------
  // The instance

  class RollingChecksum {
    var a: UInt16
    var b: UInt16

    function Current(): Checksum
      reads this
    {
      Checksum(a, b)
    }

    /** Computes the checksum of data[0 .. length) in one pass, weights counting down. */
    constructor (data: seq<Byte>, length: nat)
      requires length <= |data|
      ensures Current() == FromScratch(data[..length])
      ensures length == 0 ==> a == 0 && b == 0
    {
      a, b := 0, 0;
      new;
      var block := 0;
      var x := length;
      // How many times 2^16 each accumulator has shed so far.
      ghost var qa, qb := 0, 0;
      while x >= 1
        invariant 0 <= block <= length && block + x == length
        invariant a == Sum(data[..block]) - 0x1_0000 * qa
        invariant b == WeightedSum(data[..block]) + x * Sum(data[..block]) - 0x1_0000 * qb
      {
        SumsGrow(data, block);
        Regroup(x, Sum(data[..block]), data[block]);
        qa := qa + (a + data[block]) / 0x1_0000;
        a := (a + data[block]) % 0x1_0000;
        qb := qb + (b + x * data[block]) / 0x1_0000;
        b := (b + x * data[block]) % 0x1_0000;
        block := block + 1;
        x := x - 1;
      }
      assert x == 0 && block == length;
      assert data[..block] == data[..length];
      Reduced(a, Sum(data[..length]), qa);
      Reduced(b, WeightedSum(data[..length]), qb);
    }

    /**
     Moves the window forward by `skip` bytes. `startOfThisBlock` holds the
     bytes from the start of the current window, `lastOfNextBlock` those just
     past its end; only the first `skip` of each are read.
     */
    method RollForwardSeveral(startOfThisBlock: seq<Byte>, lastOfNextBlock: seq<Byte>, length: nat, skip: nat)
      requires skip <= |startOfThisBlock| && skip <= |lastOfNextBlock|
      modifies this
      ensures Current() == Rolled(old(Current()), startOfThisBlock[..skip], lastOfNextBlock[..skip], length)
    {
      ghost var c0 := Current();
      // How many times 2^16 each variable has shed so far; `b` also sheds
      // what each reduced `a` added to it had shed.
      ghost var qs, qa, qb := 0, 0, 0;
      var i := 0;
      var sumBegin: UInt16 := 0;
      while i < skip
        invariant 0 <= i <= skip
        invariant sumBegin == Sum(startOfThisBlock[..i]) - 0x1_0000 * qs
        invariant a == c0.a + Sum(lastOfNextBlock[..i]) - Sum(startOfThisBlock[..i]) - 0x1_0000 * qa
        invariant b == c0.b + i * c0.a + WeightedSum(lastOfNextBlock[..i]) - WeightedSum(startOfThisBlock[..i])
                       - 0x1_0000 * qb
      {
        var j := startOfThisBlock[i];
        var k := lastOfNextBlock[i];
        SumsGrow(startOfThisBlock, i);
        SumsGrow(lastOfNextBlock, i);
        MulSucc(i, c0.a);
        QuotientStep(sumBegin, j, qs, Sum(startOfThisBlock[..i]));
        qs := qs + (sumBegin + j) / 0x1_0000;
        sumBegin := (sumBegin + j) % 0x1_0000;
        QuotientStep(a, k as int - j, qa, c0.a + Sum(lastOfNextBlock[..i]) - Sum(startOfThisBlock[..i]));
        qa := qa + (a + (k as int - j)) / 0x1_0000;
        a := (a + (k as int - j)) % 0x1_0000;
        QuotientStep(b, a, qb, c0.b + i * c0.a + WeightedSum(lastOfNextBlock[..i]) - WeightedSum(startOfThisBlock[..i]));
        qb := qb + qa + (b + a) / 0x1_0000;
        b := (b + a) % 0x1_0000;
        i := i + 1;
      }
      RollDone(c0, startOfThisBlock, lastOfNextBlock, skip, length, sumBegin, a, b, qs, qa, qb);
      b := (b - length * sumBegin) % 0x1_0000;
    }
  }

  /**
   Bytes 1..7 with a window of 3: (6, 10); rolled by 1 it is (9, 16), the
   checksum of [2, 3, 4]; rolled by 2 from the start it is (12, 22), that of
   [3, 4, 5].
   */
  method WorkedExample() returns (initial: Checksum, byOne: Checksum, byTwo: Checksum)
    ensures initial == Checksum(6, 10)
    ensures byOne == Checksum(9, 16) == FromScratch([2, 3, 4])
    ensures byTwo == Checksum(12, 22) == FromScratch([3, 4, 5])
  {
    var data: seq<Byte> := [1, 2, 3, 4, 5, 6, 7];
    assert data[..3] == [1, 2, 3];
    assert data[..1] == [1] && data[3..][..1] == [4];
    assert data[..2] == [1, 2] && data[3..][..2] == [4, 5];
    ShortWindows(1, 2);
    ShortWindows(4, 5);
    WindowOfThree(1, 2, 3);
    WindowOfThree(2, 3, 4);
    WindowOfThree(3, 4, 5);
    var c := new RollingChecksum(data, 3);
    initial := c.Current();
    assert initial == Checksum(6, 10);
    c.RollForwardSeveral(data, data[3..], 3, 1);
    byOne := c.Current();
    assert byOne == Rolled(Checksum(6, 10), [1], [4], 3);
    var d := new RollingChecksum(data, 3);
    d.RollForwardSeveral(data, data[3..], 3, 2);
    byTwo := d.Current();
  }
}
