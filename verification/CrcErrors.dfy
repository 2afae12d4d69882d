/** Which wrong bits the CRC detects in messages of any length, besides bursts: every odd number of
    them, and two of them unless they are a multiple of 32767 bits apart. */
module CrcErrors {
  import opened Crc16

  // ---- an odd number of wrong bits -----------------------------------------------------

  /** The halves of a word, one on the other. */
  function Folded(r: bv16): (a: bv16) { (r ^ (r >> 8)) & 0xFF }

  /** An odd number of the bits of a byte is set. */
  predicate OddByte(a: bv16) {
    var nibble := a ^ (a >> 4);
    var pair := nibble ^ (nibble >> 2);
    (pair ^ (pair >> 1)) & 1 == 1
  }

  predicate OddWord(r: bv16) { OddByte(Folded(r)) }

  /** A byte turned round by one place. */
  function Turned(a: bv16): (b: bv16) { ((a << 1) | (a >> 7)) & 0xFF }

  /** The polynomial has an even number of terms. */
  lemma FoldOfShift(r: bv16, s: bv16)
    requires s == Shift(r)
    ensures Folded(s) == Turned(Folded(r)) || Folded(s) == Turned(Folded(r)) ^ 0x30
  {
  }

  lemma OddOfTurned(a: bv16, b: bv16)
    requires a & 0xFF00 == 0 && (b == Turned(a) || b == Turned(a) ^ 0x30)
    ensures OddByte(b) == OddByte(a)
  {
  }

  lemma FoldedIsByte(r: bv16)
    ensures Folded(r) & 0xFF00 == 0
  {
  }

  /** A shift keeps the parity, */
  lemma OddOfShift(r: bv16, s: bv16)
    requires s == Shift(r)
    ensures OddWord(s) == OddWord(r)
  {
    FoldOfShift(r, s);
    OddOfFolds(r, s, Folded(r), Folded(s));
  }

  lemma OddOfFolds(r: bv16, s: bv16, a: bv16, b: bv16)
    requires a == Folded(r) && b == Folded(s) && (b == Turned(a) || b == Turned(a) ^ 0x30)
    ensures OddWord(s) == OddWord(r)
  {
    FoldedIsByte(r);
    OddOfTurned(a, b);
  }

  lemma FoldOfEntered(r: bv16, s: bv16)
    requires s == Add(r, Entering(1))
    ensures Folded(s) == Folded(r) ^ 0x80
  {
  }

  lemma OddOfOther(a: bv16, b: bv16)
    requires b == a ^ 0x80
    ensures OddByte(b) == !OddByte(a)
  {
  }

  lemma OddOfOtherFolds(r: bv16, s: bv16, a: bv16, b: bv16)
    requires a == Folded(r) && b == Folded(s) && b == a ^ 0x80
    ensures OddWord(s) == !OddWord(r)
  {
    OddOfOther(a, b);
  }

  /** and a message bit that is set changes it. */
  lemma OddOfEntered(r: bv16, s: bv16)
    requires s == Add(r, Entering(1))
    ensures OddWord(s) == !OddWord(r)
  {
    FoldOfEntered(r, s);
    OddOfOtherFolds(r, s, Folded(r), Folded(s));
  }

  lemma NothingEntered(r: bv16)
    ensures Add(r, Entering(0)) == r
  {
  }

  lemma OddOfStep(r: bv16, bit: Bit, s: bv16)
    requires s == BitStep(r, bit)
    ensures OddWord(s) == (OddWord(r) != (bit == 1))
  {
    BitStepIs(r, bit);
    OddOfShift(Add(r, Entering(bit)), s);
    if bit == 1 {
      OddOfEntered(r, Add(r, Entering(bit)));
    } else {
      assert bit == 0;
      NothingEntered(r);
    }
  }

  /** An odd number of bits is set. */
  predicate Odd(bits: seq<Bit>) { bits != [] && ((bits[0] == 1) != Odd(bits[1..])) }

  lemma {:induction false} OddOfDivide(r: bv16, bits: seq<Bit>)
    ensures OddWord(Divide(r, bits)) == (OddWord(r) != Odd(bits))
    decreases |bits|
  {
    if bits != [] {
      OddOfStep(r, bits[0], BitStep(r, bits[0]));
      OddOfDivide(BitStep(r, bits[0]), bits[1..]);
    }
  }

  /** How many bits differ. */
  function Wrong(a: seq<Bit>, b: seq<Bit>): (n: nat)
    requires |a| == |b|
  {
    if a == [] then 0 else (if a[0] != b[0] then 1 else 0) + Wrong(a[1..], b[1..])
  }

  lemma {:induction false} OddlyWrong(a: seq<Bit>, b: seq<Bit>)
    requires |a| == |b|
    ensures Odd(a) != Odd(b) <==> Wrong(a, b) % 2 == 1
    decreases |a|
  {
    if a != [] {
      OddlyWrong(a[1..], b[1..]);
    }
  }

  /** Messages of the same length that differ in an odd number of bits never share a CRC. */
  lemma CrcDetectsOddErrors(x: seq<Byte>, y: seq<Byte>)
    requires |x| == |y| && Wrong(AllBits(x), AllBits(y)) % 2 == 1
    ensures Crc(x) != Crc(y)
  {
    OddOfDivide(INITIAL_REMAINDER, AllBits(x));
    OddOfDivide(INITIAL_REMAINDER, AllBits(y));
    OddlyWrong(AllBits(x), AllBits(y));
  }

  // ---- two wrong bits ------------------------------------------------------------------

  lemma EnteredTogether(x: bv16, y: bv16, top: bv16)
    ensures Add(x ^ top, y ^ top) == x ^ y
  {
  }

  lemma SameStep(x: bv16, y: bv16, bit: Bit, d: bv16)
    requires d == Add(x, y)
    ensures Add(BitStep(x, bit), BitStep(y, bit)) == Shift(d)
  {
    BitStepIs(x, bit);
    BitStepIs(y, bit);
    EnteredTogether(x, y, Entering(bit));
    ShiftIsLinear(Add(x, Entering(bit)), Add(y, Entering(bit)));
  }

  /** What two remainders differ by is shifted by every bit they share. */
  lemma {:induction false} DifferenceShifts(x: bv16, y: bv16, bits: seq<Bit>, d: bv16)
    requires d == Add(x, y)
    ensures Add(Divide(x, bits), Divide(y, bits)) == ShiftN(d, |bits|)
    decreases |bits|
  {
    if bits != [] {
      SameStep(x, y, bits[0], d);
      DifferenceShifts(BitStep(x, bits[0]), BitStep(y, bits[0]), bits[1..], Shift(d));
    }
  }

  lemma OtherBit(x: bv16, y: bv16, a: Bit, b: Bit, d: bv16)
    requires a != b && d == Add(x, y)
    ensures BitStep(x, a) == BitStep(y, b) <==> d == 0x8000
  {
    BitStepIs(x, a);
    BitStepIs(y, b);
    if BitStep(x, a) == BitStep(y, b) {
      ShiftIsInjective(Add(x, Entering(a)), Add(y, Entering(b)));
    }
    Opposite(x, y, a, b);
  }

  lemma Opposite(x: bv16, y: bv16, a: Bit, b: Bit)
    requires a != b
    ensures x ^ Entering(a) == y ^ Entering(b) <==> x ^ y == 0x8000
  {
  }

  lemma ShiftIsInjective(x: bv16, y: bv16)
    requires Shift(x) == Shift(y)
    ensures x == y
  {
  }

  lemma {:induction false} ShiftNIsInjective(x: bv16, y: bv16, n: nat)
    requires ShiftN(x, n) == ShiftN(y, n)
    ensures x == y
    decreases n
  {
    if n > 0 {
      ShiftNIsInjective(Shift(x), Shift(y), n - 1);
      ShiftIsInjective(x, y);
    }
  }

  lemma {:induction false} ShiftNAdds(r: bv16, m: nat, n: nat)
    ensures ShiftN(r, m + n) == ShiftN(ShiftN(r, m), n)
    decreases m
  {
    if m > 0 {
      ShiftNAdds(Shift(r), m - 1, n);
    }
  }

  lemma TopFromOne()
    ensures ShiftN(1, 15) == 0x8000
  {
    FourShifts(1, 11);
    FourShifts(0x10, 7);
    FourShifts(0x100, 3);
  }

  /** The top bit comes back exactly when one does. */
  lemma ComesBack(n: nat)
    ensures ShiftN(0x8000, n) == 0x8000 <==> ShiftN(1, n) == 1
  {
    TopFromOne();
    ShiftNAdds(1, 15, n);
    ShiftNAdds(1, n, 15);
    if ShiftN(0x8000, n) == 0x8000 {
      ShiftNIsInjective(ShiftN(1, n), 1, 15);
    }
  }

  lemma FirstWrong(s: bv16, e: Bit, f: Bit)
    requires e != f
    ensures Add(BitStep(s, e), BitStep(s, f)) == Shift(0x8000)
  {
    BitStepIs(s, e);
    BitStepIs(s, f);
    ShiftIsLinear(Add(s, Entering(e)), Add(s, Entering(f)));
    Opposites(s, e, f);
  }

  lemma Opposites(s: bv16, e: Bit, f: Bit)
    requires e != f
    ensures (s ^ Entering(e)) ^ (s ^ Entering(f)) == 0x8000
  {
  }

  lemma {:induction false} DivideSplits(r: bv16, p: seq<Bit>, e: Bit, m: seq<Bit>, g: Bit, q: seq<Bit>)
    ensures Divide(r, p + [e] + m + [g] + q) == Divide(BitStep(Divide(BitStep(Divide(r, p), e), m), g), q)
  {
    DivideAppends(r, p + [e] + m + [g], q);
    DivideAppends(r, p + [e] + m, [g]);
    DivideAppends(r, p + [e], m);
    DivideAppends(r, p, [e]);
  }

  lemma TwoApart(s: bv16, e: Bit, f: Bit, m: seq<Bit>, g: Bit, h: Bit, q: seq<Bit>)
    requires e != f && g != h
    ensures Divide(BitStep(Divide(BitStep(s, e), m), g), q) == Divide(BitStep(Divide(BitStep(s, f), m), h), q)
       <==> ShiftN(1, |m| + 1) == 1
  {
    var x, y := Divide(BitStep(s, e), m), Divide(BitStep(s, f), m);
    FirstWrong(s, e, f);
    DifferenceShifts(BitStep(s, e), BitStep(s, f), m, Shift(0x8000));
    OtherBit(x, y, g, h, Add(x, y));
    if Divide(BitStep(x, g), q) == Divide(BitStep(y, h), q) {
      DivideIsInjective(BitStep(x, g), BitStep(y, h), q);
    }
    ComesBack(|m| + 1);
  }

  lemma CutInFive(a: seq<Bit>, i: nat, j: nat)
    requires i < j < |a|
    ensures a == a[..i] + [a[i]] + a[i + 1..j] + [a[j]] + a[j + 1..]
  {
  }

  // ---- powers of x ---------------------------------------------------------------------

  lemma LastBit(s: bv16)
    ensures s == Add(s & 1, Shift(s >> 1)) && (s & 1 == 0 || s & 1 == 1)
  {
  }

  lemma {:induction false} ZeroShifts(n: nat)
    ensures ShiftN(0, n) == 0
    decreases n
  {
    if n > 0 {
      assert Shift(0) == 0;
      ZeroShifts(n - 1);
    }
  }

  /** What the last bit of s adds to its product with r. */
  function Term(r: bv16, s: bv16, t: bv16): (u: bv16) { Add(if s & 1 == 1 then r else 0, t) }

  lemma TermShifts(r: bv16, s: bv16, n: nat)
    requires r == ShiftN(1, n)
    ensures ShiftN(s, n) == Term(r, s, Shift(ShiftN(s >> 1, n)))
  {
    LastBit(s);
    ShiftNIsLinear(s & 1, Shift(s >> 1), s, n);
    ShiftNShifts(s >> 1, n);
    ZeroShifts(n);
  }

  /** Four bits. */
  function Four(r: bv16, s: bv16, t: bv16): (u: bv16) {
    Term(r, s, Shift(Term(r, s >> 1, Shift(Term(r, s >> 2, Shift(Term(r, s >> 3, Shift(t))))))))
  }

  lemma FourBits(s: bv16)
    ensures s >> 1 >> 1 == s >> 2 && s >> 2 >> 1 == s >> 3
    ensures s >> 3 >> 1 == s >> 4
  {
  }

  lemma FourTerms(r: bv16, s: bv16, n: nat)
    requires r == ShiftN(1, n)
    ensures ShiftN(s, n) == Four(r, s, ShiftN(s >> 4, n))
  {
    FourBits(s);
    TermByTerm(r, s, s >> 1, s >> 2, s >> 3, s >> 4, n);
  }

  lemma TermByTerm(r: bv16, s: bv16, s1: bv16, s2: bv16, s3: bv16, s4: bv16, n: nat)
    requires r == ShiftN(1, n) && s >> 1 == s1 && s1 >> 1 == s2 && s2 >> 1 == s3 && s3 >> 1 == s4
    ensures ShiftN(s, n)
         == Term(r, s, Shift(Term(r, s1, Shift(Term(r, s2, Shift(Term(r, s3, Shift(ShiftN(s4, n)))))))))
  {
    TermShifts(r, s, n);
    TermShifts(r, s1, n);
    TermShifts(r, s2, n);
    TermShifts(r, s3, n);
  }

  lemma Nibbles(s: bv16)
    ensures s >> 4 >> 4 == s >> 8 && s >> 8 >> 4 == s >> 12 && s >> 12 >> 4 == 0
  {
  }

  /** Shifting n times is multiplying by what the shifts make of one. */
  lemma Multiplied(m: nat, n: nat, r: bv16, s: bv16, a: bv16, b: bv16, c: bv16, d: bv16)
    requires ShiftN(1, n) == r && ShiftN(1, m) == s
    requires Four(r, s >> 12, 0) == a && Four(r, s >> 8, a) == b && Four(r, s >> 4, b) == c && Four(r, s, c) == d
    ensures ShiftN(1, m + n) == d
  {
    Nibbles(s);
    ZeroShifts(n);
    FourTerms(r, s >> 12, n);
    FourTerms(r, s >> 8, n);
    FourTerms(r, s >> 4, n);
    FourTerms(r, s, n);
    ShiftNAdds(1, m, n);
  }

  lemma Doubled(n: nat, r: bv16, a: bv16, b: bv16, c: bv16, d: bv16)
    requires ShiftN(1, n) == r
    requires Four(r, r >> 12, 0) == a && Four(r, r >> 8, a) == b && Four(r, r >> 4, b) == c && Four(r, r, c) == d
    ensures ShiftN(1, 2 * n) == d && ShiftN(1, 2 * n + 1) == Shift(d)
  {
    Multiplied(n, n, r, r, a, b, c, d);
    ShiftNAdds(1, 2 * n, 1);
  }

  lemma Power217(n: nat)
    requires ShiftN(1, n) == 0x2000
    ensures ShiftN(1, 16 * n + 9) == 0x48E3
  {
    Doubled(n, 0x2000, 0x4000, 0x4084, 0x48C4, 0xCCC4);
    Doubled(2 * n + 1, 0x89A9, 0x0DCC, 0x58A5, 0xD44A, 0x1168);
    Doubled(4 * n + 2, 0x1168, 0x1168, 0x17C9, 0x0BC1, 0x3750);
    Doubled(8 * n + 4, 0x3750, 0x59F0, 0x4B15, 0x1BC4, 0xAC61);
  }

  lemma Power1057(n: nat)
    requires ShiftN(1, n) == 0x1021
    ensures ShiftN(1, 64 * n + 33) == 0xF2AF
  {
    Doubled(n, 0x1021, 0x1021, 0x1231, 0x1373, 0x3730);
    Doubled(2 * n + 1, 0x6E60, 0x7561, 0x10F5, 0x6A10, 0xC1C6);
    Doubled(4 * n + 2, 0xC1C6, 0x598D, 0x09B3, 0xC2BD, 0x4E8A);
    Doubled(8 * n + 4, 0x4E8A, 0x2A09, 0x63DD, 0x0904, 0x5946);
    Doubled(16 * n + 8, 0x5946, 0x2C7F, 0x5486, 0x6DFC, 0x78B3);
    Doubled(32 * n + 16, 0x78B3, 0x7B38, 0x369C, 0x258D, 0xF147);
  }

  lemma Power4681(n: nat)
    requires ShiftN(1, n) == 0x0200
    ensures ShiftN(1, 512 * n + 73) == 0x2C42
  {
    Doubled(n, 0x0200, 0x0000, 0x0400, 0x4000, 0x4084);
    Doubled(2 * n, 0x4084, 0x1231, 0x3331, 0x2711, 0x4363);
    Doubled(4 * n, 0x4363, 0x1DAD, 0x0F54, 0x6E2B, 0x47D3);
    Doubled(8 * n + 1, 0x8FA6, 0x3DB4, 0x4886, 0xFA3D, 0x4388);
    Doubled(16 * n + 2, 0x4388, 0x1E01, 0x34A9, 0x46F1, 0x1396);
    Doubled(32 * n + 4, 0x1396, 0x1396, 0x1DFB, 0x40B7, 0x2280);
    Doubled(64 * n + 9, 0x4500, 0x0421, 0x0331, 0x3310, 0x0163);
    Doubled(128 * n + 18, 0x0163, 0x0000, 0x0163, 0x117A, 0x0424);
    Doubled(256 * n + 36, 0x0424, 0x0000, 0x1090, 0x1169, 0x1621);
  }

  lemma Power32768(n: nat)
    requires ShiftN(1, n) == 0x1021
    ensures ShiftN(1, 2048 * n) == 0x0002
  {
    Doubled(n, 0x1021, 0x1021, 0x1231, 0x1373, 0x3730);
    Doubled(2 * n, 0x3730, 0x5950, 0x4035, 0x1A84, 0xB861);
    Doubled(4 * n, 0xB861, 0x4B2F, 0x61D9, 0xDC73, 0xAEFC);
    Doubled(8 * n, 0xAEFC, 0x6A9C, 0x3828, 0xED31, 0x8E29);
    Doubled(16 * n, 0x8E29, 0x31CC, 0x09FA, 0x93D3, 0x13FC);
    Doubled(32 * n, 0x13FC, 0x13FC, 0x1BE5, 0x4A65, 0x36C4);
    Doubled(64 * n, 0x36C4, 0x5B4C, 0x52FD, 0x0264, 0xFD50);
    Doubled(128 * n, 0xFD50, 0x4895, 0x6BC0, 0xE4B5, 0xAA9E);
    Doubled(256 * n, 0xAA9E, 0x4148, 0x154C, 0xEA2A, 0x881C);
    Doubled(512 * n, 0x881C, 0x0064, 0x0624, 0xEA5C, 0x4458);
    Doubled(1024 * n, 0x4458, 0x0141, 0x1551, 0x0028, 0x0002);
  }

  // ---- the order of x ------------------------------------------------------------------

  predicate Period(n: nat) { ShiftN(1, n) == 1 }

  lemma PeriodsAdd(m: nat, n: nat)
    requires Period(m)
    ensures Period(m + n) <==> Period(n)
  {
    ShiftNAdds(1, m, n);
  }

  lemma {:induction false} PeriodsRepeat(m: nat, q: nat)
    requires Period(m)
    ensures Period(q * m)
    decreases q
  {
    if q > 0 {
      PeriodsRepeat(m, q - 1);
      PeriodsAdd(m, (q - 1) * m);
      assert q * m == m + (q - 1) * m;
    }
  }

  lemma Regrouped(k: nat, m: nat, e: nat, q: nat, r: nat)
    requires k == q * m + r
    ensures k * e == q * (m * e) + r * e
  {
  }

  /** Of two multiples of e that are periods, so is the remainder. */
  lemma PeriodOfRest(k: nat, m: nat, e: nat)
    requires m > 0 && Period(k * e) && Period(m * e)
    ensures Period(k % m * e)
  {
    Regrouped(k, m, e, k / m, k % m);
    PeriodsRepeat(m * e, k / m);
    PeriodsAdd(k / m * (m * e), k % m * e);
  }

  predicate Divides(k: nat, p: nat)
    requires k > 0
  {
    p % k == 0
  }

  predicate Prime(p: nat) { p > 1 && forall k :: 1 < k < p ==> !Divides(k, p) }

  lemma {:induction false} NoneBelow(p: nat, e: nat, k: nat)
    requires Prime(p) && Period(p * e) && !Period(e) && 0 < k < p
    ensures !Period(k * e)
    decreases k
  {
    if k > 1 && Period(k * e) {
      assert !Divides(k, p);
      PeriodOfRest(p, k, e);
      NoneBelow(p, e, p % k);
    }
  }

  /** If e is not a period and e times the prime p is, all periods are multiples of p. */
  lemma PeriodsAreMultiples(p: nat, e: nat, d: nat)
    requires Prime(p) && Period(p * e) && !Period(e) && Period(d)
    ensures d % p == 0
  {
    PeriodsRepeat(d, e);
    assert e * d == d * e;
    PeriodOfRest(d, p, e);
    if d % p != 0 {
      NoneBelow(p, e, d % p);
    }
  }

  lemma NoFactor(p: nat, v: nat, w: nat)
    requires p == 7 || p == 31 || p == 151
    requires 1 < v <= 12 && 1 < w
    ensures v * w != p
  {
    if v == 2 {
    } else if v == 3 {
    } else if v == 4 {
    } else if v == 5 {
    } else if v == 6 {
    } else if v == 7 {
    } else if v == 8 {
    } else if v == 9 {
    } else if v == 10 {
    } else if v == 11 {
    }
  }

  lemma OneIsSmall(k: nat, q: nat, p: nat)
    requires k * q == p < 169 && 1 < k < p
    ensures q > 1 && (k <= 12 || q <= 12)
  {
    if k > 12 {
      assert k * q >= 13 * q;
    }
  }

  lemma ThreePrimes(p: nat)
    requires p == 7 || p == 31 || p == 151
    ensures Prime(p)
  {
    forall k | 1 < k < p
      ensures !Divides(k, p)
    {
      var q := p / k;
      if k * q == p {
        OneIsSmall(k, q, p);
        if k <= 12 {
          NoFactor(p, k, q);
        } else {
          NoFactor(p, q, k);
        }
      }
    }
  }

  lemma Multiples(d: nat, a: nat, b: nat, c: nat)
    requires d == 7 * a == 31 * b == 151 * c
    ensures d % 32767 == 0
  {
    var f := 9 * b - 2 * a;
    assert d == 217 * f;
    assert d == 32767 * (23 * f - 16 * c);
  }

  /** x comes back to one after o steps, */
  lemma OrderIsPeriod(o: nat)
    requires 2 * o == 65534
    ensures Period(o)
  {
    var n := 16;
    SixteenShifts(1, 0x10, 0x100, 0x1000, 0x1021);
    Power32768(n);
    assert o + 1 == 2048 * n;
    ShiftNShifts(1, o);
    assert Shift(1) == 2;
    ShiftIsInjective(ShiftN(1, o), 1);
  }

  /** and not before: not after any of its largest divisors, */
  lemma NotAfterSeventh(e: nat, o: nat)
    requires 2 * o == 65534 && o == 7 * e
    ensures !Period(e)
  {
    var n := 9;
    FourShifts(1, 5);
    FourShifts(0x10, 1);
    Power4681(n);
    assert e == 512 * n + 73;
  }

  lemma NotAfter31st(e: nat, o: nat)
    requires 2 * o == 65534 && o == 31 * e
    ensures !Period(e)
  {
    var n := 16;
    SixteenShifts(1, 0x10, 0x100, 0x1000, 0x1021);
    Power1057(n);
    assert e == 64 * n + 33;
  }

  lemma NotAfter151st(e: nat, o: nat)
    requires 2 * o == 65534 && o == 151 * e
    ensures !Period(e)
  {
    var n := 13;
    FourShifts(1, 9);
    FourShifts(0x10, 5);
    FourShifts(0x100, 1);
    Power217(n);
    assert e == 16 * n + 9;
  }

  /** so after no number of steps but multiples of o. */
  lemma PeriodsOfOrder(d: nat, o: nat)
    requires 2 * o == 65534 && Period(d)
    ensures d % 32767 == 0
  {
    var e7, e31, e151 := o / 7, o / 31, o / 151;
    OrderIsPeriod(o);
    NotAfterSeventh(e7, o);
    NotAfter31st(e31, o);
    NotAfter151st(e151, o);
    ThreePrimes(7);
    ThreePrimes(31);
    ThreePrimes(151);
    PeriodsAreMultiples(7, e7, d);
    PeriodsAreMultiples(31, e31, d);
    PeriodsAreMultiples(151, e151, d);
    Multiples(d, d / 7, d / 31, d / 151);
  }

  lemma MultiplesArePeriods(d: nat, o: nat)
    requires 2 * o == 65534 && d % 32767 == 0
    ensures Period(d)
  {
    OrderIsPeriod(o);
    PeriodsRepeat(o, d / 32767);
    assert d == d / 32767 * o;
  }

  /** The powers of x repeat every 32767 steps and not sooner. */
  lemma OrderOfX(d: nat)
    ensures ShiftN(1, d) == 1 <==> d % 32767 == 0
  {
    if Period(d) {
      PeriodsOfOrder(d, 32767);
    }
    if d % 32767 == 0 {
      MultiplesArePeriods(d, 32767);
    }
  }

  // ---- messages with two wrong bits ----------------------------------------------------

  lemma TwoBits(r: bv16, a: seq<Bit>, b: seq<Bit>, i: nat, j: nat)
    requires |a| == |b| && i < j < |a|
    requires forall k :: 0 <= k < |a| ==> (a[k] != b[k] <==> k == i || k == j)
    ensures Divide(r, a) == Divide(r, b) <==> (j - i) % 32767 == 0
  {
    CutInFive(a, i, j);
    CutInFive(b, i, j);
    assert a[..i] == b[..i] && a[i + 1..j] == b[i + 1..j] && a[j + 1..] == b[j + 1..];
    DivideSplits(r, a[..i], a[i], a[i + 1..j], a[j], a[j + 1..]);
    DivideSplits(r, a[..i], b[i], a[i + 1..j], b[j], a[j + 1..]);
    OrderOfX(j - i);
    TwoApart(Divide(r, a[..i]), a[i], b[i], a[i + 1..j], a[j], b[j], a[j + 1..]);
  }

  /** Messages of the same length that differ in two bits share their CRC exactly if the two are a
      multiple of 32767 bits apart. */
  lemma CrcMissesTwoErrorsExactlyWhen(x: seq<Byte>, y: seq<Byte>, i: nat, j: nat)
    requires |x| == |y| && i < j < 8 * |x|
    requires forall k :: 0 <= k < 8 * |x| ==> (AllBits(x)[k] != AllBits(y)[k] <==> k == i || k == j)
    ensures Crc(x) == Crc(y) <==> (j - i) % 32767 == 0
  {
    TwoBits(INITIAL_REMAINDER, AllBits(x), AllBits(y), i, j);
  }

  lemma {:induction false} NoneWrong(a: seq<Bit>, b: seq<Bit>)
    requires |a| == |b| && Wrong(a, b) == 0
    ensures a == b
    decreases |a|
  {
    if a != [] {
      NoneWrong(a[1..], b[1..]);
      assert a == [a[0]] + a[1..] && b == [b[0]] + b[1..];
    }
  }

  lemma {:induction false} OneWrong(a: seq<Bit>, b: seq<Bit>) returns (i: nat)
    requires |a| == |b| && Wrong(a, b) == 1
    ensures i < |a| && forall k :: 0 <= k < |a| ==> (a[k] != b[k] <==> k == i)
    decreases |a|
  {
    if a[0] != b[0] {
      NoneWrong(a[1..], b[1..]);
      assert forall k :: 1 <= k < |a| ==> a[k] == a[1..][k - 1] && b[k] == b[1..][k - 1];
      i := 0;
    } else {
      var j := OneWrong(a[1..], b[1..]);
      assert forall k :: 1 <= k < |a| ==> a[k] == a[1..][k - 1] && b[k] == b[1..][k - 1];
      i := j + 1;
    }
  }

  lemma {:induction false} TwoWrong(a: seq<Bit>, b: seq<Bit>) returns (i: nat, j: nat)
    requires |a| == |b| && Wrong(a, b) == 2
    ensures i < j < |a| && forall k :: 0 <= k < |a| ==> (a[k] != b[k] <==> k == i || k == j)
    decreases |a|
  {
    if a[0] != b[0] {
      var l := OneWrong(a[1..], b[1..]);
      assert forall k :: 1 <= k < |a| ==> a[k] == a[1..][k - 1] && b[k] == b[1..][k - 1];
      i, j := 0, l + 1;
    } else {
      var l, m := TwoWrong(a[1..], b[1..]);
      assert forall k :: 1 <= k < |a| ==> a[k] == a[1..][k - 1] && b[k] == b[1..][k - 1];
      i, j := l + 1, m + 1;
    }
  }

  lemma TwoSeen(r: bv16, a: seq<Bit>, b: seq<Bit>)
    requires |a| == |b| <= 32767 && Wrong(a, b) == 2
    ensures Divide(r, a) != Divide(r, b)
  {
    var i, j := TwoWrong(a, b);
    TwoBits(r, a, b, i, j);
  }

  /** So in messages of up to 4095 bytes, one, two or three wrong bits are always detected. */
  lemma CrcDetectsThreeErrors(x: seq<Byte>, y: seq<Byte>)
    requires |x| == |y| <= 4095 && 1 <= Wrong(AllBits(x), AllBits(y)) <= 3
    ensures Crc(x) != Crc(y)
  {
    if Wrong(AllBits(x), AllBits(y)) == 2 {
      TwoSeen(INITIAL_REMAINDER, AllBits(x), AllBits(y));
    } else {
      CrcDetectsOddErrors(x, y);
    }
  }
}
