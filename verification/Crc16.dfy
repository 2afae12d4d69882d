/** The 16-bit CRC of the packet layer: polynomial x^16 + x^12 + x^5 + 1, preset to ones,
    no final complement.  The table-driven byte loop is proved equal to bit-at-a-time division,
    and that to long division of polynomials, for messages of any length. */
module Crc16 {

  const POLYNOMIAL: bv16 := 0x1021
  const INITIAL_REMAINDER: bv16 := 0xFFFF

  type Byte = bv8
  type Bit = bv1

  // ---- division, one bit at a time -----------------------------------------------------

  /** Addition of polynomials over two elements. */
  function Add(a: bv16, b: bv16): (c: bv16) { a ^ b }

  /** Multiply the remainder by x and reduce: when the bit shifted out is set, bits 12, 5 and 0
      of the polynomial are subtracted. */
  function Shift(r: bv16): (s: bv16) {
    var out := r >> 15;
    (r << 1) ^ out ^ (out << 5) ^ (out << 12)
  }

  /** The source writes that with a branch. */
  lemma ShiftBranches(r: bv16)
    ensures Shift(r) == if r & 0x8000 != 0 then (r << 1) ^ POLYNOMIAL else r << 1
  {
    if r & 0x8000 != 0 {
      OutIsOne(r);
      assert (r << 1) ^ 1 ^ 0x20 ^ 0x1000 == (r << 1) ^ 0x1021;
    } else {
      OutIsZero(r);
      assert (r << 1) ^ 0 ^ 0 ^ 0 == r << 1;
    }
  }

  lemma OutIsOne(r: bv16)
    requires r & 0x8000 != 0
    ensures r >> 15 == 1
  {
  }

  lemma OutIsZero(r: bv16)
    requires r & 0x8000 == 0
    ensures r >> 15 == 0
  {
  }

  function ShiftN(r: bv16, n: nat): (s: bv16)
    decreases n
  {
    if n == 0 then r else ShiftN(Shift(r), n - 1)
  }

  /** One message bit enters at the top of the remainder. */
  function BitStep(r: bv16, bit: Bit): (s: bv16) {
    Shift(Add(r, (bit as bv16) << 15))
  }

  /** The remainder after a string of message bits, first bit first. */
  function Divide(r: bv16, bits: seq<Bit>): (s: bv16)
    decreases |bits|
  {
    if bits == [] then r else Divide(BitStep(r, bits[0]), bits[1..])
  }

  function First(w: bv16): (bit: Bit) { (w >> 15) as Bit }

  function Rest(w: bv16): (rest: bv16) { w << 1 }

  /** The first n bits of a word, from the top. */
  function TopBits(w: bv16, n: nat): (bits: seq<Bit>)
    ensures |bits| == n
    decreases n
  {
    if n == 0 then [] else [First(w)] + TopBits(Rest(w), n - 1)
  }

  /** A byte placed in the upper half of a word. */
  function Upper(b: Byte): (w: bv16) { (b as bv16) << 8 }

  /** The bits of a byte, most significant first. */
  function BitsOf(b: Byte): (bits: seq<Bit>)
    ensures |bits| == 8
  {
    TopBits(Upper(b), 8)
  }

  function AllBits(bytes: seq<Byte>): (bits: seq<Bit>)
    ensures |bits| == 8 * |bytes|
  {
    if bytes == [] then [] else BitsOf(bytes[0]) + AllBits(bytes[1..])
  }

  /** The CRC by definition. */
  function Crc(bytes: seq<Byte>): (crc: bv16) {
    Divide(INITIAL_REMAINDER, AllBits(bytes))
  }

  // ---- laws of the shift step ----------------------------------------------------------
  // Sums are passed as named parameters, so that none appears under a recursive function.

  lemma ShiftIsLinear(a: bv16, b: bv16)
    ensures Shift(Add(a, b)) == Add(Shift(a), Shift(b))
  {
    ShiftOfXor(a, b);
  }

  lemma ShiftOfXor(a: bv16, b: bv16)
    ensures Shift(a ^ b) == Shift(a) ^ Shift(b)
  {
  }

  lemma {:induction false} ShiftNIsLinear(a: bv16, b: bv16, c: bv16, n: nat)
    requires c == Add(a, b)
    ensures ShiftN(c, n) == Add(ShiftN(a, n), ShiftN(b, n))
    decreases n
  {
    if n > 0 {
      ShiftIsLinear(a, b);
      ShiftNIsLinear(Shift(a), Shift(b), Shift(c), n - 1);
    }
  }

  lemma {:induction false} DivideAppends(r: bv16, before: seq<Bit>, after: seq<Bit>)
    ensures Divide(r, before + after) == Divide(Divide(r, before), after)
    decreases |before|
  {
    if before == [] {
      assert before + after == after;
    } else {
      assert (before + after)[1..] == before[1..] + after;
      DivideAppends(BitStep(r, before[0]), before[1..], after);
    }
  }

  lemma ShiftOfXorIsInjective(r: bv16, s: bv16, top: bv16)
    requires Shift(r ^ top) == Shift(s ^ top)
    ensures r == s
  {
  }

  lemma EnteringIsInjective(r: bv16, s: bv16, top: bv16)
    requires Shift(Add(r, top)) == Shift(Add(s, top))
    ensures r == s
  {
    ShiftOfXorIsInjective(r, s, top);
  }

  lemma BitStepIsInjective(r: bv16, s: bv16, bit: Bit)
    requires BitStep(r, bit) == BitStep(s, bit)
    ensures r == s
  {
    EnteringIsInjective(r, s, (bit as bv16) << 15);
  }

  /** Different remainders never meet again under the same bits. */
  lemma {:induction false} DivideIsInjective(r: bv16, s: bv16, bits: seq<Bit>)
    requires Divide(r, bits) == Divide(s, bits)
    ensures r == s
    decreases |bits|
  {
    if bits != [] {
      DivideIsInjective(BitStep(r, bits[0]), BitStep(s, bits[0]), bits[1..]);
      BitStepIsInjective(r, s, bits[0]);
    }
  }

  // ---- a whole byte in one step --------------------------------------------------------

  /** What is left of a word when its first n bits are gone. */
  function Dropped(w: bv16, n: nat): (rest: bv16)
    decreases n
  {
    if n == 0 then w else Dropped(Rest(w), n - 1)
  }

  /** One bit entering alone, or together with the bits after it. */
  lemma EnterTogether(r: bv16, w: bv16, start: bv16)
    requires start == Add(r, w)
    ensures Shift(start) == Add(BitStep(r, First(w)), Rest(w))
  {
  }

  lemma DivideFirst(r: bv16, w: bv16, n: nat)
    requires n > 0
    ensures Divide(r, TopBits(w, n)) == Divide(BitStep(r, First(w)), TopBits(Rest(w), n - 1))
  {
    assert TopBits(w, n)[1..] == TopBits(Rest(w), n - 1);
  }

  /** Feeding the bits of a word one by one is adding the word and shifting. */
  lemma {:induction false} DivideIsShiftN(r: bv16, w: bv16, n: nat, start: bv16)
    requires Dropped(w, n) == 0 && start == Add(r, w)
    ensures Divide(r, TopBits(w, n)) == ShiftN(start, n)
    decreases n
  {
    if n > 0 {
      EnterTogether(r, w, start);
      DivideIsShiftN(BitStep(r, First(w)), Rest(w), n - 1, Shift(start));
      DivideFirst(r, w, n);
    }
  }

  /** The first n bits of a word are clear. */
  predicate Clear(w: bv16, n: nat)
    decreases n
  {
    n == 0 || (First(w) == 0 && Clear(Rest(w), n - 1))
  }

  lemma ShiftOfClear(w: bv16)
    requires First(w) == 0
    ensures Shift(w) == Rest(w)
  {
  }

  lemma {:induction false} ShiftNOfClear(w: bv16, n: nat)
    requires Clear(w, n)
    ensures ShiftN(w, n) == Dropped(w, n)
    decreases n
  {
    if n > 0 {
      ShiftOfClear(w);
      ShiftNOfClear(Rest(w), n - 1);
    }
  }

  function High(r: bv16): (b: Byte) { (r >> 8) as Byte }

  /** What the table holds for a dividend. */
  function Entry(d: Byte): (e: bv16) { ShiftN(Upper(d), 8) }

  lemma UpperDrops(b: Byte)
    ensures Dropped(Upper(b), 8) == 0
  {
  }

  /** The table index for the next byte. */
  function Index(r: bv16, b: Byte): (d: Byte) { b ^ High(r) }

  function Low(r: bv16): (w: bv16) { r & 0xFF }

  lemma Halves(r: bv16, b: Byte)
    ensures Add(r, Upper(b)) == Add(Upper(Index(r, b)), Low(r))
  {
    XorHalves(r, b);
  }

  lemma XorHalves(r: bv16, b: Byte)
    ensures r ^ Upper(b) == Upper(Index(r, b)) ^ Low(r)
  {
  }

  lemma LowHalfRises(low: bv16)
    requires low & 0xFF00 == 0
    ensures ShiftN(low, 8) == low << 8
  {
    LowHalfClear(low);
    ShiftNOfClear(low, 8);
    LowHalfDrops(low);
  }

  lemma LowHalfClear(low: bv16)
    requires low & 0xFF00 == 0
    ensures Clear(low, 8)
  {
  }

  lemma LowHalfDrops(low: bv16)
    ensures Dropped(low, 8) == low << 8
  {
  }

  lemma LowHalf(r: bv16)
    ensures Low(r) & 0xFF00 == 0 && Low(r) << 8 == r << 8
  {
  }

  lemma DivideByte(r: bv16, b: Byte, start: bv16)
    requires start == Add(r, Upper(b))
    ensures Divide(r, BitsOf(b)) == ShiftN(start, 8)
  {
    UpperDrops(b);
    DivideIsShiftN(r, Upper(b), 8, start);
  }

  lemma LowRises(r: bv16)
    ensures ShiftN(Low(r), 8) == r << 8
  {
    LowHalf(r);
    LowHalfRises(Low(r));
  }

  lemma EntryAndLow(d: Byte, low: bv16, start: bv16)
    requires start == Add(Upper(d), low)
    ensures ShiftN(start, 8) == Add(Entry(d), ShiftN(low, 8))
  {
    ShiftNIsLinear(Upper(d), low, start, 8);
  }

  /** One table look-up does the work of eight bit steps. */
  lemma TableStep(r: bv16, b: Byte)
    ensures Add(Entry(Index(r, b)), r << 8) == Divide(r, BitsOf(b))
  {
    var start := Add(r, Upper(b));
    DivideByte(r, b, start);
    Halves(r, b);
    EntryAndLow(Index(r, b), Low(r), start);
    LowRises(r);
  }

  // ---- the table and the byte loop -----------------------------------------------------

  /** Byte k of a message, the source's message >> (8 * k), low bits. */
  function ByteOf(message: bv32, k: nat): (b: Byte)
    requires k < 4
    decreases k
  {
    if k == 0 then (message & 0xFF) as Byte else ByteOf(message >> 8, k - 1)
  }

  /** The n low bytes of a message, lowest first. */
  function LowBytes(message: bv32, n: nat): (bytes: seq<Byte>)
    requires n <= 4
    ensures |bytes| == n
    decreases n
  {
    if n == 0 then [] else LowBytes(message, n - 1) + [ByteOf(message, n - 1)]
  }

  lemma {:induction false} AllBitsAppends(before: seq<Byte>, after: seq<Byte>)
    ensures AllBits(before + after) == AllBits(before) + AllBits(after)
    decreases |before|
  {
    if before == [] {
      assert before + after == after;
    } else {
      assert (before + after)[1..] == before[1..] + after;
      AllBitsAppends(before[1..], after);
    }
  }

  lemma DivideNextByte(bytes: seq<Byte>, b: Byte)
    ensures Crc(bytes + [b]) == Divide(Crc(bytes), BitsOf(b))
  {
    AllBitsAppends(bytes, [b]);
    assert AllBits([b]) == BitsOf(b);
    DivideAppends(INITIAL_REMAINDER, AllBits(bytes), BitsOf(b));
  }

  /** The byte loop over a whole message, one table entry a byte. */
  function ByTable(r: bv16, bytes: seq<Byte>): (s: bv16)
    decreases |bytes|
  {
    if bytes == [] then r
    else ByTable(Add(Entry(Index(r, bytes[0])), r << 8), bytes[1..])
  }

  /** Byte by byte through the table, or bit by bit: the same remainder, whatever the length. */
  lemma {:induction false} ByTableIsDivision(r: bv16, bytes: seq<Byte>)
    ensures ByTable(r, bytes) == Divide(r, AllBits(bytes))
    decreases |bytes|
  {
    if bytes != [] {
      TableStep(r, bytes[0]);
      DivideAppends(r, BitsOf(bytes[0]), AllBits(bytes[1..]));
      ByTableIsDivision(Divide(r, BitsOf(bytes[0])), bytes[1..]);
    }
  }

  /** The byte loop through a table of any contents. */
  function Through(table: seq<bv16>, r: bv16, bytes: seq<Byte>): (s: bv16)
    requires |table| == 256
    decreases |bytes|
  {
    if bytes == [] then r else Through(table, Looked(table, r, bytes[0]), bytes[1..])
  }

  function Looked(table: seq<bv16>, r: bv16, b: Byte): (s: bv16)
    requires |table| == 256
  {
    Add(table[Index(r, b) as int], r << 8)
  }

  ghost predicate Filled(table: seq<bv16>) {
    |table| == 256 && forall d :: 0 <= d < 256 ==> table[d] == Entry(d as Byte)
  }

  /** A table that has never been filled in: static storage starts as zeros. */
  ghost predicate Blank(table: seq<bv16>) {
    |table| == 256 && forall d :: 0 <= d < 256 ==> table[d] == 0
  }

  lemma {:induction false} ThroughAppends(table: seq<bv16>, r: bv16, bytes: seq<Byte>, b: Byte)
    requires |table| == 256
    ensures Through(table, r, bytes + [b]) == Looked(table, Through(table, r, bytes), b)
    decreases |bytes|
  {
    if bytes == [] {
      assert bytes + [b] == [b];
    } else {
      assert (bytes + [b])[1..] == bytes[1..] + [b];
      ThroughAppends(table, Looked(table, r, bytes[0]), bytes[1..], b);
    }
  }

  lemma LookedUp(table: seq<bv16>, r: bv16, b: Byte)
    requires Filled(table)
    ensures Looked(table, r, b) == Add(Entry(Index(r, b)), r << 8)
  {
    var d := Index(r, b);
    assert (d as int) as Byte == d;
  }

  /** Through a filled table the loop is the division. */
  lemma {:induction false} FilledIsByTable(table: seq<bv16>, r: bv16, bytes: seq<Byte>)
    requires Filled(table)
    ensures Through(table, r, bytes) == ByTable(r, bytes)
    decreases |bytes|
  {
    if bytes != [] {
      LookedUp(table, r, bytes[0]);
      FilledIsByTable(table, Looked(table, r, bytes[0]), bytes[1..]);
    }
  }

  lemma BlankStep(x: bv16, r: bv16)
    requires x == 0
    ensures Add(x, r << 8) == r << 8 && (r << 8) << 8 == 0
  {
  }

  lemma LookedUpBlank(table: seq<bv16>, r: bv16, b: Byte)
    requires Blank(table)
    ensures Looked(table, r, b) == r << 8
  {
    BlankStep(table[Index(r, b) as int], r);
  }

  lemma {:induction false} ZeroStaysZero(table: seq<bv16>, bytes: seq<Byte>)
    requires Blank(table)
    ensures Through(table, 0, bytes) == 0
    decreases |bytes|
  {
    if bytes != [] {
      LookedUpBlank(table, 0, bytes[0]);
      ZeroStaysZero(table, bytes[1..]);
    }
  }

  /** Through a blank one it forgets its preset after two bytes, and any message. */
  lemma BlankForgets(table: seq<bv16>, r: bv16, bytes: seq<Byte>)
    requires Blank(table) && |bytes| >= 2
    ensures Through(table, r, bytes) == 0
  {
    var once := Looked(table, r, bytes[0]);
    LookedUpBlank(table, r, bytes[0]);
    LookedUpBlank(table, once, bytes[1]);
    BlankStep(0, r);
    assert bytes[1..][1..] == bytes[2..];
    ZeroStaysZero(table, bytes[2..]);
  }

  class CrcTable {
    const table: array<bv16>

    ghost predicate Ready()
      reads table
    {
      table.Length == 256 && Filled(table[..])
    }

    constructor ()
      ensures fresh(table) && table.Length == 256 && Blank(table[..])
    {
      table := new bv16[256](_ => 0);
    }

    /** Populate the table: eight bit steps for each possible dividend. */
    method Init()
      requires table.Length == 256
      modifies table
      ensures Ready()
    {
      for dividend := 0 to 256
        invariant forall d :: 0 <= d < dividend ==> table[d] == Entry(d as Byte)
      {
        table[dividend] := EightSteps(dividend as Byte);
      }
    }

    static method EightSteps(d: Byte) returns (remainder: bv16)
      ensures remainder == Entry(d)
    {
      remainder := Upper(d);
      var bit: nat := 8;
      while bit > 0
        invariant ShiftN(remainder, bit) == Entry(d)
      {
        ShiftBranches(remainder);
        if remainder & 0x8000 != 0 {
          remainder := (remainder << 1) ^ POLYNOMIAL;
        } else {
          remainder := remainder << 1;
        }
        bit := bit - 1;
      }
    }

    /** The remainder of a message, a byte at a time, whatever the table holds. */
    method Compute(message: bv32, nBytes: int) returns (remainder: bv16)
      requires table.Length == 256 && nBytes <= 4
      ensures var bytes := LowBytes(message, if nBytes < 0 then 0 else nBytes);
        && remainder == Through(table[..], INITIAL_REMAINDER, bytes)
        && (Ready() ==> remainder == Crc(bytes))
        && (Blank(table[..]) && nBytes >= 2 ==> remainder == 0)
    {
      remainder := INITIAL_REMAINDER;
      var byte: nat := 0;
      ghost var t := table[..];
      while byte < nBytes
        invariant byte == 0 || byte <= nBytes
        invariant remainder == Through(t, INITIAL_REMAINDER, LowBytes(message, byte))
      {
        var data := Index(remainder, ByteOf(message, byte));
        NextByte(t, message, byte, remainder, data);
        remainder := Add(table[data as int], remainder << 8);
        byte := byte + 1;
      }
      ComputedMeans(t, LowBytes(message, byte));
    }
  }

  lemma NextByte(table: seq<bv16>, message: bv32, n: nat, r: bv16, data: Byte)
    requires |table| == 256 && n < 4 && r == Through(table, INITIAL_REMAINDER, LowBytes(message, n))
    requires data == Index(r, ByteOf(message, n))
    ensures Through(table, INITIAL_REMAINDER, LowBytes(message, n + 1)) == Add(table[data as int], r << 8)
  {
    ThroughAppends(table, INITIAL_REMAINDER, LowBytes(message, n), ByteOf(message, n));
  }

  lemma ComputedMeans(table: seq<bv16>, bytes: seq<Byte>)
    requires |table| == 256
    ensures Filled(table) ==> Through(table, INITIAL_REMAINDER, bytes) == Crc(bytes)
    ensures Blank(table) && |bytes| >= 2 ==> Through(table, INITIAL_REMAINDER, bytes) == 0
  {
    if Filled(table) {
      FilledIsByTable(table, INITIAL_REMAINDER, bytes);
      ByTableIsDivision(INITIAL_REMAINDER, bytes);
    }
    if Blank(table) && |bytes| >= 2 {
      BlankForgets(table, INITIAL_REMAINDER, bytes);
    }
  }

  // ---- error detection -----------------------------------------------------------------

  /** The bits below the first n. */
  function Below(n: nat): (mask: bv16)
    requires n <= 16
  {
    if n == 0 then 0xFFFF else Below(n - 1) >> 1
  }

  lemma BelowIsOdd(n: nat)
    requires n < 16
    ensures Below(n) & 1 == 1
  {
    assert Below(4) == 0x0FFF;
    assert Below(8) == 0x00FF;
    assert Below(12) == 0x000F;
    assert Below(15) == 1;
  }

  predicate Agree(x: bv16, y: bv16, mask: bv16) { x & mask == y & mask }

  function Entering(bit: Bit): (top: bv16) { (bit as bv16) << 15 }

  lemma XorsAgreed(x: bv16, y: bv16, a: Bit, b: Bit, mask: bv16)
    requires mask & 1 == 1
    requires Shift(x ^ Entering(a)) & mask == Shift(y ^ Entering(b)) & mask
    ensures x & (mask >> 1) == y & (mask >> 1)
  {
  }

  lemma EnteredAgreed(x: bv16, y: bv16, a: Bit, b: Bit, mask: bv16)
    requires mask & 1 == 1
    requires Agree(Shift(Add(x, Entering(a))), Shift(Add(y, Entering(b))), mask)
    ensures Agree(x, y, mask >> 1)
  {
    XorsAgreed(x, y, a, b, mask);
  }

  lemma BitStepIs(x: bv16, a: Bit)
    ensures BitStep(x, a) == Shift(Add(x, Entering(a)))
  {
  }

  /** Remainders that agree on their last bits agreed, one step before, on one bit fewer. */
  lemma SteppedAgreed(x: bv16, y: bv16, a: Bit, b: Bit, mask: bv16)
    requires mask & 1 == 1 && Agree(BitStep(x, a), BitStep(y, b), mask)
    ensures Agree(x, y, mask >> 1)
  {
    BitStepIs(x, a);
    BitStepIs(y, b);
    EnteredAgreed(x, y, a, b, mask);
  }

  lemma XorFromSame(x: bv16, a: Bit, b: Bit, mask: bv16)
    requires mask & 1 == 1
    requires Shift(x ^ Entering(a)) & mask == Shift(x ^ Entering(b)) & mask
    ensures a == b
  {
  }

  lemma SteppedFromSame(x: bv16, a: Bit, b: Bit, mask: bv16)
    requires mask & 1 == 1 && Agree(BitStep(x, a), BitStep(x, b), mask)
    ensures a == b
  {
    XorFromSame(x, a, b, mask);
  }

  lemma StepAgrees(x: bv16, y: bv16, a: Bit, b: Bit, n: nat)
    requires n < 16 && Agree(BitStep(x, a), BitStep(y, b), Below(n))
    ensures Agree(x, y, Below(n + 1))
  {
    BelowIsOdd(n);
    AgreeBelow(x, y, a, b, n, Below(n));
  }

  lemma AgreeBelow(x: bv16, y: bv16, a: Bit, b: Bit, n: nat, mask: bv16)
    requires n < 16 && mask == Below(n) && mask & 1 == 1 && Agree(BitStep(x, a), BitStep(y, b), mask)
    ensures Agree(x, y, Below(n + 1))
  {
    SteppedAgreed(x, y, a, b, mask);
  }

  lemma StepFromSame(x: bv16, a: Bit, b: Bit, n: nat)
    requires n < 16 && Agree(BitStep(x, a), BitStep(x, b), Below(n))
    ensures a == b
  {
    BelowIsOdd(n);
    SteppedFromSame(x, a, b, Below(n));
  }

  /** Remainders that meet again within sixteen bits agreed on the bits below; */
  lemma {:induction false} MeetingAgain(x: bv16, y: bv16, u: seq<Bit>, v: seq<Bit>)
    requires |u| == |v| <= 16
    requires Divide(x, u) == Divide(y, v)
    ensures Agree(x, y, Below(|u|))
    decreases |u|
  {
    if |u| > 0 {
      MeetingAgain(BitStep(x, u[0]), BitStep(y, v[0]), u[1..], v[1..]);
      StepAgrees(x, y, u[0], v[0], |u| - 1);
    }
  }

  /** and if they were the same, so were the bits. */
  lemma {:induction false} SameBits(x: bv16, u: seq<Bit>, v: seq<Bit>)
    requires |u| == |v| <= 16
    requires Divide(x, u) == Divide(x, v)
    ensures u == v
    decreases |u|
  {
    if |u| > 0 {
      MeetingAgain(BitStep(x, u[0]), BitStep(x, v[0]), u[1..], v[1..]);
      StepFromSame(x, u[0], v[0], |u| - 1);
      SameBits(BitStep(x, u[0]), u[1..], v[1..]);
      assert u == [u[0]] + u[1..] && v == [v[0]] + v[1..];
    }
  }

  /** Two bit strings that differ only inside sixteen consecutive bits leave different
      remainders. */
  lemma BurstDetected(r: bv16, p: seq<Bit>, u: seq<Bit>, v: seq<Bit>, q: seq<Bit>)
    requires |u| == |v| <= 16
    requires Divide(r, p + u + q) == Divide(r, p + v + q)
    ensures u == v
  {
    DivideAppends(r, p + u, q);
    DivideAppends(r, p + v, q);
    DivideIsInjective(Divide(r, p + u), Divide(r, p + v), q);
    DivideAppends(r, p, u);
    DivideAppends(r, p, v);
    SameBits(Divide(r, p), u, v);
  }

  lemma {:induction false} TopBitsInjective(a: bv16, b: bv16, n: nat)
    requires TopBits(a, n) == TopBits(b, n) && Dropped(a, n) == Dropped(b, n)
    ensures a == b
    decreases n
  {
    if n > 0 {
      assert TopBits(a, n)[1..] == TopBits(Rest(a), n - 1);
      assert TopBits(b, n)[1..] == TopBits(Rest(b), n - 1);
      assert First(a) == TopBits(a, n)[0] == TopBits(b, n)[0] == First(b);
      TopBitsInjective(Rest(a), Rest(b), n - 1);
      FirstAndRest(a, b);
    }
  }

  lemma FirstAndRest(a: bv16, b: bv16)
    requires First(a) == First(b) && Rest(a) == Rest(b)
    ensures a == b
  {
  }

  lemma UpperInjective(a: Byte, b: Byte)
    requires Upper(a) == Upper(b)
    ensures a == b
  {
  }

  lemma BitsOfInjective(a: Byte, b: Byte)
    requires BitsOf(a) == BitsOf(b)
    ensures a == b
  {
    UpperDrops(a);
    UpperDrops(b);
    TopBitsInjective(Upper(a), Upper(b), 8);
    UpperInjective(a, b);
  }

  lemma {:induction false} AllBitsInjective(x: seq<Byte>, y: seq<Byte>)
    requires |x| == |y| && AllBits(x) == AllBits(y)
    ensures x == y
    decreases |x|
  {
    if x != [] {
      assert AllBits(x)[..8] == BitsOf(x[0]) && AllBits(x)[8..] == AllBits(x[1..]);
      assert AllBits(y)[..8] == BitsOf(y[0]) && AllBits(y)[8..] == AllBits(y[1..]);
      BitsOfInjective(x[0], y[0]);
      AllBitsInjective(x[1..], y[1..]);
    }
  }

  /** Messages of the same length, alike outside bits i to i + 15 in the order they are
      processed, never share a CRC. */
  lemma CrcDetectsBursts(x: seq<Byte>, y: seq<Byte>, i: nat)
    requires |x| == |y|
    requires forall j :: 0 <= j < 8 * |x| && !(i <= j < i + 16) ==> AllBits(x)[j] == AllBits(y)[j]
    requires Crc(x) == Crc(y)
    ensures x == y
  {
    BurstBitsDetected(INITIAL_REMAINDER, AllBits(x), AllBits(y), i);
    AllBitsInjective(x, y);
  }

  lemma BurstBitsDetected(r: bv16, a: seq<Bit>, b: seq<Bit>, i: nat)
    requires |a| == |b|
    requires forall j :: 0 <= j < |a| && !(i <= j < i + 16) ==> a[j] == b[j]
    requires Divide(r, a) == Divide(r, b)
    ensures a == b
  {
    var lo := if i < |a| then i else |a|;
    var hi := if i + 16 < |a| then i + 16 else |a|;
    SameSlice(a, b, 0, lo);
    SameSlice(a, b, hi, |a|);
    CutInThree(a, lo, hi);
    CutInThree(b, lo, hi);
    BurstDetected(r, a[0..lo], a[lo..hi], b[lo..hi], a[hi..|a|]);
  }

  lemma SameSlice(a: seq<Bit>, b: seq<Bit>, lo: nat, hi: nat)
    requires lo <= hi <= |a| == |b|
    requires forall j :: lo <= j < hi ==> a[j] == b[j]
    ensures a[lo..hi] == b[lo..hi]
  {
    forall k | 0 <= k < hi - lo ensures a[lo..hi][k] == b[lo..hi][k] {
      assert a[lo + k] == b[lo + k];
    }
  }

  lemma CutInThree(a: seq<Bit>, lo: nat, hi: nat)
    requires lo <= hi <= |a|
    ensures a == a[0..lo] + a[lo..hi] + a[hi..|a|]
  {
  }

  /** In particular, errors confined to one or two adjacent bytes. */
  lemma CrcDetectsTwoBytes(p: seq<Byte>, u: seq<Byte>, v: seq<Byte>, q: seq<Byte>)
    requires |u| == |v| <= 2
    requires Crc(p + u + q) == Crc(p + v + q)
    ensures u == v
  {
    AllBitsAppends(p + u, q);
    AllBitsAppends(p, u);
    AllBitsAppends(p + v, q);
    AllBitsAppends(p, v);
    BurstDetected(INITIAL_REMAINDER, AllBits(p), AllBits(u), AllBits(v), AllBits(q));
    AllBitsInjective(u, v);
  }

  // ---- long division -------------------------------------------------------------------

  /** Long division: bring down the next bit, subtract the polynomial when it goes. */
  function BringDown(r: bv16, bit: Bit): (s: bv16) {
    Add(Shift(r), bit as bv16)
  }

  function LongDivide(r: bv16, bits: seq<Bit>): (s: bv16)
    decreases |bits|
  {
    if bits == [] then r else LongDivide(BringDown(r, bits[0]), bits[1..])
  }

  function Zeros(n: nat): (bits: seq<Bit>)
    ensures |bits| == n
  {
    if n == 0 then [] else [0] + Zeros(n - 1)
  }

  lemma BringDownZero(r: bv16)
    ensures BringDown(r, 0) == Shift(r)
  {
  }

  lemma {:induction false} LongDivideZeros(r: bv16, n: nat)
    ensures LongDivide(r, Zeros(n)) == ShiftN(r, n)
    decreases n
  {
    if n > 0 {
      BringDownZero(r);
      assert Zeros(n)[1..] == Zeros(n - 1);
      LongDivideZeros(Shift(r), n - 1);
    }
  }

  lemma {:induction false} ShiftNShifts(r: bv16, n: nat)
    ensures ShiftN(Shift(r), n) == Shift(ShiftN(r, n))
    decreases n
  {
    if n > 0 {
      ShiftNShifts(Shift(r), n - 1);
    }
  }

  lemma FourShifts(r: bv16, n: nat)
    ensures ShiftN(r, n + 4) == ShiftN(Shift(Shift(Shift(Shift(r)))), n)
  {
    assert ShiftN(r, n + 4) == ShiftN(Shift(r), n + 3) == ShiftN(Shift(Shift(r)), n + 2);
    assert ShiftN(Shift(Shift(r)), n + 2) == ShiftN(Shift(Shift(Shift(r))), n + 1);
  }

  lemma SixteenShifts(r: bv16, a: bv16, b: bv16, c: bv16, d: bv16)
    requires Shift(Shift(Shift(Shift(r)))) == a && Shift(Shift(Shift(Shift(a)))) == b
    requires Shift(Shift(Shift(Shift(b)))) == c && Shift(Shift(Shift(Shift(c)))) == d
    ensures ShiftN(r, 16) == d
  {
    FourShifts(r, 12);
    FourShifts(a, 8);
    FourShifts(b, 4);
    FourShifts(c, 0);
  }

  /** A bit brought down at the bottom reaches, sixteen steps on, where it enters directly. */
  lemma BottomToTop(bit: Bit)
    ensures ShiftN(bit as bv16, 16) == Shift((bit as bv16) << 15)
  {
    if bit == 0 {
      SixteenShifts(0, 0, 0, 0, 0);
    } else {
      SixteenShifts(1, 0x10, 0x100, 0x1000, 0x1021);
    }
  }

  lemma BitStepAdds(r: bv16, bit: Bit)
    ensures BitStep(r, bit) == Add(Shift(r), Shift((bit as bv16) << 15))
  {
    ShiftIsLinear(r, (bit as bv16) << 15);
  }

  lemma BroughtDownOrEntered(r: bv16, bit: Bit)
    ensures ShiftN(BringDown(r, bit), 16) == BitStep(ShiftN(r, 16), bit)
  {
    ShiftNIsLinear(Shift(r), bit as bv16, BringDown(r, bit), 16);
    ShiftNShifts(r, 16);
    BottomToTop(bit);
    BitStepAdds(ShiftN(r, 16), bit);
  }

  lemma {:induction false} LongDivideAppends(r: bv16, before: seq<Bit>, after: seq<Bit>)
    ensures LongDivide(r, before + after) == LongDivide(LongDivide(r, before), after)
    decreases |before|
  {
    if before == [] {
      assert before + after == after;
    } else {
      assert (before + after)[1..] == before[1..] + after;
      LongDivideAppends(BringDown(r, before[0]), before[1..], after);
    }
  }

  lemma {:induction false} SixteenBehind(r: bv16, bits: seq<Bit>)
    ensures ShiftN(LongDivide(r, bits), 16) == Divide(ShiftN(r, 16), bits)
    decreases |bits|
  {
    if bits != [] {
      BroughtDownOrEntered(r, bits[0]);
      SixteenBehind(BringDown(r, bits[0]), bits[1..]);
    }
  }

  /** The register that sixteen zero bits turn into the preset. */
  const AUGMENTED_PRESET: bv16 := 0x84CF

  lemma PresetReached()
    ensures ShiftN(AUGMENTED_PRESET, 16) == INITIAL_REMAINDER
  {
    SixteenShifts(AUGMENTED_PRESET, 0xcdf8, 0x1e0c, 0xf0e1, 0xffff);
  }

  /** The CRC is the remainder of the long division of the message followed by sixteen zero
      bits, whatever the length of the message. */
  lemma CrcIsLongDivision(bytes: seq<Byte>)
    ensures Crc(bytes) == LongDivide(AUGMENTED_PRESET, AllBits(bytes) + Zeros(16))
  {
    LongDivideAppends(AUGMENTED_PRESET, AllBits(bytes), Zeros(16));
    LongDivideZeros(LongDivide(AUGMENTED_PRESET, AllBits(bytes)), 16);
    SixteenBehind(AUGMENTED_PRESET, AllBits(bytes));
    PresetReached();
  }
}
