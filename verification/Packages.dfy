/** Commands travel as 32-bit packages: 26 data bits above a 6-bit length, least significant
    chunk first, closed by an all-zero end marker. */
module Packages {

  type Word = bv32
  type Data = bv64
  type Width = bv6

  const END: Word := 0

  /** Packages the hardware FIFO holds; it drops what is written to it when full. */
  const FIFO_DEPTH := 256

  // ---- masks ---------------------------------------------------------------------------

  function Grow(mask: Word): (wider: Word) { (mask << 1) | 1 }

  /** A mask of n low bits. */
  function Mask(n: nat): (mask: Word) {
    if n == 0 then 0 else Grow(Mask(n - 1))
  }

  /** The source builds it one shift and one bit at a time; a negative width gives none. */
  method CreateMask(value: int) returns (mask: Word)
    ensures mask == Mask(if value < 0 then 0 else value)
  {
    mask := 0;
    var i: nat := 0;
    while i < value
      invariant i == 0 || i <= value
      invariant mask == Mask(i)
    {
      mask := Grow(mask);
      i := i + 1;
    }
  }

  lemma GrowWithin(a: Word, b: Word)
    requires a & b == a
    ensures Grow(a) & Grow(b) == Grow(a)
  {
  }

  lemma NothingWithin(b: Word)
    ensures 0 & b == 0
  {
  }

  lemma {:induction false} MaskWithin(n: nat, k: nat)
    requires n <= k
    ensures Mask(n) & Mask(k) == Mask(n)
  {
    if n == 0 {
      NothingWithin(Mask(k));
    } else {
      MaskWithin(n - 1, k - 1);
      GrowWithin(Mask(n - 1), Mask(k - 1));
    }
  }

  lemma Mask26()
    ensures Mask(26) == 0x3FF_FFFF
  {
    assert Mask(8) == 0xFF;
    assert Mask(16) == 0xFFFF;
    assert Mask(20) == 0xF_FFFF;
  }

  // ---- splitting -----------------------------------------------------------------------

  function Bits26(data: Data): (chunk: Word) { (data & 0x3FF_FFFF) as Word }

  /** The source shifts the 26 bits up and ors the length in. */
  function Join6(chunk: Word, low: Word): (package: Word) { (chunk << 6) | low }

  function Widen(width: Width): (low: Word) { width as Word }

  function Pack(chunk: Word, length: nat): (package: Word)
    requires length < 64
  {
    Join6(chunk, Widen(length as Width))
  }

  function Next(data: Data): (rest: Data) { data >> 26 }

  function Ints(size: nat): (n: nat) { size / 26 + 1 }

  /** The packages of a command, without the end marker.  Bits above the last chunk's length
      are not masked off. */
  function Split(data: Data, size: nat): (packages: seq<Word>)
  {
    if size < 26 then [Pack(Bits26(data), size)]
    else [Pack(Bits26(data), 26)] + Split(Next(data), size - 26)
  }

  lemma {:induction false} SplitLength(data: Data, size: nat)
    ensures |Split(data, size)| == Ints(size)
  {
    if size >= 26 {
      SplitLength(Next(data), size - 26);
      assert size / 26 == (size - 26) / 26 + 1;
    }
  }

  function Frame(data: Data, size: nat): (packages: seq<Word>) {
    Split(data, size) + [END]
  }

  // ---- receiving -----------------------------------------------------------------------

  function Low6(package: Word): (width: Width) { (package & 0x3F) as Width }

  function Length(package: Word): (n: nat) { Low6(package) as nat }

  /** Right shift of a signed 32-bit integer: the sign bit is copied in. */
  function SignedShift6(package: Word): (w: Word) {
    (package >> 6) | (if package & 0x8000_0000 != 0 then 0xFC00_0000 else 0)
  }

  function Masked(w: Word, mask: Word): (m: Word) { w & mask }

  function Payload(package: Word): (data: Word) {
    Masked(SignedShift6(package), Mask(Length(package)))
  }

  lemma LengthOfJoin(chunk: Word, width: Width)
    ensures Low6(Join6(chunk, Widen(width))) == width
  {
  }

  lemma WidthRoundTrip(n: nat)
    requires n < 64
    ensures (n as Width) as nat == n
  {
  }

  lemma LengthOfPack(chunk: Word, length: nat)
    requires length < 64
    ensures Length(Pack(chunk, length)) == length
  {
    LengthOfJoin(chunk, length as Width);
    WidthRoundTrip(length);
  }

  lemma PayloadBits(chunk: Word, low: Word, mask: Word)
    requires low < 64 && mask & 0x3FF_FFFF == mask
    ensures SignedShift6((chunk << 6) | low) & mask == chunk & mask
  {
  }

  lemma WidthIsSmall(width: Width)
    ensures Widen(width) < 64
  {
  }

  lemma PayloadOfJoin(chunk: Word, low: Word, mask: Word)
    requires low < 64 && Masked(mask, 0x3FF_FFFF) == mask
    ensures Masked(SignedShift6(Join6(chunk, low)), mask) == Masked(chunk, mask)
  {
    PayloadBits(chunk, low, mask);
  }

  lemma NarrowMask(n: nat)
    requires n <= 26
    ensures Masked(Mask(n), 0x3FF_FFFF) == Mask(n)
  {
    MaskWithin(n, 26);
    Mask26();
  }

  lemma PayloadOfPack(chunk: Word, length: nat)
    requires length <= 26
    ensures Payload(Pack(chunk, length)) == Masked(chunk, Mask(length))
  {
    LengthOfPack(chunk, length);
    NarrowMask(length);
    WidthIsSmall(length as Width);
    PayloadOfJoin(chunk, Widen(length as Width), Mask(length));
  }

  datatype Reception =
    | Received(vector: seq<Word>, size: nat, rest: seq<Word>)
    | Overrun(vector: seq<Word>, size: nat, rest: seq<Word>)
    | Waiting(vector: seq<Word>, size: nat)

  /** What a receiver expecting at most quant packages makes of a FIFO, from the point where
      vector and size have been gathered: a package without data bits ends the command, one
      chunk too many is stored and then refused, and an empty FIFO is waited on. */
  function Receive(fifo: seq<Word>, quant: int, vector: seq<Word>, size: nat): (r: Reception)
    decreases |fifo|
  {
    if fifo == [] then Waiting(vector, size)
    else if Payload(fifo[0]) == 0 then Received(vector, size, fifo[1..])
    else
      var more, total := vector + [Payload(fifo[0])], size + Length(fifo[0]);
      if |more| > quant then Overrun(more, total, fifo[1..])
      else Receive(fifo[1..], quant, more, total)
  }

  /** The chunks a command falls into: 26 bits each, the last one masked to what is left. */
  function Chunks(data: Data, size: nat): (chunks: seq<Word>) {
    if size < 26 then [Masked(Bits26(data), Mask(size))]
    else [Bits26(data)] + Chunks(Next(data), size - 26)
  }

  lemma {:induction false} ChunksLength(data: Data, size: nat)
    ensures |Chunks(data, size)| == Ints(size)
  {
    if size >= 26 {
      ChunksLength(Next(data), size - 26);
      assert size / 26 == (size - 26) / 26 + 1;
    }
  }

  lemma Bits26Whole(data: Data)
    ensures Masked(Bits26(data), 0x3FF_FFFF) == Bits26(data)
  {
  }

  lemma PayloadOfFull(data: Data)
    ensures Length(Pack(Bits26(data), 26)) == 26
    ensures Payload(Pack(Bits26(data), 26)) == Bits26(data)
  {
    LengthOfPack(Bits26(data), 26);
    PayloadOfPack(Bits26(data), 26);
    Mask26();
    Bits26Whole(data);
  }

  lemma PayloadOfEnd()
    ensures Payload(END) == 0
  {
  }

  predicate AllNonzero(chunks: seq<Word>) {
    forall k :: 0 <= k < |chunks| ==> chunks[k] != 0
  }

  lemma ReceiveOne(package: Word, fifo: seq<Word>, quant: int, vector: seq<Word>, size: nat)
    requires Payload(package) != 0 && |vector| < quant
    ensures Receive([package] + fifo, quant, vector, size)
         == Receive(fifo, quant, vector + [Payload(package)], size + Length(package))
  {
    assert ([package] + fifo)[1..] == fifo;
  }

  lemma ReceiveLast(data: Data, size: nat, quant: int, vector: seq<Word>, got: nat, rest: seq<Word>)
    requires size < 26 && AllNonzero(Chunks(data, size)) && |vector| < quant
    ensures Receive(Frame(data, size) + rest, quant, vector, got)
         == Received(vector + Chunks(data, size), got + size, rest)
  {
    var package := Pack(Bits26(data), size);
    LengthOfPack(Bits26(data), size);
    PayloadOfPack(Bits26(data), size);
    PayloadOfEnd();
    assert Chunks(data, size)[0] == Payload(package);
    assert Frame(data, size) + rest == [package] + ([END] + rest);
    ReceiveOne(package, [END] + rest, quant, vector, got);
    assert ([END] + rest)[1..] == rest;
  }

  lemma FrameUnfolds(data: Data, size: nat, rest: seq<Word>)
    requires size >= 26
    ensures Frame(data, size) + rest
         == [Pack(Bits26(data), 26)] + (Frame(Next(data), size - 26) + rest)
    ensures Ints(size) == Ints(size - 26) + 1
  {
  }

  lemma NonzeroTail(chunk: Word, tail: seq<Word>)
    requires AllNonzero([chunk] + tail)
    ensures chunk != 0 && AllNonzero(tail)
  {
    assert ([chunk] + tail)[0] == chunk;
    forall k | 0 <= k < |tail| ensures tail[k] != 0 {
      assert ([chunk] + tail)[k + 1] == tail[k];
    }
  }

  /** A whole frame without zero chunks is received chunk by chunk and consumed exactly. */
  lemma {:induction false} ReceiveFrame(data: Data, size: nat, quant: int, vector: seq<Word>,
                                        got: nat, rest: seq<Word>)
    requires AllNonzero(Chunks(data, size)) && |vector| + Ints(size) <= quant
    ensures Receive(Frame(data, size) + rest, quant, vector, got)
         == Received(vector + Chunks(data, size), got + size, rest)
    decreases size
  {
    if size < 26 {
      ReceiveLast(data, size, quant, vector, got, rest);
    } else {
      var chunk, tail := Bits26(data), Chunks(Next(data), size - 26);
      PayloadOfFull(data);
      NonzeroTail(chunk, tail);
      FrameUnfolds(data, size, rest);
      ReceiveOne(Pack(chunk, 26), Frame(Next(data), size - 26) + rest, quant, vector, got);
      ReceiveFrame(Next(data), size - 26, quant, vector + [chunk], got + 26, rest);
      assert vector + [chunk] + tail == vector + ([chunk] + tail);
    }
  }

  /** Whatever is in the FIFO, a completed receive has stored at most quant chunks, none zero. */
  lemma {:induction false} ReceivedMeans(fifo: seq<Word>, quant: int, vector: seq<Word>, size: nat)
    requires AllNonzero(vector) && |vector| <= quant
    ensures var r := Receive(fifo, quant, vector, size);
      r.Received? ==> AllNonzero(r.vector) && |r.vector| <= quant
    decreases |fifo|
  {
    if fifo != [] && Payload(fifo[0]) != 0 && |vector| < quant {
      ReceivedMeans(fifo[1..], quant, vector + [Payload(fifo[0])], size + Length(fifo[0]));
    }
  }

  /** Sending then receiving gives back the chunks and the size, and leaves the FIFO at the
      next frame, exactly when no chunk is zero (a size that is a multiple of 26 makes an empty,
      hence zero, last chunk) and the receiver has room. */
  lemma RoundTripExactlyWhen(data: Data, size: nat, quant: nat, rest: seq<Word>)
    ensures Receive(Frame(data, size) + rest, quant, [], 0) == Received(Chunks(data, size), size, rest)
       <==> AllNonzero(Chunks(data, size)) && Ints(size) <= quant
  {
    ChunksLength(data, size);
    ReceivedMeans(Frame(data, size) + rest, quant, [], 0);
    if AllNonzero(Chunks(data, size)) && Ints(size) <= quant {
      ReceiveFrame(data, size, quant, [], 0, rest);
      assert [] + Chunks(data, size) == Chunks(data, size);
    }
  }

  /** A receive of this frame ends at chunk k: what follows it, the end marker included, stays in
      the FIFO. */
  predicate StopsAt(data: Data, size: nat, quant: int, vector: seq<Word>, got: nat, k: nat) {
    && k < |Chunks(data, size)| && k < |Frame(data, size)|
    && Receive(Frame(data, size), quant, vector, got)
       == Received(vector + Chunks(data, size)[..k], got + 26 * k, Frame(data, size)[k + 1..])
  }

  /** The first zero chunk ends a receive early. */
  lemma {:induction false} StopsAtZero(data: Data, size: nat, quant: int, vector: seq<Word>,
                                       got: nat, k: nat)
    requires k < |Chunks(data, size)| && Chunks(data, size)[k] == 0
    requires AllNonzero(Chunks(data, size)[..k]) && |vector| + k <= quant
    ensures StopsAt(data, size, quant, vector, got, k)
    decreases size
  {
    if size < 26 || k == 0 {
      StopsAtFirst(data, size, quant, vector, got);
      assert vector + Chunks(data, size)[..0] == vector;
    } else {
      ChunksUnfold(data, size, k);
      StopsAtZero(Next(data), size - 26, quant, vector + [Bits26(data)], got + 26, k - 1);
      StopsLater(data, size, quant, vector, got, k);
    }
  }

  lemma StopsLater(data: Data, size: nat, quant: int, vector: seq<Word>, got: nat, k: nat)
    requires size >= 26 && Bits26(data) != 0 && |vector| < quant
    requires 0 < k < |Chunks(data, size)|
    requires StopsAt(Next(data), size - 26, quant, vector + [Bits26(data)], got + 26, k - 1)
    ensures StopsAt(data, size, quant, vector, got, k)
  {
    var chunk, tail := Bits26(data), Chunks(Next(data), size - 26);
    ReceiveFullChunk(data, size, quant, vector, got);
    assert Chunks(data, size) == [chunk] + tail;
    MoveFirst(vector, chunk, tail, k - 1);
    DropAgain(Frame(data, size), k);
  }

  lemma MoveFirst<T>(before: seq<T>, first: T, tail: seq<T>, k: nat)
    requires k <= |tail|
    ensures before + [first] + tail[..k] == before + ([first] + tail)[..k + 1]
  {
  }

  lemma DropAgain<T>(s: seq<T>, k: nat)
    requires k < |s|
    ensures s[1..][k..] == s[k + 1..]
  {
  }

  lemma ChunksUnfold(data: Data, size: nat, k: nat)
    requires size >= 26 && 0 < k < |Chunks(data, size)|
    requires AllNonzero(Chunks(data, size)[..k])
    ensures var chunk, tail := Bits26(data), Chunks(Next(data), size - 26);
      Chunks(data, size)[..k] == [chunk] + tail[..k - 1] && Chunks(data, size)[k] == tail[k - 1]
      && chunk != 0 && AllNonzero(tail[..k - 1])
  {
    var chunk, tail := Bits26(data), Chunks(Next(data), size - 26);
    assert Chunks(data, size)[..k] == [chunk] + tail[..k - 1];
    NonzeroTail(chunk, tail[..k - 1]);
  }

  lemma StopsAtFirst(data: Data, size: nat, quant: int, vector: seq<Word>, got: nat)
    requires Chunks(data, size)[0] == 0
    ensures Receive(Frame(data, size), quant, vector, got)
         == Received(vector, got, Frame(data, size)[1..])
  {
    if size < 26 {
      PayloadOfPack(Bits26(data), size);
    } else {
      PayloadOfFull(data);
    }
  }

  lemma ReceiveFullChunk(data: Data, size: nat, quant: int, vector: seq<Word>, got: nat)
    requires size >= 26 && Bits26(data) != 0 && |vector| < quant
    ensures Frame(data, size)[1..] == Frame(Next(data), size - 26)
    ensures Receive(Frame(data, size), quant, vector, got)
         == Receive(Frame(Next(data), size - 26), quant, vector + [Bits26(data)], got + 26)
  {
    PayloadOfFull(data);
    FrameUnfolds(data, size, []);
    assert Frame(data, size) == [Pack(Bits26(data), 26)] + Frame(Next(data), size - 26);
  }

  lemma {:induction false} MultipleOf26(data: Data, size: nat)
    requires size % 26 == 0
    ensures !AllNonzero(Chunks(data, size))
    decreases size
  {
    if size == 0 {
      EmptyChunk(data);
      assert Chunks(data, size)[0] == 0;
    } else {
      MultipleOf26(Next(data), size - 26);
      if AllNonzero(Chunks(data, size)) {
        NonzeroTail(Bits26(data), Chunks(Next(data), size - 26));
      }
    }
  }

  lemma EmptyChunk(data: Data)
    ensures Masked(Bits26(data), Mask(0)) == 0
  {
  }

  // ---- the chunks weigh out to the low bits --------------------------------------------

  function Grow64(mask: Data): (wider: Data) { (mask << 1) | 1 }

  function Mask64(n: nat): (mask: Data) {
    if n == 0 then 0 else Grow64(Mask64(n - 1))
  }

  /** The low bits of a value: all of it when n is 64 or more. */
  function LowBits(data: Data, n: nat): (low: Data) { Masked64(data, Mask64(n)) }

  function Masked64(data: Data, mask: Data): (low: Data) { data & mask }

  function Above(chunk: Word, rest: Data): (data: Data) { (rest << 26) | (chunk as Data) }

  /** The chunks, each weighted by 2^26 more than the one before. */
  function Weighted(chunks: seq<Word>): (data: Data) {
    if chunks == [] then 0 else Above(chunks[0], Weighted(chunks[1..]))
  }

  function Up26(mask: Data): (wider: Data) { (mask << 26) | 0x3FF_FFFF }

  function Up27(mask: Data): (wider: Data) { (mask << 27) | 0x7FF_FFFF }

  lemma GrowUp(mask: Data)
    ensures Grow64(Up26(mask)) == Up27(mask)
  {
  }

  lemma UpGrow(mask: Data)
    ensures Up26(Grow64(mask)) == Up27(mask)
  {
  }

  lemma UpGrows(mask: Data)
    ensures Grow64(Up26(mask)) == Up26(Grow64(mask))
  {
    GrowUp(mask);
    UpGrow(mask);
  }

  lemma {:induction false} Mask64Up(n: nat)
    requires n >= 26
    ensures Mask64(n) == Up26(Mask64(n - 26))
  {
    if n == 26 {
      assert Mask64(8) == 0xFF;
      assert Mask64(16) == 0xFFFF;
      assert Mask64(26) == 0x3FF_FFFF;
    } else {
      Mask64Up(n - 1);
      UpGrows(Mask64(n - 27));
    }
  }

  lemma GrowWidens(mask: Word)
    requires Masked(mask, 0x3FF_FFFF) == mask
    ensures (Grow(mask) as Data) == Grow64(mask as Data)
  {
  }

  lemma {:induction false} MaskWidens(n: nat)
    requires n <= 26
    ensures Mask(n) as Data == Mask64(n)
  {
    if n > 0 {
      MaskWidens(n - 1);
      NarrowMask(n - 1);
      GrowWidens(Mask(n - 1));
    }
  }

  lemma LastBits(data: Data, mask: Word)
    requires Masked(mask, 0x3FF_FFFF) == mask
    ensures Above(Masked(Bits26(data), mask), 0) == data & (mask as Data)
  {
  }

  lemma MaskedLast(data: Data, mask: Word)
    requires Masked(mask, 0x3FF_FFFF) == mask
    ensures Above(Masked(Bits26(data), mask), 0) == Masked64(data, mask as Data)
  {
    LastBits(data, mask);
  }

  lemma AndUp(data: Data, mask: Data)
    ensures data & Up26(mask) == Above(Bits26(data), Next(data) & mask)
  {
  }

  lemma MaskedUp(data: Data, mask: Data)
    ensures Masked64(data, Up26(mask)) == Above(Bits26(data), Masked64(Next(data), mask))
  {
    AndUp(data, mask);
  }

  lemma LowBitsUp(data: Data, n: nat)
    requires n >= 26
    ensures LowBits(data, n) == Above(Bits26(data), LowBits(Next(data), n - 26))
  {
    Mask64Up(n);
    MaskedUp(data, Mask64(n - 26));
  }

  lemma LowBitsLast(data: Data, n: nat)
    requires n < 26
    ensures LowBits(data, n) == Above(Masked(Bits26(data), Mask(n)), 0)
  {
    MaskWidens(n);
    NarrowMask(n);
    MaskedLast(data, Mask(n));
  }

  /** Whatever the size, and whatever bits lie above it, the weighted chunks are exactly the
      low bits of the value. */
  lemma {:induction false} WeightedIsLowBits(data: Data, size: nat)
    ensures Weighted(Chunks(data, size)) == LowBits(data, size)
    decreases size
  {
    if size < 26 {
      LowBitsLast(data, size);
    } else {
      WeightedIsLowBits(Next(data), size - 26);
      LowBitsUp(data, size);
    }
  }

  // ---- the two loops over registers ----------------------------------------------------

  lemma SplitFull(before: seq<Word>, rest: Data, left: nat)
    requires left >= 26
    ensures before + Split(rest, left)
         == before + [Pack(Bits26(rest), 26)] + Split(Next(rest), left - 26)
  {
  }

  datatype Outcome = Complete | TooBig | StillWaiting

  /** A package FIFO between a sender and a receiver. */
  class Link {
    var fifo: seq<Word>
    var starts: nat   // transmissions started

    constructor ()
      ensures fifo == [] && starts == 0
    {
      fifo, starts := [], 0;
    }

    /** Split a value into packages: 26 bits a package, what is left in the last. */
    static method AddMask(vector: array<Word>, data: Data, size: nat)
      requires vector.Length == Ints(size)
      modifies vector
      ensures vector[..] == Split(data, size)
    {
      var lastPackageSize := size % 26;
      var quantPackages := size / 26 + 1;
      var rest := data;
      ghost var left := size;
      for current := 1 to quantPackages + 1
        invariant current <= quantPackages ==> left == size - 26 * (current - 1)
        invariant current <= quantPackages ==>
          Split(data, size) == vector[..current - 1] + Split(rest, left)
        invariant current > quantPackages ==> Split(data, size) == vector[..]
      {
        ghost var before := vector[..current - 1];
        var quantBits := if current == quantPackages then lastPackageSize else 26;
        vector[current - 1] := Pack(Bits26(rest), quantBits);
        assert vector[..current] == before + [Pack(Bits26(rest), quantBits)];
        if current == quantPackages {
          assert left == quantBits && vector[..current] == vector[..];
        } else {
          SplitFull(before, rest, left);
          rest, left := Next(rest), left - 26;
        }
      }
    }

    /** Writing the FIFO register. */
    method Push(package: Word)
      requires |fifo| <= FIFO_DEPTH
      modifies this`fifo
      ensures fifo == if |old(fifo)| < FIFO_DEPTH then old(fifo) + [package] else old(fifo)
    {
      if |fifo| < FIFO_DEPTH {
        fifo := fifo + [package];
      }
    }

    /** Queue a command, package by package, and the end marker, and start the transmission.  Nothing
        leaves the FIFO before that, so a package that finds it full is waited for in vain; the end
        marker is written without a look, and lost if the packages have just filled the FIFO. */
    method SendCommand(data: Data, size: nat) returns (sent: bool)
      requires |fifo| <= FIFO_DEPTH
      modifies this
      ensures sent <==> |old(fifo)| + Ints(size) <= FIFO_DEPTH
      ensures |old(fifo)| + Ints(size) < FIFO_DEPTH ==> fifo == old(fifo) + Frame(data, size)
      ensures |old(fifo)| + Ints(size) == FIFO_DEPTH ==> fifo == old(fifo) + Split(data, size)
      ensures |old(fifo)| + Ints(size) > FIFO_DEPTH ==>
        |fifo| == FIFO_DEPTH && old(fifo) <= fifo <= old(fifo) + Split(data, size)
      ensures starts == old(starts) + if sent then 1 else 0
    {
      var vector := new Word[Ints(size)];
      AddMask(vector, data, size);
      for i := 0 to vector.Length
        invariant vector[..] == Split(data, size) && starts == old(starts)
        invariant fifo == old(fifo) + vector[..i] && |fifo| <= FIFO_DEPTH
      {
        if |fifo| == FIFO_DEPTH {
          assert vector[..i] <= vector[..];
          return false;
        }
        Push(vector[i]);
        assert vector[..i + 1] == vector[..i] + [vector[i]];
      }
      assert vector[..vector.Length] == vector[..];
      Push(END);
      starts := starts + 1;
      return true;
    }

    /** Take packages until the end marker, one chunk too many, or an empty FIFO. */
    method GetPackage(quant: int) returns (outcome: Outcome, vector: seq<Word>, size: nat)
      modifies this`fifo
      ensures Receive(old(fifo), quant, [], 0) ==
        match outcome
        case Complete => Received(vector, size, fifo)
        case TooBig => Overrun(vector, size, fifo)
        case StillWaiting => Waiting(vector, size)
      ensures outcome == StillWaiting ==> fifo == []
    {
      vector, size := [], 0;
      var package: Word := 1;
      while package != 0
        invariant Receive(old(fifo), quant, [], 0) == Receive(fifo, quant, vector, size)
        invariant package != 0
        decreases |fifo|
      {
        if fifo == [] {
          return StillWaiting, vector, size;
        }
        package := fifo[0];
        fifo := fifo[1..];
        var data := Payload(package);
        if data != 0 {
          ZeroHasNoData(package);
          vector := vector + [data];
          size := size + Length(package);
          if |vector| > quant {
            return TooBig, vector, size;
          }
        } else {
          return Complete, vector, size;
        }
      }
      assert false;
    }
  }

  lemma ZeroHasNoData(package: Word)
    requires Payload(package) != 0
    ensures package != 0
  {
    PayloadOfEnd();
  }
}
