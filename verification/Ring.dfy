/** The 2048-byte ring shared by foreground code and the interrupt routine.
    A ring is the pair of indices `outIdx` (consumer) and `inIdx` (producer) over a
    fixed buffer; equal indices mean empty, so one slot always stays free.

    Its history view numbers every byte ever put in.  Byte k lives in slot k modulo the
    length from the moment it is put in until it is taken out. */
module Ring {

  const BUF_LEN: nat := 2048

  type Byte = bv8

  /** The slot of byte k: the remainder of k by the length, by repeated subtraction. */
  function Slot(k: nat): (i: nat)
    ensures i < BUF_LEN
  {
    if k < BUF_LEN then k else Slot(k - BUF_LEN)
  }

  lemma {:induction false} SlotIsRemainder(k: nat)
    ensures Slot(k) == k % 2048
    decreases k
  {
    if k >= BUF_LEN {
      SlotIsRemainder(k - BUF_LEN);
    }
  }

  /** Advancing a wrapped index is advancing the count it stands for. */
  lemma {:induction false} SlotAdvance(k: nat, n: nat)
    ensures Slot(Slot(k) + n) == Slot(k + n)
    decreases k
  {
    if k >= BUF_LEN {
      SlotAdvance(k - BUF_LEN, n);
    }
  }

  /** The spin tests of read and write: an index that moved by fewer than a whole turn
      equals its snapshot exactly when it did not move. */
  lemma NoFullCircle(snapshot: nat, now: nat)
    requires snapshot <= now < snapshot + BUF_LEN
    ensures Slot(now) == Slot(snapshot) <==> now == snapshot
  {
    SlotIsRemainder(snapshot);
    SlotIsRemainder(now);
  }

  /** The interrupt routine's test for a full receive ring. */
  lemma FullTest(taken: nat, put: nat)
    requires taken <= put < taken + BUF_LEN
    ensures Slot(Slot(put) + 1) == Slot(taken) <==> put - taken == BUF_LEN - 1
  {
    SlotAdvance(put, 1);
    SlotIsRemainder(taken);
    SlotIsRemainder(put + 1);
  }

  predicate Index(i: int) { 0 <= i < BUF_LEN }

  /** Number of bytes between the two indices, going up and around. */
  function Used(outIdx: nat, inIdx: nat): (n: nat)
    requires Index(outIdx) && Index(inIdx)
  {
    if outIdx <= inIdx then inIdx - outIdx else inIdx + BUF_LEN - outIdx
  }

  /** The indices of a ring that holds bytes number `taken` to `put` are that far apart. */
  lemma UsedIsCount(taken: nat, put: nat)
    requires taken <= put < taken + BUF_LEN
    ensures Used(Slot(taken), Slot(put)) == put - taken
  {
    SlotIsRemainder(taken);
    SlotIsRemainder(put);
  }

  /** The bytes held, oldest first, as the indices delimit them. */
  function Contents(buf: seq<Byte>, outIdx: nat, inIdx: nat): (bytes: seq<Byte>)
    requires |buf| == BUF_LEN && Index(outIdx) && Index(inIdx)
  {
    if outIdx <= inIdx then buf[outIdx..inIdx] else buf[outIdx..] + buf[..inIdx]
  }

  /** Of the bytes `history` put in so far, the first `taken` are out and the rest are in `buf`. */
  ghost predicate Holds(buf: array<Byte>, history: seq<Byte>, taken: nat)
    reads buf
  {
    && buf.Length == BUF_LEN
    && taken <= |history| < taken + BUF_LEN
    && forall k :: taken <= k < |history| ==> buf[Slot(k)] == history[k]
  }

  /** `data` lies in the slots of the bytes numbered from `first` on. */
  ghost predicate StoredAt(buf: array<Byte>, first: nat, data: seq<Byte>)
    requires buf.Length == BUF_LEN
    reads buf
  {
    forall k :: first <= k < first + |data| ==> buf[Slot(k)] == data[k - first]
  }

  /** The index view agrees with the history view. */
  lemma IndicesDelimitTheRest(buf: array<Byte>, history: seq<Byte>, taken: nat)
    requires Holds(buf, history, taken)
    ensures Used(Slot(taken), Slot(|history|)) == |history| - taken
    ensures Contents(buf[..], Slot(taken), Slot(|history|)) == history[taken..]
  {
    UsedIsCount(taken, |history|);
    forall i | 0 <= i < |history| - taken
      ensures Contents(buf[..], Slot(taken), Slot(|history|))[i] == history[taken..][i]
    {
      ContentsAt(buf[..], Slot(taken), Slot(|history|), i);
      SlotAdvance(taken, i);
      assert history[taken + i] == buf[Slot(taken + i)];
    }
  }

  lemma ContentsAt(buf: seq<Byte>, outIdx: nat, inIdx: nat, i: nat)
    requires |buf| == BUF_LEN && Index(outIdx) && Index(inIdx) && i < Used(outIdx, inIdx)
    ensures Contents(buf, outIdx, inIdx)[i] == buf[Slot(outIdx + i)]
  {
    if outIdx <= inIdx {
      assert buf[outIdx..inIdx][i] == buf[outIdx + i];
    } else {
      JoinedAt(buf, outIdx, inIdx, i);
    }
  }

  lemma JoinedAt<T>(buf: seq<T>, from: nat, to: nat, i: nat)
    requires to <= from <= |buf| && i < |buf| - from + to
    ensures (buf[from..] + buf[..to])[i] == buf[if from + i < |buf| then from + i else from + i - |buf|]
  {
  }

  /** A piece taken off the front of what is left extends the part already taken. */
  lemma PrefixExtends<T>(data: seq<T>, done: nat, n: nat)
    requires done + n <= |data|
    ensures data[..done] + data[done..][..n] == data[..done + n]
  {
  }

  /** If `done` with `left` to go makes `before` and all of `data`, then `done` ends in a prefix of `data`. */
  lemma PrefixOfJoin<T>(before: seq<T>, data: seq<T>, done: seq<T>, left: seq<T>)
    requires done + left == before + data && |before| <= |done|
    ensures done == before + data[..|data| - |left|]
  {
    assert done == (done + left)[..|done|];
  }

  /** Two adjoining pieces make one. */
  lemma SuffixExtends<T>(from: nat, middle: seq<T>, all: seq<T>)
    requires from <= |middle| && middle <= all
    ensures middle[from..] + all[|middle|..] == all[from..]
  {
  }

  /** What the writer takes for free space: the slots from the producer index up to the
      buffer's end or to one short of the consumer index. */
  function FreeRun(inIdx: nat, outIdx: nat): (n: nat)
    requires Index(inIdx) && Index(outIdx)
  {
    if inIdx < outIdx then outIdx - 1 - inIdx
    else if outIdx > 0 then BUF_LEN - inIdx
    else BUF_LEN - 1 - inIdx
  }

  /** What the reader takes for available: the bytes from the consumer index up to the
      producer index or to the buffer's end. */
  function ReadyRun(inIdx: nat, outIdx: nat): (n: nat)
    requires Index(inIdx) && Index(outIdx)
  {
    if inIdx >= outIdx then inIdx - outIdx else BUF_LEN - outIdx
  }

  /** Computed from a stale consumer count `stale`, the free run never overruns what is free
      now; it is zero exactly when the ring was full at the snapshot. */
  lemma FreeRunIsSafe(stale: nat, taken: nat, put: nat)
    requires stale <= taken <= put < stale + BUF_LEN
    ensures var n := FreeRun(Slot(put), Slot(stale));
            && Slot(put) + n <= BUF_LEN
            && put + n < stale + BUF_LEN <= taken + BUF_LEN
            && (n == 0 <==> put - stale == BUF_LEN - 1)
  {
    UsedIsCount(stale, put);
  }

  /** Computed from a stale producer count `stale`, the ready run never reaches past what is
      held now; it is zero exactly when the ring was empty at the snapshot. */
  lemma ReadyRunIsSafe(taken: nat, stale: nat, put: nat)
    requires taken <= stale <= put < taken + BUF_LEN
    ensures var n := ReadyRun(Slot(stale), Slot(taken));
            && Slot(taken) + n <= BUF_LEN
            && taken + n <= stale
            && (n == 0 <==> stale == taken)
  {
    UsedIsCount(taken, stale);
  }

  /** Within a run that does not wrap, slots are consecutive. */
  lemma SlotInRun(k: nat, i: nat)
    requires Slot(k) + i < BUF_LEN
    ensures Slot(k + i) == Slot(k) + i
  {
    SlotAdvance(k, i);
  }

  /** Within one turn, distinct bytes have distinct slots. */
  lemma SlotsDiffer(first: nat, k: nat)
    requires k < first + BUF_LEN
    ensures forall i :: first <= i < k ==> Slot(i) != Slot(k)
  {
    forall i | first <= i < k
      ensures Slot(i) != Slot(k)
    {
      NoFullCircle(i, k);
    }
  }
}
