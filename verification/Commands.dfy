/** The commands of the air protocol: how their fields are laid out, and how a received command
    is told from the others. */
module Commands {
  import opened Packages
  import Crc16

  const ACK_SIZE := 18
  const NAK_SIZE := 8
  const QUERY_SIZE := 22
  const QUERY_ADJUST_SIZE := 9
  const QUERY_REP_SIZE := 4
  const REQ_RN_SIZE := 40
  const RN_CRC_SIZE := 32
  const RN16_SIZE := 16
  const KILL_SIZE := 59
  const READ_SIZE := 57
  const WRITE_SIZE := 58

  const ACK_LABEL := 0
  const KILL_LABEL := 1
  const LOCK_LABEL := 2
  const NAK_LABEL := 3
  const QUERY_ADJUST_LABEL := 4
  const QUERY_REP_LABEL := 5
  const QUERY_LABEL := 6
  const READ_LABEL := 7
  const REQ_RN_LABEL := 8
  const RN16_LABEL := 9
  const SELECT_LABEL := 10
  const WRITE_LABEL := 11
  const RN_CRC_LABEL := 12
  const NO_LABEL := -1

  // ---- check values --------------------------------------------------------------------

  function ByteOf(word: Word, k: nat): (b: bv8)
    requires k < 4
  {
    Crc16.ByteOf(word, k)
  }

  /** The CRC-16 of the three low bytes of a word. */
  function Crc24(word: Word): (crc: bv16) {
    Crc16.Crc([ByteOf(word, 0), ByteOf(word, 1), ByteOf(word, 2)])
  }

  /** It is what the table-driven routine returns for that word and three bytes. */
  lemma Crc24IsComputed(word: Word)
    ensures Crc24(word) == Crc16.Crc(Crc16.LowBytes(word, 3))
  {
    assert Crc16.LowBytes(word, 3) == [ByteOf(word, 0), ByteOf(word, 1), ByteOf(word, 2)];
  }

  /** What a program finds in its CRC table: what `crc_16_ccitt_init` puts there, or the zeros a program
      starts with that never calls it. */
  datatype Table = Filled | Blank

  ghost predicate HoldsTable(table: Crc16.CrcTable, t: Table)
    reads table.table
  {
    table.table.Length == 256 && match t case Filled => table.Ready() case Blank => Crc16.Blank(table.table[..])
  }

  /** What a program with such a table takes for the CRC of three bytes. */
  function TableCrc(t: Table, word: Word): (crc: bv16) { if t.Filled? then Crc24(word) else 0 }

  method ComputeCrc24(table: Crc16.CrcTable, word: Word, ghost t: Table) returns (crc: bv16)
    requires HoldsTable(table, t)
    ensures crc == TableCrc(t, word)
  {
    crc := table.Compute(word, 3);
    Crc24IsComputed(word);
  }

  function Crc5Steps(remainder: bv8, n: nat): (r: bv8)
    decreases n
  {
    if n == 0 then remainder
    else Crc5Steps((if remainder & 0x80 != 0 then remainder ^ 0x29 else remainder) << 1, n - 1)
  }

  /** The 5-bit check never looks at its message. */
  function Crc5(message: bv8): (crc: bv8) { Crc5Steps(0x9, 8) >> 3 }

  lemma Crc5IsConstant(message: bv8)
    ensures Crc5(message) == 12
  {
  }

  // ---- validators ----------------------------------------------------------------------

  function Field(w: Word, shift: nat, mask: Word): (f: Word)
    requires shift <= 32
  {
    (w >> shift) & mask
  }

  predicate Sized(size: int, expected: int) { size == expected || size == expected + 1 }

  /** How many packages the validators look at for a given size. */
  function Reads(size: int): (n: nat) {
    if Sized(size, KILL_SIZE) || Sized(size, READ_SIZE) || Sized(size, WRITE_SIZE) then 3
    else if Sized(size, REQ_RN_SIZE) || Sized(size, RN_CRC_SIZE) then 2
    else if Sized(size, ACK_SIZE) || Sized(size, NAK_SIZE) || Sized(size, QUERY_SIZE)
      || Sized(size, QUERY_ADJUST_SIZE) || Sized(size, QUERY_REP_SIZE) then 1
    else 0
  }

  predicate IsAck(p: seq<Word>, size: int)
    requires |p| >= Reads(size)
  {
    Sized(size, ACK_SIZE) && Field(p[0], 16, 3) == 1
  }

  predicate IsNak(p: seq<Word>, size: int)
    requires |p| >= Reads(size)
  {
    Sized(size, NAK_SIZE) && Field(p[0], 0, 0xFF) == 0xC0
  }

  predicate IsQuery(p: seq<Word>, size: int)
    requires |p| >= Reads(size)
  {
    && Sized(size, QUERY_SIZE) && Field(p[0], 18, 0xF) == 8
    && Field(p[0], 0, 0x1F) == Crc5(Field(p[0], 5, 0xFF) as bv8) as Word
  }

  function Widened(crc: bv16): (w: Word) { crc as Word }

  function WithCommand(rn: Word): (message: Word) { 0xC1_0000 | rn }

  /** The validator takes the rn of a REQ_RN from the first package alone. */
  predicate IsReqRn(own: Table, p: seq<Word>, size: int)
    requires |p| >= Reads(size)
  {
    && Sized(size, REQ_RN_SIZE) && Field(p[1], 6, 0xFF) == 0xC1
    && Field(p[0], 0, 0xFFFF) == Widened(TableCrc(own, WithCommand(Field(p[0], 16, 0xFFFF))))
  }

  /** The rn of an RN_CRC: six bits from the second package, ten from the first. */
  function ReceivedRn(p0: Word, p1: Word): (rn: Word) {
    JoinRn(p1, Field(p0, 16, 0x3FF))
  }

  function JoinRn(p1: Word, ten: Word): (rn: Word) { ((p1 & 0x3F) << 10) | ten }

  predicate IsRnCrc(own: Table, p: seq<Word>, size: int)
    requires |p| >= Reads(size)
  {
    && Sized(size, RN_CRC_SIZE)
    && Field(p[0], 0, 0xFFFF) == Widened(TableCrc(own, ReceivedRn(p[0], p[1])))
  }

  predicate IsKill(p: seq<Word>, size: int)
    requires |p| >= Reads(size)
  {
    Sized(size, KILL_SIZE) && (((p[2] & 0xEF) << 1) | Field(p[1], 25, 1)) == 0xC4
  }

  predicate IsQueryAdjust(p: seq<Word>, size: int)
    requires |p| >= Reads(size)
  {
    Sized(size, QUERY_ADJUST_SIZE) && Field(p[0], 5, 0xF) == 9
  }

  predicate IsQueryRep(p: seq<Word>, size: int)
    requires |p| >= Reads(size)
  {
    Sized(size, QUERY_REP_SIZE) && Field(p[0], 2, 3) == 0
  }

  predicate IsRead(p: seq<Word>, size: int)
    requires |p| >= Reads(size)
  {
    Sized(size, READ_SIZE) && (((p[2] & 7) << 5) | (p[1] & 0x1F)) == 0xC2
  }

  predicate IsWrite(p: seq<Word>, size: int)
    requires |p| >= Reads(size)
  {
    Sized(size, WRITE_SIZE) && Field(p[2], 2, 0xFF) == 0xC3
  }

  predicate IsRn16(size: int) { Sized(size, RN16_SIZE) }

  /** The chain of validators, in the source's order, of a program with such a CRC table.  The ones
      for LOCK and SELECT are stubs that refuse everything. */
  function Label(own: Table, p: seq<Word>, size: int): (found: int)
    requires |p| >= Reads(size)
  {
    if IsAck(p, size) then ACK_LABEL
    else if IsNak(p, size) then NAK_LABEL
    else if IsQuery(p, size) then QUERY_LABEL
    else if IsReqRn(own, p, size) then REQ_RN_LABEL
    else if IsRnCrc(own, p, size) then RN_CRC_LABEL
    else if IsKill(p, size) then KILL_LABEL
    else if IsQueryAdjust(p, size) then QUERY_ADJUST_LABEL
    else if IsQueryRep(p, size) then QUERY_REP_LABEL
    else if IsRead(p, size) then READ_LABEL
    else if IsWrite(p, size) then WRITE_LABEL
    else if IsRn16(size) then RN16_LABEL
    else NO_LABEL
  }

  // ---- builders ------------------------------------------------------------------------

  function AckData(rn: Word): (data: Data) { (0x1_0000 | (rn & 0xFFFF)) as Data }

  const NAK_DATA: Data := 0xC0

  function QueryFields(dr: bv8, m: bv8, trext: bv8, sel: bv8, session: bv8, target: bv8, q: bv8): (f: Data) {
    0x1_0000 | ((dr as Data) << 12) | ((m as Data) << 10) | ((trext as Data) << 9)
    | ((sel as Data) << 7) | ((session as Data) << 5) | ((target as Data) << 4) | (q as Data)
  }

  function WithCrc5(fields: Data): (data: Data) {
    (fields << 5) | (Crc5((fields & 0xFF) as bv8) as Data)
  }

  function QueryAdjustData(session: bv8, updn: bv8): (data: Data) {
    0x120 | ((session as Data) << 3) | (updn as Data)
  }

  function QueryRepData(session: bv8): (data: Data) { session as Data }

  function Rn16Data(random: bv16): (data: Data) { random as Data }

  /** Both halves of an RN_CRC in a signed 32-bit word, which is then widened to 64 bits. */
  function RnCrcWord(rn: Word, crc: bv16): (w: Word) { ((rn & 0xFFFF) << 16) | (crc as Word) }

  function SignBits(w: Word): (high: Data) {
    if w & 0x8000_0000 != 0 then 0xFFFF_FFFF_0000_0000 else 0
  }

  function SignExtend(w: Word): (data: Data) { Beside(w, SignBits(w)) }

  function Beside(w: Word, high: Data): (data: Data) { (w as Data) | high }

  function RnCrcData(t: Table, rn: Word): (data: Data) { SignExtend(RnCrcWord(rn, TableCrc(t, rn))) }

  function ReqRnWord(rn: Word, crc: bv16): (data: Data) {
    (((0xC1_0000 | (rn & 0xFFFF)) as Data) << 16) | (crc as Data)
  }

  function ReqRnData(t: Table, rn: Word): (data: Data) { ReqRnWord(rn, TableCrc(t, WithCommand(rn & 0xFFFF))) }

  // The labels under which the commands with fields of their own are heard: the field widths of the
  // protocol meet each condition, but for a QUERY_REP of session 0.

  function QueryHeardAs(dr: bv8, m: bv8, trext: bv8, sel: bv8): (expected: int) {
    if dr & 0x0E == 0 && m & 0x38 == 0 && trext & 0x70 == 0 && sel & 0xC0 == 0 then QUERY_LABEL else NO_LABEL
  }

  function QueryAdjustHeardAs(session: bv8, updn: bv8): (expected: int) {
    if ((session << 3) | updn) & 0xC0 == 0 then QUERY_ADJUST_LABEL else NO_LABEL
  }

  function QueryRepHeardAs(session: bv8): (expected: int) {
    if session & 0xF != 0 && session & 0xC == 0 then QUERY_REP_LABEL else NO_LABEL
  }

  /** The struct a builder fills in. */
  class Command {
    var size: nat
    var data: Data

    method BuildAck(rn: Word)
      modifies this
      ensures size == ACK_SIZE && data == AckData(rn)
      ensures HeardByAll(data, size, 1, ACK_LABEL) && Chunks(data, size) == [0x1_0000 | (rn & 0xFFFF)]
    {
      data := (((1 & 3) << 16) | (rn & 0xFFFF)) as Data;
      size := ACK_SIZE;
      AckIsHeard(Filled, rn, 1);
      AckIsHeard(Blank, rn, 1);
    }

    method BuildNak()
      modifies this
      ensures size == NAK_SIZE && data == NAK_DATA && HeardByAll(data, size, 1, NAK_LABEL)
    {
      NakIsHeard(Filled, 1);
      NakIsHeard(Blank, 1);
      data := 0xC0;
      size := NAK_SIZE;
    }

    method BuildQuery(dr: bv8, m: bv8, trext: bv8, sel: bv8, session: bv8, target: bv8, q: bv8)
      modifies this
      ensures size == QUERY_SIZE
      ensures data == WithCrc5(QueryFields(dr, m, trext, sel, session, target, q))
      ensures HeardByAll(data, size, 1, QueryHeardAs(dr, m, trext, sel))
    {
      data := 0;
      data := data | (8 << 13);
      data := data | ((dr as Data) << 12);
      data := data | ((m as Data) << 10);
      data := data | ((trext as Data) << 9);
      data := data | ((sel as Data) << 7);
      data := data | ((session as Data) << 5);
      data := data | ((target as Data) << 4);
      data := data | (q as Data);
      var crc := Crc5((data & 0xFF) as bv8);
      data := data << 5;
      data := data | (crc as Data);
      size := QUERY_SIZE;
      QueryIsHeard(Filled, dr, m, trext, sel, session, target, q, 1);
      QueryIsHeard(Blank, dr, m, trext, sel, session, target, q, 1);
    }

    method BuildQueryAdjust(session: bv8, updn: bv8)
      modifies this
      ensures size == QUERY_ADJUST_SIZE && data == QueryAdjustData(session, updn)
      ensures HeardByAll(data, size, 1, QueryAdjustHeardAs(session, updn))
    {
      data := 0;
      data := data | (9 << 5);
      data := data | ((session as Data) << 3);
      data := data | (updn as Data);
      size := QUERY_ADJUST_SIZE;
      QueryAdjustIsHeard(Filled, session, updn, 1);
      QueryAdjustIsHeard(Blank, session, updn, 1);
    }

    method BuildQueryRep(session: bv8)
      modifies this
      ensures size == QUERY_REP_SIZE && data == QueryRepData(session)
      ensures HeardByAll(data, size, 1, QueryRepHeardAs(session))
    {
      data := 0;
      data := data | (0 << 2);
      data := data | (session as Data);
      size := QUERY_REP_SIZE;
      QueryRepIsHeard(Filled, session, 1);
      QueryRepIsHeard(Blank, session, 1);
    }

    method BuildRnCrc(rn: Word, table: Crc16.CrcTable, ghost t: Table)
      requires HoldsTable(table, t)
      modifies this
      ensures size == RN_CRC_SIZE && data == RnCrcData(t, rn)
    {
      var crc := ComputeCrc24(table, rn, t);
      data := SignExtend(RnCrcWord(rn, crc));
      size := RN_CRC_SIZE;
    }

    method BuildReqRn(rn: Word, table: Crc16.CrcTable, ghost t: Table)
      requires HoldsTable(table, t)
      modifies this
      ensures size == REQ_RN_SIZE && data == ReqRnData(t, rn)
    {
      var crc := ComputeCrc24(table, WithCommand(rn & 0xFFFF), t);
      data := ReqRnWord(rn, crc);
      size := REQ_RN_SIZE;
    }
  }

  // ---- what is heard when a command is sent --------------------------------------------

  /** Sent as a frame and received with room for quant packages, the command is given this
      label by a program with such a CRC table of its own; if it is a label at all, chunks and
      size come through and the frame is used up. */
  predicate Heard(own: Table, data: Data, size: nat, quant: nat, expected: int) {
    var r := Receive(Frame(data, size), quant, [], 0);
    && r.Received? && |r.vector| >= Reads(r.size) && Label(own, r.vector, r.size) == expected
    && (expected != NO_LABEL ==> r == Received(Chunks(data, size), size, []))
  }

  /** Most commands carry no CRC-16, and so are heard alike by all programs. */
  predicate HeardByAll(data: Data, size: nat, quant: nat, expected: int) {
    Heard(Filled, data, size, quant, expected) && Heard(Blank, data, size, quant, expected)
  }

  lemma HeardWhole(own: Table, data: Data, size: nat, quant: nat)
    requires AllNonzero(Chunks(data, size)) && Ints(size) <= quant
    requires Ints(size) >= Reads(size)
    ensures |Chunks(data, size)| == Ints(size)
    ensures Heard(own, data, size, quant, Label(own, Chunks(data, size), size))
  {
    ChunksLength(data, size);
    RoundTripExactlyWhen(data, size, quant, []);
    assert Frame(data, size) + [] == Frame(data, size);
  }

  lemma CutIsNothing(own: Table, p: seq<Word>, size: nat)
    requires size == 0 || size == 26
    ensures Reads(size) == 0 && Label(own, p, size) == NO_LABEL
  {
  }

  /** A zero chunk cuts the command to a multiple of 26 bits, which no validator takes. */
  lemma HeardCut(own: Table, data: Data, size: nat, quant: nat, k: nat)
    requires k < |Chunks(data, size)| && k <= 1 && k <= quant && Chunks(data, size)[k] == 0
    requires AllNonzero(Chunks(data, size)[..k])
    ensures Heard(own, data, size, quant, NO_LABEL)
  {
    StopsAtZero(data, size, quant, [], 0, k);
    CutIsNothing(own, [] + Chunks(data, size)[..k], 26 * k);
  }

  lemma OneChunk(data: Data, size: nat, mask: Word)
    requires size < 26 && mask == Mask(size)
    ensures Chunks(data, size) == [Masked(Bits26(data), mask)]
  {
  }

  lemma HeardOne(own: Table, data: Data, size: nat, quant: nat, chunk: Word, expected: int)
    requires size < 26 && chunk == Masked(Bits26(data), Mask(size)) && quant >= 1
    requires Reads(size) <= 1
    requires expected == if chunk == 0 then NO_LABEL else Label(own, [chunk], size)
    ensures Heard(own, data, size, quant, expected)
  {
    OneChunk(data, size, Mask(size));
    if chunk == 0 {
      HeardCut(own, data, size, quant, 0);
    } else {
      HeardWhole(own, data, size, quant);
    }
  }

  lemma SmallMasks()
    ensures Mask(4) == 0xF && Mask(6) == 0x3F && Mask(8) == 0xFF && Mask(9) == 0x1FF
    ensures Mask(14) == 0x3FFF && Mask(16) == 0xFFFF && Mask(18) == 0x3_FFFF
    ensures Mask(22) == 0x3F_FFFF
  {
  }

  lemma AckBits(rn: Word)
    ensures Masked(Bits26(AckData(rn)), 0x3_FFFF) == 0x1_0000 | (rn & 0xFFFF)
  {
  }

  lemma AckFields(rn: Word, chunk: Word)
    requires chunk == 0x1_0000 | (rn & 0xFFFF)
    ensures chunk != 0 && Field(chunk, 16, 3) == 1
  {
  }

  /** Every ACK is heard as an ACK, and carries its rn. */
  lemma AckIsHeard(own: Table, rn: Word, quant: nat)
    requires quant >= 1
    ensures Heard(own, AckData(rn), ACK_SIZE, quant, ACK_LABEL)
    ensures Chunks(AckData(rn), ACK_SIZE) == [0x1_0000 | (rn & 0xFFFF)]
  {
    var chunk := 0x1_0000 | (rn & 0xFFFF);
    SmallMasks();
    AckBits(rn);
    AckFields(rn, chunk);
    OneChunk(AckData(rn), ACK_SIZE, 0x3_FFFF);
    HeardOne(own, AckData(rn), ACK_SIZE, quant, chunk, ACK_LABEL);
  }

  lemma NakIsHeard(own: Table, quant: nat)
    requires quant >= 1
    ensures Heard(own, NAK_DATA, NAK_SIZE, quant, NAK_LABEL)
  {
    SmallMasks();
    NakBits();
    HeardOne(own, NAK_DATA, NAK_SIZE, quant, 0xC0, NAK_LABEL);
  }

  lemma NakBits()
    ensures Masked(Bits26(NAK_DATA), 0xFF) == 0xC0 && Field(0xC0, 0, 0xFF) == 0xC0
  {
  }

  lemma Rn16Bits(random: bv16)
    ensures Masked(Bits26(Rn16Data(random)), 0xFFFF) == random as Word
  {
  }

  /** An RN16 is heard exactly when it is not zero. */
  lemma Rn16IsHeard(own: Table, random: bv16, quant: nat)
    requires quant >= 1
    ensures Heard(own, Rn16Data(random), RN16_SIZE, quant, if random != 0 then RN16_LABEL else NO_LABEL)
    ensures Chunks(Rn16Data(random), RN16_SIZE) == [random as Word]
  {
    SmallMasks();
    Rn16Bits(random);
    OneChunk(Rn16Data(random), RN16_SIZE, 0xFFFF);
    assert (random as Word == 0) == (random == 0);
    HeardOne(own, Rn16Data(random), RN16_SIZE, quant, random as Word,
             if random != 0 then RN16_LABEL else NO_LABEL);
  }

  lemma QueryAdjustBits(session: bv8, updn: bv8, chunk: Word)
    requires chunk == Masked(Bits26(QueryAdjustData(session, updn)), 0x1FF)
    ensures chunk != 0 && Field(chunk, 0, 0xFF) != 0xC0
    ensures Field(chunk, 5, 0xF) == 9 <==> ((session << 3) | updn) & 0xC0 == 0
  {
  }

  /** A QUERY_ADJUST shares its size with NAK's tolerance, but NAK never claims it: it keeps its
      label exactly when session and updn leave bits 6 and 7 clear, as the two-bit sessions and
      three-bit updns of the protocol do. */
  lemma QueryAdjustIsHeard(own: Table, session: bv8, updn: bv8, quant: nat)
    requires quant >= 1
    ensures Heard(own, QueryAdjustData(session, updn), QUERY_ADJUST_SIZE, quant,
                  QueryAdjustHeardAs(session, updn))
  {
    var chunk := Masked(Bits26(QueryAdjustData(session, updn)), 0x1FF);
    SmallMasks();
    QueryAdjustBits(session, updn, chunk);
    HeardOne(own, QueryAdjustData(session, updn), QUERY_ADJUST_SIZE, quant, chunk,
             QueryAdjustHeardAs(session, updn));
  }

  lemma QueryRepBits(session: bv8)
    ensures Masked(Bits26(QueryRepData(session)), 0xF) == (session & 0xF) as Word
    ensures Field((session & 0xF) as Word, 2, 3) == 0 <==> session & 0xC == 0
  {
  }

  /** A QUERY_REP with session 0 has no bit set, so its only package reads as an end marker. */
  lemma QueryRepIsHeard(own: Table, session: bv8, quant: nat)
    requires quant >= 1
    ensures Heard(own, QueryRepData(session), QUERY_REP_SIZE, quant,
                  QueryRepHeardAs(session))
  {
    var chunk := (session & 0xF) as Word;
    SmallMasks();
    QueryRepBits(session);
    assert (chunk == 0) == (session & 0xF == 0);
    HeardOne(own, QueryRepData(session), QUERY_REP_SIZE, quant, chunk,
             QueryRepHeardAs(session));
  }

  lemma QueryBits(f: Data, chunk: Word)
    requires chunk == Masked(Bits26((f << 5) | 12), 0x3F_FFFF) && f & 0x1_0000 != 0
    ensures chunk != 0 && Field(chunk, 0, 0x1F) == 12
    ensures Field(chunk, 18, 0xF) == 8 <==> f & 0xE000 == 0
  {
  }

  lemma QueryFieldBits(dr: bv8, m: bv8, trext: bv8, sel: bv8, session: bv8, target: bv8, q: bv8)
    ensures var f := QueryFields(dr, m, trext, sel, session, target, q);
      && f & 0x1_0000 != 0
      && (f & 0xE000 == 0
          <==> dr & 0x0E == 0 && m & 0x38 == 0 && trext & 0x70 == 0 && sel & 0xC0 == 0)
  {
  }

  lemma WithCrc5Is(f: Data)
    ensures WithCrc5(f) == (f << 5) | 12
  {
    Crc5IsConstant((f & 0xFF) as bv8);
  }

  lemma FieldsAreHeard(own: Table, f: Data, quant: nat)
    requires quant >= 1 && f & 0x1_0000 != 0
    ensures Heard(own, WithCrc5(f), QUERY_SIZE, quant, if f & 0xE000 == 0 then QUERY_LABEL else NO_LABEL)
  {
    var chunk := Masked(Bits26(WithCrc5(f)), 0x3F_FFFF);
    WithCrc5Is(f);
    QueryBits(f, chunk);
    QueryLabel(own, chunk);
    SmallMasks();
    HeardOne(own, WithCrc5(f), QUERY_SIZE, quant, chunk, if f & 0xE000 == 0 then QUERY_LABEL else NO_LABEL);
  }

  lemma QueryLabel(own: Table, chunk: Word)
    requires Field(chunk, 0, 0x1F) == 12
    ensures Label(own, [chunk], QUERY_SIZE)
         == if Field(chunk, 18, 0xF) == 8 then QUERY_LABEL else NO_LABEL
  {
    Crc5IsConstant(Field(chunk, 5, 0xFF) as bv8);
  }

  /** A QUERY is heard as a QUERY exactly when its fields stay clear of the command code; the
      one-bit dr and trext and two-bit m and sel of the protocol do. */
  lemma QueryIsHeard(own: Table, dr: bv8, m: bv8, trext: bv8, sel: bv8, session: bv8, target: bv8, q: bv8,
                     quant: nat)
    requires quant >= 1
    ensures Heard(own, WithCrc5(QueryFields(dr, m, trext, sel, session, target, q)), QUERY_SIZE, quant,
                  QueryHeardAs(dr, m, trext, sel))
  {
    QueryFieldBits(dr, m, trext, sel, session, target, q);
    FieldsAreHeard(own, QueryFields(dr, m, trext, sel, session, target, q), quant);
  }

  // ---- commands protected by the CRC ---------------------------------------------------

  lemma TwoChunks(data: Data, size: nat, mask: Word)
    requires 26 <= size < 52 && mask == Mask(size - 26)
    ensures Chunks(data, size) == [Bits26(data), Masked(Bits26(Next(data)), mask)]
  {
    OneChunk(Next(data), size - 26, mask);
  }

  lemma HeardTwo(own: Table, data: Data, size: nat, quant: nat, low: Word, high: Word, expected: int)
    requires 26 <= size < 52 && quant >= 2 && Reads(size) <= 2
    requires low == Bits26(data) && high == Masked(Bits26(Next(data)), Mask(size - 26))
    requires expected == if low == 0 || high == 0 then NO_LABEL else Label(own, [low, high], size)
    ensures Heard(own, data, size, quant, expected)
  {
    TwoChunks(data, size, Mask(size - 26));
    if low == 0 {
      HeardCut(own, data, size, quant, 0);
    } else if high == 0 {
      HeardCut(own, data, size, quant, 1);
    } else {
      HeardWhole(own, data, size, quant);
    }
  }

  lemma Byte0(w: Word)
    ensures ByteOf(w, 0) == (w & 0xFF) as bv8
  {
  }

  lemma Byte1(w: Word)
    ensures ByteOf(w, 1) == ((w >> 8) & 0xFF) as bv8
  {
  }

  lemma Byte2(w: Word)
    ensures ByteOf(w, 2) == ((w >> 16) & 0xFF) as bv8
  {
  }

  function Low16(w: Word): (low: Word) { w & 0xFFFF }

  lemma LowByte0(w: Word)
    ensures ByteOf(Low16(w), 0) == ByteOf(w, 0)
  {
    Byte0(w);
    Byte0(Low16(w));
  }

  lemma LowByte1(w: Word)
    ensures ByteOf(Low16(w), 1) == ByteOf(w, 1)
  {
    Byte1(w);
    Byte1(Low16(w));
  }

  lemma LowByte2(w: Word)
    ensures ByteOf(Low16(w), 2) == 0
  {
    Byte2(Low16(w));
  }

  lemma ThirdByte(w: Word)
    ensures ByteOf(w, 2) == 0 <==> w & 0xFF_0000 == 0
  {
    Byte2(w);
  }

  lemma BytesMatch(a: Word, b: Word)
    requires (a & 0xFF) as bv8 == (b & 0xFF) as bv8
    requires ((a >> 8) & 0xFF) as bv8 == ((b >> 8) & 0xFF) as bv8
    ensures Low16(a) == Low16(b)
  {
  }

  lemma LowBytesMatch(a: Word, b: Word)
    requires ByteOf(a, 0) == ByteOf(b, 0) && ByteOf(a, 1) == ByteOf(b, 1)
    ensures Low16(a) == Low16(b)
  {
    Byte0(a);
    Byte0(b);
    Byte1(a);
    Byte1(b);
    BytesMatch(a, b);
  }

  function Crc3(b0: bv8, b1: bv8, b2: bv8): (crc: bv16) { Crc16.Crc([b0, b1, b2]) }

  lemma Crc3ThirdInjective(b0: bv8, b1: bv8, x: bv8, y: bv8)
    requires Crc3(b0, b1, x) == Crc3(b0, b1, y)
    ensures x == y
  {
    assert [b0, b1] + [x] + [] == [b0, b1, x] && [b0, b1] + [y] + [] == [b0, b1, y];
    Crc16.CrcDetectsTwoBytes([b0, b1], [x], [y], []);
    assert [x][0] == [y][0];
  }

  lemma Crc3LowInjective(a0: bv8, a1: bv8, b0: bv8, b1: bv8, b2: bv8)
    requires Crc3(a0, a1, b2) == Crc3(b0, b1, b2)
    ensures a0 == b0 && a1 == b1
  {
    assert [] + [a0, a1] + [b2] == [a0, a1, b2] && [] + [b0, b1] + [b2] == [b0, b1, b2];
    Crc16.CrcDetectsTwoBytes([], [a0, a1], [b0, b1], [b2]);
    assert [a0, a1][0] == [b0, b1][0] && [a0, a1][1] == [b0, b1][1];
  }

  /** The validator recomputes the CRC from sixteen bits: it agrees exactly when the third byte
      was clear. */
  lemma ThirdByteDetected(rn: Word)
    ensures Crc24(rn) == Crc24(Low16(rn)) <==> rn & 0xFF_0000 == 0
  {
    LowByte0(rn);
    LowByte1(rn);
    LowByte2(rn);
    ThirdByte(rn);
    if Crc24(rn) == Crc24(Low16(rn)) {
      Crc3ThirdInjective(ByteOf(rn, 0), ByteOf(rn, 1), ByteOf(rn, 2), 0);
    }
  }

  /** With the same third byte, equal CRCs mean equal low halves. */
  lemma LowHalfDetected(a: Word, b: Word)
    requires ByteOf(a, 2) == ByteOf(b, 2) && Crc24(a) == Crc24(b)
    ensures Low16(a) == Low16(b)
  {
    Crc3LowInjective(ByteOf(a, 0), ByteOf(a, 1), ByteOf(b, 0), ByteOf(b, 1), ByteOf(b, 2));
    LowBytesMatch(a, b);
  }

  // ---- which messages have the zero CRC ------------------------------------------------

  lemma CrcNext(bytes: seq<bv8>, b: bv8, r: bv16, e: bv16)
    requires Crc16.Crc(bytes) == r && Crc16.Entry(Crc16.Index(r, b)) == e
    ensures Crc16.Crc(bytes + [b]) == Crc16.Add(e, r << 8)
  {
    Crc16.DivideNextByte(bytes, b);
    Crc16.TableStep(r, b);
  }

  lemma CrcOfOne(b0: bv8, e0: bv16)
    requires Crc16.Entry(Crc16.Index(0xFFFF, b0)) == e0
    ensures Crc16.Crc([b0]) == Crc16.Add(e0, 0xFFFF << 8)
  {
    CrcNext([], b0, 0xFFFF, e0);
    assert [] + [b0] == [b0];
  }

  lemma CrcOfTwo(b0: bv8, b1: bv8, r1: bv16, e1: bv16)
    requires Crc16.Crc([b0]) == r1 && Crc16.Entry(Crc16.Index(r1, b1)) == e1
    ensures Crc16.Crc([b0, b1]) == Crc16.Add(e1, r1 << 8)
  {
    CrcNext([b0], b1, r1, e1);
    assert [b0] + [b1] == [b0, b1];
  }

  lemma CrcOfThree(b0: bv8, b1: bv8, b2: bv8, r2: bv16, e2: bv16)
    requires Crc16.Crc([b0, b1]) == r2 && Crc16.Entry(Crc16.Index(r2, b2)) == e2
    ensures Crc3(b0, b1, b2) == Crc16.Add(e2, r2 << 8)
  {
    CrcNext([b0, b1], b2, r2, e2);
    assert [b0, b1] + [b2] == [b0, b1, b2];
  }

  lemma ThreeSteps(b0: bv8, b1: bv8, b2: bv8, e0: bv16, e1: bv16, e2: bv16, r1: bv16, r2: bv16)
    requires Crc16.Entry(Crc16.Index(0xFFFF, b0)) == e0 && r1 == Crc16.Add(e0, 0xFFFF << 8)
    requires Crc16.Entry(Crc16.Index(r1, b1)) == e1 && r2 == Crc16.Add(e1, r1 << 8)
    requires Crc16.Entry(Crc16.Index(r2, b2)) == e2
    ensures Crc3(b0, b1, b2) == Crc16.Add(e2, r2 << 8)
  {
    CrcOfOne(b0, e0);
    CrcOfTwo(b0, b1, r1, e1);
    CrcOfThree(b0, b1, b2, r2, e2);
  }

  lemma EntryOfZero()
    ensures Crc16.Entry(0) == 0
  {
    Crc16.ShiftNOfClear(0, 8);
  }

  lemma EntryOfEF()
    ensures Crc16.Entry(0xEF) == 0x0CC1
  {
    Crc16.FourShifts(0xEF00, 4);
    Crc16.FourShifts(0x11CE, 0);
  }

  lemma OnesAndZero()
    ensures Crc3(0xFF, 0xFF, 0) == 0
  {
    EntryOfZero();
    ThreeSteps(0xFF, 0xFF, 0, 0, 0, 0, 0xFF00, 0);
  }

  lemma F310AndC1()
    ensures Crc3(0x10, 0xF3, 0xC1) == 0
  {
    EntryOfZero();
    EntryOfEF();
    ThreeSteps(0x10, 0xF3, 0xC1, 0x0CC1, 0, 0, 0xF3C1, 0xC100);
  }

  // ---- RN_CRC and REQ_RN ---------------------------------------------------------------

  function LowPart(rn: Word, crc: bv16): (chunk: Word) { ((rn & 0x3FF) << 16) | (crc as Word) }

  function HighPart(rn: Word): (chunk: Word) { (rn >> 10) & 0x3F }

  lemma HighBitsGone(w: Word, high: Data)
    requires high & 0x3FF_FFFF == 0
    ensures Bits26(Beside(w, high)) == Masked(w, 0x3FF_FFFF)
  {
  }

  lemma SignBitsHigh(w: Word)
    ensures SignBits(w) & 0x3FF_FFFF == 0
  {
  }

  lemma SignExtendKeeps(w: Word)
    ensures Bits26(SignExtend(w)) == Masked(w, 0x3FF_FFFF)
  {
    SignBitsHigh(w);
    HighBitsGone(w, SignBits(w));
  }

  lemma LowOfWord(rn: Word, crc: bv16)
    ensures Masked(RnCrcWord(rn, crc), 0x3FF_FFFF) == LowPart(rn, crc)
  {
  }

  lemma RnCrcLow(rn: Word, crc: bv16)
    ensures Bits26(SignExtend(RnCrcWord(rn, crc))) == LowPart(rn, crc)
  {
    SignExtendKeeps(RnCrcWord(rn, crc));
    LowOfWord(rn, crc);
  }

  lemma RnCrcHigh(rn: Word, crc: bv16)
    ensures Masked(Bits26(Next(SignExtend(RnCrcWord(rn, crc)))), 0x3F) == HighPart(rn)
  {
  }

  lemma CrcReadBack(rn: Word, crc: bv16)
    ensures Field(LowPart(rn, crc), 0, 0xFFFF) == Widened(crc)
  {
  }

  lemma TenAbove(rn: Word, low: Word)
    requires low <= 0xFFFF
    ensures Field(((rn & 0x3FF) << 16) | low, 16, 0x3FF) == rn & 0x3FF
  {
  }

  lemma TenReadBack(rn: Word, crc: bv16)
    ensures Field(LowPart(rn, crc), 16, 0x3FF) == rn & 0x3FF
  {
    WidenedIsSmall(crc);
    TenAbove(rn, Widened(crc));
  }

  lemma WidenedIsSmall(crc: bv16)
    ensures Widened(crc) <= 0xFFFF
  {
  }

  lemma SixAndTen(rn: Word)
    ensures JoinRn(HighPart(rn), rn & 0x3FF) == Low16(rn)
  {
  }

  lemma RnReadBack(rn: Word, crc: bv16)
    ensures ReceivedRn(LowPart(rn, crc), HighPart(rn)) == Low16(rn)
  {
    TenReadBack(rn, crc);
    SixAndTen(rn);
  }

  lemma WidenedSame(a: bv16, b: bv16)
    ensures Widened(a) == Widened(b) <==> a == b
  {
  }

  lemma OnlyRnCrc(own: Table, p: seq<Word>)
    requires |p| >= 2
    ensures Label(own, p, RN_CRC_SIZE) == if IsRnCrc(own, p, RN_CRC_SIZE) then RN_CRC_LABEL else NO_LABEL
  {
  }

  lemma RnCrcAccepted(own: Table, low: Word, high: Word, crc: bv16, rn: Word)
    requires Field(low, 0, 0xFFFF) == Widened(crc) && ReceivedRn(low, high) == rn
    ensures IsRnCrc(own, [low, high], RN_CRC_SIZE) <==> crc == TableCrc(own, rn)
  {
    WidenedSame(crc, TableCrc(own, rn));
  }

  lemma RnCrcLabel(own: Table, rn: Word, crc: bv16)
    ensures Label(own, [LowPart(rn, crc), HighPart(rn)], RN_CRC_SIZE)
         == if crc == TableCrc(own, Low16(rn)) then RN_CRC_LABEL else NO_LABEL
  {
    CrcReadBack(rn, crc);
    RnReadBack(rn, crc);
    RnCrcAccepted(own, LowPart(rn, crc), HighPart(rn), crc, Low16(rn));
    OnlyRnCrc(own, [LowPart(rn, crc), HighPart(rn)]);
  }

  lemma ZeroLowPart(rn: Word, crc: bv16)
    requires LowPart(rn, crc) == 0
    ensures crc == 0 && rn & 0xFF == 0
  {
  }

  /** The first package of an RN_CRC is an end marker only if its rn is out of range. */
  lemma RnCrcLowNonzero(rn: Word)
    requires ByteOf(rn, 2) == 0
    ensures LowPart(rn, Crc24(rn)) != 0
  {
    if LowPart(rn, Crc24(rn)) == 0 {
      ZeroLowPart(rn, Crc24(rn));
      Byte0(rn);
      OnesAndZero();
      Crc3LowInjective(ByteOf(rn, 0), ByteOf(rn, 1), 0xFF, 0xFF, 0);
    }
  }

  lemma HighPartZero(rn: Word)
    ensures HighPart(rn) == 0 <==> rn & 0xFC00 == 0
  {
  }

  /** No third byte, and a bit set among the top six of sixteen. */
  predicate SpansTwo(rn: Word) { rn & 0xFF_0000 == 0 && rn & 0xFC00 != 0 }

  predicate TenBitsOnly(rn: Word) { rn & 0xFC00 == 0 }

  /** An RN_CRC with any CRC is heard as one exactly when neither package reads as an end marker and
      the receiver finds the same CRC. */
  lemma RnCrcHeardWith(own: Table, rn: Word, crc: bv16, quant: nat)
    requires quant >= 2
    ensures Heard(own, SignExtend(RnCrcWord(rn, crc)), RN_CRC_SIZE, quant,
      if LowPart(rn, crc) != 0 && HighPart(rn) != 0 && crc == TableCrc(own, Low16(rn))
      then RN_CRC_LABEL else NO_LABEL)
  {
    SmallMasks();
    RnCrcLow(rn, crc);
    RnCrcHigh(rn, crc);
    RnCrcLabel(own, rn, crc);
    HeardTwo(own, SignExtend(RnCrcWord(rn, crc)), RN_CRC_SIZE, quant, LowPart(rn, crc), HighPart(rn),
      if LowPart(rn, crc) != 0 && HighPart(rn) != 0 && crc == TableCrc(own, Low16(rn))
      then RN_CRC_LABEL else NO_LABEL);
  }

  /** Between programs that filled in their tables, an RN_CRC is heard as one exactly when its rn has
      no third byte and reaches the second package; for the sixteen-bit rns of the protocol, exactly
      from 1024 on. */
  lemma RnCrcIsHeard(rn: Word, quant: nat)
    requires quant >= 2
    ensures Heard(Filled, RnCrcData(Filled, rn), RN_CRC_SIZE, quant,
      if SpansTwo(rn) then RN_CRC_LABEL else NO_LABEL)
  {
    RnCrcHeardWith(Filled, rn, Crc24(rn), quant);
    ThirdByteDetected(rn);
    ThirdByte(rn);
    HighPartZero(rn);
    if ByteOf(rn, 2) == 0 {
      RnCrcLowNonzero(rn);
    }
  }

  lemma BlankLowPart(rn: Word)
    ensures LowPart(rn, 0) == 0 <==> rn & 0x3FF == 0
  {
  }

  /** Bits set both among the low ten and among the six above. */
  predicate FillsTwo(rn: Word) { rn & 0x3FF != 0 && rn & 0xFC00 != 0 }

  /** Between programs that never did, both packages must carry a bit of the rn; a third byte goes
      unnoticed. */
  lemma BlankRnCrcIsHeard(rn: Word, quant: nat)
    requires quant >= 2
    ensures Heard(Blank, RnCrcData(Blank, rn), RN_CRC_SIZE, quant,
      if FillsTwo(rn) then RN_CRC_LABEL else NO_LABEL)
  {
    RnCrcHeardWith(Blank, rn, 0, quant);
    BlankLowPart(rn);
    HighPartZero(rn);
  }

  lemma AllOnes(rn: Word)
    ensures (rn & 0xFF) as bv8 == 0xFF && ((rn >> 8) & 0xFF) as bv8 == 0xFF <==> rn & 0xFFFF == 0xFFFF
    ensures rn & 0xFFFF == 0xFFFF ==> rn & 0x3FF != 0 && rn & 0xFC00 != 0
  {
  }

  /** Only sixteen ones have the zero CRC. */
  lemma ZeroCrcOfLow(rn: Word)
    ensures Crc24(Low16(rn)) == 0 <==> rn & 0xFFFF == 0xFFFF
  {
    LowByte0(rn);
    LowByte1(rn);
    LowByte2(rn);
    Byte0(rn);
    Byte1(rn);
    AllOnes(rn);
    OnesAndZero();
    if Crc24(Low16(rn)) == 0 {
      Crc3LowInjective(ByteOf(rn, 0), ByteOf(rn, 1), 0xFF, 0xFF, 0);
    }
  }

  /** Between one that did and one that did not, only an rn of sixteen ones gets through, whose CRC
      is zero. */
  lemma MixedRnCrcIsHeard(t: Table, own: Table, rn: Word, quant: nat)
    requires quant >= 2 && t != own && rn & 0xFF_0000 == 0
    ensures Heard(own, RnCrcData(t, rn), RN_CRC_SIZE, quant,
      if rn & 0xFFFF == 0xFFFF then RN_CRC_LABEL else NO_LABEL)
  {
    RnCrcHeardWith(own, rn, TableCrc(t, rn), quant);
    ThirdByteDetected(rn);
    ZeroCrcOfLow(rn);
    AllOnes(rn);
    BlankLowPart(rn);
    HighPartZero(rn);
  }

  function HighRequest(rn: Word): (chunk: Word) { 0x3040 | ((rn >> 10) & 0x3F) }

  lemma ReqRnLow(rn: Word, crc: bv16)
    ensures Bits26(ReqRnWord(rn, crc)) == LowPart(rn, crc)
  {
  }

  lemma ReqRnHigh(rn: Word, crc: bv16)
    ensures Masked(Bits26(Next(ReqRnWord(rn, crc))), 0x3FFF) == HighRequest(rn)
  {
  }

  lemma RequestFields(rn: Word, crc: bv16)
    ensures HighRequest(rn) != 0 && Field(HighRequest(rn), 6, 0xFF) == 0xC1
    ensures Field(LowPart(rn, crc), 16, 0xFFFF) == rn & 0x3FF
  {
  }

  lemma OnlyReqRn(own: Table, p: seq<Word>)
    requires |p| >= 2
    ensures Label(own, p, REQ_RN_SIZE) == if IsReqRn(own, p, REQ_RN_SIZE) then REQ_RN_LABEL else NO_LABEL
  {
  }

  lemma ReqRnAccepted(own: Table, low: Word, high: Word, crc: bv16, rn: Word)
    requires Field(low, 0, 0xFFFF) == Widened(crc) && Field(low, 16, 0xFFFF) == rn
    requires Field(high, 6, 0xFF) == 0xC1
    ensures IsReqRn(own, [low, high], REQ_RN_SIZE) <==> crc == TableCrc(own, WithCommand(rn))
  {
    WidenedSame(crc, TableCrc(own, WithCommand(rn)));
  }

  lemma ReqRnLabel(own: Table, rn: Word, crc: bv16)
    ensures Label(own, [LowPart(rn, crc), HighRequest(rn)], REQ_RN_SIZE)
         == if crc == TableCrc(own, WithCommand(rn & 0x3FF)) then REQ_RN_LABEL else NO_LABEL
  {
    CrcReadBack(rn, crc);
    RequestFields(rn, crc);
    ReqRnAccepted(own, LowPart(rn, crc), HighRequest(rn), crc, rn & 0x3FF);
    OnlyReqRn(own, [LowPart(rn, crc), HighRequest(rn)]);
  }

  lemma WithCommandThird(rn: Word)
    requires rn <= 0xFFFF
    ensures ByteOf(WithCommand(rn), 2) == 0xC1
  {
    Byte2(WithCommand(rn));
  }

  lemma WithCommandLow(rn: Word)
    requires rn <= 0xFFFF
    ensures Low16(WithCommand(rn)) == rn
  {
  }

  lemma WithCommandFirst(rn: Word)
    ensures ByteOf(WithCommand(Low16(rn)), 0) == (rn & 0xFF) as bv8
  {
    Byte0(WithCommand(Low16(rn)));
  }

  lemma TenBits(rn: Word)
    ensures Low16(rn) <= 0xFFFF && rn & 0x3FF <= 0xFFFF
    ensures Low16(rn) == rn & 0x3FF <==> rn & 0xFC00 == 0
  {
  }

  /** The validator sees ten bits of the rn: the CRC gives away the other six. */
  lemma TenBitsDetected(rn: Word)
    ensures Crc24(WithCommand(Low16(rn))) == Crc24(WithCommand(rn & 0x3FF)) <==> rn & 0xFC00 == 0
  {
    TenBits(rn);
    if Crc24(WithCommand(Low16(rn))) == Crc24(WithCommand(rn & 0x3FF)) {
      WithCommandThird(Low16(rn));
      WithCommandThird(rn & 0x3FF);
      LowHalfDetected(WithCommand(Low16(rn)), WithCommand(rn & 0x3FF));
      WithCommandLow(Low16(rn));
      WithCommandLow(rn & 0x3FF);
    }
  }

  lemma ReqRnLowNonzero(rn: Word)
    ensures LowPart(rn, Crc24(WithCommand(Low16(rn)))) != 0
  {
    var message := WithCommand(Low16(rn));
    if LowPart(rn, Crc24(message)) == 0 {
      ZeroLowPart(rn, Crc24(message));
      WithCommandFirst(rn);
      TenBits(rn);
      WithCommandThird(Low16(rn));
      F310AndC1();
      Crc3LowInjective(ByteOf(message, 0), ByteOf(message, 1), 0x10, 0xF3, 0xC1);
    }
  }

  /** A REQ_RN with any CRC is heard as one exactly when its first package does not read as an end
      marker and the receiver finds the same CRC for the ten bits it sees. */
  lemma ReqRnHeardWith(own: Table, rn: Word, crc: bv16, quant: nat)
    requires quant >= 2
    ensures Heard(own, ReqRnWord(rn, crc), REQ_RN_SIZE, quant,
      if LowPart(rn, crc) != 0 && crc == TableCrc(own, WithCommand(rn & 0x3FF)) then REQ_RN_LABEL else NO_LABEL)
  {
    SmallMasks();
    ReqRnLow(rn, crc);
    ReqRnHigh(rn, crc);
    ReqRnLabel(own, rn, crc);
    RequestFields(rn, crc);
    HeardTwo(own, ReqRnWord(rn, crc), REQ_RN_SIZE, quant, LowPart(rn, crc), HighRequest(rn),
      if LowPart(rn, crc) != 0 && crc == TableCrc(own, WithCommand(rn & 0x3FF)) then REQ_RN_LABEL else NO_LABEL);
  }

  /** Between programs that filled in their tables, a REQ_RN always gets through, but is accepted
      exactly for rns below 1024. */
  lemma ReqRnIsHeard(rn: Word, quant: nat)
    requires quant >= 2
    ensures Heard(Filled, ReqRnData(Filled, rn), REQ_RN_SIZE, quant,
      if TenBitsOnly(rn) then REQ_RN_LABEL else NO_LABEL)
  {
    ReqRnHeardWith(Filled, rn, Crc24(WithCommand(Low16(rn))), quant);
    TenBitsDetected(rn);
    ReqRnLowNonzero(rn);
  }

  /** Between programs that never did, it is accepted exactly if one of the low ten bits is set. */
  lemma BlankReqRnIsHeard(rn: Word, quant: nat)
    requires quant >= 2
    ensures Heard(Blank, ReqRnData(Blank, rn), REQ_RN_SIZE, quant,
      if rn & 0x3FF != 0 then REQ_RN_LABEL else NO_LABEL)
  {
    ReqRnHeardWith(Blank, rn, 0, quant);
    BlankLowPart(rn);
  }

  lemma NotF310(rn: Word)
    requires rn & 0xFC00 == 0
    ensures Low16(rn) != Low16(0xF310)
  {
  }

  /** No REQ_RN for an rn below 1024 has the zero CRC. */
  lemma ReqRnCrcNonzero(rn: Word)
    requires TenBitsOnly(rn)
    ensures Crc24(WithCommand(Low16(rn))) != 0
  {
    var message := WithCommand(Low16(rn));
    if Crc24(message) == 0 {
      TenBits(rn);
      WithCommandThird(Low16(rn));
      WithCommandLow(Low16(rn));
      F310AndC1();
      Crc3LowInjective(ByteOf(message, 0), ByteOf(message, 1), 0x10, 0xF3, 0xC1);
      F310Bytes();
      LowBytesMatch(message, 0xF310);
      NotF310(rn);
    }
  }

  lemma F310Bytes()
    ensures ByteOf(0xF310, 0) == 0x10 && ByteOf(0xF310, 1) == 0xF3
  {
    Byte0(0xF310);
    Byte1(0xF310);
  }

  /** Between one that did and one that did not, none for an rn below 1024 is accepted. */
  lemma MixedReqRnIsHeard(t: Table, own: Table, rn: Word, quant: nat)
    requires quant >= 2 && t != own && TenBitsOnly(rn)
    ensures Heard(own, ReqRnData(t, rn), REQ_RN_SIZE, quant, NO_LABEL)
  {
    ReqRnHeardWith(own, rn, TableCrc(t, WithCommand(Low16(rn))), quant);
    TenBits(rn);
    ReqRnCrcNonzero(rn);
  }

  /** The rn read back from an RN_CRC is the low half of the one sent. */
  lemma RnCrcCarries(t: Table, rn: Word)
    ensures var chunks := Chunks(RnCrcData(t, rn), RN_CRC_SIZE);
      |chunks| == 2 && ReceivedRn(chunks[0], chunks[1]) == Low16(rn)
  {
    SmallMasks();
    RnCrcLow(rn, TableCrc(t, rn));
    RnCrcHigh(rn, TableCrc(t, rn));
    TwoChunks(RnCrcData(t, rn), RN_CRC_SIZE, Mask(6));
    RnReadBack(rn, TableCrc(t, rn));
  }
}
