/** The handshake of a reader and a tag, each a sequential program, over two package FIFOs. */
module Handshake {
  import opened Packages
  import opened Commands

  /** What the two programs do not compute themselves, and the CRC table each of them works with. */
  datatype Setup = Setup(random: bv16, handle: bv16, readerTable: Table, tagTable: Table)

  /** Six commands cross, numbered by turn: the reader sends the even ones, the tag the odd. */
  const LAST_TURN := 5

  const QUERY_DATA: Data := WithCrc5(QueryFields(1, 1, 1, 1, 1, 1, 1))

  const EPC: Word := 0x1234

  function Wide(h: bv16): (w: Word) { h as Word }

  /** The data and size of the command of a turn; rn16 is what the reader remembers. */
  function DataOf(env: Setup, turn: nat, rn16: Word): (data: Data) {
    match turn
    case 0 => QUERY_DATA
    case 1 => Rn16Data(env.random)
    case 2 => AckData(rn16)
    case 3 => RnCrcData(env.tagTable, EPC)
    case 4 => ReqRnData(env.readerTable, rn16)
    case _ => RnCrcData(env.tagTable, Wide(env.handle))
  }

  function SizeOf(turn: nat): (size: nat)
    ensures Ints(size) <= 2
  {
    match turn
    case 0 => QUERY_SIZE
    case 1 => RN16_SIZE
    case 2 => ACK_SIZE
    case 4 => REQ_RN_SIZE
    case _ => RN_CRC_SIZE
  }

  /** The label the receiver of a turn insists on. */
  function Expected(turn: nat): (found: int)
    ensures found != NO_LABEL
  {
    match turn
    case 0 => QUERY_LABEL
    case 1 => RN16_LABEL
    case 2 => ACK_LABEL
    case 4 => REQ_RN_LABEL
    case _ => RN_CRC_LABEL
  }

  /** How many packages the receiver of a turn has room for. */
  function Quant(turn: nat): (quant: nat) { if turn == 1 then 1 else 2 }

  function FrameOf(env: Setup, turn: nat, rn16: Word): (frame: seq<Word>) {
    Frame(DataOf(env, turn, rn16), SizeOf(turn))
  }

  datatype Process =
    | Sending(turn: nat, left: seq<Word>)
    | Receiving(turn: nat, got: seq<Word>, size: nat)
    | Done
    | Failed(turn: nat)

  /** Both programs, what the reader remembers, and the FIFOs between them. */
  datatype State = State(reader: Process, tag: Process, rn16: Word, read: Word,
                         toTag: seq<Word>, toReader: seq<Word>)

  function Start(env: Setup): (s: State) {
    State(Sending(0, FrameOf(env, 0, 0)), Receiving(0, [], 0), 0, 0, [], [])
  }

  // ---- one step of one program ---------------------------------------------------------

  /** Only the end marker is written without looking whether the FIFO is full. */
  predicate MayPush(p: Process, fifo: seq<Word>) {
    p.Sending? && p.left != [] && (|p.left| == 1 || |fifo| < FIFO_DEPTH)
  }

  function AfterPush(p: Process): (q: Process)
    requires p.Sending? && p.left != []
  {
    if |p.left| > 1 then Sending(p.turn, p.left[1..])
    else if p.turn == LAST_TURN then Done
    else Receiving(p.turn + 1, [], 0)
  }

  datatype Finding = More(got: seq<Word>, size: nat) | Accepted | Refused

  /** What a receiver makes of the next package, with its CRC table. */
  function Heed(own: Table, p: Process, package: Word): (f: Finding)
    requires p.Receiving?
  {
    if Payload(package) != 0 then
      var more := p.got + [Payload(package)];
      if |more| > Quant(p.turn) then Refused else More(more, p.size + Length(package))
    else if |p.got| >= Reads(p.size) && Label(own, p.got, p.size) == Expected(p.turn) then Accepted
    else Refused
  }

  /** next is the frame that answers an accepted command. */
  function AfterTake(own: Table, p: Process, package: Word, next: seq<Word>): (q: Process)
    requires p.Receiving?
  {
    match Heed(own, p, package)
    case More(got, size) => Receiving(p.turn, got, size)
    case Refused => Failed(p.turn)
    case Accepted => if p.turn == LAST_TURN then Done else Sending(p.turn + 1, next)
  }

  /** The reader keeps the low byte of the RN16, and takes the handle from the last command. */
  function Remember(own: Table, p: Process, package: Word, rn16: Word): (r: Word)
    requires p.Receiving?
  {
    if p.turn == 1 && Heed(own, p, package).Accepted? && |p.got| > 0 then p.got[0] & 0xFF else rn16
  }

  function Handle(own: Table, p: Process, package: Word, read: Word): (h: Word)
    requires p.Receiving?
  {
    if p.turn == LAST_TURN && Heed(own, p, package).Accepted? && |p.got| > 1 then
      ReceivedRn(p.got[0], p.got[1])
    else read
  }

  predicate ReaderMay(s: State) {
    MayPush(s.reader, s.toTag) || (s.reader.Receiving? && s.toReader != [])
  }

  predicate TagMay(s: State) {
    MayPush(s.tag, s.toReader) || (s.tag.Receiving? && s.toTag != [])
  }

  function ReaderStep(env: Setup, s: State): (t: State) {
    if MayPush(s.reader, s.toTag) then
      s.(reader := AfterPush(s.reader), toTag := s.toTag + [s.reader.left[0]])
    else if s.reader.Receiving? && s.toReader != [] then AfterReaderTakes(env, s)
    else s
  }

  function AfterReaderTakes(env: Setup, s: State): (t: State)
    requires s.reader.Receiving? && s.toReader != []
  {
    var package := s.toReader[0];
    var rn16 := Remember(env.readerTable, s.reader, package, s.rn16);
    var next := FrameOf(env, s.reader.turn + 1, rn16);
    s.(reader := AfterTake(env.readerTable, s.reader, package, next), rn16 := rn16,
       read := Handle(env.readerTable, s.reader, package, s.read), toReader := s.toReader[1..])
  }

  function TagStep(env: Setup, s: State): (t: State) {
    if MayPush(s.tag, s.toReader) then
      s.(tag := AfterPush(s.tag), toReader := s.toReader + [s.tag.left[0]])
    else if s.tag.Receiving? && s.toTag != [] then
      var next := FrameOf(env, s.tag.turn + 1, 0);
      s.(tag := AfterTake(env.tagTable, s.tag, s.toTag[0], next), toTag := s.toTag[1..])
    else s
  }

  // ---- where a run can be --------------------------------------------------------------

  function Remembered(env: Setup): (rn16: Word) { (env.random as Word) & 0xFF }

  /** The frame of a turn in a run: the reader's RN16 is settled before it is used. */
  function TurnFrame(env: Setup, turn: nat): (frame: seq<Word>) {
    FrameOf(env, turn, Remembered(env))
  }

  predicate Even(turn: nat) { turn == 0 || turn == 2 || turn == 4 }

  /** The table of the program that receives in this turn. */
  function ReceiverTable(env: Setup, turn: nat): (own: Table) {
    if Even(turn) then env.tagTable else env.readerTable
  }

  /** The command of this turn reaches its receiver as what it is. */
  predicate Passes(env: Setup, turn: nat) {
    match turn
    case 1 => env.random != 0
    case 3 => env.readerTable == env.tagTable
    case 4 => env.readerTable == env.tagTable && (env.tagTable.Blank? ==> env.random & 0xFF != 0)
    case 5 => HandlePasses(env)
    case _ => true
  }

  predicate HandlePasses(env: Setup) {
    if env.readerTable != env.tagTable then env.handle == 0xFFFF
    else env.handle >= 1024 && (env.tagTable.Blank? ==> env.handle & 0x3FF != 0)
  }

  lemma HandleRange(h: bv16)
    ensures SpansTwo(Wide(h)) <==> h >= 1024
    ensures FillsTwo(Wide(h)) <==> h >= 1024 && h & 0x3FF != 0
  {
  }

  lemma HandleWide(h: bv16)
    ensures Wide(h) & 0xFF_0000 == 0
    ensures Wide(h) & 0xFFFF == 0xFFFF <==> h == 0xFFFF
  {
  }

  lemma RememberedIsSmall(env: Setup)
    ensures TenBitsOnly(Remembered(env))
    ensures Remembered(env) & 0x3FF != 0 <==> env.random & 0xFF != 0
  {
  }

  /** The command of a turn is heard as it should be, or as nothing. */
  predicate TurnHeard(env: Setup, turn: nat) {
    Heard(ReceiverTable(env, turn), DataOf(env, turn, Remembered(env)), SizeOf(turn), Quant(turn),
          if Passes(env, turn) then Expected(turn) else NO_LABEL)
  }

  lemma QueryTurn(env: Setup)
    ensures TurnHeard(env, 0)
  {
    QueryIsHeard(env.tagTable, 1, 1, 1, 1, 1, 1, 1, 2);
  }

  lemma Rn16Turn(env: Setup)
    ensures TurnHeard(env, 1)
  {
    Rn16IsHeard(env.readerTable, env.random, 1);
  }

  lemma AckTurn(env: Setup)
    ensures TurnHeard(env, 2)
  {
    AckIsHeard(env.tagTable, Remembered(env), 2);
  }

  /** An RN_CRC between two programs. */
  lemma RnCrcBetween(t: Table, own: Table, rn: Word, heard: bool)
    requires rn & 0xFF_0000 == 0
    requires heard == if t != own then rn & 0xFFFF == 0xFFFF else if t.Filled? then SpansTwo(rn) else FillsTwo(rn)
    ensures Heard(own, RnCrcData(t, rn), RN_CRC_SIZE, 2, if heard then RN_CRC_LABEL else NO_LABEL)
  {
    if t != own {
      MixedRnCrcIsHeard(t, own, rn, 2);
    } else if t.Filled? {
      RnCrcIsHeard(rn, 2);
    } else {
      BlankRnCrcIsHeard(rn, 2);
    }
  }

  lemma EpcBits()
    ensures EPC & 0xFF_0000 == 0 && EPC & 0xFFFF != 0xFFFF && SpansTwo(EPC) && FillsTwo(EPC)
  {
  }

  lemma EpcTurn(env: Setup)
    ensures TurnHeard(env, 3)
  {
    EpcBits();
    RnCrcBetween(env.tagTable, env.readerTable, EPC, Passes(env, 3));
  }

  /** A REQ_RN between two programs, for an rn that needs no more than ten bits. */
  lemma ReqRnBetween(t: Table, own: Table, rn: Word, heard: bool)
    requires TenBitsOnly(rn) && heard == (t == own && (t.Blank? ==> rn & 0x3FF != 0))
    ensures Heard(own, ReqRnData(t, rn), REQ_RN_SIZE, 2, if heard then REQ_RN_LABEL else NO_LABEL)
  {
    if t != own {
      MixedReqRnIsHeard(t, own, rn, 2);
    } else if t.Filled? {
      ReqRnIsHeard(rn, 2);
    } else {
      BlankReqRnIsHeard(rn, 2);
    }
  }

  lemma ReqRnTurn(env: Setup)
    ensures TurnHeard(env, 4)
  {
    RememberedIsSmall(env);
    ReqRnBetween(env.readerTable, env.tagTable, Remembered(env), Passes(env, 4));
  }

  lemma HandleHeard(env: Setup, rn: Word)
    requires rn == Wide(env.handle)
    ensures Heard(env.readerTable, RnCrcData(env.tagTable, rn), RN_CRC_SIZE, 2,
                  if HandlePasses(env) then RN_CRC_LABEL else NO_LABEL)
  {
    HandleRange(env.handle);
    HandleWide(env.handle);
    RnCrcBetween(env.tagTable, env.readerTable, rn, HandlePasses(env));
  }

  lemma HandleData(env: Setup)
    ensures DataOf(env, 5, Remembered(env)) == RnCrcData(env.tagTable, Wide(env.handle))
  {
  }

  lemma HandleDataHeard(env: Setup, data: Data)
    requires data == DataOf(env, 5, Remembered(env))
    ensures Heard(env.readerTable, data, RN_CRC_SIZE, 2, if HandlePasses(env) then RN_CRC_LABEL else NO_LABEL)
  {
    HandleData(env);
    HandleHeard(env, Wide(env.handle));
  }

  lemma HandleTurn(env: Setup)
    ensures TurnHeard(env, 5)
  {
    HandleDataHeard(env, DataOf(env, 5, Remembered(env)));
  }

  lemma EveryTurnHeard(env: Setup, turn: nat)
    requires turn <= LAST_TURN
    ensures TurnHeard(env, turn)
  {
    match turn
    case 0 => QueryTurn(env);
    case 1 => Rn16Turn(env);
    case 2 => AckTurn(env);
    case 3 => EpcTurn(env);
    case 4 => ReqRnTurn(env);
    case _ => HandleTurn(env);
  }

  // ---- what a turn leaves behind -------------------------------------------------------
  // The lemmas of this part hold of any frame, so that what is inside one is not looked at.

  function Gist(turn: nat, frame: seq<Word>): (r: Reception) {
    Receive(frame, Quant(turn), [], 0)
  }

  /** A short frame, used up when its command passes, and of no label when it does not. */
  predicate Sound(own: Table, turn: nat, frame: seq<Word>, passes: bool) {
    var g := Gist(turn, frame);
    && 2 <= |frame| <= 3
    && g.Received? && |g.vector| >= Reads(g.size)
    && Label(own, g.vector, g.size) == (if passes then Expected(turn) else NO_LABEL)
    && (passes ==> g.rest == [])
  }

  function SenderAt(turn: nat, frame: seq<Word>, pushed: nat): (p: Process)
    requires pushed <= |frame|
  {
    if pushed < |frame| then Sending(turn, frame[pushed..])
    else if turn == LAST_TURN then Done
    else Receiving(turn + 1, [], 0)
  }

  /** The receiver of a turn has made of the first packages what will lead to the whole. */
  predicate ReceiverAt(turn: nat, frame: seq<Word>, taken: nat, p: Process) {
    && taken < |frame|
    && p.Receiving? && p.turn == turn
    && Receive(frame[taken..], Quant(turn), p.got, p.size) == Gist(turn, frame)
  }

  lemma Pushing(turn: nat, frame: seq<Word>, pushed: nat, taken: nat, channel: seq<Word>)
    requires taken <= pushed < |frame| <= 3 && channel == frame[taken..pushed]
    ensures var p := SenderAt(turn, frame, pushed);
      && MayPush(p, channel)
      && AfterPush(p) == SenderAt(turn, frame, pushed + 1)
      && channel + [p.left[0]] == frame[taken..pushed + 1]
  {
  }

  lemma Unpacked(rest: seq<Word>, quant: int, got: seq<Word>, size: nat)
    requires rest != []
    ensures Receive(rest, quant, got, size) ==
      if Payload(rest[0]) == 0 then Received(got, size, rest[1..])
      else if |got| + 1 > quant then
        Overrun(got + [Payload(rest[0])], size + Length(rest[0]), rest[1..])
      else Receive(rest[1..], quant, got + [Payload(rest[0])], size + Length(rest[0]))
  {
  }

  /** What taking the next package of the frame makes of a receiver. */
  lemma Taking(own: Table, turn: nat, frame: seq<Word>, passes: bool, taken: nat, p: Process)
    requires Sound(own, turn, frame, passes) && ReceiverAt(turn, frame, taken, p)
    ensures match Heed(own, p, frame[taken])
      case More(got, size) => ReceiverAt(turn, frame, taken + 1, Receiving(turn, got, size))
      case Accepted => passes && taken + 1 == |frame| && p.got == Gist(turn, frame).vector
      case Refused => !passes
  {
    var rest, after := frame[taken..], frame[taken + 1..];
    assert rest[0] == frame[taken] && rest[1..] == after && |after| == |frame| - taken - 1;
    Unpacked(rest, Quant(turn), p.got, p.size);
    if after == [] {
      assert Receive(after, Quant(turn), p.got + [Payload(rest[0])], p.size + Length(rest[0])).Waiting?;
    }
  }

  // ---- the frames of this handshake ----------------------------------------------------

  lemma TurnIsSound(env: Setup, turn: nat)
    requires turn <= LAST_TURN
    ensures Sound(ReceiverTable(env, turn), turn, TurnFrame(env, turn), Passes(env, turn))
  {
    EveryTurnHeard(env, turn);
    SplitLength(DataOf(env, turn, Remembered(env)), SizeOf(turn));
  }

  lemma Rn16Gist(env: Setup)
    requires env.random != 0
    ensures Gist(1, TurnFrame(env, 1)) == Received([Wide(env.random)], RN16_SIZE, [])
  {
    Rn16IsHeard(env.readerTable, env.random, 1);
  }

  lemma WideIsLow(h: bv16)
    ensures Low16(Wide(h)) == Wide(h)
  {
  }

  lemma HandleGist(env: Setup)
    requires HandlePasses(env)
    ensures var g := Gist(5, TurnFrame(env, 5));
      g.Received? && |g.vector| == 2 && ReceivedRn(g.vector[0], g.vector[1]) == Wide(env.handle)
  {
    var data := DataOf(env, 5, Remembered(env));
    HandleDataHeard(env, data);
    HandleData(env);
    HandleCarried(env.tagTable, env.handle, data);
  }

  lemma HandleCarried(t: Table, h: bv16, data: Data)
    requires data == RnCrcData(t, Wide(h))
    ensures var chunks := Chunks(data, RN_CRC_SIZE);
      |chunks| == 2 && ReceivedRn(chunks[0], chunks[1]) == Wide(h)
  {
    RnCrcCarries(t, Wide(h));
    WideIsLow(h);
  }

  /** The reader's memory matters only to the two commands that carry it. */
  lemma FrameSettled(env: Setup, turn: nat, rn16: Word)
    requires turn <= LAST_TURN
    requires turn == 2 || turn == 4 ==> rn16 == Remembered(env)
    ensures FrameOf(env, turn, rn16) == TurnFrame(env, turn)
  {
  }

  // ---- every run -----------------------------------------------------------------------

  /** A frame as good as its turn allows, carrying what the handshake needs of it. */
  predicate Faithful(env: Setup, turn: nat, frame: seq<Word>) {
    && turn <= LAST_TURN && Sound(ReceiverTable(env, turn), turn, frame, Passes(env, turn))
    && (turn == 1 && Passes(env, 1) ==> Gist(1, frame).vector == [Wide(env.random)])
    && (turn == LAST_TURN && Passes(env, turn) ==>
        var v := Gist(turn, frame).vector; |v| == 2 && ReceivedRn(v[0], v[1]) == Wide(env.handle))
  }

  lemma TurnIsFaithful(env: Setup, turn: nat, rn16: Word, frame: seq<Word>)
    requires turn <= LAST_TURN && frame == FrameOf(env, turn, rn16)
    requires turn == 2 || turn == 4 ==> rn16 == Remembered(env)
    ensures Faithful(env, turn, frame)
  {
    FrameSettled(env, turn, rn16);
    TurnIsSound(env, turn);
    if turn == 1 && Passes(env, 1) {
      Rn16Gist(env);
    }
    if turn == LAST_TURN && Passes(env, turn) {
      HandleGist(env);
    }
  }

  /** Where a run can be: in a turn, with so many packages of its frame pushed and taken, its
      receiver possibly having given up; or finished. */
  datatype Place =
    | Crossing(turn: nat, frame: seq<Word>, pushed: nat, taken: nat, givenUp: bool)
    | Finished

  function Sender(s: State, turn: nat): (p: Process) { if Even(turn) then s.reader else s.tag }

  function Receiver(s: State, turn: nat): (p: Process) { if Even(turn) then s.tag else s.reader }

  function Channel(s: State, turn: nat): (c: seq<Word>) { if Even(turn) then s.toTag else s.toReader }

  function Back(s: State, turn: nat): (c: seq<Word>) { if Even(turn) then s.toReader else s.toTag }

  /** The turns before this one passed. */
  predicate Passed(env: Setup, turn: nat) {
    forall k :: 0 <= k < turn ==> Passes(env, k)
  }

  /** The sender is past some packages of the frame, which are taken or in its channel; nothing
      travels the other way. */
  predicate Carrying(env: Setup, s: State, turn: nat, frame: seq<Word>, pushed: nat, taken: nat) {
    && Faithful(env, turn, frame) && taken <= pushed <= |frame|
    && Sender(s, turn) == SenderAt(turn, frame, pushed)
    && Channel(s, turn) == frame[taken..pushed] && Back(s, turn) == []
    && (turn >= 2 ==> s.rn16 == Remembered(env)) && Passed(env, turn)
  }

  predicate At(env: Setup, s: State, place: Place) {
    match place
    case Crossing(turn, frame, pushed, taken, givenUp) =>
      && Carrying(env, s, turn, frame, pushed, taken)
      && if givenUp then Receiver(s, turn) == Failed(turn) && !Passes(env, turn)
         else ReceiverAt(turn, frame, taken, Receiver(s, turn))
    case Finished =>
      && s.reader == Done && s.tag == Done && s.toTag == [] && s.toReader == []
      && s.read == Wide(env.handle) && Passed(env, LAST_TURN + 1)
  }

  /** Falls at every step. */
  function Rank(place: Place): (n: int) {
    match place
    case Finished => 0
    case Crossing(turn, _, pushed, taken, _) => 10 * (6 - turn) - pushed - taken
  }

  lemma StartIsAt(env: Setup)
    ensures At(env, Start(env), Crossing(0, FrameOf(env, 0, 0), 0, 0, false))
  {
    var frame := FrameOf(env, 0, 0);
    TurnIsFaithful(env, 0, 0, frame);
    assert frame[0..] == frame && frame[0..0] == [];
  }

  lemma Pushes(env: Setup, s: State, turn: nat, frame: seq<Word>, pushed: nat, taken: nat)
    requires Carrying(env, s, turn, frame, pushed, taken) && pushed < |frame|
    ensures var p := Sender(s, turn);
      && MayPush(p, Channel(s, turn)) && AfterPush(p) == SenderAt(turn, frame, pushed + 1)
      && Channel(s, turn) + [p.left[0]] == frame[taken..pushed + 1]
  {
    Pushing(turn, frame, pushed, taken, Channel(s, turn));
  }

  lemma ReaderPushes(env: Setup, s: State, turn: nat, frame: seq<Word>, pushed: nat, taken: nat, givenUp: bool)
    requires At(env, s, Crossing(turn, frame, pushed, taken, givenUp))
    requires Even(turn) && pushed < |frame|
    ensures ReaderMay(s)
    ensures At(env, ReaderStep(env, s), Crossing(turn, frame, pushed + 1, taken, givenUp))
  {
    Pushes(env, s, turn, frame, pushed, taken);
  }

  lemma TagPushes(env: Setup, s: State, turn: nat, frame: seq<Word>, pushed: nat, taken: nat, givenUp: bool)
    requires At(env, s, Crossing(turn, frame, pushed, taken, givenUp))
    requires !Even(turn) && pushed < |frame|
    ensures TagMay(s)
    ensures At(env, TagStep(env, s), Crossing(turn, frame, pushed + 1, taken, givenUp))
  {
    Pushes(env, s, turn, frame, pushed, taken);
  }

  lemma ChannelMoves(frame: seq<Word>, pushed: nat, taken: nat)
    requires taken < pushed <= |frame|
    ensures frame[taken..pushed][0] == frame[taken]
    ensures frame[taken..pushed][1..] == frame[taken + 1..pushed]
  {
  }

  /** t is s after its receiver took a package, next being the frame of its answer. */
  predicate Took(env: Setup, s: State, t: State, turn: nat, next: seq<Word>) {
    && Receiver(s, turn).Receiving? && Channel(s, turn) != []
    && Sender(t, turn) == Sender(s, turn) && Back(t, turn) == Back(s, turn)
    && Channel(t, turn) == Channel(s, turn)[1..]
    && var own, p, package := ReceiverTable(env, turn), Receiver(s, turn), Channel(s, turn)[0];
      && Receiver(t, turn) == AfterTake(own, p, package, next)
      && (if Even(turn) then t.rn16 == s.rn16 && t.read == s.read
          else t.rn16 == Remember(own, p, package, s.rn16) && t.read == Handle(own, p, package, s.read))
  }

  predicate AboutToTake(env: Setup, s: State, turn: nat, frame: seq<Word>, pushed: nat, taken: nat) {
    && At(env, s, Crossing(turn, frame, pushed, taken, false)) && taken < pushed
  }

  lemma TakeMore(env: Setup, s: State, t: State, turn: nat, frame: seq<Word>, pushed: nat, taken: nat,
                 next: seq<Word>)
    requires AboutToTake(env, s, turn, frame, pushed, taken) && Took(env, s, t, turn, next)
    requires !Heed(ReceiverTable(env, turn), Receiver(s, turn), Channel(s, turn)[0]).Accepted?
    ensures At(env, t, Crossing(turn, frame, pushed, taken + 1,
                                Heed(ReceiverTable(env, turn), Receiver(s, turn), Channel(s, turn)[0]).Refused?))
  {
    Taking(ReceiverTable(env, turn), turn, frame, Passes(env, turn), taken, Receiver(s, turn));
    ChannelMoves(frame, pushed, taken);
  }

  lemma FreshTurn(turn: nat, frame: seq<Word>)
    requires |frame| > 0
    ensures SenderAt(turn, frame, 0) == Sending(turn, frame)
    ensures ReceiverAt(turn, frame, 0, Receiving(turn, [], 0))
    ensures frame[0..0] == []
  {
    assert frame[0..] == frame;
  }

  /** Once its RN16 is accepted the reader remembers it, and forgets it no more. */
  lemma MemorySettled(env: Setup, s: State, t: State, turn: nat, frame: seq<Word>, pushed: nat,
                      taken: nat, next: seq<Word>)
    requires AboutToTake(env, s, turn, frame, pushed, taken) && Took(env, s, t, turn, next)
    requires Heed(ReceiverTable(env, turn), Receiver(s, turn), Channel(s, turn)[0]).Accepted?
    ensures (turn >= 1 ==> t.rn16 == Remembered(env)) && Passed(env, turn + 1)
  {
    Taking(ReceiverTable(env, turn), turn, frame, Passes(env, turn), taken, Receiver(s, turn));
    ChannelMoves(frame, pushed, taken);
  }

  /** An accepted command was wholly taken, and its channel left empty. */
  lemma TurnUsedUp(env: Setup, s: State, t: State, turn: nat, frame: seq<Word>, pushed: nat,
                   taken: nat, next: seq<Word>)
    requires AboutToTake(env, s, turn, frame, pushed, taken) && Took(env, s, t, turn, next)
    requires Heed(ReceiverTable(env, turn), Receiver(s, turn), Channel(s, turn)[0]).Accepted? && turn < LAST_TURN
    ensures Sender(t, turn) == Receiving(turn + 1, [], 0) && Receiver(t, turn) == Sending(turn + 1, next)
    ensures Channel(t, turn) == [] && Back(t, turn) == []
  {
    Taking(ReceiverTable(env, turn), turn, frame, Passes(env, turn), taken, Receiver(s, turn));
    ChannelMoves(frame, pushed, taken);
  }

  lemma TakeLast(env: Setup, s: State, t: State, turn: nat, frame: seq<Word>, pushed: nat, taken: nat,
                 next: seq<Word>)
    requires AboutToTake(env, s, turn, frame, pushed, taken) && Took(env, s, t, turn, next)
    requires Heed(ReceiverTable(env, turn), Receiver(s, turn), Channel(s, turn)[0]).Accepted?
    requires turn < LAST_TURN && Faithful(env, turn + 1, next)
    ensures At(env, t, Crossing(turn + 1, next, 0, 0, false))
  {
    MemorySettled(env, s, t, turn, frame, pushed, taken, next);
    TurnUsedUp(env, s, t, turn, frame, pushed, taken, next);
    FreshTurn(turn + 1, next);
  }

  lemma TakeHandle(env: Setup, s: State, t: State, frame: seq<Word>, pushed: nat, taken: nat, next: seq<Word>)
    requires AboutToTake(env, s, LAST_TURN, frame, pushed, taken) && Took(env, s, t, LAST_TURN, next)
    requires Heed(ReceiverTable(env, LAST_TURN), Receiver(s, LAST_TURN), Channel(s, LAST_TURN)[0]).Accepted?
    ensures At(env, t, Finished)
  {
    Taking(ReceiverTable(env, LAST_TURN), LAST_TURN, frame, Passes(env, LAST_TURN), taken, Receiver(s, LAST_TURN));
    ChannelMoves(frame, pushed, taken);
  }

  /** Where a take leads. */
  lemma Takes(env: Setup, s: State, t: State, turn: nat, frame: seq<Word>, pushed: nat, taken: nat,
              next: seq<Word>) returns (after: Place)
    requires AboutToTake(env, s, turn, frame, pushed, taken) && Took(env, s, t, turn, next)
    requires Heed(ReceiverTable(env, turn), Receiver(s, turn), Channel(s, turn)[0]).Accepted? && turn < LAST_TURN
             ==> Faithful(env, turn + 1, next)
    ensures At(env, t, after) && Rank(after) < Rank(Crossing(turn, frame, pushed, taken, false))
  {
    var f := Heed(ReceiverTable(env, turn), Receiver(s, turn), Channel(s, turn)[0]);
    if !f.Accepted? {
      TakeMore(env, s, t, turn, frame, pushed, taken, next);
      after := Crossing(turn, frame, pushed, taken + 1, f.Refused?);
    } else if turn < LAST_TURN {
      TakeLast(env, s, t, turn, frame, pushed, taken, next);
      after := Crossing(turn + 1, next, 0, 0, false);
    } else {
      TakeHandle(env, s, t, frame, pushed, taken, next);
      after := Finished;
    }
  }

  lemma TagTook(env: Setup, s: State, turn: nat, t: State)
    requires Even(turn) && s.tag.Receiving? && s.tag.turn == turn && s.toTag != []
    requires t == TagStep(env, s)
    ensures TagMay(s) && Took(env, s, t, turn, FrameOf(env, turn + 1, 0))
  {
  }

  lemma TagReplyIsFaithful(env: Setup, turn: nat, next: seq<Word>)
    requires Even(turn) && next == FrameOf(env, turn + 1, 0)
    ensures Faithful(env, turn + 1, next)
  {
    TurnIsFaithful(env, turn + 1, 0, next);
  }

  lemma TagTakes(env: Setup, s: State, turn: nat, frame: seq<Word>, pushed: nat, taken: nat)
    returns (after: Place)
    requires AboutToTake(env, s, turn, frame, pushed, taken) && Even(turn)
    ensures TagMay(s) && At(env, TagStep(env, s), after)
    ensures Rank(after) < Rank(Crossing(turn, frame, pushed, taken, false))
  {
    var t, next := TagStep(env, s), FrameOf(env, turn + 1, 0);
    TagTook(env, s, turn, t);
    TagReplyIsFaithful(env, turn, next);
    after := Takes(env, s, t, turn, frame, pushed, taken, next);
  }

  lemma ReaderTook(env: Setup, s: State, turn: nat, t: State)
    requires !Even(turn) && s.reader.Receiving? && s.reader.turn == turn && s.toReader != []
    requires t == ReaderStep(env, s)
    ensures ReaderMay(s) && Took(env, s, t, turn, FrameOf(env, turn + 1, t.rn16))
  {
  }

  lemma ReplyIsFaithful(env: Setup, turn: nat, rn16: Word, next: seq<Word>)
    requires turn < LAST_TURN && next == FrameOf(env, turn + 1, rn16)
    ensures rn16 == Remembered(env) ==> Faithful(env, turn + 1, next)
  {
    if rn16 == Remembered(env) {
      TurnIsFaithful(env, turn + 1, rn16, next);
    }
  }

  lemma ReaderTakes(env: Setup, s: State, turn: nat, frame: seq<Word>, pushed: nat, taken: nat)
    returns (after: Place)
    requires AboutToTake(env, s, turn, frame, pushed, taken) && !Even(turn)
    ensures ReaderMay(s) && At(env, ReaderStep(env, s), after)
    ensures Rank(after) < Rank(Crossing(turn, frame, pushed, taken, false))
  {
    var t := ReaderStep(env, s);
    var next := FrameOf(env, turn + 1, t.rn16);
    ReaderTook(env, s, turn, t);
    if Heed(env.readerTable, s.reader, s.toReader[0]).Accepted? && turn < LAST_TURN {
      MemorySettled(env, s, t, turn, frame, pushed, taken, next);
      ReplyIsFaithful(env, turn, t.rn16, next);
    }
    after := Takes(env, s, t, turn, frame, pushed, taken, next);
  }

  // ---- whole runs ----------------------------------------------------------------------

  /** Each entry says whose move it is; a program that cannot move waits. */
  function Step(env: Setup, s: State, reader: bool): (t: State) {
    if reader then ReaderStep(env, s) else TagStep(env, s)
  }

  predicate May(s: State, reader: bool) { if reader then ReaderMay(s) else TagMay(s) }

  function Run(env: Setup, s: State, schedule: seq<bool>): (t: State)
    decreases |schedule|
  {
    if schedule == [] then s else Run(env, Step(env, s, schedule[0]), schedule[1..])
  }

  lemma Waits(env: Setup, s: State, reader: bool)
    requires !May(s, reader)
    ensures Step(env, s, reader) == s
  {
  }

  lemma ReaderKeeps(env: Setup, s: State, turn: nat, frame: seq<Word>, pushed: nat, taken: nat, givenUp: bool)
    returns (after: Place)
    requires At(env, s, Crossing(turn, frame, pushed, taken, givenUp)) && ReaderMay(s)
    ensures At(env, ReaderStep(env, s), after)
    ensures Rank(after) < Rank(Crossing(turn, frame, pushed, taken, givenUp))
  {
    if Even(turn) {
      ReaderPushes(env, s, turn, frame, pushed, taken, givenUp);
      after := Crossing(turn, frame, pushed + 1, taken, givenUp);
    } else {
      after := ReaderTakes(env, s, turn, frame, pushed, taken);
    }
  }

  lemma TagKeeps(env: Setup, s: State, turn: nat, frame: seq<Word>, pushed: nat, taken: nat, givenUp: bool)
    returns (after: Place)
    requires At(env, s, Crossing(turn, frame, pushed, taken, givenUp)) && TagMay(s)
    ensures At(env, TagStep(env, s), after)
    ensures Rank(after) < Rank(Crossing(turn, frame, pushed, taken, givenUp))
  {
    if !Even(turn) {
      TagPushes(env, s, turn, frame, pushed, taken, givenUp);
      after := Crossing(turn, frame, pushed + 1, taken, givenUp);
    } else {
      after := TagTakes(env, s, turn, frame, pushed, taken);
    }
  }

  /** Whoever moves, the run stays where it can be, and an effective move brings it closer to
      its end. */
  lemma StepKeeps(env: Setup, s: State, place: Place, reader: bool) returns (after: Place)
    requires At(env, s, place)
    ensures At(env, Step(env, s, reader), after)
    ensures if May(s, reader) then Rank(after) < Rank(place) else after == place
  {
    if !May(s, reader) {
      Waits(env, s, reader);
      after := place;
    } else {
      match place
      case Finished =>
        after := place;
      case Crossing(turn, frame, pushed, taken, givenUp) =>
        if reader {
          after := ReaderKeeps(env, s, turn, frame, pushed, taken, givenUp);
        } else {
          after := TagKeeps(env, s, turn, frame, pushed, taken, givenUp);
        }
    }
  }

  lemma {:induction false} RunKeeps(env: Setup, s: State, place: Place, schedule: seq<bool>)
    returns (after: Place)
    requires At(env, s, place)
    ensures At(env, Run(env, s, schedule), after) && Rank(after) <= Rank(place)
    decreases |schedule|
  {
    if schedule == [] {
      after := place;
    } else {
      var next := StepKeeps(env, s, place, schedule[0]);
      after := RunKeeps(env, Step(env, s, schedule[0]), next, schedule[1..]);
    }
  }

  /** At every moment of a run, what the FIFO of the current turn holds is a stretch of the one frame
      sent in that turn, and the FIFO the other way is empty; no frame has more than three packages. */
  lemma OneFrameInFlight(env: Setup, schedule: seq<bool>)
    ensures var s := Run(env, Start(env), schedule);
      (s.toTag == [] || s.toReader == []) && |s.toTag| <= 3 && |s.toReader| <= 3
    ensures var s := Run(env, Start(env), schedule);
      exists turn: nat, frame, taken: nat, pushed: nat ::
        && Faithful(env, turn, frame) && taken <= pushed <= |frame|
        && Channel(s, turn) == frame[taken..pushed] && Back(s, turn) == []
  {
    StartIsAt(env);
    var after := RunKeeps(env, Start(env), Crossing(0, FrameOf(env, 0, 0), 0, 0, false), schedule);
    if after.Finished? {
      var s, frame := Run(env, Start(env), schedule), FrameOf(env, 0, 0);
      assert Faithful(env, 0, frame) && Channel(s, 0) == frame[0..0] && Back(s, 0) == [];
    }
  }

  /** The handshake is through: both programs are done, nothing is left over, and the reader has
      the tag's handle. */
  predicate Complete(env: Setup, s: State) {
    && s.reader == Done && s.tag == Done && s.toTag == [] && s.toReader == []
    && s.read == Wide(env.handle)
  }

  predicate Stuck(s: State) { !May(s, true) && !May(s, false) }

  /** What it takes: an RN16 that is not zero and a handle of 1024 or more if both programs filled in
      their CRC tables; bits also in the low byte of the one and the low ten of the other if neither
      did; and no values do if only one of them did. */
  predicate Viable(env: Setup) {
    && env.readerTable == env.tagTable && env.random != 0 && env.handle >= 1024
    && (env.tagTable.Blank? ==> env.random & 0xFF != 0 && env.handle & 0x3FF != 0)
  }

  lemma ViableIsPassed(env: Setup)
    ensures Viable(env) <==> Passed(env, LAST_TURN + 1)
  {
    assert Passed(env, LAST_TURN + 1) <==> Passes(env, 1) && Passes(env, 3) && Passes(env, 4) && Passes(env, 5);
  }

  /** A run that cannot go on is a complete one if the setup is viable; otherwise no run completes. */
  lemma CompletesExactlyWhen(env: Setup, schedule: seq<bool>)
    requires Stuck(Run(env, Start(env), schedule))
    ensures Complete(env, Run(env, Start(env), schedule)) <==> Viable(env)
  {
    var s := Run(env, Start(env), schedule);
    StartIsAt(env);
    var place := RunKeeps(env, Start(env), Crossing(0, FrameOf(env, 0, 0), 0, 0, false), schedule);
    StuckMeans(env, s, place);
    ViableIsPassed(env);
  }

  lemma StuckMeans(env: Setup, s: State, place: Place)
    requires At(env, s, place) && Stuck(s)
    ensures Complete(env, s) <==> Passed(env, LAST_TURN + 1)
  {
    match place
    case Finished =>
    case Crossing(turn, frame, pushed, taken, givenUp) =>
      if pushed < |frame| {
        if Even(turn) {
          ReaderPushes(env, s, turn, frame, pushed, taken, givenUp);
        } else {
          TagPushes(env, s, turn, frame, pushed, taken, givenUp);
        }
      } else if !givenUp {
        if Even(turn) {
          var _ := TagTakes(env, s, turn, frame, pushed, taken);
        } else {
          var _ := ReaderTakes(env, s, turn, frame, pushed, taken);
        }
      }
  }

  /** A round in which someone who can move is given a move brings the run closer to its end. */
  lemma {:induction false} RoundLowers(env: Setup, s: State, place: Place, round: seq<bool>)
    returns (after: Place)
    requires At(env, s, place)
    requires (May(s, true) && true in round) || (May(s, false) && false in round)
    ensures At(env, Run(env, s, round), after) && Rank(after) < Rank(place)
    decreases |round|
  {
    var next := StepKeeps(env, s, place, round[0]);
    if May(s, round[0]) {
      after := RunKeeps(env, Step(env, s, round[0]), next, round[1..]);
    } else {
      Waits(env, s, round[0]);
      assert round == [round[0]] + round[1..];
      after := RoundLowers(env, s, place, round[1..]);
    }
  }

  lemma {:induction false} StuckStays(env: Setup, s: State, schedule: seq<bool>)
    requires Stuck(s)
    ensures Run(env, s, schedule) == s
    decreases |schedule|
  {
    if schedule != [] {
      Waits(env, s, schedule[0]);
      StuckStays(env, s, schedule[1..]);
    }
  }

  lemma {:induction false} RunAppends(env: Setup, s: State, before: seq<bool>, after: seq<bool>)
    ensures Run(env, s, before + after) == Run(env, Run(env, s, before), after)
    decreases |before|
  {
    if before == [] {
      assert before + after == after;
    } else {
      assert (before + after)[1..] == before[1..] + after;
      RunAppends(env, Step(env, s, before[0]), before[1..], after);
    }
  }

  predicate Fair(round: seq<bool>) { true in round && false in round }

  function Joined(rounds: seq<seq<bool>>): (schedule: seq<bool>) {
    if rounds == [] then [] else rounds[0] + Joined(rounds[1..])
  }

  lemma {:induction false} RoundsEnd(env: Setup, s: State, place: Place, rounds: seq<seq<bool>>)
    requires At(env, s, place) && Rank(place) <= |rounds|
    requires forall i :: 0 <= i < |rounds| ==> Fair(rounds[i])
    ensures Stuck(Run(env, s, Joined(rounds)))
    decreases |rounds|
  {
    if Stuck(s) {
      StuckStays(env, s, Joined(rounds));
    } else {
      assert |rounds| > 0;
      assert Fair(rounds[0]);
      var next := RoundLowers(env, s, place, rounds[0]);
      RunAppends(env, s, rounds[0], Joined(rounds[1..]));
      RoundsEnd(env, Run(env, s, rounds[0]), next, rounds[1..]);
    }
  }

  /** However the moves interleave, sixty rounds in which both programs get a move are enough: the
      handshake is then through exactly when the setup is viable. */
  lemma FairRunsComplete(env: Setup, rounds: seq<seq<bool>>)
    requires |rounds| >= 60 && forall i :: 0 <= i < |rounds| ==> Fair(rounds[i])
    ensures Complete(env, Run(env, Start(env), Joined(rounds))) <==> Viable(env)
  {
    StartIsAt(env);
    RoundsEnd(env, Start(env), Crossing(0, FrameOf(env, 0, 0), 0, 0, false), rounds);
    CompletesExactlyWhen(env, Joined(rounds));
  }

  /** With both tables filled in. */
  lemma InitialisedRunsComplete(env: Setup, rounds: seq<seq<bool>>)
    requires env.readerTable == env.tagTable == Filled
    requires |rounds| >= 60 && forall i :: 0 <= i < |rounds| ==> Fair(rounds[i])
    ensures Complete(env, Run(env, Start(env), Joined(rounds))) <==> env.random != 0 && env.handle >= 1024
  {
    FairRunsComplete(env, rounds);
  }

  lemma LowByteMeansNonzero(w: bv16)
    requires w & 0xFF != 0
    ensures w != 0
  {
  }

  /** As the two programs are written, neither fills in its table. */
  lemma WrittenRunsComplete(env: Setup, rounds: seq<seq<bool>>)
    requires env.readerTable == env.tagTable == Blank
    requires |rounds| >= 60 && forall i :: 0 <= i < |rounds| ==> Fair(rounds[i])
    ensures Complete(env, Run(env, Start(env), Joined(rounds)))
       <==> env.random & 0xFF != 0 && env.handle >= 1024 && env.handle & 0x3FF != 0
  {
    FairRunsComplete(env, rounds);
    if env.random & 0xFF != 0 {
      LowByteMeansNonzero(env.random);
    }
  }

  /** So a handle that is a multiple of 1024, or an RN16 that is one of 256, fails them, */
  lemma WrittenRunsFail(schedule: seq<bool>, random: bv16, handle: bv16)
    requires random == 0x0100 || handle == 0x0400
    ensures var env := Setup(random, handle, Blank, Blank);
      !Complete(env, Run(env, Start(env), schedule))
  {
    var env := Setup(random, handle, Blank, Blank);
    FailingBits(random, handle);
    CompleteIsStuck(env, Run(env, Start(env), schedule));
    if Complete(env, Run(env, Start(env), schedule)) {
      CompletesExactlyWhen(env, schedule);
    }
  }

  lemma FailingBits(random: bv16, handle: bv16)
    requires random == 0x0100 || handle == 0x0400
    ensures random & 0xFF == 0 || handle & 0x3FF == 0
  {
  }

  lemma CompleteIsStuck(env: Setup, s: State)
    ensures Complete(env, s) ==> Stuck(s)
  {
  }

  /** though with their tables filled in they would have come through. */
  lemma InitialisedRunsDoNot(random: bv16, handle: bv16, rounds: seq<seq<bool>>)
    requires (random == 0x0100 && handle >= 1024) || (random != 0 && handle == 0x0400)
    requires |rounds| >= 60 && forall i :: 0 <= i < |rounds| ==> Fair(rounds[i])
    ensures var env := Setup(random, handle, Filled, Filled);
      Complete(env, Run(env, Start(env), Joined(rounds)))
  {
    InitialisedRunsComplete(Setup(random, handle, Filled, Filled), rounds);
  }

  lemma ShippedBits()
    ensures 0xFD24 as bv16 & 0xFF != 0 && 0x7813 as bv16 >= 1024 && 0x7813 as bv16 & 0x3FF != 0
  {
  }

  /** The RN16 and the handle in the code do come through, with or without the tables. */
  lemma ShippedValuesComplete(t: Table, rounds: seq<seq<bool>>)
    requires |rounds| >= 60 && forall i :: 0 <= i < |rounds| ==> Fair(rounds[i])
    ensures var env := Setup(0xFD24, 0x7813, t, t);
      Complete(env, Run(env, Start(env), Joined(rounds)))
  {
    ShippedBits();
    FairRunsComplete(Setup(0xFD24, 0x7813, t, t), rounds);
  }

  // ---- the two programs ----------------------------------------------------------------

  class Exchange {
    const env: Setup
    var reader: Process
    var tag: Process
    var rn16: Word
    var read: Word
    var toTag: seq<Word>
    var toReader: seq<Word>

    ghost function Snapshot(): (s: State)
      reads this
    {
      State(reader, tag, rn16, read, toTag, toReader)
    }

    constructor (env: Setup)
      ensures this.env == env && Snapshot() == Start(env)
    {
      this.env := env;
      reader, tag := Sending(0, FrameOf(env, 0, 0)), Receiving(0, [], 0);
      rn16, read, toTag, toReader := 0, 0, [], [];
    }

    /** The reader pushes or takes one package, or waits. */
    method ReaderMove()
      modifies this
      ensures Snapshot() == Step(env, old(Snapshot()), true)
    {
      if MayPush(reader, toTag) {
        toTag := toTag + [reader.left[0]];
        reader := AfterPush(reader);
      } else if reader.Receiving? && toReader != [] {
        ReaderTake();
      }
    }

    method ReaderTake()
      requires reader.Receiving? && toReader != []
      modifies this
      ensures Snapshot() == AfterReaderTakes(env, old(Snapshot()))
    {
      var package := toReader[0];
      toReader := toReader[1..];
      rn16 := Remember(env.readerTable, reader, package, rn16);
      read := Handle(env.readerTable, reader, package, read);
      reader := AfterTake(env.readerTable, reader, package, FrameOf(env, reader.turn + 1, rn16));
    }

    /** The tag pushes or takes one package, or waits. */
    method TagMove()
      modifies this
      ensures Snapshot() == Step(env, old(Snapshot()), false)
    {
      if MayPush(tag, toReader) {
        toReader := toReader + [tag.left[0]];
        tag := AfterPush(tag);
      } else if tag.Receiving? && toTag != [] {
        var package := toTag[0];
        toTag := toTag[1..];
        tag := AfterTake(env.tagTable, tag, package, FrameOf(env, tag.turn + 1, 0));
      }
    }

    method Play(schedule: seq<bool>)
      modifies this
      ensures Snapshot() == Run(env, old(Snapshot()), schedule)
    {
      for i := 0 to |schedule|
        invariant Run(env, Snapshot(), schedule[i..]) == Run(env, old(Snapshot()), schedule)
      {
        assert schedule[i..][1..] == schedule[i + 1..];
        if schedule[i] {
          ReaderMove();
        } else {
          TagMove();
        }
      }
    }
  }
}
