/** The interrupt-driven JTAG UART driver: foreground `Write`, `Read` and `Close`
    share two rings with the interrupt routine and the one-second host timeout.

    Interleaving.  Everything the outside world will do is laid out beforehand in
    `script`, a finite sequence of batches of events.  Foreground code calls
    `Interleave` between every two of its accesses to shared state (inside `memcpy`
    after every byte, between the two operands of a spin test, between one call and the
    next), and each call consumes one batch, possibly empty.  A contract that holds for
    every script therefore holds for every interleaving.  A spin loop that outlives the
    script reports `Waiting`. */
module JtagUart {
  import opened Ring

  const INT_MAX: nat := 0x7FFF_FFFF

  /** One turn of the interrupt routine's outer loop: what the host did before the control
      register is read, and which of the enabled interrupts the device shows as pending. */
  datatype Pass = Pass(takes: nat, sends: seq<Byte>, readPending: bool, writePending: bool)

  datatype Event =
    | HostTakes(n: nat)          // the host drains bytes from the device's transmit FIFO
    | HostSends(data: seq<Byte>) // bytes arrive in the device's receive FIFO
    | Interrupt(passes: seq<Pass>)
    | Timeout(active: bool)      // the alarm; `active` is the device's AC bit

  /** An interrupt at which the device has taken bytes and shows room for more. */
  predicate DrainEvent(event: Event) {
    && event.Interrupt? && event.passes != []
    && event.passes[0].takes > 0 && event.passes[0].writePending
  }

  /** An interrupt at which the device shows bytes the host has sent. */
  predicate SupplyEvent(event: Event) {
    && event.Interrupt? && event.passes != []
    && event.passes[0].sends != [] && event.passes[0].readPending
  }

  predicate Drains(batch: seq<Event>) { exists i :: 0 <= i < |batch| && DrainEvent(batch[i]) }

  predicate Supplies(batch: seq<Event>) { exists i :: 0 <= i < |batch| && SupplyEvent(batch[i]) }

  /** The number of batches in which the device takes bytes and shows room. */
  ghost function DrainCount(script: seq<seq<Event>>): nat {
    if script == [] then 0 else (if Drains(script[0]) then 1 else 0) + DrainCount(script[1..])
  }

  /** The number of batches in which the device shows bytes from the host. */
  ghost function SupplyCount(script: seq<seq<Event>>): nat {
    if script == [] then 0 else (if Supplies(script[0]) then 1 else 0) + SupplyCount(script[1..])
  }

  lemma {:induction false} NoneSupplies(script: seq<seq<Event>>)
    requires SupplyCount(script) == 0
    ensures forall k :: 0 <= k < |script| ==> !Supplies(script[k])
  {
    if script != [] {
      NoneSupplies(script[1..]);
      assert forall k :: 0 < k < |script| ==> script[k] == script[1..][k - 1];
    }
  }

  /** What a call remembers of the state it starts in: the two histories it may extend, and how many
      bytes were sent and received, alarms gone off and draining batches still to come. */
  datatype Start = Start(accepted: seq<Byte>, returned: seq<Byte>, wire: nat, received: nat, alarms: nat, drains: nat)

  /** How a turn of write's outer loop ended. */
  datatype Round = AllCopied | GaveUp | Drained | StillFull

  datatype WriteResult = Wrote(n: nat) | WouldBlock | IoError | Waiting(sofar: nat)
  datatype ReadResult = Got(n: nat) | NoData | ReadError | WaitingForData
  datatype CloseResult = Closed | CloseWouldBlock | WaitingForDrain

  class Uart {
    // driver state
    var rxIn: nat
    var rxOut: nat
    var txIn: nat
    var txOut: nat
    const rxBuf: array<Byte>
    const txBuf: array<Byte>
    var irqRe: bool
    var irqWe: bool
    var hostInactive: nat
    const timeout: nat

    // device: the two enable bits, received bytes not yet read, free transmit slots
    var deviceRe: bool
    var deviceWe: bool
    var rxFifo: seq<Byte>
    var txSpace: nat

    // the future, and what has happened so far
    var script: seq<seq<Event>>
    ghost var accepted: seq<Byte>  // published by write calls
    ghost var wire: seq<Byte>      // written to the device's data register
    ghost var received: seq<Byte>  // valid bytes read from the data register
    ghost var returned: seq<Byte>  // released to read callers
    ghost var arrived: seq<Byte>   // sent by the host
    ghost var alarms: nat          // timeout alarms gone off
    ghost var silentAt: int        // the last of them to leave the host silent too long, or -1

    /** Bytes sent are a prefix of the bytes accepted, and the transmit ring holds the rest. */
    ghost predicate TxValid()
      reads this`txIn, this`txOut, this`accepted, this`wire, this`irqWe, this`deviceWe, txBuf
    {
      && txIn == Slot(|accepted|) && txOut == Slot(|wire|)
      && wire <= accepted && Holds(txBuf, accepted, |wire|)
      && deviceWe == irqWe
    }

    /** Bytes returned are a prefix of the bytes received, and the receive ring holds the rest. */
    ghost predicate RxValid()
      reads this`rxIn, this`rxOut, this`rxFifo, this`arrived, this`received, this`returned
      reads this`irqRe, this`deviceRe, rxBuf
    {
      && rxIn == Slot(|received|) && rxOut == Slot(|returned|)
      && returned <= received && Holds(rxBuf, received, |returned|)
      && received + rxFifo == arrived
      && deviceRe == irqRe
    }

    /** The host counts as silent right now exactly when the last alarm left it so. */
    ghost predicate AlarmValid()
      reads this`hostInactive, this`alarms, this`silentAt
    {
      && 0 < timeout <= INT_MAX
      && silentAt <= alarms && (hostInactive >= timeout <==> silentAt == alarms)
    }

    /** Nothing lost, duplicated or reordered in either direction, and the device's enable
        bits are the driver's.  Holds between any two accesses to shared state. */
    ghost predicate Valid()
      reads this, txBuf, rxBuf
    {
      TxValid() && RxValid() && AlarmValid() && txBuf != rxBuf
    }

    /** No lost transmit wake-up: data waiting to be sent has its interrupt enabled. */
    ghost predicate TxAwake()
      reads this
    {
      |wire| < |accepted| ==> deviceWe
    }

    /** No stuck receiver: receive interrupts are off only while there is something to read. */
    ghost predicate RxAwake()
      reads this
    {
      !deviceRe ==> |returned| < |received|
    }

    /** All the interrupt routine may do to the transmit side between two foreground steps:
        take bytes from the front of the ring, and switch the interrupt off once it is empty. */
    twostate predicate TxInterference()
      reads this
    {
      && txIn == old(txIn) && accepted == old(accepted)
      && old(wire) <= wire
      && (irqWe == old(irqWe) || (!irqWe && |wire| == |accepted|))
    }

    /** All it may do to the receive side: add bytes at the back of the ring, and switch the
        interrupt off once the ring is full. */
    twostate predicate RxInterference()
      reads this
    {
      && rxOut == old(rxOut) && returned == old(returned)
      && old(received) <= received
      && (irqRe == old(irqRe) || (!irqRe && |received| - |returned| == BUF_LEN - 1))
    }

    /** Alarms that went off and bytes that were sent or received stay so. */
    twostate predicate TimePasses()
      reads this`alarms, this`silentAt, this`wire, this`received
    {
      && old(alarms) <= alarms && old(silentAt) <= silentAt
      && |old(wire)| <= |wire| && |old(received)| <= |received|
    }

    twostate predicate Interference()
      reads this
    {
      TxInterference() && RxInterference() && TimePasses()
    }

    /** The host counted as silent at some moment since. */
    twostate predicate SilentSince()
      reads this`silentAt
    {
      silentAt >= old(alarms)
    }

    constructor (timeout: nat, script: seq<seq<Event>>, txSpace: nat)
      requires 0 < timeout <= INT_MAX
      ensures Valid() && TxAwake() && RxAwake() && fresh(txBuf) && fresh(rxBuf)
      ensures accepted == wire == arrived == received == returned == []
      ensures irqRe && !irqWe && this.timeout == timeout && this.script == script
      ensures alarms == 0 && silentAt == -1
    {
      rxIn, rxOut, txIn, txOut := 0, 0, 0, 0;
      rxBuf, txBuf := new Byte[BUF_LEN], new Byte[BUF_LEN];
      irqRe, irqWe, deviceRe, deviceWe := true, false, true, false;
      hostInactive, this.timeout := 0, timeout;
      alarms, silentAt := 0, -1;
      rxFifo, this.txSpace, this.script := [], txSpace, script;
      accepted, wire, received, returned, arrived := [], [], [], [], [];
    }

    // ---- the device's registers -------------------------------------------------

    /** Reading the data register pops a byte if there is one; `more` is RAVAIL nonzero. */
    method ReadData() returns (valid: bool, data: Byte, more: bool)
      modifies this`rxFifo
      ensures valid <==> old(rxFifo) != []
      ensures valid ==> [data] + rxFifo == old(rxFifo)
      ensures !valid ==> rxFifo == []
      ensures more <==> rxFifo != []
    {
      valid := rxFifo != [];
      if valid {
        data, rxFifo := rxFifo[0], rxFifo[1..];
      } else {
        data := 0;
      }
      more := rxFifo != [];
    }

    /** Writing the data register needs a free slot: the device drops what does not fit. */
    method WriteData(b: Byte)
      requires txSpace > 0
      modifies this`txSpace, this`wire
      ensures txSpace == old(txSpace) - 1 && wire == old(wire) + [b]
    {
      txSpace := txSpace - 1;
      wire := wire + [b];
    }

    // ---- interrupt level ---------------------------------------------------------

    /** Move the oldest byte of the transmit ring to the device. */
    method SendOne()
      requires TxValid() && txSpace > 0 && |wire| < |accepted|
      modifies this`txOut, this`txSpace, this`wire
      ensures TxValid() && txSpace == old(txSpace) - 1
      ensures old(wire) <= wire && |wire| == |old(wire)| + 1
    {
      assert accepted[|wire|] == txBuf[Slot(|wire|)];
      SlotAdvance(|wire|, 1);
      WriteData(txBuf[txOut]);
      txOut := Slot(txOut + 1);
    }

    /** Drain the transmit ring into the device while both have room and data. */
    method Transmit()
      requires TxValid()
      modifies this`txOut, this`irqWe, this`deviceWe, this`txSpace, this`wire
      ensures TxValid() && TxInterference()
      ensures |wire| + txSpace == |old(wire)| + old(txSpace)
      ensures txSpace == 0 || (|wire| == |accepted| && !irqWe)
      ensures old(txSpace) > 0 && |old(wire)| < |accepted| ==> |old(wire)| < |wire|
    {
      var space := txSpace;
      while space > 0 && txOut != txIn
        invariant space == txSpace && |wire| + space == |old(wire)| + old(txSpace)
        invariant irqWe == old(irqWe) && TxValid() && old(wire) <= wire
        decreases space
      {
        SendOne();
        space := space - 1;
      }
      NoFullCircle(|wire|, |accepted|);
      if space > 0 {
        irqWe := false;
        deviceWe := false;
      }
    }

    /** One turn of the receive loop: unless the ring is full, read the device once. */
    method ReceiveOne() returns (stop: bool, tried: bool, more: bool)
      requires RxValid()
      modifies this`rxIn, this`rxFifo, this`received, rxBuf
      ensures RxValid() && old(received) <= received
      ensures !tried <==> |old(received)| - |returned| == BUF_LEN - 1
      ensures !tried ==> stop && rxFifo == old(rxFifo) && received == old(received)
      ensures tried ==> (stop <==> old(rxFifo) == []) && (more <==> rxFifo != [])
      ensures !stop ==> |rxFifo| < |old(rxFifo)| && |received| == |old(received)| + 1
    {
      FullTest(|returned|, |received|);
      tried := Slot(rxIn + 1) != rxOut;
      stop, more := true, false;
      if tried {
        var valid, data;
        valid, data, more := ReadData();
        if valid {
          StoreReceived(data);
          stop := false;
        }
      }
    }

    /** Move bytes from the device into the receive ring until either is exhausted; stop
        receive interrupts exactly when the device still holds data, or was not looked at because
        the ring was full from the start. */
    method Receive()
      requires RxValid()
      modifies this`rxIn, this`irqRe, this`deviceRe, this`rxFifo, this`received, rxBuf
      ensures RxValid() && RxInterference()
      ensures var off := rxFifo != [] || |old(received)| - |returned| == BUF_LEN - 1;
        irqRe == (old(irqRe) && !off) && deviceRe == (old(deviceRe) && !off)
      ensures old(rxFifo) != [] && |returned| == |old(received)| ==> |old(received)| < |received|
    {
      var more := true;
      var stop := false;
      ghost var looked := false;
      while !stop
        invariant irqRe == old(irqRe) && deviceRe == old(deviceRe) && RxValid() && old(received) <= received
        invariant looked ==> (more <==> rxFifo != []) && |old(received)| - |returned| < BUF_LEN - 1
        invariant !looked ==> more && received == old(received) && rxFifo == old(rxFifo)
        invariant stop && !looked ==> |received| - |returned| == BUF_LEN - 1
        invariant stop && more ==> |received| - |returned| == BUF_LEN - 1
        invariant received == old(received) ==> rxFifo == old(rxFifo)
        decreases |rxFifo|, !stop
      {
        var tried, left;
        stop, tried, left := ReceiveOne();
        more := if tried then left else more;
        looked := looked || tried;
      }
      if more {
        irqRe := false;
        deviceRe := false;
      }
    }

    /** Put the byte just read from the device in the receive ring, seen not to be full. */
    method StoreReceived(data: Byte)
      requires rxIn == Slot(|received|) && rxOut == Slot(|returned|)
      requires returned <= received && Holds(rxBuf, received, |returned|)
      requires Slot(rxIn + 1) != rxOut
      modifies this`rxIn, this`received, rxBuf
      ensures rxIn == Slot(|received|) && received == old(received) + [data]
      ensures Holds(rxBuf, received, |returned|)
    {
      FullTest(|returned|, |received|);
      SlotAdvance(|received|, 1);
      SlotsDiffer(|returned|, |received|);
      rxBuf[rxIn] := data;
      rxIn := Slot(rxIn + 1);
      received := received + [data];
    }

    method HostActs(takes: nat, sends: seq<Byte>)
      requires RxValid()
      modifies this`txSpace, this`rxFifo, this`arrived
      ensures RxValid() && txSpace == old(txSpace) + takes && rxFifo == old(rxFifo) + sends
      ensures arrived == old(arrived) + sends
    {
      txSpace := txSpace + takes;
      rxFifo := rxFifo + sends;
      arrived := arrived + sends;
    }

    /** What a turn of the interrupt routine's loop does about the receive interrupt. */
    method ServiceRead(pending: bool)
      requires Valid()
      modifies this`rxIn, this`irqRe, this`deviceRe, this`rxFifo, this`received, rxBuf
      ensures Valid() && RxInterference()
      ensures pending ==> rxFifo == [] || !irqRe
      ensures pending && old(rxFifo) != [] && |returned| == |old(received)| ==> |old(received)| < |received|
    {
      if pending {
        Receive();
      }
    }

    /** And about the transmit interrupt. */
    method ServiceWrite(pending: bool)
      requires Valid()
      modifies this`txOut, this`irqWe, this`deviceWe, this`txSpace, this`wire
      ensures Valid() && TxInterference()
      ensures pending ==> txSpace == 0 || (|wire| == |accepted| && !irqWe)
      ensures pending && old(txSpace) > 0 && |old(wire)| < |accepted| ==> |old(wire)| < |wire|
    {
      if pending {
        Transmit();
      }
    }

    /** And about both. */
    method Service(read: bool, write: bool)
      requires Valid()
      modifies this, rxBuf
      ensures Valid() && Interference() && script == old(script)
      ensures read ==> rxFifo == [] || !irqRe
      ensures write ==> txSpace == 0 || (|wire| == |accepted| && !irqWe)
      ensures write && old(txSpace) > 0 && |old(wire)| < |accepted| ==> |old(wire)| < |wire|
      ensures read && old(rxFifo) != [] && |returned| == |old(received)| ==> |old(received)| < |received|
    {
      ServiceRead(read);
      ServiceWrite(write);
    }

    /** One turn of the interrupt routine's loop.  A pending bit shows only while its enable
        bit is set. */
    method OnePass(pass: Pass) returns (busy: bool)
      requires Valid()
      modifies this, rxBuf
      ensures Valid() && Interference() && script == old(script)
      ensures pass.readPending && old(deviceRe) ==> rxFifo == [] || !irqRe
      ensures pass.writePending && old(deviceWe) ==> txSpace == 0 || (|wire| == |accepted| && !irqWe)
      ensures pass.writePending && pass.takes > 0 && old(deviceWe) && |old(wire)| < |accepted| ==> |old(wire)| < |wire|
      ensures pass.readPending && pass.sends != [] && old(deviceRe) && |returned| == |old(received)| ==>
        |old(received)| < |received|
    {
      HostActs(pass.takes, pass.sends);
      var ri := pass.readPending && deviceRe;
      var wi := pass.writePending && deviceWe;
      Service(ri, wi);
      busy := ri || wi;
    }

    /** The interrupt routine.  The passes are what successive reads of the control register
        will show. */
    method Irq(passes: seq<Pass>)
      requires Valid()
      modifies this, rxBuf
      ensures Valid() && Interference() && script == old(script)
      ensures DrainEvent(Interrupt(passes)) && old(deviceWe) && |old(wire)| < |accepted| ==> |old(wire)| < |wire|
      ensures SupplyEvent(Interrupt(passes)) && old(deviceRe) && |returned| == |old(received)| ==>
        |old(received)| < |received|
    {
      for i := 0 to |passes|
        invariant Valid() && Interference() && script == old(script)
        invariant i == 0 ==> unchanged(this)
        invariant i > 0 && DrainEvent(Interrupt(passes)) && old(deviceWe) && |old(wire)| < |accepted| ==>
          |old(wire)| < |wire|
        invariant i > 0 && SupplyEvent(Interrupt(passes)) && old(deviceRe) && |returned| == |old(received)| ==>
          |old(received)| < |received|
      {
        var busy := OnePass(passes[i]);
        if !busy {
          break;
        }
      }
    }

    /** The once-a-second alarm: watch the device's host-activity bit. */
    method TimeoutAlarm(active: bool)
      requires Valid()
      modifies this`deviceRe, this`deviceWe, this`hostInactive, this`alarms, this`silentAt
      ensures Valid() && Interference()
      ensures hostInactive == if active then 0
        else if old(hostInactive) < INT_MAX - 2 then old(hostInactive) + 1 else old(hostInactive)
      ensures alarms == old(alarms) + 1
      ensures silentAt == if hostInactive >= timeout then alarms else old(silentAt)
    {
      if active {
        deviceRe, deviceWe := irqRe, irqWe;
        hostInactive := 0;
      } else if hostInactive < INT_MAX - 2 {
        hostInactive := hostInactive + 1;
      }
      Note();
    }

    /** Keep the record of the alarm that has just gone off. */
    ghost method Note()
      requires 0 < timeout <= INT_MAX && silentAt <= alarms
      modifies this`alarms, this`silentAt
      ensures AlarmValid() && alarms == old(alarms) + 1
      ensures silentAt == if hostInactive >= timeout then alarms else old(silentAt)
    {
      alarms := alarms + 1;
      if hostInactive >= timeout {
        silentAt := alarms;
      }
    }

    method Happen(event: Event)
      requires Valid()
      modifies this, rxBuf
      ensures Valid() && Interference() && script == old(script)
      ensures DrainEvent(event) && old(deviceWe) && |old(wire)| < |accepted| ==> |old(wire)| < |wire|
      ensures SupplyEvent(event) && old(deviceRe) && |returned| == |old(received)| ==>
        |old(received)| < |received|
    {
      match event {
        case HostTakes(n) => HostActs(n, []);
        case HostSends(data) => HostActs(0, data);
        case Interrupt(passes) => Irq(passes);
        case Timeout(active) => TimeoutAlarm(active);
      }
    }

    /** At most n draining batches have gone by without a byte reaching the wire for each; none,
        if bytes were waiting with their interrupt enabled and still all are. */
    twostate predicate Spent(n: nat)
      reads this`script, this`wire, this`accepted
    {
      && |script| <= |old(script)|
      && DrainCount(old(script)) + |old(wire)| <= DrainCount(script) + |wire| + n
      && (old(TxAwake()) && |accepted| == |old(accepted)| && |wire| == |old(wire)| < |accepted| ==>
            DrainCount(old(script)) == DrainCount(script))
    }

    /** No batch that supplies bytes has gone by if the ring was empty with its interrupt enabled
        and nothing has come in since. */
    twostate predicate Unsupplied()
      reads this`script, this`received, this`returned
    {
      old(RxAwake()) && |received| == |old(received)| == |returned| == |old(returned)| ==>
        SupplyCount(old(script)) == SupplyCount(script)
    }

    /** Consume one batch of the script. */
    method Interleave()
      requires Valid()
      modifies this, rxBuf
      ensures Valid() && Interference()
      ensures if old(script) == [] then script == [] && unchanged(this) else script == old(script)[1..]
      ensures Spent(1) && Unsupplied()
      ensures old(TxAwake()) && |old(wire)| < |accepted| ==> Spent(0)
    {
      if script == [] {
        return;
      }
      var batch := script[0];
      script := script[1..];
      Play(batch);
    }

    /** The events of one batch, in order. */
    method Play(batch: seq<Event>)
      requires Valid()
      modifies this, rxBuf
      ensures Valid() && Interference() && script == old(script)
      ensures Drains(batch) && old(TxAwake()) && |old(wire)| < |accepted| ==> |old(wire)| < |wire|
      ensures Supplies(batch) && old(RxAwake()) && |returned| == |old(received)| ==> |old(received)| < |received|
    {
      for i := 0 to |batch|
        invariant Valid() && Interference() && script == old(script)
        invariant old(TxAwake()) && |old(wire)| == |wire| < |accepted| ==>
          forall k :: 0 <= k < i ==> !DrainEvent(batch[k])
        invariant old(RxAwake()) && |returned| == |old(received)| == |received| ==>
          forall k :: 0 <= k < i ==> !SupplyEvent(batch[k])
      {
        Happen(batch[i]);
      }
    }

    // ---- foreground ----------------------------------------------------------------

    /** Time runs down the script; with the script used up the outside world stands still. */
    twostate predicate Quiet()
      reads this
    {
      && |script| <= |old(script)| && TimePasses()
      && (old(script) == [] ==> wire == old(wire) && received == old(received) && hostInactive == old(hostInactive))
    }

    /** The `memcpy` of write: bytes to the slots after the producer index, one by one, with
        interrupts in between.  Nothing is published yet. */
    method CopyIn(data: seq<Byte>)
      requires Valid()
      requires txIn + |data| <= BUF_LEN && |accepted| + |data| < |wire| + BUF_LEN
      modifies this, txBuf, rxBuf
      ensures Valid() && Interference() && Quiet()
      ensures StoredAt(txBuf, |accepted|, data)
      ensures Spent(|data|)
    {
      for i := 0 to |data|
        invariant Valid() && Interference() && Quiet() && Spent(i)
        invariant StoredAt(txBuf, |accepted|, data[..i])
      {
        CopyStep(data, i);
      }
      assert data[..|data|] == data;
    }

    /** One turn of it. */
    method CopyStep(data: seq<Byte>, i: nat)
      requires Valid() && i < |data| && StoredAt(txBuf, |accepted|, data[..i])
      requires txIn + |data| <= BUF_LEN && |accepted| + |data| < |wire| + BUF_LEN
      modifies this, txBuf, rxBuf
      ensures Valid() && Interference() && Quiet() && Spent(1)
      ensures StoredAt(txBuf, |accepted|, data[..i + 1])
    {
      StoreAhead(data[i], i, data[..i]);
      assert data[..i + 1] == data[..i] + [data[i]];
      Interleave();
    }

    /** One byte of that copy: it lands behind everything the ring holds. */
    method StoreAhead(b: Byte, i: nat, ghost done: seq<Byte>)
      requires TxValid() && txIn + i < BUF_LEN && |accepted| + i + 1 < |wire| + BUF_LEN
      requires |done| == i && StoredAt(txBuf, |accepted|, done)
      modifies txBuf
      ensures TxValid() && StoredAt(txBuf, |accepted|, done + [b])
    {
      SlotInRun(|accepted|, i);
      SlotsDiffer(|wire|, |accepted| + i);
      txBuf[txIn + i] := b;
    }

    /** Move the producer index: the bytes copied become part of the ring. */
    method PublishTx(n: nat, ghost data: seq<Byte>)
      requires TxValid() && |data| == n && |accepted| + n < |wire| + BUF_LEN
      requires StoredAt(txBuf, |accepted|, data)
      modifies this`txIn, this`accepted
      ensures TxValid() && accepted == old(accepted) + data
    {
      SlotAdvance(|accepted|, n);
      txIn := Slot(txIn + n);
      accepted := accepted + data;
    }

    /** Snapshot both indices.  The copy `out` of the consumer index, taken after `taken`
        bytes had gone, may be stale at once, and then understates the room `n`: the room is
        still there now, and is zero exactly when the ring was full at the snapshot. */
    method SnapshotTx() returns (n: nat, out: nat, ghost taken: nat)
      requires Valid()
      modifies this, rxBuf
      ensures Valid() && Interference() && Quiet()
      ensures |old(wire)| <= taken <= |wire| && out == Slot(taken)
      ensures txIn + n <= BUF_LEN && |accepted| + n < |wire| + BUF_LEN
      ensures n == 0 <==> |accepted| - taken == BUF_LEN - 1
      ensures old(script) == [] ==> taken == |wire|
      ensures Spent(2)
    {
      var inn := txIn;
      Interleave();
      out, taken := txOut, |wire|;
      Interleave();
      FreeRunIsSafe(taken, |wire|, |accepted|);
      n := FreeRun(inn, out);
    }

    /** Copy, then publish. */
    method Append(data: seq<Byte>)
      requires Valid()
      requires txIn + |data| <= BUF_LEN && |accepted| + |data| < |wire| + BUF_LEN
      modifies this, txBuf, rxBuf
      ensures Valid() && RxInterference() && Quiet()
      ensures old(wire) <= wire && accepted == old(accepted) + data
      ensures Spent(|data|)
    {
      CopyIn(data);
      PublishTx(|data|, data);
    }

    /** One turn of write's inner loop; nothing is copied exactly when the ring was full at the
        snapshot `out`, taken after `taken` bytes had gone. */
    method FillOnce(data: seq<Byte>) returns (n: nat, out: nat, ghost taken: nat)
      requires Valid() && data != []
      modifies this, txBuf, rxBuf
      ensures Valid() && RxInterference() && Quiet() && Spent(n + 2)
      ensures old(wire) <= wire && n <= |data| && accepted == old(accepted) + data[..n]
      ensures |old(wire)| <= taken <= |wire| && out == Slot(taken)
      ensures n == 0 <==> |old(accepted)| - taken == BUF_LEN - 1
      ensures n == 0 ==> TxInterference()
      ensures n == 0 && old(script) == [] ==> taken == |wire|
    {
      n, out, taken := SnapshotTx();
      if n > |data| {
        n := |data|;
      }
      if n > 0 {
        Append(data[..n]);
      }
    }

    /** One turn of write's inner loop, `n` bytes of `data` on. */
    method FillStep(data: seq<Byte>, n: nat, ghost accepted0: seq<Byte>)
      returns (m: nat, out: nat, ghost taken: nat)
      requires Valid() && n < |data| && accepted == accepted0 + data[..n]
      modifies this, txBuf, rxBuf
      ensures Valid() && RxInterference() && Quiet() && Spent(m + 2)
      ensures n + m <= |data| && accepted == accepted0 + data[..n + m]
      ensures |old(wire)| <= taken <= |wire| && out == Slot(taken)
      ensures m == 0 <==> |old(accepted)| - taken == BUF_LEN - 1
      ensures m == 0 ==> TxInterference()
      ensures m == 0 && old(script) == [] ==> taken == |wire|
    {
      m, out, taken := FillOnce(data[n..]);
      PrefixExtends(data, n, m);
    }

    /** Write's inner loop: copy as much as fits.  When bytes are left over, the ring was full
        at the last snapshot of the consumer index. */
    method Fill(data: seq<Byte>) returns (n: nat, out: nat, ghost taken: nat)
      requires Valid() && data != []
      modifies this, txBuf, rxBuf
      ensures Valid() && RxInterference() && Quiet() && Spent(3 * n + 2)
      ensures n <= |data| && accepted == old(accepted) + data[..n]
      ensures n < |data| ==> FullAt(out, taken) && |old(wire)| <= taken
      ensures n < |data| && old(script) == [] ==> taken == |wire|
      ensures n == 0 ==> TxInterference()
      ensures |old(accepted)| - |old(wire)| < BUF_LEN - 1 ==> n > 0
    {
      n, out, taken := 0, 0, 0;
      var m: nat := 1;
      while m > 0 && n < |data|
        invariant Valid() && RxInterference() && Quiet()
        invariant n <= |data| && accepted == old(accepted) + data[..n]
        invariant Spent(if m > 0 then 3 * n else 3 * n + 2) && (n == 0 ==> TxInterference())
        invariant n == 0 && m > 0 ==> unchanged(this)
        invariant m == 0 ==> FullAt(out, taken) && |old(wire)| <= taken
        invariant m == 0 && old(script) == [] ==> taken == |wire|
        invariant m == 0 && |old(accepted)| - |old(wire)| < BUF_LEN - 1 ==> n > 0
        decreases m > 0, |data| - n
      {
        m, out, taken := FillStep(data, n, old(accepted));
        n := n + m;
      }
    }

    /** The consumer index stood at `out` after `taken` bytes had gone, and the ring was full then. */
    ghost predicate FullAt(out: nat, taken: nat)
      reads this`accepted, this`wire
    {
      out == Slot(taken) && taken <= |wire| && |accepted| - taken == BUF_LEN - 1
    }

    /** Enable the transmit interrupt with interrupts disabled around the update. */
    method Kick()
      requires TxValid()
      modifies this`irqWe, this`deviceWe
      ensures TxValid() && TxAwake() && irqWe && deviceWe
    {
      irqWe := true;
      deviceWe := irqWe;
    }

    /** The window between publishing and enabling, in which interrupts may still come, and the
        enabling. */
    method KickLater()
      requires Valid()
      modifies this, rxBuf
      ensures Valid() && TxAwake() && irqWe && deviceWe && RxInterference() && Quiet() && Spent(1)
      ensures accepted == old(accepted) && old(wire) <= wire
      ensures old(script) != [] ==> |script| < |old(script)|
    {
      Interleave();
      Kick();
    }

    /** Fill the ring, then enable the transmit interrupt.  Between publishing and enabling lies
        the only window in which the ring may hold bytes with the interrupt off. */
    method FillAndKick(rest: seq<Byte>) returns (n: nat, out: nat, ghost taken: nat)
      requires Valid()
      modifies this, txBuf, rxBuf
      ensures Valid() && TxAwake() && irqWe && deviceWe && RxInterference() && Quiet() && Spent(3 * n + 3)
      ensures n <= |rest| && accepted == old(accepted) + rest[..n]
      ensures n < |rest| ==> FullAt(out, taken) && |old(wire)| <= taken
      ensures n < |rest| && old(script) == [] ==> taken == |wire|
      ensures old(script) != [] ==> |script| < |old(script)|
      ensures rest != [] && |old(accepted)| - |old(wire)| < BUF_LEN - 1 ==> n > 0
    {
      n, out, taken := 0, 0, 0;
      if rest != [] {
        n, out, taken := Fill(rest);
      }
      KickLater();
    }

    /** One test of write's spin loop: a look at the consumer index, then one at the counter.
        `last` says that nothing more could happen from the first look on. */
    method PollDrain(out: nat, ghost taken: nat) returns (over: bool, last: bool)
      requires Valid() && TxAwake() && FullAt(out, taken)
      modifies this, rxBuf
      ensures Valid() && Interference() && Quiet() && Spent(if over then 2 else 0)
      ensures over ==> |wire| > taken || hostInactive >= timeout
      ensures !over && last ==> script == [] && |wire| == taken && hostInactive < timeout
      ensures last || |script| < |old(script)|
    {
      Interleave();
      NoFullCircle(taken, |wire|);
      last, over := script == [], out != txOut;
      Interleave();
      over := over || hostInactive >= timeout;
    }

    /** Write's spin loop: poll until a byte has left the ring since the snapshot `out` or the
        host has been silent too long. */
    method AwaitDrain(out: nat, ghost taken: nat) returns (waiting: bool)
      requires Valid() && TxAwake() && FullAt(out, taken)
      modifies this, rxBuf
      ensures Valid() && Interference() && Quiet() && Spent(2)
      ensures waiting ==> script == [] && |wire| == taken && hostInactive < timeout
      ensures !waiting ==> |wire| > taken || hostInactive >= timeout
    {
      var over, last := PollDrain(out, taken);
      while !over && !last
        invariant Valid() && TxAwake() && Interference() && Quiet() && Spent(if over then 2 else 0)
        invariant FullAt(out, taken)
        invariant over ==> |wire| > taken || hostInactive >= timeout
        invariant !over && last ==> script == [] && |wire| == taken && hostInactive < timeout
        decreases |script|, !last, !over
      {
        over, last := PollDrain(out, taken);
      }
      return !over;
    }

    /** Room in the transmit ring. */
    ghost predicate Room()
      reads this`accepted, this`wire
    {
      |accepted| - |wire| < BUF_LEN - 1
    }

    /** Why a blocking write gives up: the host is not known to be active, and the wait ended with
        room in the ring or with a host silent too long. */
    twostate predicate HostGone()
      reads this
    {
      hostInactive > 0 && (Room() || SilentSince())
    }

    /** The blocking end of a round. */
    method AwaitSpace(out: nat, ghost taken: nat) returns (round: Round)
      requires Valid() && TxAwake() && FullAt(out, taken)
      modifies this, rxBuf
      ensures Valid() && Interference() && Quiet() && Spent(3)
      ensures round == GaveUp || round == Drained || round == StillFull
      ensures round == GaveUp ==> HostGone()
      ensures round == Drained && old(script) == [] ==> taken < |wire|
      ensures round == StillFull ==> script == [] && !Room()
    {
      var waiting := AwaitDrain(out, taken);
      if waiting {
        return StillFull;
      }
      Interleave();
      round := if hostInactive > 0 then GaveUp else Drained;
    }

    /** Of the draining batches that go by while a turn copies n bytes, few move no byte; none, if
        nothing was copied and no room was made. */
    twostate predicate RoundPaced(n: nat)
      reads this
    {
      Spent(if n > 0 || Room() then 3 * n + 6 else 0)
    }

    /** One turn of write's outer loop: if bytes are left over, give up or wait. */
    method WriteRound(rest: seq<Byte>, nonBlock: bool) returns (n: nat, round: Round)
      requires Valid() && TxAwake() && RxAwake()
      modifies this, txBuf, rxBuf
      ensures Valid() && TxAwake() && RxAwake() && returned == old(returned) && TimePasses()
      ensures n <= |rest| && accepted == old(accepted) + rest[..n]
      ensures round == AllCopied <==> n == |rest|
      ensures round != AllCopied ==> |accepted| - |old(wire)| >= BUF_LEN - 1
      ensures round == GaveUp ==> nonBlock || HostGone()
      ensures round == StillFull ==> !nonBlock && script == [] && !Room()
      ensures |script| <= |old(script)| && (round == Drained ==> !nonBlock && |script| < |old(script)|)
      ensures RoundPaced(n)
      ensures rest != [] && old(Room()) ==> n > 0
    {
      var out;
      ghost var taken;
      n, out, taken := FillAndKick(rest);
      if n == |rest| {
        return n, AllCopied;
      }
      if nonBlock {
        return n, GaveUp;
      }
      round := AwaitSpace(out, taken);
    }

    ghost function Now(): Start
      reads this`accepted, this`returned, this`wire, this`received, this`alarms, this`script
    {
      Start(accepted, returned, |wire|, |received|, alarms, DrainCount(script))
    }

    /** Write's outer loop after a turn, seen from its start; `left` is what the source's `ptr` and
        `count` still delimit. */
    ghost predicate Midway(start: Start, data: seq<Byte>, left: seq<Byte>, round: Round, nonBlock: bool)
      reads this, txBuf, rxBuf
    {
      && Valid() && TxAwake() && RxAwake() && returned == start.returned
      && start.wire <= |wire| && start.received <= |received| && start.alarms <= alarms
      && accepted + left == start.accepted + data && |left| <= |data|
      && (round == AllCopied <==> left == [])
      && (round != AllCopied ==> |accepted| - start.wire >= BUF_LEN - 1)
      && (round == GaveUp ==> nonBlock || (hostInactive > 0 && (Room() || silentAt >= start.alarms)))
      && (round == StillFull ==> !nonBlock && script == [] && !Room())
    }

    /** How many draining batches have gone by once `copied` bytes are in: one for each byte that
        reached the wire, and at most fifteen more for each byte copied. */
    ghost predicate Paced(start: Start, copied: nat)
      reads this
    {
      start.drains + start.wire <= DrainCount(script) + |wire| + 15 * copied + if Room() then 6 else 0
    }

    /** The first turn. */
    method FirstTurn(data: seq<Byte>, nonBlock: bool) returns (left: seq<Byte>, round: Round)
      requires Valid() && TxAwake() && RxAwake()
      modifies this, txBuf, rxBuf
      ensures Midway(old(Now()), data, left, round, nonBlock)
      ensures Paced(old(Now()), |data| - |left|)
    {
      var n;
      n, round := WriteRound(data, nonBlock);
      left := data[n..];
    }

    /** A further one. */
    method NextTurn(data: seq<Byte>, rest: seq<Byte>, nonBlock: bool, ghost start: Start)
      returns (left: seq<Byte>, round: Round)
      requires Midway(start, data, rest, Drained, nonBlock) && Paced(start, |data| - |rest|)
      modifies this, txBuf, rxBuf
      ensures Midway(start, data, left, round, nonBlock) && Paced(start, |data| - |left|)
      ensures |script| <= |old(script)| && (round == Drained ==> |script| < |old(script)|)
    {
      var n;
      n, round := WriteRound(rest, nonBlock);
      left := rest[n..];
    }

    /** Write's outer loop, up to the release of the write lock. */
    method WriteLoop(data: seq<Byte>, nonBlock: bool) returns (left: seq<Byte>, round: Round)
      requires Valid() && TxAwake() && RxAwake()
      modifies this, txBuf, rxBuf
      ensures Midway(old(Now()), data, left, round, nonBlock) && round != Drained
      ensures Paced(old(Now()), |data| - |left|)
    {
      left, round := FirstTurn(data, nonBlock);
      while round == Drained
        invariant Midway(old(Now()), data, left, round, nonBlock)
        invariant Paced(old(Now()), |data| - |left|)
        decreases |script|, round == Drained
      {
        left, round := NextTurn(data, left, nonBlock, old(Now()));
      }
    }

    /** The call has filled the ring: what it found in it and what it added come to 2047 bytes or more. */
    twostate predicate Filled()
      reads this`accepted
    {
      |accepted| - |old(wire)| >= BUF_LEN - 1
    }

    /** `altera_avalon_jtag_uart_write`.  It never waits for ever on a host that keeps draining: each
        byte accepted accounts for at most sixteen of the draining batches that go by. */
    method Write(src: seq<Byte>, count: int, nonBlock: bool) returns (result: WriteResult)
      requires Valid() && TxAwake() && RxAwake() && count <= |src|
      modifies this, txBuf, rxBuf
      ensures Valid() && TxAwake() && RxAwake() && returned == old(returned)
      ensures |old(wire)| <= |wire| && |old(received)| <= |received|
      ensures match result
        case Wrote(n) => && 0 < n <= count && accepted == old(accepted) + src[..n]
                         && (n < count ==> Filled() && (nonBlock || HostGone()))
        case WouldBlock => nonBlock && accepted == old(accepted) && (count > 0 ==> !old(Room()))
        case IoError => && !nonBlock && accepted == old(accepted)
                        && (count > 0 ==> !old(Room()) && HostGone())
        case Waiting(n) => && !nonBlock && n < count && accepted == old(accepted) + src[..n]
                           && script == [] && !Room() && DrainCount(old(script)) <= 16 * n
    {
      var data := if count <= 0 then [] else src[..count];
      var left, round := WriteLoop(data, nonBlock);
      var n := |data| - |left|;
      PrefixOfJoin(old(accepted), data, accepted, left);
      if round == StillFull {
        result := Waiting(n);
      } else if n != 0 {
        result := Wrote(n);
      } else {
        result := if nonBlock then WouldBlock else IoError;
      }
    }

    /** Snapshot both indices.  The copy `inn` of the producer index, taken after `put` bytes
        had come in, may be stale at once, and then understates the `n` bytes available. */
    method SnapshotRx() returns (n: nat, inn: nat, ghost put: nat)
      requires Valid()
      modifies this, rxBuf
      ensures Valid() && Interference() && Quiet() && Unsupplied()
      ensures |old(received)| == put <= |received| && inn == Slot(put)
      ensures rxOut + n <= BUF_LEN && |returned| + n <= put
      ensures n == 0 <==> put == |returned|
      ensures old(script) != [] ==> |script| < |old(script)|
    {
      inn, put := rxIn, |received|;
      Interleave();
      ReadyRunIsSafe(|returned|, put, |received|);
      n := ReadyRun(inn, rxOut);
    }

    /** The `memcpy` of read, byte by byte with interrupts in between: the interrupt routine
        never touches the slots being copied, so `data` comes out whole. */
    method CopyOut(buffer: array<Byte>, at: nat, n: nat, ghost data: seq<Byte>)
      requires Valid() && buffer != rxBuf && buffer != txBuf && at + n <= buffer.Length
      requires rxOut + n <= BUF_LEN && |data| == n && returned + data <= received
      modifies this, rxBuf, buffer
      ensures Valid() && Interference() && Quiet()
      ensures buffer[..at + n] == old(buffer[..at]) + data
    {
      for i := 0 to n
        invariant Valid() && Interference() && Quiet()
        invariant buffer[..at + i] == old(buffer[..at]) + data[..i]
      {
        CopyByte(buffer, at + i, i, data);
        assert data[..i + 1] == data[..i] + [data[i]];
        Interleave();
      }
    }

    /** One byte of that copy. */
    method CopyByte(buffer: array<Byte>, at: nat, i: nat, ghost data: seq<Byte>)
      requires RxValid() && buffer != rxBuf && at < buffer.Length
      requires rxOut + i < BUF_LEN && i < |data| && returned + data <= received
      modifies buffer
      ensures buffer[..at + 1] == old(buffer[..at]) + [data[i]]
    {
      SlotInRun(|returned|, i);
      assert data[i] == (returned + data)[|returned| + i] == received[|returned| + i];
      buffer[at] := rxBuf[rxOut + i];
    }

    /** Move the consumer index: the bytes copied leave the ring. */
    method ReleaseRx(n: nat, ghost data: seq<Byte>)
      requires RxValid() && |data| == n && returned + data <= received
      modifies this`rxOut, this`returned
      ensures RxValid() && returned == old(returned) + data
    {
      SlotAdvance(|returned|, n);
      rxOut := Slot(rxOut + n);
      returned := returned + data;
    }

    /** Copy out, then release. */
    method Take(buffer: array<Byte>, at: nat, n: nat)
      requires Valid() && buffer != rxBuf && buffer != txBuf && at + n <= buffer.Length
      requires rxOut + n <= BUF_LEN && |returned| + n <= |received|
      modifies this, rxBuf, buffer
      ensures Valid() && TxInterference() && Quiet() && old(received) <= received
      ensures |returned| == |old(returned)| + n && old(returned) <= returned
      ensures buffer[..at + n] == old(buffer[..at]) + returned[|old(returned)|..]
    {
      ghost var data := received[|returned|..|returned| + n];
      CopyOut(buffer, at, n, data);
      ReleaseRx(n, data);
      Interleave();
    }

    /** n bytes have been returned, and read's buffer holds them from `at` on. */
    twostate predicate Delivered(buffer: array<Byte>, at: nat, n: nat)
      requires at + n <= buffer.Length
      reads this`returned, buffer
    {
      && |returned| == |old(returned)| + n && old(returned) <= returned
      && buffer[..at + n] == old(buffer[..at]) + returned[|old(returned)|..]
    }

    /** One turn of read's inner loop.  Nothing is taken exactly when the ring was empty at the
        snapshot `inn`, taken after `put` bytes had come in. */
    method DrainOnce(buffer: array<Byte>, at: nat, space: nat) returns (n: nat, inn: nat, ghost put: nat)
      requires Valid() && buffer != rxBuf && buffer != txBuf
      requires 0 < space && at + space <= buffer.Length
      modifies this, rxBuf, buffer
      ensures Valid() && TxInterference() && Quiet() && Unsupplied() && old(received) <= received
      ensures n <= space && Delivered(buffer, at, n)
      ensures |old(received)| == put && inn == Slot(put)
      ensures n == 0 <==> put == |old(returned)|
      ensures n == 0 ==> RxInterference()
      ensures old(script) != [] ==> |script| < |old(script)|
    {
      n, inn, put := SnapshotRx();
      if n > space {
        n := space;
      }
      if n > 0 {
        Take(buffer, at, n);
      }
    }

    /** One turn of read's inner loop, `n` bytes on. */
    method DrainStep(buffer: array<Byte>, space: nat, n: nat, ghost returned0: seq<Byte>)
      returns (m: nat, inn: nat, ghost put: nat)
      requires Valid() && buffer != rxBuf && buffer != txBuf
      requires n < space <= buffer.Length
      requires |returned| == |returned0| + n && returned0 <= returned && buffer[..n] == returned[|returned0|..]
      modifies this, rxBuf, buffer
      ensures Valid() && TxInterference() && Quiet() && Unsupplied() && old(received) <= received
      ensures n + m <= space && |returned| == |returned0| + n + m && returned0 <= returned
      ensures buffer[..n + m] == returned[|returned0|..]
      ensures |old(received)| == put && inn == Slot(put)
      ensures m == 0 <==> put == |old(returned)|
      ensures m == 0 ==> RxInterference()
      ensures old(script) != [] ==> |script| < |old(script)|
    {
      m, inn, put := DrainOnce(buffer, n, space - n);
      SuffixExtends(|returned0|, old(returned), returned);
    }

    /** Read's inner loop: take what is available, up to `space` bytes.  Room left over means that
        everything that had come in before the call is delivered, and nothing at all is taken
        exactly when the ring was empty. */
    method Drain(buffer: array<Byte>, space: nat) returns (n: nat, inn: nat, ghost put: nat)
      requires Valid() && buffer != rxBuf && buffer != txBuf
      requires 0 < space <= buffer.Length
      modifies this, rxBuf, buffer
      ensures Valid() && TxInterference() && Quiet() && Unsupplied() && old(received) <= received
      ensures n <= space && |returned| == |old(returned)| + n && old(returned) <= returned
      ensures buffer[..n] == returned[|old(returned)|..]
      ensures n < space ==> |returned| >= |old(received)|
      ensures n == 0 <==> |old(received)| == |old(returned)|
      ensures n == 0 ==> RxInterference() && inn == Slot(put) && put == |returned| <= |received|
      ensures old(script) != [] ==> |script| < |old(script)|
    {
      n, inn, put := DrainStep(buffer, space, 0, returned);
      var m := n;
      while m > 0 && n < space
        invariant Valid() && TxInterference() && Quiet() && Unsupplied() && old(received) <= received
        invariant n <= space && |returned| == |old(returned)| + n && old(returned) <= returned
        invariant buffer[..n] == returned[|old(returned)|..]
        invariant m == 0 ==> |returned| >= |old(received)|
        invariant n == 0 <==> |old(received)| == |old(returned)|
        invariant n == 0 ==> m == 0 && RxInterference() && inn == Slot(put) && put == |returned| <= |received|
        invariant old(script) != [] ==> |script| < |old(script)|
        decreases space - n, m
      {
        m, inn, put := DrainStep(buffer, space, n, old(returned));
        n := n + m;
      }
    }

    /** One test of read's spin loop. */
    method PollData(inn: nat, ghost put: nat) returns (over: bool, last: bool)
      requires Valid() && inn == Slot(put) && put == |returned| <= |received|
      modifies this, rxBuf
      ensures Valid() && Interference() && Quiet() && Unsupplied()
      ensures over ==> put < |received| || hostInactive >= timeout
      ensures !over && last ==> script == [] && |received| == put && hostInactive < timeout
      ensures last || |script| < |old(script)|
    {
      Interleave();
      NoFullCircle(put, |received|);
      last, over := script == [], inn != rxIn;
      Interleave();
      over := over || hostInactive >= timeout;
    }

    /** Read's spin loop: poll until a byte has come in since the snapshot `inn` or the host has
        been silent too long. */
    method AwaitData(inn: nat, ghost put: nat) returns (waiting: bool)
      requires Valid() && inn == Slot(put) && put == |returned| <= |received|
      modifies this, rxBuf
      ensures Valid() && Interference() && Quiet() && Unsupplied()
      ensures waiting ==> script == [] && |received| == put && hostInactive < timeout
      ensures !waiting ==> put < |received| || hostInactive >= timeout
    {
      var over, last := PollData(inn, put);
      while !over && !last
        invariant Valid() && Interference() && Quiet() && Unsupplied()
        invariant over ==> put < |received| || hostInactive >= timeout
        invariant !over && last ==> script == [] && |received| == put && hostInactive < timeout
        decreases |script|, !last, !over
      {
        over, last := PollData(inn, put);
      }
      return !over;
    }

    /** The blocking end of a round. */
    method AwaitMore(inn: nat, ghost put: nat) returns (round: Round)
      requires Valid() && inn == Slot(put) && put == |returned| <= |received|
      modifies this, rxBuf
      ensures Valid() && Interference() && Quiet() && Unsupplied()
      ensures round == GaveUp || round == Drained || round == StillFull
      ensures round == GaveUp ==> |received| == put && SilentSince()
      ensures round == Drained ==> put < |received|
      ensures round == StillFull ==> script == [] && |received| == put
    {
      var waiting := AwaitData(inn, put);
      if waiting {
        return StillFull;
      }
      Interleave();
      NoFullCircle(put, |received|);
      round := if inn == rxIn then GaveUp else Drained;
    }

    /** One turn of read's outer loop.  Nothing is delivered exactly when the ring was empty. */
    method ReadRound(buffer: array<Byte>, space: nat, nonBlock: bool) returns (n: nat, round: Round)
      requires Valid() && TxAwake() && RxAwake() && buffer != rxBuf && buffer != txBuf
      requires 0 < space <= buffer.Length
      modifies this, rxBuf, buffer
      ensures Valid() && TxAwake() && accepted == old(accepted) && (n == 0 ==> RxAwake())
      ensures TimePasses() && Unsupplied() && old(received) <= received
      ensures n <= space && |returned| == |old(returned)| + n && old(returned) <= returned
      ensures buffer[..n] == returned[|old(returned)|..]
      ensures n < space ==> |returned| >= |old(received)|
      ensures n == 0 <==> |old(received)| == |old(returned)|
      ensures round == AllCopied <==> n > 0
      ensures round == GaveUp && !nonBlock ==> |received| == |returned| && SilentSince()
      ensures round == StillFull ==> !nonBlock && script == [] && |received| == |returned|
      ensures round == Drained ==> !nonBlock && |returned| < |received| && |script| < |old(script)|
      ensures |script| <= |old(script)|
    {
      var inn;
      ghost var put;
      n, inn, put := Drain(buffer, space);
      if n > 0 {
        return n, AllCopied;
      }
      if nonBlock {
        return n, GaveUp;
      }
      round := AwaitMore(inn, put);
    }

    /** Bytes were released, so there is room again: enable the receive interrupt. */
    method EnableReceive()
      requires RxValid()
      modifies this`irqRe, this`deviceRe
      ensures RxValid() && irqRe && deviceRe
    {
      irqRe := true;
      deviceRe := irqRe;
    }

    /** The same, after the interrupts that may come in before. */
    method EnableLater()
      requires Valid() && TxAwake()
      modifies this, rxBuf
      ensures Valid() && TxAwake() && RxAwake() && irqRe && deviceRe && TimePasses()
      ensures accepted == old(accepted) && returned == old(returned)
    {
      Interleave();
      EnableReceive();
    }

    /** Read's outer loop, up to the release of the read lock. */
    method ReadLoop(buffer: array<Byte>, space: nat, nonBlock: bool) returns (n: nat, round: Round)
      requires Valid() && TxAwake() && RxAwake() && buffer != rxBuf && buffer != txBuf
      requires 0 < space <= buffer.Length
      modifies this, rxBuf, buffer
      ensures Valid() && TxAwake() && accepted == old(accepted) && (n == 0 ==> RxAwake()) && TimePasses()
      ensures n <= space && returned == old(returned) + buffer[..n]
      ensures n < space ==> |returned| >= |old(received)|
      ensures n == 0 ==> |old(received)| == |old(returned)|
      ensures n == 0 ==> round == StillFull || round == GaveUp
      ensures n == 0 && !nonBlock ==> |old(received)| == |received| == |returned|
      ensures n == 0 && !nonBlock && round == GaveUp ==> SilentSince()
      ensures round == StillFull ==> n == 0 && !nonBlock && script == [] && SupplyCount(old(script)) == 0
    {
      n, round := ReadRound(buffer, space, nonBlock);
      while round == Drained
        invariant Valid() && TxAwake() && accepted == old(accepted) && (n == 0 ==> RxAwake())
        invariant TimePasses()
        invariant n <= space && |returned| == |old(returned)| + n && old(returned) <= returned
        invariant buffer[..n] == returned[|old(returned)|..]
        invariant n < space ==> |returned| >= |old(received)|
        invariant n == 0 ==> |old(received)| == |old(returned)|
        invariant round == AllCopied <==> n > 0
        invariant round == GaveUp && !nonBlock ==> |received| == |returned| && SilentSince()
        invariant round == StillFull ==> !nonBlock && script == [] && |received| == |returned|
        invariant round == StillFull ==> SupplyCount(old(script)) == 0
        invariant round == Drained ==> !nonBlock && |returned| < |received|
        decreases |script|, round == Drained
      {
        n, round := ReadRound(buffer, space, nonBlock);
      }
    }

    /** `altera_avalon_jtag_uart_read`.  A short count, or none, means that everything that had come
        in before the call has been delivered; a blocking call fails only on a silent host and waits
        for ever only on a host that supplies nothing. */
    method Read(buffer: array<Byte>, space: int, nonBlock: bool) returns (result: ReadResult)
      requires Valid() && TxAwake() && RxAwake() && space <= buffer.Length
      requires buffer != rxBuf && buffer != txBuf
      modifies this, rxBuf, buffer
      ensures Valid() && TxAwake() && RxAwake() && accepted == old(accepted) && TimePasses()
      ensures match result
        case Got(n) => && 0 < n <= space && returned == old(returned) + buffer[..n]
                       && (n < space ==> |returned| >= |old(received)|)
        case NoData => && nonBlock && returned == old(returned)
                       && (space > 0 ==> |old(received)| == |old(returned)|)
        case ReadError => && !nonBlock && returned == old(returned)
                          && (space > 0 ==> |old(received)| == |received| == |returned| && SilentSince())
        case WaitingForData => && !nonBlock && space > 0 && returned == old(returned) && |received| == |returned|
                               && script == [] && forall k :: 0 <= k < |old(script)| ==> !Supplies(old(script)[k])
    {
      var n: nat, round := 0, GaveUp;
      if space > 0 {
        n, round := ReadLoop(buffer, space, nonBlock);
      }
      if n > 0 {
        EnableLater();
        result := Got(n);
      } else if round == StillFull {
        NoneSupplies(old(script));
        result := WaitingForData;
      } else {
        result := if nonBlock then NoData else ReadError;
      }
    }

    /** One test of close's spin loop. */
    method PollEmpty() returns (over: bool, last: bool)
      requires Valid() && TxAwake()
      modifies this, rxBuf
      ensures Valid() && Interference() && Quiet()
      ensures over ==> wire == accepted || hostInactive >= timeout
      ensures !over ==> |old(wire)| < |accepted| && hostInactive < timeout && Spent(0)
      ensures !over && last ==> script == [] && |wire| < |accepted|
      ensures last || |script| < |old(script)|
    {
      Interleave();
      NoFullCircle(|wire|, |accepted|);
      last, over := script == [], txOut == txIn;
      Interleave();
      over := over || hostInactive >= timeout;
    }

    /** `altera_avalon_jtag_uart_close`: a plain success means that everything accepted is on
        the wire, or that the host has been silent too long; and it waits for ever only on a host
        that drains fewer times than bytes are waiting. */
    method Close(nonBlock: bool) returns (result: CloseResult)
      requires Valid() && TxAwake() && RxAwake()
      modifies this, rxBuf
      ensures Valid() && TxAwake() && RxAwake() && Interference()
      ensures match result
        case Closed => wire == accepted || hostInactive >= timeout
        case CloseWouldBlock => nonBlock && old(wire) != accepted && hostInactive < timeout
        case WaitingForDrain => && !nonBlock && wire != accepted && hostInactive < timeout && script == []
                                && DrainCount(old(script)) < |accepted| - |old(wire)|
    {
      var over, last := PollEmpty();
      while !over && !nonBlock && !last
        invariant Valid() && TxAwake() && Interference()
        invariant over ==> wire == accepted || hostInactive >= timeout
        invariant !over ==> |old(wire)| < |accepted| && hostInactive < timeout && Spent(0)
        invariant !over && last ==> script == [] && |wire| < |accepted|
        decreases |script|, !last, !over
      {
        over, last := PollEmpty();
      }
      result := if over then Closed else if nonBlock then CloseWouldBlock else WaitingForDrain;
    }
  }

  /** What the histories say of the buffers: in each direction the bytes that have left the
      driver followed by the bytes in its ring are the bytes that entered it, in order; neither
      ring ever holds more than 2047; and the device still has what the driver has not read. */
  lemma RingsHoldTheDifference(uart: Uart)
    requires uart.Valid()
    ensures uart.wire + Contents(uart.txBuf[..], uart.txOut, uart.txIn) == uart.accepted
    ensures uart.returned + Contents(uart.rxBuf[..], uart.rxOut, uart.rxIn) + uart.rxFifo == uart.arrived
    ensures |Contents(uart.txBuf[..], uart.txOut, uart.txIn)| < BUF_LEN
    ensures |Contents(uart.rxBuf[..], uart.rxOut, uart.rxIn)| < BUF_LEN
  {
    RingHoldsTheRest(uart.txBuf, uart.accepted, uart.wire);
    RingHoldsTheRest(uart.rxBuf, uart.received, uart.returned);
  }

  /** The same of one ring. */
  lemma RingHoldsTheRest(buf: array<Byte>, entered: seq<Byte>, gone: seq<Byte>)
    requires gone <= entered && Holds(buf, entered, |gone|)
    ensures gone + Contents(buf[..], Slot(|gone|), Slot(|entered|)) == entered
    ensures |Contents(buf[..], Slot(|gone|), Slot(|entered|))| < BUF_LEN
  {
    IndicesDelimitTheRest(buf, entered, |gone|);
  }

  // ---- whole runs ------------------------------------------------------------------

  datatype Call =
    | CallWrite(src: seq<Byte>, nonBlock: bool)
    | CallRead(space: nat, nonBlock: bool)
    | CallClose(nonBlock: bool)

  /** What one call handed over: the prefix of `src` its return value counts, or the bytes it
      left in the reader's buffer. */
  datatype Outcome = Outcome(written: seq<Byte>, read: seq<Byte>)

  /** How far the four histories have got. */
  datatype Counts = Counts(accepted: nat, wire: nat, received: nat, returned: nat)

  ghost function Written(log: seq<Outcome>): seq<Byte> {
    if log == [] then [] else log[0].written + Written(log[1..])
  }

  ghost function ReadBack(log: seq<Outcome>): seq<Byte> {
    if log == [] then [] else log[0].read + ReadBack(log[1..])
  }

  /** What the driver owes a call that finds the histories at `at`: a write takes the data in order
      and all of it, unless it has filled the ring; a read fills the buffer, unless it has
      delivered everything that had come in. */
  ghost predicate Answers(call: Call, outcome: Outcome, at: Counts) {
    match call
    case CallWrite(src, _) =>
      && outcome.written <= src && outcome.read == []
      && (|outcome.written| < |src| ==> at.accepted - at.wire + |outcome.written| >= BUF_LEN - 1)
    case CallRead(space, _) =>
      && outcome.written == [] && |outcome.read| <= space
      && (|outcome.read| < space ==> |outcome.read| >= at.received - at.returned)
    case CallClose(_) => outcome.written == [] && outcome.read == []
  }

  /** Between two moments the calls handed over `outcome` and nothing else; the interrupt routine
      moves the other two histories on, neither past its bound. */
  ghost predicate Moves(before: Counts, outcome: Outcome, after: Counts) {
    && after.accepted == before.accepted + |outcome.written|
    && after.returned == before.returned + |outcome.read|
    && before.wire <= after.wire <= after.accepted < after.wire + BUF_LEN
    && before.received <= after.received && after.returned <= after.received < after.returned + BUF_LEN
  }

  /** `log` is a possible run of `calls`, or of the first of them, that starts with the histories
      at `from` and ends with them at `to`. */
  ghost predicate Runs(calls: seq<Call>, log: seq<Outcome>, from: Counts, to: Counts)
    decreases |log|
  {
    if log == [] then from == to
    else
      && calls != []
      && exists at, after :: StepsTo(calls[0], log[0], from, at, after) && Runs(calls[1..], log[1..], after, to)
  }

  /** One call of a run: some interrupts, then the call. */
  ghost predicate StepsTo(call: Call, outcome: Outcome, from: Counts, at: Counts, after: Counts) {
    Moves(from, Outcome([], []), at) && Answers(call, outcome, at) && Moves(at, outcome, after)
  }

  /** A run is a first call and a run after it. */
  lemma RunExtends(calls: seq<Call>, outcome: Outcome, rest: seq<Outcome>,
                   from: Counts, at: Counts, after: Counts, to: Counts)
    requires calls != [] && StepsTo(calls[0], outcome, from, at, after) && Runs(calls[1..], rest, after, to)
    ensures Runs(calls, [outcome] + rest, from, to)
  {
    var log := [outcome] + rest;
    assert log[0] == outcome && log[1..] == rest;
  }

  lemma LogExtends(outcome: Outcome, rest: seq<Outcome>, sent: seq<Byte>, got: seq<Byte>)
    ensures sent + outcome.written + Written(rest) == sent + Written([outcome] + rest)
    ensures got + outcome.read + ReadBack(rest) == got + ReadBack([outcome] + rest)
  {
    assert ([outcome] + rest)[1..] == rest;
  }

  ghost function Reached(uart: Uart): Counts
    reads uart
  {
    Counts(|uart.accepted|, |uart.wire|, |uart.received|, |uart.returned|)
  }

  /** A blocking call that is still waiting: the script is used up, and with it went nothing the call
      could go on with. */
  ghost predicate LeftWaiting(call: Call, outcome: Outcome, uart: Uart)
    reads uart
  {
    && uart.script == []
    && match call
       case CallWrite(src, nonBlock) => !nonBlock && |outcome.written| < |src| && !uart.Room()
       case CallRead(space, nonBlock) =>
         !nonBlock && space > 0 && outcome.read == [] && |uart.received| == |uart.returned|
       case CallClose(nonBlock) => !nonBlock && uart.wire != uart.accepted
  }

  /** A write, reduced to what it handed over. */
  method PerformWrite(uart: Uart, src: seq<Byte>, nonBlock: bool) returns (outcome: Outcome, stuck: bool)
    requires uart.Valid() && uart.TxAwake() && uart.RxAwake()
    modifies uart, uart.txBuf, uart.rxBuf
    ensures uart.Valid() && uart.TxAwake() && uart.RxAwake()
    ensures Answers(CallWrite(src, nonBlock), outcome, old(Reached(uart)))
    ensures Moves(old(Reached(uart)), outcome, Reached(uart))
    ensures uart.accepted == old(uart.accepted) + outcome.written && uart.returned == old(uart.returned)
    ensures stuck ==> LeftWaiting(CallWrite(src, nonBlock), outcome, uart)
  {
    var result := uart.Write(src, |src|, nonBlock);
    var n := if result.Wrote? then result.n else if result.Waiting? then result.sofar else 0;
    outcome, stuck := Outcome(src[..n], []), result.Waiting?;
  }

  /** A read. */
  method PerformRead(uart: Uart, space: nat, nonBlock: bool) returns (outcome: Outcome, stuck: bool)
    requires uart.Valid() && uart.TxAwake() && uart.RxAwake()
    modifies uart, uart.txBuf, uart.rxBuf
    ensures uart.Valid() && uart.TxAwake() && uart.RxAwake()
    ensures Answers(CallRead(space, nonBlock), outcome, old(Reached(uart)))
    ensures Moves(old(Reached(uart)), outcome, Reached(uart))
    ensures uart.accepted == old(uart.accepted) && uart.returned == old(uart.returned) + outcome.read
    ensures stuck ==> LeftWaiting(CallRead(space, nonBlock), outcome, uart)
  {
    var buffer := new Byte[space];
    var result := uart.Read(buffer, space, nonBlock);
    var n := if result.Got? then result.n else 0;
    outcome, stuck := Outcome([], buffer[..n]), result.WaitingForData?;
  }

  /** One call, some interrupts after the one before it. */
  method Perform(uart: Uart, call: Call) returns (outcome: Outcome, stuck: bool, ghost at: Counts)
    requires uart.Valid() && uart.TxAwake() && uart.RxAwake()
    modifies uart, uart.txBuf, uart.rxBuf
    ensures uart.Valid() && uart.TxAwake() && uart.RxAwake()
    ensures StepsTo(call, outcome, old(Reached(uart)), at, Reached(uart))
    ensures uart.accepted == old(uart.accepted) + outcome.written
    ensures uart.returned == old(uart.returned) + outcome.read
    ensures stuck ==> LeftWaiting(call, outcome, uart)
  {
    uart.Interleave();
    at := Reached(uart);
    match call {
      case CallWrite(src, nonBlock) =>
        outcome, stuck := PerformWrite(uart, src, nonBlock);
      case CallRead(space, nonBlock) =>
        outcome, stuck := PerformRead(uart, space, nonBlock);
      case CallClose(nonBlock) =>
        var result := uart.Close(nonBlock);
        outcome, stuck := Outcome([], []), result.WaitingForDrain?;
    }
  }

  /** Any sequence of calls by the single foreground thread, under any script: the bytes
      accepted over the run are the prefixes the calls reported, the bytes returned are what the
      calls delivered, and each call did all it could.  The run breaks off only inside a call that
      is still waiting. */
  method Session(uart: Uart, calls: seq<Call>) returns (log: seq<Outcome>)
    requires uart.Valid() && uart.TxAwake() && uart.RxAwake()
    modifies uart, uart.txBuf, uart.rxBuf
    ensures uart.Valid() && uart.TxAwake() && uart.RxAwake()
    ensures Runs(calls, log, old(Reached(uart)), Reached(uart))
    ensures uart.accepted == old(uart.accepted) + Written(log)
    ensures uart.returned == old(uart.returned) + ReadBack(log)
    ensures |log| < |calls| ==> log != [] && LeftWaiting(calls[|log| - 1], log[|log| - 1], uart)
    decreases |calls|
  {
    if calls == [] {
      return [];
    }
    var outcome, stuck;
    ghost var at;
    outcome, stuck, at := Perform(uart, calls[0]);
    ghost var after := Reached(uart);
    var rest := [];
    if !stuck {
      rest := Session(uart, calls[1..]);
    }
    RunExtends(calls, outcome, rest, old(Reached(uart)), at, after, Reached(uart));
    LogExtends(outcome, rest, old(uart.accepted), old(uart.returned));
    log := [outcome] + rest;
  }
}
