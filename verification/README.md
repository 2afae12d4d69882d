# Verified models of the RFID system's software

Dafny models of the C code that runs on the Nios II processors of the RFID reader and tag, and
proofs of what that code keeps, delivers and promises.  `dafny verify dfyconfig.toml` checks all
of it.

- `Ring.dfy`, `JtagUart.dfy`: the interrupt-driven JTAG UART driver.  Foreground `write`, `read`
  and `close` share two 2048-byte rings with an interrupt routine that may run between any two of
  their accesses.  The surroundings are a script that is unknown to the code; what holds for every
  script holds for every interleaving.  Ghost histories of the bytes accepted, sent, received and
  returned say what the rings must hold.
- `AlarmTiming.dfy`, `AlarmList.dfy`, `AlarmWalk.dfy`, `AlarmClock.dfy`, `AlarmRuns.dfy`: alarms
  compared with a wrapping 32-bit counter through a one-bit flag, measured against a clock that
  never wraps, and the circular list that the tick interrupt edits while it walks it, over single
  ticks and over whole runs.
- `Crc16.dfy`, `CrcErrors.dfy`: the table-driven CRC-16, its equality with bit-at-a-time and with
  long division, and the errors it detects.  The polynomial and preset are those of section
  6.3.1.5 of the EPC UHF Gen2 Air Interface Protocol; the final complement of that section is
  absent from the code.
- `Packages.dfy`, `Commands.dfy`, `Handshake.dfy`: commands split into packages and put together
  again, the chain of validators that tells them apart, and the handshake of reader and tag as two
  interleaved programs.
- `DescriptorTable.dfy`: open, close and the exclusive lock of file descriptors.
- `IrqNesting.dfy`: interruptible handlers and the dispatcher.
- `Heap.dfy`: sbrk and the slab allocator of the profiler.
- `NumberPrinting.dfy`, `LogPrintf.dfy`: two independent printers of numbers, and the format
  language of the log.
- `TimeOfDay.dfy`: wall-clock time as an offset from the tick counter (`Quotients.dfy` holds what it
  and the printers need of division).

Where the code and its documentation disagree the model follows the code, and a lemma says exactly
when the documented promise is kept:

- the longest alarm period, 2^32 - 1 ticks, runs at the next tick (`AlarmTiming.KeepsScheduleExactlyWhen`);
- a callback may stop any alarm but the one behind its own: unless it starts that one again, the
  tick never ends (`AlarmRuns.EndsExactlyWhen`, `AlarmClock.Clock.TickFor`,
  `AlarmRuns.StoppingTheNextHangs`);
- a device lock can be granted while another descriptor has the device open
  (`DescriptorTable.GrantedIsExclusiveExactlyWhen`, `DescriptorTable.GrantedWhileShared`);
- time set long after reset does not read back (`TimeOfDay.ImmediateReadExactlyWhen`,
  `TimeOfDay.LongUptimeIsNot`);
- the CRC table must be filled in before use, but neither example program calls
  `crc_16_ccitt_init`, so that both run with a table of zeros and every CRC of theirs is zero: the
  handshake then fails for more values than it would with the tables filled in
  (`Handshake.WrittenRunsComplete`, `Handshake.WrittenRunsFail`, `Handshake.InitialisedRunsComplete`);
- between programs with tables filled in, an RN_CRC needs an rn of at least 1024 and a REQ_RN one
  below 1024 (`Commands.RnCrcIsHeard`, `Commands.ReqRnIsHeard`); with tables of zeros the lower ten
  bits of the rn must not be all zero, nor, for an RN_CRC, the six above
  (`Commands.BlankRnCrcIsHeard`, `Commands.BlankReqRnIsHeard`);
- a QUERY_REP with session 0 is never heard (`Commands.QueryRepIsHeard`).

Machine arithmetic is modelled where it matters: the tick counter and its sums wrap at 2^32, words
and 64-bit values of the packet layer are bit-vectors with the sign extension and arithmetic shifts
of the source, and the time of day keeps the 32-bit product.  `unsigned long` has 32 bits on this
processor.

Clocks, the host, the device FIFOs, pending interrupt lines, the results of driver callbacks, the
random RN16, the handle and the state of the CRC tables are parameters.

## Model

| member | source | states |
|---|---|---|
| Ring.SlotIsRemainder | fpga/software/rfid_test_bsp/drivers/src/altera_avalon_jtag_uart_write.c:126 | The wrapped ring index of byte number k is k modulo 2048. |
| Ring.NoFullCircle | fpga/software/rfid_test_bsp/drivers/src/altera_avalon_jtag_uart_write.c:183 | Within one turn, an index equals its snapshot exactly when it has not moved: the test of both spin loops. |
| Ring.FullTest | fpga/software/rfid_test_bsp/drivers/src/altera_avalon_jtag_uart_init.c:137-139 | The interrupt routine sees the receive ring as full exactly when it holds 2047 bytes. |
| Ring.FreeRunIsSafe | fpga/software/rfid_test_bsp/drivers/src/altera_avalon_jtag_uart_write.c:105-117 | The room computed from a stale consumer index never overruns what is free now, and is zero exactly when the ring was full at the snapshot. |
| Ring.ReadyRunIsSafe | fpga/software/rfid_test_bsp/drivers/src/altera_avalon_jtag_uart_read.c:122-131 | The bytes counted from a stale producer index are all held now, and none are counted exactly when the ring was empty at the snapshot. |
| Ring.IndicesDelimitTheRest | fpga/software/rfid_test_bsp/drivers/src/altera_avalon_jtag_uart_write.c:105-126 | What the two indices delimit is exactly the bytes put in and not yet taken out, in order, also around the end of the buffer. |
| JtagUart.Uart.constructor | fpga/software/rfid_test_bsp/drivers/src/altera_avalon_jtag_uart_init.c:66-100 | Both rings start empty, with receive interrupts on and transmit interrupts off. |
| JtagUart.Uart.ReadData | fpga/software/rfid_test_bsp/drivers/src/altera_avalon_jtag_uart_init.c:144-147 | Reading the data register takes the oldest byte the device holds, if any. |
| JtagUart.Uart.SendOne | fpga/software/rfid_test_bsp/drivers/src/altera_avalon_jtag_uart_init.c:176-183 | One byte, the oldest of the transmit ring, goes to the device; the ring still holds the rest in order. |
| JtagUart.Uart.Transmit | fpga/software/rfid_test_bsp/drivers/src/altera_avalon_jtag_uart_init.c:169-195 | Bytes leave in order until the device is full or the ring empty; the transmit interrupt is switched off only once the ring is empty. |
| JtagUart.Uart.Receive | fpga/software/rfid_test_bsp/drivers/src/altera_avalon_jtag_uart_init.c:125-167 | Bytes are stored in order until the device is empty or the ring full, and no unread byte is overwritten. Receive interrupts are left off exactly if they were off before, the device still holds data, or the ring was full on entry, in which case the device is not looked at. |
| JtagUart.Uart.ReceiveOne | fpga/software/rfid_test_bsp/drivers/src/altera_avalon_jtag_uart_init.c:125-152 | One turn of the receive loop: the device is left alone exactly when the ring is full, and otherwise its oldest byte, if any, joins the unread ones. |
| JtagUart.Uart.StoreReceived | fpga/software/rfid_test_bsp/drivers/src/altera_avalon_jtag_uart_init.c:149-150 | A received byte lands behind the unread ones and changes none of them. |
| JtagUart.Uart.ServiceRead | fpga/software/rfid_test_bsp/drivers/src/altera_avalon_jtag_uart_init.c:125-167 | A pending receive interrupt stores at least one byte if the ring was empty and the device holds one. |
| JtagUart.Uart.ServiceWrite | fpga/software/rfid_test_bsp/drivers/src/altera_avalon_jtag_uart_init.c:169-195 | A pending transmit interrupt sends at least one byte if there is one and the device has room. |
| JtagUart.Uart.OnePass | fpga/software/rfid_test_bsp/drivers/src/altera_avalon_jtag_uart_init.c:117-196 | One turn of the interrupt routine keeps both histories and all the foreground relies on. |
| JtagUart.Uart.Irq | fpga/software/rfid_test_bsp/drivers/src/altera_avalon_jtag_uart_init.c:117-197 | So does the whole routine, for any control register readings. |
| JtagUart.Uart.TimeoutAlarm | fpga/software/rfid_test_bsp/drivers/src/altera_avalon_jtag_uart_init.c:203-225 | The silence counter is cleared by host activity and otherwise counts up to its bound; the enable bits stay those of the driver, and a record is kept of the last alarm that found the host silent too long. |
| JtagUart.Uart.CopyIn | fpga/software/rfid_test_bsp/drivers/src/altera_avalon_jtag_uart_write.c:122 | Copying into the ring, with interrupts between any two bytes, touches nothing the ring holds and leaves the bytes ready to publish. |
| JtagUart.Uart.PublishTx | fpga/software/rfid_test_bsp/drivers/src/altera_avalon_jtag_uart_write.c:126 | Moving the producer index appends exactly the copied bytes to those accepted. |
| JtagUart.Uart.SnapshotTx | fpga/software/rfid_test_bsp/drivers/src/altera_avalon_jtag_uart_write.c:105-117 | However stale the snapshot of the consumer index, the room it yields is there; none is found exactly when the ring was full at the snapshot. |
| JtagUart.Uart.StoreAhead | fpga/software/rfid_test_bsp/drivers/src/altera_avalon_jtag_uart_write.c:122 | One byte copied lands behind everything the ring holds. |
| JtagUart.Uart.Append | fpga/software/rfid_test_bsp/drivers/src/altera_avalon_jtag_uart_write.c:122-126 | Copying and publishing together append exactly the data to what is accepted. |
| JtagUart.Uart.FillOnce | fpga/software/rfid_test_bsp/drivers/src/altera_avalon_jtag_uart_write.c:105-126 | One turn of the inner loop accepts a prefix of the data, empty if and only if the ring was full at the snapshot. |
| JtagUart.Uart.Fill | fpga/software/rfid_test_bsp/drivers/src/altera_avalon_jtag_uart_write.c:103-127 | The inner loop accepts a prefix of the data; what is left over met a full ring, and with room at the start something is accepted. |
| JtagUart.Uart.AwaitDrain | fpga/software/rfid_test_bsp/drivers/src/altera_avalon_jtag_uart_write.c:183-184 | The spin loop ends only when a byte has left the ring since the snapshot or the host has been silent too long; it is left waiting only with neither, at most two draining batches going by unused. |
| JtagUart.Uart.PollDrain | fpga/software/rfid_test_bsp/drivers/src/altera_avalon_jtag_uart_write.c:183 | One test of the spin loop, with interrupts between the look at the index and the look at the counter: it fails only after a byte has left or with the host silent too long. |
| JtagUart.Uart.Kick | fpga/software/rfid_test_bsp/drivers/src/altera_avalon_jtag_uart_write.c:136-139 | The transmit interrupt is enabled afterwards, in the driver and at the device. |
| JtagUart.Uart.KickLater | fpga/software/rfid_test_bsp/drivers/src/altera_avalon_jtag_uart_write.c:126-139 | Whatever comes in between publishing and enabling, the interrupt is enabled afterwards, in the driver and at the device. |
| JtagUart.Uart.AwaitSpace | fpga/software/rfid_test_bsp/drivers/src/altera_avalon_jtag_uart_write.c:183-188 | The blocking end of a turn: go on only after a byte has left or the counter has been cleared; give up only with the counter not zero, and then with room in the ring or a host that counted as silent meanwhile. |
| JtagUart.Uart.WriteRound | fpga/software/rfid_test_bsp/drivers/src/altera_avalon_jtag_uart_write.c:103-190 | One turn of the outer loop: it accepts a prefix, not empty if there was room, and leaves bytes over only after filling the ring; each of its ways out says what the host did. |
| JtagUart.Uart.FillAndKick | fpga/software/rfid_test_bsp/drivers/src/altera_avalon_jtag_uart_write.c:103-139 | After filling, the transmit interrupt is enabled: no wake-up is lost. |
| JtagUart.Uart.WriteLoop | fpga/software/rfid_test_bsp/drivers/src/altera_avalon_jtag_uart_write.c:100-191 | Accepted bytes followed by the bytes left over are the old accepted bytes followed by the data; bytes are left over only after the ring was full, and the loop gives up or is left waiting only for the reasons of its turns. |
| JtagUart.Uart.Write | fpga/software/rfid_test_bsp/drivers/src/altera_avalon_jtag_uart_write.c:83-215 | Under every interleaving a non-negative result is the length of the prefix accepted, in order. A short count means that the call filled the ring; would-block and error results with data to write mean that the ring was full on entry. A blocking call gives up only on a host not known to be active, after a wait that ended with room or with a host silent too long. Each byte accepted accounts for at most sixteen draining batches of a call left waiting, so that a host that keeps draining never leaves it waiting. |
| JtagUart.Uart.SnapshotRx | fpga/software/rfid_test_bsp/drivers/src/altera_avalon_jtag_uart_read.c:122-131 | However stale the snapshot of the producer index, the bytes it counts are there to read; none are exactly when the ring was empty at the snapshot. |
| JtagUart.Uart.CopyOut | fpga/software/rfid_test_bsp/drivers/src/altera_avalon_jtag_uart_read.c:136 | Copying out of the ring, with interrupts between any two bytes, yields the oldest bytes unharmed. |
| JtagUart.Uart.ReleaseRx | fpga/software/rfid_test_bsp/drivers/src/altera_avalon_jtag_uart_read.c:140 | Moving the consumer index appends exactly the copied bytes to those returned. |
| JtagUart.Uart.Take | fpga/software/rfid_test_bsp/drivers/src/altera_avalon_jtag_uart_read.c:136-140 | Copying and releasing together deliver exactly the next bytes. |
| JtagUart.Uart.DrainOnce | fpga/software/rfid_test_bsp/drivers/src/altera_avalon_jtag_uart_read.c:122-140 | One turn of the inner loop delivers the next bytes, none if and only if the ring was empty at the snapshot. |
| JtagUart.Uart.DrainStep | fpga/software/rfid_test_bsp/drivers/src/altera_avalon_jtag_uart_read.c:122-142 | A further turn appends what it delivers to what was delivered before. |
| JtagUart.Uart.Drain | fpga/software/rfid_test_bsp/drivers/src/altera_avalon_jtag_uart_read.c:120-142 | The inner loop delivers the next bytes in order, across the end of the buffer too; room left over means that all that was there is delivered, and nothing is delivered if and only if the ring was empty on entry. |
| JtagUart.Uart.AwaitData | fpga/software/rfid_test_bsp/drivers/src/altera_avalon_jtag_uart_read.c:173-174 | The spin loop ends only when a byte has come in since the snapshot or the silence counter stands at the timeout; left waiting, it has neither. |
| JtagUart.Uart.PollData | fpga/software/rfid_test_bsp/drivers/src/altera_avalon_jtag_uart_read.c:173 | One test of the spin loop, with interrupts between its two looks. |
| JtagUart.Uart.AwaitMore | fpga/software/rfid_test_bsp/drivers/src/altera_avalon_jtag_uart_read.c:173-178 | The blocking end of a turn: go on exactly if a byte has come in, give up only with an empty ring and after the host counted as silent. |
| JtagUart.Uart.ReadRound | fpga/software/rfid_test_bsp/drivers/src/altera_avalon_jtag_uart_read.c:117-178 | One turn of the outer loop: it delivers something if and only if something was there, and all of it if there was room; each of its ways out says what the host did. |
| JtagUart.Uart.EnableReceive | fpga/software/rfid_test_bsp/drivers/src/altera_avalon_jtag_uart_read.c:191-194 | Receive interrupts are on afterwards, at the device too. |
| JtagUart.Uart.ReadLoop | fpga/software/rfid_test_bsp/drivers/src/altera_avalon_jtag_uart_read.c:115-179 | Bytes released are the bytes delivered, in order, and all that were there on entry if there was room; a blocking loop that delivers nothing gave up on an empty ring and a silent host, or is left waiting by a host that supplied nothing. |
| JtagUart.Uart.Read | fpga/software/rfid_test_bsp/drivers/src/altera_avalon_jtag_uart_read.c:100-203 | Under every interleaving the bytes returned extend what was returned before, in order; a count short of the space means that everything there on entry is delivered, and would-block that nothing was there. A blocking call fails only with an empty ring after the host counted as silent during the call, and is left waiting only if no batch at all supplied a byte. |
| JtagUart.Uart.Close | fpga/software/rfid_test_bsp/drivers/src/altera_avalon_jtag_uart_init.c:241-254 | A plain success means everything accepted is on the wire or the host has been silent too long; would-block that bytes were waiting. It is left waiting only by a host that drained fewer times than bytes were waiting. |
| JtagUart.Uart.PollEmpty | fpga/software/rfid_test_bsp/drivers/src/altera_avalon_jtag_uart_init.c:247 | One test of the closing loop, with interrupts between its two looks. |
| JtagUart.RingsHoldTheDifference | fpga/software/rfid_test_bsp/drivers/src/altera_avalon_jtag_uart_init.c:169-195 | Bytes on the wire followed by the transmit ring are the bytes accepted; bytes returned, the receive ring and the device FIFO are the bytes that arrived; neither ring ever holds more than 2047. |
| JtagUart.Session | fpga/software/rfid_test_bsp/drivers/src/altera_avalon_jtag_uart_write.c:83-215 | Over any sequence of calls and any script of interrupts, also between the calls, what was accepted is what the calls reported, what was returned is what they delivered, and every call did what it could: a write short of its data filled the ring, a read short of its space delivered all there was. It breaks off early only inside a blocking call that is still waiting. |
| JtagUart.NoneSupplies | fpga/software/rfid_test_bsp/drivers/src/altera_avalon_jtag_uart_read.c:173-174 | A count of zero supplying batches means that no batch supplies. |
| AlarmTiming.WrappedIsRemainder | fpga/software/rfid_test_bsp/HAL/src/alt_tick.c:96 | The 32-bit tick counter is the number of ticks modulo 2^32. |
| AlarmTiming.StartArms | fpga/software/rfid_test_bsp/HAL/src/alt_alarm_start.c:78-98 | Starting an alarm leaves its due time n + 1 ticks ahead, with the rollover flag set exactly when that lies in the next turn of the counter. |
| AlarmTiming.TickExpiresOrKeeps | fpga/software/rfid_test_bsp/HAL/src/alt_tick.c:109-115 | At each tick an alarm expires exactly if this is its due time on a clock that never wraps, and otherwise stays armed. |
| AlarmTiming.ReloadArms | fpga/software/rfid_test_bsp/HAL/src/alt_tick.c:127-137 | Adding the answer of the callback arms the alarm that many ticks ahead, across a wrap of the counter too. |
| AlarmTiming.StartArmsFor | fpga/software/rfid_test_bsp/HAL/src/alt_alarm_start.c:78-98 | Whatever its period, a started alarm is armed for the tick at which it will run: one after its period, or, for a distance of a whole turn, the very next. |
| AlarmTiming.TickRunsOrKeeps | fpga/software/rfid_test_bsp/HAL/src/alt_tick.c:109-115 | Every alarm runs exactly at that tick, and until then stays armed for it. |
| AlarmTiming.ReloadArmsFor | fpga/software/rfid_test_bsp/HAL/src/alt_tick.c:127-137 | Every answer arms it again, counted from one tick earlier after an early run. |
| AlarmTiming.FiringsOfAnyPeriod | fpga/software/rfid_test_bsp/HAL/src/alt_alarm_start.c:78-98 | The firings of an alarm of any period, the longest included, over any number of ticks. |
| AlarmTiming.AnyTimerRunsThen | fpga/software/rfid_test_bsp/HAL/src/alt_tick.c:109-115 | Whatever a timer holds, armed or left behind when its alarm was stopped, it expires at the tick its time and flag lead to and at none before. |
| AlarmTiming.ArmedRunsThen | fpga/software/rfid_test_bsp/HAL/src/alt_alarm_start.c:78-98 | For an alarm armed for a due time, early or not, that tick is the due time. |
| AlarmTiming.SchedulesAgree | fpga/software/rfid_test_bsp/HAL/src/alt_tick.c:127-137 | They are the documented schedule unless the alarm runs early. |
| AlarmTiming.AlarmKeepsSchedule | fpga/software/rfid_test_bsp/HAL/src/alt_tick.c:87-141 | An alarm runs first n + 1 ticks after its start and then as many ticks later as its callback asked, for ever. |
| AlarmTiming.LongestPeriodRunsEarly | fpga/software/rfid_test_bsp/HAL/src/alt_alarm_start.c:82-96 | With the longest period, 2^32 - 1 ticks, the alarm runs at the very next tick unless that tick wraps the counter. |
| AlarmTiming.KeepsScheduleExactlyWhen | fpga/software/rfid_test_bsp/HAL/src/alt_alarm_start.c:78-98 | An alarm keeps its schedule if and only if its period is not the longest or it is started on the last value of the counter. |
| AlarmList.Insert | fpga/software/rfid_test_bsp/HAL/inc/sys/alt_llist.h:90-98 | The entry goes in behind the list head; the list stays circular and doubly linked. |
| AlarmList.Remove | fpga/software/rfid_test_bsp/HAL/inc/sys/alt_llist.h:105-117 | The entry leaves the ring, which closes up behind it, and becomes a ring of its own; removing it again changes nothing. |
| AlarmClock.Clock.Arm | fpga/software/rfid_test_bsp/HAL/src/alt_alarm_start.c:80-96 | The due time and flag stored arm the alarm for the tick at which it will run, for every period. |
| AlarmClock.Clock.StartAny | fpga/software/rfid_test_bsp/HAL/src/alt_alarm_start.c:64-112 | Starting an alarm, between ticks or inside a callback, puts it first on the list, armed; without a clock or an alarm nothing changes. |
| AlarmClock.Clock.StopAny | fpga/software/rfid_test_bsp/HAL/src/alt_tick.c:66-73 | Stopping an alarm, between ticks or inside a callback, takes exactly that alarm off the list and leaves it a ring of its own. |
| AlarmClock.Clock.Start | fpga/software/rfid_test_bsp/HAL/src/alt_alarm_start.c:64-112 | The alarm becomes the first entry, armed for the tick at which it will run, for every period; without a clock or an alarm nothing changes. |
| AlarmClock.Clock.Stop | fpga/software/rfid_test_bsp/HAL/src/alt_tick.c:66-73 | The list loses exactly that alarm; stopping one that is off the list changes nothing. |
| AlarmClock.Clock.Callback | fpga/software/rfid_test_bsp/HAL/src/alt_tick.c:117 | A callback stops alarms, its own and the next one included, and starts any that are off the list, its own after stopping it included: the list follows act by act. |
| AlarmClock.Clock.Rearm | fpga/software/rfid_test_bsp/HAL/src/alt_tick.c:127-137 | The alarm is armed for the tick its answer leads to, counted from one tick earlier after an early run. |
| AlarmClock.Clock.RunDue | fpga/software/rfid_test_bsp/HAL/src/alt_tick.c:115-139 | An expired alarm runs once; it leaves the list if its callback answered zero or stopped it, and is armed again otherwise. |
| AlarmClock.Clock.Look | fpga/software/rfid_test_bsp/HAL/src/alt_tick.c:109-115 | The flag is cleared when the counter has just wrapped, and the alarm then shows as expired exactly if it is due. |
| AlarmClock.Clock.Heed | fpga/software/rfid_test_bsp/HAL/src/alt_tick.c:121-138 | An answer of zero takes the alarm off the list, any other arms it again. |
| AlarmClock.Clock.VisitOne | fpga/software/rfid_test_bsp/HAL/src/alt_tick.c:102-139 | The node the loop is at, on the list or taken off it meanwhile, runs exactly if it is due now; list, timers and log become those of the visit, whatever the callback started or stopped. |
| AlarmClock.Clock.Begin | fpga/software/rfid_test_bsp/HAL/src/alt_tick.c:90-100 | The counter moves on, wrapping with the clock that does not, and the loop starts at the first alarm of the list. |
| AlarmClock.Clock.OneTurn | fpga/software/rfid_test_bsp/HAL/src/alt_tick.c:100-141 | The loop goes on to the node that was next before the callback ran, wherever the callback left that one: further on, in front of the list if it was started again, or pointing at itself. |
| AlarmClock.Clock.WalkAll | fpga/software/rfid_test_bsp/HAL/src/alt_tick.c:100-141 | The pointer loop over the linked list goes through the turns of the walk and leaves what the last one does. |
| AlarmClock.Clock.WalkFor | fpga/software/rfid_test_bsp/HAL/src/alt_tick.c:100-141 | Watched for any number of turns, whether it ends or not, the loop is where the walk is. |
| AlarmClock.Clock.Tick | fpga/software/rfid_test_bsp/HAL/src/alt_tick.c:87-148 | A tick whose loop ends leaves the clock as the function of the walk says, whatever its callbacks start and stop: a step of a run. |
| AlarmClock.Clock.TickFor | fpga/software/rfid_test_bsp/HAL/src/alt_tick.c:87-148 | Of a tick whose callbacks do not start the alarm saved as the next one: its loop comes to the end exactly if every callback that runs spares that alarm, and otherwise goes round at a node that points at itself and is off the list, however many turns it is given. |
| AlarmRuns.SparedStays | fpga/software/rfid_test_bsp/HAL/src/alt_tick.c:102 | If no act stops it, the alarm saved as the next one is still the next to visit, whatever else is started or stopped. |
| AlarmRuns.SparedTurn | fpga/software/rfid_test_bsp/HAL/src/alt_tick.c:100-141 | After a visit whose callback spares it, the loop goes on to it in its place, and every alarm is on the list at most once. |
| AlarmRuns.SparedEnds | fpga/software/rfid_test_bsp/HAL/src/alt_tick.c:100-141 | If every callback spares it, the loop is through after one turn for each alarm registered. |
| AlarmRuns.UnsparedTurn | fpga/software/rfid_test_bsp/HAL/src/alt_tick.c:100-141 | A callback that stops the alarm behind its own and does not start it again leaves the loop at that alarm, which is off the list. |
| AlarmRuns.LostTurn | fpga/software/rfid_test_bsp/HAL/src/alt_tick.c:100-141 | A loop at an alarm off the list stays there, due or not, unless a callback starts that alarm. |
| AlarmRuns.EndsExactlyWhen | fpga/software/rfid_test_bsp/HAL/src/alt_tick.c:100-141 | The loop reaches the list head if and only if every callback run spares the alarm saved as the next one, for all callbacks that do not start that alarm. |
| AlarmRuns.StoppingTheNextHangs | fpga/software/rfid_test_bsp/HAL/src/alt_tick.c:100-141 | For example, if the first of two alarms is due and its callback just stops the second. |
| AlarmRuns.TickOfOne | fpga/software/rfid_test_bsp/HAL/src/alt_tick.c:100-141 | What a tick does to one alarm that no other callback starts or stops: it runs if its timer has expired, leaves the list exactly if it ran and asked to, and keeps or gets the timer that follows. |
| AlarmRuns.VisitedDistinct | fpga/software/rfid_test_bsp/HAL/inc/sys/alt_llist.h:90-117 | No alarm is ever on the list twice, however the callbacks edit it. |
| AlarmRuns.NewIsDue | fpga/software/rfid_test_bsp/HAL/src/alt_alarm_start.c:64-112 | An alarm that a tick brings onto the list was started by a callback during it and has the timer of the period given. |
| AlarmRuns.PlainTick | fpga/software/rfid_test_bsp/HAL/src/alt_tick.c:87-148 | If no callback stops another alarm, exactly the alarms due run, in list order, and the list is left with the new alarms followed by those that stay. |
| AlarmRuns.OffStaysOff | fpga/software/rfid_test_bsp/HAL/src/alt_tick.c:66-73 | An alarm off the list does not run, over any number of steps, until it is started again. |
| AlarmRuns.RunsOnTime | fpga/software/rfid_test_bsp/HAL/src/alt_tick.c:87-148 | Over any run of ticks, and of starts and stops of other alarms between them, an alarm on the list runs exactly when its timer, left to itself, would expire, as long as only its own callback stops it, however often the counter wraps. |
| AlarmRuns.RunsOnSchedule | fpga/software/rfid_test_bsp/HAL/src/alt_tick.c:87-148 | If it is armed for a due time, early or not, these ticks are its schedule and no others. |
| AlarmRuns.StartedRunsOnSchedule | fpga/software/rfid_test_bsp/HAL/src/alt_alarm_start.c:78-112 | From its start an alarm of any period but the longest runs first n + 1 ticks later and then as many ticks later each time as its callback asked. |
| Crc16.ShiftBranches | fpga/software/rfid_test/helpers/crc.c:54-61 | The shift step that all the laws are about is the branch of the source. |
| Crc16.ShiftIsLinear | fpga/software/rfid_test/helpers/crc.c:51-62 | The shift step respects sums of remainders. |
| Crc16.DivideIsShiftN | fpga/software/rfid_test/helpers/crc.c:47-62 | Feeding the bits of a word one by one is adding the word and shifting. |
| Crc16.TableStep | fpga/software/rfid_test/helpers/crc.c:90-92 | One look-up with the next byte does the work of eight bit steps. |
| Crc16.ByTableIsDivision | fpga/software/rfid_test/helpers/crc.c:88-93 | The byte loop through the table leaves the remainder of bit-at-a-time division, for messages of any length. |
| Crc16.CrcTable.Init | fpga/software/rfid_test/helpers/crc.c:37-67 | The table-building loops leave, for each dividend, its remainder after eight bit steps. |
| Crc16.CrcTable.EightSteps | fpga/software/rfid_test/helpers/crc.c:48-65 | The inner loop computes one entry. |
| Crc16.CrcTable.Compute | fpga/software/rfid_test/helpers/crc.c:80-97 | The loop returns the remainder that the table leads to, of the low bytes of the message, lowest first, preset to ones: that of bit-at-a-time division if the table was filled in, and zero for two bytes or more if it never was. |
| Crc16.FilledIsByTable | fpga/software/rfid_test/helpers/crc.c:88-93 | Through a table filled in, the loop is the one that division defines. |
| Crc16.BlankForgets | fpga/software/rfid_test/helpers/crc.c:22-93 | Through a table of zeros it leaves zero, whatever the message. |
| Crc16.DivideIsInjective | fpga/software/rfid_test/helpers/crc.c:88-93 | Different remainders never meet again under the same bits. |
| Crc16.CrcDetectsBursts | fpga/software/rfid_test/helpers/crc.c:80-97 | Messages of equal length, alike outside sixteen consecutive bits at any alignment, never share a CRC. |
| Crc16.CrcDetectsTwoBytes | fpga/software/rfid_test/helpers/crc.c:80-97 | In particular, errors confined to one or two adjacent bytes are always detected. |
| Crc16.CrcIsLongDivision | fpga/software/rfid_test/helpers/crc.c:80-97 | The CRC is the remainder of the long division of the message followed by sixteen zero bits, from a register that the preset stands for. |
| CrcErrors.CrcDetectsOddErrors | fpga/software/rfid_test/helpers/crc.c:80-97 | Messages of equal length that differ in an odd number of bits never share a CRC. |
| CrcErrors.OrderOfX | fpga/software/rfid_test/helpers/crc.c:51-62 | The powers of x repeat every 32767 shift steps and no sooner. |
| CrcErrors.CrcMissesTwoErrorsExactlyWhen | fpga/software/rfid_test/helpers/crc.c:80-97 | Messages of equal length that differ in two bits share a CRC if and only if the two are a multiple of 32767 bits apart. |
| CrcErrors.CrcDetectsThreeErrors | fpga/software/rfid_test/helpers/crc.c:80-97 | In messages of up to 4095 bytes, the four of the source included, one to three wrong bits are always detected. |
| Packages.CreateMask | fpga/software/rfid_test/helpers/functions/rfid.c:31-40 | The mask has one low bit for each unit of the value, and none for a negative one. |
| Packages.Link.AddMask | fpga/software/rfid_test/helpers/functions/sender.c:43-69 | The array receives 26 data bits and a length a package, what is left in the last. |
| Packages.SplitLength | fpga/software/rfid_test/helpers/functions/sender.c:71-74 | A command of a given size takes size / 26 + 1 packages. |
| Packages.Link.SendCommand | fpga/software/rfid_test/helpers/functions/sender.c:86-106 | A command for which the FIFO of 256 has room is queued with its end marker and sent; one that just fills it loses the marker; one that does not fit waits for ever with the FIFO full of its first packages. |
| Packages.Link.GetPackage | fpga/software/rfid_test/helpers/functions/receiver.c:33-71 | Packages are taken until one without data bits, one chunk too many, or an empty FIFO; a chunk is the data bits its length covers, whatever the sign of the word. |
| Packages.PayloadOfPack | fpga/software/rfid_test/helpers/functions/receiver.c:47-51 | A package yields the chunk that was put in, masked to its length, even when the package is a negative integer. |
| Packages.ReceiveFrame | fpga/software/rfid_test/helpers/functions/receiver.c:38-69 | A frame without zero chunks is received chunk by chunk and consumed exactly, whatever follows it. |
| Packages.RoundTripExactlyWhen | fpga/software/rfid_test/helpers/functions/receiver.c:33-71 | Sending then receiving gives back chunks and size and consumes the frame exactly when no chunk is zero and the receiver has room. |
| Packages.MultipleOf26 | fpga/software/rfid_test/helpers/functions/sender.c:45-54 | A size that is a multiple of 26 makes an empty last chunk, so that it never makes the round trip. |
| Packages.StopsAtZero | fpga/software/rfid_test/helpers/functions/receiver.c:53-68 | The first zero chunk ends the receive, and what follows it stays in the FIFO. |
| Packages.WeightedIsLowBits | fpga/software/rfid_test/helpers/functions/sender.c:61-67 | The chunks, each weighted by 2^26 more than the one before, sum to the low bits of the value, whatever bits lie above. |
| Commands.Crc5IsConstant | fpga/software/rfid_test/helpers/crc.c:99-121 | The 5-bit check is 12 whatever the message. |
| Commands.Command.BuildAck | fpga/software/rfid_test/helpers/commands/ack.c:15-19 | The ACK built is heard as an ACK, and its one chunk carries the rn. |
| Commands.Command.BuildNak | fpga/software/rfid_test/helpers/commands/nak.c:15-19 | The NAK built is heard as a NAK. |
| Commands.Command.BuildQuery | fpga/software/rfid_test/helpers/commands/query.c:15-36 | The QUERY built is heard as a QUERY if its fields stay clear of the command code, and as nothing otherwise. |
| Commands.Command.BuildQueryAdjust | fpga/software/rfid_test/helpers/commands/query_adjust.c:15-25 | The QUERY_ADJUST built is heard as one if its fields leave the command code alone, and as nothing otherwise. |
| Commands.Command.BuildQueryRep | fpga/software/rfid_test/helpers/commands/query_rep.c:15-23 | The QUERY_REP built is heard as one for sessions 1 to 3, and as nothing otherwise. |
| Commands.Command.BuildRnCrc | fpga/software/rfid_test/helpers/commands/rn_crc.c:15-20 | rn and the CRC of the table at hand, filled in or not, in one signed word, widened with its sign. |
| Commands.Command.BuildReqRn | fpga/software/rfid_test/helpers/commands/req_rn.c:15-22 | Command, rn and the CRC of both by the table at hand. |
| Commands.AckIsHeard | fpga/software/rfid_test/helpers/commands/ack.c:15-35 | Every ACK, built, split, received and classified, is an ACK that carries its rn. |
| Commands.NakIsHeard | fpga/software/rfid_test/helpers/commands/nak.c:15-35 | Every NAK is heard as a NAK. |
| Commands.QueryIsHeard | fpga/software/rfid_test/helpers/commands/query.c:15-58 | A QUERY is heard as one exactly when its fields stay clear of the command code, as in-range fields do. |
| Commands.QueryAdjustIsHeard | fpga/software/rfid_test/helpers/commands/query_adjust.c:15-42 | A QUERY_ADJUST is never claimed by NAK; it is heard as one exactly when its fields leave bits 6 and 7 clear, as in-range fields do. |
| Commands.QueryRepIsHeard | fpga/software/rfid_test/helpers/commands/query_rep.c:15-40 | A QUERY_REP is heard as one exactly when its session is 1, 2 or 3 modulo 16: with session 0 it reads as an end marker. |
| Commands.Rn16IsHeard | fpga/software/rfid_test/helpers/commands/rn16.c:15-26 | An RN16 is heard as one exactly when it is not zero. |
| Commands.ThirdByteDetected | fpga/software/rfid_test/helpers/commands/rn_crc.c:32-37 | The CRC the validator recomputes from sixteen bits agrees exactly when the rn had no third byte. |
| Commands.RnCrcIsHeard | fpga/software/rfid_test/helpers/commands/rn_crc.c:15-39 | Between programs that filled in their tables, an RN_CRC is heard as one exactly when its rn has no third byte and is at least 1024 in its low sixteen bits. |
| Commands.BlankRnCrcIsHeard | fpga/software/rfid_test/helpers/commands/rn_crc.c:15-39 | Between programs that did not, exactly when neither the upper six nor the lower ten of those sixteen bits are all zero, whatever the third byte. |
| Commands.MixedRnCrcIsHeard | fpga/software/rfid_test/helpers/commands/rn_crc.c:15-39 | If only one of them did, an rn without third byte is heard only if it is all ones, whose CRC is zero. |
| Commands.RnCrcCarries | fpga/examples_of_main/reader.c:139 | The rn read back from the two packages is the low half of the one sent, with either table. |
| Commands.TenBitsDetected | fpga/software/rfid_test/helpers/commands/req_rn.c:36-44 | The CRC over ten bits of the rn agrees with the one sent exactly when the other six are clear. |
| Commands.ReqRnIsHeard | fpga/software/rfid_test/helpers/commands/req_rn.c:15-47 | Between programs that filled in their tables, a REQ_RN is heard as one exactly for an rn below 1024 in its low sixteen bits. |
| Commands.BlankReqRnIsHeard | fpga/software/rfid_test/helpers/commands/req_rn.c:15-47 | Between programs that did not, exactly when the lower ten bits of the rn are not all zero. |
| Commands.MixedReqRnIsHeard | fpga/software/rfid_test/helpers/commands/req_rn.c:15-47 | If only one of them did, a REQ_RN for an rn below 1024 is never heard. |
| Handshake.Exchange.ReaderMove | fpga/examples_of_main/reader.c:55-142 | The reader pushes or takes one package, or waits: one step of its program. |
| Handshake.Exchange.TagMove | fpga/examples_of_main/tag.c:46-128 | The tag pushes or takes one package, or waits: one step of its program. |
| Handshake.Exchange.Play | fpga/examples_of_main/reader.c:55-142 | Any interleaving of the two programs is a run of the step functions the lemmas are about. |
| Handshake.Taking | fpga/software/rfid_test/helpers/functions/receiver.c:38-69 | A receiver that has taken part of a frame goes on to what it would make of the whole; it accepts only with the last package. |
| Handshake.EveryTurnHeard | fpga/examples_of_main/tag.c:46-128 | Each of the six commands is heard as its receiver expects or as nothing, and exactly when which: it depends on RN16, handle and the CRC tables of both sides. |
| Handshake.StepKeeps | fpga/examples_of_main/reader.c:55-142 | Whoever moves, a run stays in one of the states described, and every effective move brings it closer to its end. |
| Handshake.OneFrameInFlight | fpga/examples_of_main/reader.c:55-142 | In every reachable state the FIFO of the current turn holds a stretch of a single frame, the one sent in that turn, of at most three packages, and the other FIFO is empty. |
| Handshake.CompletesExactlyWhen | fpga/examples_of_main/reader.c:55-142 | A run that cannot go on is complete, with nothing left over and the handle of the tag in the reader, if and only if both CRC tables are filled in or both are blank, the RN16 is not zero, the handle is at least 1024 and, with blank tables, the low byte of the RN16 and the low ten bits of the handle are not zero. |
| Handshake.FairRunsComplete | fpga/examples_of_main/tag.c:46-128 | Sixty rounds in which both programs get a move, in any order, bring every run to that end, or show that it is not reached. |
| Handshake.InitialisedRunsComplete | fpga/software/rfid_test/helpers/crc.c:73-76 | With both tables filled in, as the CRC asks for, such a run completes if and only if the RN16 is not zero and the handle is at least 1024. |
| Handshake.WrittenRunsComplete | fpga/examples_of_main/tag.c:46-128 | As the two programs are written, with blank tables, it completes if and only if the low byte of the RN16 is not zero, the handle is at least 1024 and its low ten bits are not zero. |
| Handshake.WrittenRunsFail | fpga/examples_of_main/tag.c:46-128 | So the RN16 0x0100, or the handle 0x0400, completes no run of them, however scheduled. |
| Handshake.InitialisedRunsDoNot | fpga/examples_of_main/tag.c:46-128 | With the tables filled in both would have come through. |
| Handshake.ShippedValuesComplete | fpga/examples_of_main/tag.c:124 | The RN16 and the handle that stand in the code complete with either table. |
| DescriptorTable.Pool.GetFd | fpga/software/rfid_test_bsp/HAL/src/alt_get_fd.c:54-101 | The lowest free descriptor is claimed, and the mark raised to it. |
| DescriptorTable.Pool.FileLocked | fpga/software/rfid_test_bsp/HAL/src/alt_open.c:64-92 | The descriptor is marked as a device, and a lock is reported exactly when another descriptor up to the mark holds one on the device. |
| DescriptorTable.Pool.OpenFile | fpga/software/rfid_test_bsp/HAL/src/alt_open.c:105-171 | What an open does to the pool and returns, in every branch. |
| DescriptorTable.Pool.Release | fpga/software/rfid_test_bsp/HAL/src/alt_release_fd.c:44-51 | A descriptor above the standard ones is freed. |
| DescriptorTable.Pool.CloseFile | fpga/software/rfid_test_bsp/HAL/src/alt_close.c:64-101 | What a close does to the pool and returns. |
| DescriptorTable.Pool.LockFd | fpga/software/rfid_test_bsp/HAL/src/alt_fd_lock.c:54-75 | The lock is granted unless a descriptor below the mark, other than this one, refers to the device. |
| DescriptorTable.Pool.UnlockFd | fpga/software/rfid_test_bsp/HAL/src/alt_fd_unlock.c:52-56 | The lock is given up. |
| DescriptorTable.InitialIsValid | fpga/software/rfid_test_bsp/HAL/src/alt_dev.c:118-149 | The pool starts in order. |
| DescriptorTable.FailedOpenChangesNothing | fpga/software/rfid_test_bsp/HAL/src/alt_open.c:161-166 | A failed open leaves every device and flag as it was. |
| DescriptorTable.OpenSucceedsExactlyWhen | fpga/software/rfid_test_bsp/HAL/src/alt_open.c:105-171 | An open succeeds exactly when something was found, a descriptor is free, the device is not locked and its driver does not object. |
| DescriptorTable.CloseUndoesOpen | fpga/software/rfid_test_bsp/HAL/src/alt_close.c:64-101 | Closing a descriptor just opened puts every device and flag back. |
| DescriptorTable.UnlockUndoesLock | fpga/software/rfid_test_bsp/HAL/src/alt_fd_unlock.c:52-56 | A granted lock is held, and unlocking puts every flag back. |
| DescriptorTable.SuccessfulOpen | fpga/software/rfid_test_bsp/HAL/src/alt_open.c:131-170 | A successful open takes the lowest free descriptor, changes no other, and finds no lock on the device. |
| DescriptorTable.LockedDeviceStaysShut | fpga/software/rfid_test_bsp/HAL/src/alt_open.c:79-87 | While a descriptor holds a lock on a device, opening the device fails. |
| DescriptorTable.LockExcludesOpens | fpga/software/rfid_test_bsp/HAL/src/alt_open.c:64-171 | Over any run of opens, closes, locks and unlocks in which the holder neither unlocks nor is closed, it keeps its lock, every open of the device fails and no further descriptor refers to it. |
| DescriptorTable.RunsKeepValid | fpga/software/rfid_test_bsp/HAL/src/alt_get_fd.c:62-89 | Over any run, used descriptors above the standard ones are at or below the mark, and the mark never falls. |
| DescriptorTable.GrantedIsExclusiveExactlyWhen | fpga/software/rfid_test_bsp/HAL/src/alt_fd_lock.c:61-70 | A granted lock is exclusive exactly when no descriptor from the mark up, which the scan leaves out, refers to the device. |
| DescriptorTable.GrantedIsExclusiveUnlessAtTheMark | fpga/software/rfid_test_bsp/HAL/src/alt_fd_lock.c:61-70 | With the mark at 3 or above, that comes down to one slot: the grant is exclusive exactly when the descriptor is the mark itself or the one at the mark refers to another device. |
| DescriptorTable.GrantedWhileShared | fpga/software/rfid_test_bsp/HAL/src/alt_fd_lock.c:61-70 | So the documented promise fails: with two descriptors open on one device the first may lock it. |
| IrqNesting.FirstActive | fpga/software/rfid_test_bsp/HAL/src/alt_irq_handler.c:130-155 | The bit scan ends at the lowest number pending. |
| IrqNesting.MaskedIsLower | fpga/software/rfid_test_bsp/HAL/inc/priv/alt_legacy_irq.h:126-128 | What passes the mask of a priority has a lower number. |
| IrqNesting.Controller.MakeInterruptible | fpga/software/rfid_test_bsp/HAL/inc/priv/alt_legacy_irq.h:118-133 | The mask becomes that of the priority, the enables follow, and interrupts are on. |
| IrqNesting.Controller.MakeNonInterruptible | fpga/software/rfid_test_bsp/HAL/inc/priv/alt_legacy_irq.h:139-149 | Interrupts are off, and mask and enables are put back. |
| IrqNesting.Controller.Enable | fpga/software/rfid_test_bsp/HAL/inc/priv/alt_legacy_irq.h:86-100 | Enabling a line inside a bracket keeps the enables equal to active and mask exactly if no line the mask shuts out is active. |
| IrqNesting.Controller.Disable | fpga/software/rfid_test_bsp/HAL/inc/priv/alt_legacy_irq.h:68-81 | Likewise for disabling one. |
| IrqNesting.Controller.Take | fpga/software/rfid_test_bsp/HAL/src/alt_irq_handler.c:80-167 | The handlers entered are exactly those of the trace of the exception, everything nested in it included; mask, enables and the stack of handlers are put back. |
| IrqNesting.Controller.Handle | fpga/software/rfid_test_bsp/HAL/inc/priv/alt_legacy_irq.h:118-149 | A handler that brackets itself is interrupted by exactly what its bracket lets in, and puts mask and enables back. |
| IrqNesting.Controller.Dispatcher | fpga/software/rfid_test_bsp/HAL/src/alt_irq_handler.c:128-159 | The dispatch loop enters the handler of the lowest number pending, again and again until none is: its log is the trace. |
| IrqNesting.Controller.DispatchFirst | fpga/software/rfid_test_bsp/HAL/src/alt_irq_handler.c:130-155 | One turn of the loop enters the first pending handler and what is nested in it. |
| IrqNesting.TraceIsProper | fpga/software/rfid_test_bsp/HAL/src/alt_irq_handler.c:128-159 | In the trace of any exception, at any nesting, every handler entered has the lowest number pending and a lower one than all it interrupts. |
| IrqNesting.LowestIsUnique | fpga/software/rfid_test_bsp/HAL/src/alt_irq_handler.c:130-155 | The number the scan ends at is the one the trace is defined by. |
| Heap.Allocator.Extend | fpga/software/rfid_test_bsp/HAL/src/alt_sbrk.c:68-136 | What an extension of the heap does and returns, on success and failure. |
| Heap.Allocator.AllocateSlab | fpga/software/rfid_test_bsp/HAL/src/alt_gmon.c:133-148 | What a slab request does and returns, including the unsigned comparison and a failed sbrk. |
| Heap.SbrkKeepsTidy | fpga/software/rfid_test_bsp/HAL/src/alt_sbrk.c:76-112 | A block is handed out exactly when it ends within the limit; it starts at a word boundary, past everything handed out before. |
| Heap.AllocateKeepsTidy | fpga/software/rfid_test_bsp/HAL/src/alt_gmon.c:137-147 | What fits the current slab is cut from it and takes nothing from the heap; any request served is apart from all others. |
| Heap.AllocateIsTidyExactlyWhen | fpga/software/rfid_test_bsp/HAL/src/alt_gmon.c:137-147 | A slab request gets memory inside the heap and apart from all other blocks exactly when it fits the current slab, or fits a slab and there is room for one. |
| Heap.RunsAreTidy | fpga/software/rfid_test_bsp/HAL/src/alt_gmon.c:133-148 | However direct and slab requests are interleaved, if all slab requests are served all blocks ever handed out are pairwise apart, inside the heap and below its limit, and the direct ones word-aligned. |
| Heap.RunsAreTidyExactlyWhen | fpga/software/rfid_test_bsp/HAL/src/alt_gmon.c:133-148 | And only then: one slab request that is not served leaves memory outside the heap or overlapping, whatever is requested afterwards. |
| Heap.BrokenStays | fpga/software/rfid_test_bsp/HAL/src/alt_sbrk.c:76-112 | A block past the limit, past the end of the heap or overlapping another stays so over any run. |
| Heap.FreshRunsAreTidyExactlyWhen | fpga/software/rfid_test_bsp/HAL/src/alt_gmon.c:133-148 | The same of all runs from a heap that has just been laid out. |
| Heap.UnservedBreaks | fpga/software/rfid_test_bsp/HAL/src/alt_gmon.c:137-147 | A slab request that is not served gets a block past the limit, or one that straddles the end of the heap. |
| Heap.ShrinkingReuses | fpga/software/rfid_test_bsp/HAL/src/alt_sbrk.c:95-96 | A negative increment hands memory still in use out again. |
| NumberPrinting.PrintInteger | fpga/software/rfid_test_bsp/HAL/src/alt_log_printf.c:206-297 | The field printed for every word, base, sign, width and padding. |
| NumberPrinting.StripSign | fpga/software/rfid_test_bsp/HAL/src/alt_log_printf.c:238-245 | A word with the top bit set is negated if the format is signed, also the most negative one. |
| NumberPrinting.PrintLead | fpga/software/rfid_test_bsp/HAL/src/alt_log_printf.c:257-279 | Padding and sign, in the order of the source. |
| NumberPrinting.CountDigits | fpga/software/rfid_test_bsp/HAL/src/alt_log_printf.c:247-255 | The digits are counted, and the place value of the first never passes the number, so that it does not overflow. |
| NumberPrinting.PrintDigit | fpga/software/rfid_test_bsp/HAL/src/alt_log_printf.c:282-296 | One turn of the digit loop yields the first of the digits left, and leaves the rest. |
| NumberPrinting.PrintDigits | fpga/software/rfid_test_bsp/HAL/src/alt_log_printf.c:281-296 | The digits come out from the first, each the quotient by its place value. |
| NumberPrinting.DigitsReadBack | fpga/software/rfid_test_bsp/HAL/src/alt_log_printf.c:281-296 | Evaluating the digits of a number gives the number. |
| NumberPrinting.NoLeadingZero | fpga/software/rfid_test_bsp/HAL/src/alt_log_printf.c:247-255 | The first digit is zero only if it is the only one. |
| NumberPrinting.PadIsPure | fpga/software/rfid_test_bsp/HAL/src/alt_log_printf.c:257-279 | Padding is all zeros, between sign and digits, or all blanks, before both. |
| NumberPrinting.FieldLength | fpga/software/rfid_test_bsp/HAL/src/alt_log_printf.c:257-279 | The field is as long as the width or as digits and sign, whichever is more. |
| NumberPrinting.FieldReadsBack | fpga/software/rfid_test_bsp/HAL/src/alt_log_printf.c:206-297 | Every field, padded with blanks or zeros, reads back to the value printed. |
| NumberPrinting.PrintHex | fpga/software/rfid_test_bsp/HAL/src/alt_printf.c:84-113 | The small printf prints the same digits, from the first nonzero one. |
| NumberPrinting.PlainHexAgrees | fpga/software/rfid_test_bsp/HAL/src/alt_printf.c:84-113 | The plain %x of the log printer is the string of the small printf. |
| LogPrintf.LiteralRuns | fpga/software/rfid_test_bsp/HAL/src/alt_log_printf.c:134-162 | Text without directives, percent signs doubled, is printed as it is. |
| LogPrintf.WidthRuns | fpga/software/rfid_test_bsp/HAL/src/alt_log_printf.c:176-195 | The digits of a width are read as the number they stand for. |
| LogPrintf.FieldRuns | fpga/software/rfid_test_bsp/HAL/src/alt_log_printf.c:130-313 | A directive with pad, width, long flag and conversion prints the field it describes, of the next argument. |
| LogPrintf.FormatPrintsItsPieces | fpga/software/rfid_test_bsp/HAL/src/alt_log_printf.c:130-340 | A format put together from any literal texts and number directives prints what they mean, one after the other, each directive taking the next argument. |
| LogPrintf.PrintLetter | fpga/software/rfid_test_bsp/HAL/src/alt_log_printf.c:202-335 | What each conversion letter prints, unknown ones included. |
| LogPrintf.Print | fpga/software/rfid_test_bsp/HAL/src/alt_log_printf.c:114-341 | The loop over the format string is a run of that machine, for any format and arguments. |
| TimeOfDay.WallClock.SetTime | fpga/software/rfid_test_bsp/HAL/src/alt_settod.c:72-96 | The offset recorded; without a clock nothing is. |
| TimeOfDay.WallClock.GetTime | fpga/software/rfid_test_bsp/HAL/src/alt_gettod.c:79-123 | The adjusting loops end, and give the normalised time and the zone set. |
| TimeOfDay.AdjustedMeans | fpga/software/rfid_test_bsp/HAL/src/alt_gettod.c:95-112 | For every time, adjusting keeps it and normalises it, but for one before the epoch with negative microseconds, which becomes the epoch. |
| TimeOfDay.FractionsAgree | fpga/software/rfid_test_bsp/HAL/src/alt_settod.c:83-84 | The 32-bit product takes off the fraction the 64-bit one puts back exactly when what it drops is a whole number of seconds. |
| TimeOfDay.ImmediateReadExactlyWhen | fpga/software/rfid_test_bsp/HAL/src/alt_settod.c:59-64 | An immediate read returns the time set exactly when the product was exact, or the clamp hid at the epoch that it was not. |
| TimeOfDay.LaterReadExactlyWhen | fpga/software/rfid_test_bsp/HAL/src/alt_gettod.c:91-112 | If the rate divides a million, a read k ticks later returns the time set plus those ticks, normalised, exactly under the same condition. |
| TimeOfDay.SetEarlyReadsRight | fpga/software/rfid_test_bsp/HAL/src/alt_gettod.c:91-112 | If the clock is set while the product still fits in 32 bits, every later read is right. |
| TimeOfDay.ClampNotTaken | fpga/software/rfid_test_bsp/HAL/src/alt_gettod.c:95-101 | With an exact product the clamp is never taken, in any turn of the loop. |
| TimeOfDay.LongUptimeIsNot | fpga/software/rfid_test_bsp/HAL/src/alt_settod.c:83-84 | At a thousand ticks a second the documented promise fails after 72 minutes. |

## Left out

- Progress of the UART calls is counted in the batches of the script in which the host drains or supplies; a spin loop that outlives the script is reported as waiting.
- JtagUart.Uart.Read: says nothing of the caller's buffer beyond the bytes delivered.
- JtagUart.Uart.TimeoutAlarm: the event flags of the multi-threaded build are not modelled.
- The small UART driver, the uC/OS-II branches and the option that ignores a full FIFO.
- AlarmClock.Clock.Tick: a callback does not start an alarm that is on the list, which would corrupt it, nor stop one that was never on it, whose links are not set.
- AlarmRuns.EndsExactlyWhen: no callback starts the alarm that the loop has saved as the next one; if one stops it and starts it again, the walk goes on from the front of the list (`AlarmClock.Clock.OneTurn`), and whether it ends is not decided.
- AlarmRuns.RunsOnSchedule: every tick of the run goes straight through, each callback sparing the alarm saved as the next one.
- Packages.Link.GetPackage: the chunk stored one past the end of the caller's array is an extra element of a sequence.
- Packages.Link.SendCommand: the wait for the end of the transmission, which is the hardware's, and the settings written around it.
- The FM0 encoder and decoder, the Avalon registers and the timing of the air interface: the FIFOs between the two sides are lossless sequences.
- `kill_build`, `lock_build`, `read_build`, `write_build` and `select_build`: they shift 32-bit integers by 32 and more, which C gives no meaning.
- Randomness of `rn16_build`, whose value is a constant in the code: it is a parameter.
- DescriptorTable.Pool.OpenFile: names are not looked up; the device or file system found is a parameter, and so is the answer of its open callback.
- IrqNesting.Controller.Take: handlers change no enables inside a bracket; `IrqNesting.Controller.Enable` says what happens if one does.
- IrqNesting.Controller.Dispatcher: an arrival lists finitely many handler runs, and no line is asserted after the last.
- Heap.RunsAreTidy: increments given to sbrk directly are not negative, and memory lies below 2 GiB, so that no sum of addresses wraps.
- The lists of call arcs that the profiler links, and stack checks in sbrk.
- LogPrintf.Print: an argument that is missing or of the wrong kind, to which C gives no meaning, reads as zero or empty; widths are unbounded integers.
- The format loop of the small printf beyond its hexadecimal conversion.
- TimeOfDay.LaterReadExactlyWhen: the tick rate divides a million, the tick counter does not wrap in between, and the seconds stay below 2^31.
- System call stubs, boot code, flash and DMA wrappers, cache instructions and delay loops.
