/** The alarm list and the tick interrupt that edits it while it walks it. */
module AlarmClock {
  import opened AlarmTiming
  import opened AlarmList
  import opened AlarmWalk
  import AlarmRuns

  datatype StartResult = Success | NotSupported | Invalid

  ghost function Timers(alarms: seq<Alarm>): (timers: map<Alarm, Timer>)
    reads alarms`time, alarms`rollover
  {
    map a | a in alarms :: a.Timer()
  }

  /** The alarms that callbacks start. */
  ghost function StartedBy(react: map<Alarm, Reaction>): (alarms: set<Alarm>) {
    set a, i | a in react && 0 <= i < |react[a].acts| && react[a].acts[i].StartIt? :: react[a].acts[i].alarm
  }

  /** No act is on the list head. */
  ghost predicate Avoids(acts: seq<Act>, head: Alarm) {
    forall act :: act in acts ==> act.alarm != head
  }

  class Clock {
    const head: Alarm
    var tickRate: u32
    var nticks: u32
    ghost var clock: nat             // ticks since reset, never wrapping
    ghost var entries: seq<Alarm>    // the alarms registered, in list order
    ghost var off: set<Alarm>        // those taken off the list since they were last started
    ghost var log: seq<(Alarm, nat)> // every callback run, with its tick

    /** The list is linked, and every alarm taken off it is a ring of its own. */
    ghost predicate Shape()
      reads this, head, entries, off
    {
      && Linked([head] + entries)
      && nticks == Wrapped(clock)
      && (entries != [] ==> tickRate > 0)
      && forall a :: a in off ==> a != head && a !in entries && Linked([a])
    }

    /** Between ticks nothing more is needed: every timer expires at its `NextRun`. */
    ghost predicate Valid()
      reads this, head, entries, off
    {
      Shape()
    }

    ghost function Now(): (v: View)
      reads this, entries
    {
      View(clock, entries, off, Timers(entries), log)
    }

    lemma NowIsSound()
      requires Valid()
      ensures Sound(Now())
    {
      DistinctTail(head, entries);
    }

    constructor (tickRate: u32)
      ensures Valid() && entries == [] && clock == 0 && log == [] && off == {} && this.tickRate == tickRate
      ensures fresh(head)
    {
      head := new Alarm();
      this.tickRate, nticks, clock, entries, off, log := tickRate, 0, 0, [], {}, [];
    }

    // ---- starting and stopping ---------------------------------------------------------

    /** The due time and flag a start stores. */
    method Arm(alarm: Alarm, period: u32)
      requires nticks == Wrapped(clock)
      modifies alarm`time, alarm`rollover
      ensures alarm.Timer() == StartTimer(period, nticks)
      ensures ArmedFor(alarm.Timer(), clock, StartDue(clock, period))
    {
      StartArmsFor(period, clock);
      alarm.time := Wrapped(period + nticks + 1);
      alarm.rollover := alarm.time < nticks;
    }

    /** `alt_alarm_start`, in any context: between ticks or inside a callback. */
    method StartAny(alarm: Alarm?, period: u32) returns (rc: StartResult)
      requires Shape() && (alarm != null ==> alarm != head && alarm !in entries)
      modifies this`entries, this`off, alarm, head`next, head`previous, entries`previous
      ensures Shape()
      ensures if tickRate == 0 then rc == NotSupported && entries == old(entries) && off == old(off)
              else if alarm == null then rc == Invalid && entries == old(entries) && off == old(off)
              else && rc == Success && entries == [alarm] + old(entries) && off == old(off) - {alarm}
                   && alarm.Timer() == StartTimer(period, nticks)
                   && ArmedFor(alarm.Timer(), clock, StartDue(clock, period))
    {
      if tickRate == 0 {
        return NotSupported;
      }
      if alarm == null {
        return Invalid;
      }
      Arm(alarm, period);
      Link(alarm);
      entries, off := [alarm] + entries, off - {alarm};
      return Success;
    }

    /** The list operation of it. */
    method Link(alarm: Alarm)
      requires Linked([head] + entries) && alarm != head && alarm !in entries
      modifies alarm`next, alarm`previous, head`next, head`previous, entries`previous
      ensures Linked([head] + ([alarm] + entries))
    {
      assert ([head] + entries)[0].next in [head] + entries;
      Insert(head, alarm, [head] + entries);
      assert [head, alarm] + ([head] + entries)[1..] == [head] + ([alarm] + entries);
    }

    /** `alt_alarm_stop`, in any context.  Stopping an alarm that is off the list changes nothing. */
    method StopAny(alarm: Alarm)
      requires Shape() && alarm != head && (alarm in entries || Linked([alarm]))
      modifies this`entries, this`off, alarm`next, alarm`previous
      modifies head`next, head`previous, entries`next, entries`previous
      ensures Shape() && entries == Without(old(entries), alarm) && Linked([alarm]) && off == old(off) + {alarm}
      ensures alarm !in entries && forall a :: a in entries ==> a in old(entries)
      ensures alarm !in old(entries) ==> entries == old(entries)
    {
      ghost var ring, k := RingOf(head, entries, alarm);
      ghost var rest := Without(entries, alarm);
      Unlink(alarm, ring, k);
      entries, off := rest, off + {alarm};
    }

    /** The list operation of it, on the ring the alarm is on. */
    method Unlink(alarm: Alarm, ghost ring: seq<Alarm>, ghost k: nat)
      requires Linked([head] + entries) && Linked(ring) && k < |ring| && ring[k] == alarm && alarm != head
      requires if alarm in entries then ring == [head] + entries else ring == [alarm]
      modifies alarm`next, alarm`previous, head`next, head`previous, entries`next, entries`previous
      ensures Linked(ring[..k] + ring[k + 1..]) && Linked([alarm])
      ensures alarm !in entries ==> Linked([head] + entries)
    {
      Neighbours(ring, k);
      Remove(alarm, ring, k);
      if alarm !in entries {
        SameLinks([head] + entries);
      }
    }

    /** `alt_alarm_start` between ticks. */
    method Start(alarm: Alarm?, period: u32) returns (rc: StartResult)
      requires Valid() && (alarm != null ==> alarm != head && alarm !in entries)
      modifies this`entries, this`off, alarm, head`next, head`previous, entries`previous
      ensures Valid()
      ensures if tickRate == 0 then rc == NotSupported && entries == old(entries)
              else if alarm == null then rc == Invalid && entries == old(entries)
              else && rc == Success && entries == [alarm] + old(entries)
                   && ArmedFor(alarm.Timer(), clock, StartDue(clock, period))
      ensures if rc == Success then alarm != null && Stepped(old(Now()), Starting(alarm, period), Now())
              else Now() == old(Now())
    {
      NowIsSound();
      ghost var v := Now();
      rc := StartAny(alarm, period);
      NowIsSound();
      if rc == Success {
        StartIsStep(v, alarm, period, Now());
      }
    }

    /** `alt_alarm_stop` between ticks. */
    method Stop(alarm: Alarm)
      requires Valid() && alarm != head && (alarm in entries || Linked([alarm]))
      modifies this`entries, this`off, alarm`next, alarm`previous
      modifies head`next, head`previous, entries`next, entries`previous
      ensures Valid() && entries == Without(old(entries), alarm) && Linked([alarm])
      ensures alarm !in entries && (alarm !in old(entries) ==> entries == old(entries))
      ensures Stepped(old(Now()), Stopping(alarm), Now())
    {
      NowIsSound();
      ghost var v := Now();
      StopAny(alarm);
      NowIsSound();
      StopIsStep(v, alarm, Now());
    }

    // ---- one callback -------------------------------------------------------------------

    /** The alarms hold these times and flags. */
    ghost predicate Timed(s: Stage)
      reads s.timers.Keys`time, s.timers.Keys`rollover
    {
      && (forall a :: a in Listed(s) ==> a in s.timers)
      && (forall a :: a in s.timers.Keys ==> a.Timer() == s.timers[a])
    }

    /** The list is at this stage of a walk. */
    ghost predicate At(s: Stage)
      reads this, head, entries, off, s.timers.Keys
    {
      && Shape() && Timed(s) && head !in s.timers
      && entries == Listed(s) && off == s.off && log == s.log
    }

    /** All alarms with a timer, on the list, off it or started by these acts are among `all`. */
    ghost predicate Within(s: Stage, acts: seq<Act>, all: set<Alarm>) {
      && s.timers.Keys <= all && s.off <= all && (forall a :: a in Listed(s) ==> a in all)
      && (forall act :: act in acts && act.StartIt? ==> act.alarm in all)
    }

    /** A start in a callback, */
    method DoStart(alarm: Alarm, period: u32, ghost s: Stage)
      requires At(s) && tickRate > 0 && ActFits(s, StartIt(alarm, period)) && alarm != head
      modifies this`entries, this`off, alarm, head`next, head`previous, entries`previous
      ensures At(Acted(s, StartIt(alarm, period), nticks))
    {
      var rc := StartAny(alarm, period);
      assert Listed(Acted(s, StartIt(alarm, period), nticks)) == [alarm] + Listed(s);
    }

    lemma TimedStopped(s: Stage, alarm: Alarm)
      requires Timed(s)
      ensures Timed(Stopped(s, alarm))
    {
      StoppedParts(s, alarm);
    }

    /** and a stop. */
    method DoStop(alarm: Alarm, ghost s: Stage)
      requires At(s) && Known(s, alarm) && alarm != head
      modifies this`entries, this`off, alarm`next, alarm`previous
      modifies head`next, head`previous, entries`next, entries`previous
      ensures At(Stopped(s, alarm))
    {
      TimedStopped(s, alarm);
      DistinctTail(head, entries);
      StoppedListed(s, alarm);
      StopAny(alarm);
    }

    method Do(act: Act, ghost s: Stage, ghost all: set<Alarm>)
      requires At(s) && tickRate > 0 && ActFits(s, act) && act.alarm != head && Within(s, [act], all)
      modifies this`entries, this`off, head`next, head`previous, all
      ensures At(Acted(s, act, nticks)) && Within(Acted(s, act, nticks), [], all)
    {
      assert act in [act];
      match act
      case StartIt(alarm, period) =>
        DoStart(alarm, period, s);
      case StopIt(alarm) =>
        StoppedWithin(s, alarm, all);
        DoStop(alarm, s);
    }

    lemma StoppedWithin(s: Stage, alarm: Alarm, all: set<Alarm>)
      requires Within(s, [], all) && Known(s, alarm)
      ensures Within(Stopped(s, alarm), [], all)
    {
      StoppedParts(s, alarm);
    }

    /** A callback runs: it starts and stops alarms, one by one. */
    method Callback(reaction: Reaction, ghost s: Stage, ghost all: set<Alarm>) returns (answer: u32)
      requires At(s) && tickRate > 0
      requires ActsFit(s, reaction.acts, nticks) && Avoids(reaction.acts, head) && Within(s, reaction.acts, all)
      modifies this`entries, this`off, head`next, head`previous, all
      ensures At(ActedAll(s, reaction.acts, nticks)) && Within(ActedAll(s, reaction.acts, nticks), [], all)
      ensures answer == reaction.answer
    {
      ghost var now := s;
      for i := 0 to |reaction.acts|
        invariant At(now) && Within(now, [], all)
        invariant ActsFit(now, reaction.acts[i..], nticks)
        invariant ActedAll(now, reaction.acts[i..], nticks) == ActedAll(s, reaction.acts, nticks)
      {
        assert reaction.acts[i..][1..] == reaction.acts[i + 1..];
        Do(reaction.acts[i], now, all);
        now := Acted(now, reaction.acts[i], nticks);
      }
      answer := reaction.answer;
    }

    /** The reload after a callback asked to be called again. */
    method Rearm(alarm: Alarm, answer: u32)
      requires answer != 0 && nticks == Wrapped(clock)
      modifies alarm`time, alarm`rollover
      ensures alarm.Timer() == Reload(old(alarm.Timer()), answer, nticks)
      ensures forall due :: old(Running(alarm.Timer(), due)) && due.tick == clock ==>
        ArmedFor(alarm.Timer(), clock, NextDue(due, answer))
    {
      ghost var t := alarm.Timer();
      forall due | Running(t, due) && due.tick == clock
        ensures ArmedFor(Reload(t, answer, nticks), clock, NextDue(due, answer))
      {
        ReloadArmsFor(t, answer, due);
      }
      alarm.time := Wrapped(alarm.time + answer);
      if alarm.time < nticks {
        alarm.rollover := true;
      }
    }

    /** What the answer of a callback makes of its alarm, wherever the callback left it. */
    method Heed(alarm: Alarm, answer: u32, ghost s: Stage)
      requires At(s) && Known(s, alarm) && alarm in s.timers
      modifies this`entries, this`off, head`next, head`previous, entries`next, entries`previous, alarm
      ensures At(Answered(s, alarm, answer, nticks))
    {
      if answer == 0 {
        DoStop(alarm, s);
      } else {
        Rearm(alarm, answer);
      }
    }

    // ---- one turn of the loop -----------------------------------------------------------

    /** What every visit may rely on. */
    ghost predicate Allows(s: Stage, react: map<Alarm, Reaction>, all: set<Alarm>) {
      && Within(s, [], all) && StartedBy(react) <= all && (forall a :: a in react ==> Avoids(react[a].acts, head))
    }

    /** The flag is cleared when the counter has just wrapped; then the alarm shows whether it is due. */
    method Look(alarm: Alarm, ghost s: Stage) returns (expired: bool)
      requires At(s) && alarm in s.timers && clock > 0
      modifies alarm`rollover
      ensures At(Looked(s, alarm, nticks)) && (expired <==> Fires(s, alarm, nticks))
      ensures expired <==> NextRun(s.timers[alarm], clock - 1) == clock
    {
      AnyTimerRunsThen(alarm.Timer(), clock - 1);
      if alarm.rollover && nticks == 0 {
        alarm.rollover := false;
      }
      expired := alarm.time <= nticks && !alarm.rollover;
    }

    ghost method Log(alarm: Alarm, s: Stage)
      requires At(Looked(s, alarm, nticks))
      modifies this`log
      ensures At(Entered(s, alarm, clock))
    {
      log := log + [(alarm, clock)];
    }

    /** An expired alarm runs: callback, then off the list or armed again. */
    method RunDue(alarm: Alarm, reaction: Reaction, ghost s: Stage, ghost all: set<Alarm>)
      requires At(Looked(s, alarm, nticks)) && tickRate > 0 && Known(s, alarm) && alarm in s.timers && alarm != head
      requires ActsFit(Entered(s, alarm, clock), reaction.acts, nticks)
      requires Avoids(reaction.acts, head) && Within(s, reaction.acts, all)
      modifies this`entries, this`off, this`log, head`next, head`previous, all
      ensures At(Ran(s, alarm, reaction, clock)) && Within(Ran(s, alarm, reaction, clock), [], all)
    {
      ghost var entered := Entered(s, alarm, clock);
      ghost var acted := ActedAll(entered, reaction.acts, nticks);
      KnownAfterActs(entered, reaction.acts, nticks, alarm);
      Log(alarm, s);
      var answer := Callback(reaction, entered, all);
      if answer == 0 {
        StoppedWithin(acted, alarm, all);
      }
      Heed(alarm, answer, acted);
    }

    lemma ActsWithin(alarm: Alarm, react: map<Alarm, Reaction>, s: Stage, all: set<Alarm>)
      requires alarm in react && StartedBy(react) <= all && Within(s, [], all)
      ensures Within(s, react[alarm].acts, all)
    {
      var acts := react[alarm].acts;
      forall i | 0 <= i < |acts| && acts[i].StartIt?
        ensures acts[i].alarm in all
      {
        assert acts[i].alarm in StartedBy(react);
      }
    }

    /** The body of `alt_tick`'s loop, for an alarm on the list or off it. */
    method VisitOne(alarm: Alarm, react: map<Alarm, Reaction>, ghost s: Stage, ghost all: set<Alarm>)
      requires At(s) && Allows(s, react, all) && tickRate > 0 && clock > 0
      requires Known(s, alarm) && alarm in s.timers && alarm != head && VisitFits(s, alarm, react, clock)
      modifies this`entries, this`off, this`log, head`next, head`previous, all
      ensures At(Visited(s, alarm, react, clock)) && Allows(Visited(s, alarm, react, clock), react, all)
    {
      var expired := Look(alarm, s);
      if expired {
        ActsWithin(alarm, react, s, all);
        RunDue(alarm, react[alarm], s, all);
      }
    }

    /** Where the loop is, by its pointer and on the list. */
    ghost predicate OnLoop(at: Alarm, l: Loop, react: map<Alarm, Reaction>, all: set<Alarm>)
      reads this, head, entries, off, l.s.timers.Keys
    {
      && At(l.s) && l.s.here == [] && Allows(l.s, react, all) && clock > 0
      && (AtHead(l) || tickRate > 0) && (at == head <==> AtHead(l)) && (at == head || at == Node(l))
      && (l.Lost? ==> l.alarm in l.s.off && l.alarm !in Listed(l.s) && l.alarm in l.s.timers)
    }

    /** The node behind the one the loop is at. */
    lemma NextNode(at: Alarm, l: Loop, react: map<Alarm, Reaction>, all: set<Alarm>)
      requires OnLoop(at, l, react, all) && at != head
      ensures at.next == if Saved(l) == [] then head else Saved(l)[0]
      ensures at in l.s.timers && Known(Around(l), at) && Listed(Around(l)) == Listed(l.s)
      ensures forall a :: a in Saved(l) ==> a in l.s.timers
    {
      if l.Lost? {
        assert [at][0].next == at;
      } else {
        var s, ring, p := l.s, [head] + entries, 1 + |l.s.front|;
        OpenedListed(s);
        assert Listed(s) == s.front + s.rest;
        assert ring[p] == s.rest[0] && ring[p].next == ring[After(p, |ring|)];
        assert |s.rest| > 1 ==> ring[p + 1] == s.rest[1];
      }
    }

    /** At the alarm's place on the list the same holds. */
    lemma Opening(at: Alarm, l: Loop, react: map<Alarm, Reaction>, all: set<Alarm>)
      requires OnLoop(at, l, react, all) && at != head
      ensures At(Around(l)) && Allows(Around(l), react, all)
    {
      NextNode(at, l, react, all);
    }

    /** And where a visit leads. */
    lemma Resuming(next: Alarm, l: Loop, t: Stage, react: map<Alarm, Reaction>, all: set<Alarm>)
      requires !AtHead(l) && tickRate > 0 && clock > 0 && t == Visited(Around(l), Node(l), react, clock)
      requires At(t) && Allows(t, react, all)
      requires next == if Saved(l) == [] then head else Saved(l)[0]
      requires forall a :: a in Saved(l) ==> a in t.timers
      requires var m := Turn(l, react, clock);
        m.s.here == [] && (m.Lost? ==> m.alarm in m.s.off && m.alarm !in Listed(m.s))
      ensures OnLoop(next, Turn(l, react, clock), react, all)
    {
      ClosedListed(t);
      assert Saved(l) == [] ==> t.rest == [];
      ResumedListed(Closed(t), Saved(l));
    }

    /** One turn of the loop: visit the alarm, and go on to the node that was next before. */
    method OneTurn(at: Alarm, react: map<Alarm, Reaction>, ghost l: Loop, ghost all: set<Alarm>, ghost tick: nat)
      returns (next: Alarm)
      requires OnLoop(at, l, react, all) && at != head && clock == tick && VisitFits(Around(l), at, react, tick)
      modifies this`entries, this`off, this`log, head`next, head`previous, all
      ensures OnLoop(next, Turn(l, react, tick), react, all)
    {
      NextNode(at, l, react, all);
      Opening(at, l, react, all);
      DistinctTail(head, entries);
      LostIsOff(l, react, clock);
      next := at.next;
      VisitOne(at, react, Around(l), all);
      Resuming(next, l, Visited(Around(l), at, react, clock), react, all);
    }

    /** One turn of those that lead to e. */
    method TurnTowards(at: Alarm, react: map<Alarm, Reaction>, ghost l: Loop, ghost all: set<Alarm>,
                       ghost tick: nat, ghost n: nat, ghost e: Loop)
      returns (next: Alarm, ghost m: Loop)
      requires OnLoop(at, l, react, all) && at != head && clock == tick
      requires Leads(l, react, tick, n, e) && (n > 0 || AtHead(e))
      modifies this`entries, this`off, this`log, head`next, head`previous, all
      ensures OnLoop(next, m, react, all) && n > 0 && Leads(m, react, tick, n - 1, e)
    {
      OneLess(l, react, tick, n, e);
      next := OneTurn(at, react, l, all, tick);
      m := Turn(l, react, tick);
    }

    /** `alt_tick`'s loop, which ends after at most n turns. */
    method WalkAll(first: Alarm, react: map<Alarm, Reaction>, ghost l: Loop, ghost all: set<Alarm>,
                   ghost tick: nat, ghost n: nat, ghost e: Loop)
      requires OnLoop(first, l, react, all) && clock == tick && Leads(l, react, tick, n, e) && AtHead(e)
      modifies this`entries, this`off, this`log, head`next, head`previous, all
      ensures OnLoop(head, e, react, all)
    {
      ghost var k, m := n, l;
      var at := first;
      while at != head
        invariant OnLoop(at, m, react, all) && Leads(m, react, tick, k, e) && clock == tick
        decreases k
      {
        at, m := TurnTowards(at, react, m, all, tick, k, e);
        k := k - 1;
      }
      NoneLeft(m, react, tick, k, e);
    }

    /** The same loop watched for so many turns, whether it ends or not. */
    method WalkFor(first: Alarm, react: map<Alarm, Reaction>, turns: nat, ghost l: Loop, ghost all: set<Alarm>,
                   ghost tick: nat, ghost e: Loop)
      returns (at: Alarm)
      requires OnLoop(first, l, react, all) && clock == tick && Leads(l, react, tick, turns, e)
      modifies this`entries, this`off, this`log, head`next, head`previous, all
      ensures OnLoop(at, e, react, all)
    {
      at := first;
      var left := turns;
      ghost var m := l;
      while at != head && left > 0
        invariant OnLoop(at, m, react, all) && Leads(m, react, tick, left, e) && clock == tick
      {
        at, m := TurnTowards(at, react, m, all, tick, left, e);
        left := left - 1;
      }
      NoneLeft(m, react, tick, left, e);
    }

    // ---- the tick -----------------------------------------------------------------------

    /** `_alt_nticks++`. */
    method Count()
      requires nticks == Wrapped(clock)
      modifies this`nticks, this`clock
      ensures clock == old(clock) + 1 && nticks == Wrapped(clock)
    {
      Advance(clock, 1);
      nticks := if nticks == WRAP - 1 then 0 else nticks + 1;
      clock := clock + 1;
    }

    /** The alarms a tick may write to. */
    ghost function Reach(react: map<Alarm, Reaction>): (all: set<Alarm>)
      reads this`entries, this`off
    {
      (set a | a in entries) + off + StartedBy(react)
    }

    lemma WalkStarts(s: Stage, react: map<Alarm, Reaction>)
      requires Shape() && clock > 0 && s.front == s.here == [] && s.rest == entries && s.off == off && s.log == log
      requires s.timers == Timers(entries) && forall a :: a in react ==> Avoids(react[a].acts, head)
      ensures OnLoop(head.next, Walking(s), react, Reach(react))
    {
      StartsTimed(s);
      FirstNode();
      DistinctTail(head, entries);
    }

    lemma StartsTimed(s: Stage)
      requires s.front == s.here == [] && s.rest == entries && s.timers == Timers(entries)
      ensures Timed(s) && Listed(s) == entries
    {
    }

    lemma FirstNode()
      requires Linked([head] + entries)
      ensures head.next == if entries == [] then head else entries[0]
    {
      var ring := [head] + entries;
      assert ring[0].next == ring[After(0, |ring|)];
    }

    lemma WalkDone(l: Loop, react: map<Alarm, Reaction>, all: set<Alarm>)
      requires OnLoop(head, l, react, all)
      ensures Now() == ViewOf(l.s, clock)
    {
      assert l.s.front + [] + [] == l.s.front;
      assert Timers(entries) == Narrowed(l.s.timers, l.s.front);
    }

    /** `alt_tick`, for every alarm population and all callbacks that fit, if the loop ends: what it
        leaves is the function `AfterTick`. */
    method Tick(react: map<Alarm, Reaction>, ghost turns: nat)
      requires Valid() && Ends(Now(), react, turns)
      requires forall a :: a in react ==> Avoids(react[a].acts, head)
      modifies this, head`next, head`previous, Reach(react)
      ensures Valid() && tickRate == old(tickRate) && Now() == AfterTick(old(Now()), react, turns)
      ensures Stepped(old(Now()), Ticking(react, turns), Now())
    {
      NowIsSound();
      ghost var l, all := LoopOf(Now()), Reach(react);
      Finish(react, turns, l, clock + 1, all);
      WalkDone(Turns(l, react, clock, turns), react, all);
      NowIsSound();
    }

    method Finish(react: map<Alarm, Reaction>, ghost turns: nat, ghost l: Loop, ghost tick: nat, ghost all: set<Alarm>)
      requires Valid() && l == LoopOf(Now()) && tick == clock + 1 && all == Reach(react)
      requires FitsFor(l, react, tick, turns) && AtHead(Turns(l, react, tick, turns))
      requires forall a :: a in react ==> Avoids(react[a].acts, head)
      modifies this, head`next, head`previous, all
      ensures clock == tick && tickRate == old(tickRate) && OnLoop(head, Turns(l, react, tick, turns), react, all)
    {
      var first := Begin(react);
      WalkAll(first, react, l, all, tick, turns, Turns(l, react, tick, turns));
    }

    /** The tick whether its loop ends or not: after so many turns the loop is at the head, or it is at
        an alarm still.  If no callback starts the alarm saved as the next one, and there was a turn
        for each alarm registered, it is at the head exactly if every callback that ran spared that
        alarm, and otherwise at a node that points at itself. */
    method TickFor(react: map<Alarm, Reaction>, turns: nat) returns (at: Alarm)
      requires Valid() && FitsFor(LoopOf(Now()), react, clock + 1, turns)
      requires forall a :: a in react ==> Avoids(react[a].acts, head)
      modifies this, head`next, head`previous, Reach(react)
      ensures Shape() && clock == old(clock) + 1
      ensures at == head <==> AtHead(Turns(old(LoopOf(Now())), react, clock, turns))
      ensures turns >= |old(entries)| && AlarmRuns.NeverRestarts(old(LoopOf(Now())), react, clock, turns) ==>
        && (at == head <==> AlarmRuns.AllSpare(old(LoopOf(Now())).s, react, clock))
        && (at != head ==> at.next == at && at !in entries)
    {
      ghost var l, all := LoopOf(Now()), Reach(react);
      DistinctTail(head, entries);
      at := Watch(react, turns, l, clock + 1, all);
      WhereItStands(at, l, react, clock, turns, all);
    }

    method Watch(react: map<Alarm, Reaction>, turns: nat, ghost l: Loop, ghost tick: nat, ghost all: set<Alarm>)
      returns (at: Alarm)
      requires Valid() && l == LoopOf(Now()) && tick == clock + 1 && all == Reach(react)
      requires FitsFor(l, react, tick, turns) && forall a :: a in react ==> Avoids(react[a].acts, head)
      modifies this, head`next, head`previous, all
      ensures clock == tick && OnLoop(at, Turns(l, react, tick, turns), react, all)
    {
      var first := Begin(react);
      at := WalkFor(first, react, turns, l, all, tick, Turns(l, react, tick, turns));
    }

    lemma WhereItStands(at: Alarm, l: Loop, react: map<Alarm, Reaction>, tick: nat, turns: nat, all: set<Alarm>)
      requires l.Walking? && l.s.here == [] && Distinct(Listed(l.s))
      requires FitsFor(l, react, tick, turns) && OnLoop(at, Turns(l, react, tick, turns), react, all)
      ensures at == head <==> AtHead(Turns(l, react, tick, turns))
      ensures turns >= |l.s.rest| && AlarmRuns.NeverRestarts(l, react, tick, turns) ==>
        && (at == head <==> AlarmRuns.AllSpare(l.s, react, tick))
        && (at != head ==> at.next == at && at !in entries)
    {
      if turns >= |l.s.rest| && AlarmRuns.NeverRestarts(l, react, tick, turns) {
        AlarmRuns.EndsExactlyWhen(l.s, react, tick, turns);
        if at != head {
          assert [at][0].next == at;
        }
      }
    }

    /** The counter moves on; no alarm has been visited yet. */
    method Begin(ghost react: map<Alarm, Reaction>) returns (first: Alarm)
      requires Valid() && forall a :: a in react ==> Avoids(react[a].acts, head)
      modifies this`nticks, this`clock
      ensures clock == old(clock) + 1 && Reach(react) == old(Reach(react))
      ensures OnLoop(first, old(LoopOf(Now())), react, Reach(react))
    {
      ghost var s := LoopOf(Now()).s;
      first := head.next;
      Count();
      WalkStarts(s, react);
    }
  }
}
