/** The arithmetic of one alarm: a 32-bit due time compared against a 32-bit tick counter
    that wraps, with a one-bit flag to tell this turn of the counter from the next.
    It is measured against a clock that never wraps. */
module AlarmTiming {

  const WRAP: nat := 0x1_0000_0000

  type u32 = n: nat | n < 0x1_0000_0000

  /** The counter's reading after n ticks, and how often it has wrapped by then. */
  function Wrapped(n: nat): (w: u32) {
    if n < WRAP then n else Wrapped(n - WRAP)
  }

  ghost function Epoch(n: nat): (e: nat) {
    if n < WRAP then 0 else 1 + Epoch(n - WRAP)
  }

  lemma {:induction false} WrappedIsRemainder(n: nat)
    ensures Wrapped(n) == n % 0x1_0000_0000 && Epoch(n) == n / 0x1_0000_0000
    decreases n
  {
    if n >= WRAP {
      WrappedIsRemainder(n - WRAP);
    }
  }

  /** d ticks later, less than a turn, the counter has either not wrapped or wrapped once. */
  lemma {:induction false} Advance(n: nat, d: nat)
    requires d < WRAP
    ensures if Wrapped(n) + d < WRAP
            then Wrapped(n + d) == Wrapped(n) + d && Epoch(n + d) == Epoch(n)
            else Wrapped(n + d) == Wrapped(n) + d - WRAP && Epoch(n + d) == Epoch(n) + 1
    decreases n
  {
    if n >= WRAP {
      Advance(n - WRAP, d);
    }
  }

  datatype Timer = Timer(time: u32, rollover: bool)

  /** What `alt_alarm_start` stores when the counter reads `now`. */
  function StartTimer(nticks: u32, now: u32): (t: Timer) {
    var time := Wrapped(nticks + now + 1);
    Timer(time, time < now)
  }

  /** What `alt_tick` does first to an alarm it visits: forget the flag when the counter has
      just wrapped. */
  function Visit(t: Timer, now: u32): (t': Timer) {
    if t.rollover && now == 0 then t.(rollover := false) else t
  }

  predicate Expired(t: Timer, now: u32) {
    t.time <= now && !t.rollover
  }

  /** What `alt_tick` stores after a callback returned `r`, not zero. */
  function Reload(t: Timer, r: u32, now: u32): (t': Timer) {
    var time := Wrapped(t.time + r);
    Timer(time, if time < now then true else t.rollover)
  }

  /** The invariant: the due time lies ahead, within one turn, and the flag is set exactly when
      it lies in the counter's next turn. */
  ghost predicate Armed(t: Timer, clock: nat, due: nat) {
    && clock < due < clock + WRAP
    && t.time == Wrapped(due)
    && (t.rollover <==> Epoch(clock) < Epoch(due))
  }

  lemma WrappedOnce(n: nat)
    requires n < 2 * WRAP
    ensures Wrapped(n) == if n < WRAP then n else n - WRAP
  {
  }

  /** d ticks from `clock` the counter shows its reading plus d, wrapped at most once. */
  lemma Ahead(clock: nat, d: nat)
    requires d < WRAP
    ensures Wrapped(d + Wrapped(clock)) == Wrapped(clock + d)
    ensures d > 0 ==> (Wrapped(clock + d) < Wrapped(clock) <==> Epoch(clock) < Epoch(clock + d))
    ensures Epoch(clock) <= Epoch(clock + d)
  {
    WrappedOnce(d + Wrapped(clock));
    Advance(clock, d);
  }

  lemma StartArms(nticks: u32, clock: nat)
    requires nticks < WRAP - 1
    ensures Armed(StartTimer(nticks, Wrapped(clock)), clock, clock + nticks + 1)
  {
    var d := nticks + 1;
    Ahead(clock, d);
    assert nticks + Wrapped(clock) + 1 == d + Wrapped(clock);
  }

  /** At each tick an armed alarm expires if this is its due time, and otherwise stays armed. */
  lemma TickExpiresOrKeeps(t: Timer, clock: nat, due: nat)
    requires Armed(t, clock, due)
    ensures var now := Wrapped(clock + 1);
            var t' := Visit(t, now);
            && (Expired(t', now) <==> due == clock + 1)
            && (due != clock + 1 ==> Armed(t', clock + 1, due))
            && (due == clock + 1 ==> !t'.rollover && t'.time == now)
  {
    Advance(clock, 1);
    Advance(clock, due - clock);
    Advance(clock + 1, due - clock - 1);
  }

  lemma ReloadArms(t: Timer, r: u32, clock: nat)
    requires 0 < r && !t.rollover && t.time == Wrapped(clock)
    ensures Armed(Reload(t, r, Wrapped(clock)), clock, clock + r)
  {
    Advance(clock, r);
  }

  // ---- the longest period --------------------------------------------------------------
  // A distance of a whole turn, 2^32 ticks, is what the flag cannot express: the alarm then runs
  // at the very next tick, with its time one behind the counter.

  /** When an alarm runs, and whether it will then be one behind the counter. */
  datatype Due = Due(tick: nat, early: bool)

  ghost function StartDue(clock: nat, nticks: u32): (due: Due) {
    if nticks < WRAP - 1 then Due(clock + nticks + 1, false) else TurnAhead(clock)
  }

  /** What becomes of a distance of a whole turn: only from the counter's last value is it kept. */
  ghost function TurnAhead(clock: nat): (due: Due) {
    if Wrapped(clock) == WRAP - 1 then Due(clock + WRAP, false) else Due(clock + 1, true)
  }

  /** After a callback answered r, not zero. */
  ghost function NextDue(due: Due, r: u32): (next: Due)
    requires r > 0
  {
    if !due.early then Due(due.tick + r, false)
    else if r > 1 then Due(due.tick + r - 1, false)
    else TurnAhead(due.tick)
  }

  /** The invariant for every alarm: armed, or a whole turn ahead and so just stored. */
  ghost predicate ArmedFor(t: Timer, clock: nat, due: Due) {
    || (!due.early && Armed(t, clock, due.tick))
    || (due == TurnAhead(clock) && t == Timer(Wrapped(clock), false))
  }

  /** How `alt_tick` finds an alarm it runs. */
  ghost predicate Running(t: Timer, due: Due) {
    !t.rollover && due.tick > 0 && t.time == Wrapped(if due.early then due.tick - 1 else due.tick)
  }

  lemma StartArmsFor(nticks: u32, clock: nat)
    ensures ArmedFor(StartTimer(nticks, Wrapped(clock)), clock, StartDue(clock, nticks))
  {
    if nticks < WRAP - 1 {
      ShortArms(nticks, clock);
    } else {
      LongestArms(nticks, clock);
    }
  }

  lemma ShortArms(nticks: u32, clock: nat)
    requires nticks < WRAP - 1
    ensures ArmedFor(StartTimer(nticks, Wrapped(clock)), clock, StartDue(clock, nticks))
  {
    StartArms(nticks, clock);
  }

  lemma LongestArms(nticks: u32, clock: nat)
    requires nticks == WRAP - 1
    ensures ArmedFor(StartTimer(nticks, Wrapped(clock)), clock, StartDue(clock, nticks))
  {
    WrappedOnce(nticks + Wrapped(clock) + 1);
  }

  /** At each tick every alarm expires if this is its due time, and otherwise stays armed. */
  lemma TickRunsOrKeeps(t: Timer, clock: nat, due: Due)
    requires ArmedFor(t, clock, due)
    ensures clock < due.tick
    ensures var now := Wrapped(clock + 1);
            var t' := Visit(t, now);
            && (Expired(t', now) <==> due.tick == clock + 1)
            && (due.tick != clock + 1 ==> ArmedFor(t', clock + 1, due))
            && (due.tick == clock + 1 ==> Running(t', due))
  {
    if !due.early && Armed(t, clock, due.tick) {
      TickExpiresOrKeeps(t, clock, due.tick);
    } else {
      Advance(clock, 1);
      if Wrapped(clock) == WRAP - 1 {
        Advance(clock + 1, WRAP - 1);
      }
    }
  }

  lemma ReloadArmsFor(t: Timer, r: u32, due: Due)
    requires r > 0 && Running(t, due)
    ensures ArmedFor(Reload(t, r, Wrapped(due.tick)), due.tick, NextDue(due, r))
  {
    if !due.early {
      ReloadArms(t, r, due.tick);
    } else {
      ReloadBehind(t, r, due.tick);
    }
  }

  /** One behind the counter, the answer counts from one tick ago. */
  lemma ReloadBehind(t: Timer, r: u32, clock: nat)
    requires r > 0 && clock > 0 && !t.rollover && t.time == Wrapped(clock - 1)
    ensures ArmedFor(Reload(t, r, Wrapped(clock)), clock, NextDue(Due(clock, true), r))
  {
    WrappedOnce(t.time + r);
    Advance(clock - 1, r);
    Advance(clock, r - 1);
  }

  // ---- any timer whatever --------------------------------------------------------------

  /** The ticks until a timer expires, whatever it holds. */
  function Distance(t: Timer, now: u32): (d: nat)
    ensures d > 0
  {
    if t.rollover then WRAP - now + t.time
    else if t.time > now then t.time - now
    else if now < WRAP - 1 then 1
    else t.time + 1
  }

  ghost function NextRun(t: Timer, clock: nat): (tick: nat) { clock + Distance(t, Wrapped(clock)) }

  /** Every timer expires at that tick and not before. */
  lemma AnyTimerRunsThen(t: Timer, clock: nat)
    ensures var now := Wrapped(clock + 1);
            var t' := Visit(t, now);
            && (Expired(t', now) <==> NextRun(t, clock) == clock + 1)
            && (!Expired(t', now) ==> NextRun(t', clock + 1) == NextRun(t, clock))
  {
    Advance(clock, 1);
  }

  /** For an armed alarm, it is the due time. */
  lemma ArmedRunsThen(t: Timer, clock: nat, due: Due)
    requires ArmedFor(t, clock, due)
    ensures NextRun(t, clock) == due.tick
  {
    if !due.early && Armed(t, clock, due.tick) {
      Advance(clock, due.tick - clock);
    }
  }

  /** The clock readings at which the callback runs during the n ticks after `clock`, when its
      successive return values are `answers` (none left counts as zero). */
  ghost function Firings(t: Timer, clock: nat, n: nat, answers: seq<u32>): (times: seq<nat>)
    decreases n
  {
    if n == 0 then []
    else
      var now := Wrapped(clock + 1);
      var t' := Visit(t, now);
      if !Expired(t', now) then Firings(t', clock + 1, n - 1, answers)
      else if answers == [] || answers[0] == 0 then [clock + 1]
      else [clock + 1] + Firings(Reload(t', answers[0], now), clock + 1, n - 1, answers[1..])
  }

  /** The promise: first at `due`, then each time as many ticks later as the callback asked. */
  ghost function Schedule(due: nat, last: nat, answers: seq<u32>): (times: seq<nat>)
    decreases |answers|
  {
    if due > last then []
    else if answers == [] || answers[0] == 0 then [due]
    else [due] + Schedule(due + answers[0], last, answers[1..])
  }

  /** The same with the longest period as the code has it. */
  ghost function TrueSchedule(due: Due, last: nat, answers: seq<u32>): (times: seq<nat>)
    decreases |answers|
  {
    if due.tick > last then []
    else if answers == [] || answers[0] == 0 then [due.tick]
    else [due.tick] + TrueSchedule(NextDue(due, answers[0]), last, answers[1..])
  }

  /** They differ only for an alarm that runs early. */
  lemma {:induction false} SchedulesAgree(due: nat, last: nat, answers: seq<u32>)
    ensures TrueSchedule(Due(due, false), last, answers) == Schedule(due, last, answers)
    decreases |answers|
  {
    if due <= last && answers != [] && answers[0] != 0 {
      SchedulesAgree(due + answers[0], last, answers[1..]);
    }
  }

  lemma {:induction false} ArmedFollowsSchedule(t: Timer, clock: nat, due: Due, n: nat, answers: seq<u32>)
    requires ArmedFor(t, clock, due)
    ensures Firings(t, clock, n, answers) == TrueSchedule(due, clock + n, answers)
    decreases n
  {
    TickRunsOrKeeps(t, clock, due);
    if n > 0 {
      var now := Wrapped(clock + 1);
      var t' := Visit(t, now);
      if due.tick != clock + 1 {
        ArmedFollowsSchedule(t', clock + 1, due, n - 1, answers);
      } else if answers != [] && answers[0] != 0 {
        ReloadArmsFor(t', answers[0], due);
        ArmedFollowsSchedule(Reload(t', answers[0], now), clock + 1, NextDue(due, answers[0]), n - 1, answers[1..]);
      }
    }
  }

  /** The firings of every alarm, whatever its period: started at `clock` and watched for n ticks,
      over any number of wraps of the counter. */
  lemma FiringsOfAnyPeriod(nticks: u32, clock: nat, n: nat, answers: seq<u32>)
    ensures Firings(StartTimer(nticks, Wrapped(clock)), clock, n, answers)
         == TrueSchedule(StartDue(clock, nticks), clock + n, answers)
  {
    StartArmsFor(nticks, clock);
    ArmedFollowsSchedule(StartTimer(nticks, Wrapped(clock)), clock, StartDue(clock, nticks), n, answers);
  }

  ghost predicate OnSchedule(nticks: u32, clock: nat, n: nat, answers: seq<u32>) {
    Firings(StartTimer(nticks, Wrapped(clock)), clock, n, answers)
      == Schedule(clock + nticks + 1, clock + n, answers)
  }

  /** An alarm started at `clock` keeps its schedule over any number of ticks, and so over any
      number of wraps of the counter. */
  lemma AlarmKeepsSchedule(nticks: u32, clock: nat, n: nat, answers: seq<u32>)
    requires nticks < WRAP - 1
    ensures OnSchedule(nticks, clock, n, answers)
  {
    FiringsOfAnyPeriod(nticks, clock, n, answers);
    SchedulesAgree(clock + nticks + 1, clock + n, answers);
  }

  /** The longest period, 2^32 - 1 ticks, is due exactly one turn later, which the flag cannot
      express: the alarm runs at the very next tick, unless that tick wraps the counter. */
  lemma LongestPeriodRunsEarly(clock: nat)
    requires Wrapped(clock) != WRAP - 1
    ensures Firings(StartTimer(WRAP - 1, Wrapped(clock)), clock, 1, []) == [clock + 1]
  {
    FiringsOfAnyPeriod(WRAP - 1, clock, 1, []);
  }

  /** Started on the counter's last value, the longest period is one tick away from being
      armed as usual. */
  lemma LongestPeriodFromLastValue(clock: nat, n: nat, answers: seq<u32>)
    requires Wrapped(clock) == WRAP - 1
    ensures OnSchedule(WRAP - 1, clock, n, answers)
  {
    FiringsOfAnyPeriod(WRAP - 1, clock, n, answers);
    SchedulesAgree(clock + WRAP, clock + n, answers);
  }

  /** An alarm keeps its schedule, whatever its callback answers and however long one watches,
      if and only if its period is not the longest or it is started on the counter's last value. */
  lemma KeepsScheduleExactlyWhen(nticks: u32, clock: nat)
    ensures (forall n: nat, answers :: OnSchedule(nticks, clock, n, answers))
       <==> nticks < WRAP - 1 || Wrapped(clock) == WRAP - 1
  {
    forall n: nat, answers | nticks < WRAP - 1 || Wrapped(clock) == WRAP - 1
      ensures OnSchedule(nticks, clock, n, answers)
    {
      if nticks < WRAP - 1 {
        AlarmKeepsSchedule(nticks, clock, n, answers);
      } else {
        LongestPeriodFromLastValue(clock, n, answers);
      }
    }
    if nticks == WRAP - 1 && Wrapped(clock) != WRAP - 1 {
      LongestPeriodRunsEarly(clock);
      assert Schedule(clock + WRAP, clock + 1, []) == [];
      assert !OnSchedule(nticks, clock, 1, []);
    }
  }
}
