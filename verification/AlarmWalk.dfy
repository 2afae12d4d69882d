/** What a tick does to the alarm list, on values: the loop over the list while the callbacks it runs
    start and stop alarms, turn by turn, and the steps a run of the clock is made of. */
module AlarmWalk {
  import opened AlarmTiming
  import opened AlarmList

  /** What a callback may do to the list, in any order and number, and how many ticks it then asks
      to wait, zero for no more. */
  datatype Act = StartIt(alarm: Alarm, period: u32) | StopIt(alarm: Alarm)

  datatype Reaction = Reaction(acts: seq<Act>, answer: u32)

  /** The list during a walk: what the walk is past, with what was started meanwhile in front; the
      alarm being visited, if it is on the list; and what is still to be visited.  `off` are the
      alarms taken off the list, `timers` what each alarm's due time and flag are, and `log` which
      callbacks have run. */
  datatype Stage = Stage(front: seq<Alarm>, here: seq<Alarm>, rest: seq<Alarm>, off: set<Alarm>,
                         timers: map<Alarm, Timer>, log: seq<(Alarm, nat)>)

  ghost function Listed(s: Stage): (alarms: seq<Alarm>) { s.front + s.here + s.rest }

  ghost function TimerOf(s: Stage, alarm: Alarm): (t: Timer) {
    if alarm in s.timers then s.timers[alarm] else Timer(0, false)
  }

  ghost function Retimed(s: Stage, alarm: Alarm, t: Timer): (u: Stage) {
    s.(timers := s.timers[alarm := t])
  }

  // ---- one callback --------------------------------------------------------------------

  ghost function Stopped(s: Stage, alarm: Alarm): (t: Stage)
    ensures |t.rest| <= |s.rest| && t.timers == s.timers && t.log == s.log
  {
    s.(front := Without(s.front, alarm), here := Without(s.here, alarm), rest := Without(s.rest, alarm),
       off := s.off + {alarm})
  }

  /** A start puts the alarm in front of the list, wherever the walk is. */
  ghost function Acted(s: Stage, act: Act, now: u32): (t: Stage)
    ensures |t.rest| <= |s.rest| && t.log == s.log && s.timers.Keys <= t.timers.Keys
  {
    match act
    case StartIt(alarm, period) =>
      Retimed(s, alarm, StartTimer(period, now)).(front := [alarm] + s.front, off := s.off - {alarm})
    case StopIt(alarm) => Stopped(s, alarm)
  }

  ghost function ActedAll(s: Stage, acts: seq<Act>, now: u32): (t: Stage)
    ensures |t.rest| <= |s.rest| && t.log == s.log && s.timers.Keys <= t.timers.Keys
    decreases |acts|
  {
    if acts == [] then s else ActedAll(Acted(s, acts[0], now), acts[1..], now)
  }

  ghost function Answered(s: Stage, alarm: Alarm, answer: u32, now: u32): (t: Stage)
    ensures |t.rest| <= |s.rest| && t.log == s.log
  {
    if answer == 0 then Stopped(s, alarm) else Retimed(s, alarm, Reload(TimerOf(s, alarm), answer, now))
  }

  // ---- one visit -----------------------------------------------------------------------

  /** The flag is cleared when the counter has just wrapped. */
  ghost function Looked(s: Stage, alarm: Alarm, now: u32): (t: Stage) {
    Retimed(s, alarm, Visit(TimerOf(s, alarm), now))
  }

  ghost predicate Fires(s: Stage, alarm: Alarm, now: u32) { Expired(Visit(TimerOf(s, alarm), now), now) }

  /** The alarm's callback is about to run. */
  ghost function Entered(s: Stage, alarm: Alarm, tick: nat): (t: Stage) {
    Looked(s, alarm, Wrapped(tick)).(log := s.log + [(alarm, tick)])
  }

  ghost function Ran(s: Stage, alarm: Alarm, reaction: Reaction, tick: nat): (t: Stage)
    ensures |t.rest| <= |s.rest| && s.timers.Keys <= t.timers.Keys
  {
    var now := Wrapped(tick);
    Answered(ActedAll(Entered(s, alarm, tick), reaction.acts, now), alarm, reaction.answer, now)
  }

  /** The loop body, for an alarm on the list or off it. */
  ghost function Visited(s: Stage, alarm: Alarm, react: map<Alarm, Reaction>, tick: nat): (t: Stage)
    ensures |t.rest| <= |s.rest| && s.timers.Keys <= t.timers.Keys
  {
    if Fires(s, alarm, Wrapped(tick)) && alarm in react then Ran(s, alarm, react[alarm], tick)
    else Looked(s, alarm, Wrapped(tick))
  }

  // ---- the loop ------------------------------------------------------------------------

  /** Where the loop is: at the first alarm of the rest, or at the list head when there is none; or
      at an alarm that is off the list and points at itself. */
  datatype Loop = Walking(s: Stage) | Lost(s: Stage, alarm: Alarm)

  ghost predicate AtHead(l: Loop) { l.Walking? && l.s.rest == [] }

  /** The walk comes to the next alarm, */
  ghost function Opened(s: Stage): (t: Stage)
    requires s.rest != []
  {
    s.(here := [s.rest[0]], rest := s.rest[1..])
  }

  /** and leaves it behind. */
  ghost function Closed(s: Stage): (t: Stage) {
    s.(front := s.front + s.here, here := [])
  }

  ghost function Until(alarms: seq<Alarm>, alarm: Alarm): (before: seq<Alarm>) {
    if alarms == [] || alarms[0] == alarm then [] else [alarms[0]] + Until(alarms[1..], alarm)
  }

  ghost function From(alarms: seq<Alarm>, alarm: Alarm): (after: seq<Alarm>) {
    if alarms == [] || alarms[0] == alarm then alarms else From(alarms[1..], alarm)
  }

  /** The loop goes on to the node it saved before the visit, wherever that is by now. */
  ghost function Resumed(s: Stage, saved: seq<Alarm>): (l: Loop) {
    if saved == [] || (s.rest != [] && s.rest[0] == saved[0]) then Walking(s)
    else if saved[0] in s.front then
      Walking(s.(front := Until(s.front, saved[0]), rest := From(s.front, saved[0]) + s.rest))
    else Lost(s, saved[0])
  }

  /** The alarm the loop is at, the list around it, and the alarm behind it, if any. */
  ghost function Node(l: Loop): (alarm: Alarm)
    requires !AtHead(l)
  {
    match l case Walking(s) => s.rest[0] case Lost(_, alarm) => alarm
  }

  ghost function Around(l: Loop): (s: Stage)
    requires !AtHead(l)
  {
    match l case Walking(s) => Opened(s) case Lost(s, _) => s
  }

  ghost function Saved(l: Loop): (saved: seq<Alarm>)
    requires !AtHead(l)
  {
    match l case Walking(s) => if |s.rest| > 1 then [s.rest[1]] else [] case Lost(_, alarm) => [alarm]
  }

  ghost function Turn(l: Loop, react: map<Alarm, Reaction>, tick: nat): (m: Loop)
    requires !AtHead(l)
  {
    Resumed(Closed(Visited(Around(l), Node(l), react, tick)), Saved(l))
  }

  /** The loop after so many turns, or at the head if it gets there before. */
  ghost function Turns(l: Loop, react: map<Alarm, Reaction>, tick: nat, n: nat): (m: Loop)
    decreases n
  {
    if n == 0 || AtHead(l) then l else Turns(Turn(l, react, tick), react, tick, n - 1)
  }

  // ---- what callbacks may do -----------------------------------------------------------

  /** Only an alarm that is off the list is started; only one that is on it, or was before, is
      stopped. */
  ghost predicate ActFits(s: Stage, act: Act) {
    match act
    case StartIt(alarm, _) => alarm !in Listed(s)
    case StopIt(alarm) => alarm in Listed(s) || alarm in s.off
  }

  ghost predicate ActsFit(s: Stage, acts: seq<Act>, now: u32)
    decreases |acts|
  {
    acts == [] || (ActFits(s, acts[0]) && ActsFit(Acted(s, acts[0], now), acts[1..], now))
  }

  ghost predicate VisitFits(s: Stage, alarm: Alarm, react: map<Alarm, Reaction>, tick: nat) {
    Fires(s, alarm, Wrapped(tick)) ==>
      alarm in react && ActsFit(Entered(s, alarm, tick), react[alarm].acts, Wrapped(tick))
  }

  /** Every callback that runs in the first n turns fits. */
  ghost predicate FitsFor(l: Loop, react: map<Alarm, Reaction>, tick: nat, n: nat)
    decreases n
  {
    n == 0 || AtHead(l)
    || (VisitFits(Around(l), Node(l), react, tick) && FitsFor(Turn(l, react, tick), react, tick, n - 1))
  }

  /** In at most n turns, all of which fit, the loop gets to e, or stops there for want of turns. */
  ghost predicate Leads(l: Loop, react: map<Alarm, Reaction>, tick: nat, n: nat, e: Loop) {
    FitsFor(l, react, tick, n) && Turns(l, react, tick, n) == e
  }

  lemma OneLess(l: Loop, react: map<Alarm, Reaction>, tick: nat, n: nat, e: Loop)
    requires Leads(l, react, tick, n, e) && !AtHead(l) && (n > 0 || AtHead(e))
    ensures VisitFits(Around(l), Node(l), react, tick)
    ensures n > 0 && Leads(Turn(l, react, tick), react, tick, n - 1, e)
  {
  }

  lemma NoneLeft(l: Loop, react: map<Alarm, Reaction>, tick: nat, n: nat, e: Loop)
    requires Leads(l, react, tick, n, e) && (AtHead(l) || n == 0)
    ensures l == e
  {
  }

  // ---- steps of a run ------------------------------------------------------------------

  /** What a run of the clock is about: the time, the list, the alarms taken off it, the timers of
      those on it, and every callback run so far with its tick. */
  datatype View = View(clock: nat, listed: seq<Alarm>, off: set<Alarm>, timers: map<Alarm, Timer>,
                       log: seq<(Alarm, nat)>)

  /** A tick is given with a number of turns after which its loop is through. */
  datatype Step =
    | Ticking(react: map<Alarm, Reaction>, turns: nat)
    | Starting(alarm: Alarm, period: u32)
    | Stopping(alarm: Alarm)

  /** No alarm is on the list twice. */
  ghost predicate Sound(v: View) { Distinct(v.listed) && v.timers.Keys == (set a | a in v.listed) }

  /** The loop of the next tick before its first turn, */
  ghost function LoopOf(v: View): (l: Loop) {
    Walking(Stage([], [], v.listed, v.off, v.timers, v.log))
  }

  ghost function Narrowed(timers: map<Alarm, Timer>, alarms: seq<Alarm>): (narrow: map<Alarm, Timer>) {
    map a | a in timers && a in alarms :: timers[a]
  }

  /** and what it leaves at the head. */
  ghost function ViewOf(s: Stage, clock: nat): (v: View) {
    View(clock, s.front, s.off, Narrowed(s.timers, s.front), s.log)
  }

  /** All callbacks fit, and so many turns lead to the head. */
  ghost predicate Ends(v: View, react: map<Alarm, Reaction>, turns: nat) {
    FitsFor(LoopOf(v), react, v.clock + 1, turns) && AtHead(Turns(LoopOf(v), react, v.clock + 1, turns))
  }

  ghost function AfterTick(v: View, react: map<Alarm, Reaction>, turns: nat): (w: View) {
    ViewOf(Turns(LoopOf(v), react, v.clock + 1, turns).s, v.clock + 1)
  }

  ghost predicate Stepped(v: View, step: Step, w: View) {
    && Sound(v) && Sound(w)
    && match step
       case Ticking(react, turns) => Ends(v, react, turns) && w == AfterTick(v, react, turns)
       case Starting(alarm, period) =>
         && alarm !in v.listed && w.clock == v.clock && w.log == v.log && w.off == v.off - {alarm}
         && w.listed == [alarm] + v.listed
         && w.timers == v.timers[alarm := StartTimer(period, Wrapped(v.clock))]
       case Stopping(alarm) =>
         && w.clock == v.clock && w.log == v.log && w.off == v.off + {alarm}
         && w.listed == Without(v.listed, alarm) && w.timers == v.timers - {alarm}
  }

  lemma StartIsStep(v: View, alarm: Alarm, period: u32, w: View)
    requires Sound(v) && Sound(w) && w.clock == v.clock && w.log == v.log && w.off == v.off - {alarm}
    requires alarm !in v.listed && w.listed == [alarm] + v.listed
    requires w.timers[alarm] == StartTimer(period, Wrapped(v.clock))
    requires forall a :: a in v.listed ==> w.timers[a] == v.timers[a]
    ensures Stepped(v, Starting(alarm, period), w)
  {
    assert w.timers == v.timers[alarm := StartTimer(period, Wrapped(v.clock))];
  }

  lemma StopIsStep(v: View, alarm: Alarm, w: View)
    requires Sound(v) && Sound(w) && w.clock == v.clock && w.log == v.log && w.off == v.off + {alarm}
    requires w.listed == Without(v.listed, alarm) && alarm !in w.listed
    requires forall a :: a in w.listed ==> a in v.listed && w.timers[a] == v.timers[a]
    ensures Stepped(v, Stopping(alarm), w)
  {
    OthersStay(v.listed, alarm);
    assert w.timers == v.timers - {alarm};
  }

  // ---- what a visit keeps --------------------------------------------------------------

  /** Stopping an alarm takes it out of whatever part it is in. */
  lemma StoppedListed(s: Stage, alarm: Alarm)
    requires Distinct(Listed(s))
    ensures Listed(Stopped(s, alarm)) == Without(Listed(s), alarm)
  {
    WithoutJoin(s.front + s.here, s.rest, alarm);
    PrefixDistinct(s.front + s.here, s.rest);
    WithoutJoin(s.front, s.here, alarm);
  }

  lemma StoppedParts(s: Stage, alarm: Alarm)
    ensures var t := Stopped(s, alarm);
      && (forall a :: a in t.front ==> a in s.front) && (forall a :: a in t.rest ==> a in s.rest)
      && (forall a :: a in t.here ==> a in s.here) && (forall a :: a in Listed(t) ==> a in Listed(s))
  {
    SomeOf(s.front, alarm);
    SomeOf(s.here, alarm);
    SomeOf(s.rest, alarm);
  }

  lemma {:induction false} SomeOf(alarms: seq<Alarm>, alarm: Alarm)
    ensures forall a :: a in Without(alarms, alarm) ==> a in alarms
  {
    if alarms != [] {
      SomeOf(alarms[1..], alarm);
      assert alarms == [alarms[0]] + alarms[1..];
    }
  }

  lemma PrefixDistinct(x: seq<Alarm>, y: seq<Alarm>)
    requires Distinct(x + y)
    ensures Distinct(x)
  {
    forall i, j | 0 <= i < j < |x|
      ensures x[i] != x[j]
    {
      assert (x + y)[i] != (x + y)[j];
    }
  }

  lemma SuffixDistinct(x: seq<Alarm>, y: seq<Alarm>)
    requires Distinct(x + y)
    ensures Distinct(y) && forall a :: a in x ==> a !in y
  {
    var all, n := x + y, |x|;
    assert forall i :: 0 <= i < n ==> all[i] == x[i];
    assert forall i :: 0 <= i < |y| ==> all[n + i] == y[i];
  }

  lemma OpenedListed(s: Stage)
    requires s.rest != [] && s.here == []
    ensures Listed(Opened(s)) == Listed(s)
  {
    assert s.rest == [s.rest[0]] + s.rest[1..];
  }

  lemma ClosedListed(s: Stage)
    ensures Listed(Closed(s)) == Listed(s)
  {
  }

  lemma {:induction false} UntilFrom(alarms: seq<Alarm>, alarm: Alarm)
    ensures Until(alarms, alarm) + From(alarms, alarm) == alarms
    ensures alarm in alarms ==> From(alarms, alarm) != [] && From(alarms, alarm)[0] == alarm
  {
    if alarms != [] && alarms[0] != alarm {
      UntilFrom(alarms[1..], alarm);
      assert alarms == [alarms[0]] + alarms[1..];
      Associates([alarms[0]], Until(alarms[1..], alarm), From(alarms[1..], alarm));
    }
  }

  lemma Associates<T>(x: seq<T>, y: seq<T>, z: seq<T>)
    ensures x + (y + z) == (x + y) + z
  {
  }

  /** Resuming changes nothing on the list; it leads to the saved node. */
  lemma ResumedListed(s: Stage, saved: seq<Alarm>)
    requires s.here == [] && |saved| <= 1 && (saved == [] ==> s.rest == [])
    ensures var l := Resumed(s, saved);
      && Listed(l.s) == Listed(s) && l.s.here == [] && l.s.timers == s.timers && l.s.off == s.off && l.s.log == s.log
      && (AtHead(l) <==> saved == []) && (saved != [] ==> Node(l) == saved[0])
  {
    if saved != [] {
      UntilFrom(s.front, saved[0]);
      Moved(Until(s.front, saved[0]), From(s.front, saved[0]), s.rest);
    }
  }

  lemma Moved<T>(x: seq<T>, y: seq<T>, z: seq<T>)
    ensures x + [] + (y + z) == (x + y) + [] + z
  {
  }

  // What the walk has saved as the next alarm is still the first of the rest, or is not there.

  ghost predicate FirstIfThere(alarms: seq<Alarm>, alarm: Alarm) {
    Distinct(alarms) && (alarm in alarms ==> alarms[0] == alarm)
  }

  lemma FirstWithout(alarms: seq<Alarm>, stopped: Alarm, alarm: Alarm)
    requires FirstIfThere(alarms, alarm)
    ensures FirstIfThere(Without(alarms, stopped), alarm)
  {
    WithoutOne(alarms, stopped);
  }

  lemma {:induction false} FirstAfterActs(s: Stage, acts: seq<Act>, now: u32, alarm: Alarm)
    requires FirstIfThere(s.rest, alarm)
    ensures FirstIfThere(ActedAll(s, acts, now).rest, alarm)
    decreases |acts|
  {
    if acts != [] {
      if acts[0].StopIt? {
        FirstWithout(s.rest, acts[0].alarm, alarm);
      }
      FirstAfterActs(Acted(s, acts[0], now), acts[1..], now, alarm);
    }
  }

  lemma FirstAfterVisit(s: Stage, node: Alarm, react: map<Alarm, Reaction>, tick: nat, alarm: Alarm)
    requires FirstIfThere(s.rest, alarm)
    ensures FirstIfThere(Visited(s, node, react, tick).rest, alarm)
  {
    if Fires(s, node, Wrapped(tick)) && node in react {
      var acted := ActedAll(Entered(s, node, tick), react[node].acts, Wrapped(tick));
      FirstAfterActs(Entered(s, node, tick), react[node].acts, Wrapped(tick), alarm);
      FirstWithout(acted.rest, node, alarm);
    }
  }

  // An alarm on the list, or off it, is one or the other after every act.

  ghost predicate Known(s: Stage, alarm: Alarm) { alarm in Listed(s) || alarm in s.off }

  lemma KnownAfterStop(s: Stage, stopped: Alarm, alarm: Alarm)
    requires Known(s, alarm)
    ensures Known(Stopped(s, stopped), alarm)
  {
    OthersStay(s.front, stopped);
    OthersStay(s.here, stopped);
    OthersStay(s.rest, stopped);
  }

  lemma {:induction false} KnownAfterActs(s: Stage, acts: seq<Act>, now: u32, alarm: Alarm)
    requires Known(s, alarm)
    ensures Known(ActedAll(s, acts, now), alarm)
    decreases |acts|
  {
    if acts != [] {
      if acts[0].StopIt? {
        KnownAfterStop(s, acts[0].alarm, alarm);
      }
      KnownAfterActs(Acted(s, acts[0], now), acts[1..], now, alarm);
    }
  }

  lemma KnownAfterVisit(s: Stage, node: Alarm, react: map<Alarm, Reaction>, tick: nat, alarm: Alarm)
    requires Known(s, alarm)
    ensures Known(Visited(s, node, react, tick), alarm)
  {
    if Fires(s, node, Wrapped(tick)) && node in react {
      var acted := ActedAll(Entered(s, node, tick), react[node].acts, Wrapped(tick));
      KnownAfterActs(Entered(s, node, tick), react[node].acts, Wrapped(tick), alarm);
      KnownAfterStop(acted, node, alarm);
    }
  }

  /** So a loop that has lost its node is at an alarm off the list. */
  lemma LostIsOff(l: Loop, react: map<Alarm, Reaction>, tick: nat)
    requires !AtHead(l) && l.s.here == [] && Distinct(Listed(l.s))
    requires l.Lost? ==> l.alarm in l.s.off && l.alarm !in Listed(l.s)
    ensures var m := Turn(l, react, tick);
      m.s.here == [] && (m.Lost? ==> m.alarm in m.s.off && m.alarm !in Listed(m.s))
  {
    var s, saved := Around(l), Saved(l);
    var t := Visited(s, Node(l), react, tick);
    assert Listed(l.s) == l.s.front + l.s.rest;
    SuffixDistinct(l.s.front, l.s.rest);
    assert forall i :: 0 <= i < |l.s.rest| - 1 ==> l.s.rest[1..][i] == l.s.rest[i + 1];
    if saved != [] {
      assert FirstIfThere(s.rest, saved[0]);
      assert l.Walking? ==> saved[0] in s.rest;
      FirstAfterVisit(s, Node(l), react, tick, saved[0]);
      KnownAfterVisit(s, Node(l), react, tick, saved[0]);
      ClosedListed(t);
    } else {
      assert s.rest == [] && t.rest == [];
    }
    ResumedListed(Closed(t), saved);
  }
}
