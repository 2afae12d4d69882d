/** What ticks do, over one tick and over whole runs of ticks, starts and stops: when the loop of a
    tick ends, and at which ticks an alarm runs whatever happens to the others meanwhile. */
module AlarmRuns {
  import opened AlarmTiming
  import opened AlarmList
  import opened AlarmWalk

  function Last<T>(s: seq<T>): (last: T)
    requires s != []
  {
    s[|s| - 1]
  }

  // ---- the list stays a list -----------------------------------------------------------

  lemma DistinctMoreInFront(alarm: Alarm, alarms: seq<Alarm>)
    requires Distinct(alarms) && alarm !in alarms
    ensures Distinct([alarm] + alarms)
  {
  }

  lemma ActedDistinct(s: Stage, act: Act, now: u32)
    requires Distinct(Listed(s)) && ActFits(s, act)
    ensures Distinct(Listed(Acted(s, act, now)))
  {
    match act
    case StartIt(alarm, _) =>
      DistinctMoreInFront(alarm, Listed(s));
      assert Listed(Acted(s, act, now)) == [alarm] + Listed(s);
    case StopIt(alarm) =>
      StoppedListed(s, alarm);
      WithoutOne(Listed(s), alarm);
  }

  lemma {:induction false} ActsDistinct(s: Stage, acts: seq<Act>, now: u32)
    requires Distinct(Listed(s)) && ActsFit(s, acts, now)
    ensures Distinct(Listed(ActedAll(s, acts, now)))
    decreases |acts|
  {
    if acts != [] {
      ActedDistinct(s, acts[0], now);
      ActsDistinct(Acted(s, acts[0], now), acts[1..], now);
    }
  }

  /** No visit puts an alarm on the list twice. */
  lemma VisitedDistinct(s: Stage, alarm: Alarm, react: map<Alarm, Reaction>, tick: nat)
    requires Distinct(Listed(s)) && VisitFits(s, alarm, react, tick)
    ensures Distinct(Listed(Visited(s, alarm, react, tick)))
  {
    if Fires(s, alarm, Wrapped(tick)) {
      var entered := Entered(s, alarm, tick);
      ActsDistinct(entered, react[alarm].acts, Wrapped(tick));
      if react[alarm].answer == 0 {
        var acted := ActedAll(entered, react[alarm].acts, Wrapped(tick));
        StoppedListed(acted, alarm);
        WithoutOne(Listed(acted), alarm);
      }
    }
  }

  // ---- walks that go straight through --------------------------------------------------

  /** The visit to the first alarm of the rest. */
  ghost function Passed(s: Stage, react: map<Alarm, Reaction>, tick: nat): (t: Stage)
    requires s.rest != []
    ensures |t.rest| < |s.rest|
  {
    Closed(Visited(Opened(s), s.rest[0], react, tick))
  }

  ghost function Walked(s: Stage, react: map<Alarm, Reaction>, tick: nat): (t: Stage)
    decreases |s.rest|
  {
    if s.rest == [] then s else Walked(Passed(s, react, tick), react, tick)
  }

  /** The alarm that the loop has saved as the next one is not stopped. */
  ghost predicate Spares(acts: seq<Act>, saved: seq<Alarm>) {
    saved != [] ==> StopIt(saved[0]) !in acts
  }

  /** A callback that runs at this alarm spares the one behind it. */
  ghost predicate SparedHere(s: Stage, react: map<Alarm, Reaction>, tick: nat)
    requires s.rest != []
  {
    Fires(s, s.rest[0], Wrapped(tick)) && s.rest[0] in react ==> Spares(react[s.rest[0]].acts, Saved(Walking(s)))
  }

  /** Every callback run does. */
  ghost predicate AllSpare(s: Stage, react: map<Alarm, Reaction>, tick: nat)
    decreases |s.rest|
  {
    s.rest == [] || (SparedHere(s, react, tick) && AllSpare(Passed(s, react, tick), react, tick))
  }

  /** Every callback run on the way fits. */
  ghost predicate AllFit(s: Stage, react: map<Alarm, Reaction>, tick: nat)
    decreases |s.rest|
  {
    s.rest == [] || (VisitFits(Opened(s), s.rest[0], react, tick) && AllFit(Passed(s, react, tick), react, tick))
  }

  lemma StoppedKeepsFirst(s: Stage, stopped: Alarm, alarm: Alarm)
    requires s.rest != [] && s.rest[0] == alarm && stopped != alarm
    ensures var t := Stopped(s, stopped); t.rest != [] && t.rest[0] == alarm
  {
  }

  lemma {:induction false} SparedStays(s: Stage, acts: seq<Act>, now: u32)
    requires s.rest != [] && Spares(acts, s.rest)
    ensures var t := ActedAll(s, acts, now); t.rest != [] && t.rest[0] == s.rest[0]
    decreases |acts|
  {
    if acts != [] {
      assert acts[0] in acts && forall a :: a in acts[1..] ==> a in acts;
      if acts[0].StopIt? {
        StoppedKeepsFirst(s, acts[0].alarm, s.rest[0]);
      }
      SparedStays(Acted(s, acts[0], now), acts[1..], now);
    }
  }

  /** The alarm visited is neither before nor behind the walk. */
  lemma OwnIsApart(s: Stage)
    requires s.rest != [] && s.here == [] && Distinct(Listed(s))
    ensures s.rest[0] !in s.front && s.rest[0] !in s.rest[1..]
    ensures forall a :: a in s.front ==> a !in s.rest
  {
    assert Listed(s) == s.front + s.rest;
    SuffixDistinct(s.front, s.rest);
    assert forall i :: 0 <= i < |s.rest| - 1 ==> s.rest[1..][i] == s.rest[i + 1];
  }

  /** If the callback spares it, the loop goes on to it in its place, and leaves a list. */
  lemma SparedTurn(s: Stage, react: map<Alarm, Reaction>, tick: nat)
    requires s.rest != [] && s.here == [] && Distinct(Listed(s))
    requires VisitFits(Opened(s), s.rest[0], react, tick) && SparedHere(s, react, tick)
    ensures Turn(Walking(s), react, tick) == Walking(Passed(s, react, tick))
    ensures Distinct(Listed(Passed(s, react, tick))) && Passed(s, react, tick).here == []
  {
    var own, inside := s.rest[0], Opened(s);
    OwnIsApart(s);
    OpenedListed(s);
    VisitedDistinct(inside, own, react, tick);
    ClosedListed(Visited(inside, own, react, tick));
    if |s.rest| > 1 && Fires(s, own, Wrapped(tick)) && own in react {
      var acted := ActedAll(Entered(inside, own, tick), react[own].acts, Wrapped(tick));
      SparedStays(Entered(inside, own, tick), react[own].acts, Wrapped(tick));
      StoppedKeepsFirst(acted, own, s.rest[1]);
    }
  }

  /** So the loop is through after one turn for each alarm that was registered. */
  lemma {:induction false} SparedEnds(s: Stage, react: map<Alarm, Reaction>, tick: nat, n: nat)
    requires s.here == [] && Distinct(Listed(s)) && n >= |s.rest|
    requires AllFit(s, react, tick) && AllSpare(s, react, tick)
    ensures FitsFor(Walking(s), react, tick, n)
    ensures Turns(Walking(s), react, tick, n) == Walking(Walked(s, react, tick))
    ensures Walked(s, react, tick).rest == [] && Walked(s, react, tick).here == []
    decreases |s.rest|
  {
    if s.rest != [] {
      SparedTurn(s, react, tick);
      SparedEnds(Passed(s, react, tick), react, tick, n - 1);
    }
  }

  // ---- loops that do not end -----------------------------------------------------------

  /** No callback that runs in the first n turns starts the alarm that the loop has saved then. */
  ghost predicate NeverRestarts(l: Loop, react: map<Alarm, Reaction>, tick: nat, n: nat)
    decreases n
  {
    n == 0 || AtHead(l) || (RestartsNot(l, react, tick) && NeverRestarts(Turn(l, react, tick), react, tick, n - 1))
  }

  ghost predicate RestartsNot(l: Loop, react: map<Alarm, Reaction>, tick: nat)
    requires !AtHead(l)
  {
    Fires(Around(l), Node(l), Wrapped(tick)) && Node(l) in react ==> LeavesOff(react[Node(l)].acts, Saved(l))
  }

  ghost predicate LeavesOff(acts: seq<Act>, saved: seq<Alarm>) {
    forall act :: act in acts && act.StartIt? ==> act.alarm !in saved
  }

  lemma {:induction false} GoneStays(s: Stage, acts: seq<Act>, now: u32, alarm: Alarm)
    requires alarm !in Listed(s) && LeavesOff(acts, [alarm])
    ensures alarm !in Listed(ActedAll(s, acts, now))
    decreases |acts|
  {
    if acts != [] {
      assert acts[0] in acts && forall a :: a in acts[1..] ==> a in acts;
      assert alarm in [alarm];
      if acts[0].StopIt? {
        StoppedParts(s, acts[0].alarm);
      }
      GoneStays(Acted(s, acts[0], now), acts[1..], now, alarm);
    }
  }

  /** An alarm that is stopped and not started again is off the list afterwards. */
  lemma {:induction false} StoppedIsGone(s: Stage, acts: seq<Act>, now: u32, alarm: Alarm)
    requires Distinct(Listed(s)) && ActsFit(s, acts, now) && StopIt(alarm) in acts && LeavesOff(acts, [alarm])
    ensures alarm !in Listed(ActedAll(s, acts, now))
    decreases |acts|
  {
    var t := Acted(s, acts[0], now);
    assert acts == [acts[0]] + acts[1..];
    assert forall a :: a in acts[1..] ==> a in acts;
    ActedDistinct(s, acts[0], now);
    if acts[0] == StopIt(alarm) {
      StoppedListed(s, alarm);
      WithoutOne(Listed(s), alarm);
      GoneStays(t, acts[1..], now, alarm);
    } else {
      StoppedIsGone(t, acts[1..], now, alarm);
    }
  }

  /** A loop at an alarm off the list stays there as long as nothing starts that alarm: its own
      callback, if it is due, runs there too. */
  lemma LostTurn(l: Loop, react: map<Alarm, Reaction>, tick: nat)
    requires l.Lost? && l.s.here == [] && l.alarm !in Listed(l.s)
    requires Fires(l.s, l.alarm, Wrapped(tick)) && l.alarm in react ==> LeavesOff(react[l.alarm].acts, [l.alarm])
    ensures var m := Turn(l, react, tick);
      m.Lost? && m.alarm == l.alarm && m.s.here == [] && m.alarm !in Listed(m.s)
  {
    var s, own := l.s, l.alarm;
    var t := Visited(s, own, react, tick);
    if Fires(s, own, Wrapped(tick)) && own in react {
      var acted := ActedAll(Entered(s, own, tick), react[own].acts, Wrapped(tick));
      GoneStays(Entered(s, own, tick), react[own].acts, Wrapped(tick), own);
      StoppedParts(acted, own);
    }
    ClosedListed(t);
    assert own !in Listed(Closed(t));
    assert own !in Closed(t).front && own !in Closed(t).rest;
  }

  lemma {:induction false} LostForEver(l: Loop, react: map<Alarm, Reaction>, tick: nat, n: nat)
    requires l.Lost? && l.s.here == [] && l.alarm !in Listed(l.s) && NeverRestarts(l, react, tick, n)
    ensures var m := Turns(l, react, tick, n); m.Lost? && m.alarm == l.alarm && m.alarm !in Listed(m.s)
    decreases n
  {
    if n > 0 {
      LostTurn(l, react, tick);
      LostForEver(Turn(l, react, tick), react, tick, n - 1);
    }
  }

  /** A callback that stops the alarm saved as the next one, and does not start it again, loses it. */
  lemma UnsparedTurn(s: Stage, react: map<Alarm, Reaction>, tick: nat)
    requires s.rest != [] && s.here == [] && Distinct(Listed(s))
    requires VisitFits(Opened(s), s.rest[0], react, tick) && !SparedHere(s, react, tick)
    requires LeavesOff(react[s.rest[0]].acts, Saved(Walking(s)))
    ensures var m := Turn(Walking(s), react, tick);
      |s.rest| > 1 && m.Lost? && m.alarm == s.rest[1] && m.s.here == [] && m.alarm !in Listed(m.s)
  {
    var own, saved, inside := s.rest[0], s.rest[1], Opened(s);
    var entered := Entered(inside, own, tick);
    var acted := ActedAll(entered, react[own].acts, Wrapped(tick));
    assert Saved(Walking(s)) == [saved];
    OpenedListed(s);
    assert Listed(entered) == Listed(s);
    StoppedIsGone(entered, react[own].acts, Wrapped(tick), saved);
    StoppedParts(acted, own);
    ClosedListed(Visited(inside, own, react, tick));
  }

  /** The loop of a tick whose callbacks fit, and do not start the alarm saved as the next one, reaches
      the list head if and only if every callback run spares that alarm.  If one does not, the loop
      goes round at an alarm off the list, however many turns it is given. */
  lemma {:induction false} EndsExactlyWhen(s: Stage, react: map<Alarm, Reaction>, tick: nat, n: nat)
    requires s.here == [] && Distinct(Listed(s)) && n >= |s.rest|
    requires FitsFor(Walking(s), react, tick, n) && NeverRestarts(Walking(s), react, tick, n)
    ensures var l := Turns(Walking(s), react, tick, n);
      && (AtHead(l) <==> AllSpare(s, react, tick)) && (!AtHead(l) ==> l.Lost? && l.alarm !in Listed(l.s))
    decreases |s.rest|
  {
    if s.rest != [] {
      if SparedHere(s, react, tick) {
        SparedTurn(s, react, tick);
        EndsExactlyWhen(Passed(s, react, tick), react, tick, n - 1);
      } else {
        UnsparedTurn(s, react, tick);
        LostForEver(Turn(Walking(s), react, tick), react, tick, n - 1);
      }
    }
  }

  /** An example: of two alarms the first is due and all its callback does is stop the second, whose
      own callback does nothing to the list. */
  lemma StoppingTheNextHangs(s: Stage, a: Alarm, b: Alarm, react: map<Alarm, Reaction>, tick: nat, n: nat)
    requires s.front == s.here == [] && s.rest == [a, b] && a != b && Fires(s, a, Wrapped(tick))
    requires a in react && react[a].acts == [StopIt(b)] && b in react && react[b].acts == []
    ensures FitsFor(Walking(s), react, tick, n) && !AtHead(Turns(Walking(s), react, tick, n))
  {
    if n > 0 {
      var m := LosesTheNext(s, a, b, react, tick);
      HarmlessFits(m, react, tick, n - 1);
      LostForEver(m, react, tick, n - 1);
    }
  }

  lemma LosesTheNext(s: Stage, a: Alarm, b: Alarm, react: map<Alarm, Reaction>, tick: nat) returns (m: Loop)
    requires s.front == s.here == [] && s.rest == [a, b] && a != b && Fires(s, a, Wrapped(tick))
    requires a in react && react[a].acts == [StopIt(b)]
    ensures VisitFits(Opened(s), a, react, tick) && m == Turn(Walking(s), react, tick)
    ensures m.Lost? && m.alarm == b && m.s.here == [] && b !in Listed(m.s)
  {
    assert Listed(s) == [a, b] && s.rest[1..] == [b];
    OneStopFits(Entered(Opened(s), a, tick), react[a].acts, b, Wrapped(tick));
    assert StopIt(b) in react[a].acts;
    UnsparedTurn(s, react, tick);
    m := Turn(Walking(s), react, tick);
  }

  lemma OneStopFits(s: Stage, acts: seq<Act>, b: Alarm, now: u32)
    requires acts == [StopIt(b)] && b in s.rest
    ensures ActsFit(s, acts, now)
  {
    assert acts[1..] == [] && ActsFit(Acted(s, acts[0], now), [], now);
  }

  /** A callback without acts always fits. */
  lemma {:induction false} HarmlessFits(l: Loop, react: map<Alarm, Reaction>, tick: nat, n: nat)
    requires l.Lost? && l.s.here == [] && l.alarm !in Listed(l.s)
    requires l.alarm in react && react[l.alarm].acts == []
    ensures FitsFor(l, react, tick, n) && NeverRestarts(l, react, tick, n)
    decreases n
  {
    if n > 0 {
      LostTurn(l, react, tick);
      HarmlessFits(Turn(l, react, tick), react, tick, n - 1);
    }
  }

  // ---- the log -------------------------------------------------------------------------

  /** The ticks at which the log has this alarm run. */
  ghost function TimesOf(log: seq<(Alarm, nat)>, alarm: Alarm): (times: seq<nat>) {
    if log == [] then []
    else (if log[0].0 == alarm then [log[0].1] else []) + TimesOf(log[1..], alarm)
  }

  lemma {:induction false} TimesJoin(before: seq<(Alarm, nat)>, after: seq<(Alarm, nat)>, alarm: Alarm)
    ensures TimesOf(before + after, alarm) == TimesOf(before, alarm) + TimesOf(after, alarm)
    decreases |before|
  {
    if before == [] {
      assert before + after == after;
    } else {
      FirstOfJoin(before, after);
      TimesJoin(before[1..], after, alarm);
      Associates(if before[0].0 == alarm then [before[0].1] else [],
                 TimesOf(before[1..], alarm), TimesOf(after, alarm));
    }
  }

  lemma FirstOfJoin<T>(before: seq<T>, after: seq<T>)
    requires before != []
    ensures before + after != []
    ensures (before + after)[0] == before[0] && (before + after)[1..] == before[1..] + after
  {
  }

  lemma Associates<T>(a: seq<T>, b: seq<T>, c: seq<T>)
    ensures a + (b + c) == (a + b) + c
  {
  }

  lemma Single(a: Alarm, tick: nat, alarm: Alarm)
    ensures TimesOf([(a, tick)], alarm) == if a == alarm then [tick] else []
  {
  }

  // ---- one alarm, one visit ------------------------------------------------------------

  /** No callback starts this alarm, and only its own stops it. */
  ghost predicate Private(acts: seq<Act>, own: Alarm, alarm: Alarm) {
    forall act :: act in acts && act.alarm == alarm ==> act.StopIt? && own == alarm
  }

  ghost predicate AllPrivate(react: map<Alarm, Reaction>, alarm: Alarm) {
    forall a :: a in react ==> Private(react[a].acts, a, alarm)
  }

  ghost predicate StopsSelf(acts: seq<Act>, alarm: Alarm) { StopIt(alarm) in acts }

  ghost function Answer(reaction: Reaction, alarm: Alarm): (answer: u32) {
    if StopsSelf(reaction.acts, alarm) then 0 else reaction.answer
  }

  ghost predicate SameOf(s: Stage, t: Stage, alarm: Alarm) {
    && (alarm in t.front <==> alarm in s.front) && (alarm in t.rest <==> alarm in s.rest)
    && (alarm in t.timers <==> alarm in s.timers) && (alarm in s.timers ==> t.timers[alarm] == s.timers[alarm])
  }

  /** The acts of a callback leave another alarm alone. */
  lemma {:induction false} ActsOfOne(s: Stage, acts: seq<Act>, own: Alarm, alarm: Alarm, now: u32)
    requires Private(acts, own, alarm) && own != alarm
    ensures SameOf(s, ActedAll(s, acts, now), alarm)
    decreases |acts|
  {
    if acts != [] {
      assert acts[0] in acts && forall act :: act in acts[1..] ==> act in acts;
      if acts[0].StopIt? {
        OthersStay(s.front, acts[0].alarm);
        OthersStay(s.rest, acts[0].alarm);
      }
      ActsOfOne(Acted(s, acts[0], now), acts[1..], own, alarm, now);
    }
  }

  /** Only the alarm being visited is ever at its place. */
  lemma {:induction false} HereIsOwn(s: Stage, acts: seq<Act>, own: Alarm, now: u32)
    requires forall a :: a in s.here ==> a == own
    ensures forall a :: a in ActedAll(s, acts, now).here ==> a == own
    decreases |acts|
  {
    if acts != [] {
      if acts[0].StopIt? {
        SomeOf(s.here, acts[0].alarm);
      }
      HereIsOwn(Acted(s, acts[0], now), acts[1..], own, now);
    }
  }

  ghost predicate AtPlace(s: Stage, own: Alarm) {
    own !in s.front && own !in s.rest && own in s.timers && (s.here == [own] || s.here == [])
  }

  /** If its own callback does not start it, an alarm stays at its place exactly if that does not stop
      it either. */
  lemma {:induction false} ActsOfOwn(s: Stage, acts: seq<Act>, own: Alarm, now: u32)
    requires AtPlace(s, own) && Private(acts, own, own)
    ensures var t := ActedAll(s, acts, now);
      && AtPlace(t, own) && t.timers[own] == s.timers[own]
      && t.here == (if StopsSelf(acts, own) then [] else s.here)
    decreases |acts|
  {
    if acts != [] {
      var t := Acted(s, acts[0], now);
      assert acts == [acts[0]] + acts[1..];
      assert acts[0] in acts && forall act :: act in acts[1..] ==> act in acts;
      if acts[0].StopIt? {
        SomeOf(s.front, acts[0].alarm);
        SomeOf(s.rest, acts[0].alarm);
      }
      ActsOfOwn(t, acts[1..], own, now);
    }
  }

  /** A visit to another alarm. */
  lemma VisitOfOther(s: Stage, react: map<Alarm, Reaction>, alarm: Alarm, tick: nat)
    requires s.rest != [] && s.here == [] && s.rest[0] != alarm && AllPrivate(react, alarm)
    ensures SameOf(s, Passed(s, react, tick), alarm)
    ensures TimesOf(Passed(s, react, tick).log, alarm) == TimesOf(s.log, alarm)
  {
    var own, inside, now := s.rest[0], Opened(s), Wrapped(tick);
    assert s.rest == [own] + s.rest[1..];
    if Fires(inside, own, now) && own in react {
      var entered := Entered(inside, own, tick);
      var acted := ActedAll(entered, react[own].acts, now);
      ActsOfOne(entered, react[own].acts, own, alarm, now);
      TimesJoin(s.log, [(own, tick)], alarm);
      Single(own, tick, alarm);
      HereIsOwn(entered, react[own].acts, own, now);
      OthersStay(acted.front, own);
      OthersStay(acted.rest, own);
      SomeOf(acted.here, own);
    }
  }

  /** Its own visit. */
  lemma VisitOfOwn(s: Stage, react: map<Alarm, Reaction>, tick: nat)
    requires s.rest != [] && s.here == [] && Distinct(Listed(s)) && VisitFits(Opened(s), s.rest[0], react, tick)
    requires s.rest[0] in s.timers && AllPrivate(react, s.rest[0])
    ensures var t, own, now := Passed(s, react, tick), s.rest[0], Wrapped(tick);
      var fires, after := Fires(s, own, now), Visit(s.timers[own], now);
      && own !in t.rest && own in t.timers
      && TimesOf(t.log, own) == TimesOf(s.log, own) + (if fires then [tick] else [])
      && (own in t.front <==> (fires ==> Answer(react[own], own) != 0))
      && (own in t.front ==> t.timers[own] == if fires then Reload(after, Answer(react[own], own), now) else after)
  {
    var own, inside, now := s.rest[0], Opened(s), Wrapped(tick);
    OwnIsApart(s);
    if Fires(s, own, now) {
      var entered := Entered(inside, own, tick);
      var acted := ActedAll(entered, react[own].acts, now);
      ActsOfOwn(entered, react[own].acts, own, now);
      SomeOf(acted.front, own);
      SomeOf(acted.rest, own);
      TimesJoin(s.log, [(own, tick)], own);
      Single(own, tick, own);
    } else {
      assert TimesOf(s.log, own) + [] == TimesOf(s.log, own);
    }
  }

  // ---- one alarm, one tick -------------------------------------------------------------

  /** An alarm the walk is past, or that is not on the list, is left as it is. */
  lemma {:induction false} WalkPast(s: Stage, react: map<Alarm, Reaction>, alarm: Alarm, tick: nat)
    requires s.here == [] && alarm !in s.rest && AllPrivate(react, alarm)
    ensures SameOf(s, Walked(s, react, tick), alarm)
    ensures TimesOf(Walked(s, react, tick).log, alarm) == TimesOf(s.log, alarm)
    decreases |s.rest|
  {
    if s.rest != [] {
      assert s.rest[0] in s.rest;
      VisitOfOther(s, react, alarm, tick);
      WalkPast(Passed(s, react, tick), react, alarm, tick);
    }
  }

  /** The alarm ran exactly if its timer had expired, and stayed unless it ran and then stopped itself
      or answered zero. */
  ghost predicate Went(s: Stage, t: Stage, react: map<Alarm, Reaction>, alarm: Alarm, tick: nat) {
    var now := Wrapped(tick);
    var fires, after := Fires(s, alarm, now), Visit(TimerOf(s, alarm), now);
    && alarm in t.timers && (fires ==> alarm in react)
    && TimesOf(t.log, alarm) == TimesOf(s.log, alarm) + (if fires then [tick] else [])
    && (alarm in t.front <==> (fires ==> Answer(react[alarm], alarm) != 0))
    && (alarm in t.front ==>
          t.timers[alarm] == if fires then Reload(after, Answer(react[alarm], alarm), now) else after)
  }

  /** So it is for every alarm waiting to be visited. */
  lemma {:induction false} WalkOfOne(s: Stage, react: map<Alarm, Reaction>, alarm: Alarm, tick: nat)
    requires s.here == [] && Distinct(Listed(s)) && AllFit(s, react, tick) && AllSpare(s, react, tick)
    requires AllPrivate(react, alarm) && alarm in s.rest && alarm in s.timers
    ensures Went(s, Walked(s, react, tick), react, alarm, tick)
    decreases |s.rest|
  {
    SparedTurn(s, react, tick);
    if alarm == s.rest[0] {
      VisitOfOwn(s, react, tick);
      WalkPast(Passed(s, react, tick), react, alarm, tick);
    } else {
      VisitOfOther(s, react, alarm, tick);
      OwnIsApart(s);
      WalkOfOne(Passed(s, react, tick), react, alarm, tick);
    }
  }

  lemma {:induction false} SparedFits(s: Stage, react: map<Alarm, Reaction>, tick: nat, n: nat)
    requires s.here == [] && Distinct(Listed(s)) && AllSpare(s, react, tick)
    requires FitsFor(Walking(s), react, tick, n) && AtHead(Turns(Walking(s), react, tick, n))
    ensures AllFit(s, react, tick) && Turns(Walking(s), react, tick, n) == Walking(Walked(s, react, tick))
    decreases |s.rest|
  {
    if s.rest != [] {
      SparedTurn(s, react, tick);
      SparedFits(Passed(s, react, tick), react, tick, n - 1);
    }
  }

  /** The step neither starts this alarm nor stops it from outside, and its loop goes straight
      through. */
  ghost predicate LeavesAlone(v: View, step: Step, alarm: Alarm) {
    match step
    case Ticking(react, _) => AllPrivate(react, alarm) && AllSpare(LoopOf(v).s, react, v.clock + 1)
    case Starting(started, _) => started != alarm
    case Stopping(stopped) => stopped != alarm
  }

  ghost predicate RunsNow(v: View, step: Step, alarm: Alarm) {
    step.Ticking? && alarm in v.timers && NextRun(v.timers[alarm], v.clock) == v.clock + 1 && alarm in step.react
  }

  ghost function AnswersAt(v: View, step: Step, alarm: Alarm): (answers: seq<u32>) {
    if RunsNow(v, step, alarm) then [Answer(step.react[alarm], alarm)] else []
  }

  /** The timer after a tick in which its alarm runs, or does not. */
  ghost function NextTimer(v: View, step: Step, alarm: Alarm): (t: Timer)
    requires alarm in v.timers
  {
    var now := Wrapped(v.clock + 1);
    if RunsNow(v, step, alarm) then Reload(Visit(v.timers[alarm], now), Answer(step.react[alarm], alarm), now)
    else Visit(v.timers[alarm], now)
  }

  /** A tick: the alarm runs if its timer says so, and stays on the list unless it ran and asked not
      to. */
  lemma TickOfOne(v: View, step: Step, w: View, alarm: Alarm)
    requires Stepped(v, step, w) && step.Ticking? && LeavesAlone(v, step, alarm)
    ensures w.clock == v.clock + 1
    ensures TimesOf(w.log, alarm)
         == TimesOf(v.log, alarm) + if RunsNow(v, step, alarm) then [w.clock] else []
    ensures alarm in w.listed
       <==> alarm in v.listed && (RunsNow(v, step, alarm) ==> Answer(step.react[alarm], alarm) != 0)
    ensures alarm in w.listed ==> w.timers[alarm] == NextTimer(v, step, alarm)
    ensures alarm in v.listed && NextRun(v.timers[alarm], v.clock) == v.clock + 1 ==> RunsNow(v, step, alarm)
    ensures TickedOne(v, step, w, alarm)
  {
    var t := StraightTick(v, step.react, step.turns, w);
    AnyTick(v, step, w, alarm, LoopOf(v).s, t);
  }

  /** A tick whose loop goes straight through leaves what the walk leaves. */
  lemma StraightTick(v: View, react: map<Alarm, Reaction>, turns: nat, w: View) returns (t: Stage)
    requires Stepped(v, Ticking(react, turns), w) && AllSpare(LoopOf(v).s, react, v.clock + 1)
    ensures t == Walked(LoopOf(v).s, react, v.clock + 1) && AllFit(LoopOf(v).s, react, v.clock + 1)
    ensures Listed(LoopOf(v).s) == v.listed
    ensures w.clock == v.clock + 1 && w.listed == t.front && w.log == t.log && w.timers == Narrowed(t.timers, t.front)
  {
    t := StraightLoop(LoopOf(v).s, v.listed, react, v.clock + 1, turns);
    Leaves(Turns(LoopOf(v), react, v.clock + 1, turns), t, v.clock + 1, w);
  }

  lemma StraightLoop(s: Stage, listed: seq<Alarm>, react: map<Alarm, Reaction>, tick: nat, n: nat) returns (t: Stage)
    requires s.front == s.here == [] && s.rest == listed && Distinct(listed) && AllSpare(s, react, tick)
    requires FitsFor(Walking(s), react, tick, n) && AtHead(Turns(Walking(s), react, tick, n))
    ensures Listed(s) == listed && AllFit(s, react, tick)
    ensures t == Walked(s, react, tick) && Turns(Walking(s), react, tick, n) == Walking(t)
  {
    assert Listed(s) == listed;
    SparedFits(s, react, tick, n);
    t := Walked(s, react, tick);
  }

  lemma Leaves(l: Loop, t: Stage, clock: nat, w: View)
    requires l == Walking(t) && w == ViewOf(l.s, clock)
    ensures w.clock == clock && w.listed == t.front && w.log == t.log && w.timers == Narrowed(t.timers, t.front)
  {
  }

  /** It does not run, or runs and asks to be run again. */
  ghost predicate GoesOn(v: View, step: Step, alarm: Alarm)
    requires step.Ticking?
  {
    RunsNow(v, step, alarm) ==> Answer(step.react[alarm], alarm) != 0
  }

  ghost predicate TickedOne(v: View, step: Step, w: View, alarm: Alarm)
    requires step.Ticking?
  {
    && TimesOf(w.log, alarm) == TimesOf(v.log, alarm) + (if RunsNow(v, step, alarm) then [v.clock + 1] else [])
    && (alarm in w.listed <==> alarm in v.listed && GoesOn(v, step, alarm))
    && (alarm in w.listed ==> alarm in v.timers && alarm in w.timers && w.timers[alarm] == NextTimer(v, step, alarm))
    && (alarm in v.timers && NextRun(v.timers[alarm], v.clock) == v.clock + 1 ==> RunsNow(v, step, alarm))
  }

  lemma AnyTick(v: View, step: Step, w: View, alarm: Alarm, s: Stage, t: Stage)
    requires Sound(v) && Sound(w) && step.Ticking? && s == LoopOf(v).s && Distinct(Listed(s))
    requires AllFit(s, step.react, v.clock + 1) && AllSpare(s, step.react, v.clock + 1)
    requires t == Walked(s, step.react, v.clock + 1) && AllPrivate(step.react, alarm)
    requires w.listed == t.front && w.log == t.log && w.timers == Narrowed(t.timers, t.front)
    ensures TickedOne(v, step, w, alarm)
  {
    if alarm in v.listed {
      ListedTick(v, step, w, alarm, s, t);
    } else {
      WalkPast(s, step.react, alarm, v.clock + 1);
      assert TimesOf(v.log, alarm) + [] == TimesOf(v.log, alarm);
    }
  }

  lemma ListedTick(v: View, step: Step, w: View, alarm: Alarm, s: Stage, t: Stage)
    requires Sound(v) && Sound(w) && step.Ticking? && s == LoopOf(v).s && Distinct(Listed(s)) && alarm in v.listed
    requires AllFit(s, step.react, v.clock + 1) && AllSpare(s, step.react, v.clock + 1)
    requires t == Walked(s, step.react, v.clock + 1) && AllPrivate(step.react, alarm)
    requires w.listed == t.front && w.log == t.log && w.timers == Narrowed(t.timers, t.front)
    ensures TickedOne(v, step, w, alarm)
  {
    AnyTimerRunsThen(v.timers[alarm], v.clock);
    WalkOfOne(s, step.react, alarm, v.clock + 1);
    TickedFrom(v, step, w, alarm, s, t);
  }

  lemma TickedFrom(v: View, step: Step, w: View, alarm: Alarm, s: Stage, t: Stage)
    requires Sound(v) && Sound(w) && step.Ticking? && alarm in v.listed
    requires s.timers == v.timers && s.log == v.log && Went(s, t, step.react, alarm, v.clock + 1)
    requires w.listed == t.front && w.log == t.log && w.timers == Narrowed(t.timers, t.front)
    requires Fires(s, alarm, Wrapped(v.clock + 1)) <==> NextRun(v.timers[alarm], v.clock) == v.clock + 1
    ensures TickedOne(v, step, w, alarm)
  {
  }

  /** A start or stop of another alarm changes nothing for this one. */
  lemma OtherStep(v: View, step: Step, w: View, alarm: Alarm)
    requires Stepped(v, step, w) && !step.Ticking? && LeavesAlone(v, step, alarm)
    ensures w.clock == v.clock && w.log == v.log
    ensures alarm in w.listed <==> alarm in v.listed
    ensures alarm in w.listed ==> w.timers[alarm] == v.timers[alarm]
  {
    if step.Stopping? {
      OthersStay(v.listed, step.alarm);
    }
  }

  // ---- alarms started during a tick ------------------------------------------------------

  /** Some callback started the alarm with a period that gives this timer. */
  ghost predicate StartedNow(react: map<Alarm, Reaction>, now: u32, alarm: Alarm, t: Timer) {
    exists a, act :: a in react && act in react[a].acts && act.StartIt? && act.alarm == alarm
                     && t == StartTimer(act.period, now)
  }

  /** An alarm the walk does not visit is on the list only if it was started rightly. */
  ghost predicate NewIsRight(s: Stage, react: map<Alarm, Reaction>, alarm: Alarm, now: u32) {
    && alarm !in s.rest
    && (alarm in s.front ==> alarm in s.timers && StartedNow(react, now, alarm, s.timers[alarm]))
  }

  lemma {:induction false} ActsOfNew(s: Stage, acts: seq<Act>, react: map<Alarm, Reaction>, own: Alarm,
                                     alarm: Alarm, now: u32)
    requires own in react && own != alarm && forall act :: act in acts ==> act in react[own].acts
    requires NewIsRight(s, react, alarm, now)
    ensures NewIsRight(ActedAll(s, acts, now), react, alarm, now)
    decreases |acts|
  {
    if acts != [] {
      assert acts[0] in acts && forall act :: act in acts[1..] ==> act in acts;
      if acts[0].StopIt? {
        StoppedParts(s, acts[0].alarm);
      }
      ActsOfNew(Acted(s, acts[0], now), acts[1..], react, own, alarm, now);
    }
  }

  lemma VisitOfNew(s: Stage, react: map<Alarm, Reaction>, alarm: Alarm, tick: nat)
    requires s.rest != [] && s.here == [] && NewIsRight(s, react, alarm, Wrapped(tick))
    ensures NewIsRight(Passed(s, react, tick), react, alarm, Wrapped(tick))
  {
    var own, inside, now := s.rest[0], Opened(s), Wrapped(tick);
    assert s.rest == [own] + s.rest[1..];
    if Fires(inside, own, now) && own in react {
      var entered := Entered(inside, own, tick);
      ActsOfNew(entered, react[own].acts, react, own, alarm, now);
      HereIsOwn(entered, react[own].acts, own, now);
      var acted := ActedAll(entered, react[own].acts, now);
      StoppedParts(acted, own);
    }
  }

  lemma {:induction false} WalkOfNew(s: Stage, react: map<Alarm, Reaction>, alarm: Alarm, tick: nat)
    requires s.here == [] && NewIsRight(s, react, alarm, Wrapped(tick))
    ensures NewIsRight(Walked(s, react, tick), react, alarm, Wrapped(tick))
    decreases |s.rest|
  {
    if s.rest != [] {
      VisitOfNew(s, react, alarm, tick);
      WalkOfNew(Passed(s, react, tick), react, alarm, tick);
    }
  }

  /** An alarm that a tick brings onto the list was started by a callback during it, and its timer is
      that of the period that callback gave. */
  lemma NewIsDue(v: View, react: map<Alarm, Reaction>, turns: nat, w: View, alarm: Alarm)
    requires Stepped(v, Ticking(react, turns), w) && AllSpare(LoopOf(v).s, react, v.clock + 1)
    requires alarm in w.listed && alarm !in v.listed
    ensures StartedNow(react, Wrapped(w.clock), alarm, w.timers[alarm])
  {
    var t := StraightTick(v, react, turns, w);
    WalkOfNew(LoopOf(v).s, react, alarm, v.clock + 1);
  }

  // ---- the whole list, if no callback stops another's alarm ----------------------------

  ghost predicate StopsOwnOnly(acts: seq<Act>, own: Alarm) {
    forall act :: act in acts && act.StopIt? ==> act.alarm == own
  }

  /** The alarms a callback puts on the list, last one first. */
  ghost function Started(acts: seq<Act>): (alarms: seq<Alarm>) {
    if acts == [] then []
    else Started(acts[1..]) + if acts[0].StartIt? then [acts[0].alarm] else []
  }

  /** The alarms newly on the list after walking `alarms`, of which those in `due` run. */
  ghost function NewOnes(alarms: seq<Alarm>, due: set<Alarm>, react: map<Alarm, Reaction>): (added: seq<Alarm>)
    requires due <= react.Keys
  {
    if alarms == [] then []
    else NewOnes(alarms[1..], due, react) + if alarms[0] in due then Started(react[alarms[0]].acts) else []
  }

  ghost predicate Stays(alarm: Alarm, due: set<Alarm>, react: map<Alarm, Reaction>)
    requires due <= react.Keys
  {
    alarm in due ==> Answer(react[alarm], alarm) != 0
  }

  ghost function Survivors(alarms: seq<Alarm>, due: set<Alarm>, react: map<Alarm, Reaction>): (kept: seq<Alarm>)
    requires due <= react.Keys
  {
    if alarms == [] then []
    else (if Stays(alarms[0], due, react) then [alarms[0]] else []) + Survivors(alarms[1..], due, react)
  }

  /** The callbacks run, in list order. */
  ghost function Runs(alarms: seq<Alarm>, due: set<Alarm>, tick: nat): (runs: seq<(Alarm, nat)>) {
    if alarms == [] then []
    else (if alarms[0] in due then [(alarms[0], tick)] else []) + Runs(alarms[1..], due, tick)
  }

  ghost predicate Plain(react: map<Alarm, Reaction>) {
    forall a :: a in react ==> StopsOwnOnly(react[a].acts, a) && LeavesOff(react[a].acts, [a])
  }

  lemma PlainAct(s: Stage, act: Act, own: Alarm, now: u32)
    requires AtPlace(s, own) && ActFits(s, act) && (act.StopIt? ==> act.alarm == own)
    ensures var t := Acted(s, act, now);
      && t.front == (if act.StartIt? then [act.alarm] else []) + s.front && t.rest == s.rest
      && forall a :: a in s.rest ==> (Fires(t, a, now) <==> Fires(s, a, now))
  {
    if act.StopIt? {
      WithoutAbsent(s.front, own);
      WithoutAbsent(s.rest, own);
    } else {
      assert forall a :: a in s.rest ==> a in Listed(s);
    }
  }

  lemma {:induction false} PlainActs(s: Stage, acts: seq<Act>, own: Alarm, now: u32)
    requires AtPlace(s, own) && ActsFit(s, acts, now) && StopsOwnOnly(acts, own) && LeavesOff(acts, [own])
    ensures var t := ActedAll(s, acts, now);
      && t.front == Started(acts) + s.front && t.rest == s.rest
      && forall a :: a in s.rest ==> (Fires(t, a, now) <==> Fires(s, a, now))
    decreases |acts|
  {
    if acts != [] {
      assert acts[0] in acts && forall act :: act in acts[1..] ==> act in acts;
      assert own in [own];
      PlainAct(s, acts[0], own, now);
      PlainActs(Acted(s, acts[0], now), acts[1..], own, now);
      Associates(Started(acts[1..]), if acts[0].StartIt? then [acts[0].alarm] else [], s.front);
    }
  }

  lemma PlainVisit(s: Stage, react: map<Alarm, Reaction>, tick: nat)
    requires s.rest != [] && s.here == [] && Distinct(Listed(s)) && s.rest[0] in s.timers && Plain(react)
    requires VisitFits(Opened(s), s.rest[0], react, tick)
    ensures var t, own, now := Passed(s, react, tick), s.rest[0], Wrapped(tick);
      var fires := Fires(s, own, now);
      && t.front == (if fires then Started(react[own].acts) else []) + s.front
                    + (if fires && Answer(react[own], own) == 0 then [] else [own])
      && t.rest == s.rest[1..] && t.log == s.log + (if fires then [(own, tick)] else [])
      && forall a :: a in t.rest ==> (Fires(t, a, now) <==> Fires(s, a, now))
  {
    OwnIsApart(s);
    if Fires(s, s.rest[0], Wrapped(tick)) {
      PlainRun(Opened(s), s.rest[0], react[s.rest[0]], tick);
    }
  }

  /** The callback of the alarm at its place, and its answer. */
  lemma PlainRun(s: Stage, own: Alarm, reaction: Reaction, tick: nat)
    requires AtPlace(s, own) && s.here == [own] && ActsFit(Entered(s, own, tick), reaction.acts, Wrapped(tick))
    requires StopsOwnOnly(reaction.acts, own) && LeavesOff(reaction.acts, [own])
    ensures var t, now := Ran(s, own, reaction, tick), Wrapped(tick);
      && t.front == Started(reaction.acts) + s.front && t.rest == s.rest && t.log == s.log + [(own, tick)]
      && t.here == (if Answer(reaction, own) == 0 then [] else [own])
      && forall a :: a in s.rest ==> (Fires(t, a, now) <==> Fires(s, a, now))
  {
    var acted := PlainActed(Entered(s, own, tick), reaction.acts, own, Wrapped(tick));
    PlainAnswer(acted, own, reaction.answer, Wrapped(tick));
  }

  lemma PlainActed(s: Stage, acts: seq<Act>, own: Alarm, now: u32) returns (t: Stage)
    requires AtPlace(s, own) && ActsFit(s, acts, now) && StopsOwnOnly(acts, own) && LeavesOff(acts, [own])
    ensures t == ActedAll(s, acts, now) && AtPlace(t, own) && t.here == (if StopsSelf(acts, own) then [] else s.here)
    ensures t.front == Started(acts) + s.front && t.rest == s.rest
    ensures forall a :: a in s.rest ==> (Fires(t, a, now) <==> Fires(s, a, now))
  {
    assert own in [own];
    PlainActs(s, acts, own, now);
    ActsOfOwn(s, acts, own, now);
    t := ActedAll(s, acts, now);
  }

  lemma PlainAnswer(s: Stage, own: Alarm, answer: u32, now: u32)
    requires AtPlace(s, own)
    ensures var t := Answered(s, own, answer, now);
      && t.front == s.front && t.rest == s.rest && t.here == (if answer == 0 then [] else s.here)
      && forall a :: a in s.rest ==> (Fires(t, a, now) <==> Fires(s, a, now))
  {
    WithoutAbsent(s.front, own);
    WithoutAbsent(s.rest, own);
  }

  /** Then every callback spares the alarm behind its own. */
  lemma PlainSpares(s: Stage, react: map<Alarm, Reaction>, tick: nat)
    requires s.rest != [] && s.here == [] && Distinct(Listed(s)) && Plain(react)
    ensures SparedHere(s, react, tick)
  {
    OwnIsApart(s);
    if |s.rest| > 1 {
      assert s.rest[1] in s.rest[1..];
    }
  }

  lemma {:induction false} PlainWalk(s: Stage, react: map<Alarm, Reaction>, due: set<Alarm>, tick: nat, n: nat)
    requires s.here == [] && Distinct(Listed(s)) && FitsFor(Walking(s), react, tick, n)
    requires AtHead(Turns(Walking(s), react, tick, n))
    requires due <= react.Keys && Plain(react) && forall a :: a in s.rest ==> a in s.timers
    requires forall a :: a in s.rest ==> (a in due <==> Fires(s, a, Wrapped(tick)))
    ensures AllSpare(s, react, tick)
    ensures var t := Walked(s, react, tick);
      && t.front == NewOnes(s.rest, due, react) + s.front + Survivors(s.rest, due, react)
      && t.log == s.log + Runs(s.rest, due, tick)
    decreases |s.rest|
  {
    if s.rest == [] {
      assert [] + s.front + [] == s.front;
    } else {
      var own, t := s.rest[0], Passed(s, react, tick);
      assert own in s.rest && forall a :: a in s.rest[1..] ==> a in s.rest;
      PlainSpares(s, react, tick);
      SparedTurn(s, react, tick);
      PlainVisit(s, react, tick);
      PlainWalk(t, react, due, tick, n - 1);
      ListUnfolds(s.rest, due, react, s.front, t.front);
      LogUnfolds(s.rest, due, tick, s.log);
    }
  }

  lemma ListUnfolds(alarms: seq<Alarm>, due: set<Alarm>, react: map<Alarm, Reaction>,
                    front: seq<Alarm>, next: seq<Alarm>)
    requires alarms != [] && due <= react.Keys
    requires next == (if alarms[0] in due then Started(react[alarms[0]].acts) else []) + front
                     + (if Stays(alarms[0], due, react) then [alarms[0]] else [])
    ensures NewOnes(alarms[1..], due, react) + next + Survivors(alarms[1..], due, react)
         == NewOnes(alarms, due, react) + front + Survivors(alarms, due, react)
  {
    Regroup(NewOnes(alarms[1..], due, react), if alarms[0] in due then Started(react[alarms[0]].acts) else [], front,
            if Stays(alarms[0], due, react) then [alarms[0]] else [], Survivors(alarms[1..], due, react));
  }

  lemma LogUnfolds(alarms: seq<Alarm>, due: set<Alarm>, tick: nat, log: seq<(Alarm, nat)>)
    requires alarms != []
    ensures log + (if alarms[0] in due then [(alarms[0], tick)] else []) + Runs(alarms[1..], due, tick)
         == log + Runs(alarms, due, tick)
  {
  }

  lemma Regroup<T>(a: seq<T>, b: seq<T>, c: seq<T>, d: seq<T>, e: seq<T>)
    ensures a + (b + c + d) + e == (a + b) + c + (d + e)
  {
  }

  /** Then exactly the alarms due run, in list order, and the list is left with those newly started
      followed by those that stay. */
  lemma PlainTick(v: View, react: map<Alarm, Reaction>, turns: nat, w: View, due: set<Alarm>)
    requires Stepped(v, Ticking(react, turns), w) && Plain(react) && due <= react.Keys
    requires forall a :: a in v.listed ==> (a in due <==> NextRun(v.timers[a], v.clock) == v.clock + 1)
    ensures w.listed == NewOnes(v.listed, due, react) + Survivors(v.listed, due, react)
    ensures w.log == v.log + Runs(v.listed, due, w.clock)
  {
    DueFires(v, due);
    var t := PlainLoop(v.listed, react, due, LoopOf(v).s, v.clock + 1, turns);
    Leaves(Turns(LoopOf(v), react, v.clock + 1, turns), t, v.clock + 1, w);
  }

  lemma DueFires(v: View, due: set<Alarm>)
    requires Sound(v)
    requires forall a :: a in v.listed ==> (a in due <==> NextRun(v.timers[a], v.clock) == v.clock + 1)
    ensures forall a :: a in v.listed ==> (a in due <==> Fires(LoopOf(v).s, a, Wrapped(v.clock + 1)))
  {
    forall a | a in v.listed
      ensures a in due <==> Fires(LoopOf(v).s, a, Wrapped(v.clock + 1))
    {
      AnyTimerRunsThen(v.timers[a], v.clock);
    }
  }

  lemma PlainLoop(listed: seq<Alarm>, react: map<Alarm, Reaction>, due: set<Alarm>, s: Stage, tick: nat, n: nat)
    returns (t: Stage)
    requires s.front == s.here == [] && s.rest == listed && Distinct(listed) && Plain(react)
    requires FitsFor(Walking(s), react, tick, n) && AtHead(Turns(Walking(s), react, tick, n))
    requires due <= react.Keys
    requires forall a :: a in listed ==> a in s.timers && (a in due <==> Fires(s, a, Wrapped(tick)))
    ensures Turns(Walking(s), react, tick, n) == Walking(t)
    ensures t.front == NewOnes(listed, due, react) + Survivors(listed, due, react)
    ensures t.log == s.log + Runs(listed, due, tick)
  {
    assert Listed(s) == listed;
    PlainWalk(s, react, due, tick, n);
    SparedFits(s, react, tick, n);
    t := Walked(s, react, tick);
    assert NewOnes(listed, due, react) + [] == NewOnes(listed, due, react);
  }

  // ---- whole runs ----------------------------------------------------------------------

  ghost predicate Run(views: seq<View>, steps: seq<Step>) {
    |views| == |steps| + 1 && forall k :: 0 <= k < |steps| ==> StepAt(views, steps, k)
  }

  ghost predicate StepAt(views: seq<View>, steps: seq<Step>, k: nat)
    requires k < |steps| < |views|
  {
    Stepped(views[k], steps[k], views[k + 1])
  }

  ghost predicate RunLeavesAlone(views: seq<View>, steps: seq<Step>, alarm: Alarm)
    requires |views| == |steps| + 1
  {
    forall k :: 0 <= k < |steps| ==> AloneAt(views, steps, alarm, k)
  }

  ghost predicate AloneAt(views: seq<View>, steps: seq<Step>, alarm: Alarm, k: nat)
    requires k < |steps| < |views|
  {
    LeavesAlone(views[k], steps[k], alarm)
  }

  /** What its callback answers during the run; stopping itself counts as zero. */
  ghost function AnswersOf(views: seq<View>, steps: seq<Step>, alarm: Alarm): (answers: seq<u32>)
    requires |views| == |steps| + 1
  {
    if steps == [] then []
    else AnswersAt(views[0], steps[0], alarm) + AnswersOf(views[1..], steps[1..], alarm)
  }

  lemma RunTail(views: seq<View>, steps: seq<Step>, alarm: Alarm)
    requires Run(views, steps) && RunLeavesAlone(views, steps, alarm) && steps != []
    ensures Run(views[1..], steps[1..]) && RunLeavesAlone(views[1..], steps[1..], alarm)
    ensures Last(views[1..]) == Last(views)
    ensures Stepped(views[0], steps[0], views[1]) && LeavesAlone(views[0], steps[0], alarm)
  {
    assert StepAt(views, steps, 0) && AloneAt(views, steps, alarm, 0);
    forall k: nat | k < |steps[1..]|
      ensures StepAt(views[1..], steps[1..], k) && AloneAt(views[1..], steps[1..], alarm, k)
    {
      assert StepAt(views, steps, k + 1) && AloneAt(views, steps, alarm, k + 1);
    }
  }

  /** One step, of either kind, on one alarm. */
  lemma StepOfOne(v: View, step: Step, w: View, alarm: Alarm)
    requires Stepped(v, step, w) && LeavesAlone(v, step, alarm)
    ensures alarm !in v.listed ==> alarm !in w.listed && TimesOf(w.log, alarm) == TimesOf(v.log, alarm)
  {
    if step.Ticking? {
      TickOfOne(v, step, w, alarm);
      assert TimesOf(v.log, alarm) + [] == TimesOf(v.log, alarm);
    } else {
      OtherStep(v, step, w, alarm);
    }
  }

  /** An alarm off the list stays off it, and does not run. */
  lemma {:induction false} OffStaysOff(views: seq<View>, steps: seq<Step>, alarm: Alarm)
    requires Run(views, steps) && RunLeavesAlone(views, steps, alarm) && alarm !in views[0].listed
    ensures alarm !in Last(views).listed
    ensures TimesOf(Last(views).log, alarm) == TimesOf(views[0].log, alarm)
    decreases |steps|
  {
    if steps != [] {
      RunTail(views, steps, alarm);
      StepOfOne(views[0], steps[0], views[1], alarm);
      OffStaysOff(views[1..], steps[1..], alarm);
    }
  }

  /** What is still to come of the firings of an alarm's timer, up to a tick. */
  ghost function ToCome(v: View, alarm: Alarm, last: nat, answers: seq<u32>): (times: seq<nat>)
    requires Sound(v) && v.clock <= last
  {
    if alarm in v.listed then Firings(v.timers[alarm], v.clock, last - v.clock, answers) else []
  }

  lemma FirstFiring(t: Timer, clock: nat, n: nat, answer: u32, rest: seq<u32>)
    requires n > 0 && NextRun(t, clock) == clock + 1
    ensures var now := Wrapped(clock + 1);
      Firings(t, clock, n, [answer] + rest) == [clock + 1] + if answer == 0 then []
        else Firings(Reload(Visit(t, now), answer, now), clock + 1, n - 1, rest)
  {
    AnyTimerRunsThen(t, clock);
    assert ([answer] + rest)[1..] == rest;
  }

  lemma NoFiring(t: Timer, clock: nat, n: nat, answers: seq<u32>)
    requires n > 0 && NextRun(t, clock) != clock + 1
    ensures Firings(t, clock, n, answers) == Firings(Visit(t, Wrapped(clock + 1)), clock + 1, n - 1, answers)
  {
    AnyTimerRunsThen(t, clock);
  }

  /** A tick takes from what is to come what it adds to the log: the firing, */
  lemma TickRuns(v: View, step: Step, w: View, alarm: Alarm, last: nat, rest: seq<u32>)
    requires Sound(v) && Sound(w) && step.Ticking? && TickedOne(v, step, w, alarm) && alarm in v.listed
    requires RunsNow(v, step, alarm) && w.clock == v.clock + 1 <= last
    ensures TimesOf(w.log, alarm) + ToCome(w, alarm, last, rest)
         == TimesOf(v.log, alarm) + ToCome(v, alarm, last, [Answer(step.react[alarm], alarm)] + rest)
  {
    FirstFiring(v.timers[alarm], v.clock, last - v.clock, Answer(step.react[alarm], alarm), rest);
    assert TimesOf(v.log, alarm) + [w.clock] + [] == TimesOf(v.log, alarm) + [w.clock];
    Associates(TimesOf(v.log, alarm), [w.clock], ToCome(w, alarm, last, rest));
  }

  /** or nothing. */
  lemma TickPasses(v: View, step: Step, w: View, alarm: Alarm, last: nat, rest: seq<u32>)
    requires Sound(v) && Sound(w) && step.Ticking? && TickedOne(v, step, w, alarm) && alarm in v.listed
    requires !RunsNow(v, step, alarm) && w.clock == v.clock + 1 <= last
    ensures TimesOf(w.log, alarm) + ToCome(w, alarm, last, rest) == TimesOf(v.log, alarm) + ToCome(v, alarm, last, rest)
  {
    NoFiring(v.timers[alarm], v.clock, last - v.clock, rest);
  }

  lemma TickTakes(v: View, step: Step, w: View, alarm: Alarm, last: nat, rest: seq<u32>)
    requires Stepped(v, step, w) && step.Ticking? && LeavesAlone(v, step, alarm) && alarm in v.listed
    requires w.clock <= last
    ensures TimesOf(w.log, alarm) + ToCome(w, alarm, last, rest)
         == TimesOf(v.log, alarm) + ToCome(v, alarm, last, AnswersAt(v, step, alarm) + rest)
  {
    TickOfOne(v, step, w, alarm);
    if RunsNow(v, step, alarm) {
      TickRuns(v, step, w, alarm, last, rest);
    } else {
      assert AnswersAt(v, step, alarm) + rest == rest;
      TickPasses(v, step, w, alarm, last, rest);
    }
  }

  lemma StepTakes(v: View, step: Step, w: View, alarm: Alarm, last: nat, rest: seq<u32>)
    requires Stepped(v, step, w) && LeavesAlone(v, step, alarm) && w.clock <= last
    ensures v.clock <= w.clock
    ensures TimesOf(w.log, alarm) + ToCome(w, alarm, last, rest)
         == TimesOf(v.log, alarm) + ToCome(v, alarm, last, AnswersAt(v, step, alarm) + rest)
  {
    if alarm !in v.listed {
      StepOfOne(v, step, w, alarm);
    } else if step.Ticking? {
      TickTakes(v, step, w, alarm, last, rest);
    } else {
      OtherStep(v, step, w, alarm);
      assert AnswersAt(v, step, alarm) + rest == rest;
    }
  }

  lemma {:induction false} RunTakes(views: seq<View>, steps: seq<Step>, alarm: Alarm, last: nat)
    requires Run(views, steps) && RunLeavesAlone(views, steps, alarm) && Sound(views[0])
    requires last == Last(views).clock
    ensures views[0].clock <= last
    ensures TimesOf(Last(views).log, alarm)
         == TimesOf(views[0].log, alarm) + ToCome(views[0], alarm, last, AnswersOf(views, steps, alarm))
    decreases |steps|
  {
    if steps == [] {
      assert TimesOf(views[0].log, alarm) + [] == TimesOf(views[0].log, alarm);
    } else {
      RunTail(views, steps, alarm);
      RunTakes(views[1..], steps[1..], alarm, last);
      StepTakes(views[0], steps[0], views[1], alarm, last, AnswersOf(views[1..], steps[1..], alarm));
    }
  }

  lemma ToComeIs(v: View, alarm: Alarm, last: nat, answers: seq<u32>)
    requires Sound(v) && v.clock <= last && alarm in v.listed
    ensures ToCome(v, alarm, last, answers) == Firings(v.timers[alarm], v.clock, last - v.clock, answers)
  {
  }

  /** From when it is on the list, an alarm runs exactly when its timer, left to itself, would fire,
      whatever else is started, stopped or run meanwhile and however often the counter wraps. */
  lemma RunsOnTime(views: seq<View>, steps: seq<Step>, alarm: Alarm, last: nat, answers: seq<u32>)
    requires Run(views, steps) && RunLeavesAlone(views, steps, alarm)
    requires last == Last(views).clock && answers == AnswersOf(views, steps, alarm)
    requires Sound(views[0]) && alarm in views[0].listed
    ensures views[0].clock <= last
    ensures TimesOf(Last(views).log, alarm) == TimesOf(views[0].log, alarm)
              + Firings(views[0].timers[alarm], views[0].clock, last - views[0].clock, answers)
  {
    RunTakes(views, steps, alarm, last);
    ToComeIs(views[0], alarm, last, answers);
    Replaces(TimesOf(Last(views).log, alarm), TimesOf(views[0].log, alarm), ToCome(views[0], alarm, last, answers),
             Firings(views[0].timers[alarm], views[0].clock, last - views[0].clock, answers));
  }

  lemma Replaces<T>(all: seq<T>, before: seq<T>, x: seq<T>, y: seq<T>)
    requires all == before + x && x == y
    ensures all == before + y
  {
  }

  /** If it is armed for a due time, early or not, these are the ticks of its schedule. */
  lemma RunsOnSchedule(views: seq<View>, steps: seq<Step>, alarm: Alarm, due: Due, last: nat, answers: seq<u32>)
    requires Run(views, steps) && RunLeavesAlone(views, steps, alarm)
    requires last == Last(views).clock && answers == AnswersOf(views, steps, alarm)
    requires Sound(views[0]) && alarm in views[0].listed
    requires ArmedFor(views[0].timers[alarm], views[0].clock, due)
    ensures TimesOf(Last(views).log, alarm) == TimesOf(views[0].log, alarm) + TrueSchedule(due, last, answers)
  {
    RunsOnTime(views, steps, alarm, last, answers);
    ArmedTimes(TimesOf(views[0].log, alarm), TimesOf(Last(views).log, alarm), views[0].timers[alarm], views[0].clock,
               due, last, answers);
  }

  lemma ArmedTimes(before: seq<nat>, after: seq<nat>, t: Timer, clock: nat, due: Due, last: nat, answers: seq<u32>)
    requires ArmedFor(t, clock, due) && clock <= last && after == before + Firings(t, clock, last - clock, answers)
    ensures after == before + TrueSchedule(due, last, answers)
  {
    ArmedUntil(t, clock, due, last, answers);
  }

  lemma ArmedUntil(t: Timer, clock: nat, due: Due, last: nat, answers: seq<u32>)
    requires ArmedFor(t, clock, due) && clock <= last
    ensures Firings(t, clock, last - clock, answers) == TrueSchedule(due, last, answers)
  {
    ArmedFollowsSchedule(t, clock, due, last - clock, answers);
  }

  /** So an alarm that has just been started runs first one tick after its period and then each time as
      many ticks later as its callback asked, unless its period is the longest. */
  lemma StartedRunsOnSchedule(views: seq<View>, steps: seq<Step>, before: View, alarm: Alarm, period: u32,
                              last: nat, answers: seq<u32>)
    requires Run(views, steps) && RunLeavesAlone(views, steps, alarm)
    requires last == Last(views).clock && answers == AnswersOf(views, steps, alarm)
    requires Stepped(before, Starting(alarm, period), views[0]) && period < WRAP - 1
    ensures TimesOf(Last(views).log, alarm)
         == TimesOf(before.log, alarm) + Schedule(before.clock + period + 1, last, answers)
  {
    StartArmsFor(period, before.clock);
    RunsOnSchedule(views, steps, alarm, StartDue(before.clock, period), last, answers);
    SchedulesAgree(before.clock + period + 1, last, answers);
  }
}
