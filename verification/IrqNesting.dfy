/** Interrupt nesting: handlers that let higher priorities in, the mask they leave behind, and the
    dispatcher's choice. */
module IrqNesting {

  type Lines = bv32

  const ALL: Lines := 0xFFFF_FFFF

  // ---- interrupt numbers as bits -------------------------------------------------------

  function Twice(w: Lines): (v: Lines) { w << 1 }

  function TwiceAndOne(w: Lines): (v: Lines) { (w << 1) | 1 }

  /** 1 << n. */
  function Bit(n: nat): (w: Lines) { if n == 0 then 1 else Twice(Bit(n - 1)) }

  /** (1 << n) - 1: the numbers below n. */
  function LowerThan(n: nat): (w: Lines) { Bit(n) - 1 }

  function Below(n: nat): (w: Lines) { if n == 0 then 0 else TwiceAndOne(Below(n - 1)) }

  predicate Has(lines: Lines, n: nat) { Both(lines, Bit(n)) != 0 }

  function Both(a: Lines, b: Lines): (c: Lines) { a & b }

  lemma LessOne(bit: Lines, below: Lines)
    requires bit - 1 == below && bit & 0x8000_0000 == 0
    ensures Twice(bit) - 1 == TwiceAndOne(below)
  {
  }

  lemma {:induction false} LowerThanIsBelow(n: nat)
    requires n < 32
    ensures LowerThan(n) == Below(n)
  {
    if n > 0 {
      LowerThanIsBelow(n - 1);
      BitIsSmall(n - 1);
      LessOne(Bit(n - 1), Below(n - 1));
    }
  }

  lemma BitIsSmall(n: nat)
    requires n < 31
    ensures Bit(n) & 0x8000_0000 == 0
  {
    assert Bit(8) == 0x100 && Bit(16) == 0x1_0000 && Bit(24) == 0x100_0000 && Bit(30) == 0x4000_0000;
  }

  lemma StaysApart(below: Lines, bit: Lines)
    requires Both(below, bit) == 0
    ensures Both(TwiceAndOne(below), Twice(bit)) == 0
  {
  }

  lemma NoneBelowZero(bit: Lines)
    ensures Both(0, bit) == 0 && Both(bit, 0) == 0
  {
  }

  lemma {:induction false} BelowExcludes(p: nat, i: nat)
    requires p <= i
    ensures Both(Below(p), Bit(i)) == 0
  {
    if p == 0 {
      NoneBelowZero(Bit(i));
    } else {
      BelowExcludes(p - 1, i - 1);
      StaysApart(Below(p - 1), Bit(i - 1));
    }
  }

  lemma InBoth(a: Lines, b: Lines, bit: Lines)
    requires Both(Both(a, b), bit) != 0
    ensures Both(a, bit) != 0 && Both(b, bit) != 0
  {
  }

  /** What passes the mask of priority p has a lower number, that is, a higher priority. */
  lemma MaskedIsLower(lines: Lines, p: nat, i: nat)
    requires p < 32 && Has(Both(lines, LowerThan(p)), i)
    ensures i < p
  {
    InBoth(lines, LowerThan(p), Bit(i));
    LowerThanIsBelow(p);
    if p <= i {
      BelowExcludes(p, i);
    }
  }

  // ---- dispatch ------------------------------------------------------------------------

  predicate Lowest(lines: Lines, i: nat) {
    i < 32 && Has(lines, i) && forall k :: 0 <= k < i ==> !Has(lines, k)
  }

  lemma JoinedGrows(below: Lines, bit: Lines)
    ensures TwiceAndOne(below | bit) == TwiceAndOne(below) | Twice(bit)
  {
  }

  lemma {:induction false} BelowGrows(n: nat)
    ensures Below(n + 1) == Below(n) | Bit(n)
  {
    if n > 0 {
      BelowGrows(n - 1);
      JoinedGrows(Below(n - 1), Bit(n - 1));
    }
  }

  lemma NeitherPart(lines: Lines, below: Lines, bit: Lines)
    requires Both(lines, below) == 0 && Both(lines, bit) == 0
    ensures Both(lines, below | bit) == 0
  {
  }

  lemma NoneBelow(lines: Lines, n: nat)
    requires Both(lines, Below(n)) == 0 && !Has(lines, n)
    ensures Both(lines, Below(n + 1)) == 0
  {
    BelowGrows(n);
    NeitherPart(lines, Below(n), Bit(n));
  }

  lemma Below32()
    ensures Below(32) == ALL
  {
    assert Below(8) == 0xFF && Below(16) == 0xFFFF && Below(24) == 0xFF_FFFF;
  }

  lemma AllOf(lines: Lines)
    ensures Both(lines, ALL) == lines
  {
  }

  /** The scan of the dispatcher: one bit after the other, from the lowest. */
  method FirstActive(active: Lines) returns (i: nat)
    requires active != 0
    ensures Lowest(active, i)
  {
    i := 0;
    var mask: Lines := 1;
    NoneBelowZero(active);
    Below32();
    AllOf(active);
    while Both(active, mask) == 0
      invariant i < 32 && mask == Bit(i)
      invariant Both(active, Below(i)) == 0
      invariant forall k :: 0 <= k < i ==> !Has(active, k)
      decreases 32 - i
    {
      NoneBelow(active, i);
      mask := Twice(mask);
      i := i + 1;
    }
  }

  /** The lowest number from n on that is set. */
  function LowestFrom(lines: Lines, n: nat): (i: nat)
    decreases 31 - n
  {
    if n >= 31 || Has(lines, n) then n else LowestFrom(lines, n + 1)
  }

  /** It is what the scan finds: a set of lines has only one lowest. */
  lemma {:induction false} LowestIsUnique(lines: Lines, n: nat, i: nat)
    requires Lowest(lines, i) && n <= i
    ensures LowestFrom(lines, n) == i
    decreases i - n
  {
    if n < i {
      LowestIsUnique(lines, n + 1, i);
    }
  }

  /** And there is one as soon as a line is set. */
  lemma {:induction false} LowestExists(lines: Lines, n: nat)
    requires lines != 0 && n < 32 && Both(lines, Below(n)) == 0
    requires forall k :: 0 <= k < n ==> !Has(lines, k)
    ensures Lowest(lines, LowestFrom(lines, n))
    decreases 32 - n
  {
    if !Has(lines, n) {
      NoneBelow(lines, n);
      if n == 31 {
        Below32();
        AllOf(lines);
        assert false;
      }
      LowestExists(lines, n + 1);
    }
  }

  // ---- runs ----------------------------------------------------------------------------
  // An arrival is an interrupt exception: the lines asserted at its start and, for every
  // handler it dispatches in turn, what the handler does and the lines asserted when it
  // returns; after the last one no line is.

  datatype Arrival = Arrival(lines: Lines, passes: seq<Pass>)

  datatype Pass = Pass(body: Body, linesAfter: Lines)

  /** A handler that keeps interrupts off, or one that brackets a stretch in which the given
      arrivals may fall. */
  datatype Body = Plain | Interruptible(nested: seq<Arrival>)

  /** One entry into a handler: its number, the lines pending then, and the handlers running,
      itself included. */
  datatype Dispatch = Dispatch(number: nat, pending: Lines, running: seq<nat>)

  predicate Decreasing(s: seq<nat>) {
    && (forall k :: 0 <= k < |s| ==> s[k] < 32)
    && (forall j, k :: 0 <= j < k < |s| ==> s[j] > s[k])
  }

  function MaskOf(running: seq<nat>): (mask: Lines) {
    if running == [] then ALL else LowerThan(running[|running| - 1])
  }

  /** The dispatcher chose the highest priority pending, and the running handlers form a stack of
      rising priority on top of these. */
  predicate Proper(d: Dispatch, below: seq<nat>) {
    && Lowest(d.pending, d.number)
    && Decreasing(d.running) && below < d.running && d.running[|d.running| - 1] == d.number
  }

  lemma {:induction false} PendingIsLower(active: Lines, running: seq<nat>, lines: Lines, i: nat)
    requires Decreasing(running) && i < 32 && Has(Both(lines, Both(active, MaskOf(running))), i)
    ensures Decreasing(running + [i])
  {
    InBoth(lines, Both(active, MaskOf(running)), Bit(i));
    if running != [] {
      MaskedIsLower(active, running[|running| - 1], i);
    }
  }

  /** What the hardware lets through: the enabled lines the innermost running handler leaves. */
  function Pending(lines: Lines, active: Lines, running: seq<nat>): (pending: Lines) {
    Both(lines, Both(active, MaskOf(running)))
  }

  // The handlers entered, in order, when an arrival meets the given enables and running handlers.

  ghost function Trace(arrival: Arrival, active: Lines, running: seq<nat>): (log: seq<Dispatch>)
    decreases arrival
  {
    PassesTrace(arrival.lines, arrival.passes, active, running)
  }

  /** The entry for the highest priority pending. */
  function First(lines: Lines, active: Lines, running: seq<nat>): (d: Dispatch) {
    var pending := Pending(lines, active, running);
    var i := LowestFrom(pending, 0);
    Dispatch(i, pending, running + [i])
  }

  ghost function PassesTrace(lines: Lines, passes: seq<Pass>, active: Lines, running: seq<nat>): (log: seq<Dispatch>)
    decreases passes
  {
    if Pending(lines, active, running) == 0 || passes == [] then []
    else PassTrace(lines, passes[0], active, running) + PassesTrace(passes[0].linesAfter, passes[1..], active, running)
  }

  /** That entry and what falls into its handler. */
  ghost function PassTrace(lines: Lines, pass: Pass, active: Lines, running: seq<nat>): (log: seq<Dispatch>)
    decreases pass
  {
    [First(lines, active, running)] + BodyTrace(pass.body, active, First(lines, active, running).running)
  }

  /** Serving pass k takes its share off the front of the trace. */
  lemma TraceStep(lines: Lines, passes: seq<Pass>, k: nat, after: Lines, active: Lines, running: seq<nat>,
                  before: seq<Dispatch>, all: seq<Dispatch>)
    requires k < |passes| && Pending(lines, active, running) != 0
    requires k + 1 < |passes| ==> after == passes[k].linesAfter
    requires before + PassesTrace(lines, passes[k..], active, running) == all
    ensures before + PassTrace(lines, passes[k], active, running)
              + PassesTrace(after, passes[k + 1..], active, running) == all
  {
    assert passes[k..][1..] == passes[k + 1..];
  }

  ghost function BodyTrace(body: Body, active: Lines, running: seq<nat>): (log: seq<Dispatch>)
    decreases body
  {
    match body
    case Plain => []
    case Interruptible(nested) => NestedTrace(nested, active, running)
  }

  ghost function NestedTrace(nested: seq<Arrival>, active: Lines, running: seq<nat>): (log: seq<Dispatch>)
    decreases nested
  {
    if nested == [] then []
    else Trace(nested[0], active, running) + NestedTrace(nested[1..], active, running)
  }

  ghost predicate AllProper(log: seq<Dispatch>, below: seq<nat>) {
    forall k :: 0 <= k < |log| ==> Proper(log[k], below)
  }

  lemma Joined<T>(before: seq<T>, after: seq<T>, all: seq<T>)
    requires all == before + after
    ensures all[|before|..] == after
  {
  }

  lemma ProperWithin(log: seq<Dispatch>, inner: seq<nat>, below: seq<nat>)
    requires AllProper(log, inner) && below <= inner
    ensures AllProper(log, below)
  {
  }

  /** Every entry of a trace dispatches the highest priority pending, to a handler that outranks all
      those running. */
  lemma {:induction false} TraceIsProper(arrival: Arrival, active: Lines, running: seq<nat>)
    requires Decreasing(running)
    ensures AllProper(Trace(arrival, active, running), running)
    decreases arrival
  {
    PassesAreProper(arrival.lines, arrival.passes, active, running);
  }

  lemma {:induction false} PassesAreProper(lines: Lines, passes: seq<Pass>, active: Lines, running: seq<nat>)
    requires Decreasing(running)
    ensures AllProper(PassesTrace(lines, passes, active, running), running)
    decreases passes
  {
    if Pending(lines, active, running) != 0 && passes != [] {
      PassIsProper(lines, passes[0], active, running);
      PassesAreProper(passes[0].linesAfter, passes[1..], active, running);
    }
  }

  lemma {:induction false} PassIsProper(lines: Lines, pass: Pass, active: Lines, running: seq<nat>)
    requires Decreasing(running) && Pending(lines, active, running) != 0
    ensures AllProper(PassTrace(lines, pass, active, running), running)
    decreases pass
  {
    var first := First(lines, active, running);
    FirstIsProper(lines, active, running);
    BodyIsProper(pass.body, active, first.running);
    ProperWithin(BodyTrace(pass.body, active, first.running), first.running, running);
  }

  lemma FirstIsProper(lines: Lines, active: Lines, running: seq<nat>)
    requires Decreasing(running) && Pending(lines, active, running) != 0
    ensures Proper(First(lines, active, running), running)
  {
    var pending := Pending(lines, active, running);
    NoneBelowZero(pending);
    LowestExists(pending, 0);
    PendingIsLower(active, running, lines, LowestFrom(pending, 0));
  }

  lemma {:induction false} BodyIsProper(body: Body, active: Lines, running: seq<nat>)
    requires Decreasing(running)
    ensures AllProper(BodyTrace(body, active, running), running)
    decreases body
  {
    if body.Interruptible? {
      NestedIsProper(body.nested, active, running);
    }
  }

  lemma {:induction false} NestedIsProper(nested: seq<Arrival>, active: Lines, running: seq<nat>)
    requires Decreasing(running)
    ensures AllProper(NestedTrace(nested, active, running), running)
    decreases nested
  {
    if nested != [] {
      TraceIsProper(nested[0], active, running);
      NestedIsProper(nested[1..], active, running);
    }
  }

  class Controller {
    var active: Lines
    var mask: Lines
    var ienable: Lines
    var enabled: bool
    ghost var running: seq<nat>
    ghost var log: seq<Dispatch>

    /** The mask is that of the innermost running handler, and the hardware lets through the
        enabled lines it leaves. */
    ghost predicate Settled()
      reads this
    {
      Decreasing(running) && mask == MaskOf(running) && ienable == Both(active, mask)
    }

    constructor ()
      ensures Settled() && running == [] && log == [] && active == 0 && !enabled
    {
      active, mask, ienable, enabled, running, log := 0, ALL, 0, false, [], [];
      new;
      NoneBelowZero(ALL);
    }

    /** Let higher priorities interrupt the handler of this number. */
    method MakeInterruptible(priority: nat) returns (oldPriority: Lines)
      requires priority < 32
      modifies this`mask, this`ienable, this`enabled
      ensures oldPriority == old(mask) && mask == LowerThan(priority)
      ensures ienable == Both(active, mask) && enabled
    {
      oldPriority := mask;
      mask := Bit(priority) - 1;
      ienable := Both(active, mask);
      enabled := true;
    }

    method MakeNonInterruptible(oldMask: Lines)
      modifies this`mask, this`ienable, this`enabled
      ensures !enabled && mask == oldMask && ienable == Both(active, oldMask)
    {
      enabled := false;
      mask := oldMask;
      ienable := Both(active, oldMask);
    }

    /** Enabling a line writes the enables without regard to the mask: outside handlers that is
        what the mask asks for, inside a bracket only if no line it shuts out is enabled. */
    method Enable(id: nat)
      requires id < 32 && Settled()
      modifies this`active, this`ienable
      ensures active == old(active) | Bit(id) && ienable == active
      ensures Settled() <==> active == Both(active, mask)
      ensures running == [] ==> Settled()
    {
      active := active | Bit(id);
      ienable := active;
      AllOf(active);
    }

    /** Disabling one, likewise. */
    method Disable(id: nat)
      requires id < 32 && Settled()
      modifies this`active, this`ienable
      ensures active == old(active) & !Bit(id) && ienable == active
      ensures Settled() <==> active == Both(active, mask)
      ensures running == [] ==> Settled()
    {
      active := active & !Bit(id);
      ienable := active;
      AllOf(active);
    }

    /** The numbers entered since, each properly. */
    ghost predicate LogGrew(before: seq<Dispatch>, below: seq<nat>)
      reads this
    {
      before <= log && AllProper(log[|before|..], below)
    }

    /** Everything the handlers and nested exceptions changed is put back. */
    twostate predicate Restored()
      reads this
    {
      active == old(active) && mask == old(mask) && ienable == old(ienable) && running == old(running)
    }

    /** An exception is taken when interrupts are on and a line gets through; the handlers entered
        are those of its trace, and everything else it changes is put back. */
    method Take(arrival: Arrival)
      requires Settled() && enabled
      modifies this
      ensures Settled() && enabled && Restored()
      ensures log == old(log) + Trace(arrival, active, running) && LogGrew(old(log), running)
      decreases arrival
    {
      var pending := Both(arrival.lines, ienable);
      if pending == 0 || arrival.passes == [] {
        return;
      }
      enabled := false;
      Dispatcher(arrival);
      enabled := true;
    }

    /** The dispatcher: run the handler of the highest priority pending until none is. */
    method Dispatcher(arrival: Arrival)
      requires Settled() && !enabled && arrival.passes != [] && Both(arrival.lines, ienable) != 0
      modifies this
      ensures Settled() && !enabled && Restored()
      ensures log == old(log) + Trace(arrival, active, running) && LogGrew(old(log), running)
      decreases arrival, 0
    {
      var lines := arrival.lines;
      var pending := Both(lines, ienable);
      var k := 0;
      while pending != 0
        invariant 0 <= k <= |arrival.passes| && (k == |arrival.passes| ==> pending == 0)
        invariant Settled() && !enabled && pending == Both(lines, ienable) && Restored()
        invariant log + PassesTrace(lines, arrival.passes[k..], active, running)
                  == old(log) + Trace(arrival, active, running)
        decreases |arrival.passes| - k
      {
        var after := if k + 1 == |arrival.passes| then 0 else arrival.passes[k].linesAfter;
        TraceStep(lines, arrival.passes, k, after, active, running, log, old(log) + Trace(arrival, active, running));
        DispatchFirst(lines, arrival.passes[k]);
        lines := after;
        k := k + 1;
        pending := Both(lines, ienable);
        NoneBelowZero(ienable);
      }
      TraceIsProper(arrival, active, running);
      Joined(old(log), Trace(arrival, active, running), log);
    }

    /** Find the lowest number set, whose handler is about to be entered. */
    method Choose(lines: Lines) returns (i: nat)
      requires Settled() && Both(lines, ienable) != 0
      modifies this`log
      ensures log == old(log) + [First(lines, active, running)]
      ensures running + [i] == First(lines, active, running).running && Decreasing(running + [i])
    {
      var pending := Both(lines, ienable);
      i := FirstActive(pending);
      LowestIsUnique(pending, 0, i);
      PendingIsLower(active, running, lines, i);
      log := log + [Dispatch(i, pending, running + [i])];
    }

    /** One turn of the dispatcher's loop. */
    method DispatchFirst(lines: Lines, pass: Pass)
      requires Settled() && !enabled && Both(lines, ienable) != 0
      modifies this
      ensures Settled() && !enabled && Restored()
      ensures log == old(log) + PassTrace(lines, pass, active, running)
      decreases pass
    {
      var i := Choose(lines);
      Handle(i, pass.body);
    }

    /** A handler keeps interrupts off, or lets higher priorities in for a while. */
    method Handle(i: nat, body: Body)
      requires Settled() && !enabled && Decreasing(running + [i])
      modifies this
      ensures Settled() && !enabled && Restored()
      ensures log == old(log) + BodyTrace(body, active, running + [i]) && LogGrew(old(log), running + [i])
      decreases body
    {
      match body
      case Plain =>
      case Interruptible(nested) =>
        ghost var outside := running;
        running := running + [i];
        assert running[|running| - 1] == i;
        var oldMask := MakeInterruptible(i);
        TakeAll(nested);
        MakeNonInterruptible(oldMask);
        running := running[..|running| - 1];
        assert running == outside;
    }

    /** The arrivals that fall into a handler's bracket. */
    method TakeAll(nested: seq<Arrival>)
      requires Settled() && enabled
      modifies this
      ensures Settled() && enabled && Restored()
      ensures log == old(log) + NestedTrace(nested, active, running) && LogGrew(old(log), running)
      decreases nested
    {
      if nested != [] {
        Take(nested[0]);
        TakeAll(nested[1..]);
      }
      NestedIsProper(nested, active, running);
      Joined(old(log), NestedTrace(nested, active, running), log);
    }
  }
}
