/** Wall-clock time kept as an offset from the tick counter. */
module TimeOfDay {
  import opened Quotients

  const US := 1_000_000
  const WORDS := 0x1_0000_0000
  const HALF := 0x8000_0000

  datatype Time = Time(sec: int, usec: int)

  /** Assigning a 32-bit word to a signed one. */
  function Signed32(x: int): (y: int)
    ensures -HALF <= y < HALF
    ensures -HALF <= x < HALF ==> y == x
  {
    (x + 0x8000_0000) % 0x1_0000_0000 - 0x8000_0000
  }

  lemma SignedSum(a: int, b: int)
    ensures Signed32(Signed32(a) + b) == Signed32(a + b)
  {
  }

  /** Microseconds per tick, rounded down. */
  function PerTick(rate: nat): (us: nat)
    requires rate > 0
  {
    Div(US, rate)
  }

  function Micros(n: nat, rate: nat): (m: nat)
    requires rate > 0
  {
    n * PerTick(rate)
  }

  /** The fraction of a second settimeofday takes off: the product is a 32-bit one. */
  function SetFraction(n: nat, rate: nat): (f: nat)
    requires rate > 0
    ensures f < US
  {
    Micros(n, rate) % 0x1_0000_0000 % 1_000_000
  }

  /** The fraction gettimeofday puts back: here the product has 64 bits. */
  function GetFraction(n: nat, rate: nat): (f: nat)
    requires rate > 0
    ensures f < US
  {
    Micros(n, rate) % 1_000_000
  }

  /** The offset recorded when the time is set at tick n. */
  function Offset(t: Time, n: nat, rate: nat): (r: Time)
    requires rate > 0
  {
    Time(Signed32(t.sec - Div(n, rate)), Signed32(t.usec - SetFraction(n, rate)))
  }

  /** The sum of the offset and the time since reset, before it is normalised. */
  function Raw(r: Time, n: nat, rate: nat): (t: Time)
    requires rate > 0
  {
    Time(Signed32(r.sec + Div(n, rate)), Signed32(r.usec + GetFraction(n, rate)))
  }

  /** What the two adjusting loops make of a time; one before the epoch is clamped to it. */
  function Adjusted(t: Time): (a: Time)
    decreases if t.usec < 0 then US - t.usec else t.usec
  {
    if t.usec < 0 then
      if t.sec <= 0 then Time(0, 0) else Adjusted(Time(t.sec - 1, t.usec + US))
    else if t.usec >= US then Adjusted(Time(t.sec + 1, t.usec - US))
    else t
  }

  function Read(r: Time, n: nat, rate: nat): (t: Time)
    requires rate > 0
  {
    Adjusted(Raw(r, n, rate))
  }

  // ---- meaning -------------------------------------------------------------------------

  function Total(t: Time): (us: int) { t.sec * 1_000_000 + t.usec }

  predicate Normal(t: Time) { 0 <= t.sec < HALF && 0 <= t.usec < US }

  lemma NormalIsUnique(a: Time, b: Time)
    requires 0 <= a.usec < US && 0 <= b.usec < US && Total(a) == Total(b)
    ensures a == b
  {
  }

  lemma {:induction false} AdjustedDown(t: Time)
    requires t.usec >= 0
    ensures 0 <= Adjusted(t).usec < US && Total(Adjusted(t)) == Total(t)
    decreases t.usec
  {
    if t.usec >= US {
      var next := Time(t.sec + 1, t.usec - US);
      assert Total(next) == Total(t);
      AdjustedDown(next);
    }
  }

  lemma {:induction false} AdjustedUp(t: Time)
    requires t.sec >= 0 > t.usec
    ensures 0 <= Adjusted(t).usec < US
    ensures Total(Adjusted(t)) == if Total(t) < 0 then 0 else Total(t)
    decreases -t.usec
  {
    if t.sec > 0 {
      var next := Time(t.sec - 1, t.usec + US);
      assert Total(next) == Total(t);
      if next.usec < 0 {
        AdjustedUp(next);
      } else {
        AdjustedDown(next);
      }
    }
  }

  /** Adjusting keeps the time; one before the epoch is clamped to it, but only if its microseconds
      are negative. */
  lemma AdjustedMeans(t: Time)
    ensures 0 <= Adjusted(t).usec < US
    ensures Total(Adjusted(t)) == if t.usec < 0 && Total(t) < 0 then 0 else Total(t)
  {
    if t.usec < 0 {
      if t.sec >= 0 {
        AdjustedUp(t);
      }
    } else {
      AdjustedDown(t);
    }
  }

  // ---- reading back --------------------------------------------------------------------

  /** The 32-bit product loses no microseconds at this tick: what it drops is a whole number of
      seconds. */
  predicate ProductExact(n: nat, rate: nat)
    requires rate > 0
  {
    Micros(n, rate) / 0x1_0000_0000 % 15625 == 0
  }

  lemma DroppedSeconds(q: nat)
    ensures q * 0x1_0000_0000 % 1_000_000 == 0 <==> q % 15625 == 0
  {
    if q % 15625 == 0 {
      WholeSeconds(q, q / 15625);
    }
    if q * 0x1_0000_0000 % 1_000_000 == 0 {
      WholeMultiple(q, q * 0x1_0000_0000 / 1_000_000);
    }
  }

  lemma WholeSeconds(q: nat, k: nat)
    requires q == 15625 * k
    ensures q * 0x1_0000_0000 % 1_000_000 == 0
  {
    MillionDivides(q * 0x1_0000_0000, 67108864 * k);
  }

  lemma MillionDivides(x: nat, j: nat)
    requires x == 1_000_000 * j
    ensures x % 1_000_000 == 0
  {
  }

  /** 67108864 * 12659 is one more than a multiple of 15625. */
  lemma WholeMultiple(q: nat, m: nat)
    requires q * 0x1_0000_0000 == 1_000_000 * m
    ensures q % 15625 == 0
  {
    assert q == 15625 * (12659 * m - 54369991 * q);
  }

  lemma SameFraction(a: nat, r: nat)
    ensures (a + r) % 1_000_000 == r % 1_000_000 <==> a % 1_000_000 == 0
  {
  }

  lemma FractionsAgree(n: nat, rate: nat)
    requires rate > 0
    ensures SetFraction(n, rate) == GetFraction(n, rate) <==> ProductExact(n, rate)
  {
    WordFraction(Micros(n, rate));
  }

  lemma WordFraction(x: nat)
    ensures x % 0x1_0000_0000 % 1_000_000 == x % 1_000_000 <==> x / 0x1_0000_0000 % 15625 == 0
  {
    var q, r := x / 0x1_0000_0000, x % 0x1_0000_0000;
    DroppedSeconds(q);
    SameFraction(q * 0x1_0000_0000, r);
  }

  /** The clock is set to the epoch, and the product takes off more than is put back: the clamp
      makes up for it. */
  predicate SavedByClamp(t: Time, n: nat, rate: nat)
    requires rate > 0
  {
    Total(t) == 0 && GetFraction(n, rate) < SetFraction(n, rate)
  }

  /** Reading the time at the tick it was set gives back the time set exactly when the 32-bit
      product was exact, or the clamp hid that it was not. */
  lemma ImmediateReadExactlyWhen(t: Time, n: nat, rate: nat)
    requires rate > 0 && Normal(t)
    ensures Read(Offset(t, n, rate), n, rate) == t <==> ProductExact(n, rate) || SavedByClamp(t, n, rate)
  {
    RawHere(t, n, rate);
    FractionsAreSmall(n, rate);
    ReadsBack(t, SetFraction(n, rate), GetFraction(n, rate));
    FractionsAgree(n, rate);
  }

  lemma RawHere(t: Time, n: nat, rate: nat)
    requires rate > 0 && Normal(t)
    ensures Raw(Offset(t, n, rate), n, rate) == Time(t.sec, t.usec - SetFraction(n, rate) + GetFraction(n, rate))
  {
    SignedSum(t.sec - Div(n, rate), Div(n, rate));
  }

  /** What was taken off at setting and what is added at reading must be the same, but for the clamp. */
  lemma ReadsBack(t: Time, off: nat, on: nat)
    requires Normal(t) && off < US && on < US
    ensures Adjusted(Time(t.sec, t.usec - off + on)) == t <==> off == on || (Total(t) == 0 && on < off)
  {
    var raw := Time(t.sec, t.usec - off + on);
    AdjustedMeans(raw);
    if Total(Adjusted(raw)) == Total(t) {
      NormalIsUnique(Adjusted(raw), t);
    }
  }

  lemma WholeTicks(q: nat, r: nat, rate: nat, us: nat)
    requires rate * us == US && r < rate
    ensures (q * rate + r) * us == q * US + r * us && r * us < US
  {
    assert (q * rate + r) * us == q * (rate * us) + r * us;
    if us > 0 {
      Less(r, rate, us);
    }
  }

  lemma Less(r: nat, rate: nat, us: nat)
    requires r < rate && us > 0
    ensures r * us < rate * us
  {
  }

  /** If the rate divides a million, seconds and fraction together count every tick. */
  lemma SecondsAndFraction(n: nat, rate: nat)
    requires rate > 0 && rate * PerTick(rate) == US
    ensures Micros(n, rate) == Div(n, rate) * 1_000_000 + GetFraction(n, rate)
  {
    DivMeans(n, rate);
    WholeTicks(Div(n, rate), Mod(n, rate), rate, PerTick(rate));
  }

  lemma MicrosAdd(n: nat, k: nat, rate: nat)
    requires rate > 0
    ensures Micros(n + k, rate) == Micros(n, rate) + Micros(k, rate)
  {
  }

  lemma DivGrows(n: nat, k: nat, rate: nat)
    requires rate > 0
    ensures Div(n, rate) <= Div(n + k, rate)
  {
    DivMeans(n, rate);
    DivMeans(n + k, rate);
    var a, b := Div(n, rate), Div(n + k, rate);
    if b < a {
      ProductGrows(b + 1, a, rate);
    }
  }

  /** If the rate divides a million, reading k ticks after setting gives the time set plus those
      ticks, normalised, exactly when the product at the time of setting was exact (or nothing was
      added to the epoch and the clamp hid it). */
  lemma LaterReadExactlyWhen(t: Time, n: nat, k: nat, rate: nat)
    requires rate > 0 && rate * PerTick(rate) == US && Normal(t)
    requires Total(t) + Micros(k, rate) < HALF * 1_000_000 - 1_000_000
    ensures var later := Read(Offset(t, n, rate), n + k, rate);
      (0 <= later.usec < US && Total(later) == Total(t) + Micros(k, rate))
      <==> ProductExact(n, rate)
           || (Total(t) + Micros(k, rate) == 0 && GetFraction(n, rate) < SetFraction(n, rate))
  {
    var raw := Raw(Offset(t, n, rate), n + k, rate);
    RawMeans(t, n, k, rate);
    AdjustedMeans(raw);
    FractionsAgree(n, rate);
  }

  lemma RawMeans(t: Time, n: nat, k: nat, rate: nat)
    requires rate > 0 && rate * PerTick(rate) == US && Normal(t)
    requires Total(t) + Micros(k, rate) < HALF * 1_000_000 - 1_000_000
    ensures var raw := Raw(Offset(t, n, rate), n + k, rate);
      && raw.sec >= 0
      && Total(raw) == Total(t) + Micros(k, rate) + GetFraction(n, rate) - SetFraction(n, rate)
  {
    SecondsAndFraction(n, rate);
    SecondsAndFraction(n + k, rate);
    MicrosAdd(n, k, rate);
    DivGrows(n, k, rate);
    SignedSum(t.sec - Div(n, rate), Div(n + k, rate));
  }

  lemma FractionsAreSmall(n: nat, rate: nat)
    requires rate > 0
    ensures 0 <= SetFraction(n, rate) < US && 0 <= GetFraction(n, rate) < US
  {
  }

  /** The clamp is taken only when the product was not exact: the first loop runs at most once, and
      then finds a second to take from. */
  lemma ClampNotTaken(t: Time, n: nat, k: nat, rate: nat)
    requires rate > 0 && rate * PerTick(rate) == US && Normal(t) && ProductExact(n, rate)
    requires Total(t) + Micros(k, rate) < HALF * 1_000_000 - 1_000_000
    ensures var raw := Raw(Offset(t, n, rate), n + k, rate);
      raw.usec > -US && (raw.usec < 0 ==> raw.sec > 0)
  {
    RawMeans(t, n, k, rate);
    FractionsAgree(n, rate);
    FractionsAreSmall(n, rate);
    FractionsAreSmall(n + k, rate);
  }

  /** While the product fits in 32 bits it is exact, and the clamp is never needed. */
  lemma ShortUptimeIsExact(n: nat, rate: nat)
    requires rate > 0 && Micros(n, rate) < WORDS
    ensures ProductExact(n, rate)
  {
  }

  /** So if the clock is set early enough, every later reading is right. */
  lemma SetEarlyReadsRight(t: Time, n: nat, k: nat, rate: nat)
    requires rate > 0 && rate * PerTick(rate) == US && Normal(t) && Micros(n, rate) < WORDS
    requires Total(t) + Micros(k, rate) < HALF * 1_000_000 - 1_000_000
    ensures var later := Read(Offset(t, n, rate), n + k, rate);
      0 <= later.usec < US && Total(later) == Total(t) + Micros(k, rate)
  {
    ShortUptimeIsExact(n, rate);
    LaterReadExactlyWhen(t, n, k, rate);
  }

  /** At a thousand ticks a second the product overflows after 72 minutes, and then no time but
      the epoch reads back. */
  lemma LongUptimeIsNot(t: Time)
    requires Normal(t) && Total(t) > 0
    ensures Read(Offset(t, 4_294_968, 1000), 4_294_968, 1000) != t
  {
    ImmediateReadExactlyWhen(t, 4_294_968, 1000);
    Overflowed(Micros(4_294_968, 1000), PerTick(1000));
  }

  lemma Overflowed(micros: nat, us: nat)
    requires us == 1_000_000 / 1000 && micros == 4_294_968 * us
    ensures micros / 0x1_0000_0000 % 15625 != 0
  {
  }

  // ---- the clock -----------------------------------------------------------------------

  datatype Zone = Zone(minutesWest: int, dst: int)

  datatype Option<T> = Some(value: T) | None

  class WallClock {
    var ticks: nat
    var rate: nat
    var resetTime: Time
    var zone: Zone

    constructor (rate: nat)
      ensures ticks == 0 && this.rate == rate && resetTime == Time(0, 0) && zone == Zone(0, 0)
    {
      ticks, this.rate, resetTime, zone := 0, rate, Time(0, 0), Zone(0, 0);
    }

    /** Without a system clock nothing is set. */
    method SetTime(t: Time, tz: Zone) returns (ok: bool)
      requires ticks < WORDS
      modifies this`resetTime, this`zone
      ensures ok == (rate != 0)
      ensures ok ==> resetTime == Offset(t, ticks, rate) && zone == tz
      ensures !ok ==> resetTime == old(resetTime) && zone == old(zone)
    {
      if rate == 0 {
        return false;
      }
      var product := ticks * PerTick(rate) % 0x1_0000_0000;
      resetTime := Time(Signed32(t.sec - Div(ticks, rate)), Signed32(t.usec - product % 1_000_000));
      zone := tz;
      return true;
    }

    method GetTime() returns (r: Option<(Time, Zone)>)
      requires ticks < WORDS
      ensures r == if rate == 0 then None else Some((Read(resetTime, ticks, rate), zone))
    {
      if rate == 0 {
        return None;
      }
      var fraction := ticks * PerTick(rate) % 1_000_000;
      var sec, usec := Signed32(resetTime.sec + Div(ticks, rate)), Signed32(resetTime.usec + fraction);
      ghost var raw := Time(sec, usec);
      while usec < 0
        invariant Adjusted(Time(sec, usec)) == Adjusted(raw)
        decreases -usec
      {
        if sec <= 0 {
          sec, usec := 0, 0;
          break;
        } else {
          sec := sec - 1;
          usec := usec + US;
        }
      }
      while usec >= US
        invariant usec >= 0 && Adjusted(Time(sec, usec)) == Adjusted(raw)
      {
        sec := sec + 1;
        usec := usec - US;
      }
      return Some((Time(sec, usec), zone));
    }
  }
}
