/** Alarms and the intrusive circular doubly linked list they sit on.  Link structure is described by
    a ghost sequence, the `ring`: the nodes in order, each pointing at the next and the last at the
    first. */
module AlarmList {
  import opened AlarmTiming

  class Alarm {
    var next: Alarm
    var previous: Alarm
    var time: u32
    var rollover: bool

    constructor ()
      ensures next == previous == this
    {
      next, previous, time, rollover := this, this, 0, false;
    }

    ghost function Timer(): Timer
      reads this`time, this`rollover
    {
      AlarmTiming.Timer(time, rollover)
    }
  }

  // ---- alt_llist.h -------------------------------------------------------------------

  function After(i: nat, length: nat): (j: nat)
    requires i < length
    ensures j < length
  {
    if i + 1 == length then 0 else i + 1
  }

  function Before(i: nat, length: nat): (j: nat)
    requires i < length
    ensures j < length
  {
    if i == 0 then length - 1 else i - 1
  }

  ghost predicate Distinct(ring: seq<Alarm>) {
    forall i, j :: 0 <= i < j < |ring| ==> ring[i] != ring[j]
  }

  ghost predicate Linked(ring: seq<Alarm>)
    reads ring`next, ring`previous
  {
    && Distinct(ring)
    && (forall i {:trigger ring[i].next} :: 0 <= i < |ring| ==> ring[i].next == ring[After(i, |ring|)])
    && (forall i {:trigger ring[i].previous} :: 0 <= i < |ring| ==> ring[i].previous == ring[Before(i, |ring|)])
  }

  lemma DistinctMore(ring: seq<Alarm>, entry: Alarm)
    requires Distinct(ring) && ring != [] && entry !in ring
    ensures Distinct([ring[0], entry] + ring[1..])
  {
    var more := [ring[0], entry] + ring[1..];
    forall i, j | 0 <= i < j < |more|
      ensures more[i] != more[j]
    {
      assert i >= 2 ==> more[i] == ring[i - 1];
      assert j >= 2 ==> more[j] == ring[j - 1];
    }
  }

  /** `alt_llist_insert`: the entry goes in right behind the list head. */
  method Insert(list: Alarm, entry: Alarm, ghost ring: seq<Alarm>)
    requires Linked(ring) && ring != [] && ring[0] == list && entry !in ring
    modifies list`next, entry`next, entry`previous, list.next`previous
    ensures Linked([list, entry] + ring[1..])
  {
    ghost var more, n := [list, entry] + ring[1..], |ring| + 1;
    DistinctMore(ring, entry);
    entry.previous := list;
    entry.next := list.next;
    list.next.previous := entry;
    list.next := entry;
    forall i | 0 <= i < n
      ensures more[i].next == more[After(i, n)] && more[i].previous == more[Before(i, n)]
    {
      assert i >= 2 ==> more[i] == ring[i - 1];
    }
  }

  lemma DistinctRest(ring: seq<Alarm>, k: nat)
    requires Distinct(ring) && k < |ring|
    ensures Distinct(ring[..k] + ring[k + 1..])
  {
    var rest := ring[..k] + ring[k + 1..];
    forall i, j | 0 <= i < j < |rest|
      ensures rest[i] != rest[j]
    {
      assert ring[if i < k then i else i + 1] != ring[if j < k then j else j + 1];
    }
  }

  /** The links a ring has once place k is cut out: the two neighbours point at each other. */
  ghost predicate CutAt(ring: seq<Alarm>, k: nat)
    requires k < |ring|
    reads ring`next, ring`previous
  {
    forall j {:trigger ring[j].next} {:trigger ring[j].previous} :: 0 <= j < |ring| && j != k ==>
      && ring[j].next == ring[if After(j, |ring|) == k then After(k, |ring|) else After(j, |ring|)]
      && ring[j].previous == ring[if Before(j, |ring|) == k then Before(k, |ring|) else Before(j, |ring|)]
  }

  lemma CutIsLinked(ring: seq<Alarm>, k: nat)
    requires Distinct(ring) && k < |ring| && CutAt(ring, k)
    ensures Linked(ring[..k] + ring[k + 1..])
  {
    var rest, n := ring[..k] + ring[k + 1..], |ring|;
    DistinctRest(ring, k);
    forall i | 0 <= i < n - 1
      ensures rest[i].next == rest[After(i, n - 1)] && rest[i].previous == rest[Before(i, n - 1)]
    {
      Shortcut(ring, k, i);
    }
  }

  /** `alt_llist_remove`: the entry at place k leaves the ring and becomes a ring of its own. */
  method Remove(entry: Alarm, ghost ring: seq<Alarm>, ghost k: nat)
    requires Linked(ring) && k < |ring| && ring[k] == entry
    modifies entry`next, entry`previous, entry.next`previous, entry.previous`next
    ensures Linked(ring[..k] + ring[k + 1..]) && Linked([entry])
    ensures ring == [entry] ==> entry.next == old(entry.next) && entry.previous == old(entry.previous)
  {
    ghost var after, before := After(k, |ring|), Before(k, |ring|);
    assert entry.next == ring[after] && entry.previous == ring[before];
    entry.next.previous := entry.previous;
    entry.previous.next := entry.next;
    entry.previous := entry;
    entry.next := entry;
    CutIsLinked(ring, k);
  }

  /** A node of the ring without place k, and its neighbours, found in the whole ring. */
  lemma Shortcut<T>(ring: seq<T>, k: nat, i: nat)
    requires k < |ring| && i < |ring| - 1
    ensures var rest := ring[..k] + ring[k + 1..];
            var n, j := |ring|, if i < k then i else i + 1;
            && rest[i] == ring[j]
            && rest[After(i, n - 1)] == ring[if After(j, n) == k then After(k, n) else After(j, n)]
            && rest[Before(i, n - 1)] == ring[if Before(j, n) == k then Before(k, n) else Before(j, n)]
  {
  }

  // ---- taking an alarm off a list -----------------------------------------------------

  ghost function Without(alarms: seq<Alarm>, alarm: Alarm): (rest: seq<Alarm>)
    ensures |rest| <= |alarms|
  {
    if alarms == [] then []
    else if alarms[0] == alarm then alarms[1..]
    else [alarms[0]] + Without(alarms[1..], alarm)
  }

  lemma {:induction false} WithoutAt(alarms: seq<Alarm>, k: nat)
    requires Distinct(alarms) && k < |alarms|
    ensures Without(alarms, alarms[k]) == alarms[..k] + alarms[k + 1..]
    ensures alarms[k] !in Without(alarms, alarms[k])
  {
    if k > 0 {
      WithoutAt(alarms[1..], k - 1);
    }
  }

  lemma {:induction false} WithoutAbsent(alarms: seq<Alarm>, alarm: Alarm)
    requires alarm !in alarms
    ensures Without(alarms, alarm) == alarms
  {
    if alarms != [] {
      WithoutAbsent(alarms[1..], alarm);
    }
  }

  /** Taking an alarm off a list leaves the others on it. */
  lemma {:induction false} OthersStay(alarms: seq<Alarm>, alarm: Alarm)
    ensures forall a :: a != alarm ==> (a in Without(alarms, alarm) <==> a in alarms)
  {
    if alarms != [] && alarms[0] != alarm {
      OthersStay(alarms[1..], alarm);
    }
    assert alarms != [] ==> alarms == [alarms[0]] + alarms[1..];
  }

  /** And nothing else. */
  lemma WithoutOne(alarms: seq<Alarm>, alarm: Alarm)
    requires Distinct(alarms)
    ensures Distinct(Without(alarms, alarm)) && alarm !in Without(alarms, alarm)
    ensures forall a :: a in Without(alarms, alarm) <==> a in alarms && a != alarm
  {
    OthersStay(alarms, alarm);
    if alarm in alarms {
      var k :| 0 <= k < |alarms| && alarms[k] == alarm;
      WithoutAt(alarms, k);
      DistinctRest(alarms, k);
    } else {
      WithoutAbsent(alarms, alarm);
    }
  }

  /** A list in two parts loses the alarm where it is. */
  lemma {:induction false} WithoutJoin(x: seq<Alarm>, y: seq<Alarm>, alarm: Alarm)
    requires Distinct(x + y)
    ensures Without(x + y, alarm) == Without(x, alarm) + Without(y, alarm)
    decreases |x|
  {
    if x == [] {
      assert x + y == y;
    } else {
      assert x + y == [x[0]] + (x[1..] + y);
      DistinctTail(x[0], x[1..] + y);
      if x[0] == alarm {
        WithoutAbsent(y, alarm);
      } else {
        WithoutJoin(x[1..], y, alarm);
      }
    }
  }

  lemma DistinctTail(first: Alarm, rest: seq<Alarm>)
    requires Distinct([first] + rest)
    ensures Distinct(rest) && first !in rest
  {
    forall i, j | 0 <= i < j < |rest|
      ensures rest[i] != rest[j]
    {
      assert ([first] + rest)[i + 1] != ([first] + rest)[j + 1];
    }
    forall i | 0 <= i < |rest|
      ensures rest[i] != first
    {
      assert ([first] + rest)[0] != ([first] + rest)[i + 1];
    }
  }

  lemma Neighbours(ring: seq<Alarm>, k: nat)
    requires Linked(ring) && k < |ring|
    ensures ring[k].next in ring && ring[k].previous in ring
  {
    assert ring[k].next == ring[After(k, |ring|)] && ring[k].previous == ring[Before(k, |ring|)];
  }

  /** A ring whose nodes have kept their links is still one. */
  twostate lemma SameLinks(ring: seq<Alarm>)
    requires old(Linked(ring))
    requires forall i :: 0 <= i < |ring| ==> ring[i].next == old(ring[i].next)
    requires forall i :: 0 <= i < |ring| ==> ring[i].previous == old(ring[i].previous)
    ensures Linked(ring)
  {
  }

  lemma CutBehindHead<T>(head: T, rest: seq<T>, i: nat)
    requires i < |rest|
    ensures ([head] + rest)[..i + 1] + ([head] + rest)[i + 2..] == [head] + (rest[..i] + rest[i + 1..])
  {
    assert ([head] + rest)[..i + 1] == [head] + rest[..i];
    assert ([head] + rest)[i + 2..] == rest[i + 1..];
  }

  /** The ring an alarm is on, its place there, and what taking it out leaves of the list. */
  lemma RingOf(head: Alarm, entries: seq<Alarm>, alarm: Alarm) returns (ring: seq<Alarm>, k: nat)
    requires Distinct([head] + entries) && alarm != head
    ensures k < |ring| && ring[k] == alarm
    ensures if alarm in entries
            then ring == [head] + entries && ring[..k] + ring[k + 1..] == [head] + Without(entries, alarm)
            else ring == [alarm] && Without(entries, alarm) == entries
    ensures alarm !in Without(entries, alarm) && forall a :: a in Without(entries, alarm) ==> a in entries
  {
    if alarm in entries {
      var i :| 0 <= i < |entries| && entries[i] == alarm;
      DistinctTail(head, entries);
      WithoutAt(entries, i);
      ring, k := [head] + entries, i + 1;
      CutBehindHead(head, entries, i);
    } else {
      WithoutAbsent(entries, alarm);
      ring, k := [alarm], 0;
    }
  }
}
