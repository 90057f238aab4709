/**
 Events and their queues: the default queue, which hands out some earliest event, and the insertion
 queue, which keeps events in time order, first come first served.
 */
module EventQueue {
  datatype Event = Event(id: nat, time: int, secondary: bool)

  ghost predicate Sorted(q: seq<Event>)
  {
    forall i, j :: 0 <= i < j < |q| ==> q[i].time <= q[j].time
  }

  function Inserted(q: seq<Event>, e: Event): seq<Event>
  {
    if q == [] || q[0].time > e.time then [e] + q else [q[0]] + Inserted(q[1..], e)
  }

  /** The events of one time, in queue order. */
  function AtTime(q: seq<Event>, t: int): seq<Event>
  {
    if q == [] then [] else (if q[0].time == t then [q[0]] else []) + AtTime(q[1..], t)
  }

  lemma {:induction false} InsertedMembers(q: seq<Event>, e: Event)
    ensures multiset(Inserted(q, e)) == multiset(q) + multiset{e}
  {
    if q != [] && q[0].time <= e.time {
      InsertedMembers(q[1..], e);
      assert q == [q[0]] + q[1..];
    }
  }

  lemma {:induction false} InsertedSorted(q: seq<Event>, e: Event)
    requires Sorted(q)
    ensures Sorted(Inserted(q, e))
  {
    if q != [] && q[0].time <= e.time {
      InsertedSorted(q[1..], e);
      InsertedMembers(q[1..], e);
      var r := Inserted(q[1..], e);
      forall j | 0 <= j < |r|
        ensures q[0].time <= r[j].time
      {
        assert r[j] in multiset(r);
        assert r[j] == e || r[j] in multiset(q[1..]);
        if r[j] != e {
          var k :| 0 <= k < |q| - 1 && q[1..][k] == r[j];
          assert q[k + 1] == r[j];
        }
      }
    }
  }

  lemma {:induction false} LaterThan(q: seq<Event>, t: int)
    requires forall e :: e in q ==> e.time > t
    ensures AtTime(q, t) == []
  {
    if q != [] {
      assert q[0] in q;
      LaterThan(q[1..], t);
    }
  }

  /** Events of one time keep their order and a new one comes last among them. */
  lemma {:induction false} InsertedStable(q: seq<Event>, e: Event, t: int)
    requires Sorted(q)
    ensures AtTime(Inserted(q, e), t) == AtTime(q, t) + (if e.time == t then [e] else [])
  {
    if q == [] || q[0].time > e.time {
      assert ([e] + q)[1..] == q;
      if e.time == t {
        LaterThan(q, t);
      }
    } else {
      InsertedStable(q[1..], e, t);
      assert ([q[0]] + Inserted(q[1..], e))[1..] == Inserted(q[1..], e);
    }
  }

  function PushedAll(es: seq<Event>): seq<Event>
  {
    if es == [] then [] else Inserted(PushedAll(es[..|es| - 1]), es[|es| - 1])
  }

  lemma AtTimeCons(e: Event, q: seq<Event>, t: int)
    ensures AtTime([e] + q, t) == (if e.time == t then [e] else []) + AtTime(q, t)
  {
    assert ([e] + q)[1..] == q;
  }

  lemma {:induction false} AtTimeConcat(a: seq<Event>, b: seq<Event>, t: int)
    ensures AtTime(a + b, t) == AtTime(a, t) + AtTime(b, t)
  {
    if a == [] {
      assert a + b == b;
    } else {
      AtTimeConcat(a[1..], b, t);
      assert a + b == [a[0]] + (a[1..] + b);
      AtTimeCons(a[0], a[1..] + b, t);
    }
  }

  /** Pushing events one by one sorts them by time, stably. */
  lemma {:induction false} PushingSortsStably(es: seq<Event>, t: int)
    ensures Sorted(PushedAll(es)) && multiset(PushedAll(es)) == multiset(es)
    ensures AtTime(PushedAll(es), t) == AtTime(es, t)
  {
    hide AtTime, Inserted;
    if es == [] {
      assert PushedAll(es) == es;
    } else {
      var init, last := es[..|es| - 1], es[|es| - 1];
      PushingSortsStably(init, t);
      InsertedSorted(PushedAll(init), last);
      InsertedMembers(PushedAll(init), last);
      InsertedStable(PushedAll(init), last, t);
      assert es == init + [last];
      AtTimeConcat(init, [last], t);
      AtTimeOne(last, t);
    }
  }

  lemma AtTimeOne(e: Event, t: int)
    ensures AtTime([e], t) == if e.time == t then [e] else []
  {
  }

  /** The insertion queue; its linked list is a sequence here. */
  class InsertionQueue {
    var l: seq<Event>

    constructor ()
      ensures l == []
    {
      l := [];
    }

    method Push(evt: Event)
      modifies this
      ensures l == Inserted(old(l), evt)
    {
      var i: nat := 0;
      while i < |l| && l[i].time <= evt.time
        invariant i <= |l|
        invariant Inserted(l, evt) == l[..i] + Inserted(l[i..], evt)
      {
        assert l[i..][1..] == l[i + 1..];
        assert l[..i] + [l[i]] == l[..i + 1];
        i := i + 1;
      }
      assert Inserted(l[i..], evt) == [evt] + l[i..];
      l := l[..i] + [evt] + l[i..];
    }

    /** An earliest event, and among those the first that was pushed. */
    method Pop() returns (evt: Event)
      requires l != [] && Sorted(l)
      modifies this
      ensures evt == old(l)[0] && l == old(l)[1..] && Sorted(l)
      ensures forall e :: e in old(l) ==> evt.time <= e.time
    {
      evt := l[0];
      l := l[1..];
    }

    method Peek() returns (evt: Event)
      requires l != [] && Sorted(l)
      ensures evt == l[0] && forall e :: e in l ==> evt.time <= e.time
    {
      evt := l[0];
    }

    function Len(): nat
      reads this
    {
      |l|
    }
  }

  ghost predicate Earliest(q: multiset<Event>, e: Event)
  {
    e in q && forall x :: x in q ==> e.time <= x.time
  }

  /** The default queue by its contract: the event in front is an earliest one, and nothing is promised
      about the order of events of one time. How the heap behind it is kept is not modelled. */
  class EventQueueImpl {
    var events: seq<Event>

    ghost predicate Valid()
      reads this
    {
      forall i :: 0 <= i < |events| ==> events[0].time <= events[i].time
    }

    ghost function Contents(): multiset<Event>
      reads this
    {
      multiset(events)
    }

    constructor ()
      ensures Valid() && Contents() == multiset{}
    {
      events := [];
    }

    method Push(evt: Event)
      requires Valid()
      modifies this
      ensures Valid() && Contents() == old(Contents()) + multiset{evt}
    {
      if events != [] && events[0].time <= evt.time {
        events := events + [evt];
      } else {
        events := [evt] + events;
      }
    }

    method Peek() returns (evt: Event)
      requires Valid() && events != []
      ensures evt == events[0] && Earliest(Contents(), evt)
    {
      evt := events[0];
      FrontIsEarliest(events);
    }

    method Pop() returns (evt: Event)
      requires Valid() && events != []
      modifies this
      ensures Valid() && evt == old(events)[0] && Earliest(old(Contents()), evt)
      ensures Contents() == old(Contents()) - multiset{evt}
    {
      evt := events[0];
      FrontIsEarliest(events);
      assert events == [evt] + events[1..];
      events := EarliestToFront(events[1..]);
    }

    static method EarliestToFront(rest: seq<Event>) returns (q: seq<Event>)
      ensures multiset(q) == multiset(rest)
      ensures forall i :: 0 <= i < |q| ==> q[0].time <= q[i].time
    {
      if rest == [] {
        return [];
      }
      var k, i := 0, 1;
      while i < |rest|
        invariant 1 <= i <= |rest| && 0 <= k < |rest|
        invariant forall j :: 0 <= j < i ==> rest[k].time <= rest[j].time
      {
        if rest[i].time < rest[k].time {
          k := i;
        }
        i := i + 1;
      }
      q := [rest[k]] + rest[..k] + rest[k + 1..];
      assert rest == rest[..k] + [rest[k]] + rest[k + 1..];
      forall j | 0 <= j < |q|
        ensures q[0].time <= q[j].time
      {
        assert q[j] == if j == 0 then rest[k] else if j <= k then rest[j - 1] else rest[j];
      }
    }

    function Len(): nat
      reads this
    {
      |events|
    }
  }

  lemma FrontIsEarliest(q: seq<Event>)
    requires q != [] && forall i :: 0 <= i < |q| ==> q[0].time <= q[i].time
    ensures Earliest(multiset(q), q[0])
  {
    assert q[0] in q;
    forall x | x in multiset(q)
      ensures q[0].time <= x.time
    {
      assert x in q;
    }
  }
}
