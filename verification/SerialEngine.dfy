/** The serial engine: one event at a time, primary events before secondary ones of the same time. */
module SerialEngine {
  import opened EventQueue

  /** The engine over queues that hand out some earliest event; `ran` is the history of handled events. */
  datatype Serial = Serial(now: int, queue: multiset<Event>, secondaryQueue: multiset<Event>, ran: seq<Event>)

  datatype Outcome = Panic | Next(s: Serial)

  function Scheduled(s: Serial, e: Event): Outcome
  {
    if e.time < s.now then Panic
    else if e.secondary then Next(s.(secondaryQueue := s.secondaryQueue + multiset{e}))
    else Next(s.(queue := s.queue + multiset{e}))
  }

  function ScheduledAll(s: Serial, es: seq<Event>): Outcome
    decreases |es|
  {
    if es == [] then Next(s)
    else
      match Scheduled(s, es[0])
      case Panic => Panic
      case Next(t) => ScheduledAll(t, es[1..])
  }

  predicate Empty(s: Serial) { s.queue == multiset{} && s.secondaryQueue == multiset{} }

  /** `nextEvent` may return any earliest primary event that no secondary one precedes, or any earliest
      secondary event that precedes every primary one. */
  ghost predicate MayTake(s: Serial, e: Event)
  {
    || (Earliest(s.queue, e) && forall x :: x in s.secondaryQueue ==> e.time <= x.time)
    || (Earliest(s.secondaryQueue, e) && forall x :: x in s.queue ==> e.time < x.time)
  }

  function Without(s: Serial, e: Event): Serial
  {
    if e.secondary then s.(secondaryQueue := s.secondaryQueue - multiset{e}) else s.(queue := s.queue - multiset{e})
  }

  /** The event is off its queue and the clock reads its time. */
  function Taken(s: Serial, e: Event): Serial
  {
    Without(s, e).(now := e.time, ran := s.ran + [e])
  }

  /** Run an event whose handler schedules `es`. */
  function Handled(s: Serial, e: Event, es: seq<Event>): Outcome
  {
    if e.time < s.now then Panic else ScheduledAll(Taken(s, e), es)
  }

  /** A run that handles the events of `chosen` one by one, each handler scheduling what `script` says. */
  ghost predicate Runs(s: Serial, chosen: seq<Event>, script: seq<seq<Event>>, t: Serial)
    requires |chosen| == |script|
    decreases |chosen|
  {
    if chosen == [] then t == s
    else
      && MayTake(s, chosen[0])
      && Handled(s, chosen[0], script[0]).Next?
      && Runs(Handled(s, chosen[0], script[0]).s, chosen[1..], script[1..], t)
  }

  ghost predicate Inv(s: Serial)
  {
    && (forall e :: e in s.queue ==> s.now <= e.time && !e.secondary)
    && (forall e :: e in s.secondaryQueue ==> s.now <= e.time && e.secondary)
    && Sorted(s.ran) && (forall e :: e in s.ran ==> e.time <= s.now)
  }

  function Total(s: Serial): multiset<Event>
  {
    s.queue + s.secondaryQueue + multiset(s.ran)
  }

  function AllOf(script: seq<seq<Event>>): multiset<Event>
  {
    if script == [] then multiset{} else multiset(script[0]) + AllOf(script[1..])
  }

  lemma ScheduledKeepsInv(s: Serial, e: Event)
    requires Inv(s)
    ensures Scheduled(s, e).Panic? <==> e.time < s.now
    ensures Scheduled(s, e).Next? ==>
      var t := Scheduled(s, e).s;
      Inv(t) && t.now == s.now && t.ran == s.ran && Total(t) == Total(s) + multiset{e}
  {
  }

  /** Scheduling fails exactly when some event lies before the present. */
  lemma {:induction false} ScheduledAllKeepsInv(s: Serial, es: seq<Event>)
    requires Inv(s)
    ensures ScheduledAll(s, es).Panic? <==> exists e :: e in es && e.time < s.now
    ensures ScheduledAll(s, es).Next? ==>
      var t := ScheduledAll(s, es).s;
      Inv(t) && t.now == s.now && t.ran == s.ran && Total(t) == Total(s) + multiset(es)
    decreases |es|
  {
    hide Inv, Scheduled, Total;
    if es != [] {
      ScheduledKeepsInv(s, es[0]);
      assert es == [es[0]] + es[1..];
      if Scheduled(s, es[0]).Next? {
        ScheduledAllKeepsInv(Scheduled(s, es[0]).s, es[1..]);
        assert forall e :: e in es <==> e == es[0] || e in es[1..];
      } else {
        assert es[0] in es;
      }
    }
  }

  lemma TakenKeepsInv(s: Serial, e: Event)
    requires Inv(s) && MayTake(s, e)
    ensures s.now <= e.time && Inv(Taken(s, e)) && Total(Taken(s, e)) == Total(s)
    ensures forall x :: x in s.queue || x in s.secondaryQueue ==> e.time <= x.time
  {
    assert multiset(s.ran + [e]) == multiset(s.ran) + multiset{e};
    if e.secondary {
      assert e in s.secondaryQueue;
      Moved(s.queue, s.secondaryQueue, multiset(s.ran), e);
    } else {
      assert e in s.queue;
      Moved(s.secondaryQueue, s.queue, multiset(s.ran), e);
    }
  }

  lemma Moved(a: multiset<Event>, b: multiset<Event>, c: multiset<Event>, e: Event)
    requires e in b
    ensures a + (b - multiset{e}) + (c + multiset{e}) == a + b + c
    ensures (b - multiset{e}) + a + (c + multiset{e}) == b + a + c
  {
  }

  /** Whichever event the queues hand out, it is an earliest one, and secondary only when every queued
      primary event is later. The engine's own panic cannot happen: a step fails only if its handler
      schedules before the present. */
  lemma StepKeepsInv(s: Serial, e: Event, es: seq<Event>)
    requires Inv(s) && MayTake(s, e)
    ensures forall x :: x in s.queue || x in s.secondaryQueue ==> e.time <= x.time
    ensures e.secondary ==> forall x :: x in s.queue ==> e.time < x.time
    ensures Handled(s, e, es).Panic? <==> exists x :: x in es && x.time < e.time
    ensures Handled(s, e, es).Next? ==>
      var t := Handled(s, e, es).s;
      && Inv(t) && s.now <= t.now == e.time && t.ran == s.ran + [e]
      && Total(t) == Total(s) + multiset(es)
  {
    hide Total, ScheduledAll;
    TakenKeepsInv(s, e);
    ScheduledAllKeepsInv(Taken(s, e), es);
  }

  /** Every run handles events in time order; what was scheduled is what is queued or has been handled,
      each as often as it was scheduled. */
  lemma {:induction false} EveryRunKeepsInv(s: Serial, chosen: seq<Event>, script: seq<seq<Event>>, t: Serial)
    requires Inv(s) && |chosen| == |script| && Runs(s, chosen, script, t)
    ensures Inv(t) && s.now <= t.now && t.ran == s.ran + chosen
    ensures Total(t) == Total(s) + AllOf(script)
    decreases |chosen|
  {
    hide Inv, Handled, Total, MayTake;
    if chosen != [] {
      StepKeepsInv(s, chosen[0], script[0]);
      EveryRunKeepsInv(Handled(s, chosen[0], script[0]).s, chosen[1..], script[1..], t);
      assert chosen == [chosen[0]] + chosen[1..];
    }
  }

  lemma RunsNone(s: Serial)
    ensures Runs(s, [], [], s)
  {
  }

  lemma OneMore(script: seq<seq<Event>>, i: nat)
    requires i < |script|
    ensures script[..i] + [script[i]] == script[..i + 1]
  {
  }

  /** A run goes on with one more event. */
  lemma {:induction false} RunsOn(s: Serial, chosen: seq<Event>, script: seq<seq<Event>>, t: Serial, e: Event, es: seq<Event>)
    requires |chosen| == |script| && Runs(s, chosen, script, t) && MayTake(t, e) && Handled(t, e, es).Next?
    ensures Runs(s, chosen + [e], script + [es], Handled(t, e, es).s)
    decreases |chosen|
  {
    hide MayTake, Handled;
    if chosen == [] {
      assert (chosen + [e])[1..] == [] && (script + [es])[1..] == [];
    } else {
      RunsOn(Handled(s, chosen[0], script[0]).s, chosen[1..], script[1..], t, e, es);
      assert (chosen + [e])[1..] == chosen[1..] + [e] && (script + [es])[1..] == script[1..] + [es];
    }
  }

  class SerialEngine {
    var time: int
    const queue: EventQueueImpl
    const secondaryQueue: EventQueueImpl
    ghost var ran: seq<Event>

    constructor ()
      ensures Valid() && View() == Serial(0, multiset{}, multiset{}, []) && fresh(queue) && fresh(secondaryQueue)
    {
      time, ran := 0, [];
      queue := new EventQueueImpl();
      secondaryQueue := new EventQueueImpl();
    }

    ghost function View(): Serial
      reads this, queue, secondaryQueue
    {
      Serial(time, queue.Contents(), secondaryQueue.Contents(), ran)
    }

    ghost predicate Valid()
      reads queue, secondaryQueue
    {
      queue != secondaryQueue && queue.Valid() && secondaryQueue.Valid()
    }

    /** False for an event earlier than the current time, where the source panics. */
    method Schedule(evt: Event) returns (ok: bool)
      requires Valid()
      modifies queue, secondaryQueue
      ensures Valid()
      ensures match Scheduled(old(View()), evt)
        case Panic => !ok
        case Next(s) => ok && View() == s
    {
      if evt.time < time {
        return false;
      }
      if evt.secondary {
        secondaryQueue.Push(evt);
      } else {
        queue.Push(evt);
      }
      ok := true;
    }

    /** `nextEvent`: the four cases of the source take an event that may be taken. */
    method PopNext() returns (evt: Event)
      requires Valid() && Inv(View()) && !Empty(View())
      modifies queue, secondaryQueue
      ensures Valid() && time == old(time) && ran == old(ran)
      ensures MayTake(old(View()), evt)
      ensures View() == Without(old(View()), evt)
    {
      hide MayTake, Inv, Earliest;
      ghost var s := View();
      LengthsTell();
      if queue.Len() == 0 {
        evt := secondaryQueue.Pop();
        TakeSecondary(s, evt);
      } else if secondaryQueue.Len() == 0 {
        evt := queue.Pop();
        TakePrimary(s, evt);
      } else {
        evt := PopEarlier();
      }
    }

    method PopEarlier() returns (evt: Event)
      requires Valid() && Inv(View()) && queue.events != [] && secondaryQueue.events != []
      modifies queue, secondaryQueue
      ensures Valid() && time == old(time) && ran == old(ran)
      ensures MayTake(old(View()), evt)
      ensures View() == Without(old(View()), evt)
    {
      hide MayTake, Inv, Earliest;
      ghost var s := View();
      var primaryEvt := queue.Peek();
      var secondaryEvt := secondaryQueue.Peek();
      TakeEither(s, primaryEvt, secondaryEvt);
      if primaryEvt.time <= secondaryEvt.time {
        evt := queue.Pop();
      } else {
        evt := secondaryQueue.Pop();
      }
    }

    lemma LengthsTell()
      ensures queue.Len() == 0 <==> queue.Contents() == multiset{}
      ensures secondaryQueue.Len() == 0 <==> secondaryQueue.Contents() == multiset{}
    {
      EmptyOrNot(queue.events);
      EmptyOrNot(secondaryQueue.events);
    }

    method RunOne(es: seq<Event>) returns (ok: bool, ghost evt: Event)
      requires Valid() && Inv(View()) && !Empty(View())
      modifies this, queue, secondaryQueue
      ensures Valid() && MayTake(old(View()), evt)
      ensures match Handled(old(View()), evt, es)
        case Panic => !ok
        case Next(s) => ok && View() == s
    {
      hide MayTake, Inv, Without, Handled, ScheduledAll;
      ghost var s := View();
      var next := PopNext();
      evt := next;
      HandledIs(s, evt, es);
      time, ran := next.time, ran + [next];
      assert View() == Taken(s, evt);
      ok := ScheduleAll(es);
    }

    /** The run loop, with what each handler schedules given by `script`: it is a run, to the end of the
        events or of the script, and it fails only where a handler schedules into the past. */
    method RunLoop(script: seq<seq<Event>>) returns (ok: bool, ghost chosen: seq<Event>, ghost last: Serial)
      requires Valid() && Inv(View())
      modifies this, queue, secondaryQueue
      ensures Valid() && |chosen| <= |script| && Runs(old(View()), chosen, script[..|chosen|], last)
      ensures ok ==> View() == last && (|chosen| == |script| || Empty(last))
      ensures !ok ==> |chosen| < |script| && exists e :: MayTake(last, e) && Handled(last, e, script[|chosen|]).Panic?
    {
      hide Inv, MayTake, Handled, Runs, Without, Taken, ScheduledAll;
      var i: nat := 0;
      chosen := [];
      assert script[..0] == [];
      RunsNone(View());
      LengthsTell();
      while i < |script| && !(queue.Len() == 0 && secondaryQueue.Len() == 0)
        invariant i == |chosen| <= |script| && Valid() && Inv(View())
        invariant Runs(old(View()), chosen, script[..i], View())
        invariant queue.Len() == 0 <==> queue.Contents() == multiset{}
        invariant secondaryQueue.Len() == 0 <==> secondaryQueue.Contents() == multiset{}
      {
        ghost var s := View();
        ghost var evt;
        ok, evt := RunOne(script[i]);
        StepKeepsInv(s, evt, script[i]);
        if !ok {
          last := s;
          return;
        }
        RunsOn(old(View()), chosen, script[..i], s, evt, script[i]);
        OneMore(script, i);
        chosen := chosen + [evt];
        i := i + 1;
        LengthsTell();
      }
      last := View();
      ok := true;
    }

    method ScheduleAll(es: seq<Event>) returns (ok: bool)
      requires Valid()
      modifies queue, secondaryQueue
      ensures Valid()
      ensures match ScheduledAll(old(View()), es)
        case Panic => !ok
        case Next(s) => ok && View() == s
    {
      hide Scheduled;
      var i: nat := 0;
      assert es[0..] == es;
      while i < |es|
        invariant i <= |es| && time == old(time) && ran == old(ran) && Valid()
        invariant ScheduledAll(old(View()), es) == ScheduledAll(View(), es[i..])
      {
        assert es[i..][0] == es[i] && es[i..][1..] == es[i + 1..];
        var one := Schedule(es[i]);
        if !one {
          return false;
        }
        i := i + 1;
      }
      ok := true;
    }
  }

  lemma HandledIs(s: Serial, e: Event, es: seq<Event>)
    requires Inv(s) && MayTake(s, e)
    ensures Handled(s, e, es) == ScheduledAll(Taken(s, e), es)
  {
  }

  lemma EmptyOrNot(q: seq<Event>)
    ensures |q| == 0 <==> multiset(q) == multiset{}
  {
    if q != [] {
      assert q[0] in multiset(q);
    }
  }

  lemma TakePrimary(s: Serial, e: Event)
    requires Inv(s) && Earliest(s.queue, e) && s.secondaryQueue == multiset{}
    ensures MayTake(s, e) && !e.secondary
  {
  }

  lemma TakeSecondary(s: Serial, e: Event)
    requires Inv(s) && Earliest(s.secondaryQueue, e) && s.queue == multiset{}
    ensures MayTake(s, e) && e.secondary
  {
  }

  /** With both queues filled, comparing their fronts decides. */
  lemma TakeEither(s: Serial, p: Event, q: Event)
    requires Inv(s) && Earliest(s.queue, p) && Earliest(s.secondaryQueue, q)
    ensures MayTake(s, if p.time <= q.time then p else q) && !p.secondary && q.secondary
  {
  }
}
