/**
 The parallel engine as interleaved atomic steps: the run loop scans its queues round by round while
 the workers that it has started schedule further events.
 */
module ParallelEngine {
  import opened EventQueue

  datatype Phase = Idle | Scanning(i: nat) | Waiting

  /** `open` and `openSecondary` are the queues that lie in the two channels. The last four fields
      are history: what was ever scheduled, what has been handled, what this round found due when it
      began, and what it has started. A queue's events are in no particular order. */
  datatype Engine = Engine(
    now: int, onSecondary: bool, phase: Phase,
    queues: seq<seq<Event>>, secondaryQueues: seq<seq<Event>>,
    open: set<nat>, openSecondary: set<nat>, running: multiset<Event>,
    scheduled: multiset<Event>, done: multiset<Event>, due: multiset<Event>, ran: multiset<Event>)

  datatype Outcome = Panic | Next(s: Engine)

  /** Times, with the greatest float for the earliest time of no events. */
  datatype Time = At(t: int) | Never

  predicate NotAfter(a: Time, b: Time)
  {
    b.Never? || (a.At? && a.t <= b.t)
  }

  // ----- the earliest event -----

  function EarliestIn(q: seq<Event>): Time
  {
    if q == [] then Never
    else
      var rest := EarliestIn(q[1..]);
      if NotAfter(At(q[0].time), rest) then At(q[0].time) else rest
  }

  function EarliestOf(qs: seq<seq<Event>>): Time
  {
    if qs == [] then Never
    else
      var init, last := EarliestOf(qs[..|qs| - 1]), EarliestIn(qs[|qs| - 1]);
      if NotAfter(init, last) then init else last
  }

  ghost predicate From(q: seq<Event>, t: int)
  {
    forall e :: e in q ==> t <= e.time
  }

  ghost predicate AllFrom(qs: seq<seq<Event>>, t: int)
  {
    forall i {:trigger qs[i]} :: 0 <= i < |qs| ==> From(qs[i], t)
  }

  lemma {:induction false} EarliestInMeets(q: seq<Event>)
    ensures EarliestIn(q).Never? <==> q == []
    ensures EarliestIn(q).At? ==> From(q, EarliestIn(q).t) && exists e :: e in q && e.time == EarliestIn(q).t
  {
    if q != [] {
      EarliestInMeets(q[1..]);
      assert q[0] in q;
      if q[1..] != [] {
        var e :| e in q[1..] && e.time == EarliestIn(q[1..]).t;
        assert e in q;
      }
      assert q == [q[0]] + q[1..];
    }
  }

  /** The earliest time over all queues is a lower bound that some event attains. */
  lemma {:induction false} EarliestOfMeets(qs: seq<seq<Event>>)
    ensures EarliestOf(qs).Never? <==> forall i :: 0 <= i < |qs| ==> qs[i] == []
    ensures EarliestOf(qs).At? ==> AllFrom(qs, EarliestOf(qs).t) && exists i, e {:trigger e in qs[i]} :: 0 <= i < |qs| && e in qs[i] && e.time == EarliestOf(qs).t
  {
    if qs != [] {
      var init, last := qs[..|qs| - 1], qs[|qs| - 1];
      EarliestOfMeets(init);
      EarliestInMeets(last);
      var r := EarliestOf(qs);
      assert forall i :: 0 <= i < |init| ==> qs[i] == init[i];
      if r.At? {
        if r == EarliestIn(last) {
          var e :| e in last && e.time == r.t;
          assert e in qs[|qs| - 1] && e.time == r.t;
        } else {
          var i: nat, e: Event :| i < |init| && e in init[i] && e.time == r.t;
          assert e in qs[i] && e.time == r.t;
        }
        forall i | 0 <= i < |qs|
          ensures From(qs[i], r.t)
        {
          if i < |init| {
            assert init[i] == [] || (EarliestOf(init).At? && From(init[i], EarliestOf(init).t));
          }
        }
      }
    }
  }

  /** `earliestTimeInQueueGroup`. */
  method EarliestTimeInQueueGroup(queues: seq<seq<Event>>) returns (earliest: Time)
    ensures earliest == EarliestOf(queues)
  {
    earliest := Never;
    var i: nat := 0;
    while i < |queues|
      invariant i <= |queues| && earliest == EarliestOf(queues[..i])
    {
      assert queues[..i + 1][..i] == queues[..i];
      EarliestInMeets(queues[i]);
      var t := EarliestIn(queues[i]);
      if queues[i] != [] && !NotAfter(earliest, t) {
        earliest := t;
      }
      i := i + 1;
    }
    assert queues[..i] == queues;
  }

  // ----- counting events over queues -----

  function All(qs: seq<seq<Event>>): multiset<Event>
  {
    if qs == [] then multiset{} else All(qs[..|qs| - 1]) + multiset(qs[|qs| - 1])
  }

  lemma {:induction false} AllUpdate(qs: seq<seq<Event>>, i: nat, q: seq<Event>)
    requires i < |qs|
    ensures All(qs[i := q]) + multiset(qs[i]) == All(qs) + multiset(q)
  {
    var n := |qs| - 1;
    if i == n {
      assert qs[i := q][..n] == qs[..n];
      Shuffled(All(qs[..n]), All(qs[..n]), multiset(q), multiset(qs[i]), multiset{});
    } else {
      AllUpdate(qs[..n], i, q);
      assert qs[i := q][..n] == qs[..n][i := q] && qs[i := q][n] == qs[n];
      Shuffled(All(qs[..n][i := q]), All(qs[..n]), multiset(qs[i]), multiset(q), multiset(qs[n]));
    }
  }

  lemma Shuffled(a: multiset<Event>, b: multiset<Event>, x: multiset<Event>, y: multiset<Event>, c: multiset<Event>)
    ensures a + x == b + y ==> (a + c) + x == (b + c) + y
    ensures (a + x) + y == (a + y) + x
  {
    if a + x == b + y {
      forall e: Event
        ensures ((a + c) + x)[e] == ((b + c) + y)[e]
      {
        assert (a + x)[e] == (b + y)[e];
      }
    }
  }

  lemma AllPlus(qs: seq<seq<Event>>, i: nat, e: Event)
    requires i < |qs|
    ensures All(qs[i := qs[i] + [e]]) == All(qs) + multiset{e}
  {
    hide All;
    AllUpdate(qs, i, qs[i] + [e]);
    var a, b, m := All(qs[i := qs[i] + [e]]), All(qs), multiset(qs[i]);
    assert multiset(qs[i] + [e]) == m + multiset{e};
    assert a + m == b + (m + multiset{e});
    forall x: Event
      ensures a[x] == (b + multiset{e})[x]
    {
      assert (a + m)[x] == (b + (m + multiset{e}))[x];
    }
  }

  /** The events of time `t` in the queues from `i` on. */
  function DueFrom(qs: seq<seq<Event>>, i: nat, t: int): multiset<Event>
    requires i <= |qs|
    decreases |qs| - i
  {
    if i == |qs| then multiset{} else multiset(AtTime(qs[i], t)) + DueFrom(qs, i + 1, t)
  }

  lemma {:induction false} DueFromSame(qs: seq<seq<Event>>, rs: seq<seq<Event>>, i: nat, t: int)
    requires i <= |qs| == |rs| && forall j :: i <= j < |qs| ==> qs[j] == rs[j]
    ensures DueFrom(qs, i, t) == DueFrom(rs, i, t)
    decreases |qs| - i
  {
    if i < |qs| {
      DueFromSame(qs, rs, i + 1, t);
    }
  }

  function Without(q: seq<Event>, k: nat): seq<Event>
    requires k < |q|
  {
    q[..k] + q[k + 1..]
  }

  lemma WithoutMembers(q: seq<Event>, k: nat)
    requires k < |q|
    ensures multiset(q) == multiset(Without(q, k)) + multiset{q[k]}
    ensures forall e :: e in Without(q, k) ==> e in q
  {
    assert q == q[..k] + ([q[k]] + q[k + 1..]);
  }

  lemma AllMinus(qs: seq<seq<Event>>, i: nat, k: nat)
    requires i < |qs| && k < |qs[i]|
    ensures All(qs) == All(qs[i := Without(qs[i], k)]) + multiset{qs[i][k]}
  {
    hide All;
    AllUpdate(qs, i, Without(qs[i], k));
    WithoutMembers(qs[i], k);
    var a, b, m, e := All(qs[i := Without(qs[i], k)]), All(qs), multiset(Without(qs[i], k)), qs[i][k];
    assert a + (m + multiset{e}) == b + m;
    forall x: Event
      ensures b[x] == (a + multiset{e})[x]
    {
      assert (a + (m + multiset{e}))[x] == (b + m)[x];
    }
  }

  lemma WithoutDue(q: seq<Event>, k: nat, t: int)
    requires k < |q| && q[k].time == t
    ensures multiset(AtTime(q, t)) == multiset(AtTime(Without(q, k), t)) + multiset{q[k]}
  {
    hide AtTime;
    assert q == q[..k] + ([q[k]] + q[k + 1..]);
    AtTimeConcat(q[..k], [q[k]] + q[k + 1..], t);
    AtTimeConcat([q[k]], q[k + 1..], t);
    AtTimeConcat(q[..k], q[k + 1..], t);
    AtTimeOne(q[k], t);
  }

  // ----- steps -----

  datatype Action =
    | Schedule(e: Event, q: nat)
    | DetermineWhatToRun
    | RunEvent(k: nat)
    | ReturnQueue
    | WorkerDone(e: Event)
    | RoundOver

  function Current(s: Engine): seq<seq<Event>>
  {
    if s.onSecondary then s.secondaryQueues else s.queues
  }

  function WithCurrent(s: Engine, qs: seq<seq<Event>>): Engine
  {
    if s.onSecondary then s.(secondaryQueues := qs) else s.(queues := qs)
  }

  function Everything(n: nat): (r: set<nat>)
    ensures forall i: nat :: i in r <==> i < n
  {
    if n == 0 then {} else Everything(n - 1) + {n - 1}
  }

  predicate Enabled(s: Engine, a: Action)
  {
    match a
    case Schedule(e, q) =>
      // by a worker, or before the run; the queue is taken from the channel of the event's class
      && (s.phase.Idle? || s.running != multiset{})
      && q in (if e.secondary then s.openSecondary else s.open) && q < |s.queues| == |s.secondaryQueues|
    case DetermineWhatToRun =>
      && s.phase.Idle? && !(EarliestOf(s.queues).Never? && EarliestOf(s.secondaryQueues).Never?)
    case RunEvent(k) =>
      // the event that Peek shows, an earliest one
      && s.phase.Scanning? && s.phase.i < |Current(s)| && k < |Current(s)[s.phase.i]|
      && EarliestIn(Current(s)[s.phase.i]) == At(Current(s)[s.phase.i][k].time)
      && Current(s)[s.phase.i][k].time <= s.now
    case ReturnQueue =>
      && s.phase.Scanning? && s.phase.i < |Current(s)|
      && !NotAfter(EarliestIn(Current(s)[s.phase.i]), At(s.now))
    case WorkerDone(e) => e in s.running
    case RoundOver => s.phase.Waiting? && s.running == multiset{}
  }

  function Step(s: Engine, a: Action): Outcome
    requires Enabled(s, a)
  {
    match a
    case Schedule(e, q) =>
      if e.time < s.now then Panic
      else
        var t := s.(scheduled := s.scheduled + multiset{e});
        if e.secondary then Next(t.(secondaryQueues := s.secondaryQueues[q := s.secondaryQueues[q] + [e]]))
        else Next(t.(queues := s.queues[q := s.queues[q] + [e]]))
    case DetermineWhatToRun =>
      var primary, secondary := EarliestOf(s.queues), EarliestOf(s.secondaryQueues);
      var t := if NotAfter(primary, secondary)
        then s.(onSecondary := false, now := primary.t, open := {})
        else s.(onSecondary := true, now := secondary.t, openSecondary := {});
      Next(t.(phase := Scanning(0), due := DueFrom(Current(t), 0, t.now), ran := multiset{}))
    case RunEvent(k) =>
      var i := s.phase.i;
      var e := Current(s)[i][k];
      if e.time < s.now then Panic
      else
        var t := s.(running := s.running + multiset{e}, ran := s.ran + multiset{e});
        Next(WithCurrent(t, Current(s)[i := Without(Current(s)[i], k)]))
    case ReturnQueue =>
      var i := s.phase.i;
      var t := if s.onSecondary then s.(openSecondary := s.openSecondary + {i}) else s.(open := s.open + {i});
      Next(t.(phase := if i + 1 == |Current(s)| then Waiting else Scanning(i + 1)))
    case WorkerDone(e) => Next(s.(running := s.running - multiset{e}, done := s.done + multiset{e}))
    case RoundOver => Next(s.(phase := Idle))
  }

  // ----- the invariant -----

  ghost predicate Classes(s: Engine)
  {
    && |s.queues| == |s.secondaryQueues| > 0
    && (forall i, e {:trigger e in s.queues[i]} :: 0 <= i < |s.queues| && e in s.queues[i] ==> !e.secondary)
    && (forall i, e {:trigger e in s.secondaryQueues[i]} :: 0 <= i < |s.secondaryQueues| && e in s.secondaryQueues[i] ==> e.secondary)
  }

  /** Nothing queued is in the past, and everything running is of the present and of the round's class. */
  ghost predicate Timely(s: Engine)
  {
    && AllFrom(s.queues, s.now) && AllFrom(s.secondaryQueues, s.now)
    && (forall e :: e in s.running ==> e.time == s.now && e.secondary == s.onSecondary)
  }

  /** The queues of the round's class come back to the channel as they are scanned; those ahead still
      hold, beside what has been started, exactly what was due when the round began. */
  ghost predicate Rounds(s: Engine)
  {
    var n := |s.queues|;
    match s.phase
    case Idle => s.open == Everything(n) && s.openSecondary == Everything(n) && s.running == multiset{}
    case Scanning(i) =>
      && i < n == |Current(s)|
      && s.open == Everything(if s.onSecondary then n else i)
      && s.openSecondary == Everything(if s.onSecondary then i else n)
      && s.due == s.ran + DueFrom(Current(s), i, s.now)
    case Waiting => s.open == Everything(n) && s.openSecondary == Everything(n) && s.due == s.ran
  }

  ghost predicate Conserved(s: Engine)
  {
    s.scheduled == All(s.queues) + All(s.secondaryQueues) + s.running + s.done
  }

  ghost predicate Inv(s: Engine)
  {
    Classes(s) && Timely(s) && Rounds(s) && Conserved(s)
  }

  lemma ScheduleKeepsInv(s: Engine, e: Event, q: nat)
    requires Inv(s) && Enabled(s, Schedule(e, q)) && s.now <= e.time
    ensures Inv(Step(s, Schedule(e, q)).s)
  {
    hide EarliestOf, All, DueFrom, Everything, AtTime;
    var t := Step(s, Schedule(e, q)).s;
    AllPlus(s.secondaryQueues, q, e);
    AllPlus(s.queues, q, e);
    if s.phase.Scanning? {
      DueFromSame(Current(s), Current(t), s.phase.i, s.now);
    }
    assert Conserved(t) by {
      hide Timely, Classes, Rounds;
    }
    assert Timely(t) by {
      hide Classes, Rounds, Conserved;
      forall j | 0 <= j < |t.queues|
        ensures From(t.queues[j], s.now) && From(t.secondaryQueues[j], s.now)
      {
        assert From(s.queues[j], s.now) && From(s.secondaryQueues[j], s.now);
      }
    }
    assert Classes(t) by {
      hide Timely, Rounds, Conserved;
    }
    assert Rounds(t) by {
      hide Timely, Conserved;
    }
  }

  lemma RunKeepsInv(s: Engine, k: nat)
    requires Inv(s) && Enabled(s, RunEvent(k))
    ensures Step(s, RunEvent(k)).Next? && Inv(Step(s, RunEvent(k)).s)
  {
    hide EarliestOf, EarliestIn, All, DueFrom, Everything, AtTime, Without;
    var i := s.phase.i;
    var qs := Current(s);
    var e := qs[i][k];
    assert e in qs[i] && From(qs[i], s.now);
    var t := Step(s, RunEvent(k)).s;
    WithoutMembers(qs[i], k);
    assert Current(t) == qs[i := Without(qs[i], k)];
    assert Conserved(t) by {
      hide Timely, Classes, Rounds;
      AllMinus(qs, i, k);
    }
    assert Timely(t) by {
      hide Rounds, Conserved;
      forall j | 0 <= j < |qs|
        ensures From(t.queues[j], s.now) && From(t.secondaryQueues[j], s.now)
      {
        assert From(s.queues[j], s.now) && From(s.secondaryQueues[j], s.now);
      }
    }
    assert Classes(t) by {
      hide Timely, Rounds, Conserved;
    }
    assert Rounds(t) by {
      hide Timely, Conserved;
      ScannedOne(qs, i, k, s.now);
    }
  }

  lemma ScannedOne(qs: seq<seq<Event>>, i: nat, k: nat, t: int)
    requires i < |qs| && k < |qs[i]| && qs[i][k].time == t
    ensures DueFrom(qs, i, t) == DueFrom(qs[i := Without(qs[i], k)], i, t) + multiset{qs[i][k]}
  {
    WithoutDue(qs[i], k, t);
    DueFromSame(qs, qs[i := Without(qs[i], k)], i + 1, t);
  }

  lemma ScannedAll(qs: seq<seq<Event>>, i: nat, t: int)
    requires i < |qs| && forall e :: e in qs[i] ==> e.time > t
    ensures DueFrom(qs, i, t) == DueFrom(qs, i + 1, t)
    ensures i + 1 == |qs| ==> DueFrom(qs, i, t) == multiset{}
  {
    LaterThan(qs[i], t);
  }

  lemma ReturnKeepsInv(s: Engine)
    requires Inv(s) && Enabled(s, ReturnQueue)
    ensures Step(s, ReturnQueue).Next? && Inv(Step(s, ReturnQueue).s)
  {
    hide EarliestOf, EarliestIn, All, DueFrom, Everything, AtTime;
    var i, n := s.phase.i, |s.queues|;
    var t := Step(s, ReturnQueue).s;
    EarliestInMeets(Current(s)[i]);
    ScannedAll(Current(s), i, s.now);
    assert Everything(i) + {i} == Everything(i + 1);
    assert Current(t) == Current(s);
    assert Rounds(t);
  }

  lemma DetermineKeepsInv(s: Engine)
    requires Inv(s) && Enabled(s, DetermineWhatToRun)
    ensures Step(s, DetermineWhatToRun).Next?
    ensures var t := Step(s, DetermineWhatToRun).s;
      && Inv(t) && s.now <= t.now && t.due != multiset{}
      && AllFrom(t.queues, if t.onSecondary then t.now + 1 else t.now)
  {
    hide EarliestOf, EarliestIn, All, DueFrom, Everything, AtTime, From;
    EarliestOfMeets(s.queues);
    EarliestOfMeets(s.secondaryQueues);
    var t := Step(s, DetermineWhatToRun).s;
    assert Everything(0) == {};
    var i: nat, e: Event :| i < |Current(t)| && e in Current(t)[i] && e.time == t.now;
    DueHolds(Current(t), 0, t.now, i, e);
    FromMember(Current(t)[i], s.now, e);
    forall j | 0 <= j < |s.queues|
      ensures From(t.queues[j], if t.onSecondary then t.now + 1 else t.now) && From(t.queues[j], t.now) && From(t.secondaryQueues[j], t.now)
    {
      FromEarlier(s.queues[j], EarliestOf(s.queues), t.now, t.onSecondary);
      FromEarlier(s.secondaryQueues[j], EarliestOf(s.secondaryQueues), t.now, false);
    }
    assert Timely(t);
    assert Rounds(t);
    assert Classes(t) && Conserved(t);
  }

  lemma FromMember(q: seq<Event>, t: int, e: Event)
    requires From(q, t) && e in q
    ensures t <= e.time
  {
  }

  /** A lower bound, unless there is nothing, is a bound for everything up to it. */
  lemma FromEarlier(q: seq<Event>, earliest: Time, t: int, strictly: bool)
    requires if earliest.At? then From(q, earliest.t) else q == []
    requires earliest.At? ==> t <= earliest.t && (strictly ==> t < earliest.t)
    ensures From(q, t) && (strictly ==> From(q, t + 1))
  {
  }

  lemma {:induction false} DueHolds(qs: seq<seq<Event>>, i: nat, t: int, j: nat, e: Event)
    requires i <= j < |qs| && e in qs[j] && e.time == t
    ensures e in DueFrom(qs, i, t)
    decreases j - i
  {
    if i == j {
      InAtTime(qs[j], e);
    } else {
      DueHolds(qs, i + 1, t, j, e);
    }
  }

  lemma {:induction false} InAtTime(q: seq<Event>, e: Event)
    requires e in q
    ensures e in AtTime(q, e.time)
  {
    if q[0] != e {
      InAtTime(q[1..], e);
    }
  }

  /** Every step keeps the invariant, never runs time backwards, and panics only when a handler
      schedules an event in the past. */
  lemma StepKeepsInv(s: Engine, a: Action)
    requires Inv(s) && Enabled(s, a)
    ensures Step(s, a).Panic? ==> a.Schedule? && a.e.time < s.now
    ensures Step(s, a).Next? ==> Inv(Step(s, a).s) && s.now <= Step(s, a).s.now
  {
    hide Inv, Step;
    match a
    case Schedule(e, q) => ScheduleStep(s, e, q);
    case DetermineWhatToRun => DetermineKeepsInv(s);
    case RunEvent(k) =>
      RunKeepsInv(s, k);
      RunStep(s, k);
    case ReturnQueue =>
      ReturnKeepsInv(s);
      ReturnStep(s);
    case WorkerDone(e) => WorkerKeepsInv(s, e);
    case RoundOver => OverKeepsInv(s);
  }

  lemma ScheduleStep(s: Engine, e: Event, q: nat)
    requires Inv(s) && Enabled(s, Schedule(e, q))
    ensures Step(s, Schedule(e, q)).Panic? ==> e.time < s.now
    ensures Step(s, Schedule(e, q)).Next? ==> Inv(Step(s, Schedule(e, q)).s) && s.now <= Step(s, Schedule(e, q)).s.now
  {
    hide Inv;
    if s.now <= e.time {
      ScheduleKeepsInv(s, e, q);
    }
  }

  lemma RunStep(s: Engine, k: nat)
    requires Enabled(s, RunEvent(k)) && Step(s, RunEvent(k)).Next?
    ensures Step(s, RunEvent(k)).s.now == s.now
  {
  }

  lemma ReturnStep(s: Engine)
    requires Enabled(s, ReturnQueue) && Step(s, ReturnQueue).Next?
    ensures Step(s, ReturnQueue).s.now == s.now
  {
  }

  lemma WorkerKeepsInv(s: Engine, e: Event)
    requires Inv(s) && Enabled(s, WorkerDone(e))
    ensures Step(s, WorkerDone(e)).Next? && Inv(Step(s, WorkerDone(e)).s) && Step(s, WorkerDone(e)).s.now == s.now
  {
    hide EarliestOf, EarliestIn, All, DueFrom, Everything, AtTime, From, Classes;
    var t := Step(s, WorkerDone(e)).s;
    assert forall x :: x in t.running ==> x in s.running;
    SameQueues(s, t);
    assert Timely(t);
    assert Rounds(t);
    assert (s.running - multiset{e}) + (s.done + multiset{e}) == s.running + s.done;
    assert Conserved(t);
  }

  lemma OverKeepsInv(s: Engine)
    requires Inv(s) && Enabled(s, RoundOver)
    ensures Step(s, RoundOver).Next? && Inv(Step(s, RoundOver).s) && Step(s, RoundOver).s.now == s.now
  {
    hide EarliestOf, EarliestIn, All, DueFrom, Everything, AtTime, From, Classes;
    SameQueues(s, Step(s, RoundOver).s);
  }

  lemma SameQueues(s: Engine, t: Engine)
    requires Classes(s) && t.queues == s.queues && t.secondaryQueues == s.secondaryQueues
    ensures Classes(t)
  {
  }

  // ----- every interleaving -----

  ghost predicate Reaches(s: Engine, acts: seq<Action>, t: Engine)
    decreases |acts|
  {
    if acts == [] then t == s
    else Enabled(s, acts[0]) && Step(s, acts[0]).Next? && Reaches(Step(s, acts[0]).s, acts[1..], t)
  }

  /** For every interleaving of the run loop and the workers: time never goes back, what runs is of the
      present time and of the round's class, and every scheduled event is queued, running or done,
      once. */
  lemma {:induction false} EveryInterleavingKeepsInv(s: Engine, acts: seq<Action>, t: Engine)
    requires Inv(s) && Reaches(s, acts, t)
    ensures Inv(t) && s.now <= t.now
    decreases |acts|
  {
    hide Inv, Step, Enabled;
    if acts != [] {
      StepKeepsInv(s, acts[0]);
      EveryInterleavingKeepsInv(Step(s, acts[0]).s, acts[1..], t);
    }
  }

  function NewEngine(numQueues: nat): Engine
    requires numQueues > 0
  {
    var empty := seq(numQueues, _ => []);
    Engine(0, false, Idle, empty, empty, Everything(numQueues), Everything(numQueues), multiset{}, multiset{}, multiset{}, multiset{}, multiset{})
  }

  lemma {:induction false} AllOfEmpty(qs: seq<seq<Event>>)
    requires forall i :: 0 <= i < |qs| ==> qs[i] == []
    ensures All(qs) == multiset{}
  {
    if qs != [] {
      AllOfEmpty(qs[..|qs| - 1]);
    }
  }

  lemma NewEngineInv(numQueues: nat)
    requires numQueues > 0
    ensures Inv(NewEngine(numQueues))
  {
    var s := NewEngine(numQueues);
    AllOfEmpty(s.queues);
    assert Classes(s) && Timely(s) && Rounds(s) && Conserved(s);
  }

  /** A round of secondary events starts only when every queued primary event is later; every round
      runs at least one event. */
  lemma SecondaryRoundsComeLast(numQueues: nat, acts: seq<Action>, s: Engine)
    requires numQueues > 0 && Reaches(NewEngine(numQueues), acts, s) && Enabled(s, DetermineWhatToRun)
    ensures Step(s, DetermineWhatToRun).Next?
    ensures var t := Step(s, DetermineWhatToRun).s;
      && t.due != multiset{}
      && (t.onSecondary ==> forall i, e {:trigger e in t.queues[i]} :: 0 <= i < |t.queues| && e in t.queues[i] ==> t.now < e.time)
  {
    NewEngineInv(numQueues);
    EveryInterleavingKeepsInv(NewEngine(numQueues), acts, s);
    DetermineKeepsInv(s);
    var t := Step(s, DetermineWhatToRun).s;
    forall i, e | 0 <= i < |t.queues| && e in t.queues[i]
      ensures t.onSecondary ==> t.now < e.time
    {
      assert From(t.queues[i], if t.onSecondary then t.now + 1 else t.now);
    }
  }

  /** A round that is over has run exactly the events of its class and time that were queued when it
      began, none lost and none twice; and the past-event panics of the run loop cannot happen. */
  lemma RoundsRunWhatWasDue(numQueues: nat, acts: seq<Action>, s: Engine, a: Action)
    requires numQueues > 0 && Reaches(NewEngine(numQueues), acts, s) && Enabled(s, a)
    ensures a.RoundOver? ==> s.ran == s.due
    ensures a.RunEvent? ==> Step(s, a).Next?
    ensures s.scheduled == All(s.queues) + All(s.secondaryQueues) + s.running + s.done
    ensures forall e :: e in s.running ==> e.time == s.now
  {
    NewEngineInv(numQueues);
    EveryInterleavingKeepsInv(NewEngine(numQueues), acts, s);
    StepKeepsInv(s, a);
  }
}
