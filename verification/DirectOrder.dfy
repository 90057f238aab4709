/**
 What a direct connection does with the messages it accepts: over every run each of them is delivered
 once, to its port, and in order for every pair of end and port.
 */
module DirectOrder {
  import opened DirectLink

  /** The messages that go through end `e` to port `p`. */
  function Between(w: Wiring, ms: seq<Msg>, e: nat, p: nat): (r: seq<Msg>)
    ensures ms == [] ==> r == []
  {
    if ms == [] then []
    else (if EndOf(w, ms[0]) == e && ms[0].dst == p then [ms[0]] else []) + Between(w, ms[1..], e, p)
  }

  lemma {:induction false} BetweenConcat(w: Wiring, a: seq<Msg>, b: seq<Msg>, e: nat, p: nat)
    ensures Between(w, a + b, e, p) == Between(w, a, e, p) + Between(w, b, e, p)
  {
    if a == [] {
      assert a + b == b;
    } else {
      assert (a + b)[1..] == a[1..] + b;
      BetweenConcat(w, a[1..], b, e, p);
    }
  }

  lemma BetweenOne(w: Wiring, m: Msg, e: nat, p: nat)
    ensures Between(w, [m], e, p) == if EndOf(w, m) == e && m.dst == p then [m] else []
  {
    assert [m][1..] == [];
  }

  /** Every message waits at the end it was sent through, or at the port it is for. */
  ghost predicate Homed(w: Wiring, s: Net)
  {
    && (forall e, m {:trigger m in s.ends[e].buf} :: 0 <= e < |s.ends| && m in s.ends[e].buf ==> EndOf(w, m) == e)
    && (forall p, m {:trigger m in s.ports[p].buf} :: 0 <= p < |s.ports| && m in s.ports[p].buf ==> m.dst == p)
  }

  /** What the connection and the port hold of one pair, oldest first. */
  function Carried(w: Wiring, s: Net, e: nat, p: nat): seq<Msg>
    requires e < |s.ends| && p < |s.ports|
  {
    Between(w, s.ports[p].buf, e, p) + Between(w, s.ends[e].buf, e, p)
  }

  /** What a component's calls get done: messages accepted by the connection, and messages retrieved
      from port `p`. */
  datatype Log = Log(accepted: seq<Msg>, retrieved: seq<Msg>)
  {
    function Then(next: Log): Log { Log(accepted + next.accepted, retrieved + next.retrieved) }
  }

  const NOTHING := Log([], [])

  function ActLog(w: Wiring, s: Net, a: Action, p: nat): Log
    requires Wired(w, s)
  {
    match a
    case SendMsg(m) => if Send(w, s, m).1 == Taken then Log([m], []) else NOTHING
    case RetrieveFrom(q) => if q == p && p < |s.ports| && s.ports[p].buf != [] then Log([], [s.ports[p].buf[0]]) else NOTHING
    case ScheduleAt(_) => NOTHING
  }

  ghost function ActsLog(w: Wiring, s: Net, acts: seq<Action>, p: nat): Log
    requires Wired(w, s)
    decreases |acts|
  {
    if acts == [] then NOTHING
    else
      ActWired(w, s, acts[0]);
      ActLog(w, s, acts[0], p).Then(ActsLog(w, Act(w, s, acts[0]), acts[1..], p))
  }

  ghost function EventLog(w: Wiring, s: Net, ev: Event, p: nat): Log
    requires Wired(w, s) && Enabled(s, ev)
  {
    NowWired(w, s, Begin(s, ev));
    if ev.LinkTick? || ev.Elsewhere? then NOTHING else ActsLog(w, Begin(s, ev), ev.acts, p)
  }

  ghost function RunLog(w: Wiring, s: Net, evs: seq<Event>, p: nat, t: Net): Log
    requires Runs(w, s, evs, t)
    decreases |evs|
  {
    if evs == [] then NOTHING else EventLog(w, s, evs[0], p).Then(RunLog(w, Step(w, s, evs[0]), evs[1..], p, t))
  }

  /** From `s` to `t` the messages of the pair are kept in order: held before and accepted is retrieved
      and still held. */
  ghost predicate Balanced(w: Wiring, s: Net, log: Log, t: Net, e: nat, p: nat)
    requires e < |s.ends| && p < |s.ports|
  {
    && |t.ends| == |s.ends| && |t.ports| == |s.ports| && Homed(w, t)
    && Carried(w, s, e, p) + Between(w, log.accepted, e, p) == Between(w, log.retrieved, e, p) + Carried(w, t, e, p)
    && forall m :: m in log.retrieved ==> m.dst == p
  }

  lemma BalancedThen(w: Wiring, s: Net, m: Net, t: Net, a: Log, b: Log, e: nat, p: nat)
    requires e < |s.ends| && p < |s.ports| && Balanced(w, s, a, m, e, p)
    requires Balanced(w, m, b, t, e, p)
    ensures Balanced(w, s, a.Then(b), t, e, p)
  {
    hide Homed, Between, Carried;
    BetweenConcat(w, a.accepted, b.accepted, e, p);
    BetweenConcat(w, a.retrieved, b.retrieved, e, p);
    Chain(Carried(w, s, e, p), Between(w, a.accepted, e, p), Between(w, b.accepted, e, p), Between(w, a.retrieved, e, p),
          Carried(w, m, e, p), Between(w, b.retrieved, e, p), Carried(w, t, e, p));
  }

  lemma Chain(before: seq<Msg>, a: seq<Msg>, b: seq<Msg>, c: seq<Msg>, held: seq<Msg>, d: seq<Msg>, after: seq<Msg>)
    requires before + a == c + held && held + b == d + after
    ensures before + (a + b) == c + d + after
  {
    assert before + (a + b) == (before + a) + b == c + (held + b);
  }

  ghost predicate SameBuffers(s: Net, t: Net)
  {
    && |t.ends| == |s.ends| && |t.ports| == |s.ports|
    && (forall i {:trigger t.ends[i]} {:trigger s.ends[i]} :: 0 <= i < |s.ends| ==> t.ends[i].buf == s.ends[i].buf)
    && (forall i {:trigger t.ports[i]} {:trigger s.ports[i]} :: 0 <= i < |s.ports| ==> t.ports[i].buf == s.ports[i].buf)
  }

  lemma BalancedAlike(w: Wiring, s: Net, b: Net, log: Log, d: Net, u: Net, e: nat, p: nat)
    requires e < |s.ends| && p < |s.ports| && SameBuffers(s, b) && SameBuffers(d, u) && Balanced(w, b, log, d, e, p)
    ensures Balanced(w, s, log, u, e, p)
  {
    hide Between;
    assert Homed(w, u);
  }

  /** Steps that touch no buffer. */
  lemma BalancedSame(w: Wiring, s: Net, t: Net, e: nat, p: nat)
    requires Homed(w, s) && e < |s.ends| && p < |s.ports| && SameBuffers(s, t)
    ensures Balanced(w, s, NOTHING, t, e, p)
  {
    hide Between;
    assert Homed(w, t);
    assert NOTHING.accepted == [] && NOTHING.retrieved == [];
    assert Carried(w, s, e, p) + [] == [] + Carried(w, t, e, p);
  }

  // ----- calls of components -----

  lemma ActBalanced(w: Wiring, s: Net, a: Action, e: nat, p: nat)
    requires Wired(w, s) && Homed(w, s) && e < |s.ends| && p < |s.ports|
    ensures Balanced(w, s, ActLog(w, s, a, p), Act(w, s, a), e, p)
  {
    hide Between;
    match a
    case SendMsg(m) =>
      SendBalanced(w, s, m, e, p);
    case RetrieveFrom(q) =>
      if q < |s.ports| && s.ports[q].buf != [] {
        RetrieveBalanced(w, s, q, e, p);
      } else {
        BalancedSame(w, s, s, e, p);
      }
    case ScheduleAt(_) =>
      BalancedSame(w, s, Act(w, s, a), e, p);
  }

  lemma SendBalanced(w: Wiring, s: Net, m: Msg, e: nat, p: nat)
    requires Wired(w, s) && Homed(w, s) && e < |s.ends| && p < |s.ports|
    ensures Balanced(w, s, ActLog(w, s, SendMsg(m), p), Send(w, s, m).0, e, p)
  {
    hide Between;
    if Send(w, s, m).1 == Taken {
      var buf, t := s.ends[EndOf(w, m)].buf, Send(w, s, m).0;
      BetweenOne(w, m, e, p);
      BetweenConcat(w, buf, [m], e, p);
      assert Carried(w, t, e, p) == Carried(w, s, e, p) + Between(w, [m], e, p);
    } else {
      BalancedSame(w, s, Send(w, s, m).0, e, p);
    }
  }

  lemma RetrieveBalanced(w: Wiring, s: Net, q: nat, e: nat, p: nat)
    requires Wired(w, s) && Homed(w, s) && e < |s.ends| && p < |s.ports| && q < |s.ports| && s.ports[q].buf != []
    ensures Balanced(w, s, ActLog(w, s, RetrieveFrom(q), p), Retrieve(s, q), e, p)
  {
    hide Between;
    var buf, t := s.ports[q].buf, Retrieve(s, q);
    assert buf == [buf[0]] + buf[1..];
    BetweenConcat(w, [buf[0]], buf[1..], e, p);
    assert t.ports[q].buf == buf[1..] && forall m :: m in buf[1..] ==> m in buf;
    assert Homed(w, t);
    if q == p {
      assert Carried(w, s, e, p) == Between(w, [buf[0]], e, p) + Carried(w, t, e, p);
      assert buf[0] in buf;
    }
  }

  lemma {:induction false} ActsBalanced(w: Wiring, s: Net, acts: seq<Action>, e: nat, p: nat)
    requires Wired(w, s) && Homed(w, s) && e < |s.ends| && p < |s.ports|
    ensures Balanced(w, s, ActsLog(w, s, acts, p), Acts(w, s, acts), e, p)
    decreases |acts|
  {
    hide Homed, ActLog, Act;
    if acts == [] {
      BalancedSame(w, s, s, e, p);
    } else {
      ActWired(w, s, acts[0]);
      ActBalanced(w, s, acts[0], e, p);
      var m := Act(w, s, acts[0]);
      ActsBalanced(w, m, acts[1..], e, p);
      BalancedThen(w, s, m, Acts(w, m, acts[1..]), ActLog(w, s, acts[0], p), ActsLog(w, m, acts[1..], p), e, p);
    }
  }

  // ----- the connection's tick -----

  /** One delivery: from the front of an end to the back of a port. */
  lemma DeliveryBalanced(w: Wiring, s: Net, from: nat, e: nat, p: nat)
    requires Wired(w, s) && Homed(w, s) && e < |s.ends| && p < |s.ports| && from < |s.ends| && s.ends[from].buf != []
    requires s.ends[from].buf[0].dst < |s.ports|
    ensures var (m, ok) := Recv(w, s, s.ends[from].buf[0]);
      && Wired(w, m) && m.ends == s.ends
      && Balanced(w, s, NOTHING, if ok then Dequeue(w, m, from) else m, e, p)
  {
    hide Between;
    var buf := s.ends[from].buf;
    RecvWired(w, s, buf[0]);
    var (m, ok) := Recv(w, s, buf[0]);
    if ok {
      var t := Dequeue(w, m, from);
      assert buf[0] in buf && forall x :: x in buf[1..] ==> x in buf;
      assert Homed(w, t);
      assert buf == [buf[0]] + buf[1..];
      BetweenConcat(w, [buf[0]], buf[1..], e, p);
      BetweenConcat(w, s.ports[buf[0].dst].buf, [buf[0]], e, p);
      BetweenOne(w, buf[0], e, p);
      assert Carried(w, s, e, p) == Carried(w, t, e, p);
    } else {
      BalancedSame(w, s, m, e, p);
    }
  }

  lemma {:induction false} ForwardBalanced(w: Wiring, s: Net, from: nat, e: nat, p: nat)
    requires Wired(w, s) && Homed(w, s) && e < |s.ends| && p < |s.ports| && from < |s.ends|
    ensures Balanced(w, s, NOTHING, ForwardMany(w, s, from).0, e, p)
    decreases |s.ends[from].buf|
  {
    hide Homed, Recv, Carried, Between;
    if s.ends[from].buf == [] {
      BalancedSame(w, s, s, e, p);
    } else {
      var head := s.ends[from].buf[0];
      assert head in s.ends[from].buf;
      DeliveryBalanced(w, s, from, e, p);
      var (m, ok) := Recv(w, s, head);
      if ok {
        DequeueWired(w, m, from);
        var d := Dequeue(w, m, from);
        ForwardBalanced(w, d, from, e, p);
        BalancedThen(w, s, d, ForwardMany(w, d, from).0, NOTHING, NOTHING, e, p);
      }
    }
  }

  lemma {:induction false} TurnsBalanced(w: Wiring, s: Net, i: nat, e: nat, p: nat)
    requires Wired(w, s) && Homed(w, s) && e < |s.ends| && p < |s.ports| && i <= |s.ports|
    ensures Balanced(w, s, NOTHING, Turns(w, s, i).0, e, p)
    decreases |s.ports| - i
  {
    hide Homed, ForwardMany, Carried, Between, Rotated;
    if i == |s.ports| {
      BalancedSame(w, s, s, e, p);
    } else {
      var from := Rotated(i, s.nextPort, |s.ports|);
      ForwardWired(w, s, from);
      ForwardBalanced(w, s, from, e, p);
      var m := ForwardMany(w, s, from).0;
      TurnsBalanced(w, m, i + 1, e, p);
      BalancedThen(w, s, m, Turns(w, m, i + 1).0, NOTHING, NOTHING, e, p);
    }
  }

  lemma {:induction false} WakeAllKeepsBuffers(w: Wiring, s: Net, woken: seq<nat>)
    requires Wired(w, s) && forall c :: c in woken ==> c < |s.comps|
    ensures WakeAll(w, s, woken).ports == s.ports && WakeAll(w, s, woken).ends == s.ends
  {
    WakeAllKeepsPorts(w, s, woken);
    WakeAllKeepsEnds(w, s, woken);
  }

  // ----- whole runs -----

  lemma StepBalanced(w: Wiring, s: Net, ev: Event, e: nat, p: nat)
    requires Wired(w, s) && Homed(w, s) && Enabled(s, ev) && e < |s.ends| && p < |s.ports|
    ensures Balanced(w, s, EventLog(w, s, ev, p), Step(w, s, ev), e, p)
  {
    hide Balanced, Turns;
    var b, u := Begin(s, ev), Step(w, s, ev);
    NowWired(w, s, b);
    assert Homed(w, b);
    match ev
    case LinkTick(_) =>
      TurnsBalanced(w, b, 0, e, p);
      BalancedAlike(w, s, b, NOTHING, Turns(w, b, 0).0, u, e, p);
    case Elsewhere(_, woken) =>
      WakeAllKeepsBuffers(w, b, woken);
      BalancedSame(w, s, u, e, p);
    case OwnTick(_, _, acts, _) =>
      ActsBalanced(w, b, acts, e, p);
      BalancedAlike(w, s, b, ActsLog(w, b, acts, p), Acts(w, b, acts), u, e, p);
    case OtherEvent(_, acts) =>
      ActsBalanced(w, b, acts, e, p);
      BalancedAlike(w, s, b, ActsLog(w, b, acts, p), Acts(w, b, acts), u, e, p);
    case LateEvent(_, acts) =>
      ActsBalanced(w, b, acts, e, p);
      BalancedAlike(w, s, b, ActsLog(w, b, acts, p), Acts(w, b, acts), u, e, p);
  }

  lemma {:induction false} EveryRunBalanced(w: Wiring, s: Net, evs: seq<Event>, t: Net, e: nat, p: nat)
    requires Wired(w, s) && Homed(w, s) && Runs(w, s, evs, t) && e < |s.ends| && p < |s.ports|
    ensures Balanced(w, s, RunLog(w, s, evs, p, t), t, e, p)
    decreases |evs|
  {
    hide Carried, Between, Step, EventLog, Enabled, Homed;
    if evs == [] {
      BalancedSame(w, s, s, e, p);
    } else {
      StepBalanced(w, s, evs[0], e, p);
      var m := Step(w, s, evs[0]);
      EveryRunBalanced(w, m, evs[1..], t, e, p);
      BalancedThen(w, s, m, t, EventLog(w, s, evs[0], p), RunLog(w, m, evs[1..], p, t), e, p);
    }
  }

  /** Over every run from a fresh connection, whatever the components do: what an end has accepted for
      a port is what was retrieved there, then what the port holds, then what the end holds, in the
      order of sending. Nothing is lost, doubled, reordered or delivered elsewhere. */
  lemma EveryRunDeliversInOrder(w: Wiring, s: Net, evs: seq<Event>, t: Net, e: nat, p: nat)
    requires Wired(w, s) && Fresh(s) && Runs(w, s, evs, t) && e < |s.ends| && p < |s.ports|
    ensures e < |t.ends| && p < |t.ports|
    ensures var log := RunLog(w, s, evs, p, t);
      && Between(w, log.accepted, e, p)
         == Between(w, log.retrieved, e, p) + Between(w, t.ports[p].buf, e, p) + Between(w, t.ends[e].buf, e, p)
      && (forall m :: m in log.retrieved || m in t.ports[p].buf ==> m.dst == p)
      && (forall m :: m in t.ends[e].buf ==> EndOf(w, m) == e)
  {
    hide Between, Wired, Runs;
    assert s.ends[e].buf == [] && s.ports[p].buf == [] && Homed(w, s);
    EveryRunBalanced(w, s, evs, t, e, p);
    var log := RunLog(w, s, evs, p, t);
    Chain([], Between(w, log.accepted, e, p), [], Between(w, log.retrieved, e, p), Carried(w, t, e, p),
          Between(w, t.ports[p].buf, e, p), Between(w, t.ends[e].buf, e, p));
    assert Carried(w, s, e, p) == [] && |t.ends| == |s.ends| && |t.ports| == |s.ports|;
  }
}
