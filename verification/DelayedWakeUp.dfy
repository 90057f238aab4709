/**
 The delayed connection under the engine: the events of `DirectLink` with the delayed connection's
 tick in place of the direct one's, rescheduling included.
 */
module DelayedWakeUp {
  import opened DirectLink
  import D = DelayedLink

  /** The direct connection's invariant, and while anything is pending a tick is in the queue. */
  ghost predicate Inv(w: Wiring, l: D.Latency, d: D.Delayed)
  {
    && D.Inv(w, l, d) && DirectLink.Inv(w, d.net)
    && (d.net.link.pending == {} ==> NothingPending(d))
  }

  ghost predicate NothingPending(d: D.Delayed)
  {
    forall e {:trigger d.lanes[e]} :: 0 <= e < |d.lanes| ==> d.lanes[e].pending == []
  }

  // ----- events -----

  ghost function Act(w: Wiring, l: D.Latency, d: D.Delayed, a: Action): D.Delayed
    requires D.Inv(w, l, d)
  {
    match a
    case SendMsg(m) => D.Step(w, l, d, D.Sending(m))
    case RetrieveFrom(p) => D.Step(w, l, d, D.Retrieving(p))
    case ScheduleAt(t) => d.(net := DirectLink.Act(w, d.net, a))
  }

  lemma ActIsAct(w: Wiring, l: D.Latency, d: D.Delayed, a: Action)
    requires D.Inv(w, l, d)
    ensures D.Inv(w, l, Act(w, l, d, a)) && Wired(w, d.net)
    ensures Act(w, l, d, a).net == DirectLink.Act(w, d.net, a)
    ensures SamePending(d, Act(w, l, d, a)) && d.net.link.pending <= Act(w, l, d, a).net.link.pending
  {
    hide D.LaneOk;
    D.InvSizes(w, l, d);
    ActWired(w, d.net, a);
    match a
    case SendMsg(m) => D.StepKeepsInv(w, l, d, D.Sending(m));
    case RetrieveFrom(p) => D.StepKeepsInv(w, l, d, D.Retrieving(p));
    case ScheduleAt(t) => D.SameLanes(w, l, d, Act(w, l, d, a));
  }

  ghost predicate SamePending(d: D.Delayed, t: D.Delayed)
  {
    |t.lanes| == |d.lanes| && forall e {:trigger t.lanes[e]} :: 0 <= e < |d.lanes| ==> t.lanes[e].pending == d.lanes[e].pending
  }

  ghost function Acts(w: Wiring, l: D.Latency, d: D.Delayed, acts: seq<Action>): (r: D.Delayed)
    requires D.Inv(w, l, d)
    ensures D.Inv(w, l, r) && Wired(w, d.net) && r.net == DirectLink.Acts(w, d.net, acts)
    ensures SamePending(d, r) && d.net.link.pending <= r.net.link.pending
    decreases |acts|
  {
    D.InvSizes(w, l, d);
    if acts == [] then d
    else
      ActIsAct(w, l, d, acts[0]);
      Acts(w, l, Act(w, l, d, acts[0]), acts[1..])
  }

  /** The net may change its clock, its tickers and the queue. */
  lemma Later(w: Wiring, l: D.Latency, d: D.Delayed, net: Net)
    requires D.Inv(w, l, d) && d.net.now <= net.now && |net.comps| == |d.net.comps|
    requires net == d.net.(now := net.now, comps := net.comps, others := net.others, link := net.link)
    ensures D.Inv(w, l, d.(net := net))
  {
    hide D.LaneOk;
    NowWired(w, d.net, net);
    forall e | 0 <= e < |d.lanes|
      ensures D.LaneOk(l, d.lanes[e], net.ends[e].buf, net.now)
    {
      D.LaterLane(l, d.lanes[e], d.net.ends[e].buf, d.net.now, net.now);
    }
  }

  lemma {:induction false} WakeAllFrame(w: Wiring, s: Net, woken: seq<nat>)
    requires Wired(w, s) && forall c :: c in woken ==> c < |s.comps|
    ensures var t := WakeAll(w, s, woken); t == s.(comps := t.comps) && |t.comps| == |s.comps|
    decreases |woken|
  {
    if woken != [] {
      assert woken[0] in woken && forall c :: c in woken[1..] ==> c in woken;
      WiredFrame(w, s, Wake(w, s, woken[0]));
      WakeAllFrame(w, Wake(w, s, woken[0]), woken[1..]);
    }
  }

  /** The event has been taken off its queue. */
  lemma Begun(w: Wiring, l: D.Latency, d: D.Delayed, ev: Event)
    requires D.Inv(w, l, d) && Enabled(d.net, ev) && d.net.now <= ev.t
    ensures D.Inv(w, l, d.(net := Begin(d.net, ev)))
  {
    hide D.Inv;
    Later(w, l, d, Begin(d.net, ev));
  }

  /** One event of the engine, which panics on an event in the past. */
  ghost function Step(w: Wiring, l: D.Latency, d: D.Delayed, ev: Event): D.Delayed
    requires D.Inv(w, l, d) && Enabled(d.net, ev)
  {
    if ev.t < d.net.now then d
    else
      Begun(w, l, d, ev);
      var b := d.(net := Begin(d.net, ev));
      D.InvSizes(w, l, b);
      Handled(w, l, b, ev)
  }

  ghost function Handled(w: Wiring, l: D.Latency, b: D.Delayed, ev: Event): D.Delayed
    requires D.Inv(w, l, b) && Wired(w, b.net) && (ev.Elsewhere? ==> forall c :: c in ev.woken ==> c < |b.net.comps|)
  {
    match ev
    case OwnTick(c, t, acts, progress) =>
      var u := Acts(w, l, b, acts);
      if progress && c < |u.net.comps| && |u.net.comps| == |w.clocks| then u.(net := Wake(w, u.net, c)) else u
    case OtherEvent(t, acts) => Acts(w, l, b, acts)
    case LinkTick(t) =>
      var (u, progress) := D.Tick(w, l, b);
      if progress then u.(net := u.net.(link := TickLater(u.net.link, w.clock, u.net.now))) else u
    case Elsewhere(t, woken) => b.(net := WakeAll(w, b.net, woken))
    case LateEvent(t, acts) => Acts(w, l, b, acts)
  }

  // ----- the tick -----

  lemma TellForwards(w: Wiring, s: Net, e: nat)
    requires Wired(w, s) && e < |s.ends| && Flags(s) && TickersArmed(s)
    ensures var t := D.Tell(w, s, e);
      Forwarded(s, t) && Flags(t) && TickersArmed(t) && |t.ends| == |s.ends| && t.ends == s.ends[e := t.ends[e]]
  {
    var c := s.ports[e].comp;
    WakeArmed(s.comps[c], w.clocks[c], s.now);
    assert EndOk(s.ends[e]);
  }

  lemma {:induction false} SweepForwards(w: Wiring, s: Net, e: nat, ps: seq<D.Pending>)
    requires Wired(w, s) && e < |s.ends| && D.Known(s, ps) && Flags(s) && TickersArmed(s)
    ensures var t := D.SweepFrom(w, s, e, ps).net;
      && Wired(w, t) && Forwarded(s, t) && Flags(t) && TickersArmed(t)
      && |t.ends| == |s.ends| && t.ends == s.ends[e := t.ends[e]]
    decreases |ps|
  {
    hide Forwarded, Flags, TickersArmed, Recv, D.Tell;
    if ps == [] {
      ForwardedSelf(s);
    } else {
      var p := ps[0];
      assert p in ps && forall q :: q in ps[1..] ==> q in ps;
      if p.due > s.now {
        SweepForwards(w, s, e, ps[1..]);
      } else {
        RecvWired(w, s, p.msg);
        D.RecvShape(w, s, p.msg);
        RecvForwards(w, s, p.msg);
        var (s1, ok) := Recv(w, s, p.msg);
        D.TellWired(w, s1, e);
        if ok {
          TellForwards(w, s1, e);
          var s2 := D.Tell(w, s1, e);
          SweepForwards(w, s2, e, ps[1..]);
          ForwardedStep(s, s1, s2);
          ForwardedStep(s, s2, D.SweepFrom(w, s2, e, ps[1..]).net);
        } else {
          SweepForwards(w, s1, e, ps[1..]);
          ForwardedStep(s, s1, D.SweepFrom(w, s1, e, ps[1..]).net);
        }
      }
    }
  }

  lemma {:induction false} DrainForwards(w: Wiring, s: Net, e: nat)
    requires Wired(w, s) && e < |s.ends| && Flags(s) && TickersArmed(s)
    ensures var t := D.Drain(w, s, e);
      && Wired(w, t) && Forwarded(s, t) && Flags(t) && TickersArmed(t)
      && |t.ends| == |s.ends| && t.ends == s.ends[e := t.ends[e]] && t.ends[e].buf == []
    decreases |s.ends[e].buf|
  {
    hide Forwarded, Flags, TickersArmed, Dequeue;
    if s.ends[e].buf == [] {
      ForwardedSelf(s);
    } else {
      DequeueWired(w, s, e);
      DequeueForwards(w, s, e);
      var s1 := Dequeue(w, s, e);
      DrainForwards(w, s1, e);
      ForwardedStep(s, s1, D.Drain(w, s1, e));
    }
  }

  /** One turn leaves its end empty or blocked and every other end untouched. */
  lemma TurnBlocks(w: Wiring, l: D.Latency, d: D.Delayed, e: nat)
    requires D.Inv(w, l, d) && e < |d.lanes| && Flags(d.net) && TickersArmed(d.net)
    ensures |d.net.ends| == |d.lanes|
    ensures var t := D.Turn(w, l, d, e).0.net;
      && Forwarded(d.net, t) && Flags(t) && TickersArmed(t)
      && |t.ends| == |d.net.ends| && t.ends == d.net.ends[e := t.ends[e]] && Blocked(t, e)
  {
    hide Forwarded, Flags, TickersArmed, Wired, ForwardMany, D.Drain, D.SweepFrom, D.LaneOk;
    D.InvSizes(w, l, d);
    var r := D.SweepFrom(w, d.net, e, d.lanes[e].pending);
    D.SweepShape(w, d.net, e, d.lanes[e].pending);
    SweepForwards(w, d.net, e, d.lanes[e].pending);
    if l.AtOnce? {
      D.ForwardShape(w, r.net, e);
      ForwardManyBlocks(w, r.net, e);
    } else {
      DrainForwards(w, r.net, e);
    }
    ForwardedStep(d.net, r.net, D.Turn(w, l, d, e).0.net);
  }

  lemma {:induction false} TurnsBlock(w: Wiring, l: D.Latency, d: D.Delayed, i: nat)
    requires D.Inv(w, l, d) && i <= |d.net.ports| && Flags(d.net) && TickersArmed(d.net)
    requires |d.net.ends| == |d.net.ports| && d.net.nextPort < |d.net.ports|
    requires forall j {:trigger Rotated(j, d.net.nextPort, |d.net.ports|)} :: 0 <= j < i ==> Blocked(d.net, Rotated(j, d.net.nextPort, |d.net.ports|))
    ensures var t := D.TurnsFrom(w, l, d, i).0.net;
      && Forwarded(d.net, t) && Flags(t) && TickersArmed(t) && |t.ends| == |d.net.ports|
      && (forall j {:trigger Rotated(j, d.net.nextPort, |d.net.ports|)} :: 0 <= j < |d.net.ports| ==> Blocked(t, Rotated(j, d.net.nextPort, |d.net.ports|)))
    decreases |d.net.ports| - i
  {
    hide Forwarded, Flags, TickersArmed, D.Turn, D.Inv, Blocked, Rotated;
    if i == |d.net.ports| {
      ForwardedSelf(d.net);
    } else {
      var n := |d.net.ports|;
      var e := Rotated(i, d.net.nextPort, n);
      D.InvSizes(w, l, d);
      D.TurnKeepsInv(w, l, d, e);
      TurnBlocks(w, l, d, e);
      var d1 := D.Turn(w, l, d, e).0;
      forall j | 0 <= j < i + 1
        ensures Blocked(d1.net, Rotated(j, d.net.nextPort, n))
      {
        if j < i {
          RotationValue(j, d.net.nextPort, n);
          RotationValue(i, d.net.nextPort, n);
          ForwardedKeepsBlocked(d.net, d1.net, Rotated(j, d.net.nextPort, n));
        }
      }
      D.InvSizes(w, l, d1);
      TurnsBlock(w, l, d1, i + 1);
      ForwardedStep(d.net, d1.net, D.TurnsFrom(w, l, d1, i + 1).0.net);
    }
  }

  ghost predicate AllBlocked(s: Net)
  {
    forall e {:trigger s.ends[e]} :: 0 <= e < |s.ends| ==> Blocked(s, e)
  }

  /** A tick leaves every end empty or behind a port that has recorded its refusal. */
  lemma TickBlocks(w: Wiring, l: D.Latency, d: D.Delayed)
    requires D.Inv(w, l, d) && Flags(d.net) && TickersArmed(d.net)
    ensures var u := D.TurnsFrom(w, l, d, 0).0;
      && D.Inv(w, l, u) && Forwarded(d.net, u.net) && Flags(u.net) && TickersArmed(u.net)
      && AllBlocked(u.net)
  {
    hide Forwarded, Flags, TickersArmed, D.TurnsFrom, D.Inv, Blocked, Rotated;
    D.InvSizes(w, l, d);
    TurnsBlock(w, l, d, 0);
    D.TurnsKeepInv(w, l, d, 0);
    var t := D.TurnsFrom(w, l, d, 0).0.net;
    forall e | 0 <= e < |t.ends|
      ensures Blocked(t, e)
    {
      var i := RotationReaches(e, d.net.nextPort, |d.net.ports|);
      assert Blocked(t, Rotated(i, d.net.nextPort, |d.net.ports|));
    }
  }

  lemma TickPending(w: Wiring, l: D.Latency, d: D.Delayed)
    requires D.Inv(w, l, d)
    ensures var (u, progress) := D.Tick(w, l, d);
      && D.Inv(w, l, u) && u.lanes == D.TurnsFrom(w, l, d, 0).0.lanes && (!progress ==> NothingPending(u))
  {
    hide D.TurnsFrom, D.Inv;
    var (u, progress) := D.Tick(w, l, d);
    D.StepKeepsInv(w, l, d, D.Ticking);
    forall e | 0 <= e < |u.lanes|
      ensures !progress ==> u.lanes[e].pending == []
    {
      LaneCount(w, l, d);
      D.HeldMessagesKeepTicking(w, l, d, e);
    }
  }

  lemma LaneCount(w: Wiring, l: D.Latency, d: D.Delayed)
    requires D.Inv(w, l, d)
    ensures |D.Tick(w, l, d).0.lanes| == |d.lanes|
  {
    hide D.Inv;
    D.InvSizes(w, l, d);
    D.HeldMessagesKeepTicking(w, l, d, d.net.nextPort);
  }

  lemma LinkTickKeepsInv(w: Wiring, l: D.Latency, b: D.Delayed)
    requires D.Inv(w, l, b) && Flags(b.net) && TickersArmed(b.net) && Armed(b.net.link, b.net.now) && AllPrimary(b.net, b.net.now)
    ensures D.Tick(w, l, b).0.net.now == b.net.now
    ensures var (u, progress) := D.Tick(w, l, b);
      Inv(w, l, if progress then u.(net := u.net.(link := TickLater(u.net.link, w.clock, u.net.now))) else u)
  {
    hide D.TurnsFrom, D.LaneOk;
    TickBlocks(w, l, b);
    TickPending(w, l, b);
    var m := D.TurnsFrom(w, l, b, 0).0.net;
    var (d, progress) := D.Tick(w, l, b);
    var u := if progress then d.(net := d.net.(link := TickLater(d.net.link, w.clock, d.net.now))) else d;
    D.InvSizes(w, l, d);
    Later(w, l, d, u.net);
    WakeArmed(d.net.link, w.clock, d.net.now);
    TickedInv(w, b.net, m, u.net);
  }

  /** What a tick leaves behind satisfies the direct connection's invariant. */
  lemma TickedInv(w: Wiring, b: Net, m: Net, u: Net)
    requires Wired(w, u) && Armed(b.link, b.now) && AllPrimary(b, b.now)
    requires Forwarded(b, m) && Flags(m) && TickersArmed(m)
    requires AllBlocked(m)
    requires u == m.(nextPort := u.nextPort, link := u.link)
    requires Armed(u.link, u.now) && (u.link == b.link || Awake(u.link, u.now))
    ensures DirectLink.Inv(w, u)
  {
    forall e | 0 <= e < |u.ends|
      ensures Blocked(u, e)
    {
      assert Blocked(m, e) && m.ends[e] == u.ends[e];
    }
    forall c, x | 0 <= c < |u.comps| && x in u.comps[c].pending
      ensures u.now < x
    {
      assert Woken(b.comps[c], m.comps[c], b.now);
      assert x in b.comps[c].pending || x !in b.comps[c].pending;
    }
    assert TickersArmed(u) && Flags(u);
  }

  // ----- every run -----

  /** At the end of every event, whatever is buffered or pending has a tick to come or waits for a port
      that will ask for one, under the same condition on secondary events as in `DirectLink`. */
  lemma StepKeepsInv(w: Wiring, l: D.Latency, d: D.Delayed, ev: Event)
    requires Inv(w, l, d) && Enabled(d.net, ev)
    ensures Inv(w, l, Step(w, l, d, ev)) <==> SafeEvent(w, d.net, ev)
  {
    hide D.Inv, DirectLink.Inv, D.Tick, DirectLink.Acts, WakeAll, SafeActs, Acts, Enabled;
    DirectLink.StepKeepsInv(w, d.net, ev);
    DirectLink.BeginDuring(w, d.net, ev);
    Begun(w, l, d, ev);
    if ev.LinkTick? {
      LinkTickKeepsInv(w, l, d.(net := Begin(d.net, ev)));
    } else {
      SameStep(w, l, d, ev);
    }
  }

  /** Every other event changes the net as it does for a direct connection, and nothing that is pending. */
  lemma SameStep(w: Wiring, l: D.Latency, d: D.Delayed, ev: Event)
    requires D.Inv(w, l, d) && Enabled(d.net, ev) && d.net.now <= ev.t && !ev.LinkTick?
    ensures Wired(w, d.net)
    ensures var t := Step(w, l, d, ev);
      && D.Inv(w, l, t) && t.net == DirectLink.Step(w, d.net, ev)
      && SamePending(d, t) && d.net.link.pending <= t.net.link.pending
  {
    hide D.LaneOk;
    Begun(w, l, d, ev);
    var b := d.(net := Begin(d.net, ev));
    D.InvSizes(w, l, b);
    match ev
    case OwnTick(c, t, acts, progress) =>
      var u := Acts(w, l, b, acts);
      D.InvSizes(w, l, u);
      if progress && c < |u.net.comps| {
        Later(w, l, u, Wake(w, u.net, c));
      }
    case OtherEvent(t, acts) =>
    case Elsewhere(t, woken) =>
      WakeAllFrame(w, b.net, woken);
      Later(w, l, b, WakeAll(w, b.net, woken));
    case LateEvent(t, acts) =>
  }

  lemma TickStep(w: Wiring, l: D.Latency, d: D.Delayed, ev: Event)
    requires D.Inv(w, l, d) && Enabled(d.net, ev) && d.net.now <= ev.t && ev.LinkTick?
    ensures D.Inv(w, l, Step(w, l, d, ev))
  {
    hide D.Inv, D.Tick;
    Begun(w, l, d, ev);
    var b := d.(net := Begin(d.net, ev));
    TickPending(w, l, b);
    var u := D.Tick(w, l, b).0;
    Later(w, l, u, u.net.(link := TickLater(u.net.link, w.clock, u.net.now)));
  }

  lemma StepStays(w: Wiring, l: D.Latency, d: D.Delayed, ev: Event)
    requires D.Inv(w, l, d) && Enabled(d.net, ev)
    ensures D.Inv(w, l, Step(w, l, d, ev)) && Wired(w, d.net)
  {
    hide D.LaneOk, Step;
    D.InvSizes(w, l, d);
    if ev.t < d.net.now {
      PastStep(w, l, d, ev);
    } else if ev.LinkTick? {
      TickStep(w, l, d, ev);
    } else {
      SameStep(w, l, d, ev);
    }
  }

  lemma PastStep(w: Wiring, l: D.Latency, d: D.Delayed, ev: Event)
    requires D.Inv(w, l, d) && Enabled(d.net, ev) && ev.t < d.net.now
    ensures Step(w, l, d, ev) == d
  {
  }

  ghost predicate Runs(w: Wiring, l: D.Latency, d: D.Delayed, evs: seq<Event>, t: D.Delayed)
    requires D.Inv(w, l, d)
    decreases |evs|
  {
    if evs == [] then t == d
    else
      Enabled(d.net, evs[0]) &&
        (StepStays(w, l, d, evs[0]);
         Runs(w, l, Step(w, l, d, evs[0]), evs[1..], t))
  }

  /** Every handler of a secondary event acts safely. */
  ghost predicate SafeRun(w: Wiring, l: D.Latency, d: D.Delayed, evs: seq<Event>)
    requires D.Inv(w, l, d)
    decreases |evs|
  {
    evs == [] || (Enabled(d.net, evs[0]) &&
      (StepStays(w, l, d, evs[0]);
       SafeEvent(w, d.net, evs[0]) && SafeRun(w, l, Step(w, l, d, evs[0]), evs[1..])))
  }

  /** The invariant holds after every event of a run. */
  ghost predicate AlwaysInv(w: Wiring, l: D.Latency, d: D.Delayed, evs: seq<Event>)
    decreases |evs|
  {
    Inv(w, l, d) && (evs == [] || (Enabled(d.net, evs[0]) && AlwaysInv(w, l, Step(w, l, d, evs[0]), evs[1..])))
  }

  lemma InvParts(w: Wiring, l: D.Latency, d: D.Delayed)
    requires Inv(w, l, d)
    ensures D.Inv(w, l, d) && DirectLink.Inv(w, d.net)
    ensures d.net.link.pending == {} ==> NothingPending(d)
  {
  }

  /** No run of the engine forgets a message that is buffered or pending, if and only if the handlers of
      secondary events act safely. */
  lemma {:induction false} EveryRunKeepsInv(w: Wiring, l: D.Latency, d: D.Delayed, evs: seq<Event>, t: D.Delayed)
    requires Inv(w, l, d) && D.Inv(w, l, d) && Runs(w, l, d, evs, t)
    ensures AlwaysInv(w, l, d, evs) <==> SafeRun(w, l, d, evs)
    ensures SafeRun(w, l, d, evs) ==> Inv(w, l, t)
    decreases |evs|
  {
    hide Inv, D.Inv, Step, Enabled, SafeEvent;
    if evs != [] {
      StepStays(w, l, d, evs[0]);
      StepKeepsInv(w, l, d, evs[0]);
      if SafeEvent(w, d.net, evs[0]) {
        EveryRunKeepsInv(w, l, Step(w, l, d, evs[0]), evs[1..], t);
      }
    }
  }

  /** When the engine runs out of connection ticks nothing is pending any more, and what is still in a
      buffer is at or behind a message whose destination has a full buffer. */
  lemma StuckOnlyBehindFullPorts(w: Wiring, l: D.Latency, d: D.Delayed, evs: seq<Event>, t: D.Delayed, e: nat)
    requires Wired(w, d.net) && |d.lanes| == |d.net.ends| && D.Fresh(d) && DirectLink.Fresh(d.net)
    ensures D.Inv(w, l, d)
    ensures Runs(w, l, d, evs, t) && SafeRun(w, l, d, evs) && t.net.link.pending == {} ==>
      && NothingPending(t)
      && (e < |t.net.ends| && t.net.ends[e].buf != [] ==>
           && t.net.ends[e].buf[0].dst < |t.net.ports|
           && var p := t.net.ports[t.net.ends[e].buf[0].dst]; p.portBusy && |p.buf| == p.capacity)
  {
    hide D.Inv, Runs, SafeRun, Inv;
    D.FreshInv(w, l, d);
    FreshInv(w, d.net);
    FreshBoth(w, l, d);
    if Runs(w, l, d, evs, t) && SafeRun(w, l, d, evs) && t.net.link.pending == {} {
      EveryRunKeepsInv(w, l, d, evs, t);
      InvParts(w, l, t);
      if e < |t.net.ends| && t.net.ends[e].buf != [] {
        assert t.net.link.pending != {} || Blocked(t.net, e);
        assert PortOk(t.net.ports[t.net.ends[e].buf[0].dst]);
      }
    }
  }

  lemma FreshBoth(w: Wiring, l: D.Latency, d: D.Delayed)
    requires D.Inv(w, l, d) && DirectLink.Inv(w, d.net) && D.Fresh(d)
    ensures Inv(w, l, d)
  {
  }
}
