/**
 A direct connection between ports, as one event-driven state machine: source buffers, port buffers,
 busy flags and the ticks that the connection and the components have scheduled.
 */
module DirectLink {
  import Powers

  datatype Msg = Msg(id: nat, src: nat, dst: nat, viaL2: bool)

  /** A component's port: messages received and not yet retrieved. */
  datatype Port = Port(buf: seq<Msg>, capacity: nat, portBusy: bool, comp: nat)

  /** The connection's end of a port: messages accepted and not yet delivered. */
  datatype End = End(buf: seq<Msg>, bufSize: nat, busy: bool)

  /** A tick scheduler with the ticks it has in the engine's queue. */
  datatype Ticker = Ticker(next: int, pending: set<int>)

  /** The next tick of a frequency after a time. */
  type Clock = int -> int

  ghost predicate Advances(clock: Clock) { forall t :: clock(t) > t }

  datatype Wiring = Wiring(
    clock: Clock, clocks: seq<Clock>,
    sharesL2End: bool, l2Port: nat, selfSenders: set<nat>)

  datatype Net = Net(
    now: int, ports: seq<Port>, ends: seq<End>, nextPort: nat,
    link: Ticker, comps: seq<Ticker>, others: multiset<int>)

  // ----- ticks -----

  function TickAt(k: Ticker, t: int): Ticker
  {
    if k.next >= t then k else Ticker(t, k.pending + {t})
  }

  function TickLater(k: Ticker, clock: Clock, now: int): Ticker
  {
    TickAt(k, clock(now))
  }

  ghost predicate Wired(w: Wiring, s: Net)
  {
    && Advances(w.clock) && (forall c {:trigger w.clocks[c]} :: 0 <= c < |w.clocks| ==> Advances(w.clocks[c]))
    && |s.ends| == |s.ports| && |w.clocks| == |s.comps| && w.l2Port < |s.ports| && s.nextPort < |s.ports|
    && (forall p {:trigger s.ports[p]} :: 0 <= p < |s.ports| ==> s.ports[p].comp < |s.comps|)
    && (forall e, m {:trigger m in s.ends[e].buf} :: 0 <= e < |s.ends| && m in s.ends[e].buf ==> m.dst < |s.ports|)
  }

  function Wake(w: Wiring, s: Net, c: nat): Net
    requires c < |s.comps| == |w.clocks|
  {
    s.(comps := s.comps[c := TickLater(s.comps[c], w.clocks[c], s.now)])
  }

  // ----- ports -----

  function Recv(w: Wiring, s: Net, m: Msg): (Net, bool)
    requires Wired(w, s) && m.dst < |s.ports|
  {
    var p := s.ports[m.dst];
    if |p.buf| >= p.capacity then (s.(ports := s.ports[m.dst := p.(portBusy := true)]), false)
    else (Wake(w, s.(ports := s.ports[m.dst := p.(buf := p.buf + [m])]), p.comp), true)
  }

  /** Take the oldest message; a port that had refused one tells the connection to tick now. */
  function Retrieve(s: Net, i: nat): Net
    requires i < |s.ports|
  {
    var p := s.ports[i];
    if p.buf == [] then s
    else
      var s1 := s.(ports := s.ports[i := p.(buf := p.buf[1..], portBusy := false)]);
      if p.portBusy then s1.(link := TickAt(s.link, s.now)) else s1
  }

  // ----- the connection -----

  datatype Answer = Taken | Refused | Fault

  function EndOf(w: Wiring, m: Msg): nat
  {
    if w.sharesL2End && m.viaL2 then w.l2Port else m.src
  }

  predicate Sendable(w: Wiring, s: Net, m: Msg)
  {
    m.src < |s.ports| && m.dst < |s.ports| && (m.src == m.dst ==> m.src in w.selfSenders)
  }

  function Send(w: Wiring, s: Net, m: Msg): (Net, Answer)
    requires Wired(w, s)
  {
    if !Sendable(w, s, m) then (s, Fault)
    else
      var e := EndOf(w, m);
      if |s.ends[e].buf| >= s.ends[e].bufSize then (s.(ends := s.ends[e := s.ends[e].(busy := true)]), Refused)
      else (s.(ends := s.ends[e := s.ends[e].(buf := s.ends[e].buf + [m])], link := TickAt(s.link, s.now)), Taken)
  }

  /** One turn of `forwardMany`: a message of end `e` has been received. */
  function Dequeue(w: Wiring, s: Net, e: nat): Net
    requires Wired(w, s) && e < |s.ends| && s.ends[e].buf != []
  {
    var end := s.ends[e];
    var s1 := if end.busy then Wake(w, s, s.ports[e].comp) else s;
    s1.(ends := s.ends[e := end.(buf := end.buf[1..], busy := false)])
  }

  lemma WiredFrame(w: Wiring, s: Net, t: Net)
    requires Wired(w, s) && |t.ports| == |s.ports| && |t.ends| == |s.ends| && |t.comps| == |s.comps| && t.nextPort < |t.ports|
    requires forall p {:trigger t.ports[p]} :: 0 <= p < |s.ports| ==> t.ports[p].comp == s.ports[p].comp
    requires forall e {:trigger t.ends[e]} :: 0 <= e < |s.ends| ==> forall m :: m in t.ends[e].buf ==> m in s.ends[e].buf || m.dst < |s.ports|
    ensures Wired(w, t)
  {
  }

  lemma RecvWired(w: Wiring, s: Net, m: Msg)
    requires Wired(w, s) && m.dst < |s.ports|
    ensures Wired(w, Recv(w, s, m).0) && Recv(w, s, m).0.ends == s.ends
    ensures Recv(w, s, m).0.now == s.now
  {
    WiredFrame(w, s, Recv(w, s, m).0);
  }

  lemma DequeueWired(w: Wiring, s: Net, e: nat)
    requires Wired(w, s) && e < |s.ends| && s.ends[e].buf != []
    ensures Wired(w, Dequeue(w, s, e))
  {
    WiredFrame(w, s, Dequeue(w, s, e));
  }

  /** Deliver from the front of one end until it is empty or the destination refuses. */
  ghost function ForwardMany(w: Wiring, s: Net, e: nat): (Net, bool)
    requires Wired(w, s) && e < |s.ends|
    decreases |s.ends[e].buf|
  {
    if s.ends[e].buf == [] then (s, false)
    else
      var head := s.ends[e].buf[0];
      assert head in s.ends[e].buf;
      RecvWired(w, s, head);
      var (s1, taken) := Recv(w, s, head);
      if !taken then (s1, false)
      else
        DequeueWired(w, s1, e);
        (ForwardMany(w, Dequeue(w, s1, e), e).0, true)
  }

  lemma {:induction false} ForwardWired(w: Wiring, s: Net, e: nat)
    requires Wired(w, s) && e < |s.ends|
    ensures Wired(w, ForwardMany(w, s, e).0) && |ForwardMany(w, s, e).0.ends| == |s.ends|
    ensures ForwardMany(w, s, e).0.nextPort == s.nextPort
    decreases |s.ends[e].buf|
  {
    if s.ends[e].buf != [] {
      var head := s.ends[e].buf[0];
      assert head in s.ends[e].buf;
      RecvWired(w, s, head);
      var (s1, taken) := Recv(w, s, head);
      if taken {
        DequeueWired(w, s1, e);
        ForwardWired(w, Dequeue(w, s1, e), e);
      }
    }
  }

  function Rotated(i: nat, first: nat, n: nat): (r: nat)
    requires n > 0
    ensures r < n
  {
    (i + first) % n
  }

  /** The loop of `Tick` from turn `i` on: the ends in rotated order. */
  ghost function Turns(w: Wiring, s: Net, i: nat): (Net, bool)
    requires Wired(w, s) && i <= |s.ports|
    decreases |s.ports| - i
  {
    if i == |s.ports| then (s, false)
    else
      var e := Rotated(i, s.nextPort, |s.ports|);
      ForwardWired(w, s, e);
      var (s1, some) := ForwardMany(w, s, e);
      var (s2, more) := Turns(w, s1, i + 1);
      (s2, some || more)
  }

  ghost function Tick(w: Wiring, s: Net): (Net, bool)
    requires Wired(w, s)
  {
    var (t, progress) := Turns(w, s, 0);
    (t.(nextPort := if |t.ports| == 0 then 0 else (t.nextPort + 1) % |t.ports|), progress)
  }

  // ----- what the steps of the connection leave alone -----

  /** The ticker may have gained ticks after `now`. */
  ghost predicate Woken(k: Ticker, l: Ticker, now: int)
  {
    && k.pending <= l.pending && k.next <= l.next
    && (forall t :: t in l.pending && t !in k.pending ==> now < t <= l.next)
    && (l.next != k.next ==> l.next > now && l.next in l.pending)
  }

  /** A tick after `now` is waiting. */
  ghost predicate Awake(k: Ticker, now: int)
  {
    k.next > now && k.next in k.pending
  }

  /** A tick that is recorded as the next one and is still to come is in the queue. */
  ghost predicate Armed(k: Ticker, now: int)
  {
    && (k.next > now ==> k.next in k.pending)
    && (forall t :: t in k.pending ==> now <= t <= k.next)
  }

  ghost predicate PortOk(p: Port)
  {
    |p.buf| <= p.capacity && (p.portBusy ==> |p.buf| == p.capacity)
  }

  ghost predicate EndOk(e: End)
  {
    |e.buf| <= e.bufSize && (e.busy ==> |e.buf| == e.bufSize)
  }

  ghost predicate Flags(s: Net)
  {
    && (forall p {:trigger s.ports[p]} :: 0 <= p < |s.ports| ==> PortOk(s.ports[p]))
    && (forall e {:trigger s.ends[e]} :: 0 <= e < |s.ends| ==> EndOk(s.ends[e]))
  }

  ghost predicate SameShape(s: Net, t: Net)
  {
    && t.now == s.now && t.others == s.others && |t.ports| == |s.ports| && |t.ends| == |s.ends| && |t.comps| == |s.comps|
    && (forall p {:trigger t.ports[p]} :: 0 <= p < |s.ports| ==> t.ports[p].comp == s.ports[p].comp && t.ports[p].capacity == s.ports[p].capacity)
    && (forall e {:trigger t.ends[e]} :: 0 <= e < |s.ends| ==> t.ends[e].bufSize == s.ends[e].bufSize)
  }

  /** What the connection does between two states of its tick: refusals stay recorded, components
      only gain later ticks, and whoever is sent a message or may send again is awake. */
  ghost predicate Forwarded(s: Net, t: Net)
  {
    && SameShape(s, t) && t.link == s.link && t.nextPort == s.nextPort
    && (forall p {:trigger t.ports[p]} :: 0 <= p < |s.ports| ==> s.ports[p].portBusy ==> t.ports[p].portBusy)
    && (forall p {:trigger t.ports[p]} :: 0 <= p < |s.ports| && s.ports[p].comp < |s.comps| ==>
          s.ports[p].buf <= t.ports[p].buf && (t.ports[p].buf != s.ports[p].buf ==> Awake(t.comps[s.ports[p].comp], s.now)))
    && (forall c {:trigger t.comps[c]} :: 0 <= c < |s.comps| ==> Woken(s.comps[c], t.comps[c], s.now))
    && (forall e {:trigger t.ends[e]} :: 0 <= e < |s.ends| && e < |s.ports| && s.ports[e].comp < |s.comps| ==>
          s.ends[e].busy && !t.ends[e].busy ==> Awake(t.comps[s.ports[e].comp], s.now))
  }

  lemma ForwardedStep(s: Net, m: Net, t: Net)
    requires Forwarded(s, m) && Forwarded(m, t)
    ensures Forwarded(s, t)
  {
    forall e | 0 <= e < |s.ends| && e < |s.ports| && s.ports[e].comp < |s.comps| && s.ends[e].busy && !t.ends[e].busy
      ensures Awake(t.comps[s.ports[e].comp], s.now)
    {
      var c := s.ports[e].comp;
      assert m.ports[e].comp == c;
      assert Woken(m.comps[c], t.comps[c], s.now);
      if m.ends[e].busy {
        assert Awake(t.comps[m.ports[e].comp], m.now);
      }
    }
    forall c | 0 <= c < |s.comps|
      ensures Woken(s.comps[c], t.comps[c], s.now)
    {
      assert Woken(s.comps[c], m.comps[c], s.now) && Woken(m.comps[c], t.comps[c], s.now);
    }
    forall p | 0 <= p < |s.ports|
      ensures s.ports[p].portBusy ==> t.ports[p].portBusy
      ensures t.ports[p].comp == s.ports[p].comp && t.ports[p].capacity == s.ports[p].capacity
      ensures s.ports[p].comp < |s.comps| ==>
        s.ports[p].buf <= t.ports[p].buf && (t.ports[p].buf != s.ports[p].buf ==> Awake(t.comps[s.ports[p].comp], s.now))
    {
      assert m.ports[p].comp == s.ports[p].comp;
      if s.ports[p].comp < |s.comps| && m.ports[p].buf != s.ports[p].buf {
        assert Awake(m.comps[s.ports[p].comp], s.now) && Woken(m.comps[s.ports[p].comp], t.comps[s.ports[p].comp], s.now);
      }
    }
    forall e | 0 <= e < |s.ends|
      ensures t.ends[e].bufSize == s.ends[e].bufSize
    {
      assert m.ends[e].bufSize == s.ends[e].bufSize;
    }
  }

  /** The first message of end `e`, if any, waits for a port that has recorded its refusal. */
  ghost predicate Blocked(s: Net, e: nat)
    requires e < |s.ends|
  {
    s.ends[e].buf == [] || (s.ends[e].buf[0].dst < |s.ports| && s.ports[s.ends[e].buf[0].dst].portBusy)
  }

  ghost predicate TickersArmed(s: Net)
  {
    forall c {:trigger s.comps[c]} :: 0 <= c < |s.comps| ==> Armed(s.comps[c], s.now)
  }

  lemma WakeArmed(k: Ticker, clock: Clock, now: int)
    requires Armed(k, now) && Advances(clock)
    ensures var l := TickLater(k, clock, now); Armed(l, now) && Awake(l, now) && Woken(k, l, now)
  {
  }

  lemma RecvForwards(w: Wiring, s: Net, m: Msg)
    requires Wired(w, s) && m.dst < |s.ports| && Flags(s) && TickersArmed(s)
    ensures var (t, taken) := Recv(w, s, m);
      && Forwarded(s, t) && Flags(t) && TickersArmed(t) && t.ends == s.ends
      && (!taken ==> t.ports[m.dst].portBusy && |s.ports[m.dst].buf| == s.ports[m.dst].capacity)
      && (taken ==> t.ports[m.dst].buf == s.ports[m.dst].buf + [m] && Awake(t.comps[s.ports[m.dst].comp], s.now))
  {
    var p := s.ports[m.dst];
    WakeArmed(s.comps[p.comp], w.clocks[p.comp], s.now);
    assert PortOk(p);
  }

  lemma DequeueForwards(w: Wiring, s: Net, e: nat)
    requires Wired(w, s) && e < |s.ends| && s.ends[e].buf != [] && Flags(s) && TickersArmed(s)
    ensures var t := Dequeue(w, s, e);
      && Forwarded(s, t) && Flags(t) && TickersArmed(t)
      && t.ends == s.ends[e := t.ends[e]] && t.ends[e].buf == s.ends[e].buf[1..]
      && t.ports == s.ports
  {
    var c := s.ports[e].comp;
    WakeArmed(s.comps[c], w.clocks[c], s.now);
    assert EndOk(s.ends[e]);
  }

  /** Forwarding one end leaves it empty or blocked, and every other end untouched. */
  lemma {:induction false} ForwardManyBlocks(w: Wiring, s: Net, e: nat)
    requires Wired(w, s) && e < |s.ends| && Flags(s) && TickersArmed(s)
    ensures var t := ForwardMany(w, s, e).0;
      && Wired(w, t) && Forwarded(s, t) && Flags(t) && TickersArmed(t)
      && |t.ends| == |s.ends| && t.ends == s.ends[e := t.ends[e]]
      && Blocked(t, e)
    decreases |s.ends[e].buf|
  {
    hide Forwarded, Flags, TickersArmed, Recv, Dequeue;
    ForwardWired(w, s, e);
    if s.ends[e].buf == [] {
      ForwardedSelf(s);
    } else {
      var head := s.ends[e].buf[0];
      assert head in s.ends[e].buf;
      RecvWired(w, s, head);
      RecvForwards(w, s, head);
      var (s1, taken) := Recv(w, s, head);
      assert |s1.ports| == |s.ports| by {
        ForwardedShape(s, s1);
      }
      if taken {
        DequeueWired(w, s1, e);
        DequeueForwards(w, s1, e);
        var s2 := Dequeue(w, s1, e);
        ForwardManyBlocks(w, s2, e);
        ForwardedStep(s, s1, s2);
        ForwardedStep(s, s2, ForwardMany(w, s, e).0);
      }
    }
  }

  lemma ForwardedSelf(s: Net)
    ensures Forwarded(s, s)
  {
  }

  lemma ForwardedShape(s: Net, t: Net)
    requires Forwarded(s, t)
    ensures SameShape(s, t) && t.link == s.link && t.nextPort == s.nextPort
  {
  }

  lemma ForwardedKeepsBlocked(s: Net, t: Net, e: nat)
    requires Forwarded(s, t) && e < |s.ends| && t.ends[e] == s.ends[e] && Blocked(s, e)
    ensures Blocked(t, e)
  {
  }

  lemma RotationValue(i: nat, first: nat, n: nat)
    requires i < n && first < n
    ensures Rotated(i, first, n) == if i + first < n then i + first else i + first - n
  {
    if i + first < n {
      Powers.DivModUnique(i + first, n, 0, i + first);
    } else {
      Powers.DivModUnique(i + first, n, 1, i + first - n);
    }
  }

  lemma RotationReaches(e: nat, first: nat, n: nat) returns (i: nat)
    requires e < n && first < n
    ensures i < n && Rotated(i, first, n) == e
  {
    i := if e >= first then e - first else e + n - first;
    RotationValue(i, first, n);
  }

  /** From turn `i` on, every end that was blocked stays so and the remaining ones become so. */
  lemma {:induction false} TurnsBlock(w: Wiring, s: Net, i: nat)
    requires Wired(w, s) && i <= |s.ports| && Flags(s) && TickersArmed(s)
    requires forall j {:trigger Rotated(j, s.nextPort, |s.ports|)} :: 0 <= j < i ==> Blocked(s, Rotated(j, s.nextPort, |s.ports|))
    ensures var t := Turns(w, s, i).0;
      && Wired(w, t) && Forwarded(s, t) && Flags(t) && TickersArmed(t)
      && (forall j {:trigger Rotated(j, s.nextPort, |s.ports|)} :: 0 <= j < |s.ports| ==> Blocked(t, Rotated(j, s.nextPort, |s.ports|)))
    decreases |s.ports| - i
  {
    hide Forwarded, Flags, TickersArmed, ForwardMany, Blocked, Rotated;
    if i == |s.ports| {
      ForwardedSelf(s);
    } else {
      var n := |s.ports|;
      var e := Rotated(i, s.nextPort, n);
      ForwardWired(w, s, e);
      ForwardManyBlocks(w, s, e);
      var s1 := ForwardMany(w, s, e).0;
      ForwardedShape(s, s1);
      forall j | 0 <= j < i + 1
        ensures Blocked(s1, Rotated(j, s.nextPort, n))
      {
        if j < i {
          RotationValue(j, s.nextPort, n);
          RotationValue(i, s.nextPort, n);
          ForwardedKeepsBlocked(s, s1, Rotated(j, s.nextPort, n));
        }
      }
      TurnsBlock(w, s1, i + 1);
      ForwardedStep(s, s1, Turns(w, s1, i + 1).0);
    }
  }

  /** A tick leaves every end empty or behind a port that has recorded its refusal. */
  lemma TickBlocks(w: Wiring, s: Net)
    requires Wired(w, s) && Flags(s) && TickersArmed(s)
    ensures var t := Turns(w, s, 0).0;
      && Wired(w, t) && Forwarded(s, t) && Flags(t) && TickersArmed(t)
      && (forall e {:trigger t.ends[e]} :: 0 <= e < |t.ends| ==> Blocked(t, e))
  {
    hide Forwarded, Flags, TickersArmed, Turns, Blocked, Rotated;
    TurnsBlock(w, s, 0);
    var t := Turns(w, s, 0).0;
    ForwardedShape(s, t);
    forall e | 0 <= e < |t.ends|
      ensures Blocked(t, e)
    {
      var i := RotationReaches(e, s.nextPort, |s.ports|);
      assert Blocked(t, Rotated(i, s.nextPort, |s.ports|));
    }
  }

  // ----- events -----

  /** What a component does with the connection while it handles an event. */
  datatype Action = SendMsg(m: Msg) | RetrieveFrom(p: nat) | ScheduleAt(t: int)

  /** The engine's events: a component's tick, another primary event, the connection's tick, a
      secondary event of another connection, which may notify components, and a secondary event whose
      handler itself sends or retrieves. */
  datatype Event =
    | OwnTick(c: nat, t: int, acts: seq<Action>, progress: bool)
    | OtherEvent(t: int, acts: seq<Action>)
    | LinkTick(t: int)
    | Elsewhere(t: int, woken: seq<nat>)
    | LateEvent(t: int, acts: seq<Action>)

  ghost predicate AllPrimary(s: Net, after: int)
  {
    && (forall c, t {:trigger t in s.comps[c].pending} :: 0 <= c < |s.comps| && t in s.comps[c].pending ==> after < t)
    && (forall t :: t in s.others ==> after < t)
  }

  ghost predicate AllSecondary(s: Net, from: int)
  {
    forall t :: t in s.link.pending ==> from <= t
  }

  /** The engine takes an earliest event, a primary one before a secondary one of the same time. */
  ghost predicate Enabled(s: Net, ev: Event)
  {
    match ev
    case OwnTick(c, t, _, _) => c < |s.comps| && t in s.comps[c].pending && AllPrimary(s, t - 1) && AllSecondary(s, t)
    case OtherEvent(t, _) => t in s.others && AllPrimary(s, t - 1) && AllSecondary(s, t)
    case LinkTick(t) => t in s.link.pending && AllPrimary(s, t) && AllSecondary(s, t)
    case Elsewhere(t, woken) => s.now <= t && AllPrimary(s, t) && AllSecondary(s, t) && forall c :: c in woken ==> c < |s.comps|
    case LateEvent(t, _) => s.now <= t && AllPrimary(s, t) && AllSecondary(s, t)
  }

  function Act(w: Wiring, s: Net, a: Action): Net
    requires Wired(w, s)
  {
    match a
    case SendMsg(m) => Send(w, s, m).0
    case RetrieveFrom(p) => if p < |s.ports| then Retrieve(s, p) else s
    case ScheduleAt(t) => if t < s.now then s else s.(others := s.others + multiset{t})
  }

  lemma ActWired(w: Wiring, s: Net, a: Action)
    requires Wired(w, s)
    ensures Wired(w, Act(w, s, a))
  {
    WiredFrame(w, s, Act(w, s, a));
  }

  ghost function Acts(w: Wiring, s: Net, acts: seq<Action>): (r: Net)
    requires Wired(w, s)
    ensures Wired(w, r)
    decreases |acts|
  {
    if acts == [] then s
    else
      ActWired(w, s, acts[0]);
      Acts(w, Act(w, s, acts[0]), acts[1..])
  }

  ghost function WakeAll(w: Wiring, s: Net, woken: seq<nat>): (r: Net)
    requires Wired(w, s) && forall c :: c in woken ==> c < |s.comps|
    ensures Wired(w, r)
    decreases |woken|
  {
    if woken == [] then s
    else
      assert woken[0] in woken && forall c :: c in woken[1..] ==> c in woken;
      var t := Wake(w, s, woken[0]);
      WiredFrame(w, s, t);
      WakeAll(w, t, woken[1..])
  }

  lemma NowWired(w: Wiring, s: Net, t: Net)
    requires Wired(w, s) && t == s.(now := t.now, comps := t.comps, others := t.others, link := t.link) && |t.comps| == |s.comps|
    ensures Wired(w, t)
  {
    WiredFrame(w, s, t);
  }

  /** The event has been taken off its queue and the clock reads its time. */
  ghost function Begin(s: Net, ev: Event): Net
    requires ev.OwnTick? ==> ev.c < |s.comps|
  {
    match ev
    case OwnTick(c, t, _, _) => s.(now := t, comps := s.comps[c := s.comps[c].(pending := s.comps[c].pending - {t})])
    case OtherEvent(t, _) => s.(now := t, others := s.others - multiset{t})
    case LinkTick(t) => s.(now := t, link := s.link.(pending := s.link.pending - {t}))
    case Elsewhere(t, _) => s.(now := t)
    case LateEvent(t, _) => s.(now := t)
  }

  lemma TickWired(w: Wiring, s: Net)
    requires Wired(w, s)
    ensures Wired(w, Tick(w, s).0)
  {
    TurnsWired(w, s, 0);
    WiredFrame(w, Turns(w, s, 0).0, Tick(w, s).0);
  }

  lemma {:induction false} TurnsWired(w: Wiring, s: Net, i: nat)
    requires Wired(w, s) && i <= |s.ports|
    ensures Wired(w, Turns(w, s, i).0) && Turns(w, s, i).0.nextPort == s.nextPort
    decreases |s.ports| - i
  {
    if i < |s.ports| {
      var e := Rotated(i, s.nextPort, |s.ports|);
      ForwardWired(w, s, e);
      TurnsWired(w, ForwardMany(w, s, e).0, i + 1);
    }
  }

  /** One event of the engine. */
  ghost function Step(w: Wiring, s: Net, ev: Event): (r: Net)
    requires Wired(w, s) && Enabled(s, ev)
    ensures Wired(w, r)
  {
    var b := Begin(s, ev);
    NowWired(w, s, b);
    match ev
    case OwnTick(c, t, acts, progress) =>
      var d := Acts(w, b, acts);
      var u := if progress && c < |d.comps| then Wake(w, d, c) else d;
      WiredFrame(w, d, u);
      u
    case OtherEvent(t, acts) => Acts(w, b, acts)
    case LinkTick(t) =>
      TickWired(w, b);
      var (d, progress) := Tick(w, b);
      var u := if progress then d.(link := TickLater(d.link, w.clock, d.now)) else d;
      WiredFrame(w, d, u);
      u
    case Elsewhere(t, woken) => WakeAll(w, b, woken)
    case LateEvent(t, acts) => Acts(w, b, acts)
  }

  // ----- the invariant -----

  /** Unless all primary events of this time are over, the connection's next tick is in the queue. */
  ghost predicate LinkArmed(s: Net)
  {
    Armed(s.link, s.now) && (s.link.next == s.now ==> s.now in s.link.pending || AllPrimary(s, s.now))
  }

  /** Every end with messages has a tick to come or waits for a port that will ask for one. */
  ghost predicate NoLostWakeUp(s: Net)
  {
    forall e {:trigger s.ends[e]} :: 0 <= e < |s.ends| ==> s.link.pending != {} || Blocked(s, e)
  }

  ghost predicate Inv(w: Wiring, s: Net)
  {
    && Wired(w, s) && Flags(s) && TickersArmed(s) && LinkArmed(s) && NoLostWakeUp(s)
    && forall t :: t in s.others ==> s.now <= t
  }

  /** The invariant in the middle of a primary event: a tick that is recorded is in the queue. */
  ghost predicate During(w: Wiring, s: Net)
  {
    && Inv(w, s) && (s.link.next == s.now ==> s.now in s.link.pending)
  }

  lemma TickNowArms(s: Net)
    requires Armed(s.link, s.now) && (s.link.next == s.now ==> s.now in s.link.pending)
    ensures var k := TickAt(s.link, s.now);
      Armed(k, s.now) && k.pending != {} && (k.next == s.now ==> s.now in k.pending)
  {
    var k := TickAt(s.link, s.now);
    assert k.next in k.pending;
  }

  lemma ActDuring(w: Wiring, s: Net, a: Action)
    requires During(w, s)
    ensures During(w, Act(w, s, a)) && Act(w, s, a).now == s.now && |Act(w, s, a).comps| == |s.comps|
  {
    ActWired(w, s, a);
    TickNowArms(s);
    var t := Act(w, s, a);
    match a
    case SendMsg(m) =>
      if Sendable(w, s, m) {
        var e := EndOf(w, m);
        assert EndOk(s.ends[e]);
        forall i | 0 <= i < |t.ends|
          ensures EndOk(t.ends[i])
          ensures t.link.pending != {} || Blocked(t, i)
        {
          assert EndOk(s.ends[i]) && (s.link.pending != {} || Blocked(s, i));
        }
      }
    case RetrieveFrom(p) =>
      if p < |s.ports| {
        assert PortOk(s.ports[p]);
        forall i | 0 <= i < |t.ends|
          ensures t.link.pending != {} || Blocked(t, i)
        {
          assert s.link.pending != {} || Blocked(s, i);
        }
      }
    case ScheduleAt(_) =>
      forall i | 0 <= i < |t.ends|
        ensures t.link.pending != {} || Blocked(t, i)
      {
        assert s.link.pending != {} || Blocked(s, i);
      }
  }

  lemma {:induction false} ActsDuring(w: Wiring, s: Net, acts: seq<Action>)
    requires During(w, s)
    ensures During(w, Acts(w, s, acts)) && Acts(w, s, acts).now == s.now && |Acts(w, s, acts).comps| == |s.comps|
    decreases |acts|
  {
    hide During, Act;
    if acts != [] {
      assert Wired(w, s) by {
        DuringWired(w, s);
      }
      ActDuring(w, s, acts[0]);
      ActsDuring(w, Act(w, s, acts[0]), acts[1..]);
    }
  }

  lemma DuringWired(w: Wiring, s: Net)
    requires During(w, s)
    ensures Wired(w, s)
  {
  }

  lemma BeginDuring(w: Wiring, s: Net, ev: Event)
    requires Inv(w, s) && Enabled(s, ev)
    ensures s.now <= ev.t == Begin(s, ev).now
    ensures Wired(w, Begin(s, ev)) && Flags(Begin(s, ev)) && TickersArmed(Begin(s, ev))
    ensures ev.OwnTick? || ev.OtherEvent? ==> During(w, Begin(s, ev))
    ensures ev.Elsewhere? || ev.LateEvent? ==> Inv(w, Begin(s, ev)) && AllPrimary(Begin(s, ev), ev.t)
    ensures ev.LinkTick? ==> Armed(Begin(s, ev).link, ev.t) && AllPrimary(Begin(s, ev), ev.t)
  {
    var b := Begin(s, ev);
    NowWired(w, s, b);
    assert ev.t >= s.now;
    forall c | 0 <= c < |b.comps|
      ensures Armed(b.comps[c], b.now)
    {
      assert Armed(s.comps[c], s.now);
    }
    forall e | 0 <= e < |b.ends|
      ensures ev.LinkTick? || b.link.pending != {} || Blocked(b, e)
    {
      assert s.link.pending != {} || Blocked(s, e);
    }
    assert Flags(b);
  }

  lemma WakeKeepsInv(w: Wiring, s: Net, c: nat)
    requires Inv(w, s) && c < |s.comps|
    ensures Inv(w, Wake(w, s, c)) && Wake(w, s, c).now == s.now
    ensures AllPrimary(s, s.now) ==> AllPrimary(Wake(w, s, c), s.now)
  {
    var u := Wake(w, s, c);
    WiredFrame(w, s, u);
    WakeArmed(s.comps[c], w.clocks[c], s.now);
    assert Flags(u) && TickersArmed(u);
    forall e | 0 <= e < |u.ends|
      ensures u.link.pending != {} || Blocked(u, e)
    {
      assert s.link.pending != {} || Blocked(s, e);
    }
    if AllPrimary(s, s.now) {
      forall d, t | 0 <= d < |u.comps| && t in u.comps[d].pending
        ensures s.now < t
      {
        assert t in s.comps[d].pending || d == c;
      }
    }
  }

  lemma {:induction false} WakeAllKeepsInv(w: Wiring, s: Net, woken: seq<nat>)
    requires Inv(w, s) && AllPrimary(s, s.now) && forall c :: c in woken ==> c < |s.comps|
    ensures Inv(w, WakeAll(w, s, woken)) && WakeAll(w, s, woken).now == s.now
    decreases |woken|
  {
    hide Inv, AllPrimary;
    if woken != [] {
      assert woken[0] in woken && forall c :: c in woken[1..] ==> c in woken;
      InvWired(w, s);
      WakeKeepsInv(w, s, woken[0]);
      WakeAllKeepsInv(w, Wake(w, s, woken[0]), woken[1..]);
    }
  }

  lemma InvWired(w: Wiring, s: Net)
    requires Inv(w, s)
    ensures Wired(w, s)
  {
  }

  lemma LinkTickKeepsInv(w: Wiring, b: Net)
    requires Wired(w, b) && Flags(b) && TickersArmed(b) && Armed(b.link, b.now) && AllPrimary(b, b.now)
    ensures Wired(w, Tick(w, b).0) && Tick(w, b).0.now == b.now
    ensures var (d, progress) := Tick(w, b);
      Inv(w, if progress then d.(link := TickLater(d.link, w.clock, d.now)) else d)
  {
    TickWired(w, b);
    TickBlocks(w, b);
    hide Turns;
    var t := Turns(w, b, 0).0;
    var (d, progress) := Tick(w, b);
    var u := if progress then d.(link := TickLater(d.link, w.clock, d.now)) else d;
    WiredFrame(w, d, u);
    WakeArmed(d.link, w.clock, d.now);
    forall e | 0 <= e < |u.ends|
      ensures Blocked(u, e)
    {
      assert Blocked(t, e) && t.ends[e] == u.ends[e];
    }
    forall c, x | 0 <= c < |u.comps| && x in u.comps[c].pending
      ensures u.now < x
    {
      assert Woken(b.comps[c], t.comps[c], b.now);
      assert x in b.comps[c].pending || x !in b.comps[c].pending;
    }
    assert TickersArmed(u) && Flags(u);
  }

  // ----- acting after the connection's tick -----

  /** The connection's tick of this time is over and no other is scheduled. */
  predicate Over(s: Net)
  {
    s.link.next == s.now && s.link.pending == {}
  }

  /** What a caller can test before it acts: asking for a tick is in vain once the tick of this time
      is over, so a message must find others waiting before it or its destination full, a retrieval
      must not take from a full port that the connection waits for, and a primary event must not be
      scheduled at this time. */
  predicate SafeAct(w: Wiring, s: Net, a: Action)
    requires Wired(w, s)
  {
    Over(s) ==>
      match a
      case SendMsg(m) =>
        Sendable(w, s, m) ==> s.ends[EndOf(w, m)].buf != [] || s.ends[EndOf(w, m)].bufSize == 0 || s.ports[m.dst].portBusy
      case RetrieveFrom(p) =>
        p < |s.ports| && s.ports[p].buf != [] && s.ports[p].portBusy ==>
          forall e :: 0 <= e < |s.ends| && s.ends[e].buf != [] ==> s.ends[e].buf[0].dst != p
      case ScheduleAt(t) => t != s.now
  }

  ghost predicate SafeActs(w: Wiring, s: Net, acts: seq<Action>)
    requires Wired(w, s)
    decreases |acts|
  {
    acts == [] ||
      (ActWired(w, s, acts[0]);
       SafeAct(w, s, acts[0]) && SafeActs(w, Act(w, s, acts[0]), acts[1..]))
  }

  ghost predicate SafeEvent(w: Wiring, s: Net, ev: Event)
    requires Wired(w, s) && Enabled(s, ev)
  {
    ev.LateEvent? ==>
      (NowWired(w, s, Begin(s, ev));
       SafeActs(w, Begin(s, ev), ev.acts))
  }

  /** Asking for a tick now is in vain exactly when the tick of this time is over and none follows. */
  lemma TickNowWakesIff(k: Ticker, now: int)
    requires Armed(k, now)
    ensures TickAt(k, now).pending != {} <==> k.next != now || k.pending != {}
  {
    if k.next < now {
      assert now in TickAt(k, now).pending;
    } else if k.next > now {
      assert k.next in TickAt(k, now).pending;
    }
  }

  /** A message keeps its wake-up exactly when the connection is not done ticking at this time, or the
      message is not the first of its end, or it is refused, or its destination recorded a refusal. */
  lemma SendKeepsWakeUpIff(w: Wiring, s: Net, m: Msg)
    requires Inv(w, s)
    ensures NoLostWakeUp(Send(w, s, m).0) <==> SafeAct(w, s, SendMsg(m))
  {
    TickNowWakesIff(s.link, s.now);
    var t := Send(w, s, m).0;
    if Sendable(w, s, m) && t.link.pending == {} {
      var e := EndOf(w, m);
      forall i | 0 <= i < |t.ends| && (i != e || s.ends[e].buf != [] || t.ends[e].buf == [])
        ensures Blocked(t, i)
      {
        assert s.link.pending != {} || Blocked(s, i);
      }
      if s.ends[e].buf == [] && s.ends[e].bufSize > 0 {
        assert t.ends[e].buf[0] == m;
        assert NoLostWakeUp(t) ==> t.link.pending != {} || Blocked(t, e);
      }
    } else {
      forall i | 0 <= i < |t.ends|
        ensures t.link.pending != {} || Blocked(t, i)
      {
        assert s.link.pending != {} || Blocked(s, i);
      }
    }
  }

  /** A retrieval keeps every wake-up exactly when the connection is not done ticking at this time, or
      the port had not refused anything, or no end waits for it. */
  lemma RetrieveKeepsWakeUpIff(w: Wiring, s: Net, p: nat)
    requires Inv(w, s) && p < |s.ports|
    ensures NoLostWakeUp(Retrieve(s, p)) <==> SafeAct(w, s, RetrieveFrom(p))
  {
    TickNowWakesIff(s.link, s.now);
    var t := Retrieve(s, p);
    if t.link.pending == {} && s.ports[p].buf != [] {
      forall i | 0 <= i < |t.ends|
        ensures Blocked(t, i) <==> t.ends[i].buf == [] || t.ends[i].buf[0].dst != p || !s.ports[p].portBusy
      {
        assert s.link.pending != {} || Blocked(s, i);
      }
      assert NoLostWakeUp(t) <==> forall i {:trigger t.ends[i]} :: 0 <= i < |t.ends| ==> Blocked(t, i);
    } else {
      forall i | 0 <= i < |t.ends|
        ensures t.link.pending != {} || Blocked(t, i)
      {
        assert s.link.pending != {} || Blocked(s, i);
      }
    }
  }

  /** No act of the same time can repair this: a tick is needed and cannot be had. */
  ghost predicate Doomed(s: Net)
  {
    Over(s) && (!NoLostWakeUp(s) || !AllPrimary(s, s.now))
  }

  lemma DoomedStays(w: Wiring, s: Net, a: Action)
    requires Wired(w, s) && Doomed(s)
    ensures Doomed(Act(w, s, a))
  {
    var t := Act(w, s, a);
    assert t.link == s.link && t.now == s.now && t.comps == s.comps;
    if !NoLostWakeUp(s) {
      var e :| 0 <= e < |s.ends| && !Blocked(s, e);
      assert t.ends[e].buf != [] && t.ends[e].buf[0] == s.ends[e].buf[0];
      assert !Blocked(t, e);
    } else {
      assert forall x :: x in s.others ==> x in t.others;
      assert !AllPrimary(t, t.now);
    }
  }

  lemma PendingNow(k: Ticker, now: int)
    requires Armed(k, now) && k.next == now
    ensures k.pending == {} || now in k.pending
  {
    var nows := set t | t in k.pending && t == now;
    assert k.pending == nows;
  }

  /** One act keeps the invariant exactly when it is safe, and an unsafe one dooms this time. */
  lemma ActKeepsInvIff(w: Wiring, s: Net, a: Action)
    requires Inv(w, s)
    ensures Inv(w, Act(w, s, a)) <==> SafeAct(w, s, a)
    ensures !SafeAct(w, s, a) ==> Doomed(Act(w, s, a))
    ensures Act(w, s, a).now == s.now
  {
    if !Over(s) {
      if s.link.next == s.now {
        PendingNow(s.link, s.now);
      }
      ActDuring(w, s, a);
    } else {
      ActWired(w, s, a);
      OverAct(w, s, a);
    }
  }

  lemma OverAct(w: Wiring, s: Net, a: Action)
    requires Inv(w, s) && Over(s) && Wired(w, Act(w, s, a))
    ensures Inv(w, Act(w, s, a)) <==> SafeAct(w, s, a)
    ensures !SafeAct(w, s, a) ==> Doomed(Act(w, s, a))
  {
    var t := Act(w, s, a);
    match a
    case SendMsg(m) =>
      SendKeepsWakeUpIff(w, s, m);
      assert Sendable(w, s, m) ==> EndOk(s.ends[EndOf(w, m)]);
    case RetrieveFrom(p) =>
      if p < |s.ports| {
        RetrieveKeepsWakeUpIff(w, s, p);
        assert PortOk(s.ports[p]);
      }
    case ScheduleAt(x) =>
      forall i | 0 <= i < |t.ends|
        ensures Blocked(t, i)
      {
        assert s.link.pending != {} || Blocked(s, i);
      }
      if x == s.now {
        assert x in t.others;
      }
  }

  lemma {:induction false} ActsKeepInvIff(w: Wiring, s: Net, acts: seq<Action>)
    requires Inv(w, s)
    ensures Inv(w, Acts(w, s, acts)) <==> SafeActs(w, s, acts)
    decreases |acts|
  {
    hide Inv, Act, SafeAct, Doomed;
    InvWired(w, s);
    if acts != [] {
      ActWired(w, s, acts[0]);
      ActKeepsInvIff(w, s, acts[0]);
      if SafeAct(w, s, acts[0]) {
        ActsKeepInvIff(w, Act(w, s, acts[0]), acts[1..]);
      } else {
        ActsDoomed(w, Act(w, s, acts[0]), acts[1..]);
      }
    }
  }

  lemma {:induction false} ActsDoomed(w: Wiring, s: Net, acts: seq<Action>)
    requires Wired(w, s) && Doomed(s)
    ensures !Inv(w, Acts(w, s, acts))
    decreases |acts|
  {
    if acts != [] {
      ActWired(w, s, acts[0]);
      DoomedStays(w, s, acts[0]);
      ActsDoomed(w, Act(w, s, acts[0]), acts[1..]);
    }
  }

  lemma {:induction false} ActsKeepNow(w: Wiring, s: Net, acts: seq<Action>)
    requires Wired(w, s)
    ensures Acts(w, s, acts).now == s.now
    decreases |acts|
  {
    if acts != [] {
      ActWired(w, s, acts[0]);
      ActsKeepNow(w, Act(w, s, acts[0]), acts[1..]);
    }
  }

  /** No lost wake-up, and faithful flags, at the end of every event, except that a handler of a
      secondary event that uses the connection must act safely. */
  lemma StepKeepsInv(w: Wiring, s: Net, ev: Event)
    requires Inv(w, s) && Enabled(s, ev)
    ensures Inv(w, Step(w, s, ev)) <==> SafeEvent(w, s, ev)
    ensures s.now <= Step(w, s, ev).now
  {
    hide Flags, TickersArmed, NoLostWakeUp, Tick, Acts, WakeAll, SafeActs;
    BeginDuring(w, s, ev);
    var b := Begin(s, ev);
    match ev
    case OwnTick(c, t, acts, progress) =>
      ActsDuring(w, b, acts);
      if progress {
        WakeKeepsInv(w, Acts(w, b, acts), c);
      }
      assert Step(w, s, ev).now == t;
    case OtherEvent(t, acts) =>
      ActsDuring(w, b, acts);
    case LinkTick(t) =>
      LinkTickKeepsInv(w, b);
    case Elsewhere(t, woken) =>
      WakeAllKeepsInv(w, b, woken);
    case LateEvent(t, acts) =>
      ActsKeepInvIff(w, b, acts);
      ActsKeepNow(w, b, acts);
  }

  // ----- every run -----

  ghost predicate Runs(w: Wiring, s: Net, evs: seq<Event>, t: Net)
    decreases |evs|
  {
    if evs == [] then t == s
    else Wired(w, s) && Enabled(s, evs[0]) && Runs(w, Step(w, s, evs[0]), evs[1..], t)
  }

  /** Every handler of a secondary event acts safely. Runs without such events are safe. */
  ghost predicate SafeRun(w: Wiring, s: Net, evs: seq<Event>)
    decreases |evs|
  {
    evs == [] || (Wired(w, s) && Enabled(s, evs[0]) && SafeEvent(w, s, evs[0]) && SafeRun(w, Step(w, s, evs[0]), evs[1..]))
  }

  /** The invariant holds after every event of a run. */
  ghost predicate AlwaysInv(w: Wiring, s: Net, evs: seq<Event>)
    decreases |evs|
  {
    Inv(w, s) && (evs == [] || (Enabled(s, evs[0]) && AlwaysInv(w, Step(w, s, evs[0]), evs[1..])))
  }

  /** A run of the engine never loses a wake-up nor lets a flag disagree with its buffer, if and only
      if the handlers of secondary events act safely. */
  lemma {:induction false} EveryRunKeepsInv(w: Wiring, s: Net, evs: seq<Event>, t: Net)
    requires Inv(w, s) && Runs(w, s, evs, t)
    ensures AlwaysInv(w, s, evs) <==> SafeRun(w, s, evs)
    ensures SafeRun(w, s, evs) ==> Inv(w, t) && s.now <= t.now
    decreases |evs|
  {
    hide Inv, Step, Enabled, SafeEvent;
    if evs != [] {
      StepKeepsInv(w, s, evs[0]);
      if SafeEvent(w, s, evs[0]) {
        EveryRunKeepsInv(w, Step(w, s, evs[0]), evs[1..], t);
      }
    }
  }

  lemma {:induction false} WithoutLateEvents(w: Wiring, s: Net, evs: seq<Event>, t: Net)
    requires Runs(w, s, evs, t) && forall ev :: ev in evs ==> !ev.LateEvent?
    ensures SafeRun(w, s, evs)
    decreases |evs|
  {
    hide Step, Enabled, Wired;
    if evs != [] {
      assert evs[0] in evs && forall ev :: ev in evs[1..] ==> ev in evs;
      WithoutLateEvents(w, Step(w, s, evs[0]), evs[1..], t);
    }
  }

  /** Nothing plugged in has a message yet, and no tick is scheduled. */
  ghost predicate Fresh(s: Net)
  {
    && (forall p {:trigger s.ports[p]} :: 0 <= p < |s.ports| ==> s.ports[p].buf == [] && !s.ports[p].portBusy)
    && (forall e {:trigger s.ends[e]} :: 0 <= e < |s.ends| ==> s.ends[e].buf == [] && !s.ends[e].busy)
    && s.link == Ticker(-1, {}) && s.now == 0
    && (forall c {:trigger s.comps[c]} :: 0 <= c < |s.comps| ==> s.comps[c] == Ticker(-1, {}))
    && (forall t :: t in s.others ==> 0 <= t)
  }

  lemma FreshInv(w: Wiring, s: Net)
    requires Wired(w, s) && Fresh(s)
    ensures Inv(w, s)
  {
    assert forall p {:trigger s.ports[p]} :: 0 <= p < |s.ports| ==> PortOk(s.ports[p]);
    forall e | 0 <= e < |s.ends|
      ensures EndOk(s.ends[e]) && Blocked(s, e)
    {
      assert s.ends[e].buf == [] && !s.ends[e].busy;
    }
    assert TickersArmed(s);
  }

  /** When the engine runs out of events, every message still in the connection is at or behind one
      whose destination has a full buffer that nobody retrieves from. */
  lemma StuckOnlyBehindFullPorts(w: Wiring, s: Net, evs: seq<Event>, t: Net, e: nat)
    requires Wired(w, s) && Fresh(s) && Runs(w, s, evs, t) && SafeRun(w, s, evs)
    requires t.link.pending == {} && e < |t.ends| && t.ends[e].buf != []
    ensures t.ends[e].buf[0].dst < |t.ports|
    ensures var p := t.ports[t.ends[e].buf[0].dst]; p.portBusy && |p.buf| == p.capacity
  {
    FreshInv(w, s);
    EveryRunKeepsInv(w, s, evs, t);
    assert t.link.pending != {} || Blocked(t, e);
    assert PortOk(t.ports[t.ends[e].buf[0].dst]);
  }

  lemma ActKeepsBusy(w: Wiring, s: Net, a: Action, e: nat)
    requires Wired(w, s) && e < |s.ends| && s.ends[e].busy
    ensures e < |Act(w, s, a).ends| && Act(w, s, a).ends[e].busy
  {
  }

  lemma {:induction false} ActsKeepBusy(w: Wiring, s: Net, acts: seq<Action>, e: nat)
    requires Wired(w, s) && e < |s.ends| && s.ends[e].busy
    ensures e < |Acts(w, s, acts).ends| && Acts(w, s, acts).ends[e].busy
    decreases |acts|
  {
    if acts != [] {
      ActWired(w, s, acts[0]);
      ActKeepsBusy(w, s, acts[0], e);
      ActsKeepBusy(w, Act(w, s, acts[0]), acts[1..], e);
    }
  }

  lemma {:induction false} WakeAllKeepsEnds(w: Wiring, s: Net, woken: seq<nat>)
    requires Wired(w, s) && forall c :: c in woken ==> c < |s.comps|
    ensures WakeAll(w, s, woken).ends == s.ends
    decreases |woken|
  {
    if woken != [] {
      assert woken[0] in woken && forall c :: c in woken[1..] ==> c in woken;
      WiredFrame(w, s, Wake(w, s, woken[0]));
      WakeAllKeepsEnds(w, Wake(w, s, woken[0]), woken[1..]);
    }
  }

  /** A refused sender is remembered until its port's owner has a tick waiting after the present:
      over one event, an end's busy flag falls only in a connection tick that woke that owner. */
  lemma RefusedSendersAreWoken(w: Wiring, s: Net, ev: Event, e: nat)
    requires Inv(w, s) && Enabled(s, ev) && e < |s.ends| && s.ends[e].busy
    ensures var t := Step(w, s, ev);
      e < |t.ends| && (!t.ends[e].busy ==> ev.LinkTick? && Awake(t.comps[s.ports[e].comp], t.now))
  {
    hide Flags, TickersArmed, NoLostWakeUp, Turns, Forwarded;
    BeginDuring(w, s, ev);
    var b := Begin(s, ev);
    match ev
    case OwnTick(c, t, acts, progress) =>
      ActsKeepBusy(w, b, acts, e);
    case OtherEvent(t, acts) =>
      ActsKeepBusy(w, b, acts, e);
    case LinkTick(t) =>
      TickBlocks(w, b);
      ForwardedOwner(b, Turns(w, b, 0).0, e);
    case Elsewhere(t, woken) =>
      WakeAllKeepsEnds(w, b, woken);
    case LateEvent(t, acts) =>
      ActsKeepBusy(w, b, acts, e);
  }

  lemma ForwardedOwner(s: Net, t: Net, e: nat)
    requires Forwarded(s, t) && e < |s.ends| && e < |s.ports| && s.ports[e].comp < |s.comps|
    ensures e < |t.ends| && |t.comps| == |s.comps| && t.now == s.now
    ensures s.ends[e].busy && !t.ends[e].busy ==> Awake(t.comps[s.ports[e].comp], s.now)
  {
  }

  lemma {:induction false} ActsOnlyRetrieve(w: Wiring, s: Net, acts: seq<Action>, p: nat)
    requires Wired(w, s) && p < |s.ports|
    ensures var t := Acts(w, s, acts); p < |t.ports| && Suffix(t.ports[p].buf, s.ports[p].buf)
    decreases |acts|
  {
    if acts != [] {
      ActWired(w, s, acts[0]);
      ActsOnlyRetrieve(w, Act(w, s, acts[0]), acts[1..], p);
    }
  }

  lemma {:induction false} WakeAllKeepsPorts(w: Wiring, s: Net, woken: seq<nat>)
    requires Wired(w, s) && forall c :: c in woken ==> c < |s.comps|
    ensures WakeAll(w, s, woken).ports == s.ports
    decreases |woken|
  {
    if woken != [] {
      assert woken[0] in woken && forall c :: c in woken[1..] ==> c in woken;
      WiredFrame(w, s, Wake(w, s, woken[0]));
      WakeAllKeepsPorts(w, Wake(w, s, woken[0]), woken[1..]);
    }
  }

  predicate Suffix(a: seq<Msg>, b: seq<Msg>)
  {
    |a| <= |b| && a == b[|b| - |a|..]
  }

  /** A delivery wakes the receiver: a port's buffer grows only in a connection tick, by messages
      behind those it held, and then its owner has a tick waiting; any other event can only take
      messages off its front. */
  lemma ReceiversAreWoken(w: Wiring, s: Net, ev: Event, p: nat)
    requires Inv(w, s) && Enabled(s, ev) && p < |s.ports|
    ensures var u := Step(w, s, ev);
      && p < |u.ports|
      && (ev.LinkTick? ==> s.ports[p].buf <= u.ports[p].buf)
      && (ev.LinkTick? && u.ports[p].buf != s.ports[p].buf ==> Awake(u.comps[s.ports[p].comp], u.now))
      && (!ev.LinkTick? ==> Suffix(u.ports[p].buf, s.ports[p].buf))
  {
    hide Flags, TickersArmed, NoLostWakeUp, Turns;
    BeginDuring(w, s, ev);
    var b := Begin(s, ev);
    match ev
    case OwnTick(c, t, acts, progress) =>
      ActsOnlyRetrieve(w, b, acts, p);
    case OtherEvent(t, acts) =>
      ActsOnlyRetrieve(w, b, acts, p);
    case LinkTick(t) =>
      TickBlocks(w, b);
      assert b.ports[p].buf <= Turns(w, b, 0).0.ports[p].buf;
    case Elsewhere(t, woken) =>
      WakeAllKeepsPorts(w, b, woken);
    case LateEvent(t, acts) =>
      ActsOnlyRetrieve(w, b, acts, p);
  }

  // ----- a message that no tick will fetch -----

  function Next(t: int): int { t + 1 }

  /** Two ports of one component, with room for one message on either side. */
  const PAIR := Wiring(Next, [Next], false, 0, {})

  function PairNet(now: int, received: seq<Msg>, first: seq<Msg>, second: seq<Msg>, nextPort: nat, link: Ticker, comp: Ticker, others: multiset<int>): Net
  {
    Net(now, [Port([], 1, false, 0), Port(received, 1, false, 0)], [End(first, 1, false), End(second, 1, false)], nextPort, link, [comp], others)
  }

  lemma PairWired(s: Net, now: int, received: seq<Msg>, first: seq<Msg>, second: seq<Msg>, nextPort: nat, link: Ticker, comp: Ticker, others: multiset<int>)
    requires s == PairNet(now, received, first, second, nextPort, link, comp, others) && nextPort < 2
    requires forall m :: m in first + second ==> m.dst < 2
    ensures Wired(PAIR, s)
  {
    assert Advances(Next);
  }

  /** A tick that finds nothing in the buffers only turns the rotation. */
  lemma IdleTick(s: Net, received: seq<Msg>, link: Ticker, comp: Ticker, others: multiset<int>)
    requires s == PairNet(6, received, [], [], 1, link, comp, others)
    ensures Wired(PAIR, s) && Tick(PAIR, s) == (s.(nextPort := 0), false)
  {
    PairWired(s, 6, received, [], [], 1, link, comp, others);
    RotationValue(0, 1, 2);
    RotationValue(1, 1, 2);
    assert Turns(PAIR, s, 2) == (s, false);
    assert Turns(PAIR, s, 1) == (s, false);
  }

  /** A tick that delivers the one message of the first end. */
  lemma OneDelivery(s: Net, m: Msg)
    requires m.dst == 1 && s == PairNet(5, [], [m], [], 0, Ticker(5, {}), Ticker(-1, {}), multiset{})
    ensures Wired(PAIR, s) && Tick(PAIR, s) == (PairNet(5, [m], [], [], 1, Ticker(5, {}), Ticker(6, {6}), multiset{}), true)
  {
    PairWired(s, 5, [], [m], [], 0, Ticker(5, {}), Ticker(-1, {}), multiset{});
    RotationValue(0, 0, 2);
    RotationValue(1, 0, 2);
    var d := PairNet(5, [m], [], [], 0, Ticker(5, {}), Ticker(6, {6}), multiset{});
    PairWired(d, 5, [m], [], [], 0, Ticker(5, {}), Ticker(6, {6}), multiset{});
    RecvWired(PAIR, s, m);
    var r := Recv(PAIR, s, m).0;
    assert Next(5) == 6 && {} + {6} == {6} && [] + [m] == [m];
    assert r == PairNet(5, [m], [m], [], 0, Ticker(5, {}), Ticker(6, {6}), multiset{});
    assert [m][1..] == [];
    assert Dequeue(PAIR, r, 0) == d;
    assert ForwardMany(PAIR, d, 0) == (d, false);
    assert ForwardMany(PAIR, s, 0) == (d, true);
    assert Turns(PAIR, d, 2) == (d, false);
    assert Turns(PAIR, d, 1) == (d, false);
  }

  /** A message is sent and delivered, the connection ticks once more and finds nothing; then a handler
      of a secondary event sends at that time. */
  function LateRun(): seq<Event>
  {
    [OtherEvent(5, [SendMsg(Msg(1, 0, 1, false))]), LinkTick(5), OwnTick(0, 6, [], false), LinkTick(6),
     LateEvent(6, [SendMsg(Msg(2, 1, 0, false))])]
  }

  lemma RunsCons(w: Wiring, s: Net, ev: Event, evs: seq<Event>, m: Net, t: Net)
    requires Wired(w, s) && Enabled(s, ev) && m == Step(w, s, ev) && Runs(w, m, evs, t)
    ensures Runs(w, s, [ev] + evs, t)
  {
    assert ([ev] + evs)[1..] == evs;
  }

  lemma FirstSend(s: Net, m: Msg)
    requires m == Msg(1, 0, 1, false) && s == PairNet(0, [], [], [], 0, Ticker(-1, {}), Ticker(-1, {}), multiset{5})
    ensures Wired(PAIR, s) && Fresh(s) && Enabled(s, OtherEvent(5, [SendMsg(m)]))
    ensures Step(PAIR, s, OtherEvent(5, [SendMsg(m)])) == PairNet(5, [], [m], [], 0, Ticker(5, {5}), Ticker(-1, {}), multiset{})
  {
    PairWired(s, 0, [], [], [], 0, Ticker(-1, {}), Ticker(-1, {}), multiset{5});
    var b := Begin(s, OtherEvent(5, [SendMsg(m)]));
    NowWired(PAIR, s, b);
    assert b.others == multiset{} && [] + [m] == [m] && {} + {5} == {5};
    assert [SendMsg(m)][1..] == [];
    ActWired(PAIR, b, SendMsg(m));
    assert Acts(PAIR, Act(PAIR, b, SendMsg(m)), []) == Act(PAIR, b, SendMsg(m));
  }

  lemma LateSend(s: Net, received: seq<Msg>, m: Msg)
    requires m == Msg(2, 1, 0, false) && s == PairNet(6, received, [], [], 0, Ticker(6, {}), Ticker(6, {}), multiset{})
    ensures Wired(PAIR, s) && Enabled(s, LateEvent(6, [SendMsg(m)]))
    ensures Step(PAIR, s, LateEvent(6, [SendMsg(m)])) == PairNet(6, received, [], [m], 0, Ticker(6, {}), Ticker(6, {}), multiset{})
  {
    PairWired(s, 6, received, [], [], 0, Ticker(6, {}), Ticker(6, {}), multiset{});
    assert Begin(s, LateEvent(6, [SendMsg(m)])) == s;
    assert [] + [m] == [m] && [SendMsg(m)][1..] == [];
    ActWired(PAIR, s, SendMsg(m));
    assert Acts(PAIR, Act(PAIR, s, SendMsg(m)), []) == Act(PAIR, s, SendMsg(m));
  }

  lemma MiddleOfLateRun(m: Msg, s1: Net, s2: Net, s3: Net, s4: Net)
    requires m == Msg(1, 0, 1, false)
    requires s1 == PairNet(5, [], [m], [], 0, Ticker(5, {5}), Ticker(-1, {}), multiset{})
    requires s2 == PairNet(5, [m], [], [], 1, Ticker(6, {6}), Ticker(6, {6}), multiset{})
    requires s3 == PairNet(6, [m], [], [], 1, Ticker(6, {6}), Ticker(6, {}), multiset{})
    requires s4 == PairNet(6, [m], [], [], 0, Ticker(6, {}), Ticker(6, {}), multiset{})
    ensures Wired(PAIR, s1) && Enabled(s1, LinkTick(5)) && Step(PAIR, s1, LinkTick(5)) == s2
    ensures Wired(PAIR, s2) && Enabled(s2, OwnTick(0, 6, [], false)) && Step(PAIR, s2, OwnTick(0, 6, [], false)) == s3
    ensures Wired(PAIR, s3) && Enabled(s3, LinkTick(6)) && Step(PAIR, s3, LinkTick(6)) == s4
  {
    hide Tick;
    PairWired(s1, 5, [], [m], [], 0, Ticker(5, {5}), Ticker(-1, {}), multiset{});
    PairWired(s2, 5, [m], [], [], 1, Ticker(6, {6}), Ticker(6, {6}), multiset{});
    PairWired(s3, 6, [m], [], [], 1, Ticker(6, {6}), Ticker(6, {}), multiset{});
    var b1, b3 := Begin(s1, LinkTick(5)), Begin(s3, LinkTick(6));
    assert {5} - {5} == {} && {6} - {6} == {} && {} + {6} == {6};
    OneDelivery(b1, m);
    IdleTick(b3, [m], Ticker(6, {}), Ticker(6, {}), multiset{});
    assert Next(5) == 6;
  }

  /** That run leads from a fresh connection to a state in which a message is at the head of its end,
      its destination is free, and no tick is scheduled. */
  lemma LateSendIsStranded() returns (s: Net, t: Net)
    ensures Wired(PAIR, s) && Fresh(s) && Runs(PAIR, s, LateRun(), t) && Wired(PAIR, t)
    ensures |t.ports| == |t.ends| == 2 && t.link.pending == {} && t.ends[1].buf == [Msg(2, 1, 0, false)]
    ensures t.ports[0].buf == [] && !t.ports[0].portBusy && !NoLostWakeUp(t)
  {
    hide Step, Enabled, Wired;
    var m1, m2 := Msg(1, 0, 1, false), Msg(2, 1, 0, false);
    s := PairNet(0, [], [], [], 0, Ticker(-1, {}), Ticker(-1, {}), multiset{5});
    var s1 := PairNet(5, [], [m1], [], 0, Ticker(5, {5}), Ticker(-1, {}), multiset{});
    var s2 := PairNet(5, [m1], [], [], 1, Ticker(6, {6}), Ticker(6, {6}), multiset{});
    var s3 := PairNet(6, [m1], [], [], 1, Ticker(6, {6}), Ticker(6, {}), multiset{});
    var s4 := PairNet(6, [m1], [], [], 0, Ticker(6, {}), Ticker(6, {}), multiset{});
    t := PairNet(6, [m1], [], [m2], 0, Ticker(6, {}), Ticker(6, {}), multiset{});
    FirstSend(s, m1);
    MiddleOfLateRun(m1, s1, s2, s3, s4);
    LateSend(s4, [m1], m2);
    PairWired(t, 6, [m1], [], [m2], 0, Ticker(6, {}), Ticker(6, {}), multiset{});
    var late := LateEvent(6, [SendMsg(m2)]);
    RunsCons(PAIR, s4, late, [], t, t);
    RunsCons(PAIR, s3, LinkTick(6), [late], s4, t);
    RunsCons(PAIR, s2, OwnTick(0, 6, [], false), [LinkTick(6), late], s3, t);
    RunsCons(PAIR, s1, LinkTick(5), [OwnTick(0, 6, [], false), LinkTick(6), late], s2, t);
    RunsCons(PAIR, s, OtherEvent(5, [SendMsg(m1)]), [LinkTick(5), OwnTick(0, 6, [], false), LinkTick(6), late], s1, t);
    assert LateRun() == [OtherEvent(5, [SendMsg(m1)])] + [LinkTick(5), OwnTick(0, 6, [], false), LinkTick(6), late];
    assert !Blocked(t, 1);
  }

  // ----- how long a stranded message waits -----

  predicate Quiet(ev: Event)
  {
    (ev.OwnTick? || ev.OtherEvent? || ev.LateEvent?) ==> forall a :: a in ev.acts ==> a.ScheduleAt?
  }

  lemma {:induction false} QuietActs(w: Wiring, s: Net, acts: seq<Action>)
    requires Wired(w, s) && forall a :: a in acts ==> a.ScheduleAt?
    ensures var t := Acts(w, s, acts); t.ends == s.ends && t.ports == s.ports && t.link == s.link
    decreases |acts|
  {
    if acts != [] {
      assert acts[0] in acts && forall a :: a in acts[1..] ==> a in acts;
      ActWired(w, s, acts[0]);
      QuietActs(w, Act(w, s, acts[0]), acts[1..]);
    }
  }

  lemma {:induction false} WakeAllKeepsLink(w: Wiring, s: Net, woken: seq<nat>)
    requires Wired(w, s) && forall c :: c in woken ==> c < |s.comps|
    ensures WakeAll(w, s, woken).link == s.link
    decreases |woken|
  {
    if woken != [] {
      assert woken[0] in woken && forall c :: c in woken[1..] ==> c in woken;
      WiredFrame(w, s, Wake(w, s, woken[0]));
      WakeAllKeepsLink(w, Wake(w, s, woken[0]), woken[1..]);
    }
  }

  lemma QuietStep(w: Wiring, s: Net, ev: Event)
    requires Wired(w, s) && Enabled(s, ev) && Quiet(ev) && s.link.pending == {}
    ensures var t := Step(w, s, ev); t.ends == s.ends && t.ports == s.ports && t.link == s.link
  {
    var b := Begin(s, ev);
    NowWired(w, s, b);
    match ev
    case OwnTick(c, t, acts, progress) => QuietActs(w, b, acts);
    case OtherEvent(t, acts) => QuietActs(w, b, acts);
    case LinkTick(t) =>
    case Elsewhere(t, woken) =>
      WakeAllKeepsEnds(w, b, woken);
      WakeAllKeepsPorts(w, b, woken);
      WakeAllKeepsLink(w, b, woken);
    case LateEvent(t, acts) => QuietActs(w, b, acts);
  }

  /** Without a tick in the queue nothing in the connection moves, however long the engine runs, until
      somebody sends or retrieves on it. */
  lemma {:induction false} StrandedUntilNextCall(w: Wiring, s: Net, evs: seq<Event>, t: Net)
    requires Wired(w, s) && s.link.pending == {} && Runs(w, s, evs, t) && forall ev :: ev in evs ==> Quiet(ev)
    ensures t.ends == s.ends && t.ports == s.ports && t.link == s.link
    decreases |evs|
  {
    hide Step, Enabled, Quiet, Wired;
    if evs != [] {
      assert evs[0] in evs && forall ev :: ev in evs[1..] ==> ev in evs;
      QuietStep(w, s, evs[0]);
      StrandedUntilNextCall(w, Step(w, s, evs[0]), evs[1..], t);
    }
  }

  /** The next send at a later time asks for a tick, which will fetch it. */
  lemma NextSendFrees(w: Wiring, s: Net, m: Msg)
    requires Wired(w, s) && s.link.next < s.now && Sendable(w, s, m) && |s.ends[EndOf(w, m)].buf| < s.ends[EndOf(w, m)].bufSize
    ensures s.now in Send(w, s, m).0.link.pending
  {
  }
}
