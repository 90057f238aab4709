/**
 A connection that holds each message for the latency of its source and destination. Beside the
 state of a direct connection, every end has a list of pending messages, and here a history.
 */
module DelayedLink {
  import opened DirectLink

  /** A message and the time from which it may be delivered; `at` is history: when it was taken. */
  datatype Pending = Pending(msg: Msg, due: int, at: int)

  datatype Delivery = Delivery(item: Pending, time: int)

  /** An end's pending messages, with what it has accepted, taken from its buffer and delivered. */
  datatype Lane = Lane(pending: seq<Pending>, sent: seq<Msg>, taken: seq<Pending>, got: seq<Delivery>)

  datatype Delayed = Delayed(net: Net, lanes: seq<Lane>)

  /** Without a latency function messages are delivered at once. */
  datatype Latency = AtOnce | After(of: (nat, nat) -> int)

  function Delay(l: Latency, m: Msg): int
  {
    if l.AtOnce? then 0 else l.of(m.src, m.dst)
  }

  // ----- messages of one source and destination -----

  function Of(ps: seq<Pending>, src: nat, dst: nat): seq<Pending>
  {
    if ps == [] then []
    else (if ps[0].msg.src == src && ps[0].msg.dst == dst then [ps[0]] else []) + Of(ps[1..], src, dst)
  }

  lemma {:induction false} OfConcat(a: seq<Pending>, b: seq<Pending>, src: nat, dst: nat)
    ensures Of(a + b, src, dst) == Of(a, src, dst) + Of(b, src, dst)
  {
    if a == [] {
      assert a + b == b;
    } else {
      assert (a + b)[1..] == a[1..] + b;
      OfConcat(a[1..], b, src, dst);
    }
  }

  function Items(ds: seq<Delivery>): (r: seq<Pending>)
    ensures |r| == |ds| && forall i :: 0 <= i < |ds| ==> r[i] == ds[i].item
  {
    if ds == [] then [] else Items(ds[..|ds| - 1]) + [ds[|ds| - 1].item]
  }

  function Messages(ps: seq<Pending>): (r: seq<Msg>)
    ensures |r| == |ps| && forall i :: 0 <= i < |ps| ==> r[i] == ps[i].msg
  {
    if ps == [] then [] else Messages(ps[..|ps| - 1]) + [ps[|ps| - 1].msg]
  }

  function Stamped(ps: seq<Pending>, now: int): (r: seq<Delivery>)
    ensures |r| == |ps| && forall i :: 0 <= i < |ps| ==> r[i] == Delivery(ps[i], now)
  {
    if ps == [] then [] else Stamped(ps[..|ps| - 1], now) + [Delivery(ps[|ps| - 1], now)]
  }

  // ----- delivering pending messages -----

  /** A sender that was refused is told to try again. */
  function Tell(w: Wiring, s: Net, e: nat): Net
    requires Wired(w, s) && e < |s.ends|
  {
    if s.ends[e].busy then
      Wake(w, s, s.ports[e].comp).(ends := s.ends[e := s.ends[e].(busy := false)])
    else s
  }

  lemma TellWired(w: Wiring, s: Net, e: nat)
    requires Wired(w, s) && e < |s.ends|
    ensures Wired(w, Tell(w, s, e)) && Tell(w, s, e).now == s.now && |Tell(w, s, e).ends| == |s.ends|
    ensures Tell(w, s, e).ports == s.ports && Tell(w, s, e).nextPort == s.nextPort
    ensures forall i :: 0 <= i < |s.ends| ==> Tell(w, s, e).ends[i].buf == s.ends[i].buf
  {
    WiredFrame(w, s, Tell(w, s, e));
  }

  ghost predicate Known(s: Net, ps: seq<Pending>)
  {
    forall p :: p in ps ==> p.msg.dst < |s.ports|
  }

  datatype Sweep = Sweep(net: Net, kept: seq<Pending>, out: seq<Pending>)

  /** The loop of `deliverPending`: what is not due or is refused stays, in order. */
  ghost function SweepFrom(w: Wiring, s: Net, e: nat, ps: seq<Pending>): Sweep
    requires Wired(w, s) && e < |s.ends| && Known(s, ps)
    decreases |ps|
  {
    if ps == [] then Sweep(s, [], [])
    else
      var p := ps[0];
      assert p in ps && forall q :: q in ps[1..] ==> q in ps;
      if p.due > s.now then
        var r := SweepFrom(w, s, e, ps[1..]);
        r.(kept := [p] + r.kept)
      else
        RecvWired(w, s, p.msg);
        RecvShape(w, s, p.msg);
        var (s1, ok) := Recv(w, s, p.msg);
        TellWired(w, s1, e);
        if ok then
          var r := SweepFrom(w, Tell(w, s1, e), e, ps[1..]);
          r.(out := [p] + r.out)
        else
          var r := SweepFrom(w, s1, e, ps[1..]);
          r.(kept := [p] + r.kept)
  }

  predicate Full(s: Net, d: nat)
  {
    d < |s.ports| && |s.ports[d].buf| >= s.ports[d].capacity
  }

  lemma RecvShape(w: Wiring, s: Net, m: Msg)
    requires Wired(w, s) && m.dst < |s.ports|
    ensures var (t, ok) := Recv(w, s, m);
      && |t.ports| == |s.ports| && t.now == s.now && t.ends == s.ends && t.nextPort == s.nextPort
      && (ok <==> !Full(s, m.dst))
      && (forall d :: Full(s, d) ==> Full(t, d))
  {
  }

  /** Nothing of this pair can be delivered: not due, or the destination is full. */
  ghost predicate Held(s: Net, ps: seq<Pending>, src: nat, dst: nat)
  {
    forall p {:trigger p in ps} :: p in ps && p.msg.src == src && p.msg.dst == dst ==> p.due > s.now || Full(s, dst)
  }

  lemma {:induction false} SweepShape(w: Wiring, s: Net, e: nat, ps: seq<Pending>)
    requires Wired(w, s) && e < |s.ends| && Known(s, ps)
    ensures var r := SweepFrom(w, s, e, ps);
      && Wired(w, r.net) && r.net.now == s.now && |r.net.ports| == |s.ports| && |r.net.ends| == |s.ends| && r.net.nextPort == s.nextPort
      && (forall i :: 0 <= i < |s.ends| ==> r.net.ends[i].buf == s.ends[i].buf)
      && (forall p :: p in r.kept ==> p in ps) && (forall p :: p in r.out ==> p in ps && p.due <= s.now)
    decreases |ps|
  {
    if ps != [] {
      var p := ps[0];
      assert p in ps && forall q :: q in ps[1..] ==> q in ps;
      if p.due > s.now {
        SweepShape(w, s, e, ps[1..]);
      } else {
        RecvWired(w, s, p.msg);
        RecvShape(w, s, p.msg);
        var (s1, ok) := Recv(w, s, p.msg);
        TellWired(w, s1, e);
        SweepShape(w, if ok then Tell(w, s1, e) else s1, e, ps[1..]);
      }
    }
  }

  lemma {:induction false} SweepHeld(w: Wiring, s: Net, e: nat, ps: seq<Pending>, src: nat, dst: nat)
    requires Wired(w, s) && e < |s.ends| && Known(s, ps) && Held(s, ps, src, dst)
    ensures var r := SweepFrom(w, s, e, ps); Of(r.out, src, dst) == [] && Of(r.kept, src, dst) == Of(ps, src, dst)
    decreases |ps|
  {
    if ps != [] {
      var p := ps[0];
      assert p in ps && forall q :: q in ps[1..] ==> q in ps;
      if p.due > s.now {
        SweepHeld(w, s, e, ps[1..], src, dst);
      } else {
        RecvWired(w, s, p.msg);
        RecvShape(w, s, p.msg);
        var (s1, ok) := Recv(w, s, p.msg);
        TellWired(w, s1, e);
        assert Full(s, dst) ==> Full(s1, dst);
        SweepHeld(w, if ok then Tell(w, s1, e) else s1, e, ps[1..], src, dst);
      }
    }
  }

  /** Pending messages of one pair are in the order of their due times. */
  ghost predicate InOrder(ps: seq<Pending>)
  {
    forall i, j {:trigger ps[i], ps[j]} :: 0 <= i < j < |ps| && ps[i].msg.src == ps[j].msg.src && ps[i].msg.dst == ps[j].msg.dst ==> ps[i].due <= ps[j].due
  }

  lemma OfCons(p: Pending, rest: seq<Pending>, src: nat, dst: nat)
    ensures Of([p] + rest, src, dst) == (if p.msg.src == src && p.msg.dst == dst then [p] else []) + Of(rest, src, dst)
  {
    assert ([p] + rest)[1..] == rest;
  }

  /** Skipping blocked messages does not reorder a pair: what goes out comes before what stays. */
  lemma {:induction false} SweepKeepsPairOrder(w: Wiring, s: Net, e: nat, ps: seq<Pending>, src: nat, dst: nat)
    requires Wired(w, s) && e < |s.ends| && Known(s, ps) && InOrder(ps)
    ensures var r := SweepFrom(w, s, e, ps); Of(ps, src, dst) == Of(r.out, src, dst) + Of(r.kept, src, dst)
    decreases |ps|
  {
    hide Wired, Recv, Tell, Of;
    if ps == [] {
      OfEmpty(src, dst);
    } else {
      var p := ps[0];
      assert p in ps && forall q :: q in ps[1..] ==> q in ps;
      assert InOrder(ps[1..]);
      assert ps == [p] + ps[1..];
      OfCons(p, ps[1..], src, dst);
      var mine := p.msg.src == src && p.msg.dst == dst;
      if p.due > s.now {
        if mine {
          LaterNotDue(s, ps, src, dst);
          SweepHeld(w, s, e, ps[1..], src, dst);
        } else {
          SweepKeepsPairOrder(w, s, e, ps[1..], src, dst);
        }
        KeepHead(p, ps[1..], SweepFrom(w, s, e, ps[1..]), src, dst);
      } else {
        RecvWired(w, s, p.msg);
        RecvShape(w, s, p.msg);
        var (s1, ok) := Recv(w, s, p.msg);
        TellWired(w, s1, e);
        if ok {
          SweepKeepsPairOrder(w, Tell(w, s1, e), e, ps[1..], src, dst);
          TakeHead(p, ps[1..], SweepFrom(w, Tell(w, s1, e), e, ps[1..]), src, dst);
        } else {
          if mine {
            SweepHeld(w, s1, e, ps[1..], src, dst);
          } else {
            SweepKeepsPairOrder(w, s1, e, ps[1..], src, dst);
          }
          KeepHead(p, ps[1..], SweepFrom(w, s1, e, ps[1..]), src, dst);
        }
      }
    }
  }

  lemma KeepHead(p: Pending, rest: seq<Pending>, r: Sweep, src: nat, dst: nat)
    requires Of(rest, src, dst) == Of(r.out, src, dst) + Of(r.kept, src, dst)
    requires p.msg.src == src && p.msg.dst == dst ==> Of(r.out, src, dst) == []
    ensures Of([p] + rest, src, dst) == Of(r.out, src, dst) + Of([p] + r.kept, src, dst)
  {
    OfCons(p, rest, src, dst);
    OfCons(p, r.kept, src, dst);
  }

  lemma TakeHead(p: Pending, rest: seq<Pending>, r: Sweep, src: nat, dst: nat)
    requires Of(rest, src, dst) == Of(r.out, src, dst) + Of(r.kept, src, dst)
    ensures Of([p] + rest, src, dst) == Of([p] + r.out, src, dst) + Of(r.kept, src, dst)
  {
    OfCons(p, rest, src, dst);
    OfCons(p, r.out, src, dst);
  }

  lemma OfEmpty(src: nat, dst: nat)
    ensures Of([], src, dst) == []
  {
  }

  lemma LaterNotDue(s: Net, ps: seq<Pending>, src: nat, dst: nat)
    requires ps != [] && InOrder(ps) && ps[0].msg.src == src && ps[0].msg.dst == dst && ps[0].due > s.now
    ensures Held(s, ps[1..], src, dst)
  {
    forall p | p in ps[1..] && p.msg.src == src && p.msg.dst == dst
      ensures p.due > s.now
    {
      var j :| 0 <= j < |ps| - 1 && ps[1..][j] == p;
      assert ps[j + 1] == p;
    }
  }

  /** Skipping keeps the rest in order. */
  lemma {:induction false} SweepKeepsInOrder(w: Wiring, s: Net, e: nat, ps: seq<Pending>)
    requires Wired(w, s) && e < |s.ends| && Known(s, ps) && InOrder(ps)
    ensures InOrder(SweepFrom(w, s, e, ps).kept)
    decreases |ps|
  {
    if ps != [] {
      var p := ps[0];
      assert p in ps && forall q :: q in ps[1..] ==> q in ps;
      assert InOrder(ps[1..]);
      if p.due > s.now {
        SweepKeepsInOrder(w, s, e, ps[1..]);
        SweepShape(w, s, e, ps[1..]);
        ConsInOrder(ps, SweepFrom(w, s, e, ps[1..]).kept);
      } else {
        RecvWired(w, s, p.msg);
        RecvShape(w, s, p.msg);
        var (s1, ok) := Recv(w, s, p.msg);
        TellWired(w, s1, e);
        var u := if ok then Tell(w, s1, e) else s1;
        SweepKeepsInOrder(w, u, e, ps[1..]);
        SweepShape(w, u, e, ps[1..]);
        ConsInOrder(ps, SweepFrom(w, u, e, ps[1..]).kept);
      }
    }
  }

  lemma ConsInOrder(ps: seq<Pending>, kept: seq<Pending>)
    requires ps != [] && InOrder(ps) && InOrder(kept) && forall p :: p in kept ==> p in ps[1..]
    ensures InOrder([ps[0]] + kept)
  {
    var r := [ps[0]] + kept;
    forall i, j | 0 <= i < j < |r| && r[i].msg.src == r[j].msg.src && r[i].msg.dst == r[j].msg.dst
      ensures r[i].due <= r[j].due
    {
      if i == 0 {
        assert kept[j - 1] in ps[1..];
        var k :| 0 <= k < |ps| - 1 && ps[1..][k] == r[j];
        assert ps[k + 1] == r[j];
      }
    }
  }

  // ----- the order of one end -----

  function Room(s: Net, d: nat): int
    requires d < |s.ports|
  {
    s.ports[d].capacity - |s.ports[d].buf|
  }

  /** How many of the first `i` pending messages are due and go to port `d`. */
  function Ahead(ps: seq<Pending>, i: nat, d: nat, now: int): nat
    requires i <= |ps|
  {
    if i == 0 then 0
    else Ahead(ps, i - 1, d, now) + (if ps[i - 1].due <= now && ps[i - 1].msg.dst == d then 1 else 0)
  }

  /** The message is due and its port has room for it behind the due ones before it. */
  predicate Deliverable(s: Net, ps: seq<Pending>, i: nat)
    requires i < |ps|
  {
    ps[i].due <= s.now && ps[i].msg.dst < |s.ports| && Ahead(ps, i, ps[i].msg.dst, s.now) < Room(s, ps[i].msg.dst)
  }

  /** No message that can be delivered stands behind one that cannot. */
  ghost predicate Orderly(s: Net, ps: seq<Pending>)
  {
    forall i, j {:trigger Deliverable(s, ps, i), Deliverable(s, ps, j)} :: 0 <= i < j < |ps| && Deliverable(s, ps, j) ==> Deliverable(s, ps, i)
  }

  lemma {:induction false} AheadTail(ps: seq<Pending>, i: nat, d: nat, now: int)
    requires 0 < i <= |ps|
    ensures Ahead(ps, i, d, now) == (if ps[0].due <= now && ps[0].msg.dst == d then 1 else 0) + Ahead(ps[1..], i - 1, d, now)
  {
    if i > 1 {
      AheadTail(ps, i - 1, d, now);
      assert ps[1..][i - 2] == ps[i - 1];
    }
  }

  /** What the head does to the room of the ports is what it takes from those behind it. */
  lemma DeliverableTail(w: Wiring, s: Net, t: Net, ps: seq<Pending>, i: nat)
    requires ps != [] && i < |ps| - 1 && t.now == s.now && |t.ports| == |s.ports| && ps[0].msg.dst < |s.ports|
    requires forall d {:trigger Room(t, d)} :: 0 <= d < |s.ports| ==>
      Room(t, d) == Room(s, d) - (if d == ps[0].msg.dst && Deliverable(s, ps, 0) then 1 else 0)
    ensures Deliverable(s, ps, i + 1) <==> Deliverable(t, ps[1..], i)
  {
    var q := ps[i + 1];
    assert ps[1..][i] == q;
    if q.msg.dst < |s.ports| {
      AheadTail(ps, i + 1, q.msg.dst, s.now);
      assert Room(t, q.msg.dst) == Room(s, q.msg.dst) - (if q.msg.dst == ps[0].msg.dst && Deliverable(s, ps, 0) then 1 else 0);
    }
  }

  /** What happens to one pending message. */
  ghost function DeliveryOf(w: Wiring, s: Net, e: nat, p: Pending): (Net, bool)
    requires Wired(w, s) && e < |s.ends| && p.msg.dst < |s.ports|
  {
    if p.due > s.now then (s, false)
    else
      RecvWired(w, s, p.msg);
      RecvShape(w, s, p.msg);
      var (s1, ok) := Recv(w, s, p.msg);
      (if ok then Tell(w, s1, e) else s1, ok)
  }

  lemma SweepOne(w: Wiring, s: Net, e: nat, ps: seq<Pending>)
    requires Wired(w, s) && e < |s.ends| && Known(s, ps) && ps != []
    ensures ps[0] in ps && Known(s, ps[1..])
    ensures var (t, ok) := DeliveryOf(w, s, e, ps[0]);
      && Wired(w, t) && |t.ends| == |s.ends| && |t.ports| == |s.ports|
      && Known(t, ps[1..])
      && var r := SweepFrom(w, t, e, ps[1..]);
         SweepFrom(w, s, e, ps) == if ok then r.(out := [ps[0]] + r.out) else r.(kept := [ps[0]] + r.kept)
  {
    hide Wired, Recv, Tell;
    var p := ps[0];
    assert p in ps && forall q :: q in ps[1..] ==> q in ps;
    if p.due <= s.now {
      RecvWired(w, s, p.msg);
      RecvShape(w, s, p.msg);
      TellWired(w, Recv(w, s, p.msg).0, e);
    }
  }

  lemma DeliveryShape(w: Wiring, s: Net, e: nat, p: Pending)
    requires Wired(w, s) && e < |s.ends| && p.msg.dst < |s.ports|
    ensures var (t, ok) := DeliveryOf(w, s, e, p);
      && t.now == s.now && |t.ports| == |s.ports|
      && (ok <==> p.due <= s.now && !Full(s, p.msg.dst))
      && (forall d {:trigger Room(t, d)} :: 0 <= d < |s.ports| ==> Room(t, d) == Room(s, d) - (if ok && d == p.msg.dst then 1 else 0))
      && (forall d :: Full(s, d) ==> Full(t, d))
  {
    hide Wired, Recv, Tell;
    if p.due <= s.now {
      RecvWired(w, s, p.msg);
      RecvShape(w, s, p.msg);
      RecvRoom(w, s, p.msg);
      var (s1, ok) := Recv(w, s, p.msg);
      TellWired(w, s1, e);
      var t := DeliveryOf(w, s, e, p).0;
      assert t.ports == s1.ports;
      forall d | 0 <= d < |s.ports|
        ensures Room(t, d) == Room(s, d) - (if ok && d == p.msg.dst then 1 else 0)
      {
        assert t.ports[d] == s1.ports[d] && Room(t, d) == Room(s1, d);
      }
    }
  }

  /** The state after the head has been looked at. */
  lemma AfterHead(w: Wiring, s: Net, e: nat, ps: seq<Pending>) returns (t: Net)
    requires Wired(w, s) && e < |s.ends| && Known(s, ps) && ps != []
    ensures Wired(w, t) && t.now == s.now && |t.ends| == |s.ends| && |t.ports| == |s.ports| && Known(t, ps[1..])
    ensures var r, q := SweepFrom(w, s, e, ps), SweepFrom(w, t, e, ps[1..]);
      r == if Deliverable(s, ps, 0) then q.(out := [ps[0]] + q.out) else q.(kept := [ps[0]] + q.kept)
    ensures forall i :: 0 <= i < |ps| - 1 ==> (Deliverable(s, ps, i + 1) <==> Deliverable(t, ps[1..], i))
    ensures forall d :: Full(s, d) ==> Full(t, d)
  {
    hide Wired, DeliveryOf, SweepFrom, Deliverable, Full, Room;
    assert ps[0] in ps;
    t := DeliveryOf(w, s, e, ps[0]).0;
    SweepOne(w, s, e, ps);
    DeliveryShape(w, s, e, ps[0]);
    HeadRoom(s, ps);
    forall i | 0 <= i < |ps| - 1
      ensures Deliverable(s, ps, i + 1) <==> Deliverable(t, ps[1..], i)
    {
      DeliverableTail(w, s, t, ps, i);
    }
  }

  lemma RecvRoom(w: Wiring, s: Net, m: Msg)
    requires Wired(w, s) && m.dst < |s.ports|
    ensures var (t, ok) := Recv(w, s, m);
      && |t.ports| == |s.ports|
      && forall d {:trigger Room(t, d)} :: 0 <= d < |s.ports| ==> Room(t, d) == Room(s, d) - (if ok && d == m.dst then 1 else 0)
  {
    var t := Recv(w, s, m).0;
    forall d | 0 <= d < |s.ports|
      ensures Room(t, d) == Room(s, d) - (if Recv(w, s, m).1 && d == m.dst then 1 else 0)
    {
      assert d != m.dst ==> t.ports[d] == s.ports[d];
    }
  }

  /** What a sweep delivers goes to ports that had room before it. */
  lemma {:induction false} SweepHasRoom(w: Wiring, s: Net, e: nat, ps: seq<Pending>)
    requires Wired(w, s) && e < |s.ends| && Known(s, ps)
    ensures forall p :: p in SweepFrom(w, s, e, ps).out ==> !Full(s, p.msg.dst)
    ensures SweepFrom(w, s, e, ps).out == [] <==> forall i :: 0 <= i < |ps| ==> !Deliverable(s, ps, i)
    ensures SweepFrom(w, s, e, ps).out == [] ==> SweepFrom(w, s, e, ps).kept == ps
    decreases |ps|
  {
    hide Wired, SweepFrom, Deliverable;
    if ps == [] {
      SweepNothing(w, s, e);
    } else {
      var t := AfterHead(w, s, e, ps);
      SweepHasRoom(w, t, e, ps[1..]);
      HeadRoom(s, ps);
      assert ps == [ps[0]] + ps[1..];
      if forall i :: 0 <= i < |ps| ==> !Deliverable(s, ps, i) {
        forall i | 0 <= i < |ps| - 1
          ensures !Deliverable(t, ps[1..], i)
        {
          assert !Deliverable(s, ps, i + 1);
        }
      }
      if SweepFrom(w, s, e, ps).out == [] {
        forall i | 0 <= i < |ps|
          ensures !Deliverable(s, ps, i)
        {
          if i > 0 {
            assert !Deliverable(t, ps[1..], i - 1);
          }
        }
      }
    }
  }

  lemma SweepNothing(w: Wiring, s: Net, e: nat)
    requires Wired(w, s) && e < |s.ends|
    ensures SweepFrom(w, s, e, []) == Sweep(s, [], [])
  {
  }

  lemma HeadRoom(s: Net, ps: seq<Pending>)
    requires ps != [] && ps[0].msg.dst < |s.ports|
    ensures Deliverable(s, ps, 0) <==> ps[0].due <= s.now && !Full(s, ps[0].msg.dst)
  {
  }

  lemma OrderlyTail(s: Net, t: Net, ps: seq<Pending>)
    requires ps != []
    requires forall i :: 0 <= i < |ps| - 1 ==> (Deliverable(s, ps, i + 1) <==> Deliverable(t, ps[1..], i))
    ensures Deliverable(s, ps, 0) ==> (Orderly(s, ps) <==> Orderly(t, ps[1..]))
    ensures !Deliverable(s, ps, 0) ==> (Orderly(s, ps) <==> forall i :: 0 <= i < |ps| - 1 ==> !Deliverable(t, ps[1..], i))
  {
    hide Deliverable;
    if Orderly(s, ps) {
      forall i, j | 0 <= i < j < |ps| - 1 && Deliverable(t, ps[1..], j)
        ensures Deliverable(t, ps[1..], i)
      {
        assert Deliverable(s, ps, j + 1) && Deliverable(s, ps, i + 1);
      }
      forall i | 0 <= i < |ps| - 1
        ensures Deliverable(t, ps[1..], i) ==> Deliverable(s, ps, 0)
      {
        assert Deliverable(t, ps[1..], i) <==> Deliverable(s, ps, i + 1);
      }
    }
    if (Deliverable(s, ps, 0) && Orderly(t, ps[1..])) || (!Deliverable(s, ps, 0) && forall i :: 0 <= i < |ps| - 1 ==> !Deliverable(t, ps[1..], i)) {
      forall i, j | 0 <= i < j < |ps| && Deliverable(s, ps, j)
        ensures Deliverable(s, ps, i)
      {
        assert Deliverable(t, ps[1..], j - 1);
        if i > 0 {
          assert Deliverable(t, ps[1..], i - 1);
        }
      }
    }
  }

  /** One sweep delivers an end's messages in their order if and only if none that can be delivered
      stands behind one that cannot. Otherwise what it delivers is not even a prefix of the list. */
  lemma {:induction false} SweepKeepsEndOrderIff(w: Wiring, s: Net, e: nat, ps: seq<Pending>)
    requires Wired(w, s) && e < |s.ends| && Known(s, ps)
    ensures var r := SweepFrom(w, s, e, ps);
      && (ps == r.out + r.kept <==> Orderly(s, ps))
      && (r.out <= ps <==> Orderly(s, ps))
    decreases |ps|
  {
    hide Wired, SweepFrom, Deliverable, Orderly, Full;
    if ps == [] {
      SweepNothing(w, s, e);
      OrderlyNothing(s);
    } else {
      var t := AfterHead(w, s, e, ps);
      var p, rest := ps[0], ps[1..];
      var q := SweepFrom(w, t, e, rest);
      OrderlyTail(s, t, ps);
      assert ps == [p] + rest && p in ps;
      if Deliverable(s, ps, 0) {
        SweepKeepsEndOrderIff(w, t, e, rest);
        SameHead(p, rest, q.out, q.kept);
      } else {
        SweepHasRoom(w, t, e, rest);
        SweepShape(w, t, e, rest);
        HeadRoom(s, ps);
        if q.out != [] {
          assert q.out[0] in q.out;
          assert q.out[0] != p;
          assert q.out + ([p] + q.kept) != ps;
        } else {
          assert [] + ([p] + rest) == ps;
        }
      }
    }
  }

  lemma OrderlyNothing(s: Net)
    ensures Orderly(s, [])
  {
  }

  lemma SameHead(p: Pending, rest: seq<Pending>, out: seq<Pending>, kept: seq<Pending>)
    ensures [p] + rest == ([p] + out) + kept <==> rest == out + kept
    ensures [p] + out <= [p] + rest <==> out <= rest
  {
    assert ([p] + out) + kept == [p] + (out + kept);
    assert ([p] + rest)[1..] == rest && ([p] + out)[1..] == out && ([p] + (out + kept))[1..] == out + kept;
    if [p] + out <= [p] + rest {
      forall i | 0 <= i < |out|
        ensures out[i] == rest[i]
      {
        assert ([p] + out)[i + 1] == ([p] + rest)[i + 1];
      }
    }
  }

  /** Two due messages of one end, the first port full: the second message overtakes the first. */
  lemma SecondOvertakesFirst(w: Wiring, s: Net, e: nat, first: Pending, second: Pending)
    requires Wired(w, s) && e < |s.ends| && first.msg.dst < |s.ports| && second.msg.dst < |s.ports|
    requires first.due <= s.now && second.due <= s.now
    requires Full(s, first.msg.dst) && !Full(s, second.msg.dst)
    ensures Known(s, [first, second])
    ensures SweepFrom(w, s, e, [first, second]).out == [second] && SweepFrom(w, s, e, [first, second]).kept == [first]
  {
    hide Wired, SweepFrom;
    var ps := [first, second];
    var t := AfterHead(w, s, e, ps);
    assert ps[1..] == [second];
    HeadRoom(s, ps);
    var u := AfterHead(w, t, e, [second]);
    assert [second][1..] == [];
    SweepNothing(w, u, e);
    assert Ahead(ps, 1, second.msg.dst, s.now) == 0;
    assert Deliverable(s, ps, 1);
    assert Deliverable(t, ps[1..], 0);
  }

  // ----- the tick of one end -----

  /** The messages of a buffer as they enter the pending list. */
  function Entries(l: Latency, ms: seq<Msg>, now: int): (r: seq<Pending>)
    ensures |r| == |ms| && forall i :: 0 <= i < |ms| ==> r[i] == Pending(ms[i], now + Delay(l, ms[i]), now)
  {
    if ms == [] then [] else Entries(l, ms[..|ms| - 1], now) + [Pending(ms[|ms| - 1], now + Delay(l, ms[|ms| - 1]), now)]
  }

  /** `forwardMany` under a latency: every message leaves the buffer. */
  ghost function Drain(w: Wiring, s: Net, e: nat): Net
    requires Wired(w, s) && e < |s.ends|
    decreases |s.ends[e].buf|
  {
    if s.ends[e].buf == [] then s
    else
      DequeueWired(w, s, e);
      Drain(w, Dequeue(w, s, e), e)
  }

  lemma {:induction false} DrainShape(w: Wiring, s: Net, e: nat)
    requires Wired(w, s) && e < |s.ends|
    ensures var t := Drain(w, s, e);
      && Wired(w, t) && t.now == s.now && |t.ports| == |s.ports| && |t.ends| == |s.ends| && t.nextPort == s.nextPort
      && t.ends[e].buf == [] && (forall i :: 0 <= i < |s.ends| && i != e ==> t.ends[i].buf == s.ends[i].buf)
    decreases |s.ends[e].buf|
  {
    if s.ends[e].buf != [] {
      DequeueWired(w, s, e);
      DrainShape(w, Dequeue(w, s, e), e);
    }
  }

  /** Forwarding delivers a prefix of the buffer. */
  lemma {:induction false} ForwardShape(w: Wiring, s: Net, e: nat)
    requires Wired(w, s) && e < |s.ends|
    ensures var t := ForwardMany(w, s, e).0;
      && Wired(w, t) && t.now == s.now && |t.ports| == |s.ports| && |t.ends| == |s.ends| && t.nextPort == s.nextPort
      && |t.ends[e].buf| <= |s.ends[e].buf| && t.ends[e].buf == s.ends[e].buf[|s.ends[e].buf| - |t.ends[e].buf|..]
      && (forall i :: 0 <= i < |s.ends| && i != e ==> t.ends[i].buf == s.ends[i].buf)
    decreases |s.ends[e].buf|
  {
    if s.ends[e].buf != [] {
      var head := s.ends[e].buf[0];
      assert head in s.ends[e].buf;
      RecvWired(w, s, head);
      RecvShape(w, s, head);
      var (s1, taken) := Recv(w, s, head);
      if taken {
        DequeueWired(w, s1, e);
        ForwardShape(w, Dequeue(w, s1, e), e);
      }
    }
  }

  /** One turn of the loop in `Tick`: deliver what is pending, then take from the buffer. */
  ghost function Turn(w: Wiring, l: Latency, d: Delayed, e: nat): (Delayed, bool)
    requires Wired(w, d.net) && e < |d.net.ends| == |d.lanes| && Known(d.net, d.lanes[e].pending)
  {
    var lane := d.lanes[e];
    var r := SweepFrom(w, d.net, e, lane.pending);
    SweepShape(w, d.net, e, lane.pending);
    var got := lane.got + Stamped(r.out, d.net.now);
    var held := r.out != [] || r.kept != [];
    var buf := r.net.ends[e].buf;
    if l.AtOnce? then
      var (t, some) := ForwardMany(w, r.net, e);
      ForwardShape(w, r.net, e);
      var moved := Entries(l, buf[..|buf| - |t.ends[e].buf|], d.net.now);
      (Delayed(t, d.lanes[e := Lane(r.kept, lane.sent, lane.taken + moved, got + Stamped(moved, d.net.now))]), held || some)
    else
      var moved := Entries(l, buf, d.net.now);
      (Delayed(Drain(w, r.net, e), d.lanes[e := Lane(r.kept + moved, lane.sent, lane.taken + moved, got)]), held || buf != [])
  }

  // ----- the invariant of an end -----

  /** The message is due when the latency of its source and destination has passed since it was taken. */
  ghost predicate Latent(l: Latency, p: Pending)
  {
    match l
    case AtOnce => p.due == p.at
    case After(of) => p.due == p.at + of(p.msg.src, p.msg.dst)
  }

  /** Every message is in the buffer, pending or delivered; per pair in the order it was taken; and
      nothing is delivered before it is due. */
  ghost predicate LaneOk(l: Latency, lane: Lane, buf: seq<Msg>, now: int)
  {
    && lane.sent == Messages(lane.taken) + buf
    && (forall src, dst {:trigger Of(lane.taken, src, dst)} :: Of(lane.taken, src, dst) == Of(Items(lane.got), src, dst) + Of(lane.pending, src, dst))
    && (forall i {:trigger lane.got[i]} :: 0 <= i < |lane.got| ==> lane.got[i].item.due <= lane.got[i].time <= now)
    && InOrder(lane.pending)
    && (forall p {:trigger p in lane.pending} :: p in lane.pending ==> p.due <= now + Delay(l, p.msg))
    && (l.AtOnce? ==> lane.pending == [])
    && (forall p {:trigger p in lane.pending} :: p in lane.pending ==> Latent(l, p) && p.at <= now)
    && (forall i {:trigger lane.got[i]} :: 0 <= i < |lane.got| ==>
          Latent(l, lane.got[i].item) && (l.AtOnce? ==> lane.got[i].time == lane.got[i].item.at))
  }

  ghost predicate Inv(w: Wiring, l: Latency, d: Delayed)
  {
    && Wired(w, d.net) && |d.lanes| == |d.net.ends|
    && (forall e {:trigger d.lanes[e]} :: 0 <= e < |d.lanes| ==>
          LaneOk(l, d.lanes[e], d.net.ends[e].buf, d.net.now) && Known(d.net, d.lanes[e].pending))
  }

  lemma MessagesConcat(a: seq<Pending>, b: seq<Pending>)
    ensures Messages(a + b) == Messages(a) + Messages(b)
  {
  }

  lemma ItemsStamped(a: seq<Delivery>, ps: seq<Pending>, now: int)
    ensures Items(a + Stamped(ps, now)) == Items(a) + ps
  {
  }

  lemma MessagesOfEntries(l: Latency, ms: seq<Msg>, now: int)
    ensures Messages(Entries(l, ms, now)) == ms
  {
  }

  /** Delivering pending messages keeps the lane's invariant. */
  lemma SweepLane(w: Wiring, l: Latency, s: Net, e: nat, lane: Lane, buf: seq<Msg>)
    requires Wired(w, s) && e < |s.ends| && Known(s, lane.pending) && LaneOk(l, lane, buf, s.now)
    ensures var r := SweepFrom(w, s, e, lane.pending);
      LaneOk(l, Lane(r.kept, lane.sent, lane.taken, lane.got + Stamped(r.out, s.now)), buf, s.now)
  {
    hide Wired, SweepFrom, Of, InOrder, Messages, Items;
    var r := SweepFrom(w, s, e, lane.pending);
    SweepShape(w, s, e, lane.pending);
    SweepKeepsInOrder(w, s, e, lane.pending);
    var got := lane.got + Stamped(r.out, s.now);
    ItemsStamped(lane.got, r.out, s.now);
    forall src, dst
      ensures Of(lane.taken, src, dst) == Of(Items(got), src, dst) + Of(r.kept, src, dst)
    {
      SweepKeepsPairOrder(w, s, e, lane.pending, src, dst);
      OfConcat(Items(lane.got), r.out, src, dst);
      Associative(Of(Items(lane.got), src, dst), Of(r.out, src, dst), Of(r.kept, src, dst));
    }
    forall i | 0 <= i < |got|
      ensures got[i].item.due <= got[i].time <= s.now
    {
      if i >= |lane.got| {
        assert r.out[i - |lane.got|] in r.out;
      }
    }
    assert |r.kept| > 0 ==> r.kept[0] in lane.pending;
  }

  lemma Associative(a: seq<Pending>, b: seq<Pending>, c: seq<Pending>)
    ensures (a + b) + c == a + (b + c)
  {
  }

  lemma OfAppended(a: seq<Pending>, b: seq<Pending>, c: seq<Pending>, moved: seq<Pending>, src: nat, dst: nat)
    requires Of(a, src, dst) == Of(b, src, dst) + Of(c, src, dst)
    ensures Of(a + moved, src, dst) == Of(b, src, dst) + Of(c + moved, src, dst)
    ensures c == [] ==> Of(a + moved, src, dst) == Of(b + moved, src, dst) + Of(c, src, dst)
  {
    hide Of;
    OfConcat(a, moved, src, dst);
    OfConcat(c, moved, src, dst);
    Associative(Of(b, src, dst), Of(c, src, dst), Of(moved, src, dst));
    if c == [] {
      OfEmpty(src, dst);
      OfConcat(b, moved, src, dst);
      assert Of(b, src, dst) + [] == Of(b, src, dst);
      assert Of(b + moved, src, dst) + [] == Of(b + moved, src, dst);
    }
  }

  lemma AppendedInOrder(l: Latency, ps: seq<Pending>, ms: seq<Msg>, now: int)
    requires InOrder(ps) && forall p {:trigger p in ps} :: p in ps ==> p.due <= now + Delay(l, p.msg)
    ensures InOrder(ps + Entries(l, ms, now))
    ensures forall p {:trigger p in ps + Entries(l, ms, now)} :: p in ps + Entries(l, ms, now) ==> p.due <= now + Delay(l, p.msg)
  {
    var moved := Entries(l, ms, now);
    var qs := ps + moved;
    forall p | p in qs
      ensures p.due <= now + Delay(l, p.msg)
    {
      if p !in ps {
        var i :| 0 <= i < |moved| && moved[i] == p;
      }
    }
    forall i, j | 0 <= i < j < |qs| && qs[i].msg.src == qs[j].msg.src && qs[i].msg.dst == qs[j].msg.dst
      ensures qs[i].due <= qs[j].due
    {
      assert qs[i] in qs;
      if j >= |ps| {
        assert qs[j] == moved[j - |ps|];
      }
    }
  }

  /** Taking the whole buffer under a latency. */
  lemma DrainLane(l: Latency, lane: Lane, buf: seq<Msg>, now: int)
    requires LaneOk(l, lane, buf, now) && l.After?
    ensures var moved := Entries(l, buf, now);
      LaneOk(l, Lane(lane.pending + moved, lane.sent, lane.taken + moved, lane.got), [], now)
  {
    hide Of, InOrder, Messages, Items, Entries;
    var moved := Entries(l, buf, now);
    MessagesConcat(lane.taken, moved);
    MessagesOfEntries(l, buf, now);
    assert Messages(lane.taken) + buf == Messages(lane.taken + moved) + [];
    AppendedInOrder(l, lane.pending, buf, now);
    forall src, dst
      ensures Of(lane.taken + moved, src, dst) == Of(Items(lane.got), src, dst) + Of(lane.pending + moved, src, dst)
    {
      OfAppended(lane.taken, Items(lane.got), lane.pending, moved, src, dst);
    }
  }

  /** Delivering a prefix of the buffer at once. */
  lemma ForwardLane(l: Latency, lane: Lane, buf: seq<Msg>, k: nat, now: int)
    requires LaneOk(l, lane, buf, now) && l.AtOnce? && k <= |buf|
    ensures var moved := Entries(l, buf[..k], now);
      LaneOk(l, Lane(lane.pending, lane.sent, lane.taken + moved, lane.got + Stamped(moved, now)), buf[k..], now)
  {
    hide Of, InOrder, Messages, Items, Entries;
    var moved := Entries(l, buf[..k], now);
    MessagesConcat(lane.taken, moved);
    MessagesOfEntries(l, buf[..k], now);
    assert buf == buf[..k] + buf[k..];
    assert Messages(lane.taken) + buf == Messages(lane.taken + moved) + buf[k..];
    ItemsStamped(lane.got, moved, now);
    forall src, dst
      ensures Of(lane.taken + moved, src, dst) == Of(Items(lane.got + Stamped(moved, now)), src, dst) + Of(lane.pending, src, dst)
    {
      OfAppended(lane.taken, Items(lane.got), lane.pending, moved, src, dst);
    }
  }

  lemma TurnKeepsInv(w: Wiring, l: Latency, d: Delayed, e: nat)
    requires Inv(w, l, d) && e < |d.lanes|
    ensures Inv(w, l, Turn(w, l, d, e).0)
    ensures var t := Turn(w, l, d, e).0;
      |t.net.ports| == |d.net.ports| && |t.lanes| == |d.lanes| && t.net.nextPort == d.net.nextPort && t.net.now == d.net.now
  {
    hide Wired, SweepFrom, ForwardMany, Drain, LaneOk;
    assert Wired(w, d.net) && Known(d.net, d.lanes[e].pending);
    var lane := d.lanes[e];
    var r := SweepFrom(w, d.net, e, lane.pending);
    SweepShape(w, d.net, e, lane.pending);
    SweepLane(w, l, d.net, e, lane, d.net.ends[e].buf);
    var t := Turn(w, l, d, e).0;
    var swept := Lane(r.kept, lane.sent, lane.taken, lane.got + Stamped(r.out, d.net.now));
    var buf := r.net.ends[e].buf;
    if l.AtOnce? {
      ForwardShape(w, r.net, e);
      ForwardLane(l, swept, buf, |buf| - |t.net.ends[e].buf|, d.net.now);
    } else {
      DrainShape(w, r.net, e);
      DrainLane(l, swept, buf, d.net.now);
      EntriesKnown(w, l, r.net, e, d.net.now);
    }
    forall i | 0 <= i < |t.lanes|
      ensures LaneOk(l, t.lanes[i], t.net.ends[i].buf, t.net.now) && Known(t.net, t.lanes[i].pending)
    {
      if i != e {
        assert t.lanes[i] == d.lanes[i] && t.net.ends[i].buf == d.net.ends[i].buf;
      }
    }
  }

  /** What a turn takes from the front of the buffer is stamped with the present and with the latency
      of its source and destination; under a latency it takes everything. */
  lemma TurnStamps(w: Wiring, l: Latency, d: Delayed, e: nat)
    requires Inv(w, l, d) && e < |d.lanes|
    ensures |d.net.ends| == |d.lanes|
    ensures var t := Turn(w, l, d, e).0;
      && d.lanes[e].taken <= t.lanes[e].taken
      && var taken_ := t.lanes[e].taken[|d.lanes[e].taken|..];
      && |t.net.ends| == |d.net.ends| && d.net.ends[e].buf == Messages(taken_) + t.net.ends[e].buf
      && (l.After? ==> t.net.ends[e].buf == [])
      && (forall k :: 0 <= k < |taken_| ==> taken_[k].at == d.net.now)
      && match l
         case AtOnce => forall k :: 0 <= k < |taken_| ==> taken_[k].due == d.net.now
         case After(of) => forall k :: 0 <= k < |taken_| ==> taken_[k].due == d.net.now + of(taken_[k].msg.src, taken_[k].msg.dst)
  {
    hide Wired, SweepFrom, ForwardMany, Drain, LaneOk, Messages;
    InvSizes(w, l, d);
    var lane := d.lanes[e];
    var r := SweepFrom(w, d.net, e, lane.pending);
    SweepShape(w, d.net, e, lane.pending);
    var buf := r.net.ends[e].buf;
    var t := Turn(w, l, d, e).0;
    if l.AtOnce? {
      ForwardShape(w, r.net, e);
      var k := |buf| - |t.net.ends[e].buf|;
      MessagesOfEntries(l, buf[..k], d.net.now);
      assert t.lanes[e].taken[|lane.taken|..] == Entries(l, buf[..k], d.net.now);
      assert buf == buf[..k] + buf[k..];
    } else {
      DrainShape(w, r.net, e);
      MessagesOfEntries(l, buf, d.net.now);
      assert t.lanes[e].taken[|lane.taken|..] == Entries(l, buf, d.net.now);
      assert buf + [] == buf;
    }
  }

  lemma EntriesKnown(w: Wiring, l: Latency, s: Net, e: nat, now: int)
    requires Wired(w, s) && e < |s.ends|
    ensures Known(s, Entries(l, s.ends[e].buf, now))
  {
    var ps := Entries(l, s.ends[e].buf, now);
    forall p | p in ps
      ensures p.msg.dst < |s.ports|
    {
      var i :| 0 <= i < |ps| && ps[i] == p;
      assert p.msg in s.ends[e].buf;
    }
  }

  // ----- every run -----

  ghost function TurnsFrom(w: Wiring, l: Latency, d: Delayed, i: nat): (Delayed, bool)
    requires Inv(w, l, d) && i <= |d.net.ports|
    decreases |d.net.ports| - i
  {
    if i == |d.net.ports| then (d, false)
    else
      var e := Rotated(i, d.net.nextPort, |d.net.ports|);
      TurnKeepsInv(w, l, d, e);
      var (d1, some) := Turn(w, l, d, e);
      var (d2, more) := TurnsFrom(w, l, d1, i + 1);
      (d2, some || more)
  }

  ghost function Tick(w: Wiring, l: Latency, d: Delayed): (Delayed, bool)
    requires Inv(w, l, d)
  {
    var (t, progress) := TurnsFrom(w, l, d, 0);
    (t.(net := t.net.(nextPort := if |t.net.ports| == 0 then 0 else (t.net.nextPort + 1) % |t.net.ports|)), progress)
  }

  datatype Event = Sending(m: Msg) | Retrieving(p: nat) | Waiting(time: int) | Ticking

  ghost function Step(w: Wiring, l: Latency, d: Delayed, ev: Event): Delayed
    requires Inv(w, l, d)
  {
    match ev
    case Sending(m) =>
      var (t, answer) := Send(w, d.net, m);
      if answer == Taken then
        var e := EndOf(w, m);
        Delayed(t, d.lanes[e := d.lanes[e].(sent := d.lanes[e].sent + [m])])
      else d.(net := t)
    case Retrieving(p) => if p < |d.net.ports| then d.(net := Retrieve(d.net, p)) else d
    case Waiting(time) => if d.net.now <= time then d.(net := d.net.(now := time)) else d
    case Ticking => Tick(w, l, d).0
  }

  lemma {:induction false} TurnsKeepInv(w: Wiring, l: Latency, d: Delayed, i: nat)
    requires Inv(w, l, d) && i <= |d.net.ports|
    ensures Inv(w, l, TurnsFrom(w, l, d, i).0)
    decreases |d.net.ports| - i
  {
    hide Inv, Turn;
    InvSizes(w, l, d);
    if i < |d.net.ports| {
      var e := Rotated(i, d.net.nextPort, |d.net.ports|);
      TurnKeepsInv(w, l, d, e);
      TurnsKeepInv(w, l, Turn(w, l, d, e).0, i + 1);
    }
  }

  lemma InvSizes(w: Wiring, l: Latency, d: Delayed)
    requires Inv(w, l, d)
    ensures Wired(w, d.net) && |d.lanes| == |d.net.ports| == |d.net.ends| && d.net.nextPort < |d.net.ports|
    ensures forall e :: 0 <= e < |d.lanes| ==> Known(d.net, d.lanes[e].pending)
  {
  }

  lemma StepKeepsInv(w: Wiring, l: Latency, d: Delayed, ev: Event)
    requires Inv(w, l, d)
    ensures Inv(w, l, Step(w, l, d, ev))
  {
    hide LaneOk, Wired, Send, Retrieve;
    InvSizes(w, l, d);
    var t := Step(w, l, d, ev);
    match ev
    case Ticking =>
      TurnsKeepInv(w, l, d, 0);
      var u := TurnsFrom(w, l, d, 0).0;
      InvSizes(w, l, u);
      WiredFrame(w, u.net, t.net);
      SameLanes(w, l, u, t);
    case Sending(m) =>
      SendLanes(w, l, d, m);
    case Retrieving(p) =>
      if p < |d.net.ports| {
        ActWired(w, d.net, RetrieveFrom(p));
        RetrieveShape(d.net, p);
        SameLanes(w, l, d, t);
      }
    case Waiting(time) =>
      NowWired(w, d.net, t.net);
      forall e | 0 <= e < |t.lanes|
        ensures LaneOk(l, t.lanes[e], t.net.ends[e].buf, t.net.now)
      {
        LaterLane(l, d.lanes[e], d.net.ends[e].buf, d.net.now, t.net.now);
      }
  }

  lemma RetrieveShape(s: Net, p: nat)
    requires p < |s.ports|
    ensures var t := Retrieve(s, p); |t.ports| == |s.ports| && t.ends == s.ends && t.now == s.now
  {
  }

  lemma SendShape(w: Wiring, s: Net, m: Msg)
    requires Wired(w, s)
    ensures var (t, answer) := Send(w, s, m);
      && t.ports == s.ports && t.now == s.now && |t.ends| == |s.ends|
      && (answer == Taken ==> EndOf(w, m) < |s.ends| && t.ends[EndOf(w, m)].buf == s.ends[EndOf(w, m)].buf + [m])
      && (forall e :: 0 <= e < |s.ends| && (e != EndOf(w, m) || answer != Taken) ==> t.ends[e].buf == s.ends[e].buf)
  {
  }

  lemma SendLanes(w: Wiring, l: Latency, d: Delayed, m: Msg)
    requires Inv(w, l, d)
    ensures Inv(w, l, Step(w, l, d, Sending(m)))
  {
    hide LaneOk, Wired, Send;
    InvSizes(w, l, d);
    SendShape(w, d.net, m);
    ActWired(w, d.net, SendMsg(m));
    var t := Step(w, l, d, Sending(m));
    forall e | 0 <= e < |t.lanes|
      ensures LaneOk(l, t.lanes[e], t.net.ends[e].buf, t.net.now) && Known(t.net, t.lanes[e].pending)
    {
      if e == EndOf(w, m) {
        SentLane(l, d.lanes[e], d.net.ends[e].buf, m, d.net.now);
      }
      assert LaneOk(l, d.lanes[e], d.net.ends[e].buf, d.net.now);
    }
  }

  lemma SameLanes(w: Wiring, l: Latency, d: Delayed, t: Delayed)
    requires Inv(w, l, d) && Wired(w, t.net) && t.lanes == d.lanes && t.net.ends == d.net.ends && t.net.now == d.net.now
    requires |t.net.ports| == |d.net.ports|
    ensures Inv(w, l, t)
  {
    hide LaneOk;
  }

  lemma LaterLane(l: Latency, lane: Lane, buf: seq<Msg>, now: int, then_: int)
    requires LaneOk(l, lane, buf, now) && now <= then_
    ensures LaneOk(l, lane, buf, then_)
  {
  }

  lemma SentLane(l: Latency, lane: Lane, buf: seq<Msg>, m: Msg, now: int)
    requires LaneOk(l, lane, buf, now)
    ensures LaneOk(l, lane.(sent := lane.sent + [m]), buf + [m], now)
  {
  }

  ghost function Run(w: Wiring, l: Latency, d: Delayed, evs: seq<Event>): Delayed
    requires Inv(w, l, d)
    decreases |evs|
  {
    if evs == [] then d
    else
      StepKeepsInv(w, l, d, evs[0]);
      Run(w, l, Step(w, l, d, evs[0]), evs[1..])
  }

  lemma {:induction false} EveryRunKeepsInv(w: Wiring, l: Latency, d: Delayed, evs: seq<Event>)
    requires Inv(w, l, d)
    ensures Inv(w, l, Run(w, l, d, evs))
    decreases |evs|
  {
    hide Inv, Step;
    if evs != [] {
      StepKeepsInv(w, l, d, evs[0]);
      EveryRunKeepsInv(w, l, Step(w, l, d, evs[0]), evs[1..]);
    }
  }

  // ----- what the invariant says about a run -----

  function OfMessages(ms: seq<Msg>, src: nat, dst: nat): seq<Msg>
  {
    if ms == [] then []
    else (if ms[0].src == src && ms[0].dst == dst then [ms[0]] else []) + OfMessages(ms[1..], src, dst)
  }

  lemma {:induction false} OfMessagesConcat(a: seq<Msg>, b: seq<Msg>, src: nat, dst: nat)
    ensures OfMessages(a + b, src, dst) == OfMessages(a, src, dst) + OfMessages(b, src, dst)
  {
    if a == [] {
      assert a + b == b;
    } else {
      assert (a + b)[1..] == a[1..] + b;
      OfMessagesConcat(a[1..], b, src, dst);
    }
  }

  lemma {:induction false} MessagesOf(ps: seq<Pending>, src: nat, dst: nat)
    ensures OfMessages(Messages(ps), src, dst) == Messages(Of(ps, src, dst))
  {
    if ps != [] {
      MessagesOf(ps[1..], src, dst);
      assert Messages(ps)[1..] == Messages(ps[1..]);
      var one := if ps[0].msg.src == src && ps[0].msg.dst == dst then [ps[0]] else [];
      MessagesConcat(one, Of(ps[1..], src, dst));
    }
  }

  /** Nothing accepted, nothing pending. */
  ghost predicate Fresh(d: Delayed)
  {
    && (forall e {:trigger d.lanes[e]} :: 0 <= e < |d.lanes| ==> d.lanes[e] == Lane([], [], [], []))
    && (forall e {:trigger d.net.ends[e]} :: 0 <= e < |d.net.ends| ==> d.net.ends[e].buf == [])
  }

  lemma FreshInv(w: Wiring, l: Latency, d: Delayed)
    requires Wired(w, d.net) && |d.lanes| == |d.net.ends| && Fresh(d)
    ensures Inv(w, l, d)
  {
    forall e | 0 <= e < |d.lanes|
      ensures LaneOk(l, d.lanes[e], d.net.ends[e].buf, d.net.now)
    {
      assert d.lanes[e] == Lane([], [], [], []) && d.net.ends[e].buf == [];
    }
  }

  /** Over every run and for every source and destination, the messages accepted at an end are those
      delivered, then those pending, then those in its buffer, each part in the order of sending;
      the k-th delivered is the k-th taken; and a message is delivered no earlier than the latency of
      its source and destination after it was taken, without a latency at the very time. */
  lemma PairsArriveInOrder(w: Wiring, l: Latency, d: Delayed, evs: seq<Event>, e: nat, src: nat, dst: nat)
    requires Wired(w, d.net) && |d.lanes| == |d.net.ends| && Fresh(d) && e < |d.lanes|
    ensures Inv(w, l, d)
    ensures var t := Run(w, l, d, evs);
      && |t.lanes| == |t.net.ends|
      && (e < |t.lanes| ==>
           var lane := t.lanes[e];
           && OfMessages(lane.sent, src, dst)
              == OfMessages(Messages(Items(lane.got)), src, dst) + OfMessages(Messages(lane.pending), src, dst) + OfMessages(t.net.ends[e].buf, src, dst)
           && Of(Items(lane.got), src, dst) <= Of(lane.taken, src, dst)
           && OnTime(l, lane))
  {
    hide Inv, Run, LaneOk, Of, OfMessages, Messages, Items, OnTime;
    FreshInv(w, l, d);
    EveryRunKeepsInv(w, l, d, evs);
    var t := Run(w, l, d, evs);
    InvSizes(w, l, t);
    if e < |t.lanes| {
      InvLane(w, l, t, e);
      LaneOrder(l, t.lanes[e], t.net.ends[e].buf, t.net.now, src, dst);
      LaneOnTime(l, t.lanes[e], t.net.ends[e].buf, t.net.now);
    }
  }

  /** Under a latency everything is due exactly that of its source and destination after it was taken,
      and delivered no earlier; without one everything is delivered at the time it was taken. */
  ghost predicate OnTime(l: Latency, lane: Lane)
  {
    match l
    case AtOnce =>
      lane.pending == [] && forall i {:trigger lane.got[i]} :: 0 <= i < |lane.got| ==> lane.got[i].time == lane.got[i].item.at == lane.got[i].item.due
    case After(of) =>
      && (forall i {:trigger lane.got[i]} :: 0 <= i < |lane.got| ==>
            var p := lane.got[i].item; p.due == p.at + of(p.msg.src, p.msg.dst) <= lane.got[i].time)
      && (forall p {:trigger p in lane.pending} :: p in lane.pending ==> p.due == p.at + of(p.msg.src, p.msg.dst))
  }

  lemma LaneOnTime(l: Latency, lane: Lane, buf: seq<Msg>, now: int)
    requires LaneOk(l, lane, buf, now)
    ensures OnTime(l, lane)
  {
    hide Of, Items, Messages, InOrder;
  }

  lemma LaneOrder(l: Latency, lane: Lane, buf: seq<Msg>, now: int, src: nat, dst: nat)
    requires LaneOk(l, lane, buf, now)
    ensures OfMessages(lane.sent, src, dst)
      == OfMessages(Messages(Items(lane.got)), src, dst) + OfMessages(Messages(lane.pending), src, dst) + OfMessages(buf, src, dst)
    ensures Of(Items(lane.got), src, dst) <= Of(lane.taken, src, dst)
  {
    hide Of, OfMessages, InOrder, Messages, Items;
    OfMessagesConcat(Messages(lane.taken), buf, src, dst);
    MessagesOf(lane.taken, src, dst);
    MessagesOf(Items(lane.got), src, dst);
    MessagesOf(lane.pending, src, dst);
    MessagesConcat(Of(Items(lane.got), src, dst), Of(lane.pending, src, dst));
  }

  lemma InvLane(w: Wiring, l: Latency, d: Delayed, e: nat)
    requires Inv(w, l, d) && e < |d.lanes|
    ensures e < |d.net.ends| && LaneOk(l, d.lanes[e], d.net.ends[e].buf, d.net.now)
  {
  }

  lemma {:induction false} CountOf(ms: seq<Msg>, m: Msg)
    ensures multiset(ms)[m] == multiset(OfMessages(ms, m.src, m.dst))[m]
  {
    if ms != [] {
      CountOf(ms[1..], m);
      assert ms == [ms[0]] + ms[1..];
    }
  }

  /** No message is lost or delivered twice: accepted is delivered plus pending plus buffered. */
  lemma NothingLost(w: Wiring, l: Latency, d: Delayed, evs: seq<Event>, e: nat)
    requires Wired(w, d.net) && |d.lanes| == |d.net.ends| && Fresh(d) && e < |d.lanes|
    ensures Inv(w, l, d)
    ensures var t := Run(w, l, d, evs);
      && |t.lanes| == |t.net.ends|
      && (e < |t.lanes| ==>
           multiset(t.lanes[e].sent)
             == multiset(Messages(Items(t.lanes[e].got))) + multiset(Messages(t.lanes[e].pending)) + multiset(t.net.ends[e].buf))
  {
    hide OfMessages, Messages, Items, Of, Inv, Run, Fresh, LaneOk;
    FreshInv(w, l, d);
    assert |d.lanes| == |d.net.ends|;
    EveryRunKeepsInv(w, l, d, evs);
    var t := Run(w, l, d, evs);
    InvSizes(w, l, t);
    if e < |t.lanes| {
      InvLane(w, l, t, e);
      var lane, buf := t.lanes[e], t.net.ends[e].buf;
      var got, pending := Messages(Items(lane.got)), Messages(lane.pending);
      forall m: Msg
        ensures multiset(lane.sent)[m] == (multiset(got) + multiset(pending) + multiset(buf))[m]
      {
        LaneOrder(l, lane, buf, t.net.now, m.src, m.dst);
        CountOf(lane.sent, m);
        CountOf(got, m);
        CountOf(pending, m);
        CountOf(buf, m);
      }
    }
  }

  // ----- deliveries and the buffers of the ports -----

  function ForPort(ms: seq<Msg>, p: nat): seq<Msg>
  {
    if ms == [] then [] else (if ms[0].dst == p then [ms[0]] else []) + ForPort(ms[1..], p)
  }

  lemma ForPortCons(m: Msg, ms: seq<Msg>, p: nat)
    ensures ForPort([m] + ms, p) == (if m.dst == p then [m] else []) + ForPort(ms, p)
  {
    assert ([m] + ms)[1..] == ms;
  }

  lemma {:induction false} ForPortConcat(a: seq<Msg>, b: seq<Msg>, p: nat)
    ensures ForPort(a + b, p) == ForPort(a, p) + ForPort(b, p)
  {
    if a == [] {
      assert a + b == b;
    } else {
      assert a == [a[0]] + a[1..] && a + b == [a[0]] + (a[1..] + b);
      ForPortCons(a[0], a[1..] + b, p);
      ForPortCons(a[0], a[1..], p);
      ForPortConcat(a[1..], b, p);
    }
  }

  lemma RecvFills(w: Wiring, s: Net, m: Msg, p: nat)
    requires Wired(w, s) && m.dst < |s.ports| && p < |s.ports|
    ensures var (t, ok) := Recv(w, s, m);
      |t.ports| == |s.ports| && t.ports[p].buf == s.ports[p].buf + (if ok && m.dst == p then [m] else [])
  {
  }

  lemma ConsBuf(a: seq<Msg>, b: seq<Msg>, m: Msg, ms: seq<Msg>, p: nat)
    requires b == a + (if m.dst == p then [m] else [])
    ensures b + ForPort(ms, p) == a + ForPort([m] + ms, p)
  {
    ForPortCons(m, ms, p);
  }

  lemma {:induction false} SweepFills(w: Wiring, s: Net, e: nat, ps: seq<Pending>, p: nat)
    requires Wired(w, s) && e < |s.ends| && Known(s, ps) && p < |s.ports|
    ensures var r := SweepFrom(w, s, e, ps);
      |r.net.ports| == |s.ports| && r.net.ports[p].buf == s.ports[p].buf + ForPort(Messages(r.out), p)
    decreases |ps|
  {
    hide Wired, Recv, Tell, ForPort, Messages;
    if ps == [] {
      NoneForPort(p);
    } else {
      var q := ps[0];
      assert q in ps && forall x :: x in ps[1..] ==> x in ps;
      if q.due > s.now {
        SweepFills(w, s, e, ps[1..], p);
      } else {
        RecvWired(w, s, q.msg);
        RecvShape(w, s, q.msg);
        RecvFills(w, s, q.msg, p);
        var (s1, ok) := Recv(w, s, q.msg);
        TellWired(w, s1, e);
        var u := if ok then Tell(w, s1, e) else s1;
        SweepFills(w, u, e, ps[1..], p);
        if ok {
          var out := SweepFrom(w, u, e, ps[1..]).out;
          MessagesConcat([q], out);
          assert Messages([q]) == [q.msg];
          ConsBuf(s.ports[p].buf, u.ports[p].buf, q.msg, Messages(out), p);
        }
      }
    }
  }

  lemma NoneForPort(p: nat)
    ensures ForPort(Messages([]), p) == []
  {
  }

  lemma DequeueKeepsPorts(w: Wiring, s: Net, e: nat)
    requires Wired(w, s) && e < |s.ends| && s.ends[e].buf != []
    ensures Dequeue(w, s, e).ports == s.ports && |Dequeue(w, s, e).ends| == |s.ends| && Dequeue(w, s, e).ends[e].buf == s.ends[e].buf[1..]
  {
  }

  lemma {:induction false} DrainKeepsPorts(w: Wiring, s: Net, e: nat)
    requires Wired(w, s) && e < |s.ends|
    ensures Drain(w, s, e).ports == s.ports
    decreases |s.ends[e].buf|
  {
    if s.ends[e].buf != [] {
      DequeueWired(w, s, e);
      DrainKeepsPorts(w, Dequeue(w, s, e), e);
    }
  }

  lemma {:induction false} ForwardFills(w: Wiring, s: Net, e: nat, p: nat)
    requires Wired(w, s) && e < |s.ends| && p < |s.ports|
    ensures var t := ForwardMany(w, s, e).0;
      && |t.ports| == |s.ports| && |t.ends| == |s.ends| && |t.ends[e].buf| <= |s.ends[e].buf|
      && t.ports[p].buf == s.ports[p].buf + ForPort(s.ends[e].buf[..|s.ends[e].buf| - |t.ends[e].buf|], p)
    decreases |s.ends[e].buf|
  {
    hide Wired, Recv, Dequeue, ForPort;
    var buf := s.ends[e].buf;
    if buf == [] {
      NoneForPort(p);
    } else {
      var head := buf[0];
      HeadIsKnown(w, s, e);
      RecvWired(w, s, head);
      RecvShape(w, s, head);
      RecvFills(w, s, head, p);
      var (s1, taken) := Recv(w, s, head);
      if taken {
        DequeueWired(w, s1, e);
        DequeueKeepsPorts(w, s1, e);
        var u := Dequeue(w, s1, e);
        ForwardFills(w, u, e, p);
        var left := |ForwardMany(w, u, e).0.ends[e].buf|;
        ConsBuf(s.ports[p].buf, u.ports[p].buf, head, buf[1..][..|buf| - 1 - left], p);
        assert [head] + buf[1..][..|buf| - 1 - left] == buf[..|buf| - left];
      } else {
        NoneForPort(p);
        assert buf[..0] == [];
      }
    }
  }

  lemma HeadIsKnown(w: Wiring, s: Net, e: nat)
    requires Wired(w, s) && e < |s.ends| && s.ends[e].buf != []
    ensures s.ends[e].buf[0].dst < |s.ports|
  {
    assert s.ends[e].buf[0] in s.ends[e].buf;
  }

  /** What a turn records as delivered is what the ports receive: each port's buffer grows by exactly
      the messages for it, in that order. */
  lemma TurnFillsPorts(w: Wiring, l: Latency, d: Delayed, e: nat, p: nat)
    requires Inv(w, l, d) && e < |d.lanes| && p < |d.net.ports|
    ensures var t := Turn(w, l, d, e).0;
      && |t.net.ports| == |d.net.ports| && d.lanes[e].got <= t.lanes[e].got
      && t.net.ports[p].buf == d.net.ports[p].buf + ForPort(Messages(Items(t.lanes[e].got[|d.lanes[e].got|..])), p)
  {
    hide Wired, SweepFrom, ForwardMany, Drain, LaneOk, Entries, ForPort, Messages, Items, Stamped;
    InvSizes(w, l, d);
    var lane := d.lanes[e];
    var r := SweepFrom(w, d.net, e, lane.pending);
    SweepShape(w, d.net, e, lane.pending);
    SweepFills(w, d.net, e, lane.pending, p);
    var t := Turn(w, l, d, e).0;
    var now, n := d.net.now, |lane.got|;
    var buf := r.net.ends[e].buf;
    if l.AtOnce? {
      ForwardShape(w, r.net, e);
      ForwardFills(w, r.net, e, p);
      var ms := buf[..|buf| - |t.net.ends[e].buf|];
      var moved := Entries(l, ms, now);
      MessagesOfEntries(l, ms, now);
      NewDeliveries(lane.got, r.out, moved, now);
      MessagesConcat(r.out, moved);
      ForPortConcat(Messages(r.out), ms, p);
      AssociativeBuf(d.net.ports[p].buf, ForPort(Messages(r.out), p), ForPort(ms, p));
    } else {
      DrainKeepsPorts(w, r.net, e);
      NewDeliveries(lane.got, r.out, [], now);
    }
  }

  lemma AssociativeBuf(a: seq<Msg>, b: seq<Msg>, c: seq<Msg>)
    ensures (a + b) + c == a + (b + c)
  {
  }

  lemma NewDeliveries(got: seq<Delivery>, out: seq<Pending>, moved: seq<Pending>, now: int)
    ensures Items((got + Stamped(out, now))[|got|..]) == out
    ensures Items((got + Stamped(out, now) + Stamped(moved, now))[|got|..]) == out + moved
  {
    hide Items, Stamped;
  }

  // ----- the order of one end over a run -----

  /** What was delivered, then what is pending, is what was taken, in that order. */
  ghost predicate InStep(lane: Lane)
  {
    lane.taken == Items(lane.got) + lane.pending
  }

  /** Some delivery was not the one whose turn it was. */
  ghost predicate Astray(lane: Lane)
  {
    exists i {:trigger lane.got[i]} :: 0 <= i < |lane.got| && i < |lane.taken| && lane.got[i].item != lane.taken[i]
  }

  lemma AstrayIsNoPrefix(lane: Lane)
    ensures InStep(lane) ==> Items(lane.got) <= lane.taken
    ensures Astray(lane) ==> !(Items(lane.got) <= lane.taken)
  {
  }

  lemma AstrayStays(lane: Lane, later: Lane)
    requires Astray(lane) && lane.got <= later.got && lane.taken <= later.taken
    ensures Astray(later)
  {
    var i :| 0 <= i < |lane.got| && i < |lane.taken| && lane.got[i].item != lane.taken[i];
    assert later.got[i] == lane.got[i];
  }

  lemma {:induction false} SweepSplits(w: Wiring, s: Net, e: nat, ps: seq<Pending>)
    requires Wired(w, s) && e < |s.ends| && Known(s, ps)
    ensures |SweepFrom(w, s, e, ps).out| <= |ps|
    decreases |ps|
  {
    hide Wired, SweepFrom, Deliverable;
    if ps == [] {
      SweepNothing(w, s, e);
    } else {
      var t := AfterHead(w, s, e, ps);
      SweepSplits(w, t, e, ps[1..]);
    }
  }

  /** Delivering keeps an end in step exactly when the sweep is orderly. */
  lemma SweepOrderIff(w: Wiring, s: Net, e: nat, lane: Lane)
    requires Wired(w, s) && e < |s.ends| && Known(s, lane.pending) && InStep(lane)
    ensures var r := SweepFrom(w, s, e, lane.pending);
      var swept := Lane(r.kept, lane.sent, lane.taken, lane.got + Stamped(r.out, s.now));
      if Orderly(s, lane.pending) then InStep(swept) else Astray(swept)
  {
    hide Wired, SweepFrom, Orderly;
    var ps := lane.pending;
    var r := SweepFrom(w, s, e, ps);
    SweepKeepsEndOrderIff(w, s, e, ps);
    SweepSplits(w, s, e, ps);
    ItemsStamped(lane.got, r.out, s.now);
    var swept := Lane(r.kept, lane.sent, lane.taken, lane.got + Stamped(r.out, s.now));
    if Orderly(s, ps) {
      Associative(Items(lane.got), r.out, r.kept);
    } else {
      var i :| 0 <= i < |r.out| && r.out[i] != ps[i];
      var n := |lane.got|;
      assert swept.got[n + i].item == r.out[i] && swept.taken[n + i] == ps[i];
    }
  }

  lemma TurnOrderIff(w: Wiring, l: Latency, d: Delayed, e: nat)
    requires Inv(w, l, d) && e < |d.lanes|
    ensures var lane, later := d.lanes[e], Turn(w, l, d, e).0.lanes[e];
      && (Astray(lane) ==> Astray(later))
      && (InStep(lane) ==> if Orderly(d.net, lane.pending) then InStep(later) else Astray(later))
  {
    hide Wired, SweepFrom, ForwardMany, Drain, LaneOk, InStep, Astray, Orderly, Entries, Stamped;
    InvSizes(w, l, d);
    InvLane(w, l, d, e);
    var lane := d.lanes[e];
    var r := SweepFrom(w, d.net, e, lane.pending);
    SweepShape(w, d.net, e, lane.pending);
    var swept := Lane(r.kept, lane.sent, lane.taken, lane.got + Stamped(r.out, d.net.now));
    var t := Turn(w, l, d, e).0;
    if InStep(lane) {
      SweepOrderIff(w, d.net, e, lane);
    }
    if Astray(lane) {
      AstrayStays(lane, swept);
    }
    var buf := r.net.ends[e].buf;
    if l.AtOnce? {
      ForwardShape(w, r.net, e);
      var moved := Entries(l, buf[..|buf| - |t.net.ends[e].buf|], d.net.now);
      NothingPending(w, l, d, e);
      TakenInStep(swept, moved, d.net.now);
    } else {
      TakenLater(swept, Entries(l, buf, d.net.now));
    }
  }

  lemma NothingPending(w: Wiring, l: Latency, d: Delayed, e: nat)
    requires Inv(w, l, d) && e < |d.lanes| && l.AtOnce?
    ensures d.lanes[e].pending == [] && SweepFrom(w, d.net, e, d.lanes[e].pending).kept == []
  {
    InvLane(w, l, d, e);
  }

  lemma TakenInStep(lane: Lane, moved: seq<Pending>, now: int)
    requires lane.pending == []
    ensures var later := Lane(lane.pending, lane.sent, lane.taken + moved, lane.got + Stamped(moved, now));
      (InStep(lane) ==> InStep(later)) && (Astray(lane) ==> Astray(later))
  {
    ItemsStamped(lane.got, moved, now);
    var later := Lane(lane.pending, lane.sent, lane.taken + moved, lane.got + Stamped(moved, now));
    if Astray(lane) {
      AstrayStays(lane, later);
    }
  }

  lemma TakenLater(lane: Lane, moved: seq<Pending>)
    ensures var later := Lane(lane.pending + moved, lane.sent, lane.taken + moved, lane.got);
      (InStep(lane) ==> InStep(later)) && (Astray(lane) ==> Astray(later))
  {
    var later := Lane(lane.pending + moved, lane.sent, lane.taken + moved, lane.got);
    Associative(Items(lane.got), lane.pending, moved);
    if Astray(lane) {
      AstrayStays(lane, later);
    }
  }

  /** From turn `i` of a tick on, the end's pending messages are orderly when their turn comes. */
  ghost predicate OrderlyTurns(w: Wiring, l: Latency, d: Delayed, i: nat, e: nat)
    requires Inv(w, l, d) && i <= |d.net.ports|
    decreases |d.net.ports| - i
  {
    i == |d.net.ports| ||
      (var f := Rotated(i, d.net.nextPort, |d.net.ports|);
       TurnKeepsInv(w, l, d, f);
       (f == e ==> Orderly(d.net, d.lanes[f].pending)) && OrderlyTurns(w, l, Turn(w, l, d, f).0, i + 1, e))
  }

  ghost predicate OrderlyRun(w: Wiring, l: Latency, d: Delayed, evs: seq<Event>, e: nat)
    requires Inv(w, l, d)
    decreases |evs|
  {
    evs == [] ||
      (StepKeepsInv(w, l, d, evs[0]);
       (evs[0].Ticking? ==> OrderlyTurns(w, l, d, 0, e)) && OrderlyRun(w, l, Step(w, l, d, evs[0]), evs[1..], e))
  }

  lemma {:induction false} TurnsOrderIff(w: Wiring, l: Latency, d: Delayed, i: nat, e: nat)
    requires Inv(w, l, d) && i <= |d.net.ports| && e < |d.lanes|
    ensures var t := TurnsFrom(w, l, d, i).0;
      && |t.lanes| == |d.lanes|
      && (Astray(d.lanes[e]) ==> Astray(t.lanes[e]))
      && (InStep(d.lanes[e]) ==> if OrderlyTurns(w, l, d, i, e) then InStep(t.lanes[e]) else Astray(t.lanes[e]))
    decreases |d.net.ports| - i
  {
    hide Inv, Turn, Rotated, InStep, Astray, Orderly;
    InvSizes(w, l, d);
    if i < |d.net.ports| {
      var f := Rotated(i, d.net.nextPort, |d.net.ports|);
      TurnKeepsInv(w, l, d, f);
      TurnProgress(w, l, d, f);
      TurnOrderIff(w, l, d, f);
      TurnsOrderIff(w, l, Turn(w, l, d, f).0, i + 1, e);
    }
  }

  lemma StepOrderIff(w: Wiring, l: Latency, d: Delayed, ev: Event, e: nat)
    requires Inv(w, l, d) && e < |d.lanes|
    ensures var t := Step(w, l, d, ev);
      && |t.lanes| == |d.lanes|
      && (Astray(d.lanes[e]) ==> Astray(t.lanes[e]))
      && (InStep(d.lanes[e]) ==>
           if ev.Ticking? ==> OrderlyTurns(w, l, d, 0, e) then InStep(t.lanes[e]) else Astray(t.lanes[e]))
  {
    hide Send, Retrieve, TurnsFrom, OrderlyTurns, Wired, LaneOk;
    InvSizes(w, l, d);
    if ev.Ticking? {
      TurnsOrderIff(w, l, d, 0, e);
    } else if ev.Sending? {
      SendShape(w, d.net, ev.m);
    }
  }

  lemma {:induction false} RunOrderIff(w: Wiring, l: Latency, d: Delayed, evs: seq<Event>, e: nat)
    requires Inv(w, l, d) && e < |d.lanes|
    ensures var t := Run(w, l, d, evs);
      && |t.lanes| == |d.lanes|
      && (Astray(d.lanes[e]) ==> Astray(t.lanes[e]))
      && (InStep(d.lanes[e]) ==> if OrderlyRun(w, l, d, evs, e) then InStep(t.lanes[e]) else Astray(t.lanes[e]))
    decreases |evs|
  {
    hide Inv, Step, InStep, Astray, OrderlyTurns;
    if evs != [] {
      StepKeepsInv(w, l, d, evs[0]);
      StepOrderIff(w, l, d, evs[0], e);
      RunOrderIff(w, l, Step(w, l, d, evs[0]), evs[1..], e);
    }
  }

  /** Over every run an end delivers its messages in the order in which it took them, if and only if
      at each of its turns no message that can be delivered stands behind one that cannot. */
  lemma EndOrderIff(w: Wiring, l: Latency, d: Delayed, evs: seq<Event>, e: nat)
    requires Wired(w, d.net) && |d.lanes| == |d.net.ends| && Fresh(d) && e < |d.lanes|
    ensures Inv(w, l, d)
    ensures var t := Run(w, l, d, evs);
      && e < |t.lanes|
      && (Items(t.lanes[e].got) <= t.lanes[e].taken <==> OrderlyRun(w, l, d, evs, e))
  {
    hide Run, OrderlyRun, Inv;
    FreshInv(w, l, d);
    assert d.lanes[e] == Lane([], [], [], []);
    assert InStep(d.lanes[e]);
    RunOrderIff(w, l, d, evs, e);
    AstrayIsNoPrefix(Run(w, l, d, evs).lanes[e]);
  }

  /** A turn that leaves something pending made progress. */
  lemma TurnProgress(w: Wiring, l: Latency, d: Delayed, e: nat)
    requires Inv(w, l, d) && e < |d.lanes|
    ensures var (t, some) := Turn(w, l, d, e);
      && |t.lanes| == |d.lanes| && (t.lanes[e].pending != [] ==> some)
      && (forall i :: 0 <= i < |d.lanes| && i != e ==> t.lanes[i] == d.lanes[i])
  {
    SweepShape(w, d.net, e, d.lanes[e].pending);
  }

  lemma {:induction false} TurnsProgress(w: Wiring, l: Latency, d: Delayed, i: nat, e: nat)
    requires Inv(w, l, d) && i <= |d.net.ports| && e < |d.lanes|
    ensures var (t, progress) := TurnsFrom(w, l, d, i);
      |t.lanes| == |d.lanes| && (t.lanes[e].pending != [] && !progress ==>
        forall j :: i <= j < |d.net.ports| ==> Rotated(j, d.net.nextPort, |d.net.ports|) != e)
    decreases |d.net.ports| - i
  {
    hide Inv, Turn, Rotated;
    InvSizes(w, l, d);
    if i < |d.net.ports| {
      var f := Rotated(i, d.net.nextPort, |d.net.ports|);
      TurnKeepsInv(w, l, d, f);
      TurnProgress(w, l, d, f);
      var d1 := Turn(w, l, d, f).0;
      TurnsProgress(w, l, d1, i + 1, e);
      if f == e {
        TurnsLeave(w, l, d1, i + 1, e);
      }
    }
  }

  /** Later turns belong to other ends. */
  lemma {:induction false} TurnsLeave(w: Wiring, l: Latency, d: Delayed, i: nat, e: nat)
    requires Inv(w, l, d) && 0 < i <= |d.net.ports| && e < |d.lanes|
    requires Rotated(i - 1, d.net.nextPort, |d.net.ports|) == e || forall j :: i <= j < |d.net.ports| ==> Rotated(j, d.net.nextPort, |d.net.ports|) != e
    ensures var t := TurnsFrom(w, l, d, i).0; |t.lanes| == |d.lanes| && t.lanes[e] == d.lanes[e]
    decreases |d.net.ports| - i
  {
    hide Inv, Turn, Rotated;
    InvSizes(w, l, d);
    forall j | i <= j < |d.net.ports|
      ensures Rotated(j, d.net.nextPort, |d.net.ports|) != e
    {
      RotationValue(i - 1, d.net.nextPort, |d.net.ports|);
      RotationValue(j, d.net.nextPort, |d.net.ports|);
    }
    if i < |d.net.ports| {
      var f := Rotated(i, d.net.nextPort, |d.net.ports|);
      TurnKeepsInv(w, l, d, f);
      TurnProgress(w, l, d, f);
      TurnsLeave(w, l, Turn(w, l, d, f).0, i + 1, e);
    }
  }

  /** While anything is pending the connection keeps ticking, so no held message is forgotten. */
  lemma HeldMessagesKeepTicking(w: Wiring, l: Latency, d: Delayed, e: nat)
    requires Inv(w, l, d) && e < |d.lanes|
    ensures var (t, progress) := Tick(w, l, d);
      |t.lanes| == |d.lanes| && (t.lanes[e].pending != [] ==> progress)
  {
    TurnsProgress(w, l, d, 0, e);
    InvSizes(w, l, d);
    var i := RotationReaches(e, d.net.nextPort, |d.net.ports|);
    assert Rotated(i, d.net.nextPort, |d.net.ports|) == e;
  }
}
