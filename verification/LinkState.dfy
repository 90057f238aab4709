/**
 The connection with the source's own state: port objects, tick schedulers, and the ends that its
 loops update. Each method is proved to be the step of `DirectLink`.
 */
module LinkState {
  import opened DirectLink

  class TickScheduler {
    const clock: Clock
    var nextTickTime: int
    /** The times of the tick events this scheduler has in the engine's queue. */
    var pending: set<int>

    constructor (clock: Clock)
      ensures View() == Ticker(-1, {}) && this.clock == clock
    {
      this.clock := clock;
      nextTickTime, pending := -1, {};
    }

    function View(): Ticker
      reads this
    {
      Ticker(nextTickTime, pending)
    }

    method ScheduleTick(time: int)
      modifies this
      ensures View() == TickAt(old(View()), time)
      ensures nextTickTime == if old(nextTickTime) < time then time else old(nextTickTime)
      ensures pending == old(pending) + if old(nextTickTime) < time then {time} else {}
    {
      if nextTickTime >= time {
        return;
      }
      nextTickTime := time;
      pending := pending + {time};
    }

    method TickNow(now: int)
      modifies this
      ensures View() == TickAt(old(View()), now)
      ensures nextTickTime == if old(nextTickTime) < now then now else old(nextTickTime)
      ensures pending == old(pending) + if old(nextTickTime) < now then {now} else {}
    {
      ScheduleTick(now);
    }

    method TickLater(now: int)
      modifies this
      ensures View() == DirectLink.TickLater(old(View()), clock, now)
      ensures nextTickTime == if old(nextTickTime) < clock(now) then clock(now) else old(nextTickTime)
      ensures pending == old(pending) + if old(nextTickTime) < clock(now) then {clock(now)} else {}
    {
      ScheduleTick(clock(now));
    }
  }

  /** A port with the schedulers of its component and of its connection. */
  class LimitNumMsgPort {
    const comp: TickScheduler
    const conn: TickScheduler
    const bufCapacity: nat
    ghost const owner: nat
    var buf: seq<Msg>
    var portBusy: bool

    constructor (comp: TickScheduler, conn: TickScheduler, capacity: nat, ghost owner: nat)
      ensures View() == Port([], capacity, false, owner) && this.comp == comp && this.conn == conn
    {
      this.comp, this.conn, bufCapacity, this.owner := comp, conn, capacity, owner;
      buf, portBusy := [], false;
    }

    ghost function View(): Port
      reads this
    {
      Port(buf, bufCapacity, portBusy, owner)
    }

    method Recv(msg: Msg, now: int) returns (ok: bool)
      modifies this, comp
      ensures ok <==> old(|buf|) < bufCapacity
      ensures View() == if ok then old(View()).(buf := old(buf) + [msg]) else old(View()).(portBusy := true)
      ensures comp.View() == if ok then DirectLink.TickLater(old(comp.View()), comp.clock, now) else old(comp.View())
    {
      if |buf| >= bufCapacity {
        portBusy := true;
        return false;
      }
      buf := buf + [msg];
      comp.TickLater(now);
      ok := true;
    }

    method Retrieve(now: int) returns (msg: seq<Msg>)
      modifies this, conn
      ensures msg == if old(buf) == [] then [] else [old(buf)[0]]
      ensures View() == if old(buf) == [] then old(View()) else old(View()).(buf := old(buf)[1..], portBusy := false)
      ensures conn.View() == if old(buf) != [] && old(portBusy) then TickAt(old(conn.View()), now) else old(conn.View())
    {
      if buf == [] {
        return [];
      }
      msg := [buf[0]];
      buf := buf[1..];
      if portBusy {
        portBusy := false;
        conn.TickNow(now);
      }
    }

    method NotifyAvailable(now: int)
      modifies comp
      ensures comp.View() == DirectLink.TickLater(old(comp.View()), comp.clock, now)
    {
      comp.TickLater(now);
    }
  }

  ghost function PortViews(ps: seq<LimitNumMsgPort>): (r: seq<Port>)
    reads ps
    ensures |r| == |ps| && forall i :: 0 <= i < |ps| ==> r[i] == ps[i].View()
  {
    if ps == [] then [] else PortViews(ps[..|ps| - 1]) + [ps[|ps| - 1].View()]
  }

  ghost function TickerViews(ts: seq<TickScheduler>): (r: seq<Ticker>)
    reads ts
    ensures |r| == |ts| && forall i :: 0 <= i < |ts| ==> r[i] == ts[i].View()
  {
    if ts == [] then [] else TickerViews(ts[..|ts| - 1]) + [ts[|ts| - 1].View()]
  }

  class DirectConnection {
    const wiring: Wiring
    const ports: seq<LimitNumMsgPort>
    const ticker: TickScheduler
    ghost const comps: seq<TickScheduler>
    var ends: seq<End>
    var nextPortID: nat

    /** All ports plugged in, each with the size of its buffer on this side. */
    constructor (wiring: Wiring, ports: seq<LimitNumMsgPort>, bufSizes: seq<nat>, ticker: TickScheduler, ghost comps: seq<TickScheduler>)
      requires |bufSizes| == |ports|
      ensures this.wiring == wiring && this.ports == ports && this.ticker == ticker && this.comps == comps
      ensures nextPortID == 0 && |ends| == |ports|
      ensures forall i :: 0 <= i < |ports| ==> ends[i] == End([], bufSizes[i], false)
    {
      this.wiring, this.ports, this.ticker, this.comps := wiring, ports, ticker, comps;
      ends := seq(|bufSizes|, i requires 0 <= i < |bufSizes| => End([], bufSizes[i], false));
      nextPortID := 0;
    }

    /** The connection as a value, at an engine time and with other events in the queue. */
    ghost function View(now: int, others: multiset<int>): Net
      reads this, ports, comps, ticker
    {
      Net(now, PortViews(ports), ends, nextPortID, ticker.View(), TickerViews(comps), others)
    }

    /** Objects are not shared, each port knows its component's scheduler, and clocks agree. */
    ghost predicate Apart()
    {
      && (forall i, j :: 0 <= i < j < |ports| ==> ports[i] != ports[j])
      && (forall i, j :: 0 <= i < j < |comps| ==> comps[i] != comps[j])
      && ticker !in comps && ticker.clock == wiring.clock
      && (forall i {:trigger ports[i]} :: 0 <= i < |ports| ==>
            ports[i].conn == ticker && ports[i].owner < |comps| && ports[i].comp == comps[ports[i].owner])
      && |wiring.clocks| == |comps| && (forall c {:trigger comps[c]} :: 0 <= c < |comps| ==> comps[c].clock == wiring.clocks[c])
    }

    ghost predicate Valid(now: int, others: multiset<int>)
      reads this, ports, comps, ticker
    {
      Apart() && Wired(wiring, View(now, others))
    }

    lemma Sizes(now: int, others: multiset<int>)
      requires Valid(now, others)
      ensures |ends| == |ports| && wiring.l2Port < |ports| && nextPortID < |ports|
    {
    }

    method Send(msg: Msg, now: int, ghost others: multiset<int>) returns (answer: Answer)
      requires Valid(now, others)
      modifies this`ends, ticker
      ensures Valid(now, others)
      ensures (View(now, others), answer) == DirectLink.Send(wiring, old(View(now, others)), msg)
    {
      hide Wired, PortViews, TickerViews;
      Sizes(now, others);
      ghost var s := View(now, others);
      ActWired(wiring, s, SendMsg(msg));
      if msg.src >= |ports| || msg.dst >= |ports| || (msg.src == msg.dst && msg.src !in wiring.selfSenders) {
        return Fault;
      }
      var e := if wiring.sharesL2End && msg.viaL2 then wiring.l2Port else msg.src;
      if |ends[e].buf| >= ends[e].bufSize {
        ends := ends[e := ends[e].(busy := true)];
        answer := Refused;
      } else {
        ends := ends[e := ends[e].(buf := ends[e].buf + [msg])];
        ticker.TickNow(now);
        answer := Taken;
      }
      assert TickerViews(comps) == s.comps;
      assert PortViews(ports) == s.ports;
    }

    lemma HeadKnown(now: int, others: multiset<int>, e: nat)
      requires Valid(now, others) && e < |ends| && ends[e].buf != []
      ensures ends[e].buf[0].dst < |ports| && |ends| == |ports|
      ensures ports[ends[e].buf[0].dst].comp in comps && ports[e].comp in comps
    {
      assert ends[e].buf[0] in View(now, others).ends[e].buf;
    }

    /** Deliver to the port that the message names. */
    method Deliver(msg: Msg, now: int, ghost others: multiset<int>) returns (ok: bool)
      requires Valid(now, others) && msg.dst < |ports|
      modifies ports[msg.dst], ports[msg.dst].comp
      ensures Valid(now, others)
      ensures (View(now, others), ok) == DirectLink.Recv(wiring, old(View(now, others)), msg)
    {
      hide Wired, TickAt, DirectLink.TickLater, PortViews, TickerViews;
      Sizes(now, others);
      ghost var s := View(now, others);
      RecvWired(wiring, s, msg);
      var port := ports[msg.dst];
      ok := port.Recv(msg, now);
      ghost var t := DirectLink.Recv(wiring, s, msg).0;
      assert PortViews(ports) == t.ports;
      assert TickerViews(comps) == t.comps;
    }

    /** Drop the head of an end's buffer; a sender that was refused is told. */
    method DropHead(e: nat, now: int, ghost others: multiset<int>)
      requires Valid(now, others) && e < |ends| == |ports| && ends[e].buf != []
      modifies this`ends, ports[e].comp
      ensures Valid(now, others)
      ensures View(now, others) == Dequeue(wiring, old(View(now, others)), e)
    {
      hide Wired, TickAt, DirectLink.TickLater, PortViews, TickerViews;
      Sizes(now, others);
      ghost var s := View(now, others);
      DequeueWired(wiring, s, e);
      var busy := ends[e].busy;
      ends := ends[e := ends[e].(buf := ends[e].buf[1..], busy := false)];
      if busy {
        ports[e].NotifyAvailable(now);
      }
      ghost var t := Dequeue(wiring, s, e);
      assert PortViews(ports) == t.ports;
      assert TickerViews(comps) == t.comps;
    }

    method ForwardMany(e: nat, now: int, ghost others: multiset<int>) returns (madeProgress: bool)
      requires Valid(now, others) && e < |ends|
      modifies this`ends, ports, comps
      ensures Valid(now, others)
      ensures (View(now, others), madeProgress) == DirectLink.ForwardMany(wiring, old(View(now, others)), e)
    {
      hide Wired, Apart, PortViews, TickerViews;
      ghost var s := View(now, others);
      madeProgress := false;
      while ends[e].buf != []
        invariant Valid(now, others) && e < |ends|
        invariant DirectLink.ForwardMany(wiring, s, e)
          == (DirectLink.ForwardMany(wiring, View(now, others), e).0, madeProgress || DirectLink.ForwardMany(wiring, View(now, others), e).1)
        decreases |ends[e].buf|
      {
        var head := ends[e].buf[0];
        HeadKnown(now, others, e);
        ghost var before := View(now, others);
        var ok := Deliver(head, now, others);
        if !ok {
          break;
        }
        madeProgress := true;
        assert ends == before.ends;
        DropHead(e, now, others);
        assert |ends[e].buf| < |before.ends[e].buf|;
      }
    }

    method Tick(now: int, ghost others: multiset<int>) returns (madeProgress: bool)
      requires Valid(now, others)
      modifies this, ports, comps
      ensures Valid(now, others)
      ensures (View(now, others), madeProgress) == DirectLink.Tick(wiring, old(View(now, others)))
    {
      hide Wired, DirectLink.ForwardMany, Rotated, Apart, PortViews, TickerViews;
      Sizes(now, others);
      ghost var s := View(now, others);
      TickWired(wiring, s);
      madeProgress := false;
      var i: nat := 0;
      while i < |ports|
        invariant i <= |ports| == |s.ports| && Valid(now, others) && |ends| == |ports| && nextPortID == s.nextPort
        invariant Turns(wiring, s, 0) == (Turns(wiring, View(now, others), i).0, madeProgress || Turns(wiring, View(now, others), i).1)
      {
        var portID := Rotated(i, nextPortID, |ports|);
        ForwardWired(wiring, View(now, others), portID);
        var some := ForwardMany(portID, now, others);
        madeProgress := some || madeProgress;
        i := i + 1;
      }
      nextPortID := (nextPortID + 1) % |ports|;
    }
  }
}
