/**
 The delayed connection's loops on the source's own state: pending messages compacted in place
 behind a write cursor, over the port objects of `LinkState`.
 */
module DelayedState {
  import opened DirectLink
  import opened DelayedLink
  import opened LinkState

  /** A growable buffer: the first `len` places of an array. */
  class PendingBuffer {
    var items: array<Pending>
    var len: nat

    ghost predicate Valid()
      reads this
    {
      len <= items.Length
    }

    ghost function Contents(): seq<Pending>
      requires Valid()
      reads this, items
    {
      items[..len]
    }

    constructor ()
      ensures Valid() && Contents() == [] && fresh(items)
    {
      items, len := new Pending[0], 0;
    }

    method Append(p: Pending)
      requires Valid()
      modifies this, items
      ensures Valid() && Contents() == old(Contents()) + [p]
      ensures items == old(items) || fresh(items)
    {
      if len == items.Length {
        var bigger := new Pending[2 * len + 1](i requires 0 <= i reads this, items => if i < len && i < items.Length then items[i] else p);
        items := bigger;
      }
      items[len] := p;
      len := len + 1;
    }
  }

  class DelayedConnection {
    const base: DirectConnection
    const latency: Latency

    constructor (base: DirectConnection, latency: Latency)
      ensures this.base == base && this.latency == latency
    {
      this.base, this.latency := base, latency;
    }

    ghost predicate Valid(now: int, others: multiset<int>, pending: PendingBuffer)
      reads base, base.ports, base.comps, base.ticker, pending
    {
      base.Valid(now, others) && pending.Valid()
    }

    /** Tell a sender that was refused. */
    method NotifySender(e: nat, now: int, ghost others: multiset<int>)
      requires base.Valid(now, others) && e < |base.ends| == |base.ports|
      modifies base`ends, base.ports[e].comp
      ensures base.Valid(now, others)
      ensures base.View(now, others) == Tell(base.wiring, old(base.View(now, others)), e)
    {
      hide Wired, TickAt, DirectLink.TickLater, PortViews, TickerViews;
      ghost var s := base.View(now, others);
      TellWired(base.wiring, s, e);
      base.Sizes(now, others);
      if base.ends[e].busy {
        base.ports[e].NotifyAvailable(now);
        base.ends := base.ends[e := base.ends[e].(busy := false)];
      }
      assert PortViews(base.ports) == s.ports;
      assert TickerViews(base.comps) == Tell(base.wiring, s, e).comps;
    }

    lemma KnownPort(now: int, others: multiset<int>, m: Msg)
      requires base.Valid(now, others) && m.dst < |base.ports|
      ensures base.ports[m.dst].comp in base.comps
    {
    }

    /** Deliver one pending message if it is due and its port takes it. */
    method DeliverOne(pm: Pending, e: nat, now: int, ghost others: multiset<int>) returns (ok: bool)
      requires base.Valid(now, others) && e < |base.ends| && pm.msg.dst < |base.ports|
      modifies base`ends, base.ports, base.comps
      ensures base.Valid(now, others)
      ensures (base.View(now, others), ok) == DeliveryOf(base.wiring, old(base.View(now, others)), e, pm)
    {
      hide Wired, Recv, Tell, PortViews, TickerViews;
      if pm.due > now {
        return false;
      }
      KnownPort(now, others, pm.msg);
      RecvShape(base.wiring, base.View(now, others), pm.msg);
      ok := base.Deliver(pm.msg, now, others);
      if ok {
        base.Sizes(now, others);
        KnownEnd(now, others, e);
        NotifySender(e, now, others);
      }
    }

    /** Walk the pending messages, deliver what is due and accepted, keep the rest behind the cursor. */
    method DeliverPending(pending: PendingBuffer, e: nat, now: int, ghost others: multiset<int>) returns (madeProgress: bool, ghost out: seq<Pending>)
      requires Valid(now, others, pending) && e < |base.ends|
      requires Known(base.View(now, others), pending.Contents())
      modifies base`ends, base.ports, base.comps, pending`len, pending.items
      ensures Valid(now, others, pending) && pending.items == old(pending.items)
      ensures Sweep(base.View(now, others), pending.Contents(), out)
        == SweepFrom(base.wiring, old(base.View(now, others)), e, old(pending.Contents()))
      ensures madeProgress <==> out != [] || pending.Contents() != []
    {
      hide Wired, SweepFrom, DeliveryOf, Joined, base.Apart, PortViews, TickerViews;
      ghost var s, ps := base.View(now, others), pending.Contents();
      var w: nat, r: nat, n := 0, 0, pending.len;
      out, madeProgress := [], false;
      ghost var kept: seq<Pending> := [];
      AfterNothing(SweepFrom(base.wiring, s, e, ps));
      assert ps[0..] == ps;
      while r < n
        invariant w <= r <= n == |ps| <= pending.items.Length
        invariant base.Valid(now, others) && e < |base.ends|
        invariant pending.items[r..n] == ps[r..] && Known(base.View(now, others), ps[r..])
        invariant madeProgress <==> out != []
        invariant pending.items[..w] == kept
        invariant SweepFrom(base.wiring, s, e, ps) == Joined(kept, out, SweepFrom(base.wiring, base.View(now, others), e, ps[r..]))
      {
        var pm := pending.items[r];
        assert pending.items[r..n][0] == ps[r..][0] && ps[r..][1..] == ps[r + 1..];
        ghost var before := base.View(now, others);
        SweepOne(base.wiring, before, e, ps[r..]);
        AfterOne(kept, out, pm, SweepFrom(base.wiring, DeliveryOf(base.wiring, before, e, pm).0, e, ps[r + 1..]));
        var ok := DeliverOne(pm, e, now, others);
        if ok {
          madeProgress, out := true, out + [pm];
        } else {
          pending.items[w] := pm;
          w, kept := w + 1, kept + [pm];
        }
        r := r + 1;
      }
      assert ps[r..] == [];
      AfterAll(base.wiring, base.View(now, others), e, kept, out);
      pending.len := w;
      madeProgress := madeProgress || w > 0;
    }

    /** Take the first message of the buffer into the pending list. */
    method TakeHead(pending: PendingBuffer, e: nat, now: int, ghost others: multiset<int>)
      requires Valid(now, others, pending) && e < |base.ends| && base.ends[e].buf != []
      modifies base`ends, base.ports, base.comps, pending, pending.items
      ensures Valid(now, others, pending) && e < |base.ends|
      ensures pending.items == old(pending.items) || fresh(pending.items)
      ensures base.ends[e].buf == old(base.ends[e].buf)[1..]
      ensures pending.Contents() == old(pending.Contents())
        + [Pending(old(base.ends[e].buf)[0], now + Delay(latency, old(base.ends[e].buf)[0]), now)]
      ensures Drain(base.wiring, old(base.View(now, others)), e) == Drain(base.wiring, base.View(now, others), e)
    {
      hide Wired, Dequeue, Drain, base.Apart, PortViews, TickerViews;
      var head := base.ends[e].buf[0];
      base.Sizes(now, others);
      KnownEnd(now, others, e);
      DequeueBuf(base.wiring, base.View(now, others), e);
      pending.Append(Pending(head, now + Delay(latency, head), now));
      base.DropHead(e, now, others);
    }

    /** Take the whole buffer into the pending list. */
    method TakeAll(pending: PendingBuffer, e: nat, now: int, ghost others: multiset<int>) returns (madeProgress: bool)
      requires Valid(now, others, pending) && e < |base.ends|
      modifies base`ends, base.ports, base.comps, pending, pending.items
      ensures Valid(now, others, pending)
      ensures pending.Contents() == old(pending.Contents()) + Entries(latency, old(base.ends[e].buf), now)
      ensures base.View(now, others) == Drain(base.wiring, old(base.View(now, others)), e)
      ensures madeProgress <==> old(base.ends[e].buf) != []
    {
      hide Wired, Dequeue, Drain, Entries, base.Apart, PortViews, TickerViews;
      ghost var s, buf, first := base.View(now, others), base.ends[e].buf, pending.Contents();
      ghost var k: nat := 0;
      madeProgress := false;
      assert first + Entries(latency, buf[..0], now) == first;
      while base.ends[e].buf != []
        invariant Valid(now, others, pending) && e < |base.ends|
        invariant pending.items == old(pending.items) || fresh(pending.items)
        invariant k <= |buf| && base.ends[e].buf == buf[k..] && (madeProgress <==> k > 0)
        invariant pending.Contents() == first + Entries(latency, buf[..k], now)
        invariant Drain(base.wiring, s, e) == Drain(base.wiring, base.View(now, others), e)
        decreases |base.ends[e].buf|
      {
        EntriesNext(latency, buf, k, now);
        TakeHead(pending, e, now, others);
        k, madeProgress := k + 1, true;
      }
      assert buf[..k] == buf;
      DrainNothing(base.wiring, base.View(now, others), e);
    }

    method ForwardMany(pending: PendingBuffer, e: nat, now: int, ghost others: multiset<int>) returns (madeProgress: bool)
      requires Valid(now, others, pending) && e < |base.ends|
      modifies base`ends, base.ports, base.comps, pending, pending.items
      ensures Valid(now, others, pending)
      ensures if latency.AtOnce? then
          && pending.Contents() == old(pending.Contents())
          && (base.View(now, others), madeProgress) == DirectLink.ForwardMany(base.wiring, old(base.View(now, others)), e)
        else
          && pending.Contents() == old(pending.Contents()) + Entries(latency, old(base.ends[e].buf), now)
          && base.View(now, others) == Drain(base.wiring, old(base.View(now, others)), e)
          && (madeProgress <==> old(base.ends[e].buf) != [])
      ensures latency.After? ==>
        var kept, buf := old(pending.Contents()), old(base.ends[e].buf);
        && |pending.Contents()| == |kept| + |buf| && pending.Contents()[..|kept|] == kept
        && forall k :: 0 <= k < |buf| ==>
             pending.Contents()[|kept| + k] == Pending(buf[k], now + latency.of(buf[k].src, buf[k].dst), now)
    {
      if latency.AtOnce? {
        madeProgress := base.ForwardMany(e, now, others);
      } else {
        madeProgress := TakeAll(pending, e, now, others);
      }
    }

    /** One turn of `Tick`, on one end. */
    method TurnEnd(pending: PendingBuffer, e: nat, now: int, ghost others: multiset<int>, ghost lanes: seq<Lane>) returns (madeProgress: bool)
      requires Valid(now, others, pending) && e < |base.ends| == |lanes|
      requires lanes[e].pending == pending.Contents() && Known(base.View(now, others), pending.Contents())
      modifies base`ends, base.ports, base.comps, pending, pending.items
      ensures Valid(now, others, pending)
      ensures var (t, some) := Turn(base.wiring, latency, Delayed(old(base.View(now, others)), lanes), e);
        base.View(now, others) == t.net && madeProgress == some && e < |t.lanes| && pending.Contents() == t.lanes[e].pending
    {
      hide Wired, SweepFrom, Drain, DirectLink.ForwardMany, Entries, base.Apart, PortViews, TickerViews;
      ghost var s := base.View(now, others);
      SweepShape(base.wiring, s, e, lanes[e].pending);
      var delivered, out := DeliverPending(pending, e, now, others);
      var forwarded := ForwardMany(pending, e, now, others);
      madeProgress := delivered || forwarded;
    }

    lemma KnownEnd(now: int, others: multiset<int>, e: nat)
      requires base.Valid(now, others) && e < |base.ends|
      ensures e < |base.ports| && base.ports[e].comp in base.comps
    {
    }
  }

  lemma EntriesNext(l: Latency, buf: seq<Msg>, k: nat, now: int)
    requires k < |buf|
    ensures Entries(l, buf[..k], now) + [Pending(buf[k], now + Delay(l, buf[k]), now)] == Entries(l, buf[..k + 1], now)
  {
  }

  lemma DequeueBuf(w: Wiring, s: Net, e: nat)
    requires Wired(w, s) && e < |s.ends| && s.ends[e].buf != []
    ensures Wired(w, Dequeue(w, s, e)) && |Dequeue(w, s, e).ends| == |s.ends| && Dequeue(w, s, e).ends[e].buf == s.ends[e].buf[1..]
    ensures Drain(w, s, e) == Drain(w, Dequeue(w, s, e), e)
  {
    DequeueWired(w, s, e);
  }

  lemma DrainNothing(w: Wiring, s: Net, e: nat)
    requires Wired(w, s) && e < |s.ends| && s.ends[e].buf == []
    ensures Drain(w, s, e) == s
  {
  }

  /** A sweep's result with what an earlier part of the list kept and delivered. */
  ghost function Joined(kept: seq<Pending>, out: seq<Pending>, r: Sweep): Sweep
  {
    Sweep(r.net, kept + r.kept, out + r.out)
  }

  lemma AfterNothing(r: Sweep)
    ensures Joined([], [], r) == r
  {
  }

  lemma AfterOne(kept: seq<Pending>, out: seq<Pending>, p: Pending, r: Sweep)
    ensures Joined(kept, out, r.(kept := [p] + r.kept)) == Joined(kept + [p], out, r)
    ensures Joined(kept, out, r.(out := [p] + r.out)) == Joined(kept, out + [p], r)
  {
    Associative(kept, [p], r.kept);
    Associative(out, [p], r.out);
  }

  lemma AfterAll(w: Wiring, s: Net, e: nat, kept: seq<Pending>, out: seq<Pending>)
    requires Wired(w, s) && e < |s.ends|
    ensures Joined(kept, out, SweepFrom(w, s, e, [])) == Sweep(s, kept, out)
  {
  }
}
