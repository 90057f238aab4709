/** The write buffer with request objects whose data and masks are changed in place. */
module WriteBuffer {
  import opened WriteCombining

  class WriteReq {
    const pid: nat
    const address: nat
    var data: seq<byte>
    var dirtyMask: Mask

    constructor (pid: nat, address: nat, data: seq<byte>, dirtyMask: Mask)
      ensures View() == Write(pid, address, data, dirtyMask)
    {
      this.pid, this.address, this.data, this.dirtyMask := pid, address, data, dirtyMask;
    }

    function View(): Write
      reads this
    {
      Write(pid, address, data, dirtyMask)
    }

    method CreateDirtyMask()
      requires dirtyMask.Whole?
      modifies this
      ensures View() == WithMask(old(View()))
    {
      var dm: seq<bool> := [];
      var i: nat := 0;
      while i < |data|
        invariant i <= |data| && |dm| == i && forall k :: 0 <= k < i ==> dm[k]
        invariant View() == old(View())
      {
        dm := dm + [true];
        i := i + 1;
      }
      dirtyMask := Dirty(dm);
      assert dm == seq(|data|, _ => true);
    }

    method ExpandWrite(size: nat)
      requires size > 0 && WellFormed(View()) && dirtyMask.Dirty? && Fits(View(), size)
      modifies this
      ensures View() == Expanded(old(View()), size)
    {
      if |data| == size {
        return;
      }
      var offset := Offset(address, size);
      data, dirtyMask := Spread(size, offset, data, 0), Dirty(Spread(size, offset, dirtyMask.bits, false));
    }

    method Merge(write: WriteReq, size: nat)
      requires size > 0 && write != this
      requires WellFormed(View()) && dirtyMask.Dirty? && |data| == size
      requires WellFormed(write.View()) && write.dirtyMask.Dirty? && Fits(write.View(), size)
      modifies this
      ensures View() == Merged(old(View()), write.View(), size)
    {
      var offset := Offset(write.address, size);
      var i: nat := 0;
      while i < |write.data|
        invariant i <= |write.data| && dirtyMask.Dirty? && |dirtyMask.bits| == |data| == size
        invariant forall k :: 0 <= k < size ==>
          data[k] == (if offset <= k < offset + i && write.dirtyMask.bits[k - offset] then write.data[k - offset] else old(data)[k])
        invariant forall k :: 0 <= k < size ==>
          dirtyMask.bits[k] == (if offset <= k < offset + i && write.dirtyMask.bits[k - offset] then true else old(dirtyMask).bits[k])
      {
        if write.dirtyMask.bits[i] {
          data := data[offset + i := write.data[i]];
          dirtyMask := Dirty(dirtyMask.bits[offset + i := true]);
        }
        i := i + 1;
      }
      ghost var m := Merged(old(View()), write.View(), size);
      forall k | 0 <= k < size
        ensures data[k] == m.data[k] && dirtyMask.bits[k] == m.mask.bits[k]
      {
        if offset <= k < offset + |write.data| {
          assert Counts(write.View(), k - offset) == write.dirtyMask.bits[k - offset];
        }
      }
      assert data == m.data;
      assert dirtyMask.bits == m.mask.bits;
    }
  }

  ghost function Views(ws: seq<WriteReq>): (r: seq<Write>)
    reads ws
    ensures |r| == |ws| && forall i :: 0 <= i < |ws| ==> r[i] == ws[i].View()
  {
    if ws == [] then [] else Views(ws[..|ws| - 1]) + [ws[|ws| - 1].View()]
  }

  class WriteBuffer {
    const capacity: nat
    const writeCombineSize: nat
    var buf: seq<WriteReq>
    ghost var sent: seq<Write>
    ghost var log: seq<Write>

    constructor (capacity: nat, size: nat)
      requires size > 0
      ensures Valid() && View() == Buffer([], [], []) && this.capacity == capacity && writeCombineSize == size
    {
      this.capacity, writeCombineSize := capacity, size;
      buf, sent, log := [], [], [];
    }

    ghost function View(): Buffer
      reads this, buf
    {
      Buffer(Views(buf), sent, log)
    }

    ghost predicate Valid()
      reads this, buf
    {
      && writeCombineSize > 0
      && (forall i, j :: 0 <= i < j < |buf| ==> buf[i] != buf[j])
      && (forall w :: w in Views(buf) ==> WellFormed(w) && Fits(w, writeCombineSize))
    }

    predicate CanEnqueue()
      reads this
    {
      |buf| < capacity
    }

    /** `combineWrite`. */
    method CombineWrite(w: WriteReq, write: WriteReq)
      requires writeCombineSize > 0 && w != write
      requires WellFormed(w.View()) && Fits(w.View(), writeCombineSize) && WellFormed(write.View()) && Fits(write.View(), writeCombineSize)
      modifies w, write
      ensures w.View() == Combined(old(w.View()), old(write.View()), writeCombineSize)
    {
      if w.dirtyMask.Whole? {
        w.CreateDirtyMask();
      }
      if write.dirtyMask.Whole? {
        write.CreateDirtyMask();
      }
      w.ExpandWrite(writeCombineSize);
      w.Merge(write, writeCombineSize);
    }

    /** The search of `Enqueue`: the first buffered write of the same process and line. */
    method FindLine(write: WriteReq) returns (i: nat)
      requires Valid()
      ensures i == Target(Views(buf), write.View(), writeCombineSize)
    {
      i := 0;
      while i < |buf|
        invariant i <= |buf| && i <= Target(Views(buf), write.View(), writeCombineSize)
      {
        assert Views(buf)[i] == buf[i].View();
        if buf[i].pid == write.pid && Line(buf[i].address, writeCombineSize) == Line(write.address, writeCombineSize) {
          return;
        }
        i := i + 1;
      }
    }

    /** Merge into the write of the same line, or append; false where the source panics because the
        buffer is full. */
    method Enqueue(write: WriteReq) returns (ok: bool)
      requires Valid() && write !in buf && WellFormed(write.View()) && Fits(write.View(), writeCombineSize)
      modifies this`buf, this`log, buf, write
      ensures ok == old(CanEnqueue())
      ensures ok ==> View() == Enqueued(old(View()), old(write.View()), writeCombineSize)
    {
      hide Views, Combined, Target, Fits, WellFormed;
      if |buf| >= capacity {
        return false;
      }
      ghost var b, x := View(), write.View();
      var i := FindLine(write);
      log := log + [x];
      if i < |buf| {
        assert buf[i].View() == b.buf[i] && b.buf[i] in b.buf;
        CombineWrite(buf[i], write);
        assert Views(buf) == b.buf[i := Combined(b.buf[i], x, writeCombineSize)];
      } else {
        buf := buf + [write];
        assert Views(buf) == b.buf + [x];
      }
      ok := true;
    }

    /** Send the first write if the port accepts it. */
    method Tick(portAccepts: bool) returns (madeProgress: bool)
      requires Valid()
      modifies this`buf, this`sent
      ensures madeProgress <==> old(buf) != [] && portAccepts
      ensures View() == if portAccepts then Sent(old(View())) else old(View())
    {
      if buf == [] {
        return false;
      }
      if !portAccepts {
        return false;
      }
      ghost var b := View();
      sent := sent + [buf[0].View()];
      buf := buf[1..];
      assert Views(buf) == b.buf[1..];
      madeProgress := true;
    }

    /** The first buffered write of the process whose data cover the address. */
    method Query(pid: nat, address: nat) returns (i: nat)
      requires Valid()
      ensures i <= |buf|
      ensures i < |buf| ==> buf[i].pid == pid && buf[i].address <= address < buf[i].address + |buf[i].data|
      ensures forall j :: 0 <= j < i ==> !(buf[j].pid == pid && buf[j].address <= address < buf[j].address + |buf[j].data|)
    {
      i := 0;
      while i < |buf|
        invariant i <= |buf|
        invariant forall j :: 0 <= j < i ==> !(buf[j].pid == pid && buf[j].address <= address < buf[j].address + |buf[j].data|)
      {
        if buf[i].pid == pid && buf[i].address <= address < buf[i].address + |buf[i].data| {
          return;
        }
        i := i + 1;
      }
    }
  }
}
