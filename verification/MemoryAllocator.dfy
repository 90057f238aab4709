/**
 The allocator with the source's own state: devices that pop frames off a list in place, and the
 maps that every call rewrites. Each method is proved to be the step of `FrameAllocator`.
 */
module MemoryAllocation {
  import opened RadixTable
  import opened FrameAllocator
  import Powers

  /** The free-list memory state of one device. */
  class DeviceMemory {
    var initialAddress: nat
    var storageSize: nat
    var availablePAddrs: seq<nat>

    constructor (size: nat)
      ensures View() == Device(0, size, [])
    {
      initialAddress, storageSize, availablePAddrs := 0, size, [];
    }

    function View(): Device
      reads this
    {
      Device(initialAddress, storageSize, availablePAddrs)
    }

    method SetInitialAddress(addr: nat, pageSize: nat, ghost count: nat)
      requires pageSize > 0 && storageSize == count * pageSize
      modifies this
      ensures View() == Device(addr, old(storageSize), old(availablePAddrs) + Frames(addr, count, pageSize))
    {
      initialAddress := addr;
      var end, next := addr + storageSize, addr;
      ghost var i: nat := 0;
      while next < end
        invariant i <= count && next == addr + i * pageSize
        invariant initialAddress == addr && storageSize == old(storageSize)
        invariant availablePAddrs == old(availablePAddrs) + Frames(addr, i, pageSize)
        decreases end - next
      {
        FramesLeft(addr, count, pageSize, i);
        AddSinglePAddr(next);
        next, i := next + pageSize, i + 1;
        assert i * pageSize == (i - 1) * pageSize + pageSize;
      }
      FramesLeft(addr, count, pageSize, i);
    }

    method AddSinglePAddr(addr: nat)
      modifies this
      ensures View() == old(View()).(free := old(availablePAddrs) + [addr])
    {
      availablePAddrs := availablePAddrs + [addr];
    }

    method PopNextAvailablePAddrs() returns (pAddr: nat)
      requires availablePAddrs != []
      modifies this
      ensures pAddr == old(availablePAddrs)[0]
      ensures View() == old(View()).(free := old(availablePAddrs)[1..])
    {
      pAddr := availablePAddrs[0];
      availablePAddrs := availablePAddrs[1..];
    }

    method AllocateMultiplePages(numPages: nat) returns (pAddrs: seq<nat>)
      requires numPages <= |availablePAddrs|
      modifies this
      ensures pAddrs == old(availablePAddrs)[..numPages]
      ensures View() == old(View()).(free := old(availablePAddrs)[numPages..])
    {
      pAddrs := [];
      var i := 0;
      while i < numPages
        invariant i <= numPages && pAddrs == old(availablePAddrs)[..i]
        invariant View() == old(View()).(free := old(availablePAddrs)[i..])
      {
        var pAddr := PopNextAvailablePAddrs();
        pAddrs, i := pAddrs + [pAddr], i + 1;
      }
    }
  }

  lemma FramesLeft(addr: nat, count: nat, pageSize: nat, i: nat)
    requires pageSize > 0 && i <= count
    ensures i * pageSize < count * pageSize <==> i < count
  {
    if i < count {
      assert count * pageSize == i * pageSize + (count - i) * pageSize;
      Powers.MulAtLeast(count - i, pageSize);
    }
  }

  class MemoryAllocator {
    const pageSize: nat
    var total: nat
    var devices: map<nat, DeviceMemory>
    var cursors: map<nat, nat>
    var tables: map<nat, Table>

    constructor (pageSize: nat)
      requires pageSize > 0
      ensures Valid() && View() == Initial(pageSize) && fresh(this)
    {
      this.pageSize, total := pageSize, pageSize;
      devices, cursors, tables := map[], map[], map[];
    }

    /** Device objects are not shared. */
    ghost predicate Valid()
      reads this
    {
      && pageSize > 0
      && (forall i, j {:trigger devices[i], devices[j]} :: i in devices && j in devices && i != j ==> devices[i] != devices[j])
    }

    ghost function View(): State
      reads this, devices.Values
    {
      State(pageSize, total, map i | i in devices :: devices[i].View(), cursors, tables)
    }

    method RegisterDevice(id: nat, device: DeviceMemory, ghost count: nat)
      requires Valid() && id !in devices && device !in devices.Values
      requires device.availablePAddrs == [] && device.storageSize == count * pageSize
      modifies this, device
      ensures Valid() && View() == Register(old(View()), id, count)
      ensures devices == old(devices)[id := device]
      ensures device.initialAddress == old(total) && total == old(total) + device.storageSize == old(total) + count * pageSize
    {
      device.SetInitialAddress(total, pageSize, count);
      total := total + device.storageSize;
      devices := devices[id := device];
      assert [] + Frames(old(total), count, pageSize) == Frames(old(total), count, pageSize);
      assert View().devices == Register(old(View()), id, count).devices;
    }

    /** The device whose range holds an address; maps are scanned in no particular order. */
    method DeviceIDByPAddr(pAddr: nat) returns (r: Result<nat>)
      requires Valid()
      ensures r.Done? ==> HeldBy(View(), pAddr, r.value)
      ensures r.Failed? ==> r.fault == FrameOffDevices && forall i :: i in devices ==> !HeldBy(View(), pAddr, i)
    {
      var ids := devices.Keys;
      while ids != {}
        invariant ids <= devices.Keys
        invariant forall i :: i in devices && i !in ids ==> !HeldBy(View(), pAddr, i)
        decreases ids
      {
        var id :| id in ids;
        var d := devices[id];
        if d.initialAddress <= pAddr < d.initialAddress + d.storageSize {
          return Done(id);
        }
        ids := ids - {id};
      }
      r := Failed(FrameOffDevices);
    }

    /** `Insert` in the page table, popping the frames of new directories off the device. */
    method InsertPage(page: Page, id: nat) returns (r: Result<()>)
      requires Valid() && id in devices
      modifies this`tables, devices[id]
      ensures Valid()
      ensures match InsertOn(old(View()), page, id)
        case Failed(f) => r == Failed(f)
        case Done(s) => r.Done? && View() == s
    {
      var t := if page.pid in tables then tables[page.pid] else EMPTY;
      var device := devices[id];
      var used := Missing(t.dirs, PathOf(page.vAddr, pageSize), LEVELS);
      if used > |device.availablePAddrs| {
        return Failed(OutOfMemory);
      }
      match Insert(t, page, pageSize, device.availablePAddrs) {
        case Panic => r := Failed(PagePresent);
        case Ok(t') =>
          var dirFrames := device.AllocateMultiplePages(used);
          tables := tables[page.pid := t'];
          r := Done(());
          assert View().devices == old(View()).devices[id := old(View()).devices[id].(free := old(View()).devices[id].free[used..])];
      }
    }

    /** Frames for `numPages` pages off one device. */
    method PopFrames(id: nat, numPages: nat) returns (r: Result<seq<nat>>)
      requires Valid() && id in devices && DevicesOk(View())
      modifies devices[id]
      ensures match TakeFrames(old(View()), id, numPages)
        case Failed(f) => r == Failed(f)
        case Done((s, frames)) => r == Done(frames) && View() == s && DevicesOk(s)
    {
      var device := devices[id];
      if device.availablePAddrs == [] || |device.availablePAddrs| < numPages {
        return Failed(OutOfMemory);
      }
      var pAddrs := device.AllocateMultiplePages(numPages);
      assert View().devices == old(View()).devices[id := old(View()).devices[id].(free := old(View()).devices[id].free[numPages..])];
      SameRanges(old(View()), View());
      r := Done(pAddrs);
    }

    method PlaceOne(pid: nat, id: nat, vAddr: nat, pAddr: nat) returns (r: Result<()>)
      requires Valid() && id in devices && DevicesOk(View())
      modifies this`tables, devices[id]
      ensures Valid()
      ensures match PlacePage(old(View()), pid, id, vAddr, pAddr)
        case Failed(f) => r == Failed(f)
        case Done(s) => r.Done? && View() == s && DevicesOk(s)
    {
      hide InsertOn, DevicesOk, HeldBy;
      var found := DeviceIDByPAddr(pAddr);
      if found.Failed? {
        return Failed(found.fault);
      }
      if found.value != id {
        OnlyHolder(View(), pAddr, found.value, id);
        return Failed(WrongDevice);
      }
      ghost var s := View();
      r := InsertPage(Page(pid, pAddr, vAddr, pageSize, true, found.value, false, false, false), id);
      if r.Done? {
        InsertRanges(s, PageFor(s, pid, vAddr, pAddr, id), id);
      }
    }

    method PlaceAll(pid: nat, id: nat, firstVAddr: nat, pAddrs: seq<nat>) returns (r: Result<()>)
      requires Valid() && id in devices && DevicesOk(View())
      modifies this`tables, devices[id]
      ensures Valid()
      ensures match PlacePages(old(View()), pid, id, firstVAddr, pAddrs)
        case Failed(f) => r == Failed(f)
        case Done(s) => r.Done? && View() == s && s.cursors == old(cursors)
    {
      hide PlacePage, DevicesOk, HeldBy;
      var i: nat, vAddr: nat := 0, firstVAddr;
      while i < |pAddrs|
        invariant i <= |pAddrs|
        invariant Valid() && devices == old(devices) && DevicesOk(View())
        invariant PlacePages(old(View()), pid, id, firstVAddr, pAddrs) == PlacePages(View(), pid, id, vAddr, pAddrs[i..])
        modifies this`tables, devices[id]
      {
        assert pAddrs[i..][1..] == pAddrs[i + 1..];
        var placed := PlaceOne(pid, id, vAddr, pAddrs[i]);
        if placed.Failed? {
          return Failed(placed.fault);
        }
        i, vAddr := i + 1, vAddr + pageSize;
      }
      r := Done(());
    }

    method AllocatePages(numPages: nat, pid: nat, id: nat) returns (r: Result<nat>)
      requires Valid() && id in devices && DevicesOk(View())
      modifies this, devices[id]
      ensures match FrameAllocator.AllocatePages(old(View()), pid, id, numPages)
        case Failed(f) => r == Failed(f)
        case Done(s) => Valid() && View() == s && r == Done(Cursor(old(View()), pid))
    {
      hide PlacePages, DevicesOk, TakeFrames, HeldBy, EndAddr;
      var nextVAddr := if pid in cursors then cursors[pid] else pageSize;
      var popped := PopFrames(id, numPages);
      if popped.Failed? {
        return Failed(popped.fault);
      }
      var placed := PlaceAll(pid, id, nextVAddr, popped.value);
      if placed.Failed? {
        return Failed(placed.fault);
      }
      cursors := cursors[pid := EndAddr(nextVAddr, numPages, pageSize)];
      r := Done(nextVAddr);
    }

    method AllocateVirtualChunk(pid: nat, byteSize: nat, id: nat) returns (r: Result<nat>)
      requires Valid() && id in devices && FrameAllocator.Inv(View())
      requires Vpn(Cursor(View(), pid), pageSize) + PagesFor(byteSize, pageSize) <= Power(LEVELS)
      modifies this, devices[id]
      ensures match Step(old(View()), FrameAllocator.AllocateVirtualChunk(pid, byteSize, id))
        case Failed(f) => r == Failed(f) && f == OutOfMemory
        case Done(s) => Valid() && View() == s && FrameAllocator.Inv(s) && r == Done(Cursor(old(View()), pid))
      ensures r.Done? && byteSize > 0 ==>
        ChunkMapped(old(View()), TableOf(old(View()), pid), TableOf(View(), pid), pid, r.value, byteSize, id)
    {
      hide FrameAllocator.Inv, FrameAllocator.AllocatePages, Vpn, ChunkMapped, TableOf;
      var numPages := (if byteSize == 0 then 0xFFFF_FFFF_FFFF_FFFF else byteSize - 1) / pageSize + 1;
      ghost var s := View();
      assert DevicesOk(s) by {
        InvParts(s);
      }
      AllocateKeepsInv(s, pid, id, numPages);
      if byteSize > 0 && Step(s, FrameAllocator.AllocateVirtualChunk(pid, byteSize, id)).Done? {
        ChunkIsMapped(s, pid, byteSize, id);
      }
      r := AllocatePages(numPages, pid, id);
    }

    method UpdatePage(page: Page) returns (r: Result<()>)
      requires Valid()
      modifies this`tables
      ensures Valid()
      ensures match Update(TableOf(old(View()), page.pid), page, pageSize)
        case Panic => r == Failed(PageMissing)
        case Ok(t) => r.Done? && View() == old(View()).(tables := old(tables)[page.pid := t])
    {
      var t := if page.pid in tables then tables[page.pid] else EMPTY;
      match Update(t, page, pageSize) {
        case Panic => r := Failed(PageMissing);
        case Ok(t') =>
          tables := tables[page.pid := t'];
          r := Done(());
      }
    }

    /** `allocateMultiplePagesWithGivenVAddrs`: new frames for pages that exist already. */
    method MovePagesTo(pid: nat, id: nat, vAddrs: seq<nat>) returns (r: Result<()>)
      requires Valid() && id in devices && DevicesOk(View())
      modifies this`tables, devices[id]
      ensures match MoveTo(old(View()), pid, vAddrs, id)
        case Failed(f) => r == Failed(f)
        case Done(s) => Valid() && View() == s && r.Done?
    {
      var popped := PopFrames(id, |vAddrs|);
      if popped.Failed? {
        return Failed(popped.fault);
      }
      var pAddrs := popped.value;
      ghost var taken := View();
      var i: nat := 0;
      while i < |vAddrs|
        invariant i <= |vAddrs|
        invariant Valid() && devices == old(devices)
        invariant MovePages(taken, pid, id, vAddrs, pAddrs) == MovePages(View(), pid, id, vAddrs[i..], pAddrs[i..])
        modifies this`tables
      {
        hide Update, PathOf, TableOf;
        assert vAddrs[i..][1..] == vAddrs[i + 1..] && pAddrs[i..][1..] == pAddrs[i + 1..];
        var updated := UpdatePage(Page(pid, pAddrs[i], vAddrs[i], pageSize, true, id, false, false, false));
        if updated.Failed? {
          return Failed(updated.fault);
        }
        i := i + 1;
      }
      r := Done(());
    }

    method Remap(pid: nat, pageVAddr: nat, byteSize: nat, id: nat) returns (r: Result<()>)
      requires Valid() && id in devices && FrameAllocator.Inv(View())
      modifies this, devices[id]
      ensures match Step(old(View()), FrameAllocator.Remap(pid, pageVAddr, byteSize, id))
        case Failed(f) => r == Failed(f)
        case Done(s) => Valid() && View() == s && FrameAllocator.Inv(s) && r.Done?
      ensures r.Done? ==>
        RangeMoved(old(View()), TableOf(old(View()), pid), TableOf(View(), pid), pid, pageVAddr, byteSize, id)
    {
      hide FrameAllocator.Inv, MoveTo, RangeMoved, TableOf;
      ghost var s := View();
      var addr: nat, vAddrs: seq<nat> := pageVAddr, [];
      while addr < pageVAddr + byteSize
        invariant vAddrs + PageAddrs(addr, pageVAddr + byteSize, pageSize) == PageAddrs(pageVAddr, pageVAddr + byteSize, pageSize)
        decreases pageVAddr + byteSize - addr
      {
        vAddrs := vAddrs + [addr];
        addr := addr + pageSize;
      }
      assert vAddrs == PageAddrs(pageVAddr, pageVAddr + byteSize, pageSize);
      InvParts(s);
      StepKeepsInv(s, FrameAllocator.Remap(pid, pageVAddr, byteSize, id));
      if Step(s, FrameAllocator.Remap(pid, pageVAddr, byteSize, id)).Done? {
        RemapMovesRange(s, pid, pageVAddr, byteSize, id);
      }
      r := MovePagesTo(pid, id, vAddrs);
    }

    method RemovePage(pid: nat, vAddr: nat) returns (r: Result<()>)
      requires Valid() && FrameAllocator.Inv(View())
      modifies this, devices.Values
      ensures match Step(old(View()), FrameAllocator.RemovePage(pid, vAddr))
        case Failed(f) => r == Failed(f)
        case Done(s) => Valid() && View() == s && FrameAllocator.Inv(s) && r.Done?
    {
      hide FrameAllocator.Inv, Vpn;
      ghost var s := View();
      StepKeepsInv(s, FrameAllocator.RemovePage(pid, vAddr));
      var t := if pid in tables then tables[pid] else EMPTY;
      match RadixTable.Find(t, AlignToPage(vAddr, pageSize)) {
        case Panic => r := Failed(PageMissing);
        case Ok(page) =>
          var found := DeviceIDByPAddr(page.pAddr);
          if found.Failed? {
            return Failed(FrameOffDevices);
          }
          var id := found.value;
          forall j | HeldBy(s, page.pAddr, j)
            ensures j == id
          {
            InvParts(s);
            OneDevice(s, page.pAddr, j, id);
          }
          devices[id].AddSinglePAddr(page.pAddr);
          match RadixTable.Remove(t, page.vAddr, pageSize) {
            case Panic => r := Failed(PageMissing);
            case Ok(t') =>
              tables := tables[pid := t'];
              r := Done(());
              assert View().devices == s.devices[id := s.devices[id].(free := s.devices[id].free + [page.pAddr])];
          }
      }
    }
  }

  lemma InvParts(s: State)
    requires FrameAllocator.Inv(s)
    ensures DevicesOk(s) && s.pageSize > 0
  {
  }

  lemma OnlyHolder(s: State, f: nat, i: nat, j: nat)
    requires DevicesOk(s) && HeldBy(s, f, i) && i != j
    ensures !HeldBy(s, f, j)
  {
  }

  lemma SameRanges(s: State, t: State)
    requires DevicesOk(s) && t.total == s.total && t.devices.Keys == s.devices.Keys
    requires forall i {:trigger t.devices[i]} :: i in s.devices ==> t.devices[i].initial == s.devices[i].initial && t.devices[i].size == s.devices[i].size
    ensures DevicesOk(t)
  {
  }

  lemma InsertRanges(s: State, page: Page, id: nat)
    requires s.pageSize > 0 && id in s.devices && DevicesOk(s) && InsertOn(s, page, id).Done?
    ensures DevicesOk(InsertOn(s, page, id).value)
  {
    SameRanges(s, InsertOn(s, page, id).value);
  }
}
