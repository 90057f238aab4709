/**
 The memory allocator over devices with free lists: virtual cursors, free frames and page tables
 changing together.
 */
module FrameAllocator {
  import opened RadixTable
  import Powers

  /** A device's memory: its range of physical addresses and its free frames, front first. */
  datatype Device = Device(initial: nat, size: nat, free: seq<nat>)

  datatype State = State(
    pageSize: nat,
    total: nat,
    devices: map<nat, Device>,
    cursors: map<nat, nat>,
    tables: map<nat, Table>)

  /** The panics of the source, told apart. */
  datatype Fault = OutOfMemory | PagePresent | WrongDevice | PageMissing | NoDevice | FrameOffDevices | OutsideModel

  datatype Result<T> = Done(value: T) | Failed(fault: Fault)

  function TableOf(s: State, pid: nat): Table
  {
    if pid in s.tables then s.tables[pid] else EMPTY
  }

  predicate OnDevice(d: Device, f: nat) { d.initial <= f < d.initial + d.size }

  /** `deviceIDByPAddr` finds some device whose range holds the frame. */
  predicate HeldBy(s: State, f: nat, id: nat)
  {
    id in s.devices && OnDevice(s.devices[id], f)
  }

  // ----- registering a device -----

  function Frames(initial: nat, count: nat, pageSize: nat): (r: seq<nat>)
    ensures |r| == count && forall i :: 0 <= i < count ==> r[i] == initial + i * pageSize
  {
    if count == 0 then [] else Frames(initial, count - 1, pageSize) + [initial + (count - 1) * pageSize]
  }

  function Register(s: State, id: nat, count: nat): State
  {
    s.(devices := s.devices[id := Device(s.total, count * s.pageSize, Frames(s.total, count, s.pageSize))],
       total := s.total + count * s.pageSize)
  }

  // ----- placing pages -----

  function PageFor(s: State, pid: nat, vAddr: nat, frame: nat, id: nat): Page
  {
    Page(pid, frame, vAddr, s.pageSize, true, id, false, false, false)
  }

  /** `Insert` in the page table; new directories take frames from the front of the device's list. */
  function InsertOn(s: State, page: Page, id: nat): Result<State>
    requires s.pageSize > 0 && id in s.devices
  {
    var t, free := TableOf(s, page.pid), s.devices[id].free;
    var used := Missing(t.dirs, PathOf(page.vAddr, s.pageSize), LEVELS);
    if used > |free| then Failed(OutOfMemory)
    else
      match Insert(t, page, s.pageSize, free)
      case Panic => Failed(PagePresent)
      case Ok(t') =>
        Done(s.(tables := s.tables[page.pid := t'], devices := s.devices[id := s.devices[id].(free := free[used..])]))
  }

  /** One turn of an allocation's loop. */
  function PlacePage(s: State, pid: nat, id: nat, vAddr: nat, frame: nat): Result<State>
    requires s.pageSize > 0 && id in s.devices
  {
    if !exists i :: i in s.devices && HeldBy(s, frame, i) then Failed(FrameOffDevices)
    else if !HeldBy(s, frame, id) then Failed(WrongDevice)
    else InsertOn(s, PageFor(s, pid, vAddr, frame, id), id)
  }

  /** The loop of an allocation: place `frames` at consecutive virtual pages from `vAddr`. */
  function PlacePages(s: State, pid: nat, id: nat, vAddr: nat, frames: seq<nat>): Result<State>
    requires s.pageSize > 0 && id in s.devices
    decreases |frames|
  {
    if frames == [] then Done(s)
    else
      match PlacePage(s, pid, id, vAddr, frames[0])
      case Failed(f) => Failed(f)
      case Done(s') => PlacePages(s', pid, id, vAddr + s.pageSize, frames[1..])
  }

  function Cursor(s: State, pid: nat): nat
  {
    if pid in s.cursors then s.cursors[pid] else s.pageSize
  }

  function TakeFrames(s: State, id: nat, n: nat): (r: Result<(State, seq<nat>)>)
    requires id in s.devices
    ensures r.Done? ==> r.value.0.pageSize == s.pageSize && id in r.value.0.devices && |r.value.1| == n
  {
    var free := s.devices[id].free;
    if free == [] || |free| < n then Failed(OutOfMemory)
    else Done((s.(devices := s.devices[id := s.devices[id].(free := free[n..])]), free[..n]))
  }

  function EndAddr(start: nat, n: nat, pageSize: nat): nat
  {
    Powers.MulNat(n, pageSize);
    start + n * pageSize
  }

  /** `allocatePages`: frames for all pages first, then one insertion per page. */
  function AllocatePages(s: State, pid: nat, id: nat, n: nat): Result<State>
    requires s.pageSize > 0 && id in s.devices
  {
    var start := Cursor(s, pid);
    match TakeFrames(s, id, n)
    case Failed(f) => Failed(f)
    case Done((s1, frames)) =>
      match PlacePages(s1, pid, id, start, frames)
      case Failed(f) => Failed(f)
      case Done(s2) => Done(s2.(cursors := s2.cursors[pid := EndAddr(start, n, s.pageSize)]))
  }

  /** The number of pages for a byte count, in 64-bit unsigned arithmetic: zero bytes wrap around. */
  function PagesFor(byteSize: nat, pageSize: nat): nat
    requires pageSize > 0
  {
    (if byteSize == 0 then 0xFFFF_FFFF_FFFF_FFFF else byteSize - 1) / pageSize + 1
  }

  // ----- remapping and removing -----

  function MovePage(s: State, pid: nat, id: nat, vAddr: nat, frame: nat): Result<State>
    requires s.pageSize > 0
  {
    match Update(TableOf(s, pid), PageFor(s, pid, vAddr, frame, id), s.pageSize)
    case Panic => Failed(PageMissing)
    case Ok(t) => Done(s.(tables := s.tables[pid := t]))
  }

  function MovePages(s: State, pid: nat, id: nat, vAddrs: seq<nat>, frames: seq<nat>): Result<State>
    requires s.pageSize > 0 && |frames| == |vAddrs|
    decreases |vAddrs|
  {
    if vAddrs == [] then Done(s)
    else
      match MovePage(s, pid, id, vAddrs[0], frames[0])
      case Failed(f) => Failed(f)
      case Done(s') => MovePages(s', pid, id, vAddrs[1..], frames[1..])
  }

  function PageAddrs(vAddr: nat, end: nat, pageSize: nat): seq<nat>
    requires pageSize > 0
    decreases end - vAddr
  {
    if vAddr >= end then [] else [vAddr] + PageAddrs(vAddr + pageSize, end, pageSize)
  }

  /** New frames on a device for existing virtual pages; the old frames are not returned. */
  function MoveTo(s: State, pid: nat, vAddrs: seq<nat>, id: nat): Result<State>
    requires s.pageSize > 0 && id in s.devices
  {
    match TakeFrames(s, id, |vAddrs|)
    case Failed(f) => Failed(f)
    case Done((s1, frames)) => MovePages(s1, pid, id, vAddrs, frames)
  }

  /** `RemovePage`, the frame going back to device `id`. */
  function RemoveTo(s: State, pid: nat, vAddr: nat, id: nat): Result<State>
    requires s.pageSize > 0 && id in s.devices
  {
    var t := TableOf(s, pid);
    match RadixTable.Find(t, AlignToPage(vAddr, s.pageSize))
    case Panic => Failed(PageMissing)
    case Ok(page) =>
      match RadixTable.Remove(t, page.vAddr, s.pageSize)
      case Panic => Failed(PageMissing)
      case Ok(t') =>
        var d := s.devices[id];
        Done(s.(tables := s.tables[pid := t'], devices := s.devices[id := d.(free := d.free + [page.pAddr])]))
  }

  // ----- frame ownership -----

  /** A place that uses a frame: a directory or a page of a process, by its path. */
  datatype Slot = Slot(pid: nat, path: Path)

  predicate InUse(s: State, x: Slot)
  {
    x.pid in s.tables && (x.path in s.tables[x.pid].dirs || x.path in s.tables[x.pid].pages)
  }

  function FrameAt(s: State, x: Slot): nat
    requires InUse(s, x)
  {
    var t := s.tables[x.pid];
    if x.path in t.dirs then t.dirs[x.path] else t.pages[x.path].pAddr
  }

  ghost predicate DevicesOk(s: State)
  {
    && (forall i {:trigger s.devices[i]} :: i in s.devices ==> s.devices[i].initial + s.devices[i].size <= s.total)
    && (forall i, j {:trigger s.devices[i], s.devices[j]} :: i in s.devices && j in s.devices && i != j ==>
         s.devices[i].initial + s.devices[i].size <= s.devices[j].initial || s.devices[j].initial + s.devices[j].size <= s.devices[i].initial)
  }

  ghost predicate ListOk(d: Device)
  {
    && (forall i, j :: 0 <= i < j < |d.free| ==> d.free[i] != d.free[j])
    && (forall f :: f in d.free ==> OnDevice(d, f))
  }

  ghost predicate FreeOk(s: State)
  {
    forall i {:trigger s.devices[i]} :: i in s.devices ==> ListOk(s.devices[i])
  }

  /** The frame is on no free list. */
  ghost predicate NotFree(s: State, f: nat)
  {
    forall i {:trigger s.devices[i]} :: i in s.devices ==> f !in s.devices[i].free
  }

  /** Every frame in use lies on a device, is not free and not in hand. */
  ghost predicate UsedOk(s: State, hand: set<nat>)
  {
    forall x {:trigger FrameAt(s, x)} :: InUse(s, x) ==>
      NotFree(s, FrameAt(s, x)) && FrameAt(s, x) !in hand && exists i :: HeldBy(s, FrameAt(s, x), i)
  }

  /** No frame is used twice. */
  ghost predicate UsedOnce(s: State)
  {
    forall x, y {:trigger FrameAt(s, x), FrameAt(s, y)} :: InUse(s, x) && InUse(s, y) && FrameAt(s, x) == FrameAt(s, y) ==> x == y
  }

  ghost predicate TablesOk(s: State)
  {
    && s.pageSize > 0
    && (forall pid {:trigger s.tables[pid]} :: pid in s.tables ==> Valid(s.tables[pid], s.pageSize))
  }

  /** Cursors are page aligned and above every mapped address of their process. */
  ghost predicate CursorsOk(s: State)
    requires s.pageSize > 0
  {
    && (forall pid {:trigger s.cursors[pid]} :: pid in s.cursors ==> AlignToPage(s.cursors[pid], s.pageSize) == s.cursors[pid])
    && (forall pid, v {:trigger v in s.tables[pid].entries} :: pid in s.tables && v in s.tables[pid].entries ==>
         pid in s.cursors && v < s.cursors[pid])
  }

  /** Frame ownership, with the frames in hand between two steps of an operation. */
  ghost predicate Owned(s: State, hand: set<nat>)
  {
    && DevicesOk(s) && FreeOk(s) && TablesOk(s) && UsedOk(s, hand) && UsedOnce(s)
    && (forall f {:trigger f in hand} :: f in hand ==> NotFree(s, f))
  }

  // ----- the elementary steps -----

  lemma FrameBounds(initial: nat, count: nat, pageSize: nat, i: nat)
    requires i < count && pageSize > 0
    ensures initial <= initial + i * pageSize && initial + i * pageSize + pageSize <= initial + count * pageSize
  {
    assert count * pageSize == i * pageSize + (count - i) * pageSize;
    Powers.MulAtLeast(count - i, pageSize);
    Powers.MulNat(i, pageSize);
  }

  lemma FramesDistinct(initial: nat, count: nat, pageSize: nat)
    requires pageSize > 0
    ensures var d := Device(initial, count * pageSize, Frames(initial, count, pageSize)); ListOk(d)
  {
    var fs := Frames(initial, count, pageSize);
    forall i, j | 0 <= i < j < |fs|
      ensures fs[i] != fs[j]
    {
      assert j * pageSize == i * pageSize + (j - i) * pageSize;
      Powers.MulAtLeast(j - i, pageSize);
    }
    forall f | f in fs
      ensures OnDevice(Device(initial, count * pageSize, fs), f)
    {
      var i :| 0 <= i < |fs| && fs[i] == f;
      FrameBounds(initial, count, pageSize, i);
    }
  }

  lemma OffDevice(d: Device, f: nat)
    requires ListOk(d) && !OnDevice(d, f)
    ensures f !in d.free
  {
  }

  /** Registering a new device keeps ownership: its range starts where the last one ended. */
  lemma RegisterOwned(s: State, id: nat, count: nat)
    requires Owned(s, {}) && id !in s.devices
    ensures Owned(Register(s, id, count), {})
  {
    var t := Register(s, id, count);
    Powers.MulNat(count, s.pageSize);
    FramesDistinct(s.total, count, s.pageSize);
    forall i | i in t.devices
      ensures ListOk(t.devices[i])
      ensures t.devices[i].initial + t.devices[i].size <= t.total
    {
      assert i != id ==> t.devices[i] == s.devices[i];
    }
    forall x | InUse(t, x)
      ensures InUse(s, x) && FrameAt(t, x) == FrameAt(s, x)
      ensures NotFree(t, FrameAt(t, x)) && exists i :: HeldBy(t, FrameAt(t, x), i)
    {
      var f := FrameAt(s, x);
      var i :| HeldBy(s, f, i);
      assert s.devices[i].initial + s.devices[i].size <= s.total;
      assert HeldBy(t, f, i);
      OffDevice(t.devices[id], f);
    }
  }

  /** Popping frames off a free list puts them in hand. */
  lemma TakeOwned(s: State, id: nat, n: nat)
    requires Owned(s, {}) && id in s.devices && TakeFrames(s, id, n).Done?
    ensures var (t, frames) := TakeFrames(s, id, n).value;
      && Owned(t, set f | f in frames)
      && (forall f :: f in frames ==> OnDevice(t.devices[id], f))
      && (forall i, j :: 0 <= i < j < |frames| ==> frames[i] != frames[j])
      && t.tables == s.tables && t.cursors == s.cursors && t.pageSize == s.pageSize
  {
    var (t, frames) := TakeFrames(s, id, n).value;
    var free := s.devices[id].free;
    assert ListOk(s.devices[id]);
    forall f | f in frames
      ensures f in free && f !in t.devices[id].free
    {
      var i :| 0 <= i < n && free[i] == f;
      assert forall j :: n <= j < |free| ==> free[j] != f;
    }
    assert forall f :: f in free[n..] ==> f in free;
    assert ListOk(t.devices[id]);
    ShrinkOwned(s, t, id, set f | f in frames);
  }

  /** Frames that leave a free list for the hand leave everything else as it was. */
  lemma ShrinkOwned(s: State, t: State, id: nat, hand: set<nat>)
    requires Owned(s, {}) && id in s.devices
    requires id in t.devices && t == s.(devices := s.devices[id := t.devices[id]])
    requires t.devices[id] == s.devices[id].(free := t.devices[id].free)
    requires ListOk(t.devices[id])
    requires forall f :: f in t.devices[id].free ==> f in s.devices[id].free
    requires forall f :: f in hand ==> f in s.devices[id].free && f !in t.devices[id].free
    ensures Owned(t, hand)
  {
    forall i | i in t.devices
      ensures ListOk(t.devices[i])
    {
      assert i != id ==> t.devices[i] == s.devices[i];
    }
    forall f | f in hand
      ensures NotFree(t, f)
    {
      forall i | i in t.devices
        ensures f !in t.devices[i].free
      {
        if i != id {
          assert ListOk(s.devices[id]) && OnDevice(s.devices[id], f);
          OffDevice(s.devices[i], f);
        }
      }
    }
    forall x | InUse(t, x)
      ensures InUse(s, x) && FrameAt(t, x) == FrameAt(s, x)
      ensures NotFree(t, FrameAt(t, x)) && FrameAt(t, x) !in hand && exists i :: HeldBy(t, FrameAt(t, x), i)
    {
      var f := FrameAt(s, x);
      assert NotFree(s, f) && f !in s.devices[id].free;
      var i :| HeldBy(s, f, i);
      assert HeldBy(t, f, i);
    }
  }

  // ----- placing a page -----

  /** Where the frame of a slot comes from after a page has been placed: it was there, or it is the
      page's own, or it was popped for a new directory. */
  ghost predicate Origin(s: State, pid: nat, id: nat, path: Path, frame: nat, x: Slot, f: nat)
    requires id in s.devices
  {
    || (InUse(s, x) && f == FrameAt(s, x))
    || (x == Slot(pid, path) && f == frame)
    || (!InUse(s, x) && x.pid == pid && |x.path| < |path| && FromSupply(TableOf(s, pid).dirs, path, s.devices[id].free, x.path, f))
  }

  ghost predicate Placeable(s: State, pid: nat, id: nat, vAddr: nat, frame: nat, hand: set<nat>)
  {
    && Owned(s, hand) && id in s.devices && frame in hand && OnDevice(s.devices[id], frame)
    && Addressable(vAddr, s.pageSize) && vAddr !in TableOf(s, pid).entries
  }

  lemma EmptyTableValid(pageSize: nat)
    requires pageSize > 0
    ensures Valid(EMPTY, pageSize)
  {
  }

  /** With the frame in hand and the address new, placing fails only for want of memory. */
  lemma PlaceFaults(s: State, pid: nat, id: nat, vAddr: nat, frame: nat, hand: set<nat>)
    requires Placeable(s, pid, id, vAddr, frame, hand)
    ensures var r := PlacePage(s, pid, id, vAddr, frame);
      var t, path := TableOf(s, pid), PathOf(vAddr, s.pageSize);
      var used := Missing(t.dirs, path, LEVELS);
      && path !in t.pages && Valid(t, s.pageSize)
      && (if used > |s.devices[id].free| then r == Failed(OutOfMemory)
          else
            var t' := Table(Grow(t.dirs, path, LEVELS, s.devices[id].free),
                            t.pages[path := PageFor(s, pid, vAddr, frame, id)],
                            t.entries[vAddr := PageFor(s, pid, vAddr, frame, id)]);
            Valid(t', s.pageSize)
            && r == Done(s.(tables := s.tables[pid := t'],
                            devices := s.devices[id := s.devices[id].(free := s.devices[id].free[used..])])))
  {
    var t, path := TableOf(s, pid), PathOf(vAddr, s.pageSize);
    EmptyTableValid(s.pageSize);
    assert HeldBy(s, frame, id);
    if path in t.pages {
      PathInjective(t.pages[path].vAddr, vAddr, s.pageSize);
    }
    if Missing(t.dirs, path, LEVELS) <= |s.devices[id].free| {
      InsertValid(t, PageFor(s, pid, vAddr, frame, id), s.pageSize, s.devices[id].free);
    }
  }

  lemma SlotOrigin(s: State, pid: nat, id: nat, vAddr: nat, frame: nat, hand: set<nat>, x: Slot)
    requires Placeable(s, pid, id, vAddr, frame, hand) && PlacePage(s, pid, id, vAddr, frame).Done?
    requires InUse(PlacePage(s, pid, id, vAddr, frame).value, x)
    ensures Origin(s, pid, id, PathOf(vAddr, s.pageSize), frame, x, FrameAt(PlacePage(s, pid, id, vAddr, frame).value, x))
  {
    PlaceFaults(s, pid, id, vAddr, frame, hand);
    var u := PlacePage(s, pid, id, vAddr, frame).value;
    var t, path := TableOf(s, pid), PathOf(vAddr, s.pageSize);
    if x.pid == pid {
      LevelsApart(u.tables[pid], s.pageSize, x.path);
      LevelsApart(t, s.pageSize, x.path);
      if x.path in u.tables[pid].dirs {
        GrownFrom(t.dirs, path, s.devices[id].free, x.path);
      }
    }
  }

  lemma LevelsApart(t: Table, pageSize: nat, p: Path)
    requires pageSize > 0 && Valid(t, pageSize)
    ensures p in t.dirs ==> |p| < LEVELS && p !in t.pages
    ensures p in t.pages ==> |p| == LEVELS && p !in t.dirs
  {
  }

  /** A frame popped for a directory was free, on the device, and is gone from its list. */
  lemma PoppedFrame(d: Device, dirs: map<Path, nat>, path: Path, k: nat, p: Path, f: nat)
    requires ListOk(d) && |p| < k <= |path| && Missing(dirs, path, k) <= |d.free|
    requires FromSupply(dirs, path, d.free, p, f)
    ensures f in d.free && OnDevice(d, f) && f !in d.free[Missing(dirs, path, k)..]
  {
    MissingStrict(dirs, path, |p|, k);
    var m, n := Missing(dirs, path, |p|), Missing(dirs, path, k);
    assert d.free[m] == f;
    forall j | n <= j < |d.free|
      ensures d.free[j] != f
    {
      assert d.free[m] != d.free[j];
    }
  }

  lemma TwoPopped(d: Device, dirs: map<Path, nat>, path: Path, p: Path, q: Path, f: nat)
    requires ListOk(d) && FromSupply(dirs, path, d.free, p, f) && FromSupply(dirs, path, d.free, q, f)
    ensures p == q
  {
    if |p| < |q| {
      MissingStrict(dirs, path, |p|, |q|);
    } else if |q| < |p| {
      MissingStrict(dirs, path, |q|, |p|);
    }
  }

  /** What an origin says about the frame: on a device, on no free list any more, not in hand. */
  lemma OriginUsed(s: State, pid: nat, id: nat, vAddr: nat, frame: nat, hand: set<nat>, x: Slot, f: nat)
    requires Placeable(s, pid, id, vAddr, frame, hand) && PlacePage(s, pid, id, vAddr, frame).Done?
    requires Origin(s, pid, id, PathOf(vAddr, s.pageSize), frame, x, f)
    ensures var u := PlacePage(s, pid, id, vAddr, frame).value;
      NotFree(u, f) && f !in hand - {frame} && exists i :: HeldBy(u, f, i)
  {
    PlaceFaults(s, pid, id, vAddr, frame, hand);
    var u := PlacePage(s, pid, id, vAddr, frame).value;
    var path := PathOf(vAddr, s.pageSize);
    if InUse(s, x) && f == FrameAt(s, x) {
      var i :| HeldBy(s, f, i);
      assert HeldBy(u, f, i);
      assert NotFree(s, f);
      StillNotFree(s, u, id, f);
    } else if x == Slot(pid, path) && f == frame {
      assert HeldBy(u, f, id);
      StillNotFree(s, u, id, f);
    } else {
      assert ListOk(s.devices[id]);
      PoppedFrame(s.devices[id], TableOf(s, pid).dirs, path, LEVELS, x.path, f);
      assert HeldBy(u, f, id);
      assert f in hand ==> NotFree(s, f);
      forall i | i in u.devices
        ensures f !in u.devices[i].free
      {
        if i != id {
          assert OnDevice(s.devices[id], f);
          OffDevice(s.devices[i], f);
        }
      }
    }
  }

  lemma StillNotFree(s: State, u: State, id: nat, f: nat)
    requires NotFree(s, f) && id in s.devices && id in u.devices && u.devices == s.devices[id := u.devices[id]]
    requires forall g :: g in u.devices[id].free ==> g in s.devices[id].free
    ensures NotFree(u, f)
  {
    assert f !in s.devices[id].free;
  }

  lemma OriginOnce(s: State, pid: nat, id: nat, vAddr: nat, frame: nat, hand: set<nat>, x: Slot, y: Slot, f: nat)
    requires Placeable(s, pid, id, vAddr, frame, hand)
    requires Origin(s, pid, id, PathOf(vAddr, s.pageSize), frame, x, f) && Origin(s, pid, id, PathOf(vAddr, s.pageSize), frame, y, f)
    ensures x == y
  {
    var path := PathOf(vAddr, s.pageSize);
    var d := s.devices[id];
    assert ListOk(d);
    assert NotFree(s, frame);
    assert frame !in d.free;
    if InUse(s, x) && f == FrameAt(s, x) {
      assert NotFree(s, f) && f !in d.free && f !in hand;
      assert InUse(s, y) && f == FrameAt(s, y);
    } else if x == Slot(pid, path) && f == frame {
      assert InUse(s, y) && f == FrameAt(s, y) ==> f !in hand;
    } else {
      assert f in d.free;
      assert InUse(s, y) && f == FrameAt(s, y) ==> NotFree(s, f);
      TwoPopped(d, TableOf(s, pid).dirs, path, x.path, y.path, f);
    }
  }

  lemma UsedOkIntro(s: State, pid: nat, id: nat, vAddr: nat, frame: nat, hand: set<nat>)
    requires Placeable(s, pid, id, vAddr, frame, hand) && PlacePage(s, pid, id, vAddr, frame).Done?
    ensures UsedOk(PlacePage(s, pid, id, vAddr, frame).value, hand - {frame})
  {
    hide Origin, PlacePage, Owned;
    var u := PlacePage(s, pid, id, vAddr, frame).value;
    forall x | InUse(u, x)
      ensures NotFree(u, FrameAt(u, x)) && FrameAt(u, x) !in hand - {frame} && exists i :: HeldBy(u, FrameAt(u, x), i)
    {
      SlotOrigin(s, pid, id, vAddr, frame, hand, x);
      OriginUsed(s, pid, id, vAddr, frame, hand, x, FrameAt(u, x));
    }
  }

  lemma UsedOnceIntro(s: State, pid: nat, id: nat, vAddr: nat, frame: nat, hand: set<nat>)
    requires Placeable(s, pid, id, vAddr, frame, hand) && PlacePage(s, pid, id, vAddr, frame).Done?
    ensures UsedOnce(PlacePage(s, pid, id, vAddr, frame).value)
  {
    hide Origin, PlacePage, Owned;
    var u := PlacePage(s, pid, id, vAddr, frame).value;
    forall x, y | InUse(u, x) && InUse(u, y) && FrameAt(u, x) == FrameAt(u, y)
      ensures x == y
    {
      SlotOrigin(s, pid, id, vAddr, frame, hand, x);
      SlotOrigin(s, pid, id, vAddr, frame, hand, y);
      OriginOnce(s, pid, id, vAddr, frame, hand, x, y, FrameAt(u, x));
    }
  }

  /** Placing a page moves its frame from the hand into use and keeps ownership. */
  lemma PlaceOwned(s: State, pid: nat, id: nat, vAddr: nat, frame: nat, hand: set<nat>)
    requires Placeable(s, pid, id, vAddr, frame, hand) && PlacePage(s, pid, id, vAddr, frame).Done?
    ensures Owned(PlacePage(s, pid, id, vAddr, frame).value, hand - {frame})
  {
    hide Origin, FromSupply, UsedOk, UsedOnce, DevicesOk, FreeOk, TablesOk, Valid;
    var u := PlacePage(s, pid, id, vAddr, frame).value;
    PlaceFaults(s, pid, id, vAddr, frame, hand);
    assert UsedOk(u, hand - {frame}) by {
      UsedOkIntro(s, pid, id, vAddr, frame, hand);
    }
    assert UsedOnce(u) by {
      UsedOnceIntro(s, pid, id, vAddr, frame, hand);
    }
    PlaceRest(s, u, id, pid, Missing(TableOf(s, pid).dirs, PathOf(vAddr, s.pageSize), LEVELS), hand, frame);
  }

  lemma PlaceRest(s: State, u: State, id: nat, pid: nat, k: nat, hand: set<nat>, frame: nat)
    requires Owned(s, hand) && id in s.devices && k <= |s.devices[id].free|
    requires u.devices == s.devices[id := s.devices[id].(free := s.devices[id].free[k..])]
    requires u.total == s.total && u.pageSize == s.pageSize
    requires pid in u.tables && u.tables == s.tables[pid := u.tables[pid]] && Valid(u.tables[pid], u.pageSize)
    ensures DevicesOk(u) && FreeOk(u) && TablesOk(u)
    ensures forall f {:trigger f in hand} :: f in hand - {frame} ==> NotFree(u, f)
  {
    hide Valid;
    assert ListOk(s.devices[id]);
    assert forall f :: f in s.devices[id].free[k..] ==> f in s.devices[id].free;
    assert FreeOk(u) by {
      forall i | i in u.devices
        ensures ListOk(u.devices[i])
      {
        assert i != id ==> u.devices[i] == s.devices[i];
      }
    }
    assert DevicesOk(u) by {
      forall i | i in u.devices
        ensures u.devices[i].initial == s.devices[i].initial && u.devices[i].size == s.devices[i].size
      {
      }
    }
    forall f | f in hand - {frame}
      ensures NotFree(u, f)
    {
      StillNotFree(s, u, id, f);
    }
  }

  // ----- whole operations -----

  /** The frames of one operation not yet placed, as a set. */
  function Hand(frames: seq<nat>): set<nat> { set f | f in frames }

  ghost predicate Distinct(frames: seq<nat>)
  {
    forall i, j :: 0 <= i < j < |frames| ==> frames[i] != frames[j]
  }

  /** `n` new addresses from `vAddr` on fit below the address-space limit and are not mapped. */
  ghost predicate Vacant(s: State, pid: nat, vAddr: nat, n: nat)
    requires s.pageSize > 0
  {
    && AlignToPage(vAddr, s.pageSize) == vAddr && Vpn(vAddr, s.pageSize) + n <= Power(LEVELS)
    && forall v {:trigger v in TableOf(s, pid).entries} :: v in TableOf(s, pid).entries ==> v < vAddr
  }

  lemma NextPage(vAddr: nat, pageSize: nat)
    requires pageSize > 0 && AlignToPage(vAddr, pageSize) == vAddr
    ensures Vpn(vAddr + pageSize, pageSize) == Vpn(vAddr, pageSize) + 1
    ensures AlignToPage(vAddr + pageSize, pageSize) == vAddr + pageSize
  {
    var q := Vpn(vAddr, pageSize);
    assert (q + 1) * pageSize == vAddr + pageSize;
    Powers.DivModUnique(vAddr + pageSize, pageSize, q + 1, 0);
  }

  lemma NthPage(vAddr: nat, pageSize: nat, n: nat)
    requires pageSize > 0 && AlignToPage(vAddr, pageSize) == vAddr
    ensures n * pageSize >= 0
    ensures Vpn(vAddr + n * pageSize, pageSize) == Vpn(vAddr, pageSize) + n
    ensures AlignToPage(vAddr + n * pageSize, pageSize) == vAddr + n * pageSize
  {
    var q := Vpn(vAddr, pageSize);
    Powers.MulNat(n, pageSize);
    assert (q + n) * pageSize == vAddr + n * pageSize;
    Powers.DivModUnique(vAddr + n * pageSize, pageSize, q + n, 0);
  }

  /** The address `i` pages on. */
  function PageAt(vAddr: nat, i: nat, pageSize: nat): (r: nat)
    ensures r == vAddr + i * pageSize && r >= vAddr && (i > 0 ==> r >= vAddr + pageSize)
    decreases i
  {
    if i == 0 then vAddr else PageAt(vAddr + pageSize, i - 1, pageSize)
  }

  ghost predicate Mapped(s: State, pid: nat, vAddr: nat, frame: nat, id: nat)
  {
    vAddr in TableOf(s, pid).entries && TableOf(s, pid).entries[vAddr] == PageFor(s, pid, vAddr, frame, id)
  }

  /** What placing `frames` from `vAddr` on does to the tables, and that it touches nothing else. */
  ghost predicate Placed(s: State, u: State, pid: nat, id: nat, vAddr: nat, frames: seq<nat>)
  {
    && u.cursors == s.cursors && u.pageSize == s.pageSize && u.devices.Keys == s.devices.Keys
    && (forall p {:trigger p in u.tables} :: p != pid ==> (p in u.tables <==> p in s.tables) && (p in s.tables ==> u.tables[p] == s.tables[p]))
    && (forall v {:trigger v in TableOf(u, pid).entries} :: v in TableOf(u, pid).entries ==>
         v in TableOf(s, pid).entries || vAddr <= v < PageAt(vAddr, |frames|, s.pageSize))
    && (forall v {:trigger v in TableOf(s, pid).entries} :: v in TableOf(s, pid).entries ==>
         v in TableOf(u, pid).entries && TableOf(u, pid).entries[v] == TableOf(s, pid).entries[v])
    && (forall i {:trigger frames[i]} :: 0 <= i < |frames| ==> Mapped(u, pid, PageAt(vAddr, i, s.pageSize), frames[i], id))
  }

  /** Placing a run of frames in hand at vacant addresses fails only for want of memory, and leaves
      every frame owned, every address of the run mapped and nothing else new. */
  lemma {:induction false} PlacePagesOwned(s: State, pid: nat, id: nat, vAddr: nat, frames: seq<nat>)
    requires Owned(s, Hand(frames)) && Distinct(frames) && id in s.devices
    requires forall f :: f in frames ==> OnDevice(s.devices[id], f)
    requires Vacant(s, pid, vAddr, |frames|)
    ensures var r := PlacePages(s, pid, id, vAddr, frames);
      && (r.Failed? ==> r.fault == OutOfMemory)
      && (r.Done? ==> Owned(r.value, {}) && Placed(s, r.value, pid, id, vAddr, frames))
    decreases |frames|
  {
    hide Owned, Placed, PlacePage, Vacant, TableOf;
    if frames == [] {
      assert Hand(frames) == {};
      PlacedNone(s, pid, id, vAddr);
    } else {
      var frame, rest := frames[0], frames[1..];
      FirstOfRun(s, pid, id, vAddr, frames);
      var r := PlacePage(s, pid, id, vAddr, frame);
      if r.Done? {
        HandRest(frames);
        PlacePagesOwned(r.value, pid, id, vAddr + s.pageSize, rest);
        if PlacePages(s, pid, id, vAddr, frames).Done? {
          PlacedRun(s, r.value, PlacePages(s, pid, id, vAddr, frames).value, pid, id, vAddr, frames);
        }
      }
    }
  }

  lemma PlacedNone(s: State, pid: nat, id: nat, vAddr: nat)
    ensures Placed(s, s, pid, id, vAddr, [])
  {
  }

  lemma FirstOfRun(s: State, pid: nat, id: nat, vAddr: nat, frames: seq<nat>)
    requires frames != [] && Owned(s, Hand(frames)) && Distinct(frames) && id in s.devices
    requires forall f :: f in frames ==> OnDevice(s.devices[id], f)
    requires Vacant(s, pid, vAddr, |frames|)
    ensures s.pageSize > 0
    ensures var r := PlacePage(s, pid, id, vAddr, frames[0]);
      && vAddr !in TableOf(s, pid).entries
      && (r.Failed? ==> r.fault == OutOfMemory)
      && (r.Done? ==>
           && Owned(r.value, Hand(frames) - {frames[0]}) && r.value.pageSize == s.pageSize && id in r.value.devices
           && r.value.devices[id].initial == s.devices[id].initial && r.value.devices[id].size == s.devices[id].size
           && Vacant(r.value, pid, vAddr + s.pageSize, |frames| - 1))
  {
    hide UsedOk, UsedOnce, DevicesOk, FreeOk, Valid, Grow, Missing;
    assert Addressable(vAddr, s.pageSize);
    PlaceFaults(s, pid, id, vAddr, frames[0], Hand(frames));
    if PlacePage(s, pid, id, vAddr, frames[0]).Done? {
      PlaceOwned(s, pid, id, vAddr, frames[0], Hand(frames));
      NextPage(vAddr, s.pageSize);
    }
  }

  lemma PlacedRun(s: State, m: State, u: State, pid: nat, id: nat, vAddr: nat, frames: seq<nat>)
    requires frames != [] && s.pageSize > 0 && id in s.devices && vAddr !in TableOf(s, pid).entries
    requires PlacePage(s, pid, id, vAddr, frames[0]) == Done(m)
    requires Placed(m, u, pid, id, vAddr + s.pageSize, frames[1..])
    ensures Placed(s, u, pid, id, vAddr, frames)
  {
    assert TableOf(m, pid).entries == TableOf(s, pid).entries[vAddr := PageFor(s, pid, vAddr, frames[0], id)];
    assert vAddr in TableOf(m, pid).entries;
    forall v | v in TableOf(s, pid).entries
      ensures v in TableOf(u, pid).entries && TableOf(u, pid).entries[v] == TableOf(s, pid).entries[v]
    {
      assert v in TableOf(m, pid).entries;
    }
    forall v | v in TableOf(u, pid).entries
      ensures v in TableOf(s, pid).entries || vAddr <= v < PageAt(vAddr, |frames|, s.pageSize)
    {
      assert v in TableOf(m, pid).entries ==> v == vAddr || v in TableOf(s, pid).entries;
    }
    forall p | p != pid
      ensures (p in u.tables <==> p in s.tables) && (p in s.tables ==> u.tables[p] == s.tables[p])
    {
      assert p in m.tables <==> p in s.tables;
    }
    assert u.devices.Keys == s.devices.Keys;
    forall i | 0 <= i < |frames|
      ensures Mapped(u, pid, PageAt(vAddr, i, s.pageSize), frames[i], id)
    {
      if i > 0 {
        assert frames[1..][i - 1] == frames[i];
      }
    }
  }

  lemma HandRest(frames: seq<nat>)
    requires frames != [] && Distinct(frames)
    ensures Hand(frames) - {frames[0]} == Hand(frames[1..]) && Distinct(frames[1..])
    ensures forall f :: f in frames[1..] ==> f in frames
  {
    assert frames == [frames[0]] + frames[1..];
  }

  ghost predicate Inv(s: State)
  {
    Owned(s, {}) && CursorsOk(s)
  }

  lemma CursorVacant(s: State, pid: nat, n: nat)
    requires Inv(s) && Vpn(Cursor(s, pid), s.pageSize) + n <= Power(LEVELS)
    ensures s.pageSize > 0 && Vacant(s, pid, Cursor(s, pid), n) && AlignToPage(Cursor(s, pid), s.pageSize) == Cursor(s, pid)
    ensures CursorsOk(s)
  {
    Powers.DivModUnique(s.pageSize, s.pageSize, 1, 0);
  }

  /** Allocation can only fail for want of memory: neither "page already present" nor
      "gpuid != deviceid" is reachable. When it succeeds the pages are mapped one after the other
      from the old cursor, at the frames that led the device's free list, and ownership is kept. */
  lemma AllocateKeepsInv(s: State, pid: nat, id: nat, n: nat)
    requires Inv(s) && id in s.devices && Vpn(Cursor(s, pid), s.pageSize) + n <= Power(LEVELS)
    ensures var r := AllocatePages(s, pid, id, n);
      && (r.Failed? ==> r.fault == OutOfMemory)
      && (r.Done? ==>
           && Inv(r.value)
           && n <= |s.devices[id].free|
           && (forall i {:trigger s.devices[id].free[i]} :: 0 <= i < n ==>
                Mapped(r.value, pid, PageAt(Cursor(s, pid), i, s.pageSize), s.devices[id].free[i], id))
           && (forall v {:trigger v in TableOf(s, pid).entries} :: v in TableOf(s, pid).entries ==>
                v in TableOf(r.value, pid).entries && TableOf(r.value, pid).entries[v] == TableOf(s, pid).entries[v])
           && (forall v {:trigger v in TableOf(r.value, pid).entries} :: v in TableOf(r.value, pid).entries ==>
                v in TableOf(s, pid).entries || Cursor(s, pid) <= v < PageAt(Cursor(s, pid), n, s.pageSize)))
  {
    hide Owned, Placed, PlacePages, Vacant, TableOf, Mapped, TakeFrames;
    var start := Cursor(s, pid);
    CursorVacant(s, pid, n);
    TakeShape(s, id, n);
    if TakeFrames(s, id, n).Done? {
      var (s1, frames) := TakeFrames(s, id, n).value;
      TakeOwned(s, id, n);
      assert Hand(frames) == set f | f in frames;
      SameVacancy(s, s1, pid, start, n);
      assert Distinct(frames) && |frames| == n;
      PlacePagesOwned(s1, pid, id, start, frames);
      var r := PlacePages(s1, pid, id, start, frames);
      if r.Done? {
        NthPage(start, s.pageSize, n);
        assert |frames| == n && s1.pageSize == s.pageSize;
        AdvanceCursor(s, s1, r.value, pid, id, start, frames);
        AllocatedFacts(s, s1, r.value, pid, id, start, frames);
      }
    }
  }

  lemma SameVacancy(s: State, t: State, pid: nat, vAddr: nat, n: nat)
    requires s.pageSize > 0 && t.tables == s.tables && t.pageSize == s.pageSize && Vacant(s, pid, vAddr, n)
    ensures Vacant(t, pid, vAddr, n)
  {
  }

  lemma TakeShape(s: State, id: nat, n: nat)
    requires id in s.devices
    ensures TakeFrames(s, id, n).Failed? ==> TakeFrames(s, id, n).fault == OutOfMemory
    ensures TakeFrames(s, id, n).Failed? <==> s.devices[id].free == [] || |s.devices[id].free| < n
    ensures TakeFrames(s, id, n).Done? ==>
      var (t, frames) := TakeFrames(s, id, n).value;
      && frames == s.devices[id].free[..n]
      && t.tables == s.tables && t.cursors == s.cursors && t.pageSize == s.pageSize && t.devices.Keys == s.devices.Keys
  {
  }

  lemma AllocatedFacts(s: State, s1: State, s2: State, pid: nat, id: nat, start: nat, frames: seq<nat>)
    requires s1.tables == s.tables && s1.cursors == s.cursors && s1.pageSize == s.pageSize
    requires Placed(s1, s2, pid, id, start, frames)
    ensures var u := s2.(cursors := s2.cursors[pid := EndAddr(start, |frames|, s.pageSize)]);
      && (forall i {:trigger frames[i]} :: 0 <= i < |frames| ==> Mapped(u, pid, PageAt(start, i, s.pageSize), frames[i], id))
      && (forall v {:trigger v in TableOf(s, pid).entries} :: v in TableOf(s, pid).entries ==>
           v in TableOf(u, pid).entries && TableOf(u, pid).entries[v] == TableOf(s, pid).entries[v])
      && (forall v {:trigger v in TableOf(u, pid).entries} :: v in TableOf(u, pid).entries ==>
           v in TableOf(s, pid).entries || start <= v < PageAt(start, |frames|, s.pageSize))
  {
    var u := s2.(cursors := s2.cursors[pid := EndAddr(start, |frames|, s.pageSize)]);
    assert TableOf(u, pid) == TableOf(s2, pid) && TableOf(s1, pid) == TableOf(s, pid);
    forall i | 0 <= i < |frames|
      ensures Mapped(u, pid, PageAt(start, i, s.pageSize), frames[i], id)
    {
      assert Mapped(s2, pid, PageAt(start, i, s.pageSize), frames[i], id);
    }
  }

  lemma AdvanceCursor(s: State, s1: State, s2: State, pid: nat, id: nat, start: nat, frames: seq<nat>)
    requires s.pageSize > 0 && CursorsOk(s) && s1.tables == s.tables && s1.cursors == s.cursors && s1.pageSize == s.pageSize
    requires Placed(s1, s2, pid, id, start, frames) && Owned(s2, {}) && start == Cursor(s, pid)
    requires |frames| * s.pageSize >= 0 && AlignToPage(start + |frames| * s.pageSize, s.pageSize) == start + |frames| * s.pageSize
    ensures Inv(s2.(cursors := s2.cursors[pid := EndAddr(start, |frames|, s.pageSize)]))
  {
    var u := s2.(cursors := s2.cursors[pid := EndAddr(start, |frames|, s.pageSize)]);
    SameSlots(s2, u);
    forall p, v | p in u.tables && v in u.tables[p].entries
      ensures p in u.cursors && v < u.cursors[p]
    {
      if p == pid {
        assert v in TableOf(s2, pid).entries;
        assert v in TableOf(s1, pid).entries || v < PageAt(start, |frames|, s.pageSize);
      } else {
        assert p in s1.tables && v in s.tables[p].entries;
      }
    }
  }

  /** Ownership speaks of devices and tables only. */
  lemma SameSlots(s: State, u: State)
    requires Owned(s, {}) && u == s.(cursors := u.cursors)
    ensures Owned(u, {})
  {
    forall x | InUse(u, x)
      ensures InUse(s, x) && FrameAt(u, x) == FrameAt(s, x)
      ensures NotFree(u, FrameAt(u, x)) && exists i :: HeldBy(u, FrameAt(u, x), i)
    {
      var f := FrameAt(s, x);
      assert NotFree(s, f);
      var i :| HeldBy(s, f, i);
      assert HeldBy(u, f, i);
    }
  }

  // ----- moving a page to a frame in hand -----

  lemma MovedSlot(s: State, pid: nat, id: nat, vAddr: nat, frame: nat, x: Slot)
    requires TablesOk(s) && MovePage(s, pid, id, vAddr, frame).Done? && pid in s.tables
    requires InUse(MovePage(s, pid, id, vAddr, frame).value, x)
    ensures InUse(s, x)
    ensures FrameAt(MovePage(s, pid, id, vAddr, frame).value, x) ==
      if x == Slot(pid, PathOf(vAddr, s.pageSize)) then frame else FrameAt(s, x)
  {
    var u := MovePage(s, pid, id, vAddr, frame).value;
    UpdateValid(s.tables[pid], PageFor(s, pid, vAddr, frame, id), s.pageSize);
    if x.pid == pid {
      LevelsApart(s.tables[pid], s.pageSize, x.path);
      LevelsApart(u.tables[pid], s.pageSize, x.path);
    }
  }

  lemma MoveOwned(s: State, pid: nat, id: nat, vAddr: nat, frame: nat, hand: set<nat>)
    requires Owned(s, hand) && frame in hand && HeldBy(s, frame, id)
    ensures var r := MovePage(s, pid, id, vAddr, frame);
      && (r.Failed? <==> vAddr !in TableOf(s, pid).entries)
      && (r.Done? ==>
           && Owned(r.value, hand - {frame}) && Mapped(r.value, pid, vAddr, frame, id)
           && r.value.devices == s.devices && r.value.cursors == s.cursors && r.value.pageSize == s.pageSize
           && r.value.tables.Keys == s.tables.Keys && pid in s.tables
           && (forall p :: p in s.tables && p != pid ==> r.value.tables[p] == s.tables[p])
           && TableOf(r.value, pid).entries == TableOf(s, pid).entries[vAddr := PageFor(s, pid, vAddr, frame, id)])
  {
    EmptyTableValid(s.pageSize);
    assert Valid(TableOf(s, pid), s.pageSize);
    UpdateValid(TableOf(s, pid), PageFor(s, pid, vAddr, frame, id), s.pageSize);
    var r := MovePage(s, pid, id, vAddr, frame);
    if r.Done? {
      var u := r.value;
      MovedUsed(s, pid, id, vAddr, frame, hand);
      forall f | f in hand - {frame}
        ensures NotFree(u, f)
      {
        assert NotFree(s, f);
      }
      assert FreeOk(u) && DevicesOk(u) && TablesOk(u);
    }
  }

  lemma MovedUsed(s: State, pid: nat, id: nat, vAddr: nat, frame: nat, hand: set<nat>)
    requires Owned(s, hand) && frame in hand && HeldBy(s, frame, id)
    requires MovePage(s, pid, id, vAddr, frame).Done? && pid in s.tables
    ensures UsedOk(MovePage(s, pid, id, vAddr, frame).value, hand - {frame}) && UsedOnce(MovePage(s, pid, id, vAddr, frame).value)
  {
    var u := MovePage(s, pid, id, vAddr, frame).value;
    var moved := Slot(pid, PathOf(vAddr, s.pageSize));
    assert NotFree(s, frame);
    forall x | InUse(u, x)
      ensures NotFree(u, FrameAt(u, x)) && FrameAt(u, x) !in hand - {frame} && exists i :: HeldBy(u, FrameAt(u, x), i)
    {
      MovedSlot(s, pid, id, vAddr, frame, x);
      if x == moved {
        assert HeldBy(u, frame, id);
      } else {
        assert NotFree(s, FrameAt(s, x));
        var i :| HeldBy(s, FrameAt(s, x), i);
        assert HeldBy(u, FrameAt(s, x), i);
      }
    }
    forall x, y | InUse(u, x) && InUse(u, y) && FrameAt(u, x) == FrameAt(u, y)
      ensures x == y
    {
      MovedSlot(s, pid, id, vAddr, frame, x);
      MovedSlot(s, pid, id, vAddr, frame, y);
    }
  }

  // ----- remapping a run of pages -----

  /** A frame that is neither free nor in use: no operation can hand it out again. */
  ghost predicate Lost(s: State, f: nat)
  {
    && NotFree(s, f) && f < s.total
    && forall x {:trigger FrameAt(s, x)} :: InUse(s, x) ==> FrameAt(s, x) != f
  }

  /** Moving a page loses the frame it was on, and brings back no lost frame. */
  lemma MoveLoses(s: State, pid: nat, id: nat, vAddr: nat, frame: nat, hand: set<nat>, f: nat)
    requires Owned(s, hand) && frame in hand && HeldBy(s, frame, id)
    requires vAddr in TableOf(s, pid).entries && pid in s.tables
    requires f !in hand && (Lost(s, f) || f == s.tables[pid].entries[vAddr].pAddr)
    ensures MovePage(s, pid, id, vAddr, frame).Done? && Lost(MovePage(s, pid, id, vAddr, frame).value, f)
  {
    UpdateValid(TableOf(s, pid), PageFor(s, pid, vAddr, frame, id), s.pageSize);
    var u := MovePage(s, pid, id, vAddr, frame).value;
    var moved := Slot(pid, PathOf(vAddr, s.pageSize));
    LevelsApart(s.tables[pid], s.pageSize, moved.path);
    assert InUse(s, moved) && FrameAt(s, moved) == s.tables[pid].entries[vAddr].pAddr;
    assert NotFree(s, f) && f < s.total by {
      if f == FrameAt(s, moved) {
        var i :| HeldBy(s, f, i);
        assert s.devices[i].initial + s.devices[i].size <= s.total;
      }
    }
    forall x | InUse(u, x)
      ensures FrameAt(u, x) != f
    {
      MovedSlot(s, pid, id, vAddr, frame, x);
    }
    assert NotFree(u, f);
  }

  /** What remapping `vAddrs` to `frames` does to the tables, and that it touches nothing else. */
  ghost predicate Moved(s: State, u: State, pid: nat, id: nat, vAddrs: seq<nat>, frames: seq<nat>)
    requires |frames| == |vAddrs|
  {
    && u.cursors == s.cursors && u.pageSize == s.pageSize && u.devices == s.devices && u.total == s.total
    && u.tables.Keys == s.tables.Keys
    && (forall p {:trigger u.tables[p]} :: p in s.tables && p != pid ==> u.tables[p] == s.tables[p])
    && TableOf(u, pid).entries.Keys == TableOf(s, pid).entries.Keys
    && (forall v {:trigger TableOf(u, pid).entries[v]} :: v in TableOf(s, pid).entries && v !in vAddrs ==>
         TableOf(u, pid).entries[v] == TableOf(s, pid).entries[v])
    && (forall i {:trigger vAddrs[i]} :: 0 <= i < |vAddrs| ==> Mapped(u, pid, vAddrs[i], frames[i], id))
  }

  lemma MovedNone(s: State, pid: nat, id: nat)
    ensures Moved(s, s, pid, id, [], [])
  {
  }

  lemma MovedRun(s: State, m: State, u: State, pid: nat, id: nat, vAddrs: seq<nat>, frames: seq<nat>)
    requires |frames| == |vAddrs| > 0 && Distinct(vAddrs) && s.pageSize > 0
    requires Moved(m, u, pid, id, vAddrs[1..], frames[1..])
    requires m.devices == s.devices && m.cursors == s.cursors && m.pageSize == s.pageSize && m.total == s.total
    requires m.tables.Keys == s.tables.Keys && pid in s.tables && vAddrs[0] in TableOf(s, pid).entries
    requires forall p :: p in s.tables && p != pid ==> m.tables[p] == s.tables[p]
    requires TableOf(m, pid).entries == TableOf(s, pid).entries[vAddrs[0] := PageFor(s, pid, vAddrs[0], frames[0], id)]
    ensures Moved(s, u, pid, id, vAddrs, frames)
  {
    assert forall v :: v in vAddrs[1..] ==> v in vAddrs;
    forall i | 0 <= i < |vAddrs|
      ensures Mapped(u, pid, vAddrs[i], frames[i], id)
    {
      if i == 0 {
        assert forall j :: 1 <= j < |vAddrs| ==> vAddrs[j] != vAddrs[0];
        assert vAddrs[0] !in vAddrs[1..];
        assert TableOf(u, pid).entries[vAddrs[0]] == TableOf(m, pid).entries[vAddrs[0]];
      } else {
        assert vAddrs[1..][i - 1] == vAddrs[i] && frames[1..][i - 1] == frames[i];
      }
    }
    forall v | v in TableOf(s, pid).entries && v !in vAddrs
      ensures TableOf(u, pid).entries[v] == TableOf(s, pid).entries[v]
    {
      assert TableOf(u, pid).entries[v] == TableOf(m, pid).entries[v];
    }
    forall p | p in s.tables && p != pid
      ensures u.tables[p] == s.tables[p]
    {
    }
  }

  /** Remapping fails exactly when some address is not mapped; otherwise every frame ends up owned,
      and a frame that was lost, or that one of the pages leaves, is lost. */
  lemma {:induction false} MovePagesOwned(s: State, pid: nat, id: nat, vAddrs: seq<nat>, frames: seq<nat>)
    requires Owned(s, Hand(frames)) && Distinct(frames) && Distinct(vAddrs) && |frames| == |vAddrs|
    requires forall f :: f in frames ==> HeldBy(s, f, id)
    ensures var r := MovePages(s, pid, id, vAddrs, frames);
      && (r.Failed? ==> r.fault == PageMissing)
      && (r.Failed? <==> exists v :: v in vAddrs && v !in TableOf(s, pid).entries)
      && (r.Done? ==> Owned(r.value, {}) && Moved(s, r.value, pid, id, vAddrs, frames))
    decreases |vAddrs|
  {
    hide Owned, Moved, MovePage, TableOf, Mapped, Lost;
    if vAddrs == [] {
      assert Hand(frames) == {};
      MovedNone(s, pid, id);
    } else {
      FirstMove(s, pid, id, vAddrs, frames);
      var r := MovePage(s, pid, id, vAddrs[0], frames[0]);
      assert vAddrs == [vAddrs[0]] + vAddrs[1..];
      if r.Done? {
        HandRest(frames);
        HandRest(vAddrs);
        MovePagesOwned(r.value, pid, id, vAddrs[1..], frames[1..]);
        if MovePages(s, pid, id, vAddrs, frames).Done? {
          MovedRun(s, r.value, MovePages(s, pid, id, vAddrs, frames).value, pid, id, vAddrs, frames);
        }
      }
    }
  }

  lemma FirstMove(s: State, pid: nat, id: nat, vAddrs: seq<nat>, frames: seq<nat>)
    requires |frames| == |vAddrs| > 0 && Owned(s, Hand(frames)) && Distinct(frames)
    requires forall f :: f in frames ==> HeldBy(s, f, id)
    ensures s.pageSize > 0
    ensures var r := MovePage(s, pid, id, vAddrs[0], frames[0]);
      && (r.Failed? <==> vAddrs[0] !in TableOf(s, pid).entries)
      && (r.Failed? ==> r.fault == PageMissing)
      && (r.Done? ==>
           && pid in s.tables
           && Owned(r.value, Hand(frames) - {frames[0]})
           && (forall f :: f in frames ==> HeldBy(r.value, f, id))
           && r.value.devices == s.devices && r.value.cursors == s.cursors && r.value.pageSize == s.pageSize
           && r.value.total == s.total && r.value.tables.Keys == s.tables.Keys
           && (forall p :: p in s.tables && p != pid ==> r.value.tables[p] == s.tables[p])
           && TableOf(r.value, pid).entries == TableOf(s, pid).entries[vAddrs[0] := PageFor(s, pid, vAddrs[0], frames[0], id)]
           && (forall v :: v in TableOf(r.value, pid).entries <==> v in TableOf(s, pid).entries))
  {
    hide Owned;
    assert s.pageSize > 0 by {
      OwnedParts(s, Hand(frames));
    }
    assert HeldBy(s, frames[0], id);
    MoveOwned(s, pid, id, vAddrs[0], frames[0], Hand(frames));
  }

  lemma OwnedParts(s: State, hand: set<nat>)
    requires Owned(s, hand)
    ensures s.pageSize > 0 && DevicesOk(s)
  {
  }

  lemma {:induction false} MovePagesLose(s: State, pid: nat, id: nat, vAddrs: seq<nat>, frames: seq<nat>, f: nat)
    requires Owned(s, Hand(frames)) && Distinct(frames) && Distinct(vAddrs) && |frames| == |vAddrs|
    requires forall f :: f in frames ==> HeldBy(s, f, id)
    requires s.pageSize > 0 && MovePages(s, pid, id, vAddrs, frames).Done? && f !in frames
    requires Lost(s, f) || exists v :: v in vAddrs && v in TableOf(s, pid).entries && TableOf(s, pid).entries[v].pAddr == f
    ensures Lost(MovePages(s, pid, id, vAddrs, frames).value, f)
    decreases |vAddrs|
  {
    hide Owned, Moved, MovePage, Mapped, Lost;
    if vAddrs != [] {
      FirstMove(s, pid, id, vAddrs, frames);
      var m := MovePage(s, pid, id, vAddrs[0], frames[0]).value;
      HandRest(frames);
      HandRest(vAddrs);
      if Lost(s, f) || TableOf(s, pid).entries[vAddrs[0]].pAddr == f {
        assert f !in Hand(frames);
        MoveLoses(s, pid, id, vAddrs[0], frames[0], Hand(frames), f);
      } else {
        var v :| v in vAddrs && v in TableOf(s, pid).entries && TableOf(s, pid).entries[v].pAddr == f;
        assert vAddrs == [vAddrs[0]] + vAddrs[1..];
        assert v in vAddrs[1..] && v in TableOf(m, pid).entries && TableOf(m, pid).entries[v].pAddr == f;
      }
      MovePagesLose(m, pid, id, vAddrs[1..], frames[1..], f);
    }
  }

  // ----- returning a page's frame -----

  /** A frame lies on one device. */
  lemma OneDevice(s: State, f: nat, i: nat, j: nat)
    requires DevicesOk(s) && HeldBy(s, f, i) && HeldBy(s, f, j)
    ensures i == j
  {
  }

  /** Removing a mapped page puts its frame back on the free list of the device it lies on. */
  lemma RemoveKeepsInv(s: State, pid: nat, vAddr: nat, id: nat)
    requires Inv(s) && id in s.devices
    requires var page := RadixTable.Find(TableOf(s, pid), AlignToPage(vAddr, s.pageSize));
      page.Ok? ==> HeldBy(s, page.value.pAddr, id)
    ensures var r := RemoveTo(s, pid, vAddr, id);
      && (r.Failed? <==> AlignToPage(vAddr, s.pageSize) !in TableOf(s, pid).entries)
      && (r.Done? ==> Inv(r.value))
      && (r.Done? ==>
           var d, f := s.devices[id], TableOf(s, pid).entries[AlignToPage(vAddr, s.pageSize)].pAddr;
           r.value.devices == s.devices[id := d.(free := d.free + [f])])
      && (r.Done? ==> TableOf(r.value, pid).entries == TableOf(s, pid).entries - {AlignToPage(vAddr, s.pageSize)})
  {
    var aligned := AlignToPage(vAddr, s.pageSize);
    EmptyTableValid(s.pageSize);
    if aligned in TableOf(s, pid).entries {
      RemoveValid(TableOf(s, pid), aligned, s.pageSize);
      RemovedOwned(s, pid, aligned, id);
    }
  }

  lemma RemovedOwned(s: State, pid: nat, vAddr: nat, id: nat)
    requires Inv(s) && id in s.devices && pid in s.tables && vAddr in s.tables[pid].entries
    requires HeldBy(s, s.tables[pid].entries[vAddr].pAddr, id) && Addressable(vAddr, s.pageSize)
    requires RemoveTo(s, pid, vAddr, id).Done?
    requires RadixTable.Remove(s.tables[pid], vAddr, s.pageSize).Ok?
    requires Valid(RadixTable.Remove(s.tables[pid], vAddr, s.pageSize).value, s.pageSize)
    ensures Inv(RemoveTo(s, pid, vAddr, id).value)
  {
    var u := RemoveTo(s, pid, vAddr, id).value;
    var d := s.devices[id];
    var gone := Slot(pid, PathOf(vAddr, s.pageSize));
    var f := s.tables[pid].entries[vAddr].pAddr;
    LevelsApart(s.tables[pid], s.pageSize, gone.path);
    assert InUse(s, gone) && FrameAt(s, gone) == f;
    assert NotFree(s, f);
    GrownList(d, f);
    assert FreeOk(u) by {
      forall i | i in u.devices
        ensures ListOk(u.devices[i])
      {
        assert i != id ==> u.devices[i] == s.devices[i];
      }
    }
    assert DevicesOk(u) by {
      forall i | i in u.devices
        ensures u.devices[i].initial == s.devices[i].initial && u.devices[i].size == s.devices[i].size
      {
      }
    }
    RemovedUsed(s, u, pid, id, gone, f);
    assert CursorsOk(u);
  }

  lemma GrownList(d: Device, f: nat)
    requires ListOk(d) && f !in d.free && OnDevice(d, f)
    ensures ListOk(d.(free := d.free + [f]))
  {
  }

  lemma RemovedUsed(s: State, u: State, pid: nat, id: nat, gone: Slot, f: nat)
    requires Owned(s, {}) && id in s.devices && InUse(s, gone) && FrameAt(s, gone) == f && gone.pid == pid
    requires gone.path !in s.tables[pid].dirs
    requires u.devices == s.devices[id := s.devices[id].(free := s.devices[id].free + [f])] && u.pageSize == s.pageSize
    requires pid in u.tables && u.tables == s.tables[pid := u.tables[pid]]
    requires u.tables[pid].dirs == s.tables[pid].dirs && u.tables[pid].pages == s.tables[pid].pages - {gone.path}
    ensures UsedOk(u, {}) && UsedOnce(u)
  {
    forall x | InUse(u, x)
      ensures InUse(s, x) && FrameAt(u, x) == FrameAt(s, x) && FrameAt(u, x) != f
    {
      assert x != gone;
    }
    assert UsedOnce(u);
    forall x | InUse(u, x)
      ensures NotFree(u, FrameAt(u, x)) && exists i :: HeldBy(u, FrameAt(u, x), i)
    {
      var g := FrameAt(s, x);
      assert NotFree(s, g);
      StillHeld(s, u, id, f, g);
    }
  }

  lemma StillHeld(s: State, u: State, id: nat, f: nat, g: nat)
    requires id in s.devices && u.devices == s.devices[id := s.devices[id].(free := s.devices[id].free + [f])]
    requires NotFree(s, g) && g != f && exists i :: HeldBy(s, g, i)
    ensures NotFree(u, g) && exists i :: HeldBy(u, g, i)
  {
    var i :| HeldBy(s, g, i);
    assert HeldBy(u, g, i);
    forall i | i in u.devices
      ensures g !in u.devices[i].free
    {
      assert g !in s.devices[i].free;
    }
  }

  // ----- moving pages, as whole operations -----

  lemma {:induction false} PageAddrsAt(vAddr: nat, end: nat, pageSize: nat)
    requires pageSize > 0
    ensures Distinct(PageAddrs(vAddr, end, pageSize))
    ensures forall i :: 0 <= i < |PageAddrs(vAddr, end, pageSize)| ==> PageAddrs(vAddr, end, pageSize)[i] == PageAt(vAddr, i, pageSize)
    ensures forall v :: v in PageAddrs(vAddr, end, pageSize) ==> vAddr <= v < end
    decreases end - vAddr
  {
    if vAddr < end {
      PageAddrsAt(vAddr + pageSize, end, pageSize);
      var rest := PageAddrs(vAddr + pageSize, end, pageSize);
      assert forall j :: 0 <= j < |rest| ==> rest[j] in rest;
    }
  }

  /** Moving mapped pages to new frames: the exact failures, and on success ownership is kept, the
      pages are on the frames that led the free list, and every frame they were on is lost. */
  lemma MoveToKeepsInv(s: State, pid: nat, vAddrs: seq<nat>, id: nat)
    requires Inv(s) && id in s.devices && Distinct(vAddrs)
    ensures var r, n := MoveTo(s, pid, vAddrs, id), |vAddrs|;
      && (r == Failed(OutOfMemory) <==> s.devices[id].free == [] || |s.devices[id].free| < n)
      && (r.Failed? && r.fault != OutOfMemory ==> r.fault == PageMissing && exists v :: v in vAddrs && v !in TableOf(s, pid).entries)
      && (r.Done? ==>
           && Inv(r.value)
           && (forall i {:trigger vAddrs[i]} :: 0 <= i < n ==> Mapped(r.value, pid, vAddrs[i], s.devices[id].free[i], id))
           && (forall i {:trigger vAddrs[i]} :: 0 <= i < n ==>
                vAddrs[i] in TableOf(s, pid).entries && Lost(r.value, TableOf(s, pid).entries[vAddrs[i]].pAddr))
           && OthersStay(TableOf(s, pid), TableOf(r.value, pid), vAddrs) && r.value.pageSize == s.pageSize)
  {
    hide Owned, TableOf, Mapped, TakeFrames, Lost, Moved, MovePages, OthersStay;
    TakeShape(s, id, |vAddrs|);
    assert s.pageSize > 0 by {
      OwnedParts(s, {});
    }
    if TakeFrames(s, id, |vAddrs|).Done? {
      var (s1, frames) := TakeFrames(s, id, |vAddrs|).value;
      TakenForMove(s, pid, id, vAddrs);
      MovePagesOwned(s1, pid, id, vAddrs, frames);
      var r := MovePages(s1, pid, id, vAddrs, frames);
      if r.Done? {
        MovedCursors(s, s1, r.value, pid, id, vAddrs, frames);
        MovedOthers(s1, r.value, pid, id, vAddrs, frames);
        forall i | 0 <= i < |vAddrs|
          ensures Mapped(r.value, pid, vAddrs[i], s.devices[id].free[i], id)
        {
          MovedAt(s1, r.value, pid, id, vAddrs, frames, i);
        }
        forall i | 0 <= i < |vAddrs|
          ensures vAddrs[i] in TableOf(s, pid).entries && Lost(r.value, TableOf(s, pid).entries[vAddrs[i]].pAddr)
        {
          assert vAddrs[i] in vAddrs && vAddrs[i] in TableOf(s1, pid).entries;
          var f := TableOf(s, pid).entries[vAddrs[i]].pAddr;
          MappedNotInHand(s1, pid, vAddrs[i], Hand(frames));
          MovePagesLose(s1, pid, id, vAddrs, frames, f);
        }
      }
    }
  }

  /** No page appears or goes, and the pages that are not moved are as they were. */
  ghost predicate OthersStay(before: Table, after: Table, vAddrs: seq<nat>)
  {
    && after.entries.Keys == before.entries.Keys
    && forall a {:trigger after.entries[a]} :: a in after.entries && a !in vAddrs ==> after.entries[a] == before.entries[a]
  }

  lemma MovedOthers(s: State, u: State, pid: nat, id: nat, vAddrs: seq<nat>, frames: seq<nat>)
    requires |frames| == |vAddrs| && Moved(s, u, pid, id, vAddrs, frames)
    ensures OthersStay(TableOf(s, pid), TableOf(u, pid), vAddrs) && u.pageSize == s.pageSize
  {
  }

  lemma MovedAt(s: State, u: State, pid: nat, id: nat, vAddrs: seq<nat>, frames: seq<nat>, i: nat)
    requires i < |vAddrs| == |frames| && Moved(s, u, pid, id, vAddrs, frames)
    ensures Mapped(u, pid, vAddrs[i], frames[i], id)
  {
  }

  lemma MovedCursors(s: State, s1: State, u: State, pid: nat, id: nat, vAddrs: seq<nat>, frames: seq<nat>)
    requires s.pageSize > 0 && CursorsOk(s) && s1.tables == s.tables && s1.cursors == s.cursors && s1.pageSize == s.pageSize
    requires |vAddrs| == |frames| && Moved(s1, u, pid, id, vAddrs, frames)
    ensures u.pageSize == s.pageSize && CursorsOk(u)
  {
    forall p, v | p in u.tables && v in u.tables[p].entries
      ensures p in u.cursors && v < u.cursors[p]
    {
      if p == pid {
        assert v in TableOf(u, pid).entries.Keys;
        assert v in TableOf(s1, pid).entries;
        assert v in s.tables[p].entries;
      } else {
        assert v in s.tables[p].entries;
      }
    }
  }

  lemma TakenForMove(s: State, pid: nat, id: nat, vAddrs: seq<nat>)
    requires Inv(s) && id in s.devices && TakeFrames(s, id, |vAddrs|).Done?
    ensures var (t, frames) := TakeFrames(s, id, |vAddrs|).value;
      && Owned(t, Hand(frames)) && Distinct(frames) && |frames| == |vAddrs|
      && (forall f :: f in frames ==> HeldBy(t, f, id))
      && TableOf(t, pid) == TableOf(s, pid)
      && (forall i :: 0 <= i < |vAddrs| ==> frames[i] == s.devices[id].free[i])
  {
    TakeOwned(s, id, |vAddrs|);
    var (t, frames) := TakeFrames(s, id, |vAddrs|).value;
    assert Hand(frames) == set f | f in frames;
  }

  lemma MappedNotInHand(s: State, pid: nat, vAddr: nat, hand: set<nat>)
    requires Owned(s, hand) && vAddr in TableOf(s, pid).entries
    ensures TableOf(s, pid).entries[vAddr].pAddr !in hand
  {
    var x := Slot(pid, PathOf(vAddr, s.pageSize));
    LevelsApart(s.tables[pid], s.pageSize, x.path);
    assert FrameAt(s, x) == s.tables[pid].entries[vAddr].pAddr;
  }

  // ----- every run -----

  datatype Op =
    | RegisterDevice(id: nat, pages: nat)
    | AllocateVirtualChunk(pid: nat, byteSize: nat, id: nat)
    | Remap(pid: nat, vAddr: nat, byteSize: nat, id: nat)
    | AllocatePageWithGivenVAddr(pid: nat, id: nat, vAddr: nat)
    | RemovePage(pid: nat, vAddr: nat)

  /** One call of the allocator. `OutsideModel` marks a device number used twice and a cursor that
      leaves the page numbers four levels can hold. */
  ghost function Step(s: State, op: Op): Result<State>
    requires s.pageSize > 0
  {
    match op
    case RegisterDevice(id, pages) =>
      if id in s.devices then Failed(OutsideModel) else Done(Register(s, id, pages))
    case AllocateVirtualChunk(pid, byteSize, id) =>
      var n := PagesFor(byteSize, s.pageSize);
      if id !in s.devices then Failed(NoDevice)
      else if Vpn(Cursor(s, pid), s.pageSize) + n > Power(LEVELS) then Failed(OutsideModel)
      else AllocatePages(s, pid, id, n)
    case Remap(pid, vAddr, byteSize, id) =>
      if id !in s.devices then Failed(NoDevice)
      else MoveTo(s, pid, PageAddrs(vAddr, vAddr + byteSize, s.pageSize), id)
    case AllocatePageWithGivenVAddr(pid, id, vAddr) =>
      if id !in s.devices then Failed(NoDevice) else MoveTo(s, pid, [vAddr], id)
    case RemovePage(pid, vAddr) =>
      match RadixTable.Find(TableOf(s, pid), AlignToPage(vAddr, s.pageSize))
      case Panic => Failed(PageMissing)
      case Ok(page) =>
        if exists id :: HeldBy(s, page.pAddr, id) then
          var id :| HeldBy(s, page.pAddr, id);
          RemoveTo(s, pid, vAddr, id)
        else Failed(FrameOffDevices)
  }

  // ----- what a chunk of bytes gets -----

  /** The number of pages is the least whose sizes add up to the bytes. */
  lemma PagesForBytes(byteSize: nat, pageSize: nat)
    requires pageSize > 0 && byteSize > 0
    ensures var n := PagesFor(byteSize, pageSize);
      n > 0 && n * pageSize >= 0 && byteSize <= n * pageSize && n * pageSize < byteSize + pageSize
  {
    Powers.DivMod(byteSize - 1, pageSize);
    var q := (byteSize - 1) / pageSize;
    assert (q + 1) * pageSize == q * pageSize + pageSize;
  }

  /** Where a chunk begins and where the next one will: at the first page or at the end of the last
      chunk, and on the first page boundary from the end of this one. */
  lemma ChunkFollowsLast(s: State, pid: nat, byteSize: nat, id: nat)
    requires Inv(s) && s.pageSize > 0 && byteSize > 0 && Step(s, AllocateVirtualChunk(pid, byteSize, id)).Done?
    ensures var t, v := Step(s, AllocateVirtualChunk(pid, byteSize, id)).value, Cursor(s, pid);
      && v == (if pid in s.cursors then s.cursors[pid] else s.pageSize)
      && v % s.pageSize == 0 && pid in t.cursors && t.cursors[pid] % s.pageSize == 0
      && v + byteSize <= t.cursors[pid] < v + byteSize + s.pageSize
      && t.cursors - {pid} == s.cursors - {pid}
  {
    hide Owned, AllocatePages, Vacant, CursorsOk, AlignToPage, PagesFor, Inv;
    var n, v := PagesFor(byteSize, s.pageSize), Cursor(s, pid);
    AllocateShape(s, pid, id, n);
    PagesForBytes(byteSize, s.pageSize);
    CursorVacant(s, pid, n);
    EndAligned(v, n, s.pageSize);
  }

  lemma EndAligned(v: nat, n: nat, pageSize: nat)
    requires pageSize > 0 && AlignToPage(v, pageSize) == v
    ensures v % pageSize == 0 && EndAddr(v, n, pageSize) % pageSize == 0
  {
    var q := Vpn(v, pageSize);
    Powers.DivModUnique(v, pageSize, q, 0);
    assert EndAddr(v, n, pageSize) == (q + n) * pageSize;
    Powers.DivModUnique(EndAddr(v, n, pageSize), pageSize, q + n, 0);
  }

  lemma PageOfByte(v: nat, b: nat, n: nat, pageSize: nat) returns (i: nat)
    requires pageSize > 0 && AlignToPage(v, pageSize) == v && n * pageSize >= 0 && v <= b < v + n * pageSize
    ensures i < n && AlignToPage(b, pageSize) == PageAt(v, i, pageSize)
  {
    i := (b - v) / pageSize;
    Powers.DivMod(b - v, pageSize);
    var q := Vpn(v, pageSize);
    assert b == (q + i) * pageSize + (b - v) % pageSize;
    Powers.DivModUnique(b, pageSize, q + i, (b - v) % pageSize);
    assert (q + i) * pageSize == v + i * pageSize;
    FactorBelow(i, n, pageSize);
  }

  /** An aligned address below the end of `n` pages starts no later than the last of them. */
  lemma LastStart(v: nat, a: nat, n: nat, pageSize: nat)
    requires pageSize > 0 && AlignToPage(v, pageSize) == v && AlignToPage(a, pageSize) == a
    requires n * pageSize >= 0 && a < v + n * pageSize
    ensures a + pageSize <= v + n * pageSize
  {
    var p, q := Vpn(v, pageSize), Vpn(a, pageSize);
    assert (p + n) * pageSize == v + n * pageSize;
    FactorBelow(q, p + n, pageSize);
    Powers.MulNat(p + n - q - 1, pageSize);
    assert (p + n) * pageSize == q * pageSize + pageSize + (p + n - q - 1) * pageSize;
  }

  lemma FactorBelow(a: int, b: int, d: nat)
    requires d > 0 && a * d < b * d
    ensures a < b
  {
    assert (b - a) * d == b * d - a * d;
  }

  /** The page at `a` is mapped and valid, and says truly that it lies on device `id`. */
  ghost predicate Backed(s: State, t: Table, pid: nat, a: nat, id: nat)
  {
    && a in t.entries
    && var page := t.entries[a];
       && page.pid == pid && page.vAddr == a && page.valid && page.pageSize == s.pageSize && page.deviceID == id
       && HeldBy(s, page.pAddr, id)
  }

  /** Between two tables of a process: every byte of the chunk at `v` lies in a page that is backed
      afterwards, and every new page holds one of its bytes. */
  ghost predicate ChunkMapped(s: State, before: Table, after: Table, pid: nat, v: nat, byteSize: nat, id: nat)
    requires s.pageSize > 0
  {
    && (forall b {:trigger AlignToPage(b, s.pageSize)} :: v <= b < v + byteSize ==> Backed(s, after, pid, AlignToPage(b, s.pageSize), id))
    && (forall a {:trigger a in after.entries} :: a in after.entries && a !in before.entries ==> v <= a < v + byteSize)
  }

  /** Every byte of an allocated chunk lies in a page that is mapped to the device afterwards, and no
      page is added that holds none of them. */
  lemma ChunkIsMapped(s: State, pid: nat, byteSize: nat, id: nat)
    requires Inv(s) && s.pageSize > 0 && byteSize > 0 && Step(s, AllocateVirtualChunk(pid, byteSize, id)).Done?
    ensures var t, v := Step(s, AllocateVirtualChunk(pid, byteSize, id)).value, Cursor(s, pid);
      t.pageSize == s.pageSize && ChunkMapped(s, TableOf(s, pid), TableOf(t, pid), pid, v, byteSize, id)
  {
    hide Owned, TableOf, AllocatePages, Mapped;
    var n, v, t := PagesFor(byteSize, s.pageSize), Cursor(s, pid), Step(s, AllocateVirtualChunk(pid, byteSize, id)).value;
    AllocateKeepsInv(s, pid, id, n);
    AllocateShape(s, pid, id, n);
    PagesForBytes(byteSize, s.pageSize);
    CursorVacant(s, pid, n);
    forall b | v <= b < v + byteSize
      ensures Backed(s, TableOf(t, pid), pid, AlignToPage(b, s.pageSize), id)
    {
      var i := PageOfByte(v, b, n, s.pageSize);
      assert Mapped(t, pid, PageAt(v, i, s.pageSize), s.devices[id].free[i], id);
      MappedIsBacked(s, t, pid, PageAt(v, i, s.pageSize), id, i);
    }
    forall a | a in TableOf(t, pid).entries && a !in TableOf(s, pid).entries
      ensures v <= a < v + byteSize
    {
      EntryAligned(t, pid, a);
      LastStart(v, a, n, s.pageSize);
    }
  }

  lemma {:induction false} PageAddrsReach(vAddr: nat, end: nat, pageSize: nat)
    requires pageSize > 0
    ensures PageAt(vAddr, |PageAddrs(vAddr, end, pageSize)|, pageSize) >= end
    decreases end - vAddr
  {
    if vAddr < end {
      PageAddrsReach(vAddr + pageSize, end, pageSize);
    }
  }

  /** Between two tables of a process: every byte of the range lies in a page that is backed by the
      device afterwards, and a page that holds none of them is as it was. */
  ghost predicate RangeMoved(s: State, before: Table, after: Table, pid: nat, vAddr: nat, byteSize: nat, id: nat)
    requires s.pageSize > 0
  {
    && (forall b {:trigger AlignToPage(b, s.pageSize)} :: vAddr <= b < vAddr + byteSize ==>
          Backed(s, after, pid, AlignToPage(b, s.pageSize), id) && after.entries[AlignToPage(b, s.pageSize)].pAddr in s.devices[id].free)
    && after.entries.Keys == before.entries.Keys
    && (forall a {:trigger after.entries[a]} :: a in after.entries && !(vAddr <= a < vAddr + byteSize) ==> after.entries[a] == before.entries[a])
  }

  /** Remapping moves every page that meets the range to a frame that was free, and no other page. */
  lemma RemapMovesRange(s: State, pid: nat, vAddr: nat, byteSize: nat, id: nat)
    requires Inv(s) && s.pageSize > 0 && Step(s, Remap(pid, vAddr, byteSize, id)).Done?
    ensures var t := Step(s, Remap(pid, vAddr, byteSize, id)).value;
      t.pageSize == s.pageSize && RangeMoved(s, TableOf(s, pid), TableOf(t, pid), pid, vAddr, byteSize, id)
  {
    hide Owned, TableOf, MoveTo, Mapped, Lost;
    var t, vAddrs := Step(s, Remap(pid, vAddr, byteSize, id)).value, PageAddrs(vAddr, vAddr + byteSize, s.pageSize);
    PageAddrsAt(vAddr, vAddr + byteSize, s.pageSize);
    PageAddrsReach(vAddr, vAddr + byteSize, s.pageSize);
    MoveToKeepsInv(s, pid, vAddrs, id);
    if byteSize > 0 {
      assert vAddrs[0] == vAddr && vAddrs[0] in TableOf(s, pid).entries;
      EntryAligned(s, pid, vAddr);
      forall b | vAddr <= b < vAddr + byteSize
        ensures Backed(s, TableOf(t, pid), pid, AlignToPage(b, s.pageSize), id)
        ensures TableOf(t, pid).entries[AlignToPage(b, s.pageSize)].pAddr in s.devices[id].free
      {
        var i := PageOfByte(vAddr, b, |vAddrs|, s.pageSize);
        assert vAddrs[i] == PageAt(vAddr, i, s.pageSize);
        MappedIsBacked(s, t, pid, vAddrs[i], id, i);
      }
    }
  }

  lemma AllocateShape(s: State, pid: nat, id: nat, n: nat)
    requires Inv(s) && s.pageSize > 0 && id in s.devices && AllocatePages(s, pid, id, n).Done?
    requires Vpn(Cursor(s, pid), s.pageSize) + n <= Power(LEVELS)
    ensures AllocatePages(s, pid, id, n).value.pageSize == s.pageSize
    ensures AllocatePages(s, pid, id, n).value.cursors == s.cursors[pid := EndAddr(Cursor(s, pid), n, s.pageSize)]
  {
    hide Owned, PlacePages, Vacant, TableOf, TakeFrames;
    CursorVacant(s, pid, n);
    TakeShape(s, id, n);
    var (s1, frames) := TakeFrames(s, id, n).value;
    TakeOwned(s, id, n);
    assert Hand(frames) == set f | f in frames;
    SameVacancy(s, s1, pid, Cursor(s, pid), n);
    PlacePagesOwned(s1, pid, id, Cursor(s, pid), frames);
  }

  lemma MappedIsBacked(s: State, t: State, pid: nat, a: nat, id: nat, i: nat)
    requires Owned(s, {}) && id in s.devices && i < |s.devices[id].free| && t.pageSize == s.pageSize
    requires Mapped(t, pid, a, s.devices[id].free[i], id)
    ensures Backed(s, TableOf(t, pid), pid, a, id) && TableOf(t, pid).entries[a].pAddr in s.devices[id].free
  {
    assert ListOk(s.devices[id]) && s.devices[id].free[i] in s.devices[id].free;
  }

  lemma EntryAligned(s: State, pid: nat, a: nat)
    requires Inv(s) && a in TableOf(s, pid).entries
    ensures s.pageSize > 0 && AlignToPage(a, s.pageSize) == a
  {
    assert Valid(s.tables[pid], s.pageSize);
  }

  /** A page table with one frame for the null address below the first device. */
  function Initial(pageSize: nat): State
  {
    State(pageSize, pageSize, map[], map[], map[])
  }

  ghost function Run(s: State, ops: seq<Op>): Result<State>
    requires s.pageSize > 0
    decreases |ops|
  {
    if ops == [] then Done(s)
    else
      match Step(s, ops[0])
      case Failed(f) => Failed(f)
      case Done(t) => if t.pageSize > 0 then Run(t, ops[1..]) else Failed(OutsideModel)
  }

  /** The panics that a caller can provoke. The other three never happen. */
  predicate Foreseen(f: Fault)
  {
    f == OutOfMemory || f == PageMissing || f == NoDevice || f == OutsideModel
  }

  lemma StepKeepsInv(s: State, op: Op)
    requires Inv(s)
    ensures s.pageSize > 0
    ensures Step(s, op).Done? ==> Inv(Step(s, op).value)
    ensures Step(s, op).Failed? ==> Foreseen(Step(s, op).fault)
  {
    hide Owned, CursorsOk, TableOf, Mapped, Lost, RemoveTo, MoveTo, AllocatePages;
    OwnedParts(s, {});
    match op
    case RegisterDevice(id, pages) =>
      if id !in s.devices {
        RegisterInv(s, id, pages);
      }
    case AllocateVirtualChunk(pid, byteSize, id) =>
      var n := PagesFor(byteSize, s.pageSize);
      if id in s.devices && Vpn(Cursor(s, pid), s.pageSize) + n <= Power(LEVELS) {
        AllocateKeepsInv(s, pid, id, n);
      }
    case Remap(pid, vAddr, byteSize, id) =>
      if id in s.devices {
        PageAddrsAt(vAddr, vAddr + byteSize, s.pageSize);
        MoveToKeepsInv(s, pid, PageAddrs(vAddr, vAddr + byteSize, s.pageSize), id);
      }
    case AllocatePageWithGivenVAddr(pid, id, vAddr) =>
      if id in s.devices {
        MoveToKeepsInv(s, pid, [vAddr], id);
      }
    case RemovePage(pid, vAddr) =>
      RemoveStep(s, pid, vAddr);
  }

  lemma RegisterInv(s: State, id: nat, pages: nat)
    requires Inv(s) && id !in s.devices
    ensures Inv(Register(s, id, pages))
  {
    RegisterOwned(s, id, pages);
  }

  lemma RemoveStep(s: State, pid: nat, vAddr: nat)
    requires Inv(s)
    ensures var r := Step(s, RemovePage(pid, vAddr));
      && (r.Done? ==> Inv(r.value))
      && (r.Failed? ==> r.fault == PageMissing)
  {
    var aligned := AlignToPage(vAddr, s.pageSize);
    if aligned in TableOf(s, pid).entries {
      var x := Slot(pid, PathOf(aligned, s.pageSize));
      LevelsApart(s.tables[pid], s.pageSize, x.path);
      var f := s.tables[pid].entries[aligned].pAddr;
      assert InUse(s, x) && FrameAt(s, x) == f;
      var id :| HeldBy(s, f, id);
      forall j | HeldBy(s, f, j)
        ensures j == id
      {
        OneDevice(s, f, id, j);
      }
      RemoveKeepsInv(s, pid, vAddr, id);
    }
  }

  /** Over every run, every frame has at most one use and no used frame is free, so the panics
      "page already present", "gpuid != deviceid" and "device not found" are unreachable. */
  lemma {:induction false} EveryRunKeepsInv(s: State, ops: seq<Op>)
    requires Inv(s)
    ensures s.pageSize > 0
    ensures Run(s, ops).Done? ==> Inv(Run(s, ops).value)
    ensures Run(s, ops).Failed? ==> Foreseen(Run(s, ops).fault)
    decreases |ops|
  {
    hide Inv, Step;
    InitialOk(s);
    if ops != [] {
      StepKeepsInv(s, ops[0]);
      if Step(s, ops[0]).Done? {
        EveryRunKeepsInv(Step(s, ops[0]).value, ops[1..]);
      }
    }
  }

  lemma InitialOk(s: State)
    requires Inv(s)
    ensures s.pageSize > 0
  {
  }

  /** The same from an allocator without devices, with what the invariant says about live pages. */
  lemma EveryRunOwnsFrames(pageSize: nat, ops: seq<Op>, p: nat, v: nat, q: nat, w: nat)
    requires pageSize > 0
    ensures var r := Run(Initial(pageSize), ops);
      && (r.Failed? ==> Foreseen(r.fault))
      && (r.Done? && v in TableOf(r.value, p).entries ==>
           var f := TableOf(r.value, p).entries[v].pAddr;
           && NotFree(r.value, f) && (exists i :: HeldBy(r.value, f, i))
           && (forall path :: path in TableOf(r.value, q).dirs ==> TableOf(r.value, q).dirs[path] != f)
           && (w in TableOf(r.value, q).entries && TableOf(r.value, q).entries[w].pAddr == f ==> p == q && v == w))
  {
    assert Inv(Initial(pageSize));
    EveryRunKeepsInv(Initial(pageSize), ops);
    var r := Run(Initial(pageSize), ops);
    if r.Done? {
      LiveFrames(r.value, p, v, q, w);
    }
  }

  lemma LiveFrames(s: State, p: nat, v: nat, q: nat, w: nat)
    requires Owned(s, {})
    ensures v in TableOf(s, p).entries ==>
      var f := TableOf(s, p).entries[v].pAddr;
      && NotFree(s, f) && (exists i :: HeldBy(s, f, i))
      && (forall path :: path in TableOf(s, q).dirs ==> TableOf(s, q).dirs[path] != f)
      && (w in TableOf(s, q).entries && TableOf(s, q).entries[w].pAddr == f ==> p == q && v == w)
  {
    if v in TableOf(s, p).entries {
      var x := Slot(p, PathOf(v, s.pageSize));
      LevelsApart(s.tables[p], s.pageSize, x.path);
      var f := s.tables[p].entries[v].pAddr;
      assert InUse(s, x) && FrameAt(s, x) == f;
      forall path | path in TableOf(s, q).dirs
        ensures TableOf(s, q).dirs[path] != f
      {
        assert InUse(s, Slot(q, path)) && FrameAt(s, Slot(q, path)) == s.tables[q].dirs[path];
      }
      if w in TableOf(s, q).entries && TableOf(s, q).entries[w].pAddr == f {
        var y := Slot(q, PathOf(w, s.pageSize));
        LevelsApart(s.tables[q], s.pageSize, y.path);
        assert InUse(s, y) && FrameAt(s, y) == f;
        PathInjective(v, w, s.pageSize);
      }
    }
  }

  // ----- lost frames stay lost -----

  lemma PlaceStaysLost(s: State, pid: nat, id: nat, vAddr: nat, frame: nat, hand: set<nat>, f: nat)
    requires Placeable(s, pid, id, vAddr, frame, hand) && PlacePage(s, pid, id, vAddr, frame).Done?
    requires Lost(s, f) && f !in hand
    ensures Lost(PlacePage(s, pid, id, vAddr, frame).value, f)
  {
    PlaceFaults(s, pid, id, vAddr, frame, hand);
    var u := PlacePage(s, pid, id, vAddr, frame).value;
    StillNotFree(s, u, id, f);
    forall x | InUse(u, x)
      ensures FrameAt(u, x) != f
    {
      SlotOrigin(s, pid, id, vAddr, frame, hand, x);
      assert f !in s.devices[id].free;
    }
  }

  lemma {:induction false} PlacePagesStayLost(s: State, pid: nat, id: nat, vAddr: nat, frames: seq<nat>, f: nat)
    requires Owned(s, Hand(frames)) && Distinct(frames) && id in s.devices
    requires forall g :: g in frames ==> OnDevice(s.devices[id], g)
    requires Vacant(s, pid, vAddr, |frames|)
    requires PlacePages(s, pid, id, vAddr, frames).Done? && Lost(s, f) && f !in frames
    ensures Lost(PlacePages(s, pid, id, vAddr, frames).value, f)
    decreases |frames|
  {
    hide Owned, PlacePage, Vacant, TableOf, Lost;
    if frames != [] {
      FirstOfRun(s, pid, id, vAddr, frames);
      var r := PlacePage(s, pid, id, vAddr, frames[0]);
      assert Placeable(s, pid, id, vAddr, frames[0], Hand(frames)) by {
        VacantFirst(s, pid, vAddr, |frames|);
      }
      PlaceStaysLost(s, pid, id, vAddr, frames[0], Hand(frames), f);
      HandRest(frames);
      PlacePagesStayLost(r.value, pid, id, vAddr + s.pageSize, frames[1..], f);
    }
  }

  lemma VacantFirst(s: State, pid: nat, vAddr: nat, n: nat)
    requires s.pageSize > 0 && Vacant(s, pid, vAddr, n) && n > 0
    ensures Addressable(vAddr, s.pageSize) && vAddr !in TableOf(s, pid).entries
  {
  }

  lemma TakeStaysLost(s: State, id: nat, n: nat, f: nat)
    requires id in s.devices && TakeFrames(s, id, n).Done? && Lost(s, f)
    ensures Lost(TakeFrames(s, id, n).value.0, f) && f !in TakeFrames(s, id, n).value.1
  {
    var (t, frames) := TakeFrames(s, id, n).value;
    var free := s.devices[id].free;
    assert f !in free;
    assert forall g :: g in free[n..] ==> g in free;
    StillNotFree(s, t, id, f);
    forall x | InUse(t, x)
      ensures FrameAt(t, x) != f
    {
      assert InUse(s, x) && FrameAt(s, x) == FrameAt(t, x);
    }
  }

  lemma SameLost(s: State, u: State, f: nat)
    requires Lost(s, f) && u == s.(cursors := u.cursors)
    ensures Lost(u, f)
  {
    assert NotFree(u, f);
    forall x | InUse(u, x)
      ensures FrameAt(u, x) != f
    {
      assert InUse(s, x) && FrameAt(s, x) == FrameAt(u, x);
    }
  }

  lemma RegisterStaysLost(s: State, id: nat, count: nat, f: nat)
    requires Lost(s, f) && id !in s.devices && s.pageSize > 0
    ensures Lost(Register(s, id, count), f)
  {
    var u := Register(s, id, count);
    Powers.MulNat(count, s.pageSize);
    FramesDistinct(s.total, count, s.pageSize);
    OffDevice(u.devices[id], f);
    forall x | InUse(u, x)
      ensures FrameAt(u, x) != f
    {
      assert InUse(s, x) && FrameAt(s, x) == FrameAt(u, x);
    }
  }

  lemma RemoveStaysLost(s: State, pid: nat, vAddr: nat, id: nat, f: nat)
    requires Inv(s) && id in s.devices && Lost(s, f) && RemoveTo(s, pid, vAddr, id).Done?
    ensures Lost(RemoveTo(s, pid, vAddr, id).value, f)
  {
    var u := RemoveTo(s, pid, vAddr, id).value;
    var aligned := AlignToPage(vAddr, s.pageSize);
    var x := Slot(pid, PathOf(aligned, s.pageSize));
    LevelsApart(s.tables[pid], s.pageSize, x.path);
    assert InUse(s, x) && FrameAt(s, x) == s.tables[pid].entries[aligned].pAddr;
    forall y | InUse(u, y)
      ensures FrameAt(u, y) != f
    {
      assert InUse(s, y) && FrameAt(s, y) == FrameAt(u, y);
    }
    forall i | i in u.devices
      ensures f !in u.devices[i].free
    {
      assert f !in s.devices[i].free;
    }
  }

  lemma AllocateStaysLost(s: State, pid: nat, id: nat, n: nat, f: nat)
    requires Inv(s) && id in s.devices && Vpn(Cursor(s, pid), s.pageSize) + n <= Power(LEVELS)
    requires Lost(s, f) && AllocatePages(s, pid, id, n).Done?
    ensures Lost(AllocatePages(s, pid, id, n).value, f)
  {
    hide Owned, PlacePages, Vacant, TableOf, TakeFrames, Lost;
    var start := Cursor(s, pid);
    CursorVacant(s, pid, n);
    TakeShape(s, id, n);
    var (s1, frames) := TakeFrames(s, id, n).value;
    TakeOwned(s, id, n);
    assert Hand(frames) == set f | f in frames;
    SameVacancy(s, s1, pid, start, n);
    assert Distinct(frames) && |frames| == n;
    TakeStaysLost(s, id, n, f);
    PlacePagesStayLost(s1, pid, id, start, frames, f);
    SameLost(PlacePages(s1, pid, id, start, frames).value, AllocatePages(s, pid, id, n).value, f);
  }

  lemma MoveToStaysLost(s: State, pid: nat, vAddrs: seq<nat>, id: nat, f: nat)
    requires Inv(s) && id in s.devices && Distinct(vAddrs)
    requires Lost(s, f) && MoveTo(s, pid, vAddrs, id).Done?
    ensures Lost(MoveTo(s, pid, vAddrs, id).value, f)
  {
    hide Owned, TableOf, TakeFrames, Lost, MovePages;
    OwnedParts(s, {});
    TakenForMove(s, pid, id, vAddrs);
    TakeStaysLost(s, id, |vAddrs|, f);
    var (s1, frames) := TakeFrames(s, id, |vAddrs|).value;
    OwnedParts(s1, Hand(frames));
    TakeShape(s, id, |vAddrs|);
    MovePagesLose(s1, pid, id, vAddrs, frames, f);
  }

  lemma StepStaysLost(s: State, op: Op, f: nat)
    requires Inv(s) && Lost(s, f) && s.pageSize > 0 && Step(s, op).Done?
    ensures Lost(Step(s, op).value, f)
  {
    hide Owned, CursorsOk, TableOf, Lost, RemoveTo, MoveTo, AllocatePages, Register;
    match op
    case RegisterDevice(id, pages) =>
      RegisterStaysLost(s, id, pages, f);
    case AllocateVirtualChunk(pid, byteSize, id) =>
      AllocateStaysLost(s, pid, id, PagesFor(byteSize, s.pageSize), f);
    case Remap(pid, vAddr, byteSize, id) =>
      PageAddrsAt(vAddr, vAddr + byteSize, s.pageSize);
      MoveToStaysLost(s, pid, PageAddrs(vAddr, vAddr + byteSize, s.pageSize), id, f);
    case AllocatePageWithGivenVAddr(pid, id, vAddr) =>
      MoveToStaysLost(s, pid, [vAddr], id, f);
    case RemovePage(pid, vAddr) =>
      var page := RadixTable.Find(TableOf(s, pid), AlignToPage(vAddr, s.pageSize)).value;
      forall id | HeldBy(s, page.pAddr, id)
        ensures RemoveTo(s, pid, vAddr, id).Done? ==> Lost(RemoveTo(s, pid, vAddr, id).value, f)
      {
        if RemoveTo(s, pid, vAddr, id).Done? {
          RemoveStaysLost(s, pid, vAddr, id, f);
        }
      }
  }

  /** A frame that a remapped page leaves is never handed out again, whatever the allocator is asked. */
  lemma {:induction false} RemapLosesFramesForGood(s: State, ops: seq<Op>, f: nat)
    requires Inv(s) && Lost(s, f)
    ensures s.pageSize > 0
    ensures Run(s, ops).Done? ==> Lost(Run(s, ops).value, f)
    decreases |ops|
  {
    hide Inv, Step, Lost;
    InitialOk(s);
    if ops != [] && Step(s, ops[0]).Done? {
      StepKeepsInv(s, ops[0]);
      StepStaysLost(s, ops[0], f);
      RemapLosesFramesForGood(Step(s, ops[0]).value, ops[1..], f);
    }
  }
}
