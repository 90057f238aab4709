/**
 What becomes of a device's page frames: each stays on a free list or in use exactly as long as no page
 is moved, and the page tables they are spent on can be walked in memory.
 */
module FrameAccounting {
  import opened RadixTable
  import opened FrameAllocator
  import PageWalk
  import Powers

  predicate Aligned(f: nat, pageSize: nat)
    requires pageSize > 0
  {
    f % pageSize == 0
  }

  /** One of the page frames that the device was registered with. */
  predicate PageFrame(s: State, id: nat, f: nat)
    requires s.pageSize > 0
  {
    HeldBy(s, f, id) && Aligned(f, s.pageSize)
  }

  ghost predicate Used(s: State, f: nat)
  {
    exists x {:trigger FrameAt(s, x)} :: InUse(s, x) && FrameAt(s, x) == f
  }

  /** On a free list, in hand, or the frame of a directory or page. */
  ghost predicate Accounted(s: State, hand: set<nat>, f: nat)
  {
    !NotFree(s, f) || f in hand || Used(s, f)
  }

  /** No page frame of any device is missing. */
  ghost predicate Kept(s: State, hand: set<nat>)
    requires s.pageSize > 0
  {
    forall id, f {:trigger PageFrame(s, id, f)} :: PageFrame(s, id, f) ==> Accounted(s, hand, f)
  }

  /** Frames are whole pages above the null page, and every page table has its root. */
  ghost predicate Regular(s: State, hand: set<nat>)
    requires s.pageSize > 0
  {
    && Aligned(s.total, s.pageSize) && s.total > 0
    && (forall i {:trigger s.devices[i]} :: i in s.devices ==> Aligned(s.devices[i].initial, s.pageSize) && s.devices[i].initial > 0)
    && (forall i, f {:trigger f in s.devices[i].free} :: i in s.devices && f in s.devices[i].free ==> Aligned(f, s.pageSize))
    && (forall x {:trigger FrameAt(s, x)} :: InUse(s, x) ==> Aligned(FrameAt(s, x), s.pageSize))
    && (forall f :: f in hand ==> Aligned(f, s.pageSize))
    && (forall pid {:trigger s.tables[pid]} :: pid in s.tables ==> [] in s.tables[pid].dirs)
  }

  /** Devices keep their ranges, and none disappears. */
  ghost predicate RangesStay(s: State, u: State)
  {
    && u.pageSize == s.pageSize
    && forall i {:trigger u.devices[i]} {:trigger s.devices[i]} :: i in s.devices ==>
         i in u.devices && u.devices[i].initial == s.devices[i].initial && u.devices[i].size == s.devices[i].size
  }

  // ----- placing a page -----

  /** Every address popped for a new directory is the address of one. */
  lemma {:induction false} PoppedIsUsed(dirs: map<Path, nat>, path: Path, k: nat, supply: seq<nat>, n: nat) returns (j: nat)
    requires k <= |path| && n < Missing(dirs, path, k) <= |supply|
    ensures j < k && path[..j] !in dirs && Grow(dirs, path, k, supply)[path[..j]] == supply[n]
    decreases k
  {
    if n < Missing(dirs, path, k - 1) {
      j := PoppedIsUsed(dirs, path, k - 1, supply, n);
      assert path[..j] != path[..k - 1];
    } else {
      j := k - 1;
    }
  }

  lemma PlaceStays(s: State, pid: nat, id: nat, vAddr: nat, frame: nat)
    requires s.pageSize > 0 && id in s.devices && PlacePage(s, pid, id, vAddr, frame).Done?
    ensures RangesStay(s, PlacePage(s, pid, id, vAddr, frame).value)
  {
  }

  lemma PlaceRegular(s: State, pid: nat, id: nat, vAddr: nat, frame: nat, hand: set<nat>)
    requires Placeable(s, pid, id, vAddr, frame, hand) && PlacePage(s, pid, id, vAddr, frame).Done? && Regular(s, hand)
    ensures PlacePage(s, pid, id, vAddr, frame).value.pageSize == s.pageSize
    ensures Regular(PlacePage(s, pid, id, vAddr, frame).value, hand - {frame})
  {
    hide Owned, Aligned, PlacePage, Valid;
    PlaceFaults(s, pid, id, vAddr, frame, hand);
    var u := PlacePage(s, pid, id, vAddr, frame).value;
    var path := PathOf(vAddr, s.pageSize);
    forall x | InUse(u, x)
      ensures Aligned(FrameAt(u, x), s.pageSize)
    {
      SlotOrigin(s, pid, id, vAddr, frame, hand, x);
      var f := FrameAt(u, x);
      assert (InUse(s, x) && f == FrameAt(s, x)) || f == frame || f in s.devices[id].free;
    }
    assert path[..0] == [];
    forall i, f | i in u.devices && f in u.devices[i].free
      ensures Aligned(f, s.pageSize)
    {
      assert f in s.devices[i].free;
    }
  }

  /** A slot that was in use keeps its frame. */
  lemma SlotStays(s: State, pid: nat, id: nat, vAddr: nat, frame: nat, hand: set<nat>, x: Slot)
    requires Placeable(s, pid, id, vAddr, frame, hand) && PlacePage(s, pid, id, vAddr, frame).Done? && InUse(s, x)
    ensures InUse(PlacePage(s, pid, id, vAddr, frame).value, x)
    ensures FrameAt(PlacePage(s, pid, id, vAddr, frame).value, x) == FrameAt(s, x)
  {
    PlaceFaults(s, pid, id, vAddr, frame, hand);
    var u := PlacePage(s, pid, id, vAddr, frame).value;
    if x.pid == pid {
      LevelsApart(s.tables[pid], s.pageSize, x.path);
      LevelsApart(u.tables[pid], s.pageSize, x.path);
    }
  }

  /** The page's own frame and the frames popped for directories are in use afterwards. */
  lemma TakenAreUsed(s: State, pid: nat, id: nat, vAddr: nat, frame: nat, hand: set<nat>)
    requires Placeable(s, pid, id, vAddr, frame, hand) && PlacePage(s, pid, id, vAddr, frame).Done?
    ensures var u := PlacePage(s, pid, id, vAddr, frame).value;
      && Used(u, frame) && id in u.devices
      && (forall f :: f in s.devices[id].free && f !in u.devices[id].free ==> Used(u, f))
  {
    PlaceFaults(s, pid, id, vAddr, frame, hand);
    var u := PlacePage(s, pid, id, vAddr, frame).value;
    var dirs, path, free := TableOf(s, pid).dirs, PathOf(vAddr, s.pageSize), s.devices[id].free;
    var x := Slot(pid, path);
    LevelsApart(u.tables[pid], s.pageSize, path);
    assert InUse(u, x) && FrameAt(u, x) == frame;
    forall f | f in free && f !in u.devices[id].free
      ensures Used(u, f)
    {
      var n :| 0 <= n < |free| && free[n] == f;
      var used := Missing(dirs, path, LEVELS);
      assert forall k :: used <= k < |free| ==> free[k] in free[used..];
      var j := PoppedIsUsed(dirs, path, LEVELS, free, n);
      var y := Slot(pid, path[..j]);
      assert InUse(u, y) && FrameAt(u, y) == f;
    }
  }

  lemma PlaceKeeps(s: State, pid: nat, id: nat, vAddr: nat, frame: nat, hand: set<nat>)
    requires Placeable(s, pid, id, vAddr, frame, hand) && PlacePage(s, pid, id, vAddr, frame).Done? && Kept(s, hand)
    ensures PlacePage(s, pid, id, vAddr, frame).value.pageSize == s.pageSize
    ensures Kept(PlacePage(s, pid, id, vAddr, frame).value, hand - {frame})
  {
    hide Owned, Aligned, PlacePage;
    PlaceStays(s, pid, id, vAddr, frame);
    TakenAreUsed(s, pid, id, vAddr, frame, hand);
    var u := PlacePage(s, pid, id, vAddr, frame).value;
    forall i, f | PageFrame(u, i, f)
      ensures Accounted(u, hand - {frame}, f)
    {
      OtherDevices(s, pid, id, vAddr, frame);
      assert PageFrame(s, i, f);
      if Used(s, f) {
        var x :| InUse(s, x) && FrameAt(s, x) == f;
        SlotStays(s, pid, id, vAddr, frame, hand, x);
      } else if !NotFree(s, f) {
        var j :| j in s.devices && f in s.devices[j].free;
        assert j != id ==> u.devices[j] == s.devices[j];
      }
    }
  }

  lemma OtherDevices(s: State, pid: nat, id: nat, vAddr: nat, frame: nat)
    requires s.pageSize > 0 && id in s.devices && PlacePage(s, pid, id, vAddr, frame).Done?
    ensures var u := PlacePage(s, pid, id, vAddr, frame).value;
      u.devices.Keys == s.devices.Keys && forall j :: j in s.devices && j != id ==> u.devices[j] == s.devices[j]
  {
  }

  lemma StaysTrans(s: State, m: State, u: State)
    requires RangesStay(s, m) && RangesStay(m, u)
    ensures RangesStay(s, u)
  {
  }

  lemma {:induction false} PlacePagesKeep(s: State, pid: nat, id: nat, vAddr: nat, frames: seq<nat>)
    requires Owned(s, Hand(frames)) && Distinct(frames) && id in s.devices
    requires forall g :: g in frames ==> OnDevice(s.devices[id], g)
    requires s.pageSize > 0 && Vacant(s, pid, vAddr, |frames|)
    requires PlacePages(s, pid, id, vAddr, frames).Done? && Regular(s, Hand(frames))
    ensures var u := PlacePages(s, pid, id, vAddr, frames).value;
      && RangesStay(s, u) && Regular(u, {}) && (Kept(s, Hand(frames)) ==> Kept(u, {}))
    decreases |frames|
  {
    hide Owned, PlacePage, Vacant, TableOf, Regular, Kept;
    if frames == [] {
      assert Hand(frames) == {};
    } else {
      FirstOfRun(s, pid, id, vAddr, frames);
      var m := PlacePage(s, pid, id, vAddr, frames[0]).value;
      assert Placeable(s, pid, id, vAddr, frames[0], Hand(frames)) by {
        VacantFirst(s, pid, vAddr, |frames|);
      }
      PlaceStays(s, pid, id, vAddr, frames[0]);
      PlaceRegular(s, pid, id, vAddr, frames[0], Hand(frames));
      HandRest(frames);
      PlacePagesKeep(m, pid, id, vAddr + s.pageSize, frames[1..]);
      StaysTrans(s, m, PlacePages(s, pid, id, vAddr, frames).value);
      if Kept(s, Hand(frames)) {
        PlaceKeeps(s, pid, id, vAddr, frames[0], Hand(frames));
      }
    }
  }

  // ----- the other steps -----

  lemma TakeKeeps(s: State, id: nat, n: nat)
    requires s.pageSize > 0 && id in s.devices && TakeFrames(s, id, n).Done? && Regular(s, {})
    ensures var (u, frames) := TakeFrames(s, id, n).value;
      && RangesStay(s, u) && Regular(u, Hand(frames)) && (Kept(s, {}) ==> Kept(u, Hand(frames)))
  {
    hide Aligned;
    var (u, frames) := TakeFrames(s, id, n).value;
    var free := s.devices[id].free;
    assert forall f :: f in free <==> f in free[..n] || f in free[n..] by {
      assert free == free[..n] + free[n..];
    }
    forall x | InUse(u, x)
      ensures InUse(s, x) && FrameAt(u, x) == FrameAt(s, x)
    {
    }
    if Kept(s, {}) {
      forall i, f | PageFrame(u, i, f)
        ensures Accounted(u, Hand(frames), f)
      {
        assert PageFrame(s, i, f);
        if Used(s, f) {
          var x :| InUse(s, x) && FrameAt(s, x) == f;
          assert InUse(u, x) && FrameAt(u, x) == f;
        } else {
          var j :| j in s.devices && f in s.devices[j].free;
          assert j != id ==> u.devices[j] == s.devices[j];
        }
      }
    }
  }

  lemma CursorKeeps(s: State, u: State)
    requires s.pageSize > 0 && u == s.(cursors := u.cursors) && Regular(s, {})
    ensures RangesStay(s, u) && Regular(u, {}) && (Kept(s, {}) ==> Kept(u, {}))
  {
    hide Aligned;
    forall x | InUse(u, x) || InUse(s, x)
      ensures InUse(s, x) && InUse(u, x) && FrameAt(u, x) == FrameAt(s, x)
    {
    }
    if Kept(s, {}) {
      forall i, f | PageFrame(u, i, f)
        ensures Accounted(u, {}, f)
      {
        assert PageFrame(s, i, f);
        if Used(s, f) {
          var x :| InUse(s, x) && FrameAt(s, x) == f;
          assert InUse(u, x) && FrameAt(u, x) == f;
        }
      }
    }
  }

  lemma AllocateKeeps(s: State, pid: nat, id: nat, n: nat)
    requires Inv(s) && id in s.devices && Vpn(Cursor(s, pid), s.pageSize) + n <= Power(LEVELS)
    requires Regular(s, {}) && AllocatePages(s, pid, id, n).Done?
    ensures var u := AllocatePages(s, pid, id, n).value;
      RangesStay(s, u) && Regular(u, {}) && (Kept(s, {}) ==> Kept(u, {}))
  {
    hide Owned, PlacePages, Vacant, TableOf, TakeFrames, Regular, Kept;
    var start := Cursor(s, pid);
    CursorVacant(s, pid, n);
    TakeShape(s, id, n);
    var (s1, frames) := TakeFrames(s, id, n).value;
    TakeOwned(s, id, n);
    assert Hand(frames) == set f | f in frames;
    SameVacancy(s, s1, pid, start, n);
    assert Distinct(frames) && |frames| == n;
    TakeKeeps(s, id, n);
    PlacePagesKeep(s1, pid, id, start, frames);
    var s2 := PlacePages(s1, pid, id, start, frames).value;
    CursorKeeps(s2, AllocatePages(s, pid, id, n).value);
    StaysTrans(s, s1, s2);
    StaysTrans(s, s2, AllocatePages(s, pid, id, n).value);
  }

  lemma SumAligned(a: nat, i: nat, pageSize: nat)
    requires pageSize > 0 && Aligned(a, pageSize)
    ensures i * pageSize >= 0 && Aligned(a + i * pageSize, pageSize)
  {
    Powers.MulNat(i, pageSize);
    Powers.DivMod(a, pageSize);
    var q := a / pageSize;
    assert a + i * pageSize == (q + i) * pageSize;
    Powers.DivModUnique(a + i * pageSize, pageSize, q + i, 0);
  }

  /** Every page frame of a range is among the frames that its list is filled with. */
  lemma FramesCover(initial: nat, count: nat, pageSize: nat, f: nat)
    requires pageSize > 0 && Aligned(initial, pageSize) && Aligned(f, pageSize)
    requires initial <= f && f < initial + count * pageSize
    ensures f in Frames(initial, count, pageSize)
  {
    Powers.DivMod(initial, pageSize);
    Powers.DivMod(f, pageSize);
    var i := f / pageSize - initial / pageSize;
    assert f - initial == i * pageSize;
    FactorBelow(-1, i, pageSize);
    FactorBelow(i, count, pageSize);
    assert Frames(initial, count, pageSize)[i] == f;
  }

  lemma RegisterKeeps(s: State, id: nat, count: nat)
    requires Inv(s) && s.pageSize > 0 && id !in s.devices && Regular(s, {})
    ensures var u := Register(s, id, count);
      RangesStay(s, u) && Regular(u, {}) && (Kept(s, {}) ==> Kept(u, {}))
  {
    hide Aligned, Owned;
    var u := Register(s, id, count);
    var fs := Frames(s.total, count, s.pageSize);
    SumAligned(s.total, count, s.pageSize);
    forall i, f | i in u.devices && f in u.devices[i].free
      ensures Aligned(f, s.pageSize)
    {
      if i == id {
        var k :| 0 <= k < |fs| && fs[k] == f;
        SumAligned(s.total, k, s.pageSize);
      } else {
        assert f in s.devices[i].free;
      }
    }
    forall x | InUse(u, x) || InUse(s, x)
      ensures InUse(s, x) && InUse(u, x) && FrameAt(u, x) == FrameAt(s, x)
    {
    }
    assert Regular(u, {});
    if Kept(s, {}) {
      forall i, f | PageFrame(u, i, f)
        ensures Accounted(u, {}, f)
      {
        if i == id {
          FramesCover(s.total, count, s.pageSize, f);
          assert f in u.devices[id].free;
        } else {
          assert PageFrame(s, i, f);
          if Used(s, f) {
            var x :| InUse(s, x) && FrameAt(s, x) == f;
            assert InUse(u, x) && FrameAt(u, x) == f;
          } else {
            var j :| j in s.devices && f in s.devices[j].free;
            assert f in u.devices[j].free;
          }
        }
      }
    }
  }

  /** What removing a page changes: its slot goes, and its frame comes back to the list. */
  ghost predicate Returned(s: State, u: State, pid: nat, id: nat, gone: Slot, back: nat)
  {
    && id in s.devices && InUse(s, gone) && FrameAt(s, gone) == back && gone.pid == pid
    && gone.path !in s.tables[pid].dirs && u.pageSize == s.pageSize && u.total == s.total
    && u.devices == s.devices[id := s.devices[id].(free := s.devices[id].free + [back])]
    && pid in u.tables && u.tables == s.tables[pid := u.tables[pid]]
    && u.tables[pid].dirs == s.tables[pid].dirs && u.tables[pid].pages == s.tables[pid].pages - {gone.path}
  }

  lemma RemoveReturns(s: State, pid: nat, vAddr: nat, id: nat) returns (gone: Slot, back: nat)
    requires Inv(s) && id in s.devices && RemoveTo(s, pid, vAddr, id).Done?
    ensures Returned(s, RemoveTo(s, pid, vAddr, id).value, pid, id, gone, back)
  {
    var aligned := AlignToPage(vAddr, s.pageSize);
    gone := Slot(pid, PathOf(aligned, s.pageSize));
    LevelsApart(s.tables[pid], s.pageSize, gone.path);
    back := s.tables[pid].entries[aligned].pAddr;
  }

  lemma RemoveKeeps(s: State, pid: nat, vAddr: nat, id: nat)
    requires Inv(s) && id in s.devices && RemoveTo(s, pid, vAddr, id).Done? && Regular(s, {})
    ensures var u := RemoveTo(s, pid, vAddr, id).value;
      RangesStay(s, u) && Regular(u, {}) && (Kept(s, {}) ==> Kept(u, {}))
  {
    hide Owned, Regular, Kept, Returned, RemoveTo;
    OwnedParts(s, {});
    var u := RemoveTo(s, pid, vAddr, id).value;
    var gone, back := RemoveReturns(s, pid, vAddr, id);
    ReturnRegular(s, u, pid, id, gone, back);
    if Kept(s, {}) {
      ReturnKeeps(s, u, pid, id, gone, back);
    }
  }

  lemma ReturnRegular(s: State, u: State, pid: nat, id: nat, gone: Slot, back: nat)
    requires s.pageSize > 0 && Regular(s, {}) && Returned(s, u, pid, id, gone, back)
    ensures RangesStay(s, u) && Regular(u, {})
  {
    hide Aligned;
    forall x | InUse(u, x)
      ensures InUse(s, x) && FrameAt(u, x) == FrameAt(s, x)
    {
    }
    forall i, f | i in u.devices && f in u.devices[i].free
      ensures Aligned(f, s.pageSize)
    {
      assert f in s.devices[i].free || f == back;
    }
  }

  lemma ReturnKeeps(s: State, u: State, pid: nat, id: nat, gone: Slot, back: nat)
    requires s.pageSize > 0 && Kept(s, {}) && Returned(s, u, pid, id, gone, back)
    ensures u.pageSize == s.pageSize && Kept(u, {})
  {
    hide Aligned;
    forall i, f | PageFrame(u, i, f)
      ensures Accounted(u, {}, f)
    {
      assert PageFrame(s, i, f);
      if f == back {
        assert f in u.devices[id].free;
      } else if Used(s, f) {
        var x :| InUse(s, x) && FrameAt(s, x) == f;
        assert InUse(u, x) && FrameAt(u, x) == f;
      } else {
        var j :| j in s.devices && f in s.devices[j].free;
        assert f in u.devices[j].free;
      }
    }
  }

  // ----- moving pages -----

  lemma {:induction false} MovePagesRegular(s: State, pid: nat, id: nat, vAddrs: seq<nat>, frames: seq<nat>)
    requires Owned(s, Hand(frames)) && Distinct(frames) && Distinct(vAddrs) && |frames| == |vAddrs|
    requires forall f :: f in frames ==> HeldBy(s, f, id)
    requires s.pageSize > 0 && MovePages(s, pid, id, vAddrs, frames).Done? && Regular(s, Hand(frames))
    ensures var u := MovePages(s, pid, id, vAddrs, frames).value;
      RangesStay(s, u) && Regular(u, {})
    decreases |vAddrs|
  {
    hide Owned, MovePage, TableOf, Regular;
    if vAddrs == [] {
      assert Hand(frames) == {};
    } else {
      FirstMove(s, pid, id, vAddrs, frames);
      var m := MovePage(s, pid, id, vAddrs[0], frames[0]).value;
      MoveRegular(s, pid, id, vAddrs[0], frames[0], Hand(frames));
      HandRest(frames);
      HandRest(vAddrs);
      MovePagesRegular(m, pid, id, vAddrs[1..], frames[1..]);
    }
  }

  lemma MoveRegular(s: State, pid: nat, id: nat, vAddr: nat, frame: nat, hand: set<nat>)
    requires Owned(s, hand) && frame in hand && pid in s.tables && s.pageSize > 0
    requires MovePage(s, pid, id, vAddr, frame).Done? && Regular(s, hand)
    ensures MovePage(s, pid, id, vAddr, frame).value.pageSize == s.pageSize
    ensures Regular(MovePage(s, pid, id, vAddr, frame).value, hand - {frame})
  {
    hide Aligned;
    var u := MovePage(s, pid, id, vAddr, frame).value;
    forall x | InUse(u, x)
      ensures Aligned(FrameAt(u, x), s.pageSize)
    {
      MovedSlot(s, pid, id, vAddr, frame, x);
    }
  }

  lemma MoveToRegular(s: State, pid: nat, vAddrs: seq<nat>, id: nat)
    requires Inv(s) && id in s.devices && Distinct(vAddrs) && MoveTo(s, pid, vAddrs, id).Done? && Regular(s, {})
    ensures var u := MoveTo(s, pid, vAddrs, id).value; RangesStay(s, u) && Regular(u, {})
  {
    hide Owned, TableOf, TakeFrames, MovePages, Regular, Kept;
    OwnedParts(s, {});
    TakenForMove(s, pid, id, vAddrs);
    TakeKeeps(s, id, |vAddrs|);
    var (s1, frames) := TakeFrames(s, id, |vAddrs|).value;
    MovePagesRegular(s1, pid, id, vAddrs, frames);
    StaysTrans(s, s1, MoveTo(s, pid, vAddrs, id).value);
  }

  /** Moving nothing changes nothing. */
  lemma MoveNothing(s: State, pid: nat, id: nat)
    requires s.pageSize > 0 && id in s.devices && MoveTo(s, pid, [], id).Done?
    ensures MoveTo(s, pid, [], id).value == s
  {
    var free := s.devices[id].free;
    assert free[0..] == free;
    var u := TakeFrames(s, id, 0).value.0;
    assert u.devices == s.devices;
  }

  /** The frame of the first page that is moved: afterwards it is a page frame of its device, and lost. */
  lemma MoveLosesOne(s: State, pid: nat, vAddrs: seq<nat>, id: nat) returns (i: nat, f: nat)
    requires Inv(s) && id in s.devices && Distinct(vAddrs) && vAddrs != [] && MoveTo(s, pid, vAddrs, id).Done? && Regular(s, {})
    ensures var u := MoveTo(s, pid, vAddrs, id).value;
      u.pageSize > 0 && PageFrame(u, i, f) && Lost(u, f)
  {
    hide Aligned, MoveTo, Lost;
    MoveToKeepsInv(s, pid, vAddrs, id);
    MoveToRegular(s, pid, vAddrs, id);
    assert vAddrs[0] in TableOf(s, pid).entries;
    var x := Slot(pid, PathOf(vAddrs[0], s.pageSize));
    LevelsApart(s.tables[pid], s.pageSize, x.path);
    f := s.tables[pid].entries[vAddrs[0]].pAddr;
    assert InUse(s, x) && FrameAt(s, x) == f;
    i :| HeldBy(s, f, i);
  }

  // ----- every run -----

  /** The calls that give a mapped page another frame. */
  predicate Moves(op: Op)
  {
    (op.Remap? && op.byteSize > 0) || op.AllocatePageWithGivenVAddr?
  }

  lemma StepRegular(s: State, op: Op)
    requires Inv(s) && s.pageSize > 0 && Step(s, op).Done? && Regular(s, {})
    ensures RangesStay(s, Step(s, op).value) && Regular(Step(s, op).value, {})
    ensures !Moves(op) && Kept(s, {}) ==> Kept(Step(s, op).value, {})
  {
    hide Owned, CursorsOk, TableOf, RemoveTo, MoveTo, AllocatePages, Register, Regular, Kept;
    match op
    case RegisterDevice(id, pages) =>
      RegisterKeeps(s, id, pages);
    case AllocateVirtualChunk(pid, byteSize, id) =>
      AllocateKeeps(s, pid, id, PagesFor(byteSize, s.pageSize));
    case Remap(pid, vAddr, byteSize, id) =>
      PageAddrsAt(vAddr, vAddr + byteSize, s.pageSize);
      MoveToRegular(s, pid, PageAddrs(vAddr, vAddr + byteSize, s.pageSize), id);
      if byteSize == 0 {
        MoveNothing(s, pid, id);
      }
    case AllocatePageWithGivenVAddr(pid, id, vAddr) =>
      MoveToRegular(s, pid, [vAddr], id);
    case RemovePage(pid, vAddr) =>
      var page := RadixTable.Find(TableOf(s, pid), AlignToPage(vAddr, s.pageSize)).value;
      forall id | HeldBy(s, page.pAddr, id)
        ensures RemoveTo(s, pid, vAddr, id).Done? ==>
          var u := RemoveTo(s, pid, vAddr, id).value;
          RangesStay(s, u) && Regular(u, {}) && (Kept(s, {}) ==> Kept(u, {}))
      {
        if RemoveTo(s, pid, vAddr, id).Done? {
          RemoveKeeps(s, pid, vAddr, id);
        }
      }
  }

  lemma StepLoses(s: State, op: Op) returns (i: nat, f: nat)
    requires Inv(s) && s.pageSize > 0 && Step(s, op).Done? && Regular(s, {}) && Moves(op)
    ensures var u := Step(s, op).value; u.pageSize > 0 && PageFrame(u, i, f) && Lost(u, f)
  {
    hide Owned, CursorsOk, TableOf, MoveTo, Regular, Lost;
    match op
    case Remap(pid, vAddr, byteSize, id) =>
      PageAddrsAt(vAddr, vAddr + byteSize, s.pageSize);
      i, f := MoveLosesOne(s, pid, PageAddrs(vAddr, vAddr + byteSize, s.pageSize), id);
    case AllocatePageWithGivenVAddr(pid, id, vAddr) =>
      i, f := MoveLosesOne(s, pid, [vAddr], id);
  }

  lemma LostIsNotKept(s: State, id: nat, f: nat)
    requires s.pageSize > 0 && PageFrame(s, id, f) && Lost(s, f)
    ensures !Kept(s, {})
  {
    assert !Accounted(s, {}, f);
  }

  lemma {:induction false} RunRegular(s: State, ops: seq<Op>)
    requires Inv(s) && s.pageSize > 0 && Regular(s, {}) && Run(s, ops).Done?
    ensures RangesStay(s, Run(s, ops).value) && Regular(Run(s, ops).value, {})
    decreases |ops|
  {
    hide Inv, Step, Regular;
    if ops != [] {
      StepKeepsInv(s, ops[0]);
      StepRegular(s, ops[0]);
      RunRegular(Step(s, ops[0]).value, ops[1..]);
      StaysTrans(s, Step(s, ops[0]).value, Run(s, ops).value);
    }
  }

  /** A run keeps every frame accounted for exactly when none of its calls moves a page. */
  lemma {:induction false} RunKeepsIff(s: State, ops: seq<Op>)
    requires Inv(s) && s.pageSize > 0 && Regular(s, {}) && Kept(s, {}) && Run(s, ops).Done?
    ensures Run(s, ops).value.pageSize > 0
    ensures Kept(Run(s, ops).value, {}) <==> forall op :: op in ops ==> !Moves(op)
    decreases |ops|
  {
    hide Inv, Step, Regular, Kept, Lost;
    if ops != [] {
      var m := Step(s, ops[0]).value;
      assert ops == [ops[0]] + ops[1..];
      StepKeepsInv(s, ops[0]);
      StepRegular(s, ops[0]);
      if Moves(ops[0]) {
        assert ops[0] in ops;
        var i, f := StepLoses(s, ops[0]);
        RunRegular(m, ops[1..]);
        RemapLosesFramesForGood(m, ops[1..], f);
        LostIsNotKept(Run(s, ops).value, i, f);
      } else {
        RunKeepsIff(m, ops[1..]);
      }
    }
  }

  lemma InitialRegular(pageSize: nat)
    requires pageSize > 0
    ensures Inv(Initial(pageSize)) && Regular(Initial(pageSize), {}) && Kept(Initial(pageSize), {})
  {
    Powers.DivModUnique(pageSize, pageSize, 1, 0);
  }

  /** Over every run from an allocator without devices: no page frame of any device is ever missing
      from both the free lists and the tables if and only if the run has no `Remap` of at least one
      byte and no `AllocatePageWithGivenVAddr`. */
  lemma EveryRunKeepsFramesIff(pageSize: nat, ops: seq<Op>)
    requires pageSize > 0
    ensures var r := Run(Initial(pageSize), ops);
      r.Done? ==> r.value.pageSize == pageSize && (Kept(r.value, {}) <==> forall op :: op in ops ==> !Moves(op))
  {
    hide Inv, Regular, Kept, Run;
    InitialRegular(pageSize);
    var r := Run(Initial(pageSize), ops);
    if r.Done? {
      RunKeepsIff(Initial(pageSize), ops);
      RunRegular(Initial(pageSize), ops);
    }
  }

  // ----- a run that loses a frame -----

  lemma {:induction false} MissingAll(path: Path, k: nat)
    requires k <= |path|
    ensures Missing(map[], path, k) == k
  {
    if k > 0 {
      MissingAll(path, k - 1);
    }
  }

  /** With room for the page and its missing directories, one page can be allocated. */
  lemma OnePageFits(s: State, pid: nat, id: nat)
    requires Inv(s) && s.pageSize > 0 && id in s.devices && Vpn(Cursor(s, pid), s.pageSize) + 1 <= Power(LEVELS)
    requires 1 + Missing(TableOf(s, pid).dirs, PathOf(Cursor(s, pid), s.pageSize), LEVELS) <= |s.devices[id].free|
    ensures var r := AllocatePages(s, pid, id, 1);
      && r.Done? && id in r.value.devices
      && |r.value.devices[id].free|
         == |s.devices[id].free| - 1 - Missing(TableOf(s, pid).dirs, PathOf(Cursor(s, pid), s.pageSize), LEVELS)
  {
    hide Owned, Vacant, Valid, Missing;
    var start := Cursor(s, pid);
    CursorVacant(s, pid, 1);
    TakeShape(s, id, 1);
    TakeOwned(s, id, 1);
    var (t, frames) := TakeFrames(s, id, 1).value;
    assert Hand(frames) == set f | f in frames;
    assert frames[0] in frames;
    SameVacancy(s, t, pid, start, 1);
    VacantFirst(t, pid, start, 1);
    PlaceFaults(t, pid, id, start, frames[0], Hand(frames));
    var m := PlacePage(t, pid, id, start, frames[0]).value;
    assert frames[1..] == [];
    assert PlacePages(t, pid, id, start, frames) == Done(m);
  }

  /** An allocator with one device of six pages: one page and its four directories leave one free. */
  function OneDeviceState(pageSize: nat): State
  {
    Register(Initial(pageSize), 1, 6)
  }

  lemma FirstAllocation(pageSize: nat)
    requires pageSize > 0
    ensures var s := OneDeviceState(pageSize);
      && Inv(s) && s.pageSize == pageSize && 1 in s.devices && Cursor(s, 0) == pageSize
      && Vpn(pageSize, pageSize) + 1 <= Power(LEVELS)
      && var r := AllocatePages(s, 0, 1, 1);
      && r.Done? && Inv(r.value) && r.value.pageSize == pageSize && 1 in r.value.devices && |r.value.devices[1].free| == 1
      && Mapped(r.value, 0, pageSize, pageSize, 1)
  {
    hide Owned, AllocatePages, Mapped;
    InitialRegular(pageSize);
    RegisterInv(Initial(pageSize), 1, 6);
    FirstPage(pageSize);
    var s := OneDeviceState(pageSize);
    MissingAll(PathOf(pageSize, pageSize), LEVELS);
    OnePageFits(s, 0, 1);
    AllocateKeepsInv(s, 0, 1, 1);
    AllocateKeeps(s, 0, 1, 1) by {
      RegisterKeeps(Initial(pageSize), 1, 6);
    }
    assert s.devices[1].free[0] == pageSize;
  }

  lemma FirstPage(pageSize: nat)
    requires pageSize > 0
    ensures Vpn(pageSize, pageSize) == 1 && PagesFor(1, pageSize) == 1 && 2 <= Power(LEVELS)
    ensures PageAddrs(pageSize, pageSize + 1, pageSize) == [pageSize]
  {
    Powers.DivModUnique(pageSize, pageSize, 1, 0);
    Powers.DivModUnique(0, pageSize, 0, 0);
    assert Power(4) == FANOUT * Power(3);
  }

  lemma RunCons(s: State, op: Op, rest: seq<Op>)
    requires s.pageSize > 0 && Step(s, op).Done? && Step(s, op).value.pageSize > 0
    ensures Run(s, [op] + rest) == Run(Step(s, op).value, rest)
  {
    assert ([op] + rest)[1..] == rest;
  }

  /** Register one device, allocate one page, remap it: the page's first frame is lost. */
  lemma RemapLosesAFrame(pageSize: nat)
    requires pageSize > 0
    ensures var r := Run(Initial(pageSize), [RegisterDevice(1, 6), AllocateVirtualChunk(0, 1, 1), Remap(0, pageSize, 1, 1)]);
      r.Done? && r.value.pageSize > 0 && PageFrame(r.value, 1, pageSize) && Lost(r.value, pageSize)
  {
    hide Owned, AllocatePages, Mapped, MoveTo, Lost;
    FirstAllocation(pageSize);
    FirstPage(pageSize);
    var s := OneDeviceState(pageSize);
    var t := AllocatePages(s, 0, 1, 1).value;
    FirstMoveLoses(pageSize, t);
    var allocate, remap := AllocateVirtualChunk(0, 1, 1), Remap(0, pageSize, 1, 1);
    RunCons(t, remap, []);
    RunCons(s, allocate, [remap]);
    RunCons(Initial(pageSize), RegisterDevice(1, 6), [allocate, remap]);
    assert [RegisterDevice(1, 6)] + [allocate, remap] == [RegisterDevice(1, 6), allocate, remap];
    assert [allocate] + [remap] == [allocate, remap] && [remap] + [] == [remap];
  }

  lemma FirstMoveLoses(pageSize: nat, t: State)
    requires pageSize > 0 && AllocatePages(OneDeviceState(pageSize), 0, 1, 1) == Done(t)
    ensures t.pageSize == pageSize && 1 in t.devices
    ensures var r := MoveTo(t, 0, [pageSize], 1);
      r.Done? && r.value.pageSize == pageSize && PageFrame(r.value, 1, pageSize) && Lost(r.value, pageSize)
  {
    hide Owned, AllocatePages, MoveTo, Lost;
    FirstAllocation(pageSize);
    var vAddrs := [pageSize];
    MoveToKeepsInv(t, 0, vAddrs, 1);
    assert Mapped(t, 0, pageSize, pageSize, 1);
    assert vAddrs[0] == pageSize && TableOf(t, 0).entries[vAddrs[0]].pAddr == pageSize;
    var s := OneDeviceState(pageSize);
    InitialRegular(pageSize);
    RegisterKeeps(Initial(pageSize), 1, 6);
    AllocateKeeps(s, 0, 1, 1);
    MoveToRegular(t, 0, [pageSize], 1);
    StaysTrans(s, t, MoveTo(t, 0, [pageSize], 1).value);
    Powers.DivModUnique(pageSize, pageSize, 1, 0);
  }

  // ----- the page tables of a run in memory -----

  lemma TableAligned(f: nat, pageSize: nat)
    requires pageSize > 0 && pageSize % PageWalk.TABLE_BYTES == 0 && Aligned(f, pageSize)
    ensures f % PageWalk.TABLE_BYTES == 0
  {
    Powers.DivMod(f, pageSize);
    Powers.DivMod(pageSize, PageWalk.TABLE_BYTES);
    var q, k := f / pageSize, pageSize / PageWalk.TABLE_BYTES;
    assert f == (q * k) * PageWalk.TABLE_BYTES by {
      assert f == q * (k * PageWalk.TABLE_BYTES);
    }
    Powers.MulNat(q, k);
    Powers.DivModUnique(f, PageWalk.TABLE_BYTES, q * k, 0);
  }

  /** The allocator gives every page table what the walker needs: directories on pages of their own,
      none at address zero, and a root. */
  lemma TablesArePlaced(s: State, pid: nat)
    requires Owned(s, {}) && s.pageSize > 0 && Regular(s, {}) && pid in s.tables && s.pageSize % PageWalk.TABLE_BYTES == 0
    ensures Valid(s.tables[pid], s.pageSize) && PageWalk.Placed(s.tables[pid]) && [] in s.tables[pid].dirs
  {
    hide Valid, Aligned;
    var t := s.tables[pid];
    forall p | p in t.dirs || p in t.pages
      ensures var x := Slot(pid, p); FrameAt(s, x) > 0 && FrameAt(s, x) % PageWalk.TABLE_BYTES == 0
      ensures p in t.pages ==> p !in t.dirs
    {
      var x := Slot(pid, p);
      assert InUse(s, x);
      LevelsApart(t, s.pageSize, p);
      TableAligned(FrameAt(s, x), s.pageSize);
      var i :| HeldBy(s, FrameAt(s, x), i);
    }
    forall p, q | p in t.dirs && q in t.dirs && t.dirs[p] == t.dirs[q]
      ensures p == q
    {
      assert FrameAt(s, Slot(pid, p)) == FrameAt(s, Slot(pid, q));
    }
    forall p | p in t.pages
      ensures t.pages[p].pAddr > 0
    {
      assert FrameAt(s, Slot(pid, p)) == t.pages[p].pAddr;
    }
  }

  /** After every run of the allocator, every process's table, written to memory in any order that
      lists each directory once or more, translates every address there as `find` does. */
  lemma EveryRunTranslates(pageSize: nat, ops: seq<Op>, pid: nat, order: seq<Path>, mem: PageWalk.Memory, vAddr: nat)
    requires pageSize > 0 && pageSize % PageWalk.TABLE_BYTES == 0 && Vpn(vAddr, pageSize) < Power(LEVELS)
    ensures var r := Run(Initial(pageSize), ops);
      r.Done? && pid in r.value.tables && (forall p :: p in order <==> p in r.value.tables[pid].dirs) ==>
        var t := r.value.tables[pid];
        && [] in t.dirs
        && var walk := PageWalk.WalkOf(t, PageWalk.Load(PageWalk.Image(t, order), mem), vAddr, pageSize);
        var found := RadixTable.Find(t, AlignToPage(vAddr, pageSize));
        && (found.Ok? ==> walk[LEVELS - 1].word == found.value.pAddr)
        && (found.Panic? ==> exists l {:trigger walk[l]} :: 0 <= l < LEVELS && walk[l].word == 0)
  {
    hide Inv, Regular, Run, Kept, Valid, PageWalk.Placed, PageWalk.Load, PageWalk.Image;
    InitialRegular(pageSize);
    var r := Run(Initial(pageSize), ops);
    EveryRunKeepsInv(Initial(pageSize), ops);
    if r.Done? && pid in r.value.tables && forall p :: p in order <==> p in r.value.tables[pid].dirs {
      RunRegular(Initial(pageSize), ops);
      TablesArePlaced(r.value, pid) by {
        InvIsOwned(r.value);
      }
      PageWalk.ImageWalkTranslates(r.value.tables[pid], order, mem, vAddr, pageSize);
    }
  }

  lemma InvIsOwned(s: State)
    requires Inv(s)
    ensures Owned(s, {})
  {
  }
}
