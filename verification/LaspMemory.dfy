/** The allocator that spreads data pages over the chiplets and puts table pages beside the data. */
module LaspMemory {
  import opened Placement
  import Powers

  /** The chiplet of a data page, as `allocatePageTablePage` computes it. */
  function ChipletOf(initial: nat, pAddr: nat): nat
    requires initial <= pAddr
  {
    (pAddr - initial) / 4096 % 64 / 16
  }

  /** That formula agrees with the striping of the lists. */
  lemma ChipletAgreesWithStripe(initial: nat, pAddr: nat, i: nat)
    requires initial <= pAddr && (pAddr - initial) % PAGE == 0
    ensures ChipletOf(initial, pAddr) == i <==> OnStripe(initial, i, pAddr)
  {
    var x := pAddr - initial;
    var k, r := x / 4096 / 64, x / 4096 % 64;
    Powers.DivMod(x, 4096);
    Powers.DivMod(x / 4096, 64);
    Powers.DivModUnique(x, 0x40000, k, r * 4096);
    assert r * 4096 / 0x10000 == r / 16;
  }

  /** How many pages of an allocation a chiplet gives. */
  function Share(n: nat, c: nat): nat
  {
    n / 4 + (if c < n % 4 then 1 else 0)
  }

  class LaspMemory {
    var initialAddress: nat
    var storageSize: nat
    var availablePAddrs: seq<seq<nat>>

    constructor (storageSize: nat)
      ensures this.storageSize == storageSize && availablePAddrs == [[], [], [], []]
    {
      this.storageSize, initialAddress := storageSize, 0;
      availablePAddrs := [[], [], [], []];
    }

    /** The lists are filled in whole rounds, so every listed page lies within the device exactly when
        its size is a whole number of rounds. */
    method SetInitialAddress(addr: nat) returns (ghost limit: nat)
      requires availablePAddrs == [[], [], [], []]
      modifies this
      ensures initialAddress == addr && storageSize == old(storageSize)
      ensures |availablePAddrs| == CHIPLETS && forall c :: 0 <= c < CHIPLETS ==> Stripes(availablePAddrs[c], addr, limit, c)
      ensures addr + storageSize <= limit < addr + storageSize + ROUND && (limit - addr) % ROUND == 0
      ensures storageSize % ROUND == 0 <==>
        forall c, p :: 0 <= c < CHIPLETS && p in availablePAddrs[c] ==> p + PAGE <= addr + storageSize
    {
      initialAddress := addr;
      availablePAddrs, limit := FillStripes(addr, addr + storageSize);
      PagesFitIff(availablePAddrs, addr, storageSize, limit);
    }

    method Pop(chiplet: nat) returns (pAddr: nat)
      requires chiplet < |availablePAddrs| && availablePAddrs[chiplet] != []
      modifies this`availablePAddrs
      ensures pAddr == old(availablePAddrs)[chiplet][0]
      ensures availablePAddrs == old(availablePAddrs)[chiplet := old(availablePAddrs)[chiplet][1..]]
    {
      pAddr := availablePAddrs[chiplet][0];
      availablePAddrs := availablePAddrs[chiplet := availablePAddrs[chiplet][1..]];
    }

    /** A page table page on the chiplet of the data page that needs it. */
    method AllocatePageTablePage(pAddr: nat) returns (table: nat)
      requires |availablePAddrs| == CHIPLETS && initialAddress <= pAddr && (pAddr - initialAddress) % PAGE == 0
      requires availablePAddrs[ChipletOf(initialAddress, pAddr)] != []
      modifies this`availablePAddrs
      ensures table == old(availablePAddrs)[ChipletOf(initialAddress, pAddr)][0]
      ensures Left(old(availablePAddrs), initialAddress, initialAddress + storageSize) ==>
        forall i :: OnStripe(initialAddress, i, pAddr) ==> OnStripe(initialAddress, i, table)
      ensures availablePAddrs == old(availablePAddrs)[ChipletOf(initialAddress, pAddr) := old(availablePAddrs)[ChipletOf(initialAddress, pAddr)][1..]]
    {
      var chiplet: nat := (pAddr - initialAddress) / 4096 % 64 / 16;
      assert availablePAddrs[chiplet][0] in availablePAddrs[chiplet];
      ChipletAgreesWithStripe(initialAddress, pAddr, chiplet);
      table := Pop(chiplet);
    }

    method PopRun(chiplet: nat, n: nat) returns (pAddrs: seq<nat>)
      requires chiplet < |availablePAddrs| && n <= |availablePAddrs[chiplet]|
      modifies this`availablePAddrs
      ensures pAddrs == old(availablePAddrs)[chiplet][..n]
      ensures availablePAddrs == old(availablePAddrs)[chiplet := old(availablePAddrs)[chiplet][n..]]
    {
      pAddrs := [];
      var j: nat := 0;
      while j < n
        invariant j <= n && pAddrs == old(availablePAddrs)[chiplet][..j]
        invariant availablePAddrs == old(availablePAddrs)[chiplet := old(availablePAddrs)[chiplet][j..]]
      {
        var pAddr := Pop(chiplet);
        pAddrs := pAddrs + [pAddr];
        j := j + 1;
      }
    }

    method PopRuns(q: nat) returns (pAddrs: seq<nat>)
      requires |availablePAddrs| == CHIPLETS && forall c :: 0 <= c < CHIPLETS ==> q <= |availablePAddrs[c]|
      modifies this`availablePAddrs
      ensures pAddrs == Runs(old(availablePAddrs), q, 4) && |availablePAddrs| == CHIPLETS
      ensures forall c :: 0 <= c < CHIPLETS ==> availablePAddrs[c] == old(availablePAddrs)[c][q..]
    {
      ghost var lists := availablePAddrs;
      pAddrs := [];
      var i: nat := 0;
      while i < 4
        invariant i <= 4 && |availablePAddrs| == 4 && pAddrs == Runs(lists, q, i)
        invariant forall c :: 0 <= c < 4 ==> availablePAddrs[c] == if c < i then lists[c][q..] else lists[c]
      {
        var run := PopRun(i, q);
        pAddrs := pAddrs + run;
        i := i + 1;
      }
    }

    method PopHeads(r: nat) returns (pAddrs: seq<nat>)
      requires r <= |availablePAddrs| == CHIPLETS && forall c :: 0 <= c < r ==> availablePAddrs[c] != []
      modifies this`availablePAddrs
      ensures pAddrs == Heads(old(availablePAddrs), 0, r) && |availablePAddrs| == CHIPLETS
      ensures forall c :: 0 <= c < CHIPLETS ==> availablePAddrs[c] == old(availablePAddrs)[c][if c < r then 1 else 0..]
    {
      ghost var lists := availablePAddrs;
      pAddrs := [];
      var chiplet: nat := 0;
      while chiplet < r
        invariant chiplet <= r && |availablePAddrs| == 4
        invariant pAddrs == Heads(lists, 0, chiplet)
        invariant forall c :: 0 <= c < 4 ==> availablePAddrs[c] == lists[c][if c < chiplet then 1 else 0..]
      {
        var pAddr := Pop(chiplet);
        pAddrs := pAddrs + [pAddr];
        chiplet := chiplet + 1;
      }
    }

    /** An equal share from every chiplet, in runs, and the remainder from the first ones. */
    method AllocateMultiplePages(numPages: nat) returns (pAddrs: seq<nat>)
      requires |availablePAddrs| == CHIPLETS
      requires forall c :: 0 <= c < CHIPLETS ==> numPages / 4 <= |availablePAddrs[c]|
      requires forall c :: 0 <= c < numPages % 4 ==> numPages / 4 < |availablePAddrs[c]|
      modifies this`availablePAddrs
      ensures |pAddrs| == numPages && |availablePAddrs| == CHIPLETS
      ensures forall c :: 0 <= c < CHIPLETS ==> availablePAddrs[c] == old(availablePAddrs)[c][Share(numPages, c)..]
      ensures pAddrs == Runs(old(availablePAddrs), numPages / 4, 4) + Heads(old(availablePAddrs), numPages / 4, numPages % 4)
      ensures ComesFrom(pAddrs, old(availablePAddrs), numPages / 4, numPages % 4)
      ensures multiset(pAddrs) + AllPages(availablePAddrs) == AllPages(old(availablePAddrs))
    {
      hide Runs, Heads, ComesFrom, AllPages;
      var pagesPerChiplet: nat := numPages / 4;
      var runs := PopRuns(pagesPerChiplet);
      ghost var left := availablePAddrs;
      var heads := PopHeads(numPages % 4);
      HeadsOfRest(old(availablePAddrs), left, pagesPerChiplet, numPages % 4);
      pAddrs := runs + heads;
      PagesComeFrom(old(availablePAddrs), pagesPerChiplet, numPages % 4);
      PagesConserved(old(availablePAddrs), availablePAddrs, pagesPerChiplet, numPages % 4);
    }
  }

  lemma {:induction false} HeadsOfRest(lists: seq<seq<nat>>, rest: seq<seq<nat>>, q: nat, r: nat)
    requires r <= |lists| == |rest| && forall c :: 0 <= c < r ==> q < |lists[c]| && rest[c] == lists[c][q..]
    ensures Heads(rest, 0, r) == Heads(lists, q, r)
    decreases r
  {
    if r > 0 {
      HeadsOfRest(lists, rest, q, r - 1);
    }
  }

  /** The first `q` pages of the first `i` lists, list by list. */
  function Runs(lists: seq<seq<nat>>, q: nat, i: nat): (r: seq<nat>)
    requires i <= |lists| && forall c :: 0 <= c < i ==> q <= |lists[c]|
    ensures |r| == i * q
  {
    if i == 0 then [] else
      assert i * q == (i - 1) * q + q;
      Runs(lists, q, i - 1) + lists[i - 1][..q]
  }

  /** The page at place `q` of each of the first `r` lists. */
  function Heads(lists: seq<seq<nat>>, q: nat, r: nat): (s: seq<nat>)
    requires r <= |lists| && forall c :: 0 <= c < r ==> q < |lists[c]|
    ensures |s| == r
  {
    if r == 0 then [] else Heads(lists, q, r - 1) + [lists[r - 1][q]]
  }

  /** First `q` pages of every chiplet, chiplet by chiplet, then one more of each of the first `r`. */
  ghost predicate ComesFrom(pAddrs: seq<nat>, lists: seq<seq<nat>>, q: nat, r: nat)
    requires |lists| == CHIPLETS && r < CHIPLETS
  {
    && |pAddrs| == 4 * q + r
    && (forall j {:trigger lists[0][j]} {:trigger lists[1][j]} {:trigger lists[2][j]} {:trigger lists[3][j]} :: 0 <= j < q ==>
          && j < |lists[0]| && j < |lists[1]| && j < |lists[2]| && j < |lists[3]|
          && pAddrs[j] == lists[0][j] && pAddrs[q + j] == lists[1][j]
          && pAddrs[2 * q + j] == lists[2][j] && pAddrs[3 * q + j] == lists[3][j])
    && (forall c {:trigger lists[c]} :: 0 <= c < r ==> q < |lists[c]| && pAddrs[4 * q + c] == lists[c][q])
  }

  ghost function AllPages(lists: seq<seq<nat>>): multiset<nat>
    requires |lists| == CHIPLETS
  {
    multiset(lists[0]) + multiset(lists[1]) + multiset(lists[2]) + multiset(lists[3])
  }

  lemma FourRuns(lists: seq<seq<nat>>, q: nat)
    requires |lists| == CHIPLETS && forall c :: 0 <= c < CHIPLETS ==> q <= |lists[c]|
    ensures Runs(lists, q, 4) == lists[0][..q] + lists[1][..q] + lists[2][..q] + lists[3][..q]
  {
    assert Runs(lists, q, 0) == [];
    assert Runs(lists, q, 1) == Runs(lists, q, 0) + lists[0][..q];
    assert Runs(lists, q, 2) == Runs(lists, q, 1) + lists[1][..q];
    assert Runs(lists, q, 3) == Runs(lists, q, 2) + lists[2][..q];
    assert Runs(lists, q, 4) == Runs(lists, q, 3) + lists[3][..q];
    assert [] + lists[0][..q] == lists[0][..q];
  }

  lemma {:induction false} HeadsAt(lists: seq<seq<nat>>, q: nat, r: nat, c: nat)
    requires c < r <= |lists| && forall d :: 0 <= d < r ==> q < |lists[d]|
    ensures Heads(lists, q, r)[c] == lists[c][q]
    decreases r
  {
    if c < r - 1 {
      HeadsAt(lists, q, r - 1, c);
    }
  }

  lemma PagesComeFrom(lists: seq<seq<nat>>, q: nat, r: nat)
    requires |lists| == CHIPLETS && r < CHIPLETS
    requires (forall c :: 0 <= c < CHIPLETS ==> q <= |lists[c]|) && forall c :: 0 <= c < r ==> q < |lists[c]|
    ensures ComesFrom(Runs(lists, q, 4) + Heads(lists, q, r), lists, q, r)
  {
    hide Heads, Runs;
    FourRuns(lists, q);
    forall c | 0 <= c < r
      ensures Heads(lists, q, r)[c] == lists[c][q]
    {
      HeadsAt(lists, q, r, c);
    }
  }

  ghost function One(l: seq<nat>, q: nat, some: bool): multiset<nat>
  {
    if some && q < |l| then multiset{l[q]} else multiset{}
  }

  lemma ListSplit(l: seq<nat>, q: nat, some: bool, left: seq<nat>)
    requires q <= |l| && (some ==> q < |l|) && left == l[q + (if some then 1 else 0)..]
    ensures multiset(l) == multiset(l[..q]) + One(l, q, some) + multiset(left)
  {
    assert l == l[..q] + l[q..];
    if some {
      assert l[q..] == [l[q]] + l[q + 1..];
    }
  }

  lemma {:induction false} HeadPages(lists: seq<seq<nat>>, q: nat, r: nat)
    requires |lists| == CHIPLETS && r < CHIPLETS && forall c :: 0 <= c < r ==> q < |lists[c]|
    ensures multiset(Heads(lists, q, r)) == One(lists[0], q, 0 < r) + One(lists[1], q, 1 < r) + One(lists[2], q, 2 < r) + One(lists[3], q, 3 < r)
  {
    assert Heads(lists, q, 0) == [];
    if r > 0 {
      assert Heads(lists, q, 1) == [lists[0][q]];
    }
    if r > 1 {
      assert Heads(lists, q, 2) == [lists[0][q], lists[1][q]];
    }
    if r > 2 {
      assert Heads(lists, q, 3) == [lists[0][q], lists[1][q], lists[2][q]];
    }
  }

  lemma Regroup(a: multiset<nat>, b: multiset<nat>, c: multiset<nat>, d: multiset<nat>,
                e: multiset<nat>, f: multiset<nat>, g: multiset<nat>, h: multiset<nat>,
                i: multiset<nat>, j: multiset<nat>, k: multiset<nat>, l: multiset<nat>)
    ensures (a + b + c + d) + (e + f + g + h) + (i + j + k + l) == (a + e + i) + (b + f + j) + (c + g + k) + (d + h + l)
  {
  }

  /** Nothing is lost or handed out twice. */
  lemma PagesConserved(lists: seq<seq<nat>>, left: seq<seq<nat>>, q: nat, r: nat)
    requires |lists| == |left| == CHIPLETS && r < CHIPLETS
    requires (forall c :: 0 <= c < CHIPLETS ==> q <= |lists[c]|) && forall c :: 0 <= c < r ==> q < |lists[c]|
    requires forall c :: 0 <= c < CHIPLETS ==> left[c] == lists[c][q + (if c < r then 1 else 0)..]
    ensures multiset(Runs(lists, q, 4) + Heads(lists, q, r)) + AllPages(left) == AllPages(lists)
  {
    hide Heads, Runs, One;
    FourRuns(lists, q);
    HeadPages(lists, q, r);
    ListSplit(lists[0], q, 0 < r, left[0]);
    ListSplit(lists[1], q, 1 < r, left[1]);
    ListSplit(lists[2], q, 2 < r, left[2]);
    ListSplit(lists[3], q, 3 < r, left[3]);
    Regroup(multiset(lists[0][..q]), multiset(lists[1][..q]), multiset(lists[2][..q]), multiset(lists[3][..q]),
            One(lists[0], q, 0 < r), One(lists[1], q, 1 < r), One(lists[2], q, 2 < r), One(lists[3], q, 3 < r),
            multiset(left[0]), multiset(left[1]), multiset(left[2]), multiset(left[3]));
  }

  /** Whole rounds fit exactly into a whole number of rounds: otherwise the last page of the last
      round ends past the region. */
  lemma PagesFitIff(lists: seq<seq<nat>>, base: nat, size: nat, limit: nat)
    requires |lists| == CHIPLETS && forall c :: 0 <= c < CHIPLETS ==> Stripes(lists[c], base, limit, c)
    requires base + size <= limit < base + size + ROUND && (limit - base) % ROUND == 0
    ensures size % ROUND == 0 <==> forall c, p :: 0 <= c < CHIPLETS && p in lists[c] ==> p + PAGE <= base + size
  {
    RoundsFit(limit - base, size);
    if size % ROUND == 0 {
      forall c, p | 0 <= c < CHIPLETS && p in lists[c]
        ensures p + PAGE <= base + size
      {
        assert Stripes(lists[c], base, limit, c) && OnStripe(base, c, p);
        LastPage(p - base, size);
      }
    } else {
      var last := limit - PAGE;
      LastOnStripe(base, limit);
      assert Stripes(lists[3], base, limit, 3);
      assert last in lists[3];
    }
  }

  lemma LastPage(x: nat, end: nat)
    requires x % 4096 == 0 && end % 0x40000 == 0 && x < end
    ensures x + 4096 <= end
  {
  }

  lemma LastOnStripe(base: nat, limit: nat)
    requires base < limit && (limit - base) % ROUND == 0
    ensures limit >= PAGE && OnStripe(base, 3, limit - PAGE)
  {
  }

  lemma RoundsFit(x: nat, size: nat)
    requires size <= x < size + 0x40000 && x % 0x40000 == 0
    ensures x == size <==> size % 0x40000 == 0
  {
  }

  /** A device of one page: its lists hand out the page behind its end. */
  method OnePageDevice() returns (device: LaspMemory)
    ensures fresh(device) && device.initialAddress == 0 && device.storageSize == PAGE
    ensures |device.availablePAddrs| == CHIPLETS && PAGE in device.availablePAddrs[0]
  {
    device := new LaspMemory(PAGE);
    ghost var limit := device.SetInitialAddress(0);
    assert Stripes(device.availablePAddrs[0], 0, limit, 0) && OnStripe(0, 0, PAGE);
  }
}
