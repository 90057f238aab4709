/**
 The page-walk cache: directory addresses keyed by masked prefixes of the virtual address, the
 level in the two low bits of tag and data. And the runs over which it must stay right while
 the page table changes.
 */
module WalkCache {
  import opened RadixTable
  import opened PageWalk
  import Powers

  // ----- runs of the page table -----

  datatype TableOp = InsertPage(page: Page, supply: seq<nat>) | RemovePage(vAddr: nat) | UpdatePage(page: Page)

  predicate Enabled(t: Table, op: TableOp, pageSize: nat)
    requires pageSize > 0
  {
    match op
    case InsertPage(page, supply) =>
      Addressable(page.vAddr, pageSize) && Missing(t.dirs, PathOf(page.vAddr, pageSize), LEVELS) <= |supply|
    case RemovePage(_) => true
    case UpdatePage(page) => Addressable(page.vAddr, pageSize)
  }

  function StepTable(t: Table, op: TableOp, pageSize: nat): Table
    requires pageSize > 0 && Enabled(t, op, pageSize)
  {
    var r := match op
      case InsertPage(page, supply) => Insert(t, page, pageSize, supply)
      case RemovePage(vAddr) => Remove(t, vAddr, pageSize)
      case UpdatePage(page) => Update(t, page, pageSize);
    if r.Ok? then r.value else t
  }

  /** Directories are never removed nor moved. */
  ghost predicate DirsKept(t: Table, u: Table)
  {
    forall p {:trigger p in t.dirs} {:trigger p in u.dirs} :: p in t.dirs ==> p in u.dirs && u.dirs[p] == t.dirs[p]
  }

  lemma StepKeepsTable(t: Table, op: TableOp, pageSize: nat)
    requires pageSize > 0 && Valid(t, pageSize) && Enabled(t, op, pageSize)
    ensures Valid(StepTable(t, op, pageSize), pageSize) && DirsKept(t, StepTable(t, op, pageSize))
  {
    match op
    case InsertPage(page, supply) => InsertValid(t, page, pageSize, supply);
    case RemovePage(vAddr) => RemoveValid(t, vAddr, pageSize);
    case UpdatePage(page) => UpdateValid(t, page, pageSize);
  }

  /** The allocator's promise for an insertion: new, distinct, non-zero, page-aligned frames. */
  ghost predicate FreshSupply(t: Table, supply: seq<nat>)
  {
    && (forall i :: 0 <= i < |supply| ==> supply[i] > 0 && supply[i] % TABLE_BYTES == 0)
    && (forall i, j :: 0 <= i < j < |supply| ==> supply[i] != supply[j])
    && (forall i, p :: 0 <= i < |supply| && p in t.dirs ==> supply[i] != t.dirs[p])
  }

  ghost predicate FreshOp(t: Table, op: TableOp)
  {
    match op
    case InsertPage(page, supply) => FreshSupply(t, supply) && page.pAddr > 0
    case RemovePage(_) => true
    case UpdatePage(page) => page.pAddr > 0
  }

  lemma StepKeepsPlaced(t: Table, op: TableOp, pageSize: nat)
    requires pageSize > 0 && Valid(t, pageSize) && Placed(t) && Enabled(t, op, pageSize) && FreshOp(t, op)
    ensures Placed(StepTable(t, op, pageSize))
  {
    var u := StepTable(t, op, pageSize);
    if op.InsertPage? && u != t {
      GrowPlaced(t, PathOf(op.page.vAddr, pageSize), op.supply, u.dirs);
    }
  }

  lemma GrowPlaced(t: Table, path: Path, supply: seq<nat>, d: map<Path, nat>)
    requires Placed(t) && FreshSupply(t, supply) && |path| == LEVELS && Missing(t.dirs, path, LEVELS) <= |supply|
    requires d == Grow(t.dirs, path, LEVELS, supply)
    ensures forall p {:trigger p in d} :: p in d ==> d[p] > 0 && d[p] % TABLE_BYTES == 0
    ensures forall p, q {:trigger d[p], d[q]} :: p in d && q in d && d[p] == d[q] ==> p == q
  {
    forall p | p in d
      ensures d[p] > 0 && d[p] % TABLE_BYTES == 0
    {
      GrownFrom(t.dirs, path, supply, p);
    }
    forall p, q | p in d && q in d && d[p] == d[q]
      ensures p == q
    {
      GrownFrom(t.dirs, path, supply, p);
      GrownFrom(t.dirs, path, supply, q);
      PlacedPair(t, path, supply, p, d[p], q);
    }
  }

  lemma PlacedPair(t: Table, path: Path, supply: seq<nat>, p: Path, addr: nat, q: Path)
    requires Placed(t) && FreshSupply(t, supply)
    requires if p in t.dirs then addr == t.dirs[p] else FromSupply(t.dirs, path, supply, p, addr)
    requires if q in t.dirs then addr == t.dirs[q] else FromSupply(t.dirs, path, supply, q, addr)
    ensures p == q
  {
    if p in t.dirs && q in t.dirs {
      assert t.dirs[p] == t.dirs[q];
    } else if p !in t.dirs && q !in t.dirs {
      if |p| < |q| {
        MissingStrict(t.dirs, path, |p|, |q|);
      } else if |q| < |p| {
        MissingStrict(t.dirs, path, |q|, |p|);
      }
    }
  }

  ghost predicate IsTableRun(tables: seq<Table>, ops: seq<TableOp>, pageSize: nat)
    requires pageSize > 0
  {
    && |tables| == |ops| + 1 && tables[0] == EMPTY
    && forall i :: 0 <= i < |ops| ==>
         Enabled(tables[i], ops[i], pageSize) && FreshOp(tables[i], ops[i])
         && tables[i + 1] == StepTable(tables[i], ops[i], pageSize)
  }

  /** Over every run of insertions, removals and updates the tree and the flat map agree, the
      directories sit on distinct pages, and a directory once made stays where it is. */
  lemma {:induction false} EveryTableRun(tables: seq<Table>, ops: seq<TableOp>, pageSize: nat)
    requires pageSize > 0 && IsTableRun(tables, ops, pageSize)
    ensures forall i :: 0 <= i < |tables| ==> Valid(tables[i], pageSize) && Placed(tables[i])
    ensures forall i, j :: 0 <= i <= j < |tables| ==> DirsKept(tables[i], tables[j])
  {
    var n := 0;
    while n < |ops|
      invariant 0 <= n <= |ops|
      invariant forall i :: 0 <= i <= n ==> Valid(tables[i], pageSize) && Placed(tables[i])
      invariant forall i, j :: 0 <= i <= j <= n ==> DirsKept(tables[i], tables[j])
    {
      StepKeepsTable(tables[n], ops[n], pageSize);
      StepKeepsPlaced(tables[n], ops[n], pageSize);
      forall i | 0 <= i <= n + 1
        ensures DirsKept(tables[i], tables[n + 1])
      {
        if i <= n {
          assert DirsKept(tables[i], tables[n]);
        }
      }
      n := n + 1;
    }
  }

  // ----- masks -----

  /** The size of the region that one directory of depth `level + 1` covers: `masks[level]` clears
      the address bits below it. */
  function Granule(pageSize: nat, level: nat): (r: nat)
    requires pageSize > 0 && level < LEVELS - 1
    ensures r > 0
  {
    Powers.MulAtLeast(pageSize, Power(LEVELS - 1 - level));
    pageSize * Power(LEVELS - 1 - level)
  }

  lemma {:induction false} ShiftedIsQuotient(v: nat, n: nat)
    ensures Power(n) > 0 && Shifted(v, n) == v / Power(n)
    decreases n
  {
    if n > 0 {
      ShiftedIsQuotient(v / FANOUT, n - 1);
      Powers.DivDiv(v, FANOUT, Power(n - 1));
    }
  }

  /** `x & mask` for the mask that clears everything below the granule. */
  function Masked(x: nat, granule: nat): nat
    requires granule > 0
  {
    Powers.DivMod(x, granule);
    Powers.MulNat(x / granule, granule);
    (x / granule) * granule
  }

  lemma MaskedEqual(v: nat, w: nat, granule: nat)
    requires granule > 0 && Masked(v, granule) == Masked(w, granule)
    ensures v / granule == w / granule
  {
    Powers.DivMod(v, granule);
    Powers.DivMod(w, granule);
    Powers.QuotientUnique(granule, v / granule, 0, w / granule, 0);
  }

  /** Addresses with one masked prefix walk through one directory of depth `level + 1`. */
  lemma SamePrefixSameDirectory(v: nat, w: nat, pageSize: nat, level: nat)
    requires pageSize > 0 && level < LEVELS - 1
    requires Masked(v, Granule(pageSize, level)) == Masked(w, Granule(pageSize, level))
    ensures PathOf(v, pageSize)[..level + 1] == PathOf(w, pageSize)[..level + 1]
  {
    var k := LEVELS - 1 - level;
    MaskedEqual(v, w, Granule(pageSize, level));
    ShiftedIsQuotient(Vpn(v, pageSize), k);
    ShiftedIsQuotient(Vpn(w, pageSize), k);
    Powers.DivDiv(v, pageSize, Power(k));
    Powers.DivDiv(w, pageSize, Power(k));
    SharedPrefix(Vpn(v, pageSize), Vpn(w, pageSize), k, LEVELS);
    RearrangeReverses(0, Vpn(v, pageSize), LEVELS);
    RearrangeReverses(0, Vpn(w, pageSize), LEVELS);
  }

  /** The digits above the low `k` are the digits of the shifted page number. */
  lemma {:induction false} HighDigits(v: nat, k: nat, n: nat)
    requires k <= n
    ensures HighFirst(v, n)[..n - k] == HighFirst(Shifted(v, k), n - k)
    decreases k
  {
    if k > 0 {
      HighDigits(v / FANOUT, k - 1, n - 1);
      assert HighFirst(v, n)[..n - k] == HighFirst(v / FANOUT, n - 1)[..n - k];
    }
  }

  lemma {:induction false} ShiftedBelow(v: nat, k: nat, n: nat)
    requires k <= n && v < Power(n)
    ensures Shifted(v, k) < Power(n - k)
    decreases k
  {
    if k > 0 {
      assert Power(n) == FANOUT * Power(n - 1);
      ShiftedBelow(v / FANOUT, k - 1, n - 1);
    }
  }

  /** Addresses whose walks share the directory of depth `level + 1` have one masked prefix. */
  lemma SameDirectorySamePrefix(v: nat, w: nat, pageSize: nat, level: nat)
    requires pageSize > 0 && level < LEVELS - 1
    requires Vpn(v, pageSize) < Power(LEVELS) && Vpn(w, pageSize) < Power(LEVELS)
    requires PathOf(v, pageSize)[..level + 1] == PathOf(w, pageSize)[..level + 1]
    ensures Masked(v, Granule(pageSize, level)) == Masked(w, Granule(pageSize, level))
  {
    var k := LEVELS - 1 - level;
    RearrangeReverses(0, Vpn(v, pageSize), LEVELS);
    RearrangeReverses(0, Vpn(w, pageSize), LEVELS);
    HighDigits(Vpn(v, pageSize), k, LEVELS);
    HighDigits(Vpn(w, pageSize), k, LEVELS);
    ShiftedBelow(Vpn(v, pageSize), k, LEVELS);
    ShiftedBelow(Vpn(w, pageSize), k, LEVELS);
    HighFirstInjective(Shifted(Vpn(v, pageSize), k), Shifted(Vpn(w, pageSize), k), LEVELS - k);
    ShiftedIsQuotient(Vpn(v, pageSize), k);
    ShiftedIsQuotient(Vpn(w, pageSize), k);
    Powers.DivDiv(v, pageSize, Power(k));
    Powers.DivDiv(w, pageSize, Power(k));
  }

  // ----- the cache -----

  /** One block of the single set: `tag` is a masked prefix with the level in its low bits, `data`
      the directory address with the level in its low bits. */
  datatype Entry = Entry(valid: bool, pid: nat, tag: nat, data: nat)

  function LevelBits(x: nat): nat { x % 4 }

  function AddrBits(x: nat): nat { (x / 4) * 4 }

  /** `FormulateWriteAddress`. */
  function WriteTag(req: nat, pageSize: nat): nat
    requires pageSize > 0 && LevelBits(req) < LEVELS - 1
  {
    Masked(AddrBits(req), Granule(pageSize, LevelBits(req))) + LevelBits(req)
  }

  predicate Matches(e: Entry, pid: nat, reqAddr: nat, pageSize: nat)
    requires pageSize > 0
  {
    && e.valid && e.pid == pid && LevelBits(e.tag) < LEVELS - 1
    && AddrBits(e.tag) == Masked(reqAddr, Granule(pageSize, LevelBits(e.tag)))
  }

  /** `Lookup`: the deepest matching block, the first one among equals; -1 for none. So it never misses
      a directory on the request's own path that a walk has put into the cache, and never returns one
      that is less deep or that is off the path. */
  method Lookup(blocks: seq<Entry>, pid: nat, reqAddr: nat, pageSize: nat) returns (longestMatch: int)
    requires pageSize > 0
    requires forall e :: e in blocks && e.valid && e.pid == pid ==> LevelBits(e.tag) < LEVELS - 1
    ensures -1 <= longestMatch < |blocks|
    ensures longestMatch == -1 <==> forall e :: e in blocks ==> !Matches(e, pid, reqAddr, pageSize)
    ensures longestMatch >= 0 ==>
      && Matches(blocks[longestMatch], pid, reqAddr, pageSize)
      && (forall j :: 0 <= j < |blocks| && Matches(blocks[j], pid, reqAddr, pageSize) ==>
           LevelBits(blocks[j].tag) <= LevelBits(blocks[longestMatch].tag)
           && (j < longestMatch ==> LevelBits(blocks[j].tag) < LevelBits(blocks[longestMatch].tag)))
    ensures pageSize % 4 == 0 && Vpn(reqAddr, pageSize) < Power(LEVELS) ==>
      forall j, vAddr, level {:trigger FilledFor(blocks[j], pid, vAddr, level, pageSize)} ::
        0 <= j < |blocks| && FilledFor(blocks[j], pid, vAddr, level, pageSize) && Vpn(vAddr, pageSize) < Power(LEVELS) ==>
          var shared := PathOf(reqAddr, pageSize)[..level + 1] == PathOf(vAddr, pageSize)[..level + 1];
          && (shared ==> longestMatch >= 0 && LevelBits(blocks[longestMatch].tag) >= level)
          && (j == longestMatch ==> shared)
  {
    longestMatch := -1;
    var curLevel: int := -1;
    var i := 0;
    while i < |blocks|
      invariant 0 <= i <= |blocks| && -1 <= longestMatch < i
      invariant longestMatch == -1 <==> curLevel == -1
      invariant curLevel == -1 ==> forall j :: 0 <= j < i ==> !Matches(blocks[j], pid, reqAddr, pageSize)
      invariant longestMatch >= 0 ==> Matches(blocks[longestMatch], pid, reqAddr, pageSize) && curLevel == LevelBits(blocks[longestMatch].tag)
      invariant forall j :: 0 <= j < i && Matches(blocks[j], pid, reqAddr, pageSize) ==>
        LevelBits(blocks[j].tag) <= curLevel && (j < longestMatch ==> LevelBits(blocks[j].tag) < curLevel)
    {
      var block := blocks[i];
      if block.valid && block.pid == pid {
        var tag := AddrBits(block.tag);
        var level := LevelBits(block.tag);
        assert block in blocks;
        var maskedReqAddr := Masked(reqAddr, Granule(pageSize, level));
        if tag == maskedReqAddr && level > curLevel {
          longestMatch, curLevel := i, level;
        }
      }
      i := i + 1;
    }
    if pageSize % 4 == 0 && Vpn(reqAddr, pageSize) < Power(LEVELS) {
      forall j, vAddr, level |
        0 <= j < |blocks| && FilledFor(blocks[j], pid, vAddr, level, pageSize) && Vpn(vAddr, pageSize) < Power(LEVELS)
        ensures Matches(blocks[j], pid, reqAddr, pageSize)
          <==> PathOf(reqAddr, pageSize)[..level + 1] == PathOf(vAddr, pageSize)[..level + 1]
        ensures LevelBits(blocks[j].tag) == level
      {
        FilledMatches(blocks[j], pid, vAddr, level, reqAddr, pageSize);
      }
    }
  }

  /** What the walker writes back after reading `word` at `level` of the walk for `vAddr`. */
  function Filled(pid: nat, vAddr: nat, level: nat, word: nat, pageSize: nat): Entry
    requires pageSize > 0 && pageSize % 4 == 0 && level < LEVELS - 1
  {
    AlignedReq(vAddr, level, pageSize);
    Entry(true, pid, WriteTag(AlignToPage(vAddr, pageSize) + level, pageSize), word + level)
  }

  lemma AlignedReq(vAddr: nat, level: nat, pageSize: nat)
    requires pageSize > 0 && pageSize % 4 == 0 && level < LEVELS - 1
    ensures var req := AlignToPage(vAddr, pageSize) + level;
      LevelBits(req) == level && AddrBits(req) == AlignToPage(vAddr, pageSize)
  {
    MultipleOf4(Vpn(vAddr, pageSize), pageSize);
  }

  lemma MultipleOf4(q: nat, d: nat)
    requires d % 4 == 0
    ensures (q * d) % 4 == 0
  {
    assert d == 4 * (d / 4);
    assert q * d == 4 * (q * (d / 4));
  }

  /** The tag of a filled block is the masked prefix of the address, with the level below it. */
  lemma FilledTag(vAddr: nat, level: nat, pageSize: nat)
    requires pageSize > 0 && pageSize % 4 == 0 && level < LEVELS - 1
    ensures LevelBits(AlignToPage(vAddr, pageSize) + level) == level
    ensures var tag := WriteTag(AlignToPage(vAddr, pageSize) + level, pageSize);
      LevelBits(tag) == level && AddrBits(tag) == Masked(vAddr, Granule(pageSize, level))
    ensures pageSize * Power(LEVELS - 1 - level) > 0
    ensures AddrBits(WriteTag(AlignToPage(vAddr, pageSize) + level, pageSize)) == vAddr - vAddr % (pageSize * Power(LEVELS - 1 - level))
  {
    AlignedReq(vAddr, level, pageSize);
    var k := LEVELS - 1 - level;
    var g, a := Granule(pageSize, level), AlignToPage(vAddr, pageSize);
    Powers.DivDiv(vAddr, pageSize, Power(k));
    Powers.DivDiv(a, pageSize, Power(k));
    AlignedVpn(vAddr, pageSize);
    assert Masked(a, g) == Masked(vAddr, g);
    MultipleOf4(Power(k), pageSize);
    assert g == Power(k) * pageSize;
    MultipleOf4(vAddr / g, g);
    Powers.DivMod(vAddr, g);
  }

  /** A block filled for one address matches exactly the addresses of the process whose walks go
      through the same directory of the next depth. */
  lemma FillMatchesIff(pid: nat, vAddr: nat, level: nat, word: nat, asid: nat, w: nat, pageSize: nat)
    requires pageSize > 0 && pageSize % 4 == 0 && level < LEVELS - 1
    requires Vpn(vAddr, pageSize) < Power(LEVELS) && Vpn(w, pageSize) < Power(LEVELS)
    ensures Matches(Filled(pid, vAddr, level, word, pageSize), asid, w, pageSize)
      <==> asid == pid && PathOf(w, pageSize)[..level + 1] == PathOf(vAddr, pageSize)[..level + 1]
  {
    FilledTag(vAddr, level, pageSize);
    if Masked(w, Granule(pageSize, level)) == Masked(vAddr, Granule(pageSize, level)) {
      SamePrefixSameDirectory(w, vAddr, pageSize, level);
    }
    if PathOf(w, pageSize)[..level + 1] == PathOf(vAddr, pageSize)[..level + 1] {
      SameDirectorySamePrefix(w, vAddr, pageSize, level);
    }
  }

  /** The block holds what a walk for `vAddr` put there at `level`. */
  ghost predicate FilledFor(e: Entry, pid: nat, vAddr: nat, level: nat, pageSize: nat)
    requires pageSize > 0 && pageSize % 4 == 0
  {
    level < LEVELS - 1 && exists word :: e == Filled(pid, vAddr, level, word, pageSize)
  }

  lemma FilledMatches(e: Entry, pid: nat, vAddr: nat, level: nat, w: nat, pageSize: nat)
    requires pageSize > 0 && pageSize % 4 == 0 && FilledFor(e, pid, vAddr, level, pageSize)
    requires Vpn(vAddr, pageSize) < Power(LEVELS) && Vpn(w, pageSize) < Power(LEVELS)
    ensures Matches(e, pid, w, pageSize) <==> PathOf(w, pageSize)[..level + 1] == PathOf(vAddr, pageSize)[..level + 1]
    ensures LevelBits(e.tag) == level
  {
    var word :| e == Filled(pid, vAddr, level, word, pageSize);
    FillMatchesIff(pid, vAddr, level, word, pid, w, pageSize);
    FilledTag(vAddr, level, pageSize);
  }

  /** An entry is right for a table when some address with its tag walks through the directory
      whose address it carries. */
  ghost predicate Sound(e: Entry, t: Table, pageSize: nat)
    requires pageSize > 0
  {
    && LevelBits(e.tag) < LEVELS - 1
    && exists w :: CarriesDirectory(e, t, w, pageSize)
  }

  ghost predicate CarriesDirectory(e: Entry, t: Table, w: nat, pageSize: nat)
    requires pageSize > 0 && LevelBits(e.tag) < LEVELS - 1
  {
    var level := LevelBits(e.tag);
    var p := PathOf(w, pageSize)[..level + 1];
    AddrBits(e.tag) == Masked(w, Granule(pageSize, level)) && p in t.dirs && e.data == t.dirs[p] + level
  }

  /** A block filled from a walk over the loaded table is right. */
  lemma FillIsSound(t: Table, mem: Memory, pid: nat, vAddr: nat, level: nat, pageSize: nat)
    requires pageSize > 0 && pageSize % 4 == 0 && level < LEVELS - 1
    requires Loaded(t, mem) && [] in t.dirs && level + 1 < Depth(t, PathOf(vAddr, pageSize))
    ensures Sound(Filled(pid, vAddr, level, WalkOf(t, mem, vAddr, pageSize)[level].word, pageSize), t, pageSize)
  {
    var e := Filled(pid, vAddr, level, WalkOf(t, mem, vAddr, pageSize)[level].word, pageSize);
    FilledTag(vAddr, level, pageSize);
    WalkStep(t, mem, vAddr, pageSize, level);
    assert CarriesDirectory(e, t, vAddr, pageSize);
  }

  /** Entries stay right while directories are kept. */
  lemma SoundKept(e: Entry, t: Table, u: Table, pageSize: nat)
    requires pageSize > 0 && Sound(e, t, pageSize) && DirsKept(t, u)
    ensures Sound(e, u, pageSize)
  {
    var w :| CarriesDirectory(e, t, w, pageSize);
    assert PathOf(w, pageSize)[..LevelBits(e.tag) + 1] in t.dirs;
    assert CarriesDirectory(e, u, w, pageSize);
  }

  lemma {:induction false} WalkSuffix(mem: Memory, ppn: nat, rv: nat, n: nat, k: nat)
    requires k < n
    ensures Walk(mem, ppn, rv, n)[k + 1..] == Walk(mem, Walk(mem, ppn, rv, n)[k].word, Shifted(rv, k + 1), n - k - 1)
    decreases k
  {
    var a := AddOffset(ppn, rv);
    var rest := Walk(mem, mem(a), NextLevel(rv), n - 1);
    assert Walk(mem, ppn, rv, n) == [Access(a, mem(a))] + rest;
    if k > 0 {
      WalkSuffix(mem, mem(a), NextLevel(rv), n - 1, k - 1);
      assert Walk(mem, ppn, rv, n)[k + 1..] == rest[k..];
    } else {
      assert Walk(mem, ppn, rv, n)[1..] == rest;
    }
  }

  /** A hit at level `l` hands the walker the directory of depth `l + 1` on the request's own path. */
  lemma HitDirectory(t: Table, e: Entry, pid: nat, vAddr: nat, pageSize: nat)
    requires pageSize > 0 && Placed(t) && Sound(e, t, pageSize) && Matches(e, pid, vAddr, pageSize)
    ensures var l := LevelBits(e.data);
      && l == LevelBits(e.tag) && l < LEVELS - 1
      && var p := PathOf(vAddr, pageSize)[..l + 1];
      && p in t.dirs && AddrBits(e.data) == t.dirs[p]
  {
    var level := LevelBits(e.tag);
    var w :| CarriesDirectory(e, t, w, pageSize);
    SamePrefixSameDirectory(vAddr, w, pageSize, level);
    var p := PathOf(vAddr, pageSize)[..level + 1];
    assert p in t.dirs && t.dirs[p] % TABLE_BYTES == 0;
    LowBits(t.dirs[p], level);
  }

  lemma LowBits(addr: nat, level: nat)
    requires addr % TABLE_BYTES == 0 && level < 4
    ensures LevelBits(addr + level) == level && AddrBits(addr + level) == addr
  {
    var k := addr / TABLE_BYTES;
    assert addr == 4 * (1024 * k);
    assert (addr + level) / 4 == 1024 * k;
  }

  /** The walk resumed from a hit is the rest of the full walk. */
  lemma HitResumesWalk(t: Table, mem: Memory, e: Entry, pid: nat, vAddr: nat, pageSize: nat)
    requires pageSize > 0 && Valid(t, pageSize) && Placed(t) && Loaded(t, mem) && [] in t.dirs
    requires Sound(e, t, pageSize) && Matches(e, pid, vAddr, pageSize)
    ensures var l := LevelBits(e.data);
      && l < LEVELS - 1
      && Walk(mem, AddrBits(e.data), Shifted(Rearranged(0, Vpn(vAddr, pageSize), LEVELS), l + 1), LEVELS - l - 1)
         == WalkOf(t, mem, vAddr, pageSize)[l + 1..]
  {
    hide Sound, Matches, Placed, Valid, DirsClosed;
    HitDirectory(t, e, pid, vAddr, pageSize);
    var path, level := PathOf(vAddr, pageSize), LevelBits(e.data);
    WalkReaches(t, mem, vAddr, pageSize, level);
    WalkSuffix(mem, t.dirs[[]], Rearranged(0, Vpn(vAddr, pageSize), LEVELS), LEVELS, level);
  }

  /** The walk's word at a level above an existing directory is that directory's address. */
  lemma WalkReaches(t: Table, mem: Memory, vAddr: nat, pageSize: nat, level: nat)
    requires pageSize > 0 && Valid(t, pageSize) && Loaded(t, mem) && [] in t.dirs
    requires level + 1 < LEVELS && PathOf(vAddr, pageSize)[..level + 1] in t.dirs
    ensures WalkOf(t, mem, vAddr, pageSize)[level].word == t.dirs[PathOf(vAddr, pageSize)[..level + 1]]
  {
    DirsOnPath(t.dirs, PathOf(vAddr, pageSize), level + 1);
    WalkStep(t, mem, vAddr, pageSize, level);
  }

  // ----- the cache beside changing tables -----

  datatype System = System(tables: map<nat, Table>, blocks: seq<Entry>)

  datatype SystemOp =
    | ChangeTable(pid: nat, op: TableOp)
    | FillBlock(slot: nat, filledPid: nat, vAddr: nat, level: nat, mem: Memory)
    | ResetCache

  ghost predicate EnabledOp(s: System, op: SystemOp, pageSize: nat)
    requires pageSize > 0
  {
    match op
    case ChangeTable(pid, top) => pid in s.tables && Enabled(s.tables[pid], top, pageSize) && FreshOp(s.tables[pid], top)
    case FillBlock(slot, pid, vAddr, level, mem) =>
      && slot < |s.blocks| && pid in s.tables && level < LEVELS - 1
      && [] in s.tables[pid].dirs && Loaded(s.tables[pid], mem)
      && level + 1 < Depth(s.tables[pid], PathOf(vAddr, pageSize))
    case ResetCache => true
  }

  ghost function StepSystem(s: System, op: SystemOp, pageSize: nat): System
    requires pageSize > 0 && pageSize % 4 == 0 && EnabledOp(s, op, pageSize)
  {
    match op
    case ChangeTable(pid, top) => s.(tables := s.tables[pid := StepTable(s.tables[pid], top, pageSize)])
    case FillBlock(slot, pid, vAddr, level, mem) =>
      s.(blocks := s.blocks[slot := Filled(pid, vAddr, level, WalkOf(s.tables[pid], mem, vAddr, pageSize)[level].word, pageSize)])
    case ResetCache => s.(blocks := seq(|s.blocks|, _ => Entry(false, 0, 0, 0)))
  }

  ghost predicate SystemInv(s: System, pageSize: nat)
    requires pageSize > 0
  {
    && (forall pid :: pid in s.tables ==> Valid(s.tables[pid], pageSize) && Placed(s.tables[pid]))
    && (forall e :: e in s.blocks && e.valid ==> e.pid in s.tables && Sound(e, s.tables[e.pid], pageSize))
  }

  lemma StepKeepsSystem(s: System, op: SystemOp, pageSize: nat)
    requires pageSize > 0 && pageSize % 4 == 0 && SystemInv(s, pageSize) && EnabledOp(s, op, pageSize)
    ensures SystemInv(StepSystem(s, op, pageSize), pageSize)
  {
    var u := StepSystem(s, op, pageSize);
    match op
    case ChangeTable(pid, top) =>
      StepKeepsTable(s.tables[pid], top, pageSize);
      StepKeepsPlaced(s.tables[pid], top, pageSize);
      forall e | e in u.blocks && e.valid
        ensures e.pid in u.tables && Sound(e, u.tables[e.pid], pageSize)
      {
        if e.pid == pid {
          SoundKept(e, s.tables[pid], u.tables[pid], pageSize);
        }
      }
    case FillBlock(slot, pid, vAddr, level, mem) =>
      FillIsSound(s.tables[pid], mem, pid, vAddr, level, pageSize);
      forall e | e in u.blocks && e.valid
        ensures e.pid in u.tables && Sound(e, u.tables[e.pid], pageSize)
      {
        assert e in s.blocks || e == u.blocks[slot];
      }
    case ResetCache =>
  }

  /** Over every run of fills, resets and changes to the page tables, a hit resumes the walk of the
      request it answers, over any memory that holds the table of the moment. */
  lemma {:induction false} EveryHitResumesWalk(states: seq<System>, ops: seq<SystemOp>, pageSize: nat)
    requires pageSize > 0 && pageSize % 4 == 0 && |states| == |ops| + 1
    requires forall pid :: pid in states[0].tables ==> states[0].tables[pid] == EMPTY
    requires forall e :: e in states[0].blocks ==> !e.valid
    requires forall i :: 0 <= i < |ops| ==> EnabledOp(states[i], ops[i], pageSize) && states[i + 1] == StepSystem(states[i], ops[i], pageSize)
    ensures forall i, e, pid, vAddr, mem {:trigger Matches(e, pid, vAddr, pageSize), Loaded(states[i].tables[pid], mem)} ::
      0 <= i < |states| && e in states[i].blocks && pid in states[i].tables && Matches(e, pid, vAddr, pageSize)
      && [] in states[i].tables[pid].dirs && Loaded(states[i].tables[pid], mem) ==>
        var l := LevelBits(e.data);
        l < LEVELS - 1
        && Walk(mem, AddrBits(e.data), Shifted(Rearranged(0, Vpn(vAddr, pageSize), LEVELS), l + 1), LEVELS - l - 1)
           == WalkOf(states[i].tables[pid], mem, vAddr, pageSize)[l + 1..]
  {
    var n := 0;
    while n < |ops|
      invariant 0 <= n <= |ops|
      invariant forall i :: 0 <= i <= n ==> SystemInv(states[i], pageSize)
    {
      StepKeepsSystem(states[n], ops[n], pageSize);
      n := n + 1;
    }
    forall i, e, pid, vAddr, mem |
      0 <= i < |states| && e in states[i].blocks && pid in states[i].tables && Matches(e, pid, vAddr, pageSize)
      && [] in states[i].tables[pid].dirs && Loaded(states[i].tables[pid], mem)
      ensures var l := LevelBits(e.data);
        l < LEVELS - 1
        && Walk(mem, AddrBits(e.data), Shifted(Rearranged(0, Vpn(vAddr, pageSize), LEVELS), l + 1), LEVELS - l - 1)
           == WalkOf(states[i].tables[pid], mem, vAddr, pageSize)[l + 1..]
    {
      HitResumesWalk(states[i].tables[pid], mem, e, pid, vAddr, pageSize);
    }
  }
}
