/**
 The page table written to memory as words, and the walker that reads it back. A memory
 gives the 64-bit word at each 8-byte aligned address.
 */
module PageWalk {
  import opened RadixTable

  type Memory = nat -> nat

  const TABLE_BYTES: nat := 4096

  /** The word of one directory slot: the child's physical address, 0 when there is no child. */
  function ChildWord(t: Table, p: Path, c: nat): nat
  {
    var q := p + [c];
    if q in t.dirs then t.dirs[q] else if q in t.pages then t.pages[q].pAddr else 0
  }

  function Row(t: Table, p: Path): (r: seq<nat>)
    ensures |r| == FANOUT && forall c :: 0 <= c < FANOUT ==> r[c] == ChildWord(t, p, c)
  {
    seq(FANOUT, c requires 0 <= c => ChildWord(t, p, c))
  }

  /** The image of the directories in the given order: each one's address, then its row. */
  function Image(t: Table, order: seq<Path>): seq<nat>
    requires forall p :: p in order ==> p in t.dirs
  {
    if order == [] then []
    else Image(t, order[..|order| - 1]) + [t.dirs[order[|order| - 1]]] + Row(t, order[|order| - 1])
  }

  /** Copying one row of words to a directory's page. */
  function StoreRow(mem: Memory, base: nat, row: seq<nat>): Memory
    requires |row| == FANOUT
  {
    (a: nat) =>
      if base <= a < base + TABLE_BYTES && (a - base) % 8 == 0 then row[(a - base) / 8] else mem(a)
  }

  /** The driver's loop over the image: 513 words at a time. */
  function Load(words: seq<nat>, mem: Memory): Memory
    decreases |words|
  {
    if |words| < 1 + FANOUT then mem
    else Load(words[1 + FANOUT..], StoreRow(mem, words[0], words[1..1 + FANOUT]))
  }

  /** Directory pages have non-zero, page-aligned addresses, one each; leaves have non-zero ones. */
  ghost predicate Placed(t: Table)
  {
    && (forall p {:trigger p in t.dirs} :: p in t.dirs ==> t.dirs[p] > 0 && t.dirs[p] % TABLE_BYTES == 0)
    && (forall p, q {:trigger t.dirs[p], t.dirs[q]} :: p in t.dirs && q in t.dirs && t.dirs[p] == t.dirs[q] ==> p == q)
    && (forall p {:trigger p in t.pages} :: p in t.pages ==> t.pages[p].pAddr > 0)
  }

  /** Memory holds every directory's row at the directory's address. */
  ghost predicate Loaded(t: Table, mem: Memory)
  {
    forall p, c {:trigger ChildWord(t, p, c)} :: p in t.dirs && 0 <= c < FANOUT ==>
      mem(t.dirs[p] + c * 8) == ChildWord(t, p, c)
  }

  // ----- loading the image -----

  lemma {:induction false} LoadAppend(a: seq<nat>, base: nat, row: seq<nat>, mem: Memory)
    requires |a| % (1 + FANOUT) == 0 && |row| == FANOUT
    ensures Load(a + [base] + row, mem) == StoreRow(Load(a, mem), base, row)
    decreases |a|
  {
    var words := a + [base] + row;
    if a == [] {
      assert words == [base] + row && words[1..1 + FANOUT] == row && words[1 + FANOUT..] == [];
    } else {
      var rest := a[1 + FANOUT..];
      assert words[1 + FANOUT..] == rest + [base] + row;
      assert words[1..1 + FANOUT] == a[1..1 + FANOUT];
      LoadAppend(rest, base, row, StoreRow(mem, a[0], a[1..1 + FANOUT]));
    }
  }

  lemma {:induction false} ImageLength(t: Table, order: seq<Path>)
    requires forall p :: p in order ==> p in t.dirs
    ensures |Image(t, order)| == |order| * (1 + FANOUT)
  {
    if order != [] {
      ImageLength(t, order[..|order| - 1]);
    }
  }

  /** Two distinct directory pages do not share a word. */
  lemma SeparatePages(a: nat, b: nat, c: nat)
    requires a % TABLE_BYTES == 0 && b % TABLE_BYTES == 0 && a != b && c < FANOUT
    ensures !(b <= a + c * 8 < b + TABLE_BYTES)
  {
  }

  /** After loading, each listed directory's page holds its row. */
  lemma {:induction false} LoadRows(t: Table, order: seq<Path>, mem: Memory, p: Path, c: nat)
    requires Placed(t) && (forall q :: q in order ==> q in t.dirs)
    requires p in order && c < FANOUT
    ensures Load(Image(t, order), mem)(t.dirs[p] + c * 8) == ChildWord(t, p, c)
    decreases |order|
  {
    var init, last := order[..|order| - 1], order[|order| - 1];
    ImageLength(t, init);
    LoadAppend(Image(t, init), t.dirs[last], Row(t, last), mem);
    if p == last {
      assert (c * 8) / 8 == c && (c * 8) % 8 == 0;
    } else {
      assert p in init;
      assert t.dirs[p] != t.dirs[last];
      SeparatePages(t.dirs[p], t.dirs[last], c);
      LoadRows(t, init, mem, p, c);
    }
  }

  /** Loading an image that lists every directory leaves the whole table in memory. */
  lemma ImageLoads(t: Table, order: seq<Path>, mem: Memory)
    requires Placed(t) && forall p :: p in order <==> p in t.dirs
    ensures Loaded(t, Load(Image(t, order), mem))
  {
    forall p, c | p in t.dirs && 0 <= c < FANOUT
      ensures Load(Image(t, order), mem)(t.dirs[p] + c * 8) == ChildWord(t, p, c)
    {
      LoadRows(t, order, mem, p, c);
    }
  }

  // ----- walking -----

  function AddOffset(root: nat, rv: nat): nat { root + (rv % FANOUT) * 8 }

  function NextLevel(rv: nat): nat { rv / FANOUT }

  datatype Access = Access(addr: nat, word: nat)

  /** `n` steps of the walker from table address `ppn`: each reads the slot that `rv` selects and
      takes the word as the next table address. */
  function Walk(mem: Memory, ppn: nat, rv: nat, n: nat): (r: seq<Access>)
    ensures |r| == n
    decreases n
  {
    if n == 0 then []
    else
      var a := AddOffset(ppn, rv);
      [Access(a, mem(a))] + Walk(mem, mem(a), NextLevel(rv), n - 1)
  }

  /** Down the part of the tree that exists, the walk reads exactly the table's own slots. */
  lemma {:induction false} WalkFollowsTree(t: Table, mem: Memory, p: Path, rv: nat, n: nat, j: nat)
    requires Loaded(t, mem) && p in t.dirs && j < n
    requires forall i :: 0 <= i <= j ==> p + Digits(rv, n)[..i] in t.dirs
    ensures var q := p + Digits(rv, n)[..j];
      Walk(mem, t.dirs[p], rv, n)[j] == Access(t.dirs[q] + Digits(rv, n)[j] * 8, ChildWord(t, q, Digits(rv, n)[j]))
    decreases n
  {
    var ds := Digits(rv, n);
    var c := rv % FANOUT;
    assert ds == [c] + Digits(NextLevel(rv), n - 1);
    assert p + ds[..0] == p;
    assert mem(t.dirs[p] + c * 8) == ChildWord(t, p, c);
    if j > 0 {
      var p' := p + [c];
      assert p + ds[..1] == p';
      assert p' in t.dirs;
      var ds' := Digits(NextLevel(rv), n - 1);
      forall i | 0 <= i <= j - 1
        ensures p' + ds'[..i] == p + ds[..i + 1] && p' + ds'[..i] in t.dirs
      {
        assert p' + ds'[..i] == p + ds[..i + 1];
        assert p + ds[..i + 1] in t.dirs;
      }
      WalkFollowsTree(t, mem, p', NextLevel(rv), n - 1, j - 1);
    }
  }

  /** How deep the tree goes along a path: the number of leading prefixes that are directories. */
  function Depth(t: Table, path: Path): (r: nat)
    requires |path| == LEVELS
    ensures r <= LEVELS
    ensures forall i :: 0 <= i < r ==> path[..i] in t.dirs
    ensures r < LEVELS ==> path[..r] !in t.dirs
  {
    if path[..0] !in t.dirs then 0
    else if path[..1] !in t.dirs then 1
    else if path[..2] !in t.dirs then 2
    else if path[..3] !in t.dirs then 3
    else 4
  }

  lemma {:induction false} DirsOnPath(dirs: map<Path, nat>, path: Path, k: nat)
    requires DirsClosed(dirs) && k <= |path| && path[..k] in dirs
    ensures forall i :: 0 <= i <= k ==> path[..i] in dirs
  {
    if k > 0 {
      assert path[..k][..|path[..k]| - 1] == path[..k - 1];
      DirsOnPath(dirs, path, k - 1);
    }
  }

  function WalkOf(t: Table, mem: Memory, vAddr: nat, pageSize: nat): (r: seq<Access>)
    requires pageSize > 0 && [] in t.dirs
    ensures |r| == LEVELS
  {
    Walk(mem, t.dirs[[]], Rearranged(0, Vpn(vAddr, pageSize), LEVELS), LEVELS)
  }

  lemma WalkStep(t: Table, mem: Memory, vAddr: nat, pageSize: nat, l: nat)
    requires pageSize > 0 && Loaded(t, mem) && [] in t.dirs
    requires l < Depth(t, PathOf(vAddr, pageSize))
    ensures var path := PathOf(vAddr, pageSize);
      && path[..l] in t.dirs && path[..l] + [path[l]] == path[..l + 1]
      && WalkOf(t, mem, vAddr, pageSize)[l] == Access(t.dirs[path[..l]] + path[l] * 8, ChildWord(t, path[..l], path[l]))
  {
    var path := PathOf(vAddr, pageSize);
    forall i | 0 <= i <= l
      ensures [] + path[..i] in t.dirs
    {
      assert [] + path[..i] == path[..i];
    }
    WalkFollowsTree(t, mem, [], Rearranged(0, Vpn(vAddr, pageSize), LEVELS), LEVELS, l);
    assert [] + path[..l] == path[..l];
  }

  /** At every level the tree has, the walk touches the address that `FindAddr` names and reads a
      word that leads on. */
  lemma WalkTouchesFindAddr(t: Table, mem: Memory, vAddr: nat, pageSize: nat, l: nat)
    requires pageSize > 0 && Placed(t) && Loaded(t, mem) && [] in t.dirs && DirsClosed(t.dirs)
    requires FindAddr(t, vAddr, l, pageSize).Ok?
    ensures l < LEVELS && WalkOf(t, mem, vAddr, pageSize)[l].addr == FindAddr(t, vAddr, l, pageSize).value
    ensures WalkOf(t, mem, vAddr, pageSize)[l].word > 0
  {
    var path := PathOf(vAddr, pageSize);
    DirsOnPath(t.dirs, path, l);
    assert l < Depth(t, path);
    WalkStep(t, mem, vAddr, pageSize, l);
  }

  /** The walk ends at the page's physical address, or at a zero word where the tree ends. */
  lemma WalkEnds(t: Table, mem: Memory, vAddr: nat, pageSize: nat)
    requires pageSize > 0 && Valid(t, pageSize) && Placed(t) && Loaded(t, mem) && [] in t.dirs
    ensures var path, walk := PathOf(vAddr, pageSize), WalkOf(t, mem, vAddr, pageSize);
      var d := Depth(t, path);
      && 1 <= d
      && (path in t.pages ==> d == LEVELS && walk[LEVELS - 1].word == t.pages[path].pAddr)
      && (path !in t.pages ==> walk[d - 1].word == 0)
      && (forall l {:trigger walk[l]} :: 0 <= l < d && (l < d - 1 || path in t.pages) ==> walk[l].word > 0)
  {
    var path := PathOf(vAddr, pageSize);
    var d := Depth(t, path);
    assert path[..0] == [] && path[..LEVELS] == path;
    if path in t.pages {
      DirsOnPath(t.dirs, path, LEVELS - 1);
    }
    WalkStep(t, mem, vAddr, pageSize, d - 1);
    forall l | 0 <= l < d && (l < d - 1 || path in t.pages)
      ensures WalkOf(t, mem, vAddr, pageSize)[l].word > 0
    {
      WalkStep(t, mem, vAddr, pageSize, l);
      if l < d - 1 {
        assert path[..l + 1] in t.dirs;
      }
    }
  }

  /** The main statement for a request: the walk over the loaded image translates the address to
      what `Find` returns, touching at each level the address `FindAddr` reports; without a page
      it reads a zero word at the level where the tree ends. */
  lemma ImageWalkTranslates(t: Table, order: seq<Path>, mem0: Memory, vAddr: nat, pageSize: nat)
    requires pageSize > 0 && Valid(t, pageSize) && Placed(t) && [] in t.dirs
    requires forall p :: p in order <==> p in t.dirs
    requires Vpn(vAddr, pageSize) < Power(LEVELS)
    ensures var walk := WalkOf(t, Load(Image(t, order), mem0), vAddr, pageSize);
      var found := Find(t, AlignToPage(vAddr, pageSize));
      && (found.Ok? ==> walk[LEVELS - 1].word == found.value.pAddr)
      && (found.Ok? ==> forall l {:trigger walk[l]} :: 0 <= l < LEVELS ==>
           walk[l].word > 0 && FindAddr(t, vAddr, l, pageSize) == Ok(walk[l].addr))
      && var d := Depth(t, PathOf(vAddr, pageSize));
         1 <= d && (found.Panic? <==> walk[d - 1].word == 0)
  {
    var mem := Load(Image(t, order), mem0);
    var path, walk := PathOf(vAddr, pageSize), WalkOf(t, mem, vAddr, pageSize);
    ImageLoads(t, order, mem0);
    WalkEnds(t, mem, vAddr, pageSize);
    DescentAgreesWithFind(t, vAddr, pageSize);
    if path in t.pages {
      forall l | 0 <= l < LEVELS
        ensures walk[l].word > 0 && FindAddr(t, vAddr, l, pageSize) == Ok(walk[l].addr)
      {
        assert path[..LEVELS] == path;
        assert path[..l] in t.dirs && (l + 1 < LEVELS ==> path[..l + 1] in t.dirs);
        WalkTouchesFindAddr(t, mem, vAddr, pageSize, l);
      }
    }
  }
}
