/** The page table of one process as linked tree nodes, updated in place. */
module ProcessTable {
  import opened RadixTable
  import PageWalk

  class TreeNode {
    var pAddr: nat
    var page: Page
    var children: seq<TreeNode?>
    ghost const path: Path

    constructor Dir(pAddr: nat, ghost path: Path)
      ensures this.pAddr == pAddr && children == seq(FANOUT, _ => null) && this.path == path
    {
      this.path := path;
      this.pAddr, children := pAddr, seq(FANOUT, _ => null);
      page := Page(0, 0, 0, 0, false, 0, false, false, false);
    }

    constructor Leaf(page: Page, ghost path: Path)
      ensures this.page == page && pAddr == page.pAddr && children == [] && this.path == path
    {
      this.path := path;
      this.pAddr, this.page, children := page.pAddr, page, [];
    }
  }

  /** The slots of a directory at path `p` are its children, null where there is none. */
  ghost predicate Slots(nodes: map<Path, TreeNode>, p: Path, children: seq<TreeNode?>)
  {
    && |children| == FANOUT
    && forall c: nat {:trigger p + [c]} {:trigger children[c]} :: c < FANOUT ==>
         if p + [c] in nodes then children[c] == nodes[p + [c]] else children[c] == null
  }

  /** What a node at path `p` must hold. */
  ghost predicate NodeHolds(nodes: map<Path, TreeNode>, t: Table, p: Path, pAddr: nat, page: Page, children: seq<TreeNode?>)
  {
    if p in t.dirs then pAddr == t.dirs[p] && Slots(nodes, p, children)
    else p in t.pages && page == t.pages[p] && pAddr == t.pages[p].pAddr && children == []
  }

  ghost predicate NodeOk(nodes: map<Path, TreeNode>, t: Table, p: Path)
    requires p in nodes
    reads nodes[p]
  {
    NodeHolds(nodes, t, p, nodes[p].pAddr, nodes[p].page, nodes[p].children)
  }

  ghost predicate KeysOk(nodes: map<Path, TreeNode>, t: Table)
  {
    && nodes.Keys == t.dirs.Keys + t.pages.Keys
    && (forall p {:trigger p in t.dirs} :: p in t.dirs ==> p !in t.pages && |p| < LEVELS)
    && (forall p {:trigger p in t.pages} :: p in t.pages ==> |p| == LEVELS)
    && ParentsOk(nodes, t)
    && (forall p {:trigger nodes[p]} :: p in nodes ==> nodes[p].path == p)
  }

  ghost predicate ParentsOk(nodes: map<Path, TreeNode>, t: Table)
  {
    forall p {:trigger p[..|p| - 1]} :: p in nodes && |p| > 0 ==> p[..|p| - 1] in t.dirs && p[|p| - 1] < FANOUT
  }

  class ProcessTable {
    const pageSize: nat
    var root: TreeNode?
    var entriesTable: map<nat, Page>

    ghost var nodes: map<Path, TreeNode>
    ghost var table: Table

    ghost predicate Shape()
      reads this, nodes.Values
    {
      && KeysOk(nodes, table)
      && (root == null <==> nodes == map[])
      && (root != null ==> [] in nodes && nodes[[]] == root)
      && forall p {:trigger nodes[p]} :: p in nodes ==> NodeOk(nodes, table, p)
    }

    ghost predicate Valid()
      reads this, nodes.Values
    {
      pageSize > 0 && Shape() && entriesTable == table.entries && RadixTable.Valid(table, pageSize)
    }

    constructor (pageSize: nat)
      requires pageSize > 0
      ensures Valid() && table == EMPTY && this.pageSize == pageSize
    {
      this.pageSize, root, entriesTable := pageSize, null, map[];
      nodes, table := map[], EMPTY;
    }

    /** `rearrange`, digit by digit. */
    method Rearrange(vAddr: nat) returns (rearrangedVpn: nat)
      requires pageSize > 0
      ensures rearrangedVpn == Rearranged(0, Vpn(vAddr, pageSize), LEVELS)
    {
      rearrangedVpn := 0;
      var vpn: nat := Vpn(vAddr, pageSize);
      var i := 0;
      while i < LEVELS
        invariant 0 <= i <= LEVELS
        invariant Rearranged(rearrangedVpn, vpn, LEVELS - i) == Rearranged(0, Vpn(vAddr, pageSize), LEVELS)
      {
        rearrangedVpn := rearrangedVpn * FANOUT + vpn % FANOUT;
        vpn := vpn / FANOUT;
        i := i + 1;
      }
    }

    lemma MissingMonotone(dirs: map<Path, nat>, path: Path, j: nat, k: nat)
      requires j <= k <= |path|
      ensures Missing(dirs, path, j) <= Missing(dirs, path, k)
    {
      if j < k {
        MissingMonotone(dirs, path, j, k - 1);
      }
    }

    lemma ChildAbsent(p: Path, c: nat)
      requires Shape() && p in table.dirs && c < FANOUT
      ensures nodes[p].children[c] == null <==> p + [c] !in nodes
      ensures p + [c] in nodes ==> nodes[p].children[c] == nodes[p + [c]]
    {
      assert NodeOk(nodes, table, p);
    }

    /** Insert a page; `supply` is what the allocator returns for new directories, in order. The
        result counts how many of them were used. */
    method Insert(page: Page, supply: seq<nat>) returns (r: Outcome<nat>)
      requires Valid() && Addressable(page.vAddr, pageSize)
      requires Missing(table.dirs, PathOf(page.vAddr, pageSize), LEVELS) <= |supply|
      modifies this, nodes.Values
      ensures Valid() && fresh(nodes.Values - old(nodes.Values))
      ensures r.Panic? <==> page.vAddr in old(table.entries)
      ensures r.Panic? ==> table == old(table)
      ensures r.Ok? ==> RadixTable.Insert(old(table), page, pageSize, supply) == Ok(table)
      ensures r.Ok? ==> r.value == Missing(old(table.dirs), PathOf(page.vAddr, pageSize), LEVELS)
    {
      hide *;
      Positive();
      ghost var t, path := table, PathOf(page.vAddr, pageSize);
      InsertFacts(page, supply);
      var n, rv, used := Descend(page.vAddr, supply);
      var indexOfChild := rv % FANOUT;
      ghost var p := path[..LEVELS - 1];
      assert p + [indexOfChild] == path;
      LeafSlot(p, indexOfChild);
      if n.children[indexOfChild] != null {
        assert table == t;
        Assemble();
        return Panic;
      }
      AttachLeaf(n, indexOfChild, page, p);
      assert page.vAddr !in entriesTable;
      SetEntries(entriesTable[page.vAddr := page]);
      Assemble();
      r := Ok(used);
    }

    /** `find`: the flat map alone answers. */
    method Find(vAddr: nat) returns (r: Outcome<Page>)
      requires Valid()
      ensures r == RadixTable.Find(table, vAddr)
    {
      r := if vAddr in entriesTable then Ok(entriesTable[vAddr]) else Panic;
    }

    lemma Closed()
      requires Valid()
      ensures DirsClosed(table.dirs)
      ensures forall p :: p in table.pages ==> |p| == LEVELS && p[..LEVELS - 1] in table.dirs
    {
    }

    lemma DirAt(p: Path)
      requires Shape() && p in table.dirs
      ensures p in nodes && nodes[p].pAddr == table.dirs[p]
    {
      assert NodeOk(nodes, table, p);
    }

    /** The node the walk for `vAddr` reaches after `level` steps; null when a step is missing. */
    method Locate(vAddr: nat, level: nat) returns (n: TreeNode?, rv: nat)
      requires pageSize > 0 && Shape() && root != null && DirsClosed(table.dirs) && level < LEVELS
      ensures var path := PathOf(vAddr, pageSize);
        && (path[..level] !in table.dirs ==> n == null)
        && (path[..level] in table.dirs ==> path[..level] in nodes && n == nodes[path[..level]] && rv % FANOUT == path[level])
    {
      hide Shape, DirsClosed;
      ghost var path := PathOf(vAddr, pageSize);
      RootPresent();
      assert path[..0] == [] && path[0..] == path;
      n := root;
      rv := Rearrange(vAddr);
      var i := 0;
      while i < level
        invariant 0 <= i <= level
        invariant path[..i] in table.dirs && path[..i] in nodes && n == nodes[path[..i]]
        invariant Digits(rv, LEVELS - i) == path[i..]
      {
        DigitStep(rv, LEVELS - i);
        var indexOfChild := rv % FANOUT;
        assert path[..i] + [indexOfChild] == path[..i + 1] && path[i..][1..] == path[i + 1..];
        ChildAbsent(path[..i], indexOfChild);
        DirLength(path[..i]);
        n := n.children[indexOfChild];
        if n == null {
          NotBelow(path, i + 1, level);
          return;
        }
        ChildIsDir(path[..i + 1]);
        rv := rv / FANOUT;
        i := i + 1;
      }
      DigitStep(rv, LEVELS - level);
      assert path[level..][0] == path[level];
    }

    lemma ChildIsDir(p: Path)
      requires Shape() && p in nodes && |p| < LEVELS
      ensures p in table.dirs
    {
      assert p in table.dirs || p in table.pages;
    }

    lemma NotBelow(path: Path, i: nat, level: nat)
      requires Shape() && DirsClosed(table.dirs) && i <= level <= |path|
      ensures path[..level] in table.dirs ==> path[..i] in nodes
    {
      if path[..level] in table.dirs {
        PageWalk.DirsOnPath(table.dirs, path, level);
        assert path[..i] in table.dirs;
      }
    }

    /** `findAddr`: the address of the slot the walk reads at `level`. */
    method FindAddr(vAddr: nat, level: nat) returns (r: Outcome<nat>)
      requires Valid()
      ensures r == RadixTable.FindAddr(table, vAddr, level, pageSize)
    {
      hide Shape, RadixTable.Valid;
      if level >= LEVELS || root == null {
        RootPresent();
        return Panic;
      }
      ghost var path := PathOf(vAddr, pageSize);
      Closed();
      var n, rv := Locate(vAddr, level);
      if n == null {
        return Panic;
      }
      var indexOfChild := rv % FANOUT;
      assert path[..level] + [indexOfChild] == path[..level + 1];
      ChildAbsent(path[..level], indexOfChild);
      DirLength(path[..level]);
      DirAt(path[..level]);
      SlotTaken(path[..level + 1]);
      if n.children[indexOfChild] == null {
        return Panic;
      }
      return Ok(n.pAddr + indexOfChild * 8);
    }

    lemma SlotTaken(p: Path)
      requires Shape()
      ensures p in nodes <==> p in table.dirs || p in table.pages
    {
    }

    /** One directory's row and its children, left to right. */
    method RowOf(n: TreeNode, ghost p: Path) returns (row: seq<nat>, kids: seq<TreeNode>)
      requires Shape() && p in table.dirs && p in nodes && nodes[p] == n
      ensures row == PageWalk.Row(table, p)
      ensures Located(nodes, kids, Kids(nodes.Keys, p, FANOUT))
    {
      hide Shape;
      DirLength(p);
      row, kids := [], [];
      var i := 0;
      while i < FANOUT
        invariant 0 <= i <= FANOUT && |row| == i
        invariant forall c :: 0 <= c < i ==> row[c] == PageWalk.ChildWord(table, p, c)
        invariant Located(nodes, kids, Kids(nodes.Keys, p, i))
      {
        ChildAbsent(p, i);
        SlotTaken(p + [i]);
        var child := n.children[i];
        var pAddrOfChild := 0;
        if child != null {
          NodeAddr(p + [i]);
          pAddrOfChild := child.pAddr;
          var node: TreeNode := child;
          kids := kids + [node];
        }
        row := row + [pAddrOfChild];
        i := i + 1;
      }
      assert row == PageWalk.Row(table, p);
    }

    lemma NodeAddr(q: Path)
      requires Shape() && q in nodes
      ensures q in table.dirs ==> nodes[q].pAddr == table.dirs[q] && nodes[q].children != []
      ensures q !in table.dirs ==> q in table.pages && nodes[q].pAddr == table.pages[q].pAddr && nodes[q].children == []
    {
      assert NodeOk(nodes, table, q);
    }

    /** The state of the traversal: what has been written lists the visited directories. */
    ghost predicate Listed(queue: seq<TreeNode>, paths: seq<Path>, done: set<Path>, order: seq<Path>, words: seq<nat>)
      reads this
    {
      && Located(nodes, queue, paths)
      && (forall p :: p in order <==> p in done && p in table.dirs)
      && (forall i, j :: 0 <= i < j < |order| ==> order[i] != order[j])
      && words == PageWalk.Image(table, order)
    }

    /** Visit the node at the front of the queue. */
    method Visit(queue: seq<TreeNode>, words: seq<nat>, ghost paths: seq<Path>, ghost done: set<Path>, ghost order: seq<Path>)
      returns (queue': seq<TreeNode>, words': seq<nat>, ghost order': seq<Path>)
      requires Shape() && |queue| > 0 && Listed(queue, paths, done, order, words) && paths[0] !in done
      ensures Listed(queue', paths[1..] + Kids(nodes.Keys, paths[0], FANOUT), done + {paths[0]}, order', words')
    {
      hide Shape, Kids;
      var n := queue[0];
      ghost var p := paths[0];
      queue' := queue[1..];
      NodeAddr(p);
      SlotTaken(p);
      words', order' := words, order;
      if |n.children| > 0 {
        var row, kids := RowOf(n, p);
        order' := order + [p];
        assert order'[..|order|] == order;
        words' := words + [n.pAddr] + row;
        queue' := queue' + kids;
      } else {
        NoKids(p);
        assert paths[1..] + [] == paths[1..];
      }
    }

    /** The breadth-first image of the table's directories. */
    method PageTablePagesAsBytes() returns (pagesAsInts: seq<nat>, ghost order: seq<Path>)
      requires Valid() && root != null
      ensures forall p :: p in order <==> p in table.dirs
      ensures forall i, j :: 0 <= i < j < |order| ==> order[i] != order[j]
      ensures pagesAsInts == PageWalk.Image(table, order)
    {
      hide Valid, Shape, Frontier, Kids, PageWalk.Image;
      Positive();
      RootPresent();
      pagesAsInts, order := [], [];
      var queue: seq<TreeNode> := [root];
      ghost var paths, done := [[]], {};
      FrontierStart(nodes.Keys);
      EmptyImage(table);
      while |queue| > 0
        invariant Listed(queue, paths, done, order, pagesAsInts) && Frontier(nodes.Keys, done, paths)
        decreases |nodes.Keys - done|
      {
        ghost var p := paths[0];
        FrontierStep(nodes.Keys, done, paths);
        queue, pagesAsInts, order := Visit(queue, pagesAsInts, paths, done, order);
        done := done + {p};
        paths := paths[1..] + Kids(nodes.Keys, p, FANOUT);
      }
      AllReached();
      FrontierComplete(nodes.Keys, done);
      forall p
        ensures p in order <==> p in table.dirs
      {
        SlotTaken(p);
      }
    }

    lemma AllReached()
      requires Shape() && root != null
      ensures forall p :: p in nodes && |p| > 0 ==> p[..|p| - 1] in nodes && p[|p| - 1] < FANOUT
    {
      forall p | p in nodes && |p| > 0
        ensures p[..|p| - 1] in nodes && p[|p| - 1] < FANOUT
      {
        assert p[..|p| - 1] in table.dirs;
      }
    }

    lemma NoKids(p: Path)
      requires Shape() && p in table.pages
      ensures Kids(nodes.Keys, p, FANOUT) == []
    {
      assert p !in table.dirs;
      forall c: nat
        ensures p + [c] !in nodes
      {
        var q := p + [c];
        assert q[..|q| - 1] == p;
      }
      KidsEmpty(nodes.Keys, p, FANOUT);
    }

    /** `remove`: unhook the leaf and drop the page from the flat map. */
    method Remove(vAddr: nat) returns (r: Outcome<()>)
      requires Valid()
      modifies this, nodes.Values
      ensures r.Panic? <==> vAddr !in old(table.entries)
      ensures r.Panic? ==> Valid() && table == old(table)
      ensures r.Ok? ==> Valid() && RadixTable.Remove(old(table), vAddr, pageSize) == Ok(table)
    {
      hide Valid, Shape, RadixTable.Valid, RadixTable.Remove, DirsClosed;
      Positive();
      Closed();
      ghost var path := PathOf(vAddr, pageSize);
      RemoveFacts(vAddr);
      if root == null {
        RootPresent();
        return Panic;
      }
      var n, rv := Locate(vAddr, LEVELS - 1);
      if n == null {
        return Panic;
      }
      var indexOfChild := rv % FANOUT;
      ghost var p := path[..LEVELS - 1];
      assert p + [indexOfChild] == path;
      LeafSlot(p, indexOfChild);
      var leaf := n.children[indexOfChild];
      if leaf == null || leaf.page.vAddr != vAddr {
        return Panic;
      }
      DetachLeaf(n, indexOfChild, p);
      SetEntries(entriesTable - {vAddr});
      Assemble();
      r := Ok(());
    }

    lemma RemoveFacts(vAddr: nat)
      requires Valid()
      ensures var path := PathOf(vAddr, pageSize);
        && |path| == LEVELS
        && (vAddr in table.entries <==> path in table.pages && table.pages[path].vAddr == vAddr)
        && (vAddr in table.entries ==>
              var u := Table(table.dirs, table.pages - {path}, table.entries - {vAddr});
              RadixTable.Remove(table, vAddr, pageSize) == Ok(u) && RadixTable.Valid(u, pageSize))
    {
      RemoveValid(table, vAddr, pageSize);
    }

    /** `update`: overwrite the leaf's page and the flat map's. */
    method Update(page: Page) returns (r: Outcome<()>)
      requires Valid() && Addressable(page.vAddr, pageSize)
      modifies this, nodes.Values
      ensures r.Panic? <==> page.vAddr !in old(table.entries)
      ensures r.Panic? ==> Valid() && table == old(table)
      ensures r.Ok? ==> Valid() && RadixTable.Update(old(table), page, pageSize) == Ok(table)
    {
      hide Valid, Shape, RadixTable.Valid, RadixTable.Update, DirsClosed;
      Positive();
      Closed();
      ghost var path := PathOf(page.vAddr, pageSize);
      UpdateFacts(page);
      if root == null {
        RootPresent();
        return Panic;
      }
      var n, rv := Locate(page.vAddr, LEVELS - 1);
      if n == null {
        return Panic;
      }
      var indexOfChild := rv % FANOUT;
      ghost var p := path[..LEVELS - 1];
      assert p + [indexOfChild] == path;
      LeafSlot(p, indexOfChild);
      var leaf := n.children[indexOfChild];
      if leaf == null {
        return Panic;
      }
      SetLeaf(leaf, page, path);
      SetEntries(entriesTable[page.vAddr := page]);
      Assemble();
      r := Ok(());
    }

    lemma UpdateFacts(page: Page)
      requires Valid() && Addressable(page.vAddr, pageSize)
      ensures var path := PathOf(page.vAddr, pageSize);
        && |path| == LEVELS
        && (page.vAddr in table.entries <==> path in table.pages)
        && (page.vAddr in table.entries ==>
              var u := Table(table.dirs, table.pages[path := page], table.entries[page.vAddr := page]);
              RadixTable.Update(table, page, pageSize) == Ok(u) && RadixTable.Valid(u, pageSize))
    {
      UpdateValid(table, page, pageSize);
      var path := PathOf(page.vAddr, pageSize);
      if path in table.pages {
        PathInjective(table.pages[path].vAddr, page.vAddr, pageSize);
      }
    }

    method SetLeaf(leaf: TreeNode, page: Page, ghost q: Path)
      requires Shape() && q in table.pages && q in nodes && nodes[q] == leaf
      modifies leaf`pAddr, leaf`page, this`table
      ensures Shape() && table == old(table).(pages := old(table.pages)[q := page])
    {
      hide KeysOk, Slots;
      ghost var t := table;
      KeysSet(nodes, t, q, page);
      assert NodeOk(nodes, table, q);
      leaf.pAddr, leaf.page := page.pAddr, page;
      table := table.(pages := table.pages[q := page]);
      forall r | r in nodes
        ensures NodeOk(nodes, table, r)
      {
        assert old(NodeOk(nodes, t, r));
        if r != q {
          NodesApart(nodes, t, q, r);
        }
      }
    }

    method DetachLeaf(n: TreeNode, c: nat, ghost p: Path)
      requires Shape() && p in table.dirs && p in nodes && nodes[p] == n && c < FANOUT && p + [c] in table.pages
      modifies this`nodes, this`table, n`children
      ensures Shape() && nodes == old(nodes) - {p + [c]}
      ensures table == old(table).(pages := old(table.pages) - {p + [c]})
    {
      hide KeysOk, Slots;
      ghost var q, was, t := p + [c], nodes, table;
      DirLength(p);
      KeysDetach(was, t, q);
      n.children := n.children[c := null];
      nodes := nodes - {q};
      table := table.(pages := table.pages - {q});
      forall r | r in nodes
        ensures NodeOk(nodes, table, r)
      {
        assert old(NodeOk(was, t, r));
        SlotsDetach(was, p, c, r);
        if r != p {
          NodesApart(was, t, p, r);
        }
      }
    }

    lemma InsertFacts(page: Page, supply: seq<nat>)
      requires Valid() && Addressable(page.vAddr, pageSize)
      requires Missing(table.dirs, PathOf(page.vAddr, pageSize), LEVELS) <= |supply|
      ensures Shape() && DirsClosed(table.dirs) && entriesTable == table.entries
      ensures var path := PathOf(page.vAddr, pageSize);
        var dirs := Grow(table.dirs, path, LEVELS, supply);
        && |path| == LEVELS
        && (page.vAddr in table.entries <==> path in table.pages)
        && (path in table.pages ==> dirs == table.dirs)
        && (path !in table.pages ==>
              var u := Table(dirs, table.pages[path := page], table.entries[page.vAddr := page]);
              RadixTable.Insert(table, page, pageSize, supply) == Ok(u) && RadixTable.Valid(u, pageSize))
    {
      var path := PathOf(page.vAddr, pageSize);
      InsertValid(table, page, pageSize, supply);
      if path in table.pages {
        PathInjective(table.pages[path].vAddr, page.vAddr, pageSize);
        PageWalk.DirsOnPath(table.dirs, path, LEVELS - 1);
        GrowPresent(table.dirs, path, LEVELS, supply);
      }
    }

    lemma DirLength(p: Path)
      requires Shape() && p in table.dirs
      ensures p in nodes && |nodes[p].children| == FANOUT
    {
      assert NodeOk(nodes, table, p);
    }

    lemma LeafSlot(p: Path, c: nat)
      requires Shape() && p in table.dirs && |p| + 1 == LEVELS && c < FANOUT
      ensures p in nodes && |nodes[p].children| == FANOUT
      ensures nodes[p].children[c] == null <==> p + [c] !in table.pages
      ensures p + [c] in table.pages <==> p + [c] in nodes
      ensures p + [c] in table.pages ==> nodes[p].children[c] == nodes[p + [c]] && nodes[p + [c]].page == table.pages[p + [c]]
    {
      assert NodeOk(nodes, table, p);
      assert p + [c] in nodes ==> NodeOk(nodes, table, p + [c]);
    }

    method SetEntries(entries: map<nat, Page>)
      requires Shape()
      modifies this`entriesTable, this`table
      ensures Shape() && entriesTable == entries && table == old(table).(entries := entries)
    {
      entriesTable := entries;
      table := table.(entries := entries);
      forall p | p in nodes
        ensures NodeOk(nodes, table, p)
      {
        assert old(NodeOk(nodes, table, p));
      }
    }

    lemma Assemble()
      requires pageSize > 0 && Shape() && entriesTable == table.entries && RadixTable.Valid(table, pageSize)
      ensures Valid()
    {
    }

    lemma Positive()
      requires Valid()
      ensures pageSize > 0 && Shape() && entriesTable == table.entries && RadixTable.Valid(table, pageSize)
    {
    }

    /** The slot a walk takes from the directory at `p`, creating the child when it is missing. */
    method ChildDir(n: TreeNode, c: nat, ghost p: Path, supply: seq<nat>, used: nat) returns (child: TreeNode, used': nat)
      requires Shape() && p in table.dirs && nodes[p] == n && c < FANOUT && |p| + 1 < LEVELS
      requires p + [c] !in table.dirs ==> used < |supply|
      modifies this`nodes, this`table, n`children
      ensures Shape() && p + [c] in table.dirs && p + [c] in nodes && child == nodes[p + [c]]
      ensures p + [c] in old(table.dirs) ==> table == old(table) && used' == used && nodes == old(nodes)
      ensures p + [c] !in old(table.dirs) ==>
        table == old(table).(dirs := old(table.dirs)[p + [c] := supply[used]]) && used' == used + 1
        && fresh(child) && nodes == old(nodes)[p + [c] := child]
    {
      ChildAbsent(p, c);
      if n.children[c] == null {
        child := AttachDir(n, c, supply[used], p);
        used' := used + 1;
      } else {
        child := n.children[c];
        used' := used;
      }
    }

    method EnsureRoot(supply: seq<nat>) returns (used: nat)
      requires Shape() && DirsClosed(table.dirs) && ([] !in table.dirs ==> |supply| > 0)
      modifies this`root, this`nodes, this`table
      ensures Shape() && root != null && [] in table.dirs && [] in nodes && nodes[[]] == root
      ensures [] in old(table.dirs) ==> table == old(table) && used == 0 && nodes == old(nodes)
      ensures [] !in old(table.dirs) ==>
        table == old(table).(dirs := old(table.dirs)[[] := supply[0]]) && used == 1
        && fresh(root) && nodes == map[[] := root]
    {
      RootPresent();
      if root == null {
        root := new TreeNode.Dir(supply[0], []);
        nodes := map[[] := root];
        table := table.(dirs := map[[] := supply[0]]);
        used := 1;
      } else {
        used := 0;
      }
    }

    lemma RootPresent()
      requires Shape()
      ensures root == null ==> table.dirs == map[] && table.pages == map[]
      ensures root != null ==> [] in table.dirs && [] in nodes && nodes[[]] == root
    {
      if root == null {
        assert nodes.Keys == {};
      }
    }

    /** The loop of an insertion: walk down, creating the directories that are missing. */
    method Descend(vAddr: nat, supply: seq<nat>) returns (n: TreeNode, rv: nat, used: nat)
      requires pageSize > 0 && Shape() && DirsClosed(table.dirs)
      requires Missing(table.dirs, PathOf(vAddr, pageSize), LEVELS) <= |supply|
      modifies this`root, this`nodes, this`table, nodes.Values
      ensures Shape() && table == old(table).(dirs := Grow(old(table.dirs), PathOf(vAddr, pageSize), LEVELS, supply))
      ensures used == Missing(old(table.dirs), PathOf(vAddr, pageSize), LEVELS)
      ensures var path := PathOf(vAddr, pageSize);
        path[..LEVELS - 1] in table.dirs && nodes[path[..LEVELS - 1]] == n && rv % FANOUT == path[LEVELS - 1]
      ensures fresh(nodes.Values - old(nodes.Values)) && n in nodes.Values
    {
      hide Shape, DirsClosed, Missing, Grow, Digits, Rearranged;
      ghost var path := PathOf(vAddr, pageSize);
      n, rv, used := StartDescent(vAddr, supply);
      var i := 0;
      while i < LEVELS - 1
        invariant 0 <= i <= LEVELS - 1
        invariant DescentAt(i, n, rv, used, path, old(table), supply)
        invariant fresh(nodes.Values - old(nodes.Values)) && n in nodes.Values
      {
        n, rv, used := DescendStep(i, n, rv, used, supply, path, old(table));
        i := i + 1;
      }
      DigitStep(rv, 1);
      assert path[LEVELS - 1..][0] == path[LEVELS - 1];
    }

    /** The root, created when it is missing, and the rearranged page number. */
    method StartDescent(vAddr: nat, supply: seq<nat>) returns (n: TreeNode, rv: nat, used: nat)
      requires pageSize > 0 && Shape() && DirsClosed(table.dirs)
      requires Missing(table.dirs, PathOf(vAddr, pageSize), LEVELS) <= |supply|
      modifies this`root, this`nodes, this`table
      ensures DescentAt(0, n, rv, used, PathOf(vAddr, pageSize), old(table), supply)
      ensures fresh(nodes.Values - old(nodes.Values)) && n in nodes.Values
    {
      hide Shape, DirsClosed;
      ghost var path, dirs := PathOf(vAddr, pageSize), table.dirs;
      assert path[..0] == [];
      MissingMonotone(dirs, path, 1, LEVELS);
      GrowStep(dirs, path, 0, supply);
      used := EnsureRoot(supply);
      n := root;
      rv := Rearrange(vAddr);
      assert path[0..] == path;
    }

    /** Where an insertion is after `i` steps down `path`, having started from table `t0`. */
    ghost predicate DescentAt(i: nat, n: TreeNode, rv: nat, used: nat, path: Path, t0: Table, supply: seq<nat>)
      reads this, nodes.Values
    {
      && |path| == LEVELS && i < LEVELS && Missing(t0.dirs, path, LEVELS) <= |supply| && Missing(t0.dirs, path, i + 1) <= |supply|
      && Shape() && table == t0.(dirs := Grow(t0.dirs, path, i + 1, supply))
      && path[..i] in table.dirs && path[..i] in nodes && nodes[path[..i]] == n
      && Digits(rv, LEVELS - i) == path[i..]
      && used == Missing(t0.dirs, path, i + 1)
    }

    method DescendStep(i: nat, n: TreeNode, rv: nat, used: nat, supply: seq<nat>, ghost path: Path, ghost t0: Table)
      returns (n': TreeNode, rv': nat, used': nat)
      requires i < LEVELS - 1 && DescentAt(i, n, rv, used, path, t0, supply)
      modifies this`nodes, this`table, n`children
      ensures DescentAt(i + 1, n', rv', used', path, t0, supply)
      ensures fresh(nodes.Values - old(nodes.Values)) && n' in nodes.Values
    {
      hide Shape;
      var indexOfChild := rv % FANOUT;
      DigitStep(rv, LEVELS - i);
      assert indexOfChild == path[i] && path[..i] + [indexOfChild] == path[..i + 1];
      MissingMonotone(t0.dirs, path, i + 2, LEVELS);
      GrowStep(t0.dirs, path, i + 1, supply);
      n', used' := ChildDir(n, indexOfChild, path[..i], supply, used);
      assert path[i..][1..] == path[i + 1..];
      rv' := rv / FANOUT;
    }

    /** Hang a new directory under slot `c` of the directory at `p`. */
    method AttachDir(n: TreeNode, c: nat, addr: nat, ghost p: Path) returns (child: TreeNode)
      requires Shape() && p in table.dirs && nodes[p] == n && c < FANOUT && |p| + 1 < LEVELS && p + [c] !in nodes
      modifies this`nodes, this`table, n`children
      ensures Shape() && fresh(child) && nodes == old(nodes)[p + [c] := child]
      ensures table == old(table).(dirs := old(table.dirs)[p + [c] := addr])
    {
      hide KeysOk, Slots;
      child := new TreeNode.Dir(addr, p + [c]);
      ghost var q, was, t := p + [c], nodes, table;
      DirLength(p);
      n.children := n.children[c := child];
      nodes := nodes[q := child];
      table := table.(dirs := table.dirs[q := addr]);
      KeysAttach(was, t, p, c, child, table);
      NoGrandchildren(was, t, q, child);
      forall r | r in nodes
        ensures NodeOk(nodes, table, r)
      {
        if r != q {
          assert old(NodeOk(was, t, r));
          if r != p {
            NodesApart(was, t, p, r);
          }
          OtherNode(was, t, table, p, c, child, r, old(was[r].pAddr), old(was[r].page), old(was[r].children));
        }
      }
    }

    /** Hang a page's leaf under slot `c` of the last-level directory at `p`. */
    method AttachLeaf(n: TreeNode, c: nat, page: Page, ghost p: Path)
      requires Shape() && p in table.dirs && nodes[p] == n && c < FANOUT && |p| + 1 == LEVELS && p + [c] !in nodes
      modifies this`nodes, this`table, n`children
      ensures Shape() && p + [c] in nodes && fresh(nodes[p + [c]]) && nodes == old(nodes)[p + [c] := nodes[p + [c]]]
      ensures table == old(table).(pages := old(table.pages)[p + [c] := page])
    {
      hide KeysOk, Slots;
      SlotTaken(p + [c]);
      var child := new TreeNode.Leaf(page, p + [c]);
      ghost var q, was, t := p + [c], nodes, table;
      DirLength(p);
      n.children := n.children[c := child];
      nodes := nodes[q := child];
      table := table.(pages := table.pages[q := page]);
      KeysAttach(was, t, p, c, child, table);
      forall r | r in nodes
        ensures NodeOk(nodes, table, r)
      {
        if r != q {
          assert old(NodeOk(was, t, r));
          if r != p {
            NodesApart(was, t, p, r);
          }
          OtherNode(was, t, table, p, c, child, r, old(was[r].pAddr), old(was[r].page), old(was[r].children));
        }
      }
    }
  }

  /** Two paths never share a node. */
  lemma NodesApart(nodes: map<Path, TreeNode>, t: Table, p: Path, r: Path)
    requires KeysOk(nodes, t) && p in nodes && r in nodes && r != p
    ensures nodes[r] != nodes[p]
  {
    assert nodes[r].path == r && nodes[p].path == p;
  }

  lemma KeysSet(nodes: map<Path, TreeNode>, t: Table, q: Path, page: Page)
    requires KeysOk(nodes, t) && q in t.pages
    ensures KeysOk(nodes, t.(pages := t.pages[q := page])) && q !in t.dirs
  {
    assert t.pages[q := page].Keys == t.pages.Keys;
  }

  lemma KeysDetach(nodes: map<Path, TreeNode>, t: Table, q: Path)
    requires KeysOk(nodes, t) && q in t.pages
    ensures KeysOk(nodes - {q}, t.(pages := t.pages - {q})) && q !in t.dirs
  {
  }

  // ----- the breadth-first traversal -----

  ghost predicate Located(nodes: map<Path, TreeNode>, queue: seq<TreeNode>, paths: seq<Path>)
  {
    && |queue| == |paths|
    && forall i :: 0 <= i < |queue| ==> paths[i] in nodes && nodes[paths[i]] == queue[i]
  }

  /** The children of `p` among its first `c` slots. */
  ghost function Kids(keys: set<Path>, p: Path, c: nat): (r: seq<Path>)
    ensures forall q :: q in r <==> |q| == |p| + 1 && q[..|p|] == p && q[|p|] < c && q in keys
  {
    if c == 0 then []
    else
      var kids := Kids(keys, p, c - 1);
      var q := p + [c - 1];
      assert forall r: Path :: |r| == |p| + 1 && r[..|p|] == p && r[|p|] == c - 1 ==> r == q;
      if q in keys then kids + [q] else kids
  }

  lemma {:induction false} KidsEmpty(keys: set<Path>, p: Path, c: nat)
    requires forall d: nat :: p + [d] !in keys
    ensures Kids(keys, p, c) == []
  {
    if c > 0 {
      KidsEmpty(keys, p, c - 1);
    }
  }

  lemma {:induction false} KidsDistinct(keys: set<Path>, p: Path, c: nat)
    ensures forall i, j :: 0 <= i < j < |Kids(keys, p, c)| ==> Kids(keys, p, c)[i] != Kids(keys, p, c)[j]
  {
    if c > 0 {
      KidsDistinct(keys, p, c - 1);
    }
  }

  ghost predicate Fresh(keys: set<Path>, done: set<Path>, paths: seq<Path>)
  {
    && done <= keys
    && (forall p :: p in paths ==> p in keys && p !in done)
    && (forall i, j :: 0 <= i < j < |paths| ==> paths[i] != paths[j])
  }

  ghost predicate ParentsDone(done: set<Path>, paths: seq<Path>)
  {
    forall p {:trigger p[..|p| - 1]} :: (p in done || p in paths) && |p| > 0 ==> p[..|p| - 1] in done
  }

  ghost predicate ChildrenSeen(keys: set<Path>, done: set<Path>, paths: seq<Path>)
  {
    forall p {:trigger p[..|p| - 1]} :: p in keys && |p| > 0 && p[..|p| - 1] in done && p[|p| - 1] < FANOUT ==>
      p in done || p in paths
  }

  /** The visited nodes, and the queued ones: distinct, nothing twice, and every child of a visited
      node visited or queued. */
  ghost predicate Frontier(keys: set<Path>, done: set<Path>, paths: seq<Path>)
  {
    && Fresh(keys, done, paths)
    && ([] in done || [] in paths)
    && ParentsDone(done, paths)
    && ChildrenSeen(keys, done, paths)
  }

  lemma FrontierStart(keys: set<Path>)
    requires [] in keys
    ensures Frontier(keys, {}, [[]])
  {
  }

  lemma EmptyImage(t: Table)
    ensures PageWalk.Image(t, []) == []
  {
  }

  lemma FrontierStep(keys: set<Path>, done: set<Path>, paths: seq<Path>)
    requires Frontier(keys, done, paths) && paths != []
    ensures Frontier(keys, done + {paths[0]}, paths[1..] + Kids(keys, paths[0], FANOUT))
    ensures |keys - (done + {paths[0]})| < |keys - done| && paths[0] !in done
  {
    var p, rest := paths[0], paths[1..];
    var kids := Kids(keys, p, FANOUT);
    var done', paths' := done + {p}, rest + kids;
    assert forall q :: q in paths <==> q == p || q in rest;
    assert forall q :: q in paths' <==> q in rest || q in kids;
    assert keys - done == (keys - done') + {p};
    FreshStep(keys, done, paths);
    assert ParentsDone(done', paths') by {
      forall q | (q in done' || q in paths') && |q| > 0
        ensures q[..|q| - 1] in done'
      {
        assert q in kids ==> q[..|q| - 1] == p;
      }
    }
    assert ChildrenSeen(keys, done', paths') by {
      forall q | q in keys && |q| > 0 && q[..|q| - 1] in done' && q[|q| - 1] < FANOUT
        ensures q in done' || q in paths'
      {
        if q[..|q| - 1] == p {
          assert q in kids;
        }
      }
    }
  }

  lemma FreshStep(keys: set<Path>, done: set<Path>, paths: seq<Path>)
    requires Fresh(keys, done, paths) && ParentsDone(done, paths) && paths != []
    ensures Fresh(keys, done + {paths[0]}, paths[1..] + Kids(keys, paths[0], FANOUT))
  {
    var p, rest := paths[0], paths[1..];
    var kids := Kids(keys, p, FANOUT);
    KidsDistinct(keys, p, FANOUT);
    forall q | q in kids
      ensures q !in done && q !in paths && q != p
    {
      assert q[..|q| - 1] == p;
    }
    assert forall q :: q in paths <==> q == p || q in rest;
    assert p !in rest;
  }

  lemma FrontierComplete(keys: set<Path>, done: set<Path>)
    requires Frontier(keys, done, [])
    requires forall p :: p in keys && |p| > 0 ==> p[..|p| - 1] in keys && p[|p| - 1] < FANOUT
    ensures done == keys
  {
    forall p | p in keys
      ensures p in done
    {
      ReachedByLength(keys, done, p);
    }
  }

  lemma {:induction false} ReachedByLength(keys: set<Path>, done: set<Path>, p: Path)
    requires Frontier(keys, done, [])
    requires forall p :: p in keys && |p| > 0 ==> p[..|p| - 1] in keys && p[|p| - 1] < FANOUT
    requires p in keys
    ensures p in done
    decreases |p|
  {
    if |p| > 0 {
      ReachedByLength(keys, done, p[..|p| - 1]);
    }
  }

  lemma DigitStep(rv: nat, n: nat)
    requires n > 0
    ensures Digits(rv, n) == [rv % FANOUT] + Digits(rv / FANOUT, n - 1)
    ensures Digits(rv, n)[0] == rv % FANOUT && Digits(rv, n)[1..] == Digits(rv / FANOUT, n - 1)
  {
  }

  lemma {:induction false} GrowPresent(dirs: map<Path, nat>, path: Path, k: nat, supply: seq<nat>)
    requires k <= |path| && (forall i :: 0 <= i < k ==> path[..i] in dirs) && Missing(dirs, path, k) <= |supply|
    ensures Grow(dirs, path, k, supply) == dirs
  {
    if k > 0 {
      GrowPresent(dirs, path, k - 1, supply);
    }
  }

  /** One more directory on the path. */
  lemma GrowStep(dirs: map<Path, nat>, path: Path, k: nat, supply: seq<nat>)
    requires k < |path| && Missing(dirs, path, k + 1) <= |supply|
    ensures var d := Grow(dirs, path, k, supply);
      && (path[..k] in d <==> path[..k] in dirs)
      && (path[..k] in d ==> Grow(dirs, path, k + 1, supply) == d && Missing(dirs, path, k + 1) == Missing(dirs, path, k))
      && (path[..k] !in d ==>
            && Missing(dirs, path, k) < |supply| && Missing(dirs, path, k + 1) == Missing(dirs, path, k) + 1
            && Grow(dirs, path, k + 1, supply) == d[path[..k] := supply[Missing(dirs, path, k)]])
  {
  }

  ghost predicate SameAt(t: Table, t': Table, r: Path)
  {
    && (r in t.dirs <==> r in t'.dirs) && (r in t.dirs ==> t.dirs[r] == t'.dirs[r])
    && (r in t.pages <==> r in t'.pages) && (r in t.pages ==> t.pages[r] == t'.pages[r])
  }

  /** After attaching `child` at `p + [c]`, a node at another path is right when `p`'s slot has been set. */
  lemma OtherNode(nodes: map<Path, TreeNode>, t: Table, t': Table, p: Path, c: nat, child: TreeNode, r: Path,
                  pAddr: nat, page: Page, children: seq<TreeNode?>)
    requires c < FANOUT && r != p + [c] && p in t.dirs && SameAt(t, t', r)
    requires NodeHolds(nodes, t, r, pAddr, page, children)
    ensures r == p ==> |children| == FANOUT
    ensures NodeHolds(nodes[p + [c] := child], t', r, pAddr, page, if r == p then children[c := child] else children)
  {
    SlotsAttach(nodes, p, c, child, r);
  }

  lemma KeysAttach(nodes: map<Path, TreeNode>, t: Table, p: Path, c: nat, child: TreeNode, t': Table)
    requires KeysOk(nodes, t) && p in t.dirs && p + [c] !in nodes && child.path == p + [c] && c < FANOUT
    requires (t'.pages == t.pages && |p| + 1 < LEVELS && t'.dirs.Keys == t.dirs.Keys + {p + [c]})
      || (t'.dirs == t.dirs && |p| + 1 == LEVELS && t'.pages.Keys == t.pages.Keys + {p + [c]})
    ensures KeysOk(nodes[p + [c] := child], t')
  {
    hide ParentsOk;
    ParentsAttach(nodes, t, p, c, child, t');
  }

  lemma ParentsAttach(nodes: map<Path, TreeNode>, t: Table, p: Path, c: nat, child: TreeNode, t': Table)
    requires ParentsOk(nodes, t) && p in t.dirs && c < FANOUT && t.dirs.Keys <= t'.dirs.Keys
    ensures ParentsOk(nodes[p + [c] := child], t')
  {
    var q := p + [c];
    assert q[..|q| - 1] == p && q[|q| - 1] == c;
    forall r | r in nodes[q := child] && |r| > 0
      ensures r[..|r| - 1] in t'.dirs && r[|r| - 1] < FANOUT
    {
      assert r != q ==> r in nodes;
    }
  }

  /** A new node has nothing below it. */
  lemma NoGrandchildren(nodes: map<Path, TreeNode>, t: Table, q: Path, child: TreeNode)
    requires KeysOk(nodes, t) && q !in nodes
    ensures Slots(nodes[q := child], q, seq(FANOUT, _ => null))
  {
    forall c | 0 <= c < FANOUT
      ensures q + [c] !in nodes[q := child]
    {
      var r := q + [c];
      assert r[..|r| - 1] == q;
    }
  }

  /** Attaching `child` at `p + [c]` changes slot `c` of `p` and no other slot. */
  lemma SlotsAttach(nodes: map<Path, TreeNode>, p: Path, c: nat, child: TreeNode, r: Path)
    requires c < FANOUT
    ensures forall ch :: Slots(nodes, r, ch) ==> Slots(nodes[p + [c] := child], r, if r == p then ch[c := child] else ch)
  {
    forall d: nat | r + [d] == p + [c]
      ensures r == p && d == c
    {
      assert (r + [d])[..|r|] == r && (p + [c])[..|p|] == p;
      assert (r + [d])[|r|] == d && (p + [c])[|p|] == c;
    }
  }

  /** Detaching the leaf at `p + [c]` empties slot `c` of `p` and no other slot. */
  lemma SlotsDetach(nodes: map<Path, TreeNode>, p: Path, c: nat, r: Path)
    requires c < FANOUT
    ensures forall ch :: Slots(nodes, r, ch) ==> Slots(nodes - {p + [c]}, r, if r == p then ch[c := null] else ch)
  {
    forall d: nat | r + [d] == p + [c]
      ensures r == p && d == c
    {
      assert (r + [d])[..|r|] == r && (p + [c])[..|p|] == p;
      assert (r + [d])[|r|] == d && (p + [c])[|p|] == c;
    }
  }
}
