/**
 The page table of one process as a value: directories and pages indexed by digit paths,
 next to the flat map from virtual address to page.
 */
module RadixTable {
  import Powers

  const LEVELS: nat := 4
  const FANOUT: nat := 512

  type Path = seq<nat>

  // ----- virtual page numbers and their digits -----

  /** The loop of `rearrange`: `n` more digits of `vpn`, lowest first, shifted into `acc`. */
  function Rearranged(acc: nat, vpn: nat, n: nat): nat
    decreases n
  {
    if n == 0 then acc else Rearranged(acc * FANOUT + vpn % FANOUT, vpn / FANOUT, n - 1)
  }

  /** `nextLevel`, repeated. */
  function Shifted(rv: nat, n: nat): nat
  {
    if n == 0 then rv else Shifted(rv / FANOUT, n - 1)
  }

  /** The digits a walk consumes from a rearranged page number. */
  function Digits(rv: nat, n: nat): (r: Path)
    ensures |r| == n && forall i :: 0 <= i < n ==> 0 <= r[i] < FANOUT
  {
    if n == 0 then [] else [rv % FANOUT] + Digits(rv / FANOUT, n - 1)
  }

  /** The digits of a page number, most significant first. */
  function HighFirst(vpn: nat, n: nat): (r: Path)
    ensures |r| == n && forall i :: 0 <= i < n ==> 0 <= r[i] < FANOUT
  {
    if n == 0 then [] else HighFirst(vpn / FANOUT, n - 1) + [vpn % FANOUT]
  }

  lemma {:induction false} ShiftedOut(acc: nat, vpn: nat, n: nat)
    ensures Shifted(Rearranged(acc, vpn, n), n) == acc
    decreases n
  {
    if n > 0 {
      var acc' := acc * FANOUT + vpn % FANOUT;
      ShiftedOut(acc', vpn / FANOUT, n - 1);
      ShiftedLast(Rearranged(acc', vpn / FANOUT, n - 1), n);
      assert acc' / FANOUT == acc;
    }
  }

  lemma {:induction false} ShiftedLast(rv: nat, n: nat)
    requires n > 0
    ensures Shifted(rv, n) == Shifted(rv, n - 1) / FANOUT
    ensures Digits(rv, n) == Digits(rv, n - 1) + [Shifted(rv, n - 1) % FANOUT]
    decreases n
  {
    if n > 1 {
      ShiftedLast(rv / FANOUT, n - 1);
      assert [rv % FANOUT] + (Digits(rv / FANOUT, n - 2) + [Shifted(rv / FANOUT, n - 2) % FANOUT])
          == ([rv % FANOUT] + Digits(rv / FANOUT, n - 2)) + [Shifted(rv / FANOUT, n - 2) % FANOUT];
    }
  }

  /** Rearranging reverses the digits: the walk meets the most significant digit first. */
  lemma {:induction false} RearrangeReverses(acc: nat, vpn: nat, n: nat)
    ensures Digits(Rearranged(acc, vpn, n), n) == HighFirst(vpn, n)
    decreases n
  {
    if n > 0 {
      var acc' := acc * FANOUT + vpn % FANOUT;
      var rv := Rearranged(acc', vpn / FANOUT, n - 1);
      RearrangeReverses(acc', vpn / FANOUT, n - 1);
      ShiftedOut(acc', vpn / FANOUT, n - 1);
      ShiftedLast(rv, n);
    }
  }

  function Power(n: nat): (r: nat)
    ensures r > 0
  {
    if n == 0 then 1 else FANOUT * Power(n - 1)
  }

  /** Page numbers of `n` digits with the same digits are equal. */
  lemma {:induction false} HighFirstInjective(v: nat, w: nat, n: nat)
    requires v < Power(n) && w < Power(n) && HighFirst(v, n) == HighFirst(w, n)
    ensures v == w
  {
    if n > 0 {
      var a, b := HighFirst(v / FANOUT, n - 1), HighFirst(w / FANOUT, n - 1);
      assert HighFirst(v, n)[..n - 1] == a && HighFirst(w, n)[..n - 1] == b;
      assert HighFirst(v, n)[n - 1] == v % FANOUT && HighFirst(w, n)[n - 1] == w % FANOUT;
      HighFirstInjective(v / FANOUT, w / FANOUT, n - 1);
    }
  }

  /** Page numbers that agree above their low `k` digits share the digits above them. */
  lemma {:induction false} SharedPrefix(v: nat, w: nat, k: nat, n: nat)
    requires k <= n && Shifted(v, k) == Shifted(w, k)
    ensures HighFirst(v, n)[..n - k] == HighFirst(w, n)[..n - k]
    decreases n
  {
    if k == 0 {
    } else {
      SharedPrefix(v / FANOUT, w / FANOUT, k - 1, n - 1);
      assert HighFirst(v, n)[..n - k] == HighFirst(v / FANOUT, n - 1)[..n - k];
      assert HighFirst(w, n)[..n - k] == HighFirst(w / FANOUT, n - 1)[..n - k];
    }
  }

  // ----- the table -----

  datatype Page = Page(
    pid: nat, pAddr: nat, vAddr: nat, pageSize: nat, valid: bool,
    deviceID: nat, unified: bool, isMigrating: bool, isPinned: bool)

  /** `dirs` gives each directory's physical address; the empty path is the root. */
  datatype Table = Table(dirs: map<Path, nat>, pages: map<Path, Page>, entries: map<nat, Page>)

  const EMPTY := Table(map[], map[], map[])

  datatype Outcome<T> = Panic | Ok(value: T)

  function Vpn(vAddr: nat, pageSize: nat): (r: nat)
    requires pageSize > 0
    ensures r * pageSize <= vAddr < (r + 1) * pageSize
  {
    QuotientBounds(vAddr, pageSize);
    vAddr / pageSize
  }

  lemma QuotientBounds(x: nat, d: nat)
    requires d > 0
    ensures x / d >= 0 && (x / d) * d <= x < (x / d + 1) * d
  {
  }

  /** The path a walk for `vAddr` follows. */
  function PathOf(vAddr: nat, pageSize: nat): (r: Path)
    requires pageSize > 0
    ensures |r| == LEVELS && forall i :: 0 <= i < LEVELS ==> 0 <= r[i] < FANOUT
  {
    Digits(Rearranged(0, Vpn(vAddr, pageSize), LEVELS), LEVELS)
  }

  /** Digit `i` of the number itself, from the most significant one. */
  lemma {:induction false} HighFirstDigit(vpn: nat, n: nat, i: nat)
    requires i < n
    ensures HighFirst(vpn, n)[i] == vpn / Power(n - 1 - i) % FANOUT
  {
    if i < n - 1 {
      HighFirstDigit(vpn / FANOUT, n - 1, i);
      DivideTwice(vpn, Power(n - 2 - i));
    }
  }

  lemma DivideTwice(v: nat, d: nat)
    requires d > 0
    ensures FANOUT * d > 0 && v / (FANOUT * d) == v / FANOUT / d
  {
    var q := v / FANOUT / d;
    Powers.DivMod(v, FANOUT);
    Powers.DivMod(v / FANOUT, d);
    var r := v / FANOUT % d * FANOUT + v % FANOUT;
    assert v == q * (FANOUT * d) + r;
    Powers.DivMod(v, FANOUT * d);
    Powers.QuotientUnique(FANOUT * d, q, r, v / (FANOUT * d), v % (FANOUT * d));
  }

  /** The walk descends by nine bits of the page number at a time, from bit 27 down. */
  lemma WalkDigits(vAddr: nat, pageSize: nat)
    requires pageSize > 0
    ensures var vpn, path := vAddr / pageSize, PathOf(vAddr, pageSize);
      && path[0] == vpn / 0x800_0000 % 512 && path[1] == vpn / 0x4_0000 % 512 && path[2] == vpn / 512 % 512 && path[3] == vpn % 512
  {
    var vpn := Vpn(vAddr, pageSize);
    RearrangeReverses(0, vpn, LEVELS);
    assert Power(0) == 1 && Power(1) == 512 && Power(2) == 0x4_0000 && Power(3) == 0x800_0000;
    HighFirstDigit(vpn, LEVELS, 0);
    HighFirstDigit(vpn, LEVELS, 1);
    HighFirstDigit(vpn, LEVELS, 2);
    HighFirstDigit(vpn, LEVELS, 3);
  }

  function AlignToPage(vAddr: nat, pageSize: nat): nat
    requires pageSize > 0
  {
    Vpn(vAddr, pageSize) * pageSize
  }

  /** Page aligned and within the 36 bits of page number that the levels cover. */
  predicate Addressable(vAddr: nat, pageSize: nat)
    requires pageSize > 0
  {
    AlignToPage(vAddr, pageSize) == vAddr && Vpn(vAddr, pageSize) < Power(LEVELS)
  }

  lemma PathInjective(v: nat, w: nat, pageSize: nat)
    requires pageSize > 0 && Addressable(v, pageSize) && Addressable(w, pageSize)
    requires PathOf(v, pageSize) == PathOf(w, pageSize)
    ensures v == w
  {
    RearrangeReverses(0, Vpn(v, pageSize), LEVELS);
    RearrangeReverses(0, Vpn(w, pageSize), LEVELS);
    HighFirstInjective(Vpn(v, pageSize), Vpn(w, pageSize), LEVELS);
  }

  ghost predicate DirsClosed(dirs: map<Path, nat>)
  {
    && (forall p {:trigger p in dirs} :: p in dirs ==> |p| < LEVELS)
    && (forall p {:trigger p[..|p| - 1]} :: p in dirs && |p| > 0 ==> p[..|p| - 1] in dirs)
  }

  ghost predicate PagesPlaced(t: Table, pageSize: nat)
    requires pageSize > 0
  {
    forall p {:trigger p in t.pages} :: p in t.pages ==>
      |p| == LEVELS && p[..LEVELS - 1] in t.dirs
      && Addressable(t.pages[p].vAddr, pageSize) && PathOf(t.pages[p].vAddr, pageSize) == p
      && t.pages[p].vAddr in t.entries
  }

  /** The flat map and the leaves of the tree hold the same pages. */
  ghost predicate EntriesAgree(t: Table, pageSize: nat)
    requires pageSize > 0
  {
    forall v {:trigger v in t.entries} :: v in t.entries ==>
      Addressable(v, pageSize) && t.entries[v].vAddr == v
      && PathOf(v, pageSize) in t.pages && t.pages[PathOf(v, pageSize)] == t.entries[v]
  }

  ghost predicate Valid(t: Table, pageSize: nat)
    requires pageSize > 0
  {
    DirsClosed(t.dirs) && PagesPlaced(t, pageSize) && EntriesAgree(t, pageSize)
  }

  // ----- operations -----

  /** How many of the first `k` directories on `path` are still to be created. */
  function Missing(dirs: map<Path, nat>, path: Path, k: nat): nat
    requires k <= |path|
  {
    if k == 0 then 0 else Missing(dirs, path, k - 1) + (if path[..k - 1] in dirs then 0 else 1)
  }

  /** Create the missing ones among the first `k` directories on `path`, top down, each at the
      next address the allocator hands out. */
  function Grow(dirs: map<Path, nat>, path: Path, k: nat, supply: seq<nat>): (r: map<Path, nat>)
    requires k <= |path| && Missing(dirs, path, k) <= |supply|
    ensures forall p :: p in r <==> p in dirs || exists j :: 0 <= j < k && p == path[..j]
    ensures forall p :: p in dirs ==> r[p] == dirs[p]
  {
    if k == 0 then dirs
    else
      var d := Grow(dirs, path, k - 1, supply);
      if path[..k - 1] in dirs then d else d[path[..k - 1] := supply[Missing(dirs, path, k - 1)]]
  }

  /** Insert, given what the allocator would return for new directories. */
  function Insert(t: Table, page: Page, pageSize: nat, supply: seq<nat>): (r: Outcome<Table>)
    requires pageSize > 0
    requires Missing(t.dirs, PathOf(page.vAddr, pageSize), LEVELS) <= |supply|
  {
    var path := PathOf(page.vAddr, pageSize);
    if path in t.pages || page.vAddr in t.entries then Panic
    else Ok(Table(Grow(t.dirs, path, LEVELS, supply), t.pages[path := page], t.entries[page.vAddr := page]))
  }

  function Remove(t: Table, vAddr: nat, pageSize: nat): Outcome<Table>
    requires pageSize > 0
  {
    var path := PathOf(vAddr, pageSize);
    if path !in t.pages || t.pages[path].vAddr != vAddr || vAddr !in t.entries then Panic
    else Ok(Table(t.dirs, t.pages - {path}, t.entries - {vAddr}))
  }

  function Update(t: Table, page: Page, pageSize: nat): Outcome<Table>
    requires pageSize > 0
  {
    var path := PathOf(page.vAddr, pageSize);
    if path !in t.pages || page.vAddr !in t.entries then Panic
    else Ok(Table(t.dirs, t.pages[path := page], t.entries[page.vAddr := page]))
  }

  function Find(t: Table, vAddr: nat): Outcome<Page>
  {
    if vAddr in t.entries then Ok(t.entries[vAddr]) else Panic
  }

  /** The table entry address `findAddr` reports for one level of a walk. */
  function FindAddr(t: Table, vAddr: nat, level: nat, pageSize: nat): Outcome<nat>
    requires pageSize > 0
  {
    var path := PathOf(vAddr, pageSize);
    if level >= LEVELS || path[..level] !in t.dirs || (path[..level + 1] !in t.dirs && path[..level + 1] !in t.pages)
    then Panic
    else Ok(t.dirs[path[..level]] + path[level] * 8)
  }

  // ----- every operation keeps the two representations together -----

  lemma GrowClosed(dirs: map<Path, nat>, path: Path, supply: seq<nat>)
    requires DirsClosed(dirs) && |path| == LEVELS && Missing(dirs, path, LEVELS) <= |supply|
    ensures DirsClosed(Grow(dirs, path, LEVELS, supply)) && path[..LEVELS - 1] in Grow(dirs, path, LEVELS, supply)
  {
    var d := Grow(dirs, path, LEVELS, supply);
    forall p | p in d
      ensures |p| < LEVELS && (|p| > 0 ==> p[..|p| - 1] in d)
    {
      if p !in dirs {
        var j :| 0 <= j < LEVELS && p == path[..j];
        assert j > 0 ==> p[..|p| - 1] == path[..j - 1];
      }
    }
  }

  lemma InsertValid(t: Table, page: Page, pageSize: nat, supply: seq<nat>)
    requires pageSize > 0 && Valid(t, pageSize)
    requires Missing(t.dirs, PathOf(page.vAddr, pageSize), LEVELS) <= |supply|
    ensures Addressable(page.vAddr, pageSize) ==> (Insert(t, page, pageSize, supply).Panic? <==> page.vAddr in t.entries)
    ensures Addressable(page.vAddr, pageSize) && page.vAddr !in t.entries ==>
      Valid(Insert(t, page, pageSize, supply).value, pageSize)
  {
    var path := PathOf(page.vAddr, pageSize);
    if Addressable(page.vAddr, pageSize) {
      if path in t.pages {
        PathInjective(t.pages[path].vAddr, page.vAddr, pageSize);
      }
      if page.vAddr !in t.entries {
        var u := Insert(t, page, pageSize, supply).value;
        GrowClosed(t.dirs, path, supply);
        forall v | v in t.entries
          ensures PathOf(v, pageSize) != path
        {
          if PathOf(v, pageSize) == path {
            PathInjective(v, page.vAddr, pageSize);
          }
        }
        assert PagesPlaced(u, pageSize);
        assert EntriesAgree(u, pageSize);
      }
    }
  }

  lemma RemoveValid(t: Table, vAddr: nat, pageSize: nat)
    requires pageSize > 0 && Valid(t, pageSize)
    ensures Remove(t, vAddr, pageSize).Ok? <==> vAddr in t.entries
    ensures vAddr in t.entries ==> Valid(Remove(t, vAddr, pageSize).value, pageSize)
  {
    if vAddr in t.entries {
      var u := Remove(t, vAddr, pageSize).value;
      forall v | v in u.entries
        ensures PathOf(v, pageSize) != PathOf(vAddr, pageSize)
      {
        if PathOf(v, pageSize) == PathOf(vAddr, pageSize) {
          PathInjective(v, vAddr, pageSize);
        }
      }
      assert PagesPlaced(u, pageSize);
      assert EntriesAgree(u, pageSize);
    }
  }

  lemma UpdateValid(t: Table, page: Page, pageSize: nat)
    requires pageSize > 0 && Valid(t, pageSize)
    ensures Update(t, page, pageSize).Ok? <==> page.vAddr in t.entries
    ensures page.vAddr in t.entries ==> Valid(Update(t, page, pageSize).value, pageSize)
  {
    if page.vAddr in t.entries {
      var u := Update(t, page, pageSize).value;
      forall v | v in u.entries && v != page.vAddr
        ensures PathOf(v, pageSize) != PathOf(page.vAddr, pageSize)
      {
        if PathOf(v, pageSize) == PathOf(page.vAddr, pageSize) {
          PathInjective(v, page.vAddr, pageSize);
        }
      }
      assert PagesPlaced(u, pageSize);
      assert EntriesAgree(u, pageSize);
    }
  }

  /** Descending the tree finds a leaf exactly when the flat map finds the page, with the same page. */
  lemma DescentAgreesWithFind(t: Table, vAddr: nat, pageSize: nat)
    requires pageSize > 0 && Valid(t, pageSize) && Vpn(vAddr, pageSize) < Power(LEVELS)
    ensures var aligned, path := AlignToPage(vAddr, pageSize), PathOf(vAddr, pageSize);
      && (path in t.pages <==> Find(t, aligned).Ok?)
      && (path in t.pages ==> t.pages[path] == Find(t, aligned).value)
  {
    var aligned, path := AlignToPage(vAddr, pageSize), PathOf(vAddr, pageSize);
    AlignedVpn(vAddr, pageSize);
    assert Addressable(aligned, pageSize);
    if path in t.pages {
      PathInjective(t.pages[path].vAddr, aligned, pageSize);
    }
  }

  lemma AlignedVpn(vAddr: nat, pageSize: nat)
    requires pageSize > 0
    ensures Vpn(AlignToPage(vAddr, pageSize), pageSize) == Vpn(vAddr, pageSize)
  {
    Powers.DivModUnique(Vpn(vAddr, pageSize) * pageSize, pageSize, Vpn(vAddr, pageSize), 0);
  }

  // ----- where new directories' addresses come from -----

  /** A new directory on `path` has the address that the supply holds at its turn. */
  ghost predicate FromSupply(dirs: map<Path, nat>, path: Path, supply: seq<nat>, p: Path, addr: nat)
  {
    && |p| < |path| && p == path[..|p|] && p !in dirs
    && Missing(dirs, path, |p|) < |supply| && addr == supply[Missing(dirs, path, |p|)]
  }

  lemma {:induction false} GrowSources(dirs: map<Path, nat>, path: Path, k: nat, supply: seq<nat>, p: Path)
    requires k <= |path| && Missing(dirs, path, k) <= |supply|
    requires p in Grow(dirs, path, k, supply) && p !in dirs
    ensures |p| < k && FromSupply(dirs, path, supply, p, Grow(dirs, path, k, supply)[p])
    decreases k
  {
    if p == path[..k - 1] {
      assert |p| == k - 1;
    } else {
      GrowSources(dirs, path, k - 1, supply, p);
    }
  }

  lemma {:induction false} MissingStrict(dirs: map<Path, nat>, path: Path, i: nat, j: nat)
    requires i < j <= |path| && path[..i] !in dirs
    ensures Missing(dirs, path, i) < Missing(dirs, path, j)
    decreases j
  {
    if i < j - 1 {
      MissingStrict(dirs, path, i, j - 1);
    }
  }

  lemma GrownFrom(dirs: map<Path, nat>, path: Path, supply: seq<nat>, p: Path)
    requires |path| == LEVELS && Missing(dirs, path, LEVELS) <= |supply| && p in Grow(dirs, path, LEVELS, supply)
    ensures var addr := Grow(dirs, path, LEVELS, supply)[p];
      if p in dirs then addr == dirs[p] else FromSupply(dirs, path, supply, p, addr)
  {
    if p !in dirs {
      GrowSources(dirs, path, LEVELS, supply, p);
    }
  }
}
