/**
 Placing page-table pages: per-chiplet lists of addresses, and the choice of the chiplet from the
 virtual address, which must be the chiplet whose translation cache serves the pages below.
 */
module Placement {
  import opened RadixTable
  import Routing
  import Powers

  const PAGE: nat := 4096
  const CHIPLETS: nat := 4
  const BANKS: nat := 16
  /** All banks of all chiplets once. */
  const ROUND: nat := 0x40000
  const STRIPE: nat := 0x10000
  const GB: nat := 0x4000_0000

  // ----- folding an address -----

  /** Bitwise exclusive or. */
  function Xor(a: nat, b: nat): nat
  {
    if a == 0 && b == 0 then 0 else (a % 2 + b % 2) % 2 + 2 * Xor(a / 2, b / 2)
  }

  lemma {:induction false} XorBounded(a: nat, b: nat, bits: nat)
    requires a < Powers.Pow2(bits) && b < Powers.Pow2(bits)
    ensures Xor(a, b) < Powers.Pow2(bits)
  {
    if bits > 0 && (a != 0 || b != 0) {
      XorBounded(a / 2, b / 2, bits - 1);
    }
  }

  function Shr(x: nat, n: nat): nat
  {
    if n == 0 then x else Shr(x / 2, n - 1)
  }

  function Low(x: nat, n: nat): (r: nat)
    ensures r < Powers.Pow2(n)
  {
    Powers.DivMod(x, Powers.Pow2(n));
    x % Powers.Pow2(n)
  }

  lemma {:induction false} ShrDivides(x: nat, n: nat)
    ensures Shr(x, n) == x / Powers.Pow2(n)
  {
    if n > 0 {
      ShrDivides(x / 2, n - 1);
      Powers.DivDiv(x, 2, Powers.Pow2(n - 1));
    }
  }

  /** The loop of the folding finders: `terms` groups of `bits` bits, from the lowest. */
  function Folded(index: nat, address: nat, terms: nat, bits: nat): nat
    decreases terms
  {
    if terms == 0 then index
    else Folded(Xor(index, Low(address, bits)), Shr(address, bits), terms - 1, bits)
  }

  lemma {:induction false} FoldedBounded(index: nat, address: nat, terms: nat, bits: nat)
    requires index < Powers.Pow2(bits)
    ensures Folded(index, address, terms, bits) < Powers.Pow2(bits)
    decreases terms
  {
    if terms > 0 {
      XorBounded(index, Low(address, bits), bits);
      FoldedBounded(Xor(index, Low(address, bits)), Shr(address, bits), terms - 1, bits);
    }
  }

  // ----- what folding does to the bits -----

  function Bit(x: nat, i: nat): (r: nat)
    ensures r < 2
  {
    if i == 0 then x % 2 else Bit(x / 2, i - 1)
  }

  lemma {:induction false} BitIs(x: nat, i: nat)
    ensures Bit(x, i) == x / Powers.Pow2(i) % 2
  {
    if i > 0 {
      BitIs(x / 2, i - 1);
      Powers.DivDiv(x, 2, Powers.Pow2(i - 1));
    }
  }

  /** How many of the `n` bits at `b`, `b + step`, ... are set. */
  function Ones(x: nat, b: nat, step: nat, n: nat): nat
  {
    if n == 0 then 0
    else
      Powers.MulNat(n - 1, step);
      Ones(x, b, step, n - 1) + Bit(x, b + (n - 1) * step)
  }

  lemma {:induction false} BitOfXor(a: nat, b: nat, i: nat)
    ensures Bit(Xor(a, b), i) == (Bit(a, i) + Bit(b, i)) % 2
    decreases i
  {
    if a == 0 && b == 0 {
      BitOfZero(i);
    } else {
      XorHalves(a, b);
      if i > 0 {
        BitOfXor(a / 2, b / 2, i - 1);
      }
    }
  }

  lemma XorHalves(a: nat, b: nat)
    ensures Xor(a, b) % 2 == (a % 2 + b % 2) % 2 && Xor(a, b) / 2 == Xor(a / 2, b / 2)
  {
    var low, high := (a % 2 + b % 2) % 2, Xor(a / 2, b / 2);
    assert Xor(a, b) == low + 2 * high;
  }

  lemma {:induction false} BitOfZero(i: nat)
    ensures Bit(0, i) == 0
  {
    if i > 0 {
      BitOfZero(i - 1);
    }
  }

  lemma {:induction false} BitOfShr(x: nat, n: nat, i: nat)
    ensures Bit(Shr(x, n), i) == Bit(x, n + i)
    decreases n
  {
    if n > 0 {
      BitOfShr(x / 2, n - 1, i);
    }
  }

  lemma {:induction false} BitOfLow(x: nat, n: nat, i: nat)
    requires i < n
    ensures Bit(Low(x, n), i) == Bit(x, i)
    decreases n
  {
    LowHalves(x, n);
    if i > 0 {
      BitOfLow(x / 2, n - 1, i - 1);
    }
  }

  lemma LowHalves(x: nat, n: nat)
    requires n > 0
    ensures Low(x, n) % 2 == x % 2 && Low(x, n) / 2 == Low(x / 2, n - 1)
  {
    var d := Powers.Pow2(n - 1);
    Powers.DivMod(x / 2, d);
    var q, r := x / 2 / d, x / 2 % d;
    assert x == q * (2 * d) + (2 * r + x % 2);
    Powers.DivModUnique(x, 2 * d, q, 2 * r + x % 2);
  }

  /** Counting from the other end: the first bit, then the bits of what is left above it. */
  lemma {:induction false} OnesFirst(x: nat, b: nat, step: nat, n: nat)
    requires n > 0
    ensures Ones(x, b, step, n) == Bit(x, b) + Ones(Shr(x, step), b, step, n - 1)
  {
    if n > 1 {
      OnesFirst(x, b, step, n - 1);
      Powers.MulNat(n - 2, step);
      BitOfShr(x, step, b + (n - 2) * step);
      assert step + (b + (n - 2) * step) == b + (n - 1) * step;
    }
  }

  /** Bit by bit, folding takes the parity of the bits that fall on each other. */
  lemma {:induction false} FoldedParity(index: nat, address: nat, terms: nat, bits: nat, b: nat)
    requires b < bits
    ensures Bit(Folded(index, address, terms, bits), b) == (Bit(index, b) + Ones(address, b, bits, terms)) % 2
    decreases terms
  {
    hide Xor, Low, Shr, Bit, Ones;
    if terms == 0 {
      NoOnes(address, b, bits);
    } else {
      FoldedParity(Xor(index, Low(address, bits)), Shr(address, bits), terms - 1, bits, b);
      BitOfXor(index, Low(address, bits), b);
      BitOfLow(address, bits, b);
      OnesFirst(address, b, bits, terms);
    }
  }

  lemma NoOnes(x: nat, b: nat, step: nat)
    ensures Ones(x, b, step, 0) == 0
  {
  }

  lemma {:induction false} OnesOfShr(x: nat, n: nat, b: nat, step: nat, terms: nat)
    ensures Ones(Shr(x, n), b, step, terms) == Ones(x, n + b, step, terms)
  {
    if terms > 0 {
      OnesOfShr(x, n, b, step, terms - 1);
      Powers.MulNat(terms - 1, step);
      BitOfShr(x, n, b + (terms - 1) * step);
    }
  }

  /** `XORLowModuleFinder.Find`: the index of a module. Its bit `b` is the parity of the bits `b`,
      `b + bits`, ... of the address above the offset. */
  method XorFind(address: nat, terms: nat, bits: nat, offsetBits: nat) returns (index: nat)
    ensures index == Folded(0, Shr(address, offsetBits), terms, bits)
    ensures index < Powers.Pow2(bits)
    ensures forall b: nat :: b < bits ==> Bit(index, b) == Ones(address, offsetBits + b, bits, terms) % 2
  {
    index := 0;
    var rest: nat := Shr(address, offsetBits);
    ghost var first := rest;
    var i: nat := 0;
    while i < terms
      invariant i <= terms
      invariant Folded(index, rest, terms - i, bits) == Folded(0, first, terms, bits)
    {
      index := Xor(index, Low(rest, bits));
      rest := Shr(rest, bits);
      i := i + 1;
    }
    FoldedBounded(0, first, terms, bits);
    forall b: nat | b < bits
      ensures Bit(index, b) == Ones(address, offsetBits + b, bits, terms) % 2
    {
      FoldedParity(0, first, terms, bits, b);
      BitOfZero(b);
      OnesOfShr(address, offsetBits, b, bits, terms);
    }
  }

  lemma {:induction false} OnesFlip(x: nat, y: nat, b: nat, step: nat, n: nat, k: nat)
    requires k < n && step > 0 && k * step >= 0
    requires forall i: nat :: Bit(x, i) == Bit(y, i) <==> i != b + k * step
    ensures Ones(x, b, step, n) % 2 != Ones(y, b, step, n) % 2
  {
    if k < n - 1 {
      OnesFlip(x, y, b, step, n - 1, k);
      Apart(k, n - 1, step);
    } else {
      OnesSame(x, y, b, step, n - 1, k);
    }
  }

  lemma Apart(k: nat, j: nat, step: nat)
    requires k < j && step > 0
    ensures 0 <= k * step < j * step
  {
    Powers.MulNat(k, step);
    Powers.MulAtLeast(j - k, step);
    assert j * step == k * step + (j - k) * step;
  }

  lemma {:induction false} OnesSame(x: nat, y: nat, b: nat, step: nat, n: nat, k: nat)
    requires n <= k && step > 0 && k * step >= 0
    requires forall i: nat :: Bit(x, i) == Bit(y, i) <==> i != b + k * step
    ensures Ones(x, b, step, n) == Ones(y, b, step, n)
  {
    if n > 0 {
      OnesSame(x, y, b, step, n - 1, k);
      Apart(n - 1, k, step);
    }
  }

  /** Changing one of the bits that are folded changes the module. */
  lemma OneBitMovesModule(x: nat, y: nat, terms: nat, bits: nat, b: nat, k: nat)
    requires b < bits && k < terms && k * bits >= 0
    requires forall i: nat :: Bit(x, i) == Bit(y, i) <==> i != b + k * bits
    ensures Folded(0, x, terms, bits) != Folded(0, y, terms, bits)
  {
    FoldedParity(0, x, terms, bits, b);
    FoldedParity(0, y, terms, bits, b);
    OnesFlip(x, y, b, bits, terms, k);
    BitOfZero(b);
  }

  /** Four terms of two bits: both bits of the result, by plain division. */
  lemma FourByTwo(x: nat)
    ensures var c := Folded(0, x, 4, 2);
      c < 4 && c % 2 == (x + x / 4 + x / 16 + x / 64) % 2 && c / 2 == (x / 2 + x / 8 + x / 32 + x / 128) % 2
  {
    hide Folded, Ones, Xor;
    var c := Folded(0, x, 4, 2);
    assert c < 4 by {
      assert Powers.Pow2(2) == 4;
      FoldedBounded(0, x, 4, 2);
    }
    FoldedParity(0, x, 4, 2, 0);
    FoldedParity(0, x, 4, 2, 1);
    assert Bit(c, 0) == c % 2 && Bit(c, 1) == c / 2 && Bit(0, 0) == 0 && Bit(0, 1) == 0;
    FourOnes(x, 0);
    FourOnes(x, 1);
    hide Bit;
    Parities(x, x / 4, x / 16, x / 64);
    Parities(x / 2, x / 8, x / 32, x / 128);
  }

  lemma Parities(a: nat, b: nat, c: nat, d: nat)
    ensures (a % 2 + b % 2 + c % 2 + d % 2) % 2 == (a + b + c + d) % 2
  {
  }

  lemma FourOnes(x: nat, b: nat)
    ensures Ones(x, b, 2, 4) == Bit(x, b) + Bit(x, b + 2) + Bit(x, b + 4) + Bit(x, b + 6)
    ensures b == 0 ==> Ones(x, b, 2, 4) == x % 2 + x / 4 % 2 + x / 16 % 2 + x / 64 % 2
    ensures b == 1 ==> Ones(x, b, 2, 4) == x / 2 % 2 + x / 8 % 2 + x / 32 % 2 + x / 128 % 2
  {
    hide Bit, Ones, Powers.Pow2;
    FourTerms(x, b);
    if b < 2 {
      BitIs(x, b);
      BitIs(x, b + 2);
      BitIs(x, b + 4);
      BitIs(x, b + 6);
      SmallPowers();
    }
  }

  lemma FourTerms(x: nat, b: nat)
    ensures Ones(x, b, 2, 4) == Bit(x, b) + Bit(x, b + 2) + Bit(x, b + 4) + Bit(x, b + 6)
  {
    hide Bit;
    NoOnes(x, b, 2);
    assert Ones(x, b, 2, 1) == Bit(x, b);
    assert Ones(x, b, 2, 2) == Ones(x, b, 2, 1) + Bit(x, b + 2);
    assert Ones(x, b, 2, 3) == Ones(x, b, 2, 2) + Bit(x, b + 4);
    assert Ones(x, b, 2, 4) == Ones(x, b, 2, 3) + Bit(x, b + 6);
  }

  lemma SmallPowers()
    ensures Powers.Pow2(0) == 1 && Powers.Pow2(1) == 2 && Powers.Pow2(2) == 4 && Powers.Pow2(3) == 8
    ensures Powers.Pow2(4) == 16 && Powers.Pow2(5) == 32 && Powers.Pow2(6) == 64 && Powers.Pow2(7) == 128
  {
    assert Powers.Pow2(4) == 16;
  }

  // ----- the chiplet of a table page and the chiplet that translates -----

  /** The two allocators: the low two bits of the shifted address, or its folding. */
  datatype Pick = LowBits | FoldedBits

  function ChipletFor(pick: Pick, shifted: nat): nat
  {
    if pick.LowBits? then shifted % CHIPLETS else Folded(0, shifted, 4, 2)
  }

  /** `InterleavedLowModuleFinder.Find`, as an index. */
  function InterleavedFind(address: nat, size: nat, modules: nat): nat
    requires size > 0 && modules > 0
  {
    Powers.DivMod(address, size);
    Powers.DivMod(address / size, modules);
    address / size % modules
  }

  /** The chiplet whose translation cache serves an address: slices of 512 pages, interleaved, or
      folded over 4 terms of 2 bits. */
  function Home(pick: Pick, vAddr: nat): nat
  {
    if pick.LowBits? then InterleavedFind(vAddr, 512 * 4096, CHIPLETS) else Folded(0, Shr(vAddr, 21), 4, 2)
  }

  /** What `newTreeNode` passes to the allocator for the directory at a depth; the root passes 0. */
  function Key(vAddr: nat, depth: nat): nat
  {
    if depth == 0 then 0
    else if depth == 1 then vAddr / 0x80_0000_0000
    else if depth == 2 then vAddr / 0x4000_0000
    else vAddr / 0x20_0000
  }

  lemma SliceBits(vAddr: nat)
    ensures Shr(vAddr, 21) == vAddr / 0x20_0000
  {
    assert Powers.Pow2(21) == 0x20_0000 by {
      assert Powers.Pow2(11) == 2048;
      assert Powers.Pow2(10) == 1024;
      Powers.Pow2Add(11, 10);
    }
    ShrDivides(vAddr, 21);
  }

  /** The folding finder of the builders, over slices of 512 pages, finds the home: the exclusive or of
      the four lowest pairs of bits of the slice number. */
  method HomeFind(vAddr: nat) returns (index: nat)
    ensures index == Home(FoldedBits, vAddr) && index < CHIPLETS
    ensures index % 2 == (vAddr / 0x20_0000 + vAddr / 0x80_0000 + vAddr / 0x200_0000 + vAddr / 0x800_0000) % 2
    ensures index / 2 == (vAddr / 0x40_0000 + vAddr / 0x100_0000 + vAddr / 0x400_0000 + vAddr / 0x1000_0000) % 2
  {
    hide Folded, Ones, Bit;
    SliceBits(vAddr);
    index := XorFind(vAddr, 4, 2, 21);
    HomeBits(vAddr);
  }

  lemma HomeBits(vAddr: nat)
    ensures var index := Home(FoldedBits, vAddr);
      && index < CHIPLETS
      && index % 2 == (vAddr / 0x20_0000 + vAddr / 0x80_0000 + vAddr / 0x200_0000 + vAddr / 0x800_0000) % 2
      && index / 2 == (vAddr / 0x40_0000 + vAddr / 0x100_0000 + vAddr / 0x400_0000 + vAddr / 0x1000_0000) % 2
  {
    hide Folded;
    SliceBits(vAddr);
    FourByTwo(vAddr / 0x20_0000);
    Powers.DivDiv(vAddr, 0x20_0000, 2);
    Powers.DivDiv(vAddr, 0x20_0000, 4);
    Powers.DivDiv(vAddr, 0x20_0000, 8);
    Powers.DivDiv(vAddr, 0x20_0000, 16);
    Powers.DivDiv(vAddr, 0x20_0000, 32);
    Powers.DivDiv(vAddr, 0x20_0000, 64);
    Powers.DivDiv(vAddr, 0x20_0000, 128);
  }

  /** Which chiplet an allocator's key names, by plain division. */
  ghost predicate Names(pick: Pick, key: nat, c: nat)
  {
    match pick
    case LowBits => c == key % 4
    case FoldedBits =>
      c < 4 && c % 2 == (key + key / 4 + key / 16 + key / 64) % 2 && c / 2 == (key / 2 + key / 8 + key / 32 + key / 128) % 2
  }

  /** The chiplet of a key and the home of an address, which are written in different ways, are what
      the key, and the slice number of the address, name. */
  lemma KeyNamesChiplet(pick: Pick, key: nat, vAddr: nat, c: nat)
    ensures Names(pick, key, c) <==> c == ChipletFor(pick, key)
    ensures Names(pick, vAddr / 0x20_0000, c) <==> c == Home(pick, vAddr)
  {
    hide Folded;
    SliceBits(vAddr);
    FourByTwo(key);
    FourByTwo(vAddr / 0x20_0000);
  }

  lemma HomeOfLeafTable(pick: Pick, vAddr: nat)
    ensures ChipletFor(pick, Key(vAddr, 3)) == Home(pick, vAddr) < CHIPLETS
  {
    SliceBits(vAddr);
    assert Powers.Pow2(2) == 4;
    FoldedBounded(0, vAddr / 0x20_0000, 4, 2);
  }

  /** Pages under one last-level directory have one home. */
  lemma SameTableSameHome(pick: Pick, v: nat, w: nat)
    requires Vpn(v, PAGE) < Power(LEVELS) && Vpn(w, PAGE) < Power(LEVELS)
    requires PathOf(v, PAGE)[..3] == PathOf(w, PAGE)[..3]
    ensures Key(v, 3) == Key(w, 3) && Home(pick, v) == Home(pick, w)
  {
    var a, b := Vpn(v, PAGE), Vpn(w, PAGE);
    RearrangeReverses(0, a, LEVELS);
    RearrangeReverses(0, b, LEVELS);
    assert HighFirst(a, 4)[..3] == HighFirst(a / 512, 3);
    assert HighFirst(b, 4)[..3] == HighFirst(b / 512, 3);
    assert Power(4) == 512 * Power(3);
    HighFirstInjective(a / 512, b / 512, 3);
    Powers.DivDiv(v, 4096, 512);
    Powers.DivDiv(w, 4096, 512);
    HomeOfLeafTable(pick, v);
    HomeOfLeafTable(pick, w);
  }

  // ----- the lists -----

  /** The chiplet of an address in a region striped from `base`. */
  predicate OnStripe(base: nat, i: nat, a: nat)
  {
    a >= base && (a - base) % PAGE == 0 && (a - base) % ROUND / STRIPE == i
  }

  ghost predicate Increasing(s: seq<nat>)
  {
    forall i, j :: 0 <= i < j < |s| ==> s[i] < s[j]
  }

  /** The list holds exactly the pages of chiplet `i` from `base` to `end`, in order. */
  ghost predicate Stripes(s: seq<nat>, base: nat, end: nat, i: nat)
  {
    Increasing(s) && forall a: nat :: a in s <==> OnStripe(base, i, a) && a < end
  }

  /** Routing a page-table page: local on its list's chiplet exactly when the list's region starts
      within a page of a whole round of all banks above the offset of the finders. */
  lemma StripeIsLocal(offset: nat, base: nat, i: nat, a: nat)
    requires offset <= base && i < CHIPLETS && OnStripe(base, i, a) && a < Routing.WORD
    requires (base - offset) % ROUND < PAGE
    ensures Routing.LocalFind(Routing.Layout(offset, CHIPLETS, BANKS, PAGE), i, a).Local?
  {
    hide Routing.LocalFind;
    RoundsAdd(a - base, base - offset);
    var y := (a - base) % ROUND;
    var e := (base - offset) % ROUND;
    assert (a - offset) % ROUND == y + e;
    assert (y + e) / 4096 == y / 4096;
    LocalByBank(offset, i, a);
  }

  /** A remainder that is a whole number of pages takes a smaller shift without carrying. */
  lemma RoundsAdd(x: nat, d: nat)
    requires x % 4096 == 0 && d % 0x40000 < 4096
    ensures (x + d) % 0x40000 == x % 0x40000 + d % 0x40000
  {
  }

  lemma LocalByBank(offset: nat, i: nat, a: nat)
    requires offset <= a < Routing.WORD && i < CHIPLETS
    ensures Routing.LocalFind(Routing.Layout(offset, CHIPLETS, BANKS, PAGE), i, a).Local?
      <==> (a - offset) % 0x40000 / 4096 / 16 == i
  {
    var bank := (a - offset) % 0x40000 / 4096;
    assert Routing.StripedFind(offset, CHIPLETS * BANKS, PAGE, a) == bank;
    assert bank / 16 == i <==> 16 * i <= bank <= 16 * i + 15;
  }

  /** All of a gigabyte of table pages is local on its chiplets exactly under that condition. */
  lemma AllStripesLocalIff(offset: nat, base: nat)
    requires offset <= base && base + GB < Routing.WORD
    ensures (base - offset) % ROUND < PAGE <==>
      forall i: nat, a: nat {:trigger OnStripe(base, i, a)} :: i < CHIPLETS && OnStripe(base, i, a) && a < base + GB ==>
        Routing.LocalFind(Routing.Layout(offset, CHIPLETS, BANKS, PAGE), i, a).Local?
  {
    hide Routing.LocalFind;
    if (base - offset) % ROUND < PAGE {
      forall i: nat, a: nat | i < CHIPLETS && OnStripe(base, i, a) && a < base + GB
        ensures Routing.LocalFind(Routing.Layout(offset, CHIPLETS, BANKS, PAGE), i, a).Local?
      {
        StripeIsLocal(offset, base, i, a);
      }
    } else {
      var e := (base - offset) % ROUND;
      var k := if e < 49 * 4096 then 15 else 0;
      var a := base + k * 4096;
      Carried(base - offset, k);
      LocalByBank(offset, 0, a);
      assert OnStripe(base, 0, a);
    }
  }

  lemma Carried(d: nat, k: nat)
    requires k == if d % 0x40000 < 49 * 4096 then 15 else 0
    requires d % 0x40000 >= 4096
    ensures (d + k * 4096) % 0x40000 / 4096 / 16 != 0
  {
    if k == 15 {
      assert (d + 15 * 4096) % 0x40000 == d % 0x40000 + 15 * 4096;
    }
  }

  // ----- filling the lists -----

  lemma StripeOfRound(base: nat, addr: nat, rounds: nat, i: nat, j: nat)
    requires i < 4 && j < 16 && addr == base + rounds * 0x40000 + i * 0x10000 + j * 4096
    ensures OnStripe(base, i, addr)
  {
    Powers.DivModUnique(addr - base, 0x40000, rounds, i * 0x10000 + j * 4096);
  }

  lemma AppendStripe(s: seq<nat>, base: nat, addr: nat, i: nat)
    requires Stripes(s, base, addr, i) && OnStripe(base, i, addr)
    ensures Stripes(s + [addr], base, addr + 4096, i)
  {
    forall a: nat
      ensures a in s + [addr] <==> OnStripe(base, i, a) && a < addr + 4096
    {
      NextPageOnly(base, addr, a);
    }
    assert forall k :: 0 <= k < |s| ==> s[k] in s;
  }

  lemma SkipStripe(s: seq<nat>, base: nat, addr: nat, i: nat, c: nat)
    requires Stripes(s, base, addr, c) && OnStripe(base, i, addr) && c != i
    ensures Stripes(s, base, addr + 4096, c)
  {
    forall a: nat
      ensures a in s <==> OnStripe(base, c, a) && a < addr + 4096
    {
      NextPageOnly(base, addr, a);
    }
  }

  lemma NextPageOnly(base: nat, addr: nat, a: nat)
    requires addr >= base && (addr - base) % 4096 == 0
    ensures a >= base && (a - base) % 4096 == 0 && addr <= a < addr + 4096 ==> a == addr
  {
  }

  /** The nested loops that fill the per-chiplet lists, over whole rounds of all banks. */
  method FillStripes(base: nat, end: nat) returns (lists: seq<seq<nat>>, ghost limit: nat)
    requires base <= end
    ensures |lists| == CHIPLETS && forall c :: 0 <= c < CHIPLETS ==> Stripes(lists[c], base, limit, c)
    ensures end <= limit < end + ROUND && (limit - base) % ROUND == 0
  {
    hide Stripes, OnStripe;
    lists := [[], [], [], []];
    forall c | 0 <= c < CHIPLETS
      ensures Stripes(lists[c], base, base, c)
    {
      EmptyStripes(base, c);
    }
    var addr: nat := base;
    ghost var rounds: nat := 0;
    while addr < end
      invariant addr == base + rounds * 0x40000 && (addr < end + ROUND || addr == base)
      invariant |lists| == CHIPLETS && forall c :: 0 <= c < CHIPLETS ==> Stripes(lists[c], base, addr, c)
      decreases end - addr
    {
      var i: nat := 0;
      while i < CHIPLETS
        invariant i <= CHIPLETS && addr == base + rounds * 0x40000 + i * 0x10000
        invariant |lists| == CHIPLETS && forall c :: 0 <= c < CHIPLETS ==> Stripes(lists[c], base, addr, c)
      {
        var j: nat := 0;
        while j < BANKS
          invariant j <= BANKS && addr == base + rounds * 0x40000 + i * 0x10000 + j * 4096
          invariant |lists| == CHIPLETS && forall c :: 0 <= c < CHIPLETS ==> Stripes(lists[c], base, addr, c)
        {
          StripeOfRound(base, addr, rounds, i, j);
          AppendStripe(lists[i], base, addr, i);
          forall c | 0 <= c < CHIPLETS && c != i
            ensures Stripes(lists[c], base, addr + 4096, c)
          {
            SkipStripe(lists[c], base, addr, i, c);
          }
          lists := lists[i := lists[i] + [addr]];
          addr := addr + 4096;
          j := j + 1;
        }
        i := i + 1;
      }
      rounds := rounds + 1;
    }
    limit := addr;
    Powers.DivModUnique(limit - base, 0x40000, rounds, 0);
  }

  lemma EmptyStripes(base: nat, c: nat)
    ensures Stripes([], base, base, c)
  {
  }

  // ----- handing out table pages -----

  datatype Option<T> = None | Some(value: T)

  /** `allocatePageTablePage`: the front of the list of the chosen chiplet. */
  function Take(pick: Pick, lists: seq<seq<nat>>, key: nat): Option<(nat, seq<seq<nat>>)>
  {
    var c := ChipletFor(pick, key);
    if c >= |lists| || lists[c] == [] then None else Some((lists[c][0], lists[c := lists[c][1..]]))
  }

  /** What is left of each list are pages of its chiplet below `end`. */
  ghost predicate Left(lists: seq<seq<nat>>, base: nat, end: nat)
  {
    && |lists| == CHIPLETS
    && forall c, a {:trigger a in lists[c]} :: 0 <= c < CHIPLETS && a in lists[c] ==> OnStripe(base, c, a) && a < end
  }

  class PageTableAwareMemory {
    const pick: Pick
    var initialAddress: nat
    var storageSize: nat
    var availablePAddrs: seq<nat>
    var pAddrsForPageTable: seq<seq<nat>>

    constructor (pick: Pick, storageSize: nat)
      ensures this.pick == pick && this.storageSize == storageSize && pAddrsForPageTable == []
    {
      this.pick, this.storageSize := pick, storageSize;
      initialAddress, availablePAddrs, pAddrsForPageTable := 0, [], [];
    }

    /** Data pages below the last gigabyte, table pages striped over the chiplets inside it. */
    method SetInitialAddress(addr: nat) returns (ok: bool)
      requires storageSize >= GB && storageSize % PAGE == 0
      modifies this
      ensures ok <==> addr % PAGE == 0
      ensures ok ==>
        var base := addr + storageSize - GB;
        && storageSize == old(storageSize)
        && Increasing(availablePAddrs) && (forall a: nat :: a in availablePAddrs <==> addr <= a < base && a % PAGE == 0)
        && |pAddrsForPageTable| == CHIPLETS
        && (forall c :: 0 <= c < CHIPLETS ==> Stripes(pAddrsForPageTable[c], base, base + GB, c))
        && Left(pAddrsForPageTable, base, base + GB)
    {
      if addr % PAGE != 0 {
        return false;
      }
      hide Stripes, OnStripe;
      initialAddress := addr;
      availablePAddrs := [];
      var end: nat := addr + storageSize - GB;
      assert end % 4096 == 0;
      var next: nat := addr;
      while next < end
        invariant addr <= next <= end && next % 4096 == 0 && storageSize == old(storageSize)
        invariant Increasing(availablePAddrs)
        invariant forall a: nat :: a in availablePAddrs <==> addr <= a < next && a % 4096 == 0
      {
        forall a: nat
          ensures a in availablePAddrs + [next] <==> addr <= a < next + 4096 && a % 4096 == 0
        {
          SameMultiple(next, a);
        }
        assert forall k :: 0 <= k < |availablePAddrs| ==> availablePAddrs[k] in availablePAddrs;
        availablePAddrs := availablePAddrs + [next];
        next := next + 4096;
      }
      var lists, limit := FillStripes(end, end + GB);
      WholeRounds(limit - end);
      pAddrsForPageTable := lists;
      FilledLeft(lists, end, end + GB);
      ok := true;
    }

    method AllocatePageTablePage(shifted: nat) returns (pAddr: Option<nat>)
      modifies this`pAddrsForPageTable
      ensures match Take(pick, old(pAddrsForPageTable), shifted)
        case None => pAddr == None && pAddrsForPageTable == old(pAddrsForPageTable)
        case Some((a, lists)) => pAddr == Some(a) && pAddrsForPageTable == lists
      ensures forall c :: 0 <= c < |old(pAddrsForPageTable)| && Names(pick, shifted, c) ==>
        var list := old(pAddrsForPageTable)[c];
        && (pAddr == None <==> list == [])
        && (list != [] ==> pAddr == Some(list[0]) && pAddrsForPageTable == old(pAddrsForPageTable)[c := list[1..]])
    {
      hide Folded, Names;
      KeyNamesChiplet(pick, shifted, 0, ChipletFor(pick, shifted));
      forall c: nat
        ensures Names(pick, shifted, c) ==> c == ChipletFor(pick, shifted)
      {
        KeyNamesChiplet(pick, shifted, 0, c);
      }
      var chiplet: nat := shifted % 4;
      if pick.FoldedBits? {
        assert Shr(shifted, 0) == shifted;
        chiplet := XorFind(shifted, 4, 2, 0);
      }
      if chiplet >= |pAddrsForPageTable| || pAddrsForPageTable[chiplet] == [] {
        return None;
      }
      pAddr := Some(pAddrsForPageTable[chiplet][0]);
      pAddrsForPageTable := pAddrsForPageTable[chiplet := pAddrsForPageTable[chiplet][1..]];
    }
  }

  lemma SameMultiple(next: nat, a: nat)
    requires next % 4096 == 0
    ensures a % 4096 == 0 && next <= a < next + 4096 ==> a == next
  {
  }

  lemma WholeRounds(x: nat)
    requires GB <= x < GB + ROUND && x % ROUND == 0
    ensures x == GB
  {
  }

  lemma FilledLeft(lists: seq<seq<nat>>, base: nat, end: nat)
    requires |lists| == CHIPLETS && forall c :: 0 <= c < CHIPLETS ==> Stripes(lists[c], base, end, c)
    ensures Left(lists, base, end)
  {
    forall c, a | 0 <= c < CHIPLETS && a in lists[c]
      ensures OnStripe(base, c, a) && a < end
    {
      assert Stripes(lists[c], base, end, c);
    }
  }

  // ----- the directories of a page table -----

  /** What the allocator hands out for the missing ones among the first `k` directories of a path. */
  function Supply(pick: Pick, lists: seq<seq<nat>>, dirs: map<Path, nat>, path: Path, vAddr: nat, k: nat): Option<(seq<nat>, seq<seq<nat>>)>
    requires k <= |path|
    decreases k
  {
    if k == 0 then Some(([], lists))
    else
      match Supply(pick, lists, dirs, path, vAddr, k - 1)
      case None => None
      case Some((pages, left)) =>
        if path[..k - 1] in dirs then Some((pages, left))
        else
          match Take(pick, left, Key(vAddr, k - 1))
          case None => None
          case Some((a, rest)) => Some((pages + [a], rest))
  }

  lemma {:induction false} SupplyCounts(pick: Pick, lists: seq<seq<nat>>, dirs: map<Path, nat>, path: Path, vAddr: nat, k: nat, base: nat, end: nat)
    requires k <= |path| && Left(lists, base, end)
    ensures Supply(pick, lists, dirs, path, vAddr, k).Some? ==>
      var (pages, left) := Supply(pick, lists, dirs, path, vAddr, k).value;
      && |pages| == Missing(dirs, path, k) && Left(left, base, end)
      && (forall d {:trigger path[..d]} :: 0 <= d < k && path[..d] !in dirs ==>
            Missing(dirs, path, d) < |pages| && OnStripe(base, ChipletFor(pick, Key(vAddr, d)), pages[Missing(dirs, path, d)]) && pages[Missing(dirs, path, d)] < end)
    decreases k
  {
    hide OnStripe, ChipletFor, Key;
    if k > 0 {
      SupplyCounts(pick, lists, dirs, path, vAddr, k - 1, base, end);
      if Supply(pick, lists, dirs, path, vAddr, k).Some? {
        var (pages, left) := Supply(pick, lists, dirs, path, vAddr, k - 1).value;
        if path[..k - 1] !in dirs {
          var c := ChipletFor(pick, Key(vAddr, k - 1));
          assert left[c][0] in left[c];
          TakeLeft(left, c, base, end);
        }
      }
    }
  }

  lemma TakeLeft(lists: seq<seq<nat>>, c: nat, base: nat, end: nat)
    requires Left(lists, base, end) && c < |lists| && lists[c] != []
    ensures Left(lists[c := lists[c][1..]], base, end)
  {
    assert forall a :: a in lists[c][1..] ==> a in lists[c];
  }

  /** Every last-level directory lies on the chiplet that translates the pages below it. */
  ghost predicate TablesAtHome(pick: Pick, t: Table, base: nat, end: nat)
  {
    forall p, v: nat {:trigger t.dirs[p], Home(pick, v)} :: p in t.dirs && |p| == 3 && Vpn(v, PAGE) < Power(LEVELS) && PathOf(v, PAGE)[..3] == p ==>
      OnStripe(base, Home(pick, v), t.dirs[p]) && Home(pick, v) < CHIPLETS && t.dirs[p] < end
  }

  lemma InsertKeepsHome(pick: Pick, t: Table, page: Page, lists: seq<seq<nat>>, base: nat, end: nat)
    requires Left(lists, base, end) && TablesAtHome(pick, t, base, end) && Addressable(page.vAddr, PAGE)
    requires Supply(pick, lists, t.dirs, PathOf(page.vAddr, PAGE), page.vAddr, LEVELS).Some?
    ensures var (pages, left) := Supply(pick, lists, t.dirs, PathOf(page.vAddr, PAGE), page.vAddr, LEVELS).value;
      && Missing(t.dirs, PathOf(page.vAddr, PAGE), LEVELS) <= |pages| && Left(left, base, end)
      && (Insert(t, page, PAGE, pages).Ok? ==> TablesAtHome(pick, Insert(t, page, PAGE, pages).value, base, end))
  {
    var path := PathOf(page.vAddr, PAGE);
    SupplyCounts(pick, lists, t.dirs, path, page.vAddr, LEVELS, base, end);
    var (pages, left) := Supply(pick, lists, t.dirs, path, page.vAddr, LEVELS).value;
    if Insert(t, page, PAGE, pages).Ok? {
      var u := Insert(t, page, PAGE, pages).value;
      forall p, v: nat | p in u.dirs && |p| == 3 && Vpn(v, PAGE) < Power(LEVELS) && PathOf(v, PAGE)[..3] == p
        ensures OnStripe(base, Home(pick, v), u.dirs[p]) && Home(pick, v) < CHIPLETS && u.dirs[p] < end
      {
        GrownFrom(t.dirs, path, pages, p);
        if p !in t.dirs {
          assert p == path[..3];
          SameTableSameHome(pick, v, page.vAddr);
          HomeOfLeafTable(pick, page.vAddr);
        }
      }
    }
  }

  datatype Op = InsertPage(page: Page) | RemovePage(vAddr: nat) | UpdatePage(page: Page)

  datatype Memory = Memory(table: Table, lists: seq<seq<nat>>)

  /** One call on the page table; None where the source panics, also for want of a table page. */
  function Step(pick: Pick, m: Memory, op: Op): Option<Memory>
  {
    match op
    case InsertPage(page) => StepInsert(pick, m, page)
    case RemovePage(vAddr) => WithTable(m, Remove(m.table, vAddr, PAGE))
    case UpdatePage(page) => WithTable(m, Update(m.table, page, PAGE))
  }

  function WithTable(m: Memory, r: Outcome<Table>): Option<Memory>
  {
    if r.Ok? then Some(m.(table := r.value)) else None
  }

  function StepInsert(pick: Pick, m: Memory, page: Page): Option<Memory>
  {
    if !Addressable(page.vAddr, PAGE) then None
    else
      match Supply(pick, m.lists, m.table.dirs, PathOf(page.vAddr, PAGE), page.vAddr, LEVELS)
      case None => None
      case Some((pages, left)) =>
        if Missing(m.table.dirs, PathOf(page.vAddr, PAGE), LEVELS) > |pages| then None
        else WithTable(m.(lists := left), Insert(m.table, page, PAGE, pages))
  }

  function Run(pick: Pick, m: Memory, ops: seq<Op>): Option<Memory>
    decreases |ops|
  {
    if ops == [] then Some(m)
    else
      match Step(pick, m, ops[0])
      case None => None
      case Some(n) => Run(pick, n, ops[1..])
  }

  lemma SameDirs(pick: Pick, t: Table, u: Table, base: nat, end: nat)
    requires TablesAtHome(pick, t, base, end) && u.dirs == t.dirs
    ensures TablesAtHome(pick, u, base, end)
  {
  }

  lemma {:induction false} EveryRunKeepsHome(pick: Pick, m: Memory, ops: seq<Op>, base: nat, end: nat)
    requires Left(m.lists, base, end) && TablesAtHome(pick, m.table, base, end)
    ensures Run(pick, m, ops).Some? ==>
      Left(Run(pick, m, ops).value.lists, base, end) && TablesAtHome(pick, Run(pick, m, ops).value.table, base, end)
    decreases |ops|
  {
    hide Left, Supply, Home, TablesAtHome, Insert;
    if ops != [] && Step(pick, m, ops[0]).Some? {
      var n := Step(pick, m, ops[0]).value;
      match ops[0] {
        case InsertPage(page) => InsertKeepsHome(pick, m.table, page, m.lists, base, end);
        case RemovePage(vAddr) => SameDirs(pick, m.table, n.table, base, end);
        case UpdatePage(page) => SameDirs(pick, m.table, n.table, base, end);
      }
      EveryRunKeepsHome(pick, n, ops[1..], base, end);
    }
  }

  lemma EntryIsLocal(offset: nat, base: nat, i: nat, a: nat, x: nat)
    requires offset <= base && i < CHIPLETS && OnStripe(base, i, a) && a + x < Routing.WORD
    requires (base - offset) % ROUND == 0 && x < 4096
    ensures Routing.LocalFind(Routing.Layout(offset, CHIPLETS, BANKS, PAGE), i, a + x).Local?
  {
    hide Routing.LocalFind;
    WithinPage(a - base, base - offset, x);
    LocalByBank(offset, i, a + x);
  }

  lemma WithinPage(y: nat, d: nat, x: nat)
    requires y % 4096 == 0 && d % 0x40000 == 0 && x < 4096
    ensures (y + d + x) % 0x40000 / 4096 / 16 == y % 0x40000 / 0x10000
  {
    Powers.DivMod(y, 0x40000);
    Powers.DivMod(d, 0x40000);
    var r := y % 0x40000;
    PageRemainder(y);
    Powers.DivModUnique(y + d + x, 0x40000, y / 0x40000 + d / 0x40000, r + x);
    PageBank(r, x);
  }

  lemma PageRemainder(y: nat)
    requires y % 4096 == 0
    ensures y % 0x40000 % 4096 == 0 && y % 0x40000 + 4096 <= 0x40000
  {
  }

  lemma PageBank(r: nat, x: nat)
    requires r % 4096 == 0 && x < 4096
    ensures (r + x) / 4096 / 16 == r / 0x10000
  {
    assert (r + x) / 4096 == r / 4096;
  }

  lemma NoTables(pick: Pick, base: nat, end: nat)
    ensures TablesAtHome(pick, EMPTY, base, end)
  {
  }

  /** Over every run from an empty table, with the lists that `setInitialAddress` fills and finders
      aligned with them: the last table lookup of a walk is local on the chiplet whose translation
      cache is home to the address. */
  lemma LastLookupIsLocalAtHome(pick: Pick, lists: seq<seq<nat>>, ops: seq<Op>, offset: nat, base: nat, vAddr: nat)
    requires Left(lists, base, base + GB) && offset <= base && base + GB + 4096 < Routing.WORD
    requires (base - offset) % ROUND == 0 && Vpn(vAddr, PAGE) < Power(LEVELS)
    ensures var r := Run(pick, Memory(EMPTY, lists), ops);
      r.Some? && FindAddr(r.value.table, vAddr, 3, PAGE).Ok? ==>
        && Home(pick, vAddr) < CHIPLETS
        && Routing.LocalFind(Routing.Layout(offset, CHIPLETS, BANKS, PAGE), Home(pick, vAddr), FindAddr(r.value.table, vAddr, 3, PAGE).value).Local?
  {
    hide Routing.LocalFind, Home, Supply, Run;
    NoTables(pick, base, base + GB);
    EveryRunKeepsHome(pick, Memory(EMPTY, lists), ops, base, base + GB);
    var r := Run(pick, Memory(EMPTY, lists), ops);
    if r.Some? && FindAddr(r.value.table, vAddr, 3, PAGE).Ok? {
      var path := PathOf(vAddr, PAGE);
      var t := r.value.table;
      HomeOfLeafTable(pick, vAddr);
      assert OnStripe(base, Home(pick, vAddr), t.dirs[path[..3]]);
      EntryIsLocal(offset, base, Home(pick, vAddr), t.dirs[path[..3]], path[3] * 8);
    }
  }
}
