/**
 Which bank serves an address: the finders on every chiplet, the table between chiplets and the
 converter inside a bank, each with its own division formula.
 */
module Routing {
  import Powers

  const WORD: nat := 0x1_0000_0000_0000_0000

  /** Unsigned 64-bit subtraction. */
  function Sub64(a: nat, b: nat): (r: nat)
    ensures a >= b && a < WORD ==> r == a - b
  {
    if a >= b && a < WORD then a - b else (a - b) % WORD
  }

  /** Chiplets with banks, addresses striped over all banks from an offset on. */
  datatype Layout = Layout(offset: nat, chiplets: nat, banks: nat, striping: nat)
  {
    predicate Valid() { chiplets > 0 && banks > 0 && striping > 0 }
  }

  datatype Port = Local(bank: nat) | Remote

  /** `StripedLowModuleFinder.Find`, as an index. */
  function StripedFind(offset: nat, numBanks: nat, striping: nat, address: nat): nat
    requires numBanks > 0 && striping > 0
  {
    Powers.MulAtLeast(numBanks, striping);
    Powers.DivMod(Sub64(address, offset), numBanks * striping);
    Powers.DivMod(Sub64(address, offset) % (numBanks * striping), striping);
    (Sub64(address, offset) % (numBanks * striping)) / striping
  }

  /** `StripedLocalVRemoteLowModuleFinder.Find` as built for one chiplet. */
  function LocalFind(l: Layout, chiplet: nat, address: nat): Port
    requires l.Valid()
  {
    Powers.MulAtLeast(l.chiplets, l.banks);
    var i := StripedFind(l.offset, l.chiplets * l.banks, l.striping, address);
    var start := l.banks * chiplet;
    Powers.MulNat(l.banks, chiplet);
    if start <= i <= start + (l.banks - 1) then Local(i - start) else Remote
  }

  /** The table between chiplets: stripes of all of a chiplet's banks. */
  function RemoteTable(l: Layout, address: nat): nat
    requires l.Valid()
  {
    Powers.MulAtLeast(l.banks, l.striping);
    StripedFind(l.offset, l.chiplets, l.banks * l.striping, address)
  }

  datatype Internal = Panic | Address(value: nat)

  /** `ConvertExternalToInternal` of one bank. */
  function Convert(l: Layout, element: nat, external: nat): Internal
    requires l.Valid()
  {
    if external < l.offset then Panic
    else
      Powers.MulAtLeast(l.chiplets, l.banks);
      Powers.MulAtLeast(l.chiplets * l.banks, l.striping);
      var addr := external - l.offset;
      var round := l.striping * (l.chiplets * l.banks);
      Powers.DivMod(addr, round);
      Powers.DivMod(addr % round, l.striping);
      if addr % round / l.striping != element then Panic
      else
        Powers.DivMod(external, l.striping);
        Powers.MulNat(addr / round, l.striping);
        Address(addr / round * l.striping + external % l.striping)
  }

  /** Where an address ends up from a chiplet: the bank's chiplet, its number there and the hops. */
  datatype Route = Route(chiplet: nat, bank: nat, hops: nat) | Nowhere

  function RouteFrom(l: Layout, chiplet: nat, address: nat): Route
    requires l.Valid()
  {
    match LocalFind(l, chiplet, address)
    case Local(b) => Route(chiplet, b, 0)
    case Remote =>
      match LocalFind(l, RemoteTable(l, address), address)
      case Local(b) => Route(RemoteTable(l, address), b, 1)
      case Remote => Nowhere
  }

  lemma MulMonotone(q: nat, n: nat, s: nat)
    ensures q >= n ==> q * s >= n * s
  {
    if q >= n {
      Powers.MulNat(q - n, s);
      assert q * s == n * s + (q - n) * s;
    }
  }

  lemma MulAway(k: int, s: nat)
    ensures k >= 1 ==> k * s >= s
    ensures k < 0 ==> k * s + s <= 0
  {
    if k >= 1 {
      Powers.MulAtLeast(k, s);
    } else if k < 0 {
      Powers.MulAtLeast(-k, s);
      assert (-k) * s == -(k * s);
    }
  }

  lemma StripeBounds(y: nat, n: nat, s: nat)
    requires n > 0 && s > 0 && y < n * s
    ensures 0 <= y / s < n
  {
    Powers.DivMod(y, s);
    MulMonotone(y / s, n, s);
  }

  lemma QuotientIs(i: nat, b: nat, c: nat)
    requires b > 0
    ensures b * c >= 0 && (i / b == c <==> b * c <= i <= b * c + (b - 1))
  {
    Powers.MulNat(b, c);
    Powers.DivMod(i, b);
    if b * c <= i <= b * c + (b - 1) {
      Powers.DivModUnique(i, b, c, i - b * c);
    }
  }

  /** The chiplet that the table names is the one whose banks include the address's bank. */
  lemma TableAgrees(l: Layout, address: nat)
    requires l.Valid()
    ensures l.chiplets * l.banks > 0
    ensures var i := StripedFind(l.offset, l.chiplets * l.banks, l.striping, address);
      && i < l.chiplets * l.banks && RemoteTable(l, address) == i / l.banks && RemoteTable(l, address) < l.chiplets
  {
    var n, b, s := l.chiplets, l.banks, l.striping;
    Powers.MulAtLeast(n, b);
    Powers.MulAtLeast(b, s);
    Powers.MulAtLeast(n * b, s);
    Powers.MulAtLeast(n, b * s);
    var x := Sub64(address, l.offset);
    assert n * b * s == n * (b * s);
    var y := x % (n * b * s);
    Powers.DivMod(x, n * b * s);
    StripeBounds(y, n * b, s);
    StripeBounds(y, n, b * s);
    Powers.DivDiv(y, s, b);
    assert s * b == b * s;
  }

  /** From every chiplet an address reaches the same bank, at home or by one hop that is then local. */
  lemma OneHopAtMost(l: Layout, chiplet: nat, address: nat)
    requires l.Valid() && chiplet < l.chiplets
    ensures var c := RemoteTable(l, address);
      && c < l.chiplets && LocalFind(l, c, address).Local? && LocalFind(l, c, address).bank < l.banks
      && RouteFrom(l, chiplet, address) == Route(c, LocalFind(l, c, address).bank, if chiplet == c then 0 else 1)
  {
    TableAgrees(l, address);
    var i := StripedFind(l.offset, l.chiplets * l.banks, l.striping, address);
    var c := i / l.banks;
    QuotientIs(i, l.banks, c);
    QuotientIs(i, l.banks, chiplet);
  }

  /** The bank that an address is routed to takes it: its converter panics only for an address below
      the offset, which no bank takes. */
  lemma RoutedBankConverts(l: Layout, chiplet: nat, address: nat)
    requires l.Valid() && chiplet < l.chiplets && address < WORD
    ensures RouteFrom(l, chiplet, address).Route?
    ensures var r := RouteFrom(l, chiplet, address);
      && l.banks * r.chiplet + r.bank >= 0
      && (Convert(l, l.banks * r.chiplet + r.bank, address).Panic? <==> address < l.offset)
  {
    OneHopAtMost(l, chiplet, address);
    TableAgrees(l, address);
    var r := RouteFrom(l, chiplet, address);
    Powers.MulNat(l.banks, r.chiplet);
    assert l.striping * (l.chiplets * l.banks) == (l.chiplets * l.banks) * l.striping;
  }

  /** The parts of an address that its bank and internal address determine. */
  lemma ConvertParts(l: Layout, element: nat, a: nat) returns (q: nat, r: nat)
    requires l.Valid() && Convert(l, element, a).Address?
    ensures l.striping * (l.chiplets * l.banks) > 0 && q * (l.striping * (l.chiplets * l.banks)) >= 0 && element * l.striping >= 0
    ensures a == l.offset + q * (l.striping * (l.chiplets * l.banks)) + element * l.striping + r && r < l.striping
    ensures q * l.striping >= 0 && 0 <= a % l.striping < l.striping && Convert(l, element, a).value == q * l.striping + a % l.striping
  {
    var s := l.striping;
    Powers.MulAtLeast(l.chiplets, l.banks);
    Powers.MulAtLeast(l.chiplets * l.banks, s);
    var round := s * (l.chiplets * l.banks);
    var x := a - l.offset;
    Powers.DivMod(x, round);
    Powers.DivMod(x % round, s);
    Powers.DivMod(a, s);
    q, r := x / round, (x % round) % s;
    Powers.MulNat(q, round);
    Powers.MulNat(element, s);
    Powers.MulNat(q, s);
  }

  /** No two addresses share a place in a bank. */
  lemma ConvertInjective(l: Layout, element: nat, a: nat, b: nat)
    requires l.Valid() && Convert(l, element, a).Address? && Convert(l, element, b) == Convert(l, element, a)
    ensures a == b
  {
    var s := l.striping;
    var q, r := ConvertParts(l, element, a);
    var q', r' := ConvertParts(l, element, b);
    Powers.QuotientUnique(s, q, a % s, q', b % s);
    assert q == q' && a % s == b % s;
    SameResidue(a, b, r, r', s);
  }

  lemma SameResidue(a: nat, b: nat, r: nat, r': nat, s: nat)
    requires s > 0 && r < s && r' < s && a - r == b - r' && a % s == b % s
    ensures r == r'
  {
    Powers.DivMod(a, s);
    Powers.DivMod(b, s);
    var k := a / s - b / s;
    assert r - r' == k * s by {
      assert a - b == k * s;
    }
    MulAway(k, s);
  }

  /** Across banks and chiplets: two routed addresses with the same bank and internal address are equal. */
  lemma RoutingInjective(l: Layout, c: nat, d: nat, a: nat, b: nat)
    requires l.Valid() && c < l.chiplets && d < l.chiplets && l.offset <= a < WORD && l.offset <= b < WORD
    requires RouteFrom(l, c, a).Route? && RouteFrom(l, d, b).Route?
    requires RouteFrom(l, c, a).chiplet == RouteFrom(l, d, b).chiplet && RouteFrom(l, c, a).bank == RouteFrom(l, d, b).bank
    requires var e := l.banks * RouteFrom(l, c, a).chiplet + RouteFrom(l, c, a).bank;
      e >= 0 && Convert(l, e, a) == Convert(l, e, b)
    ensures a == b
  {
    RoutedBankConverts(l, c, a);
    RoutedBankConverts(l, d, b);
    ConvertInjective(l, l.banks * RouteFrom(l, c, a).chiplet + RouteFrom(l, c, a).bank, a, b);
  }
}
