/**
 A set-associative directory: the least-recently-used queues that visits rotate in place, the choice
 of a victim, and the placement of blocks.
 */
module CacheDirectory {
  import Powers

  // ----- the queue as a value -----

  function IndexOf<T(==)>(q: seq<T>, b: T): (i: nat)
    ensures i <= |q| && (i < |q| ==> q[i] == b) && forall j :: 0 <= j < i ==> q[j] != b
    ensures i < |q| <==> b in q
  {
    if q == [] then 0
    else if q[0] == b then 0
    else
      assert q == [q[0]] + q[1..];
      1 + IndexOf(q[1..], b)
  }

  /** The block moves to the end; a block of another set moves nothing. */
  function Visited<T(==)>(q: seq<T>, b: T): seq<T>
  {
    var i := IndexOf(q, b);
    if i == |q| then q else q[..i] + q[i + 1..] + [b]
  }

  function VisitedAll<T(==)>(q: seq<T>, vs: seq<T>): seq<T>
  {
    if vs == [] then q else Visited(VisitedAll(q, vs[..|vs| - 1]), vs[|vs| - 1])
  }

  /** When a block was last visited, counting from 1; 0 for never. */
  function LastVisit<T(==)>(vs: seq<T>, b: T): (t: nat)
    ensures t <= |vs| && (t > 0 ==> vs[t - 1] == b) && forall k :: t <= k < |vs| ==> vs[k] != b
  {
    if vs == [] then 0 else if vs[|vs| - 1] == b then |vs| else LastVisit(vs[..|vs| - 1], b)
  }

  ghost predicate Distinct<T>(q: seq<T>)
  {
    forall i, j :: 0 <= i < j < |q| ==> q[i] != q[j]
  }

  /** Earlier in the queue means visited longer ago; blocks never visited keep their first order. */
  ghost predicate ByLastVisit<T>(q: seq<T>, vs: seq<T>, first: seq<T>)
  {
    forall i, j {:trigger q[i], q[j]} :: 0 <= i < j < |q| ==>
      LastVisit(vs, q[i]) < LastVisit(vs, q[j]) || (LastVisit(vs, q[i]) == LastVisit(vs, q[j]) == 0 && IndexOf(first, q[i]) < IndexOf(first, q[j]))
  }

  /** Where each place of the rotated queue comes from. */
  lemma VisitedAt<T>(q: seq<T>, b: T, k: nat)
    requires k < |q|
    ensures |Visited(q, b)| == |q|
    ensures b in q ==> Visited(q, b)[k] == if k < IndexOf(q, b) then q[k] else if k < |q| - 1 then q[k + 1] else b
  {
    hide IndexOf;
    if b in q {
      var i := IndexOf(q, b);
      assert |q[..i]| == i && |q[i + 1..]| == |q| - 1 - i;
    }
  }

  lemma VisitedMembers<T>(q: seq<T>, b: T)
    requires Distinct(q)
    ensures multiset(Visited(q, b)) == multiset(q) && |Visited(q, b)| == |q| && Distinct(Visited(q, b))
  {
    var i := IndexOf(q, b);
    var r := Visited(q, b);
    if i < |q| {
      assert q == q[..i] + ([q[i]] + q[i + 1..]);
      assert multiset(r) == multiset(q);
      forall j, k | 0 <= j < k < |r|
        ensures r[j] != r[k]
      {
        hide Visited, IndexOf;
        VisitedAt(q, b, j);
        VisitedAt(q, b, k);
      }
    }
  }

  /** Over every run of visits the queue is a permutation of the set, ordered by last visit. */
  lemma {:induction false} QueueIsByLastVisit<T>(q: seq<T>, vs: seq<T>)
    requires Distinct(q)
    ensures var r := VisitedAll(q, vs);
      multiset(r) == multiset(q) && |r| == |q| && Distinct(r) && ByLastVisit(r, vs, q)
  {
    hide Visited, IndexOf, LastVisit, ByLastVisit, Distinct;
    if vs == [] {
      FirstOrder(q);
    } else {
      var init, b := vs[..|vs| - 1], vs[|vs| - 1];
      QueueIsByLastVisit(q, init);
      var s := VisitedAll(q, init);
      VisitedMembers(s, b);
      VisitKeepsOrder(s, init, b, q);
      assert vs == init + [b];
    }
  }

  lemma FirstOrder<T>(q: seq<T>)
    requires Distinct(q)
    ensures ByLastVisit(q, [], q)
  {
    forall i, j | 0 <= i < j < |q|
      ensures IndexOf(q, q[i]) < IndexOf(q, q[j])
    {
      assert q[i] in q && q[j] in q;
    }
  }

  lemma LastVisitNext<T>(vs: seq<T>, b: T, x: T)
    ensures LastVisit(vs + [b], x) == if x == b then |vs| + 1 else LastVisit(vs, x)
  {
    assert (vs + [b])[..|vs|] == vs;
  }

  lemma VisitKeepsOrder<T>(q: seq<T>, vs: seq<T>, b: T, first: seq<T>)
    requires Distinct(q) && ByLastVisit(q, vs, first)
    ensures ByLastVisit(Visited(q, b), vs + [b], first)
  {
    hide IndexOf, LastVisit;
    var r, n := Visited(q, b), |q|;
    if b in q {
      forall i, j | 0 <= i < j < |r|
        ensures LastVisit(vs + [b], r[i]) < LastVisit(vs + [b], r[j])
          || (LastVisit(vs + [b], r[i]) == LastVisit(vs + [b], r[j]) == 0 && IndexOf(first, r[i]) < IndexOf(first, r[j]))
      {
        OneMoves(q, b, i, j);
        LastVisitNext(vs, b, r[i]);
        LastVisitNext(vs, b, r[j]);
      }
    } else {
      forall i | 0 <= i < n
        ensures LastVisit(vs + [b], q[i]) == LastVisit(vs, q[i])
      {
        LastVisitNext(vs, b, q[i]);
      }
      NoVisit(q, b);
    }
  }

  lemma NoVisit<T>(q: seq<T>, b: T)
    requires b !in q
    ensures Visited(q, b) == q
  {
  }

  /** Two places of the rotated queue: the later one is the visited block, or both were in this order. */
  lemma OneMoves<T>(q: seq<T>, b: T, i: nat, j: nat)
    requires Distinct(q) && b in q && i < j < |q|
    ensures |Visited(q, b)| == |q| && Visited(q, b)[i] != b
    ensures Visited(q, b)[j] == b || exists k, l :: 0 <= k < l < |q| && q[k] == Visited(q, b)[i] && q[l] == Visited(q, b)[j]
  {
    hide Visited;
    VisitedAt(q, b, i);
    VisitedAt(q, b, j);
    var at := IndexOf(q, b);
    var k, l := if i < at then i else i + 1, if j < at then j else j + 1;
    if j < |q| - 1 {
      assert k < l < |q| && q[k] == Visited(q, b)[i] && q[l] == Visited(q, b)[j];
    }
  }

  // ----- victims -----

  datatype State = State(valid: bool, locked: bool)

  /** `FindVictim`: the first unlocked block that is empty, else the first unlocked one, else the front. */
  function FirstWith(q: seq<State>, emptyOnly: bool): (i: nat)
    ensures i <= |q| && (i < |q| ==> !q[i].locked && (emptyOnly ==> !q[i].valid))
    ensures forall j :: 0 <= j < i ==> q[j].locked || (emptyOnly && q[j].valid)
  {
    if q == [] then 0
    else if !q[0].locked && (emptyOnly ==> !q[0].valid) then 0
    else
      var i := FirstWith(q[1..], emptyOnly);
      assert forall j :: 1 <= j < i + 1 ==> q[j] == q[1..][j - 1];
      i + 1
  }

  function Victim(q: seq<State>): (i: nat)
    requires q != []
    ensures i < |q|
  {
    if FirstWith(q, true) < |q| then FirstWith(q, true)
    else if FirstWith(q, false) < |q| then FirstWith(q, false)
    else 0
  }

  /** After any visits, the victim is an unlocked empty block if there is one; otherwise no unlocked
      block was visited longer ago than it. */
  lemma VictimIsLeastRecent<T>(first: seq<T>, vs: seq<T>, states: seq<State>)
    requires Distinct(first) && first != [] && |states| == |first|
    ensures var q := VisitedAll(first, vs);
      var v := Victim(states);
      && |q| == |states|
      && ((exists i :: 0 <= i < |q| && !states[i].locked && !states[i].valid) ==> !states[v].locked && !states[v].valid)
      && ((exists i :: 0 <= i < |q| && !states[i].locked) ==> !states[v].locked)
      && (forall i :: 0 <= i < |q| && !states[i].locked && states[i].valid == states[v].valid ==> LastVisit(vs, q[v]) <= LastVisit(vs, q[i]))
  {
    hide LastVisit;
    QueueIsByLastVisit(first, vs);
    var q := VisitedAll(first, vs);
    var v := Victim(states);
    forall i | 0 <= i < |q| && !states[i].locked && states[i].valid == states[v].valid
      ensures LastVisit(vs, q[v]) <= LastVisit(vs, q[i])
    {
      assert v <= i;
    }
  }

  // ----- where blocks lie in the cache -----

  function CacheAddress(set_: nat, way: nat, ways: nat, blockSize: nat): nat
  {
    Powers.MulNat(set_, ways);
    Powers.MulNat(set_ * ways + way, blockSize);
    (set_ * ways + way) * blockSize
  }

  lemma WithinProduct(x: nat, n: nat, d: nat)
    requires x < n
    ensures x * d + d <= n * d
  {
    assert n * d == x * d + d + (n - x - 1) * d;
    Powers.MulNat(n - x - 1, d);
  }

  /** Blocks fill the cache without overlap: different places are a block apart, all inside. */
  lemma BlocksApart(sets: nat, ways: nat, blockSize: nat, i: nat, j: nat, k: nat, l: nat)
    requires blockSize > 0 && i < sets && k < sets && j < ways && l < ways
    ensures sets * ways >= 0 && sets * ways * blockSize >= 0
    ensures CacheAddress(i, j, ways, blockSize) + blockSize <= sets * ways * blockSize
    ensures (i, j) != (k, l) ==>
      CacheAddress(i, j, ways, blockSize) + blockSize <= CacheAddress(k, l, ways, blockSize)
      || CacheAddress(k, l, ways, blockSize) + blockSize <= CacheAddress(i, j, ways, blockSize)
    ensures CacheAddress(0, 0, ways, blockSize) == 0
    ensures CacheAddress(i, j + 1, ways, blockSize) == CacheAddress(i, j, ways, blockSize) + blockSize
    ensures CacheAddress(i + 1, 0, ways, blockSize) == CacheAddress(i, ways, ways, blockSize)
  {
    assert (i * ways + j + 1) * blockSize == (i * ways + j) * blockSize + blockSize;
    assert (i + 1) * ways == i * ways + ways;
    Powers.MulNat(sets, ways);
    Powers.MulNat(sets * ways, blockSize);
    Powers.MulNat(i, ways);
    Powers.MulNat(k, ways);
    WithinProduct(i, sets, ways);
    WithinProduct(i * ways + j, sets * ways, blockSize);
    if (i, j) != (k, l) {
      if i * ways + j == k * ways + l {
        Powers.QuotientUnique(ways, i, j, k, l);
      } else if i * ways + j < k * ways + l {
        WithinProduct(i * ways + j, k * ways + l, blockSize);
      } else {
        WithinProduct(k * ways + l, i * ways + j, blockSize);
      }
    }
  }
}
