/**
 A write buffer that merges writes to one cache line, against the memory that the same writes would
 leave behind if each were applied on its own, in order.
 */
module WriteCombining {
  import Powers

  type byte = bv8

  /** A write; without a mask every byte counts. */
  datatype Mask = Whole | Dirty(bits: seq<bool>)
  datatype Write = Write(pid: nat, address: nat, data: seq<byte>, mask: Mask)

  predicate WellFormed(w: Write)
  {
    w.mask.Dirty? ==> |w.mask.bits| == |w.data|
  }

  predicate Counts(w: Write, i: nat)
    requires WellFormed(w) && i < |w.data|
  {
    w.mask.Whole? || w.mask.bits[i]
  }

  // ----- what writes do to memory -----

  type Patch = map<(nat, nat), byte>

  /** The bytes that the first `n` places of a write set. */
  function EffectUpTo(w: Write, n: nat): Patch
    requires WellFormed(w) && n <= |w.data|
  {
    if n == 0 then map[]
    else if Counts(w, n - 1) then EffectUpTo(w, n - 1)[(w.pid, w.address + (n - 1)) := w.data[n - 1]]
    else EffectUpTo(w, n - 1)
  }

  function Effect(w: Write): Patch
    requires WellFormed(w)
  {
    EffectUpTo(w, |w.data|)
  }

  /** Applying writes in order: later bytes win. */
  function Effects(ws: seq<Write>): Patch
    requires forall w :: w in ws ==> WellFormed(w)
  {
    if ws == [] then map[] else Effects(ws[..|ws| - 1]) + Effect(ws[|ws| - 1])
  }

  lemma {:induction false} EffectUpToAt(w: Write, n: nat, pid: nat, a: nat)
    requires WellFormed(w) && n <= |w.data|
    ensures (pid, a) in EffectUpTo(w, n) <==> pid == w.pid && w.address <= a < w.address + n && Counts(w, a - w.address)
    ensures (pid, a) in EffectUpTo(w, n) ==> EffectUpTo(w, n)[(pid, a)] == w.data[a - w.address]
  {
    if n > 0 {
      EffectUpToAt(w, n - 1, pid, a);
    }
  }

  /** A write sets exactly its dirty bytes. */
  lemma EffectAt(w: Write, pid: nat, a: nat)
    requires WellFormed(w)
    ensures (pid, a) in Effect(w) <==> pid == w.pid && w.address <= a < w.address + |w.data| && Counts(w, a - w.address)
    ensures (pid, a) in Effect(w) ==> Effect(w)[(pid, a)] == w.data[a - w.address]
  {
    EffectUpToAt(w, |w.data|, pid, a);
  }

  // ----- lines -----

  function Line(address: nat, size: nat): nat
    requires size > 0
  {
    Powers.DivMod(address, size);
    address / size
  }

  function Offset(address: nat, size: nat): (r: nat)
    requires size > 0
    ensures r < size && address == Line(address, size) * size + r
  {
    Powers.DivMod(address, size);
    address % size
  }

  /** The write does not cross a line. */
  predicate Fits(w: Write, size: nat)
    requires size > 0
  {
    Offset(w.address, size) + |w.data| <= size
  }

  // ----- combining -----

  function WithMask(w: Write): (r: Write)
    requires WellFormed(w)
    ensures WellFormed(r) && r.mask.Dirty? && r.pid == w.pid && r.address == w.address && r.data == w.data
    ensures forall i :: 0 <= i < |w.data| ==> Counts(r, i) == Counts(w, i)
  {
    if w.mask.Whole? then w.(mask := Dirty(seq(|w.data|, _ => true))) else w
  }

  /** `copy` of one sequence over another from a place on. */
  function Spread<T>(size: nat, offset: nat, s: seq<T>, none: T): (r: seq<T>)
    requires offset + |s| <= size
    ensures |r| == size
    ensures forall k :: 0 <= k < size ==> r[k] == if offset <= k < offset + |s| then s[k - offset] else none
  {
    seq(size, k requires 0 <= k < size => if offset <= k < offset + |s| then s[k - offset] else none)
  }

  /** `expandWrite`: the data grow to a line, the address stays. */
  function Expanded(w: Write, size: nat): (r: Write)
    requires size > 0 && WellFormed(w) && w.mask.Dirty? && Fits(w, size)
    ensures WellFormed(r) && r.mask.Dirty? && |r.data| == size && r.pid == w.pid && r.address == w.address
  {
    if |w.data| == size then w
    else
      var offset := Offset(w.address, size);
      w.(data := Spread(size, offset, w.data, 0), mask := Dirty(Spread(size, offset, w.mask.bits, false)))
  }

  /** Put the dirty bytes of `x` over `w`, whose data fill a line. */
  function Merged(w: Write, x: Write, size: nat): (r: Write)
    requires size > 0 && WellFormed(w) && w.mask.Dirty? && |w.data| == size && WellFormed(x) && Fits(x, size)
    ensures WellFormed(r) && r.mask.Dirty? && |r.data| == size && r.pid == w.pid && r.address == w.address
  {
    var o := Offset(x.address, size);
    w.(data := seq(size, k requires 0 <= k < size => if o <= k < o + |x.data| && Counts(x, k - o) then x.data[k - o] else w.data[k]),
       mask := Dirty(seq(size, k requires 0 <= k < size => if o <= k < o + |x.data| && Counts(x, k - o) then true else w.mask.bits[k])))
  }

  function Combined(w: Write, x: Write, size: nat): (r: Write)
    requires size > 0 && WellFormed(w) && WellFormed(x) && Fits(w, size) && Fits(x, size)
    ensures WellFormed(r) && r.mask.Dirty? && |r.data| == size && r.pid == w.pid && r.address == w.address
  {
    Merged(Expanded(WithMask(w), size), x, size)
  }

  /** A place of the combined line counts when a byte of either write falls on it. */
  lemma CombinedAt(w: Write, x: Write, size: nat, k: nat)
    requires size > 0 && WellFormed(w) && WellFormed(x) && Fits(w, size) && Fits(x, size) && k < size
    ensures var r, o, p := Combined(w, x, size), Offset(w.address, size), Offset(x.address, size);
      if p <= k < p + |x.data| && Counts(x, k - p) then Counts(r, k) && r.data[k] == x.data[k - p]
      else if o <= k < o + |w.data| && Counts(w, k - o) then Counts(r, k) && r.data[k] == w.data[k - o]
      else !Counts(r, k)
  {
    var o := Offset(w.address, size);
    if |w.data| == size {
      assert o == 0;
    }
  }

  predicate NoBytes(w: Write)
    requires WellFormed(w)
  {
    forall i :: 0 <= i < |w.data| ==> !Counts(w, i)
  }

  /** Combining into a write that starts its line is applying the two in order. */
  lemma AlignedCombine(w: Write, x: Write, size: nat)
    requires size > 0 && WellFormed(w) && WellFormed(x) && Fits(w, size) && Fits(x, size)
    requires w.pid == x.pid && Line(w.address, size) == Line(x.address, size)
    requires Offset(w.address, size) == 0
    ensures Effect(Combined(w, x, size)) == Effect(w) + Effect(x)
  {
    hide Combined, Effect;
    var r := Combined(w, x, size);
    var p := Offset(x.address, size);
    forall pid: nat, a: nat
      ensures (pid, a) in Effect(r) <==> (pid, a) in Effect(w) + Effect(x)
      ensures (pid, a) in Effect(r) ==> Effect(r)[(pid, a)] == (Effect(w) + Effect(x))[(pid, a)]
    {
      EffectAt(w, pid, a);
      EffectAt(x, pid, a);
      EffectAt(r, pid, a);
      if w.address <= a < w.address + size {
        CombinedAt(w, x, size, a - w.address);
      }
    }
    SamePatch(Effect(r), Effect(w) + Effect(x));
  }

  lemma SamePatch(p: Patch, q: Patch)
    requires forall pid: nat, a: nat {:trigger (pid, a) in p} {:trigger (pid, a) in q} :: (pid, a) in p <==> (pid, a) in q
    requires forall pid: nat, a: nat {:trigger p[(pid, a)]} :: (pid, a) in p ==> p[(pid, a)] == q[(pid, a)]
    ensures p == q
  {
    forall k
      ensures k in p <==> k in q
      ensures k in p ==> p[k] == q[k]
    {
      var (pid, a) := k;
      assert (pid, a) in p <==> (pid, a) in q;
    }
    assert forall k :: k in p.Keys <==> k in q.Keys;
    assert p.Keys == q.Keys;
  }

  /** The first of the counting places from the right. */
  lemma {:induction false} LastByte(w: Write, n: nat) returns (i: nat)
    requires WellFormed(w) && n <= |w.data| && exists j :: 0 <= j < n && Counts(w, j)
    ensures i < n && Counts(w, i) && forall j :: i < j < n ==> !Counts(w, j)
    decreases n
  {
    if Counts(w, n - 1) {
      i := n - 1;
    } else {
      i := LastByte(w, n - 1);
    }
  }

  /** Exactly when combining is right: the buffered write starts its line, or no byte counts at all.
      Otherwise the address is left behind the line's data and every byte lands too high. */
  lemma CombineIsRightIff(w: Write, x: Write, size: nat)
    requires size > 0 && WellFormed(w) && WellFormed(x) && Fits(w, size) && Fits(x, size)
    requires w.pid == x.pid && Line(w.address, size) == Line(x.address, size)
    ensures Effect(Combined(w, x, size)) == Effect(w) + Effect(x) <==> Offset(w.address, size) == 0 || (NoBytes(w) && NoBytes(x))
  {
    hide Effect, Combined;
    var r := Combined(w, x, size);
    if Offset(w.address, size) == 0 {
      AlignedCombine(w, x, size);
    } else if NoBytes(w) && NoBytes(x) {
      NothingToCombine(w, x, size);
    } else {
      SomeByteCounts(w, x, size);
      var k := LastByte(r, size);
      EffectAt(r, w.pid, w.address + k);
      TooHigh(w, x, size, k);
    }
  }

  lemma NothingToCombine(w: Write, x: Write, size: nat)
    requires size > 0 && WellFormed(w) && WellFormed(x) && Fits(w, size) && Fits(x, size)
    requires NoBytes(w) && NoBytes(x)
    ensures Effect(Combined(w, x, size)) == Effect(w) + Effect(x)
  {
    hide Effect, Combined;
    var r := Combined(w, x, size);
    forall pid: nat, a: nat
      ensures (pid, a) !in Effect(r) && (pid, a) !in Effect(w) + Effect(x)
    {
      EffectAt(w, pid, a);
      EffectAt(x, pid, a);
      EffectAt(r, pid, a);
      if w.address <= a < w.address + size {
        CombinedAt(w, x, size, a - w.address);
      }
    }
    SamePatch(Effect(r), Effect(w) + Effect(x));
  }

  lemma SomeByteCounts(w: Write, x: Write, size: nat)
    requires size > 0 && WellFormed(w) && WellFormed(x) && Fits(w, size) && Fits(x, size)
    requires !(NoBytes(w) && NoBytes(x))
    ensures exists k :: 0 <= k < size && Counts(Combined(w, x, size), k)
  {
    hide Combined;
    if !NoBytes(x) {
      var i :| 0 <= i < |x.data| && Counts(x, i);
      CombinedAt(w, x, size, Offset(x.address, size) + i);
    } else {
      var i :| 0 <= i < |w.data| && Counts(w, i);
      CombinedAt(w, x, size, Offset(w.address, size) + i);
    }
  }

  /** The last byte of a line whose address is too high lands where neither write has a byte. */
  lemma TooHigh(w: Write, x: Write, size: nat, k: nat)
    requires size > 0 && WellFormed(w) && WellFormed(x) && Fits(w, size) && Fits(x, size)
    requires w.pid == x.pid && Line(w.address, size) == Line(x.address, size) && Offset(w.address, size) > 0
    requires k < size && forall j :: k < j < size ==> !Counts(Combined(w, x, size), j)
    ensures (w.pid, w.address + k) !in Effect(w) + Effect(x)
  {
    hide Effect, Combined;
    var o, p, a := Offset(w.address, size), Offset(x.address, size), w.address + k;
    EffectAt(w, w.pid, a);
    EffectAt(x, w.pid, a);
    var line := w.address - o;
    assert x.address == line + p;
    if a - line < size {
      CombinedAt(w, x, size, a - line);
    }
  }

  // ----- the buffer -----

  datatype Buffer = Buffer(buf: seq<Write>, sent: seq<Write>, log: seq<Write>)

  ghost predicate SameLine(w: Write, x: Write, size: nat)
    requires size > 0
  {
    w.pid == x.pid && Line(w.address, size) == Line(x.address, size)
  }

  /** The first buffered write to the line, or the number of writes. */
  function Target(buf: seq<Write>, x: Write, size: nat): (i: nat)
    requires size > 0
    ensures i <= |buf| && (i < |buf| ==> SameLine(buf[i], x, size))
    ensures forall j :: 0 <= j < i ==> !SameLine(buf[j], x, size)
  {
    if buf == [] then 0
    else if buf[0].pid == x.pid && Line(buf[0].address, size) == Line(x.address, size) then 0
    else
      var i := Target(buf[1..], x, size);
      assert forall j :: 1 <= j < i + 1 ==> buf[j] == buf[1..][j - 1];
      i + 1
  }

  /** `Enqueue` below the capacity. */
  function Enqueued(b: Buffer, x: Write, size: nat): Buffer
    requires size > 0 && WellFormed(x) && Fits(x, size) && forall w :: w in b.buf ==> WellFormed(w) && Fits(w, size)
  {
    var i := Target(b.buf, x, size);
    if i == |b.buf| then b.(buf := b.buf + [x], log := b.log + [x])
    else b.(buf := b.buf[i := Combined(b.buf[i], x, size)], log := b.log + [x])
  }

  function Sent(b: Buffer): Buffer
  {
    if b.buf == [] then b else b.(buf := b.buf[1..], sent := b.sent + [b.buf[0]])
  }

  ghost predicate OnePerLine(buf: seq<Write>, size: nat)
    requires size > 0
  {
    forall i, j {:trigger buf[i], buf[j]} :: 0 <= i < j < |buf| ==> !SameLine(buf[i], buf[j], size)
  }

  ghost predicate Sound(ws: seq<Write>)
  {
    forall w :: w in ws ==> WellFormed(w)
  }

  /** Nothing is lost or reordered: what was sent and then what is buffered has the effect of all
      writes in the order they came, and no line is buffered twice. */
  ghost predicate Inv(b: Buffer, size: nat)
  {
    && size > 0 && Sound(b.sent) && Sound(b.log)
    && (forall w :: w in b.buf ==> WellFormed(w) && Fits(w, size))
    && OnePerLine(b.buf, size)
    && Sound(b.sent + b.buf) && Effects(b.sent + b.buf) == Effects(b.log)
  }

  lemma {:induction false} EffectsConcat(a: seq<Write>, b: seq<Write>)
    requires Sound(a) && Sound(b)
    ensures Sound(a + b) && Effects(a + b) == Effects(a) + Effects(b)
    decreases |b|
  {
    hide Effect;
    if b == [] {
      assert a + b == a;
    } else {
      var n := |b| - 1;
      EffectsConcat(a, b[..n]);
      assert (a + b)[..|a| + n] == a + b[..n];
      assert (a + b)[|a| + n] == b[n];
    }
  }

  lemma EffectsOne(w: Write)
    requires WellFormed(w)
    ensures Effects([w]) == Effect(w)
  {
    hide Effect;
    assert [w][..0] == [];
    assert Effects([w]) == map[] + Effect(w);
  }

  lemma LineOf(w: Write, size: nat, a: nat)
    requires size > 0 && Fits(w, size) && w.address <= a < w.address + |w.data|
    ensures Line(a, size) == Line(w.address, size)
  {
    var q, o := Line(w.address, size), Offset(w.address, size);
    Powers.DivModUnique(a, size, q, o + (a - w.address));
  }

  /** The effect of writes to other lines leaves a line's bytes alone. */
  lemma {:induction false} OtherLines(ws: seq<Write>, x: Write, size: nat, pid: nat, a: nat)
    requires size > 0 && WellFormed(x) && Fits(x, size)
    requires forall w :: w in ws ==> WellFormed(w) && Fits(w, size) && !SameLine(w, x, size)
    ensures Sound(ws) && !((pid, a) in Effects(ws) && (pid, a) in Effect(x))
  {
    hide Effect, Line;
    if ws != [] {
      var n := |ws| - 1;
      assert ws[n] in ws;
      OtherLines(ws[..n], x, size, pid, a);
      EffectAt(ws[n], pid, a);
      EffectAt(x, pid, a);
      if (pid, a) in Effect(ws[n]) && (pid, a) in Effect(x) {
        LineOf(ws[n], size, a);
        LineOf(x, size, a);
        assert false;
      }
    }
  }

  lemma Commute(ws: seq<Write>, x: Write, size: nat)
    requires size > 0 && WellFormed(x) && Fits(x, size)
    requires forall w :: w in ws ==> WellFormed(w) && Fits(w, size) && !SameLine(w, x, size)
    ensures Effects(ws) + Effect(x) == Effect(x) + Effects(ws)
  {
    hide Effect, Effects;
    forall pid: nat, a: nat
      ensures !((pid, a) in Effects(ws) && (pid, a) in Effect(x))
    {
      OtherLines(ws, x, size, pid, a);
    }
    SamePatch(Effects(ws) + Effect(x), Effect(x) + Effects(ws));
  }

  /** A combined write may stand where the old one was when the new write is to come after. */
  lemma CombineInPlace(a: seq<Write>, w: Write, c: Write, r: seq<Write>, x: Write, size: nat)
    requires size > 0 && Sound(a) && WellFormed(w) && WellFormed(c) && WellFormed(x) && Fits(x, size)
    requires forall v :: v in r ==> WellFormed(v) && Fits(v, size) && !SameLine(v, x, size)
    requires Effect(c) == Effect(w) + Effect(x)
    ensures Sound(a + ([c] + r)) && Sound(a + ([w] + r))
    ensures Effects(a + ([c] + r)) == Effects(a + ([w] + r)) + Effect(x)
  {
    hide Effect, Effects;
    EffectsConcat([c], r);
    EffectsConcat([w], r);
    EffectsConcat(a, [c] + r);
    EffectsConcat(a, [w] + r);
    EffectsOne(c);
    EffectsOne(w);
    Commute(r, x, size);
    Regroup(Effects(a), Effect(w), Effect(x), Effects(r));
  }

  lemma Regroup(a: Patch, w: Patch, x: Patch, r: Patch)
    requires r + x == x + r
    ensures a + ((w + x) + r) == (a + (w + r)) + x
  {
    assert (w + x) + r == w + (x + r);
    assert (w + r) + x == w + (r + x);
    assert a + (w + (r + x)) == (a + (w + r)) + x;
  }

  /** A write is combined only into one that begins its line: the first write of a line must. */
  ghost predicate Combinable(b: Buffer, x: Write, size: nat)
    requires size > 0
  {
    var i := Target(b.buf, x, size);
    i < |b.buf| ==> Offset(b.buf[i].address, size) == 0
  }

  lemma EnqueueKeepsInv(b: Buffer, x: Write, size: nat)
    requires Inv(b, size) && WellFormed(x) && Fits(x, size) && Combinable(b, x, size)
    ensures Inv(Enqueued(b, x, size), size)
    ensures Effects(Enqueued(b, x, size).log) == Effects(b.log) + Effect(x)
  {
    hide Effect, Line, Offset, Combined;
    var i := Target(b.buf, x, size);
    EffectsConcat(b.log, [x]);
    EffectsOne(x);
    if i == |b.buf| {
      EffectsConcat(b.sent + b.buf, [x]);
      assert b.sent + (b.buf + [x]) == (b.sent + b.buf) + [x];
      OnePerLineAppend(b.buf, x, size);
    } else {
      CombineKeeps(b, x, size, i);
    }
  }

  lemma OnePerLineAppend(buf: seq<Write>, x: Write, size: nat)
    requires size > 0 && OnePerLine(buf, size) && forall j :: 0 <= j < |buf| ==> !SameLine(buf[j], x, size)
    ensures OnePerLine(buf + [x], size)
  {
  }

  lemma OnePerLineUpdate(buf: seq<Write>, i: nat, c: Write, size: nat)
    requires size > 0 && OnePerLine(buf, size) && i < |buf| && c.pid == buf[i].pid && c.address == buf[i].address
    ensures OnePerLine(buf[i := c], size)
  {
    var new_ := buf[i := c];
    forall j, k | 0 <= j < k < |buf|
      ensures !SameLine(new_[j], new_[k], size)
    {
      assert !SameLine(buf[j], buf[k], size);
    }
  }

  lemma AlignedFits(c: Write, size: nat)
    requires size > 0 && |c.data| == size && Offset(c.address, size) == 0
    ensures Fits(c, size)
  {
  }

  lemma CombineKeeps(b: Buffer, x: Write, size: nat, i: nat)
    requires Inv(b, size) && WellFormed(x) && Fits(x, size) && i == Target(b.buf, x, size) < |b.buf|
    requires Offset(b.buf[i].address, size) == 0
    requires Sound(b.log + [x]) && Effects(b.log + [x]) == Effects(b.log) + Effect(x)
    ensures Inv(Enqueued(b, x, size), size)
  {
    hide Effect, Effects, Line, Offset, Combined, Target, OnePerLine;
    var w := b.buf[i];
    assert w in b.buf;
    var c := Combined(w, x, size);
    AlignedFits(c, size);
    AlignedCombine(w, x, size);
    var front, rest := b.sent + b.buf[..i], b.buf[i + 1..];
    RestApart(b.buf, i, x, size);
    Around(b.sent, b.buf, i, c);
    assert Sound(front);
    CombineInPlace(front, w, c, rest, x, size);
    OnePerLineUpdate(b.buf, i, c, size);
  }

  lemma Around(sent: seq<Write>, buf: seq<Write>, i: nat, c: Write)
    requires i < |buf|
    ensures sent + buf == (sent + buf[..i]) + ([buf[i]] + buf[i + 1..])
    ensures sent + buf[i := c] == (sent + buf[..i]) + ([c] + buf[i + 1..])
    ensures forall v :: v in buf[i := c] ==> v == c || v in buf
    ensures forall v :: v in sent + buf[..i] ==> v in sent + buf
  {
    assert buf == buf[..i] + ([buf[i]] + buf[i + 1..]);
    assert buf[i := c] == buf[..i] + ([c] + buf[i + 1..]);
  }

  lemma RestApart(buf: seq<Write>, i: nat, x: Write, size: nat)
    requires size > 0 && OnePerLine(buf, size) && i < |buf| && SameLine(buf[i], x, size)
    ensures forall v :: v in buf[i + 1..] ==> v in buf && !SameLine(v, x, size)
  {
    forall v | v in buf[i + 1..]
      ensures v in buf && !SameLine(v, x, size)
    {
      var j :| 0 <= j < |buf| - i - 1 && buf[i + 1..][j] == v;
      assert buf[i + 1 + j] == v && !SameLine(buf[i], buf[i + 1 + j], size);
    }
  }

  // ----- every run -----

  datatype Op = Enqueue(write: Write) | Tick(accepted: bool)

  /** An enqueue that meets what the buffer assumes, or a tick, which sends if the port accepts. */
  ghost predicate Allowed(b: Buffer, op: Op, size: nat, capacity: nat)
    requires size > 0
  {
    op.Enqueue? ==> |b.buf| < capacity && WellFormed(op.write) && Fits(op.write, size) && Combinable(b, op.write, size)
  }

  ghost predicate Runs(b: Buffer, ops: seq<Op>, size: nat, capacity: nat, c: Buffer)
    requires size > 0
    decreases |ops|
  {
    if ops == [] then c == b
    else
      && Allowed(b, ops[0], size, capacity) && (forall w :: w in b.buf ==> WellFormed(w) && Fits(w, size))
      && Runs(if ops[0].Enqueue? then Enqueued(b, ops[0].write, size) else if ops[0].accepted then Sent(b) else b, ops[1..], size, capacity, c)
  }

  lemma SentKeepsInv(b: Buffer, size: nat)
    requires Inv(b, size)
    ensures Inv(Sent(b), size)
  {
    hide Effects;
    if b.buf != [] {
      assert (b.sent + [b.buf[0]]) + b.buf[1..] == b.sent + b.buf;
      assert forall w :: w in b.buf[1..] ==> w in b.buf;
    }
  }

  /** For every interleaving of enqueues and ticks: the writes sent, then those still buffered, leave
      the memory that all enqueued writes would leave in order, per process and address; and no line
      is buffered twice. */
  lemma {:induction false} EveryRunKeepsMemory(b: Buffer, ops: seq<Op>, size: nat, capacity: nat, c: Buffer)
    requires Inv(b, size) && Runs(b, ops, size, capacity, c)
    ensures Inv(c, size)
    decreases |ops|
  {
    hide Effects, Enqueued, Sent, OnePerLine, Combinable;
    if ops != [] {
      if ops[0].Enqueue? {
        EnqueueKeepsInv(b, ops[0].write, size);
        EveryRunKeepsMemory(Enqueued(b, ops[0].write, size), ops[1..], size, capacity, c);
      } else {
        SentKeepsInv(b, size);
        EveryRunKeepsMemory(if ops[0].accepted then Sent(b) else b, ops[1..], size, capacity, c);
      }
    }
  }

  /** A line whose first write does not begin it: the second byte of the line is written, then its
      first; memory should hold both, but the combined write puts them one place too high. */
  lemma UnalignedFirstWriteGoesAstray()
    ensures var w, x := Write(0, 65, [7], Whole), Write(0, 64, [9], Whole);
      && Fits(w, 64) && Fits(x, 64)
      && (0, 66) in Effect(Combined(w, x, 64)) && (0, 66) !in Effect(w) + Effect(x)
  {
    hide Effect, Combined;
    var w, x := Write(0, 65, [7], Whole), Write(0, 64, [9], Whole);
    EffectAt(Combined(w, x, 64), 0, 66);
    EffectAt(w, 0, 66);
    EffectAt(x, 0, 66);
    CombinedAt(w, x, 64, 1);
  }
}
