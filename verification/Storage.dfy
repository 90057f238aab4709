/**
 Byte storage in units that are created when first touched, against one flat array of bytes that are
 zero until written.
 */
module Storage {
  import opened WriteCombining
  import Powers

  /** The first address of the unit that holds an address. */
  function BaseOf(a: nat, unit: nat): (r: nat)
    requires unit > 0
    ensures r <= a && a - r < unit && a - r == a % unit
  {
    Powers.DivMod(a, unit);
    a - a % unit
  }

  lemma SameUnit(a: nat, k: nat, unit: nat)
    requires unit > 0 && a % unit + k < unit
    ensures BaseOf(a + k, unit) == BaseOf(a, unit) && (a + k) % unit == a % unit + k
  {
    Powers.DivMod(a, unit);
    Powers.DivModUnique(a + k, unit, a / unit, a % unit + k);
  }

  lemma NextUnit(a: nat, unit: nat)
    requires unit > 0
    ensures (a + (unit - a % unit)) % unit == 0 && BaseOf(a + (unit - a % unit), unit) == BaseOf(a, unit) + unit
  {
    Powers.DivMod(a, unit);
    var q := a / unit;
    assert (q + 1) * unit == q * unit + unit;
    Powers.DivModUnique(a + (unit - a % unit), unit, q + 1, 0);
  }

  /** The start of the last piece that the loops handle: the address itself or the last unit touched. */
  function LastPiece(address: nat, len: nat, unit: nat): nat
    requires unit > 0 && len > 0
  {
    if BaseOf(address + len - 1, unit) < address then address else BaseOf(address + len - 1, unit)
  }

  /** What the code checks: every piece starts at or below the capacity. */
  predicate WithinCapacity(address: nat, len: nat, unit: nat, capacity: nat)
    requires unit > 0
  {
    len == 0 || LastPiece(address, len, unit) <= capacity
  }

  lemma LaterPiece(address: nat, len: nat, unit: nat)
    requires unit > 0 && len > 0
    ensures address <= LastPiece(address, len, unit)
    ensures len > unit - address % unit ==>
      LastPiece(address + (unit - address % unit), len - (unit - address % unit), unit) == LastPiece(address, len, unit)
    ensures len <= unit - address % unit ==> LastPiece(address, len, unit) == address
  {
    var left := unit - address % unit;
    if len > left {
      NextUnit(address, unit);
      BaseMonotone(address + left, address + len - 1, unit);
    } else {
      SameUnit(address, len - 1, unit);
    }
  }

  lemma BaseMonotone(a: nat, b: nat, unit: nat)
    requires unit > 0 && a <= b && a % unit == 0
    ensures BaseOf(b, unit) >= a
  {
    Powers.DivMod(a, unit);
    Powers.DivMod(b, unit);
    UnitsApart(a / unit, b / unit, unit);
  }

  lemma UnitsApart(p: nat, q: nat, unit: nat)
    ensures q < p ==> q * unit + unit <= p * unit
  {
    if q < p {
      Powers.MulAtLeast(p - q, unit);
      assert p * unit == q * unit + (p - q) * unit;
    }
  }

  class Storage {
    const capacity: nat
    const unitSize: nat
    var data: map<nat, array<byte>>

    constructor (capacity: nat)
      requires capacity >= 16
      ensures Valid() && this.capacity == capacity && unitSize == capacity / 16 && data == map[]
      ensures forall a: nat :: Byte(a) == 0
    {
      this.capacity := capacity;
      unitSize := capacity / 16;
      data := map[];
    }

    ghost predicate Valid()
      reads this, data.Values
    {
      && unitSize > 0
      && (forall b {:trigger data[b]} :: b in data ==> data[b].Length == unitSize)
      && (forall b, c {:trigger data[b], data[c]} :: b in data && c in data && b != c ==> data[b] != data[c])
    }

    /** The flat array. */
    ghost function Byte(a: nat): byte
      requires Valid()
      reads this, data.Values
    {
      var b := BaseOf(a, unitSize);
      if b in data then data[b][a % unitSize] else 0
    }

    ghost function Bytes(address: nat, n: nat): (r: seq<byte>)
      requires Valid()
      reads this, data.Values
      ensures |r| == n && forall a: nat {:trigger Byte(a)} :: address <= a < address + n ==> r[a - address] == Byte(a)
    {
      if n == 0 then [] else Bytes(address, n - 1) + [Byte(address + (n - 1))]
    }

    method CreateOrGetStorageUnit(address: nat) returns (unit: array?<byte>)
      requires Valid()
      modifies this`data
      ensures Valid() && (unit == null <==> address > capacity)
      ensures unit == null ==> data == old(data)
      ensures unit != null ==>
        BaseOf(address, unitSize) in data && data[BaseOf(address, unitSize)] == unit
      ensures forall a: nat :: Byte(a) == old(Byte(a))
      ensures fresh(data.Values - old(data.Values)) && old(data.Values) <= data.Values
    {
      if address > capacity {
        return null;
      }
      var base := BaseOf(address, unitSize);
      if base !in data {
        var u := new byte[unitSize](_ => 0);
        data := data[base := u];
      }
      unit := data[base];
      forall u | u in old(data).Values
        ensures u in data.Values
      {
        var b :| b in old(data) && old(data)[b] == u;
        assert data[b] == u;
      }
    }

    /** Write bytes across units. Fails where a piece starts above the capacity, after the earlier
        pieces have been written. */
    method Write(address: nat, bytes: seq<byte>) returns (ok: bool, ghost written: nat)
      requires Valid()
      modifies this`data, data.Values
      ensures Valid() && written <= |bytes| && (ok <==> written == |bytes|)
      ensures ok <==> WithinCapacity(address, |bytes|, unitSize, capacity)
      ensures forall a: nat :: Byte(a) == if address <= a < address + written then bytes[a - address] else old(Byte(a))
      ensures fresh(data.Values - old(data.Values))
    {
      written := 0;
      var currAddr: nat, dataOffset: nat := address, 0;
      while dataOffset < |bytes|
        invariant Valid() && dataOffset <= |bytes| && currAddr == address + dataOffset && written == dataOffset
        invariant forall a: nat :: Byte(a) == if address <= a < address + written then bytes[a - address] else old(Byte(a))
        invariant fresh(data.Values - old(data.Values))
        invariant WithinCapacity(address, |bytes|, unitSize, capacity) <==> WithinCapacity(currAddr, |bytes| - dataOffset, unitSize, capacity)
      {
        LaterPiece(currAddr, |bytes| - dataOffset, unitSize);
        var unit := CreateOrGetStorageUnit(currAddr);
        if unit == null {
          return false, written;
        }
        var inUnitAddr: nat := currAddr - BaseOf(currAddr, unitSize);
        var lenLeftInData, lenLeftInUnit := |bytes| - dataOffset, unitSize - inUnitAddr;
        var lenToWrite: nat := if lenLeftInData < lenLeftInUnit then lenLeftInData else lenLeftInUnit;
        Store(unit, currAddr, bytes[dataOffset..dataOffset + lenToWrite]);
        dataOffset := dataOffset + lenToWrite;
        currAddr := currAddr + lenToWrite;
        written := dataOffset;
      }
      ok := true;
    }

    /** Copy a piece out of its unit. */
    method Load(unit: array<byte>, address: nat, len: nat) returns (piece: seq<byte>)
      requires Valid() && BaseOf(address, unitSize) in data && data[BaseOf(address, unitSize)] == unit
      requires address % unitSize + len <= unitSize
      ensures |piece| == len && forall k :: 0 <= k < len ==> piece[k] == Byte(address + k)
    {
      var inUnitAddr: nat := address - BaseOf(address, unitSize);
      piece := unit[inUnitAddr..inUnitAddr + len];
      forall k | 0 <= k < len
        ensures piece[k] == Byte(address + k)
      {
        SameUnit(address, k, unitSize);
      }
    }

    /** Copy a piece into its unit. */
    method Store(unit: array<byte>, address: nat, piece: seq<byte>)
      requires Valid() && BaseOf(address, unitSize) in data && data[BaseOf(address, unitSize)] == unit
      requires address % unitSize + |piece| <= unitSize
      modifies unit
      ensures Valid()
      ensures forall a: nat :: Byte(a) == if address <= a < address + |piece| then piece[a - address] else old(Byte(a))
    {
      var inUnitAddr: nat := address - BaseOf(address, unitSize);
      forall k | 0 <= k < |piece| {
        unit[inUnitAddr + k] := piece[k];
      }
      forall a: nat
        ensures Byte(a) == if address <= a < address + |piece| then piece[a - address] else old(Byte(a))
      {
        if address <= a < address + |piece| {
          SameUnit(address, a - address, unitSize);
        }
      }
    }

    /** Read bytes across units; what is stored does not change. */
    method Read(address: nat, len: nat) returns (ok: bool, res: seq<byte>)
      requires Valid()
      modifies this`data
      ensures Valid() && (ok <==> WithinCapacity(address, len, unitSize, capacity))
      ensures ok ==> res == old(Bytes(address, len))
      ensures forall a: nat :: Byte(a) == old(Byte(a))
      ensures fresh(data.Values - old(data.Values)) && old(data.Values) <= data.Values
    {
      hide Bytes, Byte;
      res := [];
      ghost var whole := Bytes(address, len);
      var currAddr: nat, lenLeft: nat := address, len;
      while currAddr < address + len
        invariant Valid() && lenLeft <= len && currAddr == address + (len - lenLeft)
        invariant forall a: nat :: Byte(a) == old(Byte(a))
        invariant res == whole[..len - lenLeft]
        invariant fresh(data.Values - old(data.Values)) && old(data.Values) <= data.Values
        invariant WithinCapacity(address, len, unitSize, capacity) <==> WithinCapacity(currAddr, lenLeft, unitSize, capacity)
        decreases lenLeft
      {
        LaterPiece(currAddr, lenLeft, unitSize);
        var unit := CreateOrGetStorageUnit(currAddr);
        if unit == null {
          return false, [];
        }
        var inUnitAddr: nat := currAddr - BaseOf(currAddr, unitSize);
        var lenLeftInUnit: nat := unitSize - inUnitAddr;
        var lenToRead: nat := if lenLeft < lenLeftInUnit then lenLeft else lenLeftInUnit;
        var piece := Load(unit, currAddr, lenToRead);
        assert piece == whole[len - lenLeft..len - lenLeft + lenToRead] by {
          forall k | 0 <= k < lenToRead
            ensures piece[k] == whole[len - lenLeft + k]
          {
            assert piece[k] == Byte(currAddr + k);
          }
        }
        res := res + piece;
        lenLeft := lenLeft - lenToRead;
        currAddr := currAddr + lenToRead;
      }
      ok := true;
    }

    /** Write back bytes that are the write's own where they are dirty and the old ones elsewhere. */
    method WriteBack(w: Write, merged: seq<byte>, ghost before: seq<byte>) returns (ok: bool)
      requires Valid() && WellFormed(w) && |merged| == |w.data| == |before|
      requires forall a: nat {:trigger Byte(a)} :: w.address <= a < w.address + |w.data| ==> before[a - w.address] == Byte(a)
      requires forall k :: 0 <= k < |w.data| ==> merged[k] == if Counts(w, k) then w.data[k] else before[k]
      modifies this`data, data.Values
      ensures Valid() && (ok <==> WithinCapacity(w.address, |w.data|, unitSize, capacity))
      ensures ok ==> forall a: nat ::
        Byte(a) == if (w.pid, a) in Effect(w) then Effect(w)[(w.pid, a)] else old(Byte(a))
      ensures fresh(data.Values - old(data.Values))
    {
      hide Effect, Bytes, Byte, Valid, WithinCapacity, BaseOf, Counts;
      MergedEffect(w, merged, before);
      ghost var written;
      ok, written := Write(w.address, merged);
    }

    /** The memory controller's handling of a write: with a mask it reads, merges and writes back.
        When it succeeds the flat memory has taken exactly the write's effect. */
    method HandleWrite(w: Write) returns (ok: bool)
      requires Valid() && WellFormed(w)
      modifies this`data, data.Values
      ensures Valid() && (ok <==> WithinCapacity(w.address, |w.data|, unitSize, capacity))
      ensures ok ==> forall a: nat ::
        Byte(a) == if (w.pid, a) in Effect(w) then Effect(w)[(w.pid, a)] else old(Byte(a))
      ensures fresh(data.Values - old(data.Values))
    {
      hide Effect, Bytes, Byte, WithinCapacity, BaseOf;
      ghost var before := Bytes(w.address, |w.data|);
      if w.mask.Whole? {
        ok := WriteBack(w, w.data, before);
        return;
      }
      var read, bytes := Read(w.address, |w.data|);
      if !read {
        return false;
      }
      var merged := Overlay(w, bytes);
      ok := WriteBack(w, merged, before);
    }
  }

  /** The dirty bytes of a write over what was read. */
  method Overlay(w: Write, bytes: seq<byte>) returns (merged: seq<byte>)
    requires WellFormed(w) && w.mask.Dirty? && |bytes| == |w.data|
    ensures |merged| == |w.data| && forall k :: 0 <= k < |w.data| ==> merged[k] == if Counts(w, k) then w.data[k] else bytes[k]
  {
    merged := bytes;
    var i: nat := 0;
    while i < |w.data|
      invariant i <= |w.data| == |merged|
      invariant forall k :: 0 <= k < |merged| ==> merged[k] == if k < i && w.mask.bits[k] then w.data[k] else bytes[k]
    {
      if w.mask.bits[i] {
        merged := merged[i := w.data[i]];
      }
      i := i + 1;
    }
  }

  /** Merged bytes over the old ones are the write's effect. */
  lemma MergedEffect(w: Write, merged: seq<byte>, before: seq<byte>)
    requires WellFormed(w) && |merged| == |w.data| == |before|
    requires forall k :: 0 <= k < |w.data| ==> merged[k] == if Counts(w, k) then w.data[k] else before[k]
    ensures forall a: nat {:trigger (w.pid, a) in Effect(w)} ::
      && ((w.pid, a) in Effect(w) ==> w.address <= a < w.address + |w.data| && Effect(w)[(w.pid, a)] == merged[a - w.address])
      && ((w.pid, a) !in Effect(w) && w.address <= a < w.address + |w.data| ==> merged[a - w.address] == before[a - w.address])
  {
    forall a: nat
      ensures (w.pid, a) in Effect(w) ==> w.address <= a < w.address + |w.data| && Effect(w)[(w.pid, a)] == merged[a - w.address]
      ensures (w.pid, a) !in Effect(w) && w.address <= a < w.address + |w.data| ==> merged[a - w.address] == before[a - w.address]
    {
      EffectAt(w, w.pid, a);
    }
  }
}
