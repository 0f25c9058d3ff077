/** A vector of fixed-size records in a raw byte buffer: a little-endian 32-bit
    count, and the records one after the other (program/src/big_vec.rs). */
module BigVec {
  import opened Bytes
  import opened Results
  import opened State
  import opened Token

  const VEC_SIZE_BYTES: nat := 4
  const MAX_U32: nat := 0xFFFF_FFFF
  const MAX_USIZE: nat := 0xFFFF_FFFF_FFFF_FFFF

  type Record = seq<byte>

  // ---------------------------------------------------------------- the bytes as a sequence

  function Count(data: seq<byte>): nat
    requires VEC_SIZE_BYTES <= |data|
  {
    FromLe(data[..VEC_SIZE_BYTES])
  }

  /** Where a record starts. */
  function Start(len: nat, i: nat): nat {
    VEC_SIZE_BYTES + i * len
  }

  /** The buffer has room for n records. */
  predicate HasRoom(data: seq<byte>, len: nat, n: nat) {
    Start(len, n) <= |data|
  }

  function Slot(data: seq<byte>, len: nat, i: nat): Record
    requires HasRoom(data, len, i + 1)
  {
    SlotBounds(len, i, i + 1);
    data[Start(len, i)..Start(len, i) + len]
  }

  function Slots(data: seq<byte>, len: nat, n: nat): (r: seq<Record>)
    requires HasRoom(data, len, n)
    ensures |r| == n
  {
    seq(n, i requires 0 <= i < n => SlotBounds(len, i, n); Slot(data, len, i))
  }

  predicate WellFormed(data: seq<byte>, len: nat) {
    VEC_SIZE_BYTES <= |data| && HasRoom(data, len, Count(data))
  }

  /** What the buffer stands for. */
  function Elements(data: seq<byte>, len: nat): seq<Record>
    requires WellFormed(data, len)
  {
    Slots(data, len, Count(data))
  }

  lemma SlotBounds(len: nat, i: nat, n: nat)
    requires i < n
    ensures Start(len, i) + len == Start(len, i + 1) <= Start(len, n)
  {
    Distributes(i, 1, len);
    MulMonotone(i + 1, n, len);
  }

  /** Buffers that agree on the first n records hold the same records there. */
  lemma SameSlots(data: seq<byte>, data': seq<byte>, len: nat, n: nat)
    requires HasRoom(data, len, n) && HasRoom(data', len, n)
    requires forall k :: VEC_SIZE_BYTES <= k < Start(len, n) ==> data[k] == data'[k]
    ensures Slots(data, len, n) == Slots(data', len, n)
  {
    forall i | 0 <= i < n
      ensures Slots(data, len, n)[i] == Slots(data', len, n)[i]
    {
      SlotBounds(len, i, n);
    }
  }

  lemma OneMoreSlot(data: seq<byte>, len: nat, n: nat)
    requires HasRoom(data, len, n + 1)
    ensures HasRoom(data, len, n)
    ensures Slots(data, len, n + 1) == Slots(data, len, n) + [Slot(data, len, n)]
  {
    SlotBounds(len, n, n + 1);
  }

  /** Overwriting record i alone. */
  lemma ReplaceSlot(data: seq<byte>, data': seq<byte>, len: nat, n: nat, i: nat, e: Record)
    requires i < n && HasRoom(data, len, n) && |data'| == |data| && |e| == len
    requires Start(len, i) + len == Start(len, i + 1) <= Start(len, n)
    requires forall k :: VEC_SIZE_BYTES <= k < Start(len, n) && !(Start(len, i) <= k < Start(len, i + 1)) ==> data'[k] == data[k]
    requires data'[Start(len, i)..Start(len, i + 1)] == e
    ensures Slots(data', len, n) == Slots(data, len, n)[i := e]
  {
    forall j | 0 <= j < n
      ensures Slots(data', len, n)[j] == Slots(data, len, n)[i := e][j]
    {
      SlotBounds(len, j, n);
      if j < i {
        SlotBounds(len, j, i);
      } else if i < j {
        SlotBounds(len, i, j);
      }
    }
  }

  /** The buffer after writing bytes over record i. */
  lemma Overwritten(before: seq<byte>, after: seq<byte>, len: nat, i: nat, e: Record)
    requires WellFormed(before, len) && |after| == |before| && i < Count(before) && |e| == len
    requires Start(len, i) + len <= |after| && after[Start(len, i)..Start(len, i) + len] == e
    requires forall k :: 0 <= k < |after| && !(Start(len, i) <= k < Start(len, i) + len) ==> after[k] == before[k]
    ensures WellFormed(after, len) && Count(after) == Count(before)
    ensures Elements(after, len) == Elements(before, len)[i := e]
  {
    assert after[..VEC_SIZE_BYTES] == before[..VEC_SIZE_BYTES];
    SlotBounds(len, i, Count(before));
    ReplaceSlot(before, after, len, Count(before), i, e);
  }

  /** The last record, where it is in the buffer. */
  lemma LastSlot(data: seq<byte>, len: nat, n: nat)
    requires WellFormed(data, len) && Count(data) == n && 0 < n
    ensures Start(len, n - 1) + len == Start(len, n) <= |data|
    ensures data[Start(len, n) - len..Start(len, n)] == Elements(data, len)[n - 1]
  {
    SlotBounds(len, n - 1, n);
  }

  /** The buffer after appending a record. */
  lemma Appended(before: seq<byte>, after: seq<byte>, len: nat, n: nat, e: Record)
    requires |after| == |before| && VEC_SIZE_BYTES <= |before| && HasRoom(before, len, n + 1) && |e| == len
    requires Count(before) == n && Count(after) == n + 1
    requires forall k :: VEC_SIZE_BYTES <= k < Start(len, n) ==> after[k] == before[k]
    requires Start(len, n) + len <= |after| && after[Start(len, n)..Start(len, n) + len] == e
    ensures WellFormed(before, len) && WellFormed(after, len) && Elements(after, len) == Elements(before, len) + [e]
  {
    OneMoreSlot(before, len, n);
    SameSlots(before, after, len, n);
    OneMoreSlot(after, len, n);
  }

  /** The buffer after moving the last record over record i and dropping it. */
  lemma Removed(before: seq<byte>, moved: seq<byte>, after: seq<byte>, len: nat, i: nat)
    requires |moved| == |before| == |after| && WellFormed(before, len) && WellFormed(moved, len)
    requires i < Count(before) == Count(moved) && Count(after) == Count(before) - 1
    requires Elements(moved, len) == Elements(before, len)[i := Elements(before, len)[Count(before) - 1]]
    requires forall k :: VEC_SIZE_BYTES <= k < |after| ==> after[k] == moved[k]
    ensures WellFormed(after, len)
    ensures Elements(after, len) == SwapRemove(Elements(before, len), i)
  {
    OneMoreSlot(moved, len, Count(after));
    SameSlots(moved, after, len, Count(after));
  }

  function SaturatingAdd(a: nat, b: nat): nat {
    if a + b <= MAX_USIZE then a + b else MAX_USIZE
  }

  function SaturatingMul(a: nat, b: nat): nat {
    if a * b <= MAX_USIZE then a * b else MAX_USIZE
  }

  lemma CountStored(data: seq<byte>, n: nat)
    requires VEC_SIZE_BYTES <= |data| && n <= MAX_U32 && data[..VEC_SIZE_BYTES] == ToLe(n, VEC_SIZE_BYTES)
    ensures Count(data) == n
  {
    assert Pow256(4) == 0x1_0000_0000 by {
      assert Pow256(1) == 256 && Pow256(2) == 256 * Pow256(1) && Pow256(3) == 256 * Pow256(2);
    }
    ToLeFromLe(n, VEC_SIZE_BYTES);
  }

  // ---------------------------------------------------------------- the vector

  class Vector {
    const len: nat
    const data: array<byte>

    /** Records are not empty, and account data is far smaller than 4 GiB. */
    ghost predicate Valid()
      reads data
    {
      0 < len && data.Length <= MAX_U32 && WellFormed(data[..], len)
    }

    ghost function View(): seq<Record>
      reads data
      requires Valid()
    {
      Elements(data[..], len)
    }

    constructor (len: nat, data: array<byte>)
      requires 0 < len && data.Length <= MAX_U32 && WellFormed(data[..], len)
      ensures this.len == len && this.data == data && Valid()
      ensures View() == Elements(data[..], len)
    {
      this.len, this.data := len, data;
    }

    method Len() returns (n: nat)
      requires Valid()
      ensures n == |View()|
    {
      n := FromLe(data[..VEC_SIZE_BYTES]);
    }

    /** The position of a record; saturation never gets in the way. */
    method GetSliceBounds(index: nat) returns (r: Result<(nat, nat)>)
      requires Valid() && index <= MAX_U32 && len <= MAX_U32
      ensures r.Ok? <==> index < |View()|
      ensures r.Err? ==> r.error == AccountListIndexOutOfBounds
      ensures r.Ok? ==> r.value == (Start(len, index), Start(len, index + 1))
      ensures r.Ok? ==> Start(len, index) + len == Start(len, index + 1) <= Start(len, |View()|) <= data.Length
    {
      var n := Len();
      if index >= n {
        return Err(AccountListIndexOutOfBounds);
      }
      SlotBounds(len, index, n);
      var start := SaturatingAdd(VEC_SIZE_BYTES, SaturatingMul(index, len));
      var end := SaturatingAdd(start, len);
      if data.Length < end {
        return Err(AccountDataTooSmall);
      }
      if end - start != len {
        return Err(AccountListIndexOutOfBounds);
      }
      r := Ok((start, end));
    }

    /** Reads the record that a mutable reference would point to. */
    method Get(index: nat) returns (r: Result<Record>)
      requires Valid() && index <= MAX_U32 && len <= MAX_U32
      ensures r == if index < |View()| then Ok(View()[index]) else Err(AccountListIndexOutOfBounds)
    {
      var bounds :- GetSliceBounds(index);
      r := Ok(data[bounds.0..bounds.1]);
    }

    /** Overwrites one record with the given bytes. */
    method WriteRecord(index: nat, element: Record)
      requires Valid() && index < |View()| && |element| == len
      modifies data
      ensures Valid() && Count(data[..]) == Count(old(data[..])) && View() == old(View())[index := element]
    {
      var start := Start(len, index);
      ghost var before := data[..];
      SlotBounds(len, index, Count(before));
      forall k | 0 <= k < len {
        data[start + k] := element[k];
      }
      assert data[..][start..start + len] == element;
      Overwritten(before, data[..], len, index, element);
    }

    /** Writes through a mutable reference to a record. */
    method Set(index: nat, element: Record) returns (r: Result<()>)
      requires Valid() && index <= MAX_U32 && len <= MAX_U32 && |element| == len
      modifies data
      ensures Valid()
      ensures r == if index < |old(View())| then Ok(()) else Err(AccountListIndexOutOfBounds)
      ensures View() == if r.Ok? then old(View())[index := element] else old(View())
    {
      var _ :- GetSliceBounds(index);
      WriteRecord(index, element);
      r := Ok(());
    }

    /** Stores the count. */
    method SetLen(n: nat)
      requires VEC_SIZE_BYTES <= data.Length && n <= MAX_U32
      modifies data
      ensures Count(data[..]) == n
      ensures forall k :: VEC_SIZE_BYTES <= k < data.Length ==> data[k] == old(data[k])
    {
      var bytes := ToLe(n, VEC_SIZE_BYTES);
      forall k | 0 <= k < VEC_SIZE_BYTES {
        data[k] := bytes[k];
      }
      assert data[..VEC_SIZE_BYTES] == bytes;
      assert data[..][..VEC_SIZE_BYTES] == bytes;
      CountStored(data[..], n);
    }

    /** Removes a record and moves the last one into its place. */
    method SwapRemoveAt(index: nat) returns (r: Result<Record>)
      requires Valid() && index <= MAX_U32 && len <= MAX_U32
      modifies data
      ensures Valid()
      ensures r == if index < |old(View())| then Ok(old(View())[index]) else Err(AccountListIndexOutOfBounds)
      ensures View() == if r.Ok? then SwapRemove(old(View()), index) else old(View())
    {
      var bounds :- GetSliceBounds(index);
      var value := data[bounds.0..bounds.1];
      var n := Len();
      var end := SaturatingAdd(VEC_SIZE_BYTES, SaturatingMul(n, len));
      ghost var before := data[..];
      LastSlot(before, len, n);
      assert value == View()[index];
      if index != n - 1 {
        var last := data[end - len..end];
        assert last == View()[n - 1];
        WriteRecord(index, last);
      }
      assert View() == old(View())[index := old(View())[n - 1]];
      ghost var moved := data[..];
      SetLen(n - 1);
      Removed(before, moved, data[..], len, index);
      r := Ok(value);
    }

    /** Appends a record, if there is room for it. */
    method Push(element: Record) returns (r: Result<()>)
      requires Valid() && |element| == len
      modifies data
      ensures Valid()
      ensures r == if Start(len, |old(View())| + 1) <= data.Length then Ok(()) else Err(AccountDataTooSmall)
      ensures View() == if r.Ok? then old(View()) + [element] else old(View())
    {
      var n := Len();
      SlotBounds(len, n, n + 1);
      var start := VEC_SIZE_BYTES + n * len;
      var end := start + len;
      if data.Length < end {
        return Err(AccountDataTooSmall);
      }
      ghost var before := data[..];
      CountAtMostBytes(len, n);
      SetLen(n + 1);
      WriteBytes(start, element);
      assert data[..][start..end] == element;
      Appended(before, data[..], len, n, element);
      r := Ok(());
    }

    /** Copies bytes into the buffer behind the count. */
    method WriteBytes(start: nat, bytes: Record)
      requires VEC_SIZE_BYTES <= start && start + |bytes| <= data.Length
      modifies data
      ensures Count(data[..]) == Count(old(data[..]))
      ensures forall k :: 0 <= k < start ==> data[k] == old(data[k])
      ensures data[start..start + |bytes|] == bytes
      ensures forall k :: start + |bytes| <= k < data.Length ==> data[k] == old(data[k])
    {
      forall k | 0 <= k < |bytes| {
        data[start + k] := bytes[k];
      }
      assert data[..][..VEC_SIZE_BYTES] == old(data[..])[..VEC_SIZE_BYTES];
    }

    /** The first record that matches, as its index. */
    method Find(key: Record, matches: (Record, Record) -> bool) returns (r: Option<nat>)
      requires Valid()
      ensures r.None? ==> forall i :: 0 <= i < |View()| ==> !matches(View()[i], key)
      ensures r.Some? ==> r.value < |View()| && matches(View()[r.value], key)
      ensures r.Some? ==> forall i :: 0 <= i < r.value ==> !matches(View()[i], key)
    {
      var n := Len();
      var current, currentIndex := 0, VEC_SIZE_BYTES;
      while current != n
        invariant 0 <= current <= n && currentIndex == Start(len, current)
        invariant forall i :: 0 <= i < current ==> !matches(View()[i], key)
        decreases n - current
      {
        SlotBounds(len, current, n);
        var end := currentIndex + len;
        assert data[currentIndex..end] == View()[current];
        if matches(data[currentIndex..end], key) {
          return Some(current);
        }
        currentIndex := end;
        current := current + 1;
      }
      r := None;
    }

    /** All records in order, as the iterator yields them. */
    method Collect() returns (elements: seq<Record>)
      requires Valid()
      ensures elements == View()
    {
      var n := Len();
      var current, currentIndex := 0, VEC_SIZE_BYTES;
      elements := [];
      while current != n
        invariant 0 <= current <= n && currentIndex == Start(len, current)
        invariant elements == View()[..current]
        decreases n - current
      {
        SlotBounds(len, current, n);
        var end := currentIndex + len;
        assert data[currentIndex..end] == View()[current];
        elements := elements + [data[currentIndex..end]];
        currentIndex := end;
        current := current + 1;
      }
    }
  }

  lemma CountAtMostBytes(len: nat, n: nat)
    requires 0 < len
    ensures n + 1 < Start(len, n + 1)
  {
    assert (n + 1) * len == (n + 1) + (n + 1) * (len - 1);
    assert (n + 1) * (len - 1) >= 0;
  }
}
