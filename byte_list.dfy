/**
 * `ByteList`: a growable list of bytes that the grammar parser fills one
 * byte at a time, with the growth policy of `java.util.ArrayList` (grow by
 * half, never past the VM's array limit, all in overflow-prone 32-bit
 * arithmetic).
 */
module ByteLists {
  import opened Lang

  /** The largest array the growth policy asks for unless more is required. */
  const MAX_ARRAY_SIZE: int := INT_MAX - 8

  /** `hugeCapacity`: the capacity used once the grown capacity passes the limit. */
  function HugeCapacity(minCapacity: Int32): (r: Result<int>)
    ensures r.Ok? <==> minCapacity >= 0
    ensures r.Err? ==> r.error == OutOfMemory
    ensures r.Ok? ==> minCapacity <= r.value <= INT_MAX && r.value >= MAX_ARRAY_SIZE
  {
    if minCapacity < 0 then Err(OutOfMemory)
    else Ok(if minCapacity > MAX_ARRAY_SIZE then INT_MAX else MAX_ARRAY_SIZE)
  }

  /**
   * The length `grow` passes to `Arrays.copyOf`, in Java's wrapping `int`
   * arithmetic; `copyOf` rejects a negative length.
   */
  function GrowCapacity(oldCapacity: nat, minCapacity: Int32): (r: Result<int>)
    requires oldCapacity <= INT_MAX
    ensures r.Ok? ==> 0 <= r.value <= INT_MAX
  {
    var newCapacity := Wrap(oldCapacity + oldCapacity / 2);
    var newCapacity := if Wrap(newCapacity - minCapacity) < 0 then minCapacity else newCapacity;
    if Wrap(newCapacity - MAX_ARRAY_SIZE) > 0 then HugeCapacity(minCapacity)
    else if newCapacity < 0 then Err(NegativeArraySize)
    else Ok(newCapacity)
  }

  /**
   * The capacity the growth policy means, in unbounded arithmetic: half
   * again the old capacity, at least the requested minimum, capped at the
   * array limit unless the minimum itself exceeds it.
   */
  function IdealCapacity(oldCapacity: nat, minCapacity: nat): (r: nat)
    requires minCapacity <= INT_MAX
    ensures minCapacity <= r <= INT_MAX
    ensures r >= oldCapacity + oldCapacity / 2 || r >= MAX_ARRAY_SIZE
  {
    var grown := oldCapacity + oldCapacity / 2;
    if minCapacity > MAX_ARRAY_SIZE then INT_MAX
    else if grown > MAX_ARRAY_SIZE then MAX_ARRAY_SIZE
    else if grown < minCapacity then minCapacity
    else grown
  }

  /**
   * The overflow-conscious code computes the intended capacity whenever it
   * is asked to grow a real array to a larger non-negative size.
   */
  lemma GrowCapacityIsIdeal(oldCapacity: nat, minCapacity: Int32)
    requires oldCapacity < minCapacity
    ensures GrowCapacity(oldCapacity, minCapacity) == Ok(IdealCapacity(oldCapacity, minCapacity))
  {
    var grown := oldCapacity + oldCapacity / 2;
    if grown > INT_MAX {
      assert Wrap(grown) == grown - 0x1_0000_0000;
      assert Wrap(Wrap(grown) - minCapacity) == Wrap(grown) - minCapacity + 0x1_0000_0000;
      assert Wrap(Wrap(grown) - MAX_ARRAY_SIZE) == Wrap(grown) - MAX_ARRAY_SIZE + 0x1_0000_0000;
    }
  }

  /** Asked to grow by a negative amount after `size + 1` overflowed, `grow` runs out of memory. */
  lemma GrowCapacityOverflowed(oldCapacity: nat)
    requires 0x8000_0000 - 0x1000_0000 < oldCapacity <= INT_MAX
    ensures GrowCapacity(oldCapacity, -0x1000_0000) == Err(OutOfMemory)
  {
    var grown := oldCapacity + oldCapacity / 2;
    assert Wrap(grown) == grown - 0x1_0000_0000;
    assert Wrap(-0x1000_0000 - MAX_ARRAY_SIZE) == -0x1000_0000 - MAX_ARRAY_SIZE + 0x1_0000_0000;
  }

  /** `grow(Integer.MIN_VALUE)` runs out of memory whatever the array's length. */
  lemma GrowCapacityMinValue(oldCapacity: nat)
    requires oldCapacity <= INT_MAX
    ensures GrowCapacity(oldCapacity, INT_MIN) == Err(OutOfMemory)
  {
    var grown := oldCapacity + oldCapacity / 2;
    if grown > INT_MAX {
      assert Wrap(grown) == grown - 0x1_0000_0000;
      assert Wrap(Wrap(grown) - INT_MIN) == Wrap(grown) - INT_MIN;
      assert Wrap(Wrap(grown) - MAX_ARRAY_SIZE) == Wrap(grown) - MAX_ARRAY_SIZE + 0x1_0000_0000;
    } else {
      assert Wrap(grown - INT_MIN) == grown - INT_MIN - 0x1_0000_0000;
      assert Wrap(INT_MIN - MAX_ARRAY_SIZE) == INT_MIN - MAX_ARRAY_SIZE + 0x1_0000_0000;
    }
  }

  /**
   * The conversion at the head of `ensureCapacity`: the requested number of
   * elements is treated as a number of bits and turned into a number of
   * bytes, rounded up by eight rather than by one.
   */
  function BytesNeeded(minCapacity: Int32): (r: int)
    ensures minCapacity >= 0 ==> r == minCapacity / 8 + (if minCapacity % 8 > 0 then 8 else 0)
    ensures minCapacity >= 0 ==> 0 <= r <= minCapacity / 8 + 8
    ensures minCapacity == INT_MIN ==> r == -0x1000_0000
  {
    var off := Rem(minCapacity, 8);
    var q := Quot(minCapacity, 8);
    if off > 0 then q + 8 else q
  }

  /** The array length after `ensureCapacity(minCapacity)`, as written. */
  function EnsuredLength(length: nat, minCapacity: Int32): (r: Result<int>)
    requires length <= INT_MAX
  {
    var needed := BytesNeeded(minCapacity);
    if Wrap(needed - length) > 0 then GrowCapacity(length, needed) else Ok(length)
  }

  /** The array length after the corrected `ensureCapacity(minCapacity)`, which keeps the element count. */
  function EnsuredLengthCorrected(length: nat, minCapacity: Int32): (r: Result<int>)
    requires length <= INT_MAX
  {
    if Wrap(minCapacity - length) > 0 then GrowCapacity(length, minCapacity) else Ok(length)
  }

  /** The `ensureCapacity` as written never shrinks the array, and it fails only by running out of memory. */
  lemma EnsuredLengthNeverShrinks(length: nat, minCapacity: Int32)
    requires length <= INT_MAX
    requires 0 <= minCapacity || minCapacity == INT_MIN
    ensures EnsuredLength(length, minCapacity).Ok? ==> EnsuredLength(length, minCapacity).value >= length
    ensures EnsuredLength(length, minCapacity).Err? ==> EnsuredLength(length, minCapacity).error == OutOfMemory
  {
    var needed := BytesNeeded(minCapacity);
    if 0 <= minCapacity {
      if needed > length {
        GrowCapacityIsIdeal(length, needed);
      }
    } else {
      if Wrap(needed - length) > 0 {
        assert length > 0x8000_0000 - 0x1000_0000;
        GrowCapacityOverflowed(length);
      }
      GrowCapacityMinValue(length);
    }
  }

  /**
   * The corrected `ensureCapacity` leaves room for at least the requested
   * count and never shrinks the array; asked for `Integer.MIN_VALUE` (the
   * count after `size + 1` overflowed) it runs out of memory unless the
   * array is empty.
   */
  lemma EnsuredLengthCorrectedSuffices(length: nat, minCapacity: Int32)
    requires length <= INT_MAX
    requires 0 <= minCapacity || minCapacity == INT_MIN
    ensures minCapacity == INT_MIN && length > 0 ==> EnsuredLengthCorrected(length, minCapacity) == Err(OutOfMemory)
    ensures minCapacity == INT_MIN && length == 0 ==> EnsuredLengthCorrected(length, minCapacity) == Ok(0)
    ensures 0 <= minCapacity ==> EnsuredLengthCorrected(length, minCapacity).Ok?
    ensures 0 <= minCapacity ==> EnsuredLengthCorrected(length, minCapacity).value >= length
    ensures 0 <= minCapacity ==> EnsuredLengthCorrected(length, minCapacity).value >= minCapacity
  {
    if 0 <= minCapacity {
      if minCapacity > length {
        GrowCapacityIsIdeal(length, minCapacity);
      }
    } else {
      GrowCapacityMinValue(length);
    }
  }

  /** The count `add` asks room for: `size + 1` in Java's `int`, which wraps to `Integer.MIN_VALUE` at the top. */
  lemma NextCount(size: nat)
    requires size <= INT_MAX
    ensures Wrap(size + 1) == if size < INT_MAX then size + 1 else INT_MIN
  {
  }

  /** The corrected `add` finds room exactly while the list is below `Integer.MAX_VALUE` bytes. */
  lemma CorrectedRoom(length: nat, size: nat)
    requires size <= length <= INT_MAX
    ensures EnsuredLengthCorrected(length, Wrap(size + 1)).Ok? <==> size < INT_MAX
    ensures EnsuredLengthCorrected(length, Wrap(size + 1)).Ok? ==> EnsuredLengthCorrected(length, Wrap(size + 1)).value > size
    ensures EnsuredLengthCorrected(length, Wrap(size + 1)).Err? ==> EnsuredLengthCorrected(length, Wrap(size + 1)).error == OutOfMemory
  {
    NextCount(size);
    EnsuredLengthCorrectedSuffices(length, Wrap(size + 1));
  }

  /** The bytes of `s` resized to `n`, as `Arrays.copyOf` resizes: truncated, or padded with zeros. */
  function Resized(s: seq<Int8>, n: nat): (r: seq<Int8>)
    ensures |r| == n
    ensures forall i | 0 <= i < n :: r[i] == if i < |s| then s[i] else 0
  {
    if n <= |s| then s[..n] else s + seq(n - |s|, _ => 0)
  }

  /** `Arrays.copyOf(original, newLength)`. */
  method CopyOf(original: array<Int8>, newLength: int) returns (r: Result<array<Int8>>)
    ensures r.Ok? <==> newLength >= 0
    ensures r.Err? ==> r.error == NegativeArraySize
    ensures r.Ok? ==> fresh(r.value) && r.value[..] == Resized(original[..], newLength)
  {
    if newLength < 0 {
      return Err(NegativeArraySize);
    }
    var copy := new Int8[newLength](i reads original => if 0 <= i < original.Length then original[i] else 0);
    assert copy[..] == Resized(original[..], newLength);
    return Ok(copy);
  }

  class ByteList {
    var data: array<Int8>
    var size: int

    /** The list holds `size` bytes at the front of an array no longer than a Java array can be. */
    predicate Valid()
      reads this
    {
      0 <= size <= data.Length <= INT_MAX
    }

    /** The bytes added so far. */
    function Contents(): (s: seq<Int8>)
      requires Valid()
      reads this, data
      ensures |s| == size
    {
      data[..size]
    }

    /** `new ByteList()`: an empty list over an empty array. */
    constructor ()
      ensures Valid() && Contents() == [] && data.Length == 0 && fresh(data)
    {
      data := new Int8[0];
      size := 0;
    }

    /** `new ByteList(init)`: a copy of `init` as the backing array, with nothing counted as added. */
    constructor FromArray(init: array<Int8>)
      requires init.Length <= INT_MAX
      ensures Valid() && Contents() == [] && data[..] == init[..] && fresh(data)
    {
      data := new Int8[init.Length](i reads init => if 0 <= i < init.Length then init[i] else 0);
      size := 0;
    }

    /** `grow(minCapacity)`: replaces the array by a copy of the length `GrowCapacity` computes. */
    method Grow(minCapacity: Int32) returns (r: Result<()>)
      requires Valid()
      modifies this
      ensures size == old(size)
      ensures r.Ok? <==> GrowCapacity(old(data.Length), minCapacity).Ok?
      ensures r.Err? ==> r.error == GrowCapacity(old(data.Length), minCapacity).error && data == old(data)
      ensures r.Ok? ==> fresh(data) && data.Length == GrowCapacity(old(data.Length), minCapacity).value
      ensures r.Ok? ==> data[..] == Resized(old(data[..]), data.Length)
    {
      var newCapacity :- GrowCapacity(data.Length, minCapacity);
      var copy := CopyOf(data, newCapacity);
      data := copy.value;
      return Ok(());
    }

    /** `ensureCapacity(minCapacity)`, as written: grows to the converted count when the array is shorter. */
    method EnsureCapacity(minCapacity: Int32) returns (r: Result<()>)
      requires Valid()
      requires 0 <= minCapacity || minCapacity == INT_MIN
      modifies this
      ensures Valid() && size == old(size) && Contents() == old(Contents())
      ensures r.Ok? <==> EnsuredLength(old(data.Length), minCapacity).Ok?
      ensures r.Err? ==> r.error == EnsuredLength(old(data.Length), minCapacity).error && data == old(data)
      ensures r.Ok? ==> data.Length == EnsuredLength(old(data.Length), minCapacity).value
      ensures data == old(data) || fresh(data)
    {
      EnsuredLengthNeverShrinks(data.Length, minCapacity);
      var off := Rem(minCapacity, 8);
      var needed := Quot(minCapacity, 8);
      if off > 0 {
        needed := needed + 8;
      }
      assert needed == BytesNeeded(minCapacity);
      if Wrap(needed - data.Length) > 0 {
        r := Grow(needed);
      } else {
        r := Ok(());
      }
    }

    /** `ensureCapacity(minCapacity)` without the conversion, the way `ArrayList` does it. */
    method EnsureCapacityCorrected(minCapacity: Int32) returns (r: Result<()>)
      requires Valid()
      requires 0 <= minCapacity || minCapacity == INT_MIN
      modifies this
      ensures Valid() && size == old(size) && Contents() == old(Contents())
      ensures r.Ok? <==> EnsuredLengthCorrected(old(data.Length), minCapacity).Ok?
      ensures r.Err? ==> r.error == OutOfMemory && data == old(data)
      ensures r.Ok? ==> data.Length == EnsuredLengthCorrected(old(data.Length), minCapacity).value
      ensures data == old(data) || fresh(data)
    {
      EnsuredLengthCorrectedSuffices(data.Length, minCapacity);
      r := Ok(());
      if Wrap(minCapacity - data.Length) > 0 {
        r := Grow(minCapacity);
      }
    }

    /**
     * `add(b)`, as written: ensures capacity for `size + 1` (a Java `int`),
     * then stores the byte, which throws when the array is still too short.
     */
    method Add(b: Int8) returns (r: Result<()>)
      requires Valid()
      modifies this, data
      ensures Valid()
      ensures r.Ok? ==> Contents() == old(Contents()) + [b]
      ensures r.Err? ==> Contents() == old(Contents())
      ensures r.Ok? <==> EnsuredLength(old(data.Length), Wrap(old(size) + 1)).Ok?
                         && old(size) < EnsuredLength(old(data.Length), Wrap(old(size) + 1)).value
      ensures r.Err? && EnsuredLength(old(data.Length), Wrap(old(size) + 1)).Ok? ==> r.error == ArrayIndexOutOfBounds
      ensures EnsuredLength(old(data.Length), Wrap(old(size) + 1)).Ok? ==>
                data.Length == EnsuredLength(old(data.Length), Wrap(old(size) + 1)).value
      ensures r.Err? && EnsuredLength(old(data.Length), Wrap(old(size) + 1)).Err? ==> r.error == OutOfMemory
      ensures data == old(data) || fresh(data)
    {
      var _ :- EnsureCapacity(Wrap(size + 1));
      r := Store(b);
    }

    /** The store at the end of `add`: the byte goes at index `size`, which throws past the array's end, and then the count goes up. */
    method Store(b: Int8) returns (r: Result<()>)
      requires Valid()
      modifies this, data
      ensures Valid() && data == old(data)
      ensures r.Ok? <==> old(size) < data.Length
      ensures r.Ok? ==> Contents() == old(Contents()) + [b]
      ensures r.Err? ==> r.error == ArrayIndexOutOfBounds && Contents() == old(Contents())
    {
      if size >= data.Length {
        return Err(ArrayIndexOutOfBounds);
      }
      data[size] := b;
      size := size + 1;
      r := Ok(());
    }

    /** `add(b)` over the corrected `ensureCapacity`: it fails only once the list holds `Integer.MAX_VALUE` bytes. */
    method AddCorrected(b: Int8) returns (r: Result<()>)
      requires Valid()
      modifies this, data
      ensures Valid()
      ensures r.Ok? <==> old(size) < INT_MAX
      ensures r.Ok? ==> Contents() == old(Contents()) + [b]
      ensures r.Err? ==> r.error == OutOfMemory && Contents() == old(Contents())
      ensures data == old(data) || fresh(data)
    {
      CorrectedRoom(data.Length, size);
      NextCount(size);
      var _ :- EnsureCapacityCorrected(Wrap(size + 1));
      data[size] := b;
      size := size + 1;
      r := Ok(());
    }

    /** `toArray()`: a fresh array holding exactly the bytes added. */
    method ToArray() returns (a: array<Int8>)
      requires Valid()
      ensures fresh(a) && a[..] == Contents()
    {
      var copy := CopyOf(data, size);
      a := copy.value;
    }
  }

  /** The array length after `n` adds, as `add` computes it for the first thirteen calls (`EarlyAdds`). */
  function EarlyLength(n: nat): nat
  {
    if n == 0 then 0 else if n <= 8 then 8 else 12
  }

  /**
   * Each of the first thirteen adds asks `ensureCapacity` for the new
   * count and leaves the array at `EarlyLength` of it: the counts 1 to 8
   * need 8 bytes, 9 to 15 need 9, and the second growth gives 12.
   */
  lemma EarlyAdds(i: nat)
    requires i <= 12
    ensures EnsuredLength(EarlyLength(i), Wrap(i + 1)) == Ok(EarlyLength(i + 1))
  {
    if i == 0 {
      assert BytesNeeded(1) == 8;
    } else if i < 7 {
      assert BytesNeeded(i + 1) == 8;
    } else if i == 7 {
      assert BytesNeeded(8) == 1;
    } else if i == 8 {
      assert GrowCapacity(8, 9) == Ok(12);
    } else {
      assert BytesNeeded(i + 1) == 9;
    }
  }

  /**
   * Twelve bytes fill the list's arrays of lengths 8 and then 12; for the
   * thirteenth the count 13 converts to 9 bytes, the 12-byte array is kept,
   * and the store past its end throws.
   */
  method ThirteenthAddFails() returns (r: Result<()>)
    ensures r == Err(ArrayIndexOutOfBounds)
  {
    var list := new ByteList();
    var i := 0;
    while i < 12
      invariant 0 <= i <= 12 && list.Valid() && fresh(list) && fresh(list.data)
      invariant list.size == i
      invariant list.data.Length == EarlyLength(i)
    {
      EarlyAdds(i);
      var ok := list.Add(123);
      i := i + 1;
    }
    EarlyAdds(12);
    r := list.Add(123);
  }

  /** With the corrected capacity check, a hundred adds keep a hundred bytes, all of them the byte added. */
  method HundredAdds() returns (s: seq<Int8>)
    ensures |s| == 100
    ensures forall i | 0 <= i < 100 :: s[i] == 123
  {
    var list := new ByteList();
    var i := 0;
    while i < 100
      invariant 0 <= i <= 100 && list.Valid() && fresh(list) && fresh(list.data)
      invariant list.Contents() == seq(i, _ => 123)
    {
      var ok := list.AddCorrected(123);
      i := i + 1;
    }
    var a := list.ToArray();
    s := a[..];
  }
}
