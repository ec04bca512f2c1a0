/** A fixed-capacity buffer that fills from the front. */
module LinearBuckets {
  import opened ModularArithmetic

  /**
   * `data` is allocated once with the bucket's capacity; `length` counts the
   * valid prefix. The source's `T::default()` is passed in as `zero`.
   */
  class LinearBucket<T> {
    const data: array<T>
    var length: nat

    ghost predicate Valid()
      reads this
    {
      length <= data.Length
    }

    function Capacity(): nat {
      data.Length
    }

    predicate IsFull()
      reads this
    {
      length == data.Length
    }

    /** The valid data, `data[..length]`, which is all `iter()` exposes. */
    function Iter(): (s: seq<T>)
      reads this, data
      requires Valid()
      ensures |s| == length
    {
      data[..length]
    }

    /** Indexing reaches only the valid prefix. */
    function Index(i: nat): (r: T)
      reads this, data
      requires Valid() && i < length
      ensures r == Iter()[i]
    {
      data[i]
    }

    constructor (capacity: nat, zero: T)
      ensures Valid() && fresh(data)
      ensures data.Length == capacity && length == 0
      ensures forall i :: 0 <= i < capacity ==> data[i] == zero
    {
      data := new T[capacity](_ => zero);
      length := 0;
    }

    /** Empties the bucket; the backing data is left as it is. */
    method Reset()
      modifies this
      ensures Valid() && length == 0
    {
      length := 0;
    }

    /**
     * Copies as much of `buf` as fits. Returns the number of items taken:
     * all of `buf` if it fits, otherwise the free space (so nothing from a
     * full bucket). Only the cells just past the old valid prefix change.
     */
    method Consume(buf: seq<T>) returns (n: nat)
      requires Valid()
      modifies this, data
      ensures Valid()
      ensures n == Min(|buf|, data.Length - old(length))
      ensures old(IsFull()) ==> n == 0 && length == old(length)
      ensures length == old(length) + n
      ensures data[..] == old(data[..length]) + buf[..n] + old(data[..])[length..]
      ensures Iter() == old(Iter()) + buf[..n]
    {
      var remain := data.Length - length;
      var totalRead := Min(|buf|, remain);
      ghost var before := data[..];
      forall i | 0 <= i < totalRead {
        data[length + i] := buf[i];
      }
      length := length + totalRead;
      n := totalRead;
      assert data[..] == before[..length - n] + buf[..n] + before[length..];
    }

    /**
     * Writes through `iter_mut()`: the valid prefix is replaced item by
     * item with `items`, and the cells past it stay as they were.
     */
    method SetItems(items: seq<T>)
      requires Valid() && |items| == length
      modifies data
      ensures Iter() == items
      ensures data[length..] == old(data[length..])
    {
      for i := 0 to length
        invariant data[..i] == items[..i]
        invariant data[i..] == old(data[i..])
      {
        data[i] := items[i];
        assert data[..i + 1] == items[..i + 1];
      }
    }

    /**
     * Takes items from an iterator, given here as the sequence it would
     * yield, until the bucket is full or the items run out. As written it
     * returns 0 whatever it stored: the counter is never advanced.
     */
    method ConsumeFromIterator(items: seq<T>) returns (r: nat)
      requires Valid()
      modifies this, data
      ensures Valid()
      ensures r == 0
      ensures length == old(length) + Min(|items|, data.Length - old(length))
      ensures Iter() == old(Iter()) + items[..length - old(length)]
      ensures data[length..] == old(data[..])[length..]
    {
      var totalRead: nat := 0;
      var taken := 0;
      while length < data.Length && taken < |items|
        invariant old(length) <= length <= data.Length
        invariant taken == length - old(length) <= |items|
        invariant data[..length] == old(data[..length]) + items[..taken]
        invariant forall j :: length <= j < data.Length ==> data[j] == old(data[j])
      {
        data[length] := items[taken];
        length := length + 1;
        taken := taken + 1;
        assert items[..taken] == items[..taken - 1] + [items[taken - 1]];
      }
      r := totalRead;
    }

    /**
     * What the iterator copy evidently means to do: the same filling, and
     * the number of items stored is returned.
     */
    method ConsumeFromIteratorCounted(items: seq<T>) returns (r: nat)
      requires Valid()
      modifies this, data
      ensures Valid()
      ensures r == Min(|items|, data.Length - old(length))
      ensures length == old(length) + r
      ensures Iter() == old(Iter()) + items[..r]
      ensures data[length..] == old(data[..])[length..]
    {
      r := 0;
      while length < data.Length && r < |items|
        invariant old(length) <= length <= data.Length
        invariant r == length - old(length) <= |items|
        invariant data[..length] == old(data[..length]) + items[..r]
        invariant forall j :: length <= j < data.Length ==> data[j] == old(data[j])
      {
        data[length] := items[r];
        length := length + 1;
        r := r + 1;
        assert items[..r] == items[..r - 1] + [items[r - 1]];
      }
    }
  }

  /**
   * One item fed to an empty bucket of capacity one: it is stored, and the
   * as-written iterator copy reports 0 items read where the counted one
   * reports 1.
   */
  method IteratorCopyMiscount(x: int) returns (reported: nat, stored: nat, counted: nat)
    ensures stored == 1 && reported == 0 && counted == 1
  {
    var bucket := new LinearBucket<int>(1, 0);
    reported := bucket.ConsumeFromIterator([x]);
    stored := bucket.length;
    var other := new LinearBucket<int>(1, 0);
    counted := other.ConsumeFromIteratorCounted([x]);
  }
}
