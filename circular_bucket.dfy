/** A fixed-capacity buffer that keeps the most recent items, wrapping around. */
module CircularBuckets {
  import opened ModularArithmetic

  /** `len` items of `s` read cyclically from position `start`. */
  function Rotated<T>(s: seq<T>, start: nat, len: nat): (r: seq<T>)
    requires |s| > 0 || len == 0
    ensures |r| == len
    ensures forall k :: 0 <= k < len ==> r[k] == s[(start + k) % |s|]
  {
    seq(len, k requires 0 <= k < len => s[(start + k) % |s|])
  }

  /** `buf` written into `s` item by item from position `start`, wrapping around. */
  function CircularWrite<T>(s: seq<T>, start: nat, buf: seq<T>): (r: seq<T>)
    requires |s| > 0 || buf == []
    ensures |r| == |s|
    decreases |buf|
  {
    if buf == [] then s
    else CircularWrite(s[start % |s| := buf[0]], (start + 1) % |s|, buf[1..])
  }

  /** Writing one more item is one more cell update, at the next cursor position. */
  lemma {:induction false} CircularWriteSnoc<T>(s: seq<T>, start: nat, b: seq<T>, x: T)
    requires |s| > 0
    ensures CircularWrite(s, start, b + [x]) == CircularWrite(s, start, b)[(start + |b|) % |s| := x]
    decreases |b|
  {
    if b == [] {
      assert CircularWrite(s, start, [x]) == CircularWrite(s[start % |s| := x], (start + 1) % |s|, []);
    } else {
      var s' := s[start % |s| := b[0]];
      var start' := (start + 1) % |s|;
      assert (b + [x])[0] == b[0] && (b + [x])[1..] == b[1..] + [x];
      CircularWriteSnoc(s', start', b[1..], x);
      ModOfSum(start + 1, |b| - 1, |s|);
    }
  }

  /**
   * Cell `j % |d|` of `d` holds item `j` of `h` for each of the last `w`
   * items of `h`.
   */
  ghost predicate WindowHolds<T>(d: seq<T>, h: seq<T>, w: nat) {
    |d| > 0 ==> forall j :: 0 <= j && |h| - w <= j < |h| ==> d[j % |d|] == h[j]
  }

  /** Writing the next item at the cursor extends the window by one item, up to the capacity. */
  lemma PushKeepsWindow<T>(d: seq<T>, h: seq<T>, w: nat, x: T)
    requires |d| > 0 && w <= |d| && w <= |h|
    requires WindowHolds(d, h, w)
    ensures WindowHolds(d[|h| % |d| := x], h + [x], Min(|d|, w + 1))
  {
    var d', h' := d[|h| % |d| := x], h + [x];
    forall j | |h'| - Min(|d|, w + 1) <= j < |h'|
      ensures d'[j % |d|] == h'[j]
    {
      if j < |h| {
        ModDistinct(|h|, j, |d|);
      }
    }
  }

  /** Appending one cyclic read to a rotation extends it by one. */
  lemma RotatedSnoc<T>(s: seq<T>, start: nat, len: nat)
    requires |s| > 0
    ensures Rotated(s, start, len + 1) == Rotated(s, start, len) + [s[(start + len) % |s|]]
  {
  }

  /**
   * A full window read from the cursor is the last `|d|` items of the
   * history, oldest first.
   */
  lemma FullWindowInOrder<T>(d: seq<T>, h: seq<T>)
    requires |d| > 0 && |d| <= |h|
    requires WindowHolds(d, h, |d|)
    ensures Rotated(d, |h| % |d|, |d|) == h[|h| - |d|..]
  {
    var r := Rotated(d, |h| % |d|, |d|);
    forall k | 0 <= k < |d|
      ensures r[k] == h[|h| - |d| + k]
    {
      ModOfSum(|h|, k, |d|);
      ModAddMultiple(1, |d|, |h| - |d| + k);
    }
  }

  /**
   * Writing `buf` from the cursor extends the window the cells hold by
   * `|buf|` items, up to the capacity.
   */
  lemma {:induction false} CircularWriteKeepsWindow<T>(d: seq<T>, h: seq<T>, w: nat, buf: seq<T>)
    requires |d| > 0 && w <= |d| && w <= |h|
    requires WindowHolds(d, h, w)
    ensures WindowHolds(CircularWrite(d, |h| % |d|, buf), h + buf, Min(|d|, w + |buf|))
    decreases |buf|
  {
    if buf == [] {
      assert h + buf == h;
    } else {
      var b, x := buf[..|buf| - 1], buf[|buf| - 1];
      assert buf == b + [x];
      CircularWriteKeepsWindow(d, h, w, b);
      CircularWriteSnoc(d, |h| % |d|, b, x);
      ModOfSum(|h|, |b|, |d|);
      PushKeepsWindow(CircularWrite(d, |h| % |d|, b), h + b, Min(|d|, w + |b|), x);
      assert (h + b) + [x] == h + buf;
    }
  }

  /** A write that does not wrap leaves every cell outside `start..start + |buf|` as it was. */
  lemma {:induction false} CircularWriteLeavesRest<T>(s: seq<T>, start: nat, buf: seq<T>, j: nat)
    requires start + |buf| <= |s| && j < |s| && (j < start || start + |buf| <= j)
    ensures CircularWrite(s, start, buf)[j] == s[j]
    decreases |buf|
  {
    if buf != [] {
      var b, x := buf[..|buf| - 1], buf[|buf| - 1];
      assert buf == b + [x];
      CircularWriteLeavesRest(s, start, b, j);
      CircularWriteSnoc(s, start, b, x);
      ModUnique(start + |b|, 0, start + |b|, |s|);
    }
  }

  /**
   * What iteration yields once all of `buf` has been consumed into cells
   * `d` whose cursor is at `start` with `len` items held: `consume` with
   * `consume_all`, then `iter`.
   */
  function ItemsAfterConsume<T>(d: seq<T>, start: nat, len: nat, buf: seq<T>): seq<T>
    requires |d| > 0
  {
    Rotated(CircularWrite(d, start, buf), (start + |buf|) % |d|, Min(|d|, len + |buf|))
  }

  /**
   * Once a bucket has been fed at least its capacity since its reset,
   * iterating it after consuming `buf` yields the last `capacity` items fed,
   * oldest first: the iteration as written and the corrected one agree.
   */
  lemma ItemsAfterConsumeWhenFull<T>(d: seq<T>, h: seq<T>, buf: seq<T>)
    requires |d| > 0 && |h| + |buf| >= |d|
    requires WindowHolds(d, h, Min(|d|, |h|))
    ensures ItemsAfterConsume(d, |h| % |d|, Min(|d|, |h|), buf) == (h + buf)[|h| + |buf| - |d|..]
  {
    ReadFromNewCursor(d, |h|, buf);
    CircularWriteKeepsWindow(d, h, Min(|d|, |h|), buf);
    FullWindowInOrder(CircularWrite(d, |h| % |d|, buf), h + buf);
  }

  /** Fed a whole capacity, the bucket reads every cell from the cursor the write left. */
  lemma ReadFromNewCursor<T>(d: seq<T>, fed: nat, buf: seq<T>)
    requires |d| > 0 && fed + |buf| >= |d|
    ensures ItemsAfterConsume(d, fed % |d|, Min(|d|, fed), buf)
      == Rotated(CircularWrite(d, fed % |d|, buf), (fed + |buf|) % |d|, |d|)
  {
    ModOfSum(fed, |buf|, |d|);
  }

  /**
   * A bucket fed `buf` right after its reset, with `buf` at most half its
   * capacity, iterates none of `buf`: it yields the `|buf|` cells after the
   * ones just written, as they were before.
   */
  lemma ShortFillReadsStaleCells<T>(d: seq<T>, buf: seq<T>)
    requires |d| > 0 && 2 * |buf| <= |d|
    ensures ItemsAfterConsume(d, 0, 0, buf) == d[|buf|..2 * |buf|]
  {
    var r := ItemsAfterConsume(d, 0, 0, buf);
    forall k | 0 <= k < |buf|
      ensures r[k] == d[|buf| + k]
    {
      ModUnique(|buf|, 0, |buf|, |d|);
      ModUnique(|buf| + k, 0, |buf| + k, |d|);
      CircularWriteLeavesRest(d, 0, buf, |buf| + k);
    }
  }

  /**
   * Any window read from `w` cells behind the cursor is the last `w` items
   * of the history, oldest first.
   */
  lemma WindowInOrder<T>(d: seq<T>, h: seq<T>, w: nat)
    requires |d| > 0 && w <= |d| && w <= |h|
    requires WindowHolds(d, h, w)
    ensures Rotated(d, (|h| - w) % |d|, w) == h[|h| - w..]
  {
    var r := Rotated(d, (|h| - w) % |d|, w);
    forall k | 0 <= k < w
      ensures r[k] == h[|h| - w + k]
    {
      ModOfSum(|h| - w, k, |d|);
    }
  }

  /** `w` cells behind the cursor, wrapping around: where the oldest of `w` items sits. */
  lemma CursorBehind(h: nat, w: nat, cap: nat)
    requires cap > 0 && w <= cap && w <= h
    ensures (h % cap + cap - w) % cap == (h - w) % cap
  {
    ModOfSum(h, cap - w, cap);
    ModAddMultiple(1, cap, h - w);
  }

  /** Where a cursor at `start` is after `steps` wrapping increments. */
  function CursorAfter(start: nat, steps: nat, cap: nat): (r: nat)
    requires cap > 0
    ensures r < cap
  {
    (start + steps) % cap
  }

  /** One more step is one wrapping increment, `(cursor + 1) % cap` as the source writes it. */
  lemma CursorStep(start: nat, steps: nat, cap: nat)
    requires cap > 0
    ensures CursorAfter(start, steps + 1, cap) == (CursorAfter(start, steps, cap) + 1) % cap
  {
    ModOfSum(start + steps, 1, cap);
  }

  /**
   * The iterator's loop: `count` cells of `a` from `start`, one per step,
   * the position advancing by a wrapping increment.
   */
  method ReadWrapping<T>(a: array<T>, start: nat, count: nat) returns (items: seq<T>)
    requires count == 0 || start < a.Length
    ensures items == Rotated(a[..], start, count)
  {
    items := [];
    if count == 0 {
      return;
    }
    ghost var cells := a[..];
    var idx := start;
    var remain := count;
    ModUnique(start, 0, start, a.Length);
    while remain > 0
      invariant |items| + remain == count
      invariant idx == CursorAfter(start, |items|, |cells|)
      invariant items == Rotated(cells, start, |items|)
    {
      RotatedSnoc(cells, start, |items|);
      CursorStep(start, |items|, |cells|);
      assert a[idx] == cells[idx];
      items := items + [a[idx]];
      idx := (idx + 1) % a.Length;
      remain := remain - 1;
    }
  }

  /**
   * `index` is the write cursor and `length` the number of valid items.
   * `history` holds every item consumed since the last reset; the bucket
   * keeps the last `length` of them, item `j` of the history at cell
   * `j % capacity`.
   */
  class CircularBucket<T> {
    const data: array<T>
    var index: nat
    var length: nat
    ghost var history: seq<T>

    ghost predicate Valid()
      reads this, data
    {
      && length == Min(data.Length, |history|)
      && (data.Length == 0 ==> index == 0)
      && (data.Length > 0 ==> index == |history| % data.Length)
      && WindowHolds(data[..], history, length)
    }

    function Capacity(): nat {
      data.Length
    }

    predicate IsFull()
      reads this
    {
      length == data.Length
    }

    /**
     * What iteration yields: `length` items starting at the write cursor.
     * Once full, these are the last `capacity` items consumed, oldest first.
     */
    function Items(): (r: seq<T>)
      reads this, data
      requires Valid()
      ensures |r| == length
      ensures IsFull() ==> r == history[|history| - data.Length..]
    {
      if IsFull() && data.Length > 0 then
        FullWindowInOrder(data[..], history);
        Rotated(data[..], index, length)
      else
        Rotated(data[..], index, length)
    }

    constructor (capacity: nat, zero: T)
      ensures Valid() && fresh(data)
      ensures data.Length == capacity && index == 0 && length == 0 && history == []
      ensures forall i :: 0 <= i < capacity ==> data[i] == zero
    {
      data := new T[capacity](_ => zero);
      index, length := 0, 0;
      history := [];
    }

    /** Empties the bucket and moves the cursor to the start; data is untouched. */
    method Reset()
      modifies this
      ensures Valid()
      ensures index == 0 && length == 0 && history == []
      ensures data[..] == old(data[..])
    {
      index, length := 0, 0;
      history := [];
    }

    /**
     * Copies `buf` in at the cursor. Without `consumeAll` only the free space
     * is filled; with it the whole of `buf` is written, later items
     * overwriting earlier ones, which needs a non-zero capacity.
     */
    method Consume(buf: seq<T>, consumeAll: bool) returns (n: nat)
      requires Valid()
      requires consumeAll && |buf| > 0 ==> data.Length > 0
      modifies this, data
      ensures Valid()
      ensures n == if consumeAll then |buf| else Min(|buf|, data.Length - old(length))
      ensures history == old(history) + buf[..n]
      ensures length == Min(data.Length, old(length) + n)
      ensures data.Length > 0 ==> index == (old(index) + n) % data.Length
      ensures data[..] == CircularWrite(old(data[..]), old(index), buf[..n])
    {
      var remain := data.Length - length;
      var totalRead := if consumeAll then |buf| else Min(|buf|, remain);
      WriteItems(buf[..totalRead]);
      length := Min(data.Length, length + totalRead);
      n := totalRead;
    }

    /** The copy loop of `consume`: each item goes to the cursor, which moves on one cell. */
    method WriteItems(items: seq<T>)
      requires Valid() && (|items| > 0 ==> data.Length > 0)
      modifies this`index, this`history, data
      ensures history == old(history) + items
      ensures data.Length > 0 ==> index == |history| % data.Length && index == (old(index) + |items|) % data.Length
      ensures data.Length == 0 ==> index == 0
      ensures data[..] == CircularWrite(old(data[..]), old(index), items)
      ensures WindowHolds(data[..], history, Min(data.Length, length + |items|))
    {
      var capacity := data.Length;
      ghost var h0, d0, i0 := history, data[..], index;
      for i := 0 to |items|
        invariant history == h0 + items[..i]
        invariant capacity > 0 ==> index == |history| % capacity
        invariant capacity == 0 ==> index == 0
        invariant data[..] == CircularWrite(d0, i0, items[..i])
        invariant WindowHolds(data[..], history, Min(capacity, length + i))
      {
        assert items[..i + 1] == items[..i] + [items[i]];
        CircularWriteSnoc(d0, i0, items[..i], items[i]);
        ModOfSum(|h0|, i, capacity);
        WriteAtCursor(items[i], Min(capacity, length + i));
      }
      assert items[..|items|] == items;
      if capacity > 0 {
        ModOfSum(|h0|, |items|, capacity);
      }
    }

    /** One step of `consume`: the item goes to the cursor, which moves on one cell. */
    method WriteAtCursor(x: T, ghost w: nat)
      requires data.Length > 0 && index == |history| % data.Length
      requires w <= data.Length && w <= |history| && WindowHolds(data[..], history, w)
      modifies this`index, this`history, data
      ensures history == old(history) + [x] && index == |history| % data.Length
      ensures data[..] == old(data[..])[old(index) := x]
      ensures WindowHolds(data[..], history, Min(data.Length, w + 1))
    {
      PushKeepsWindow(data[..], history, w, x);
      ModOfSum(|history|, 1, data.Length);
      data[index] := x;
      history := history + [x];
      index := (index + 1) % data.Length;
    }

    /**
     * Iterates `length` cells from the write cursor, as the source's
     * iterator does.
     */
    method Iter() returns (items: seq<T>)
      requires Valid()
      ensures items == Items()
    {
      items := ReadWrapping(data, index, length);
    }

    /** `consume` with `consume_all`, then `iter`: what the iterator yields once all of `buf` is in. */
    method ConsumeAllThenIter(buf: seq<T>) returns (items: seq<T>)
      requires Valid() && data.Length > 0
      modifies this, data
      ensures Valid()
      ensures history == old(history) + buf
      ensures data[..] == CircularWrite(old(data[..]), old(index), buf)
      ensures index == (old(index) + |buf|) % data.Length && length == Min(data.Length, old(length) + |buf|)
      ensures items == ItemsAfterConsume(old(data[..]), old(index), old(length), buf)
    {
      var n := Consume(buf, true);
      assert buf[..n] == buf;
      items := ReadWrapping(data, index, length);
    }

    /**
     * Iteration as it is evidently meant, starting `length` cells behind the
     * write cursor: the items consumed since the last reset that the bucket
     * still holds, oldest first, whether or not the bucket is full.
     */
    method IterOldestFirst() returns (items: seq<T>)
      requires Valid()
      ensures items == history[|history| - length..]
    {
      items := [];
      if data.Length == 0 {
        return;
      }
      var start := (index + data.Length - length) % data.Length;
      assert start == (|history| - length) % data.Length by {
        CursorBehind(|history|, length, data.Length);
      }
      items := ReadWrapping(data, start, length);
      CursorBehind(|history|, length, data.Length);
      WindowInOrder(data[..], history, length);
    }

    /** `bucket[i]`: the `i`-th item iteration yields. */
    function Index(i: nat): (r: T)
      reads this, data
      requires Valid() && i < length
      ensures r == Items()[i]
    {
      data[(i + index) % data.Length]
    }
  }

  /**
   * One item consumed into an empty bucket of capacity two: iteration as
   * written yields the untouched cell after the cursor, the corrected
   * iteration yields the item.
   */
  method PartialIterReadsPastCursor() returns (asWritten: seq<int>, intended: seq<int>)
    ensures asWritten == [0] && intended == [7]
  {
    var bucket := new CircularBucket<int>(2, 0);
    var n := bucket.Consume([7], true);
    assert [7][..1] == [7];
    assert bucket.data[..] == CircularWrite([0, 0], 0, [7]) == CircularWrite([7, 0], 1, []) == [7, 0];
    asWritten := bucket.Iter();
    assert asWritten == Rotated([7, 0], 1, 1);
    intended := bucket.IterOldestFirst();
  }
}
