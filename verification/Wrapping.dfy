/** Positions of an ever-growing counter in a buffer of fixed size. */
module Wrapping {

  function Wrap(position: nat, size: nat): (i: nat)
    requires size > 0
    ensures i < size
  {
    position % size
  }

  /** The slot `k` positions after `position`. */
  function Slot(position: nat, k: nat, size: nat): (i: nat)
    requires size > 0
    ensures i < size
  {
    Wrap(position + k, size)
  }

  lemma ModUnique(q: int, r: int, size: int)
    requires 0 <= r < size
    ensures (q * size + r) % size == r
  {
    var x := q * size + r;
    var d := x / size - q;
    assert x == (x / size) * size + x % size;
    assert d * size == (x / size) * size - q * size;
    ScaleSign(d, size);
  }

  lemma ScaleSign(d: int, size: nat)
    ensures d > 0 ==> d * size >= size
    ensures d < 0 ==> d * size <= 0 - size
  {
    if d > 0 {
      assert (d - 1) * size >= 0;
    } else if d < 0 {
      assert (-d - 1) * size >= 0;
    }
  }

  /** `k` positions on, the slot has moved by `k`, starting over at most once. */
  lemma WrapSplit(position: nat, k: nat, size: nat)
    requires size > 0 && k < size
    ensures var offset := Wrap(position, size);
            Slot(position, k, size) == if offset + k < size then offset + k else offset + k - size
  {
    var offset := Wrap(position, size);
    var q := position / size;
    assert position == q * size + offset;
    if offset + k < size {
      ModUnique(q, offset + k, size);
    } else {
      assert position + k == (q + 1) * size + (offset + k - size);
      ModUnique(q + 1, offset + k - size, size);
    }
  }

  /** Seen from `n` positions later, an earlier slot lies that much further on, one round ahead. */
  lemma SlotFromLater(position: nat, k: nat, n: nat, size: nat)
    requires size > 0 && k < n <= size
    ensures Slot(position, k, size) == Slot(position + n, size - n + k, size)
  {
    var x := position + k;
    assert x + size == (x / size + 1) * size + x % size;
    ModUnique(x / size + 1, x % size, size);
  }

  /** Positions less than one buffer apart never share a slot. */
  lemma WrapDistinct(a: nat, b: nat, size: nat)
    requires size > 0 && a < b < a + size
    ensures Wrap(a, size) != Wrap(b, size)
  {
    WrapSplit(a, b - a, size);
  }
}
