/** What a zero-initialised circular buffer holds after a sequence of writes. */
module Rings {

  /** The slot of a capacity-`n` circular buffer that the `k`-th write (counting from 0) lands in,
      when the cursor starts at slot 0 and wraps to 0 on reaching `n`. */
  function Slot(k: nat, n: nat): (j: nat)
    requires 0 < n
    ensures j < n
  {
    k % n
  }

  /** Slot `j` of a capacity-`n` buffer that started all zero and then had `vs` written in order:
      the most recent value whose write index lands in slot `j`, or 0.0 when no write did. */
  function LatestAt(vs: seq<real>, n: nat, j: nat): real
    requires 0 < n
  {
    if |vs| == 0 then 0.0
    else if Slot(|vs| - 1, n) == j then vs[|vs| - 1]
    else LatestAt(vs[..|vs| - 1], n, j)
  }

  /** If `k` is the last write index that lands in slot `j`, slot `j` holds `vs[k]`. */
  lemma {:induction false} LatestAtWritten(vs: seq<real>, n: nat, j: nat, k: nat)
    requires 0 < n && k < |vs| && Slot(k, n) == j
    requires forall k' :: k < k' < |vs| ==> Slot(k', n) != j
    ensures LatestAt(vs, n, j) == vs[k]
  {
    if k < |vs| - 1 {
      var front := vs[..|vs| - 1];
      assert Slot(|vs| - 1, n) != j;
      assert front[k] == vs[k];
      LatestAtWritten(front, n, j, k);
    }
  }

  /** A slot that no write landed in still holds the initial zero. */
  lemma {:induction false} LatestAtUnwritten(vs: seq<real>, n: nat, j: nat)
    requires 0 < n
    requires forall k :: 0 <= k < |vs| ==> Slot(k, n) != j
    ensures LatestAt(vs, n, j) == 0.0
  {
    if |vs| > 0 {
      assert Slot(|vs| - 1, n) != j;
      LatestAtUnwritten(vs[..|vs| - 1], n, j);
    }
  }

  /** One more write changes exactly the slot its index lands in. */
  lemma LatestAtAppend(vs: seq<real>, v: real, n: nat, j: nat)
    requires 0 < n
    ensures LatestAt(vs + [v], n, j) == if Slot(|vs|, n) == j then v else LatestAt(vs, n, j)
  {
    assert (vs + [v])[..|vs|] == vs;
  }

  /** A circular buffer as a value: its slots and the write cursor. The capacity is the number
      of slots. */
  datatype Ring = Ring(slots: seq<real>, cursor: nat)

  predicate Valid(r: Ring)
  {
    0 < |r.slots| && r.cursor < |r.slots|
  }

  /** A buffer of `n` zero slots with the cursor at slot 0, as static storage starts out. */
  function Zero(n: nat): (r: Ring)
    requires 0 < n
    ensures Valid(r) && |r.slots| == n
  {
    Ring(seq(n, _ => 0.0), 0)
  }

  /** Store `v` at the cursor, then advance the cursor, wrapping to 0 when it reaches the
      capacity. */
  function Write(r: Ring, v: real): (w: Ring)
    requires Valid(r)
    ensures Valid(w) && |w.slots| == |r.slots|
    ensures w.slots == r.slots[r.cursor := v]
    ensures w.cursor == (r.cursor + 1) % |r.slots|
  {
    var next := r.cursor + 1;
    Ring(r.slots[r.cursor := v], if next == |r.slots| then 0 else next)
  }

  /** The buffer after writing every value of `vs`, in order. */
  function WriteAll(r: Ring, vs: seq<real>): (w: Ring)
    requires Valid(r)
    ensures Valid(w) && |w.slots| == |r.slots|
  {
    if |vs| == 0 then r else Write(WriteAll(r, vs[..|vs| - 1]), vs[|vs| - 1])
  }

  /** Starting from zeroed storage, after the writes `vs` the cursor is the slot of the next
      write, and every slot holds the most recent value written to it (or still 0). */
  lemma {:induction false} WriteAllFromZero(n: nat, vs: seq<real>)
    requires 0 < n
    ensures WriteAll(Zero(n), vs).cursor == Slot(|vs|, n)
    ensures forall j :: 0 <= j < n ==> WriteAll(Zero(n), vs).slots[j] == LatestAt(vs, n, j)
  {
    if |vs| > 0 {
      var front, v := vs[..|vs| - 1], vs[|vs| - 1];
      assert vs == front + [v];
      WriteAllFromZero(n, front);
      CursorStep(|front|, n);
      forall j | 0 <= j < n ensures WriteAll(Zero(n), vs).slots[j] == LatestAt(vs, n, j) {
        LatestAtAppend(front, v, n, j);
      }
    }
  }

  /** Once `n` or more values have been written, the buffer holds exactly the last `n` of them:
      the value written at index `k` sits in slot `k % n`. */
  lemma LastWritesKept(n: nat, vs: seq<real>, k: nat)
    requires 0 < n && k < |vs| && |vs| <= k + n
    ensures WriteAll(Zero(n), vs).slots[k % n] == vs[k]
  {
    WriteAllFromZero(n, vs);
    forall k' | k < k' < |vs| ensures Slot(k', n) != Slot(k, n) {
      DistinctSlots(k, k', n);
    }
    LatestAtWritten(vs, n, k % n, k);
  }

  /** Two write indices fewer than `n` apart land in different slots. */
  lemma DistinctSlots(k: nat, k': nat, n: nat)
    requires 0 < n && k < k' < k + n
    ensures k % n != k' % n
  {
    var q, q' := k / n, k' / n;
    assert k == q * n + k % n && k' == q' * n + k' % n;
    if k % n == k' % n {
      assert (q' - q) * n == k' - k by {
        assert q' * n - q * n == (q' - q) * n;
      }
      if q' - q >= 1 {
        MulAtLeast(q' - q, n);
      } else {
        MulAtMost(q' - q, n);
      }
    }
  }

  /** The cursor after one more write, as the source computes it (increment, wrap to 0 at `n`),
      is the slot of the next write index. */
  lemma CursorStep(len: nat, n: nat)
    requires 0 < n
    ensures (if Slot(len, n) + 1 == n then 0 else Slot(len, n) + 1) == Slot(len + 1, n)
  {
    var q := len / n;
    assert len == q * n + len % n;
    if len % n + 1 == n {
      assert len + 1 == (q + 1) * n;
      DivModUnique(len + 1, n, q + 1, 0);
    } else {
      assert len + 1 == q * n + (len % n + 1);
      DivModUnique(len + 1, n, q, len % n + 1);
    }
  }

  /** Euclidean division has a unique quotient and remainder. */
  lemma DivModUnique(a: nat, n: nat, q: int, r: int)
    requires 0 < n && 0 <= r < n && a == q * n + r
    ensures a % n == r
  {
    var q0, r0 := a / n, a % n;
    assert (q - q0) * n == r0 - r by {
      assert a == q0 * n + r0;
      assert q * n - q0 * n == (q - q0) * n;
    }
    if q > q0 {
      MulAtLeast(q - q0, n);
    } else if q < q0 {
      MulAtLeast(q0 - q, n);
    }
  }

  lemma MulAtLeast(d: int, n: nat)
    requires 1 <= d
    ensures d * n >= n
  {
    assert d * n == (d - 1) * n + n;
  }

  lemma MulAtMost(d: int, n: nat)
    requires d <= 0
    ensures d * n <= 0
  {
    assert d * n == -((-d) * n);
  }
}
