/** Overlapping windows over a text of length n, as both chunkers of the repository cut it:
    windows of `size` characters, each starting `size - overlap` after the previous one,
    the last one cut off by the end of the text. */
module SlidingWindows {
  datatype Span = Span(lo: nat, hi: nat)

  /** Whether the half-open range [i, j) lies wholly inside one of the windows. */
  ghost predicate Covered(windows: seq<Span>, i: nat, j: nat) {
    exists k :: 0 <= k < |windows| && windows[k].lo <= i && j <= windows[k].hi
  }

  ghost function WindowsFrom(offset: nat, n: nat, size: nat, overlap: nat): (windows: seq<Span>)
    requires offset <= n && overlap < size
    decreases n - offset
  {
    if n <= offset + size then [Span(offset, n)]
    else [Span(offset, offset + size)] + WindowsFrom(offset + size - overlap, n, size, overlap)
  }

  lemma {:induction false} WindowsInBounds(offset: nat, n: nat, size: nat, overlap: nat)
    requires offset <= n && overlap < size
    ensures forall w :: w in WindowsFrom(offset, n, size, overlap) ==> offset <= w.lo <= w.hi <= n && w.hi <= w.lo + size
    decreases n - offset
  {
    if offset + size < n {
      WindowsInBounds(offset + size - overlap, n, size, overlap);
    }
  }

  /** Every range of at most overlap + 1 characters lies in a single window. */
  lemma {:induction false} ShortRangeCovered(offset: nat, n: nat, size: nat, overlap: nat, i: nat, j: nat)
    requires offset <= i <= j <= n && overlap < size
    requires j - i <= overlap + 1
    ensures Covered(WindowsFrom(offset, n, size, overlap), i, j)
    decreases n - offset
  {
    var windows := WindowsFrom(offset, n, size, overlap);
    if n <= offset + size || i < offset + size - overlap {
      assert windows[0].lo <= i && j <= windows[0].hi;
    } else {
      var rest := WindowsFrom(offset + size - overlap, n, size, overlap);
      ShortRangeCovered(offset + size - overlap, n, size, overlap, i, j);
      var k :| 0 <= k < |rest| && rest[k].lo <= i && j <= rest[k].hi;
      assert windows[k + 1] == rest[k];
    }
  }

  /** The bound is sharp: a range one longer straddles the end of the first window. */
  lemma {:induction false} LongRangeMissed(n: nat, size: nat, overlap: nat)
    requires overlap < size < n
    ensures !Covered(WindowsFrom(0, n, size, overlap), size - overlap - 1, size + 1)
  {
    var rest := WindowsFrom(size - overlap, n, size, overlap);
    WindowsInBounds(size - overlap, n, size, overlap);
    var windows := WindowsFrom(0, n, size, overlap);
    forall k | 0 <= k < |windows|
      ensures !(windows[k].lo <= size - overlap - 1 && size + 1 <= windows[k].hi)
    {
      if k > 0 {
        assert windows[k] == rest[k - 1];
        assert rest[k - 1] in rest;
      }
    }
  }

  ghost predicate AllCovered(windows: seq<Span>, n: nat, length: nat) {
    forall i: nat, j :: j == i + length && j <= n ==> Covered(windows, i, j)
  }

  /** All ranges of a given length are covered exactly when the length is at most overlap + 1
      or the whole text fits in one window. */
  lemma {:induction false} CoverageSharp(n: nat, size: nat, overlap: nat, length: nat)
    requires overlap < size && length <= n
    ensures AllCovered(WindowsFrom(0, n, size, overlap), n, length) <==> length <= overlap + 1 || n <= size
  {
    var windows := WindowsFrom(0, n, size, overlap);
    if length <= overlap + 1 {
      forall i: nat, j | j == i + length && j <= n
        ensures Covered(windows, i, j)
      {
        ShortRangeCovered(0, n, size, overlap, i, j);
      }
    } else if n <= size {
      forall i: nat, j | j == i + length && j <= n
        ensures Covered(windows, i, j)
      {
        assert windows[0].lo <= i && j <= windows[0].hi;
      }
    } else {
      LongRangeMissed(n, size, overlap);
      var i := if size - overlap - 1 + length <= n then size - overlap - 1 else n - length;
      assert !Covered(windows, i, i + length) by {
        if k :| 0 <= k < |windows| && windows[k].lo <= i && i + length <= windows[k].hi {
          assert false;
        }
      }
    }
  }

  function CeilDiv(a: int, b: int): int
    requires b > 0
  {
    (a + b - 1) / b
  }

  lemma ShiftedQuotient(a: int, b: int)
    requires b > 0
    ensures (a + b) / b == a / b + 1
  {
    assert a + b == (a / b + 1) * b + a % b;
    QuotientUnique(a + b, b, a / b + 1, a % b);
  }

  lemma QuotientUnique(a: int, b: int, q: int, r: int)
    requires b > 0 && a == q * b + r && 0 <= r < b
    ensures a / b == q
  {
    var p, t := a / b, a % b;
    assert a == p * b + t;
    DistinctMultiples(b, q, p);
  }

  lemma DistinctMultiples(b: int, q: int, p: int)
    requires b > 0
    ensures q < p ==> q * b + b <= p * b
    ensures p < q ==> p * b + b <= q * b
  {
    if q < p {
      MultipleBelow(b, q, p);
    } else if p < q {
      MultipleBelow(b, p, q);
    }
  }

  lemma {:induction false} MultipleBelow(b: int, q: int, p: int)
    requires b > 0 && q < p
    ensures q * b + b <= p * b
    decreases p - q
  {
    assert (p - 1) * b == p * b - b;
    if q < p - 1 {
      MultipleBelow(b, q, p - 1);
    }
  }

  /** The number of windows in closed form. */
  lemma {:induction false} WindowCount(offset: nat, n: nat, size: nat, overlap: nat)
    requires offset <= n && overlap < size
    ensures |WindowsFrom(offset, n, size, overlap)|
         == 1 + (if n <= offset + size then 0 else CeilDiv(n - offset - size, size - overlap))
    decreases n - offset
  {
    var stride := size - overlap;
    if offset + size < n {
      WindowCount(offset + stride, n, size, overlap);
      var excess := n - offset - size;
      if n <= offset + stride + size {
        QuotientUnique(excess + stride - 1, stride, 1, excess - 1);
      } else {
        ShiftedQuotient(excess - stride + stride - 1, stride);
      }
    }
  }
}
