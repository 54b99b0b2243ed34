/** A ring of cells addressed by ever-growing sequence numbers, and why it is a bounded queue. */
module Ring {
  import opened Basics

  datatype Ring<C> = Ring(next: nat, read: nat, cells: seq<C>)

  ghost predicate Shaped<C>(r: Ring<C>) {
    |r.cells| >= 1 && 1 <= r.read <= r.next && r.next - r.read <= |r.cells|
  }

  /** The cell of a sequence number. */
  function At(size: nat, sequence: nat): (i: nat)
    requires size >= 1 && sequence >= 1
    ensures i < size
  {
    (sequence - 1) % size
  }

  function Push<C>(r: Ring<C>, c: C): (s: Ring<C>)
    requires Shaped(r)
  {
    Ring(r.next + 1, r.read, r.cells[At(|r.cells|, r.next) := c])
  }

  function Pop<C>(r: Ring<C>, blank: C): (s: Ring<C>)
    requires Shaped(r)
  {
    Ring(r.next, r.read + 1, r.cells[At(|r.cells|, r.read) := blank])
  }

  /** Reading each live cell with `view` gives exactly the waiting items, oldest first. */
  ghost predicate Models<C, P>(r: Ring<C>, view: (C, nat) -> Option<P>, waiting: seq<P>) {
    && Shaped(r) && r.next - r.read == |waiting|
    && forall i :: 0 <= i < |waiting| ==> view(r.cells[At(|r.cells|, r.read + i)], r.read + i) == Some(waiting[i])
  }

  /** Numbers go round the cells one after another, starting with the first. */
  lemma RoundAndRound(size: nat, sequence: nat)
    requires size >= 1 && sequence >= 1
    ensures At(size, 1) == 0
    ensures At(size, sequence + 1) == if At(size, sequence) + 1 == size then 0 else At(size, sequence) + 1
  {
    var n := sequence - 1;
    var q, r := n / size, n % size;
    assert n == size * q + r;
    if r + 1 == size {
      assert n + 1 == size * (q + 1);
      SameRemainder(size, q + 1, 0);
    } else {
      SameRemainder(size, q, r + 1);
    }
    SameRemainder(size, 0, 0);
  }

  lemma SameRemainder(size: nat, q: int, r: nat)
    requires r < size
    ensures (size * q + r) % size == r
  {
    var n := size * q + r;
    var p, s := n / size, n % size;
    assert n == size * p + s;
    if p < q {
      MulKeepsOrder(size, p + 1, q);
    } else if p > q {
      MulKeepsOrder(size, q + 1, p);
    }
  }

  /** Live sequence numbers, which are less than the size apart, never share a cell. */
  lemma NoCollision(size: nat, a: nat, b: nat)
    requires 1 <= a < b < a + size
    ensures At(size, a) != At(size, b)
  {
    var p, q := (a - 1) / size, (b - 1) / size;
    assert a - 1 == size * p + At(size, a) && b - 1 == size * q + At(size, b);
    if q <= p {
      MulKeepsOrder(size, q, p);
    } else {
      MulKeepsOrder(size, p + 1, q);
    }
  }

  lemma PushModels<C, P>(r: Ring<C>, view: (C, nat) -> Option<P>, waiting: seq<P>, c: C, p: P)
    requires Models(r, view, waiting) && |waiting| < |r.cells| && view(c, r.next) == Some(p)
    ensures Models(Push(r, c), view, waiting + [p])
  {
    hide At;
    var s, now := Push(r, c), waiting + [p];
    forall i | 0 <= i < |now| ensures view(s.cells[At(|s.cells|, s.read + i)], s.read + i) == Some(now[i]) {
      if i < |waiting| {
        NoCollision(|r.cells|, r.read + i, r.next);
      }
    }
  }

  lemma FrontModels<C, P>(r: Ring<C>, view: (C, nat) -> Option<P>, waiting: seq<P>)
    requires Models(r, view, waiting) && waiting != []
    ensures view(r.cells[At(|r.cells|, r.read)], r.read) == Some(waiting[0])
  {
    hide At;
    assert r.read + 0 == r.read;
  }

  lemma PopModels<C, P>(r: Ring<C>, view: (C, nat) -> Option<P>, waiting: seq<P>, blank: C)
    requires Models(r, view, waiting) && waiting != []
    ensures Models(Pop(r, blank), view, waiting[1..])
  {
    hide At;
    var s, now := Pop(r, blank), waiting[1..];
    forall i | 0 <= i < |now| ensures view(s.cells[At(|s.cells|, s.read + i)], s.read + i) == Some(now[i]) {
      NoCollision(|r.cells|, r.read, r.read + (i + 1));
      assert s.read + i == r.read + (i + 1) && now[i] == waiting[i + 1];
    }
  }
}
