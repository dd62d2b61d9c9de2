/** What the tracker's order means over whole histories: recency of the last touch. */
module LruHistory {
  import opened UInt64
  import opened Lru

  datatype Event = Touch(addr: uint64) | Evict | Remove(addr: uint64)

  /** One event, as the contracts of LRUTracker's methods give it. */
  function Apply(order: seq<uint64>, e: Event): seq<uint64> {
    match e
    case Touch(a) => Touched(order, a)
    case Evict => Evicted(order)
    case Remove(a) => Without(order, a)
  }

  function OrderAfter(h: seq<Event>): seq<uint64> {
    if h == [] then [] else Apply(OrderAfter(h[..|h| - 1]), h[|h| - 1])
  }

  /** When `addr` was last touched; -1 if never. */
  function LastTouch(h: seq<Event>, addr: uint64): (t: int)
    ensures -1 <= t < |h|
    ensures t >= 0 ==> h[t] == Touch(addr)
    ensures forall k :: t < k < |h| ==> h[k] != Touch(addr)
  {
    if h == [] then -1
    else if h[|h| - 1] == Touch(addr) then |h| - 1
    else LastTouch(h[..|h| - 1], addr)
  }

  /** Event k takes `addr` out: it removes it, or it is an eviction that returns it. */
  predicate TakesOut(h: seq<Event>, k: nat, addr: uint64)
    requires k < |h|
  {
    || h[k] == Remove(addr)
    || (h[k] == Evict && OrderAfter(h[..k]) != [] && Victim(OrderAfter(h[..k])) == addr)
  }

  /** Touched at some time and not taken out since. */
  ghost predicate Tracked(h: seq<Event>, addr: uint64) {
    LastTouch(h, addr) >= 0 && forall k :: LastTouch(h, addr) < k < |h| ==> !TakesOut(h, k, addr)
  }

  lemma TrackedExtends(h: seq<Event>, addr: uint64)
    requires h != []
    ensures var g := h[..|h| - 1];
      Tracked(h, addr) <==> h[|h| - 1] == Touch(addr) || (Tracked(g, addr) && !TakesOut(h, |h| - 1, addr))
  {
    var g := h[..|h| - 1];
    if h[|h| - 1] != Touch(addr) {
      assert LastTouch(h, addr) == LastTouch(g, addr);
      forall k | 0 <= k < |g| ensures TakesOut(h, k, addr) == TakesOut(g, k, addr) {
        assert h[..k] == g[..k];
      }
    }
  }

  lemma {:induction false} WithoutMembers(order: seq<uint64>, addr: uint64, b: uint64)
    ensures b in Without(order, addr) <==> b in order && b != addr
  {
    if order != [] { WithoutMembers(order[1..], addr, b); }
  }

  /** Sorted by a rank, strictly descending. */
  ghost predicate Descending(h: seq<Event>, order: seq<uint64>) {
    forall i, j :: 0 <= i < j < |order| ==> LastTouch(h, order[i]) > LastTouch(h, order[j])
  }

  lemma {:induction false} WithoutKeepsDescending(h: seq<Event>, order: seq<uint64>, addr: uint64)
    requires Descending(h, order)
    ensures Descending(h, Without(order, addr))
  {
    if order != [] {
      WithoutKeepsDescending(h, order[1..], addr);
      var rest := Without(order[1..], addr);
      forall i | 0 <= i < |rest| ensures LastTouch(h, order[0]) > LastTouch(h, rest[i]) {
        WithoutMembers(order[1..], addr, rest[i]);
      }
    }
  }

  /**
   Over every history the tracker holds exactly the addresses touched and not taken out since, each once,
   in descending order of their last touch.
   */
  lemma {:induction false} OrderIsRecency(h: seq<Event>)
    ensures forall a :: a in OrderAfter(h) <==> Tracked(h, a)
    ensures Descending(h, OrderAfter(h))
    ensures Distinct(OrderAfter(h))
  {
    if h != [] {
      var g, e := h[..|h| - 1], h[|h| - 1];
      var before, after := OrderAfter(g), OrderAfter(h);
      OrderIsRecency(g);
      forall a ensures a in after <==> Tracked(h, a) {
        TrackedExtends(h, a);
        assert h[..|h| - 1] == g;
        if !e.Evict? { WithoutMembers(before, e.addr, a); }
      }
      if e.Touch? || e.Remove? {
        var rest := Without(before, e.addr);
        WithoutKeepsDescending(g, before, e.addr);
        forall i | 0 <= i < |rest| ensures LastTouch(h, rest[i]) == LastTouch(g, rest[i]) {
          WithoutMembers(before, e.addr, rest[i]);
        }
      }
    }
  }

  /** Evict returns the tracked address whose last touch is oldest. */
  lemma EvictReturnsOldest(h: seq<Event>, other: uint64)
    requires Tracked(h, other)
    ensures var v := Victim(OrderAfter(h));
      Tracked(h, v) && (other != v ==> LastTouch(h, v) < LastTouch(h, other))
  {
    OrderIsRecency(h);
    var order := OrderAfter(h);
    assert other in order;
    assert order[|order| - 1] in order;
  }

  /** A returned 0 says "nothing tracked" exactly when the page at address 0 is not the one evicted. */
  lemma ZeroIsAmbiguousOnlyForPageZero(h: seq<Event>)
    ensures Victim(OrderAfter(h)) == 0 <==>
              (forall a :: !Tracked(h, a)) ||
                            (Tracked(h, 0) && forall a :: Tracked(h, a) && a != 0 ==> LastTouch(h, 0) < LastTouch(h, a))
  {
    OrderIsRecency(h);
    var order := OrderAfter(h);
    if order != [] {
      var v := Victim(order);
      assert v in order;
      if v != 0 && Tracked(h, 0) { EvictReturnsOldest(h, 0); }
      if v == 0 {
        forall a | Tracked(h, a) && a != 0 ensures LastTouch(h, 0) < LastTouch(h, a) { EvictReturnsOldest(h, a); }
      }
    } else {
      forall a ensures !Tracked(h, a) { assert a !in order; }
    }
  }

  function TouchFirst(n: nat): (h: seq<Event>)
    requires n <= POW64
    ensures |h| == n
  {
    if n == 0 then [] else TouchFirst(n - 1) + [Touch(n - 1)]
  }

  /** Nothing bounds the tracker but the number of addresses: its capacity does not. */
  lemma {:induction false} TrackerGrowsWithoutBound(n: nat)
    requires n <= POW64
    ensures |OrderAfter(TouchFirst(n))| == n && forall a :: a in OrderAfter(TouchFirst(n)) ==> a < n
  {
    if n > 0 {
      TrackerGrowsWithoutBound(n - 1);
      assert TouchFirst(n)[..n - 1] == TouchFirst(n - 1);
      var before := OrderAfter(TouchFirst(n - 1));
      WithoutAbsent(before, n - 1);
      hide Without, LastTouch, TakesOut;
      assert OrderAfter(TouchFirst(n)) == [n - 1] + before;
    }
  }

  // ---------------------------------------------------------------- batches

  /** The part of an order that a batch does not touch, in its order. */
  function Untouched(order: seq<uint64>, pages: seq<uint64>): seq<uint64> {
    if order == [] then []
    else if order[0] in pages then Untouched(order[1..], pages)
    else [order[0]] + Untouched(order[1..], pages)
  }

  /** Where a page last occurs in a batch. */
  function LastUse(pages: seq<uint64>, page: uint64): (t: int)
    ensures -1 <= t < |pages|
    ensures t >= 0 ==> pages[t] == page
    ensures forall k :: t < k < |pages| ==> pages[k] != page
  {
    if pages == [] then -1
    else if pages[|pages| - 1] == page then |pages| - 1
    else LastUse(pages[..|pages| - 1], page)
  }

  ghost predicate MostRecentFirst(pages: seq<uint64>, front: seq<uint64>) {
    && (forall a :: a in front <==> a in pages)
    && (forall i, j :: 0 <= i < j < |front| ==> LastUse(pages, front[i]) > LastUse(pages, front[j]))
  }

  lemma {:induction false} WithoutConcat(a: seq<uint64>, b: seq<uint64>, page: uint64)
    ensures Without(a + b, page) == Without(a, page) + Without(b, page)
  {
    if a == [] {
      assert a + b == b;
    } else {
      assert (a + b)[1..] == a[1..] + b;
      WithoutConcat(a[1..], b, page);
    }
  }

  lemma {:induction false} UntouchedExtends(order: seq<uint64>, pages: seq<uint64>)
    requires pages != []
    ensures Untouched(order, pages) == Without(Untouched(order, pages[..|pages| - 1]), pages[|pages| - 1])
  {
    if order != [] {
      UntouchedExtends(order[1..], pages);
      var g, last := pages[..|pages| - 1], pages[|pages| - 1];
      assert order[0] in pages <==> order[0] in g || order[0] == last;
      var u := Untouched(order[1..], g);
      assert ([order[0]] + u)[1..] == u;
    }
  }

  lemma WithoutKeepsRecent(pages: seq<uint64>, front: seq<uint64>)
    requires pages != [] && MostRecentFirst(pages[..|pages| - 1], front)
    ensures MostRecentFirst(pages, [pages[|pages| - 1]] + Without(front, pages[|pages| - 1]))
  {
    var g, last := pages[..|pages| - 1], pages[|pages| - 1];
    WithoutKeepsRanks(g, front, last);
    var rest := Without(front, last);
    var all := [last] + rest;
    forall a ensures a in all <==> a in pages {
      WithoutMembers(front, last, a);
      assert a in pages <==> a in g || a == last;
      assert a in all <==> a == last || a in rest;
    }
    forall i | 0 <= i < |rest| ensures LastUse(pages, rest[i]) == LastUse(g, rest[i]) {
      WithoutMembers(front, last, rest[i]);
    }
  }

  lemma {:induction false} WithoutKeepsRanks(g: seq<uint64>, front: seq<uint64>, page: uint64)
    requires forall i, j :: 0 <= i < j < |front| ==> LastUse(g, front[i]) > LastUse(g, front[j])
    ensures var rest := Without(front, page);
      forall i, j :: 0 <= i < j < |rest| ==> LastUse(g, rest[i]) > LastUse(g, rest[j])
  {
    if front != [] {
      WithoutKeepsRanks(g, front[1..], page);
      var rest := Without(front[1..], page);
      forall i | 0 <= i < |rest| ensures LastUse(g, front[0]) > LastUse(g, rest[i]) {
        WithoutMembers(front[1..], page, rest[i]);
      }
    }
  }

  /**
   A launch moves its distinct pages to the front, the one used last first, and leaves the other pages
   behind them in the order they had.
   */
  lemma {:induction false} BatchMovesPagesToFront(order: seq<uint64>, pages: seq<uint64>) returns (front: seq<uint64>)
    ensures TouchAll(order, pages) == front + Untouched(order, pages)
    ensures MostRecentFirst(pages, front)
  {
    if pages == [] {
      front := [];
      UntouchedByNone(order);
    } else {
      var g, last := pages[..|pages| - 1], pages[|pages| - 1];
      var f := BatchMovesPagesToFront(order, g);
      WithoutConcat(f, Untouched(order, g), last);
      UntouchedExtends(order, pages);
      WithoutKeepsRecent(pages, f);
      front := [last] + Without(f, last);
      assert front + Untouched(order, pages) == [last] + (Without(f, last) + Untouched(order, pages));
    }
  }

  lemma UntouchedByNone(order: seq<uint64>)
    ensures Untouched(order, []) == order
  {}
}
