/** LRUTracker: a doubly-linked list of pages, most recent first, with a map from page to list element. */
module Lru {
  import opened UInt64

  // ---------------------------------------------------------------- the order, as a sequence

  function Without(order: seq<uint64>, addr: uint64): seq<uint64> {
    if order == [] then []
    else if order[0] == addr then Without(order[1..], addr)
    else [order[0]] + Without(order[1..], addr)
  }

  predicate Distinct(order: seq<uint64>) {
    forall i, j :: 0 <= i < j < |order| ==> order[i] != order[j]
  }

  function Touched(order: seq<uint64>, addr: uint64): seq<uint64> {
    [addr] + Without(order, addr)
  }

  /** What Evict returns: the last element, or 0 when nothing is tracked. */
  function Victim(order: seq<uint64>): uint64 {
    if order == [] then 0 else order[|order| - 1]
  }

  function Evicted(order: seq<uint64>): seq<uint64> {
    if order == [] then [] else order[..|order| - 1]
  }

  lemma {:induction false} WithoutCutsOne(order: seq<uint64>, k: nat)
    requires Distinct(order) && k < |order|
    ensures Without(order, order[k]) == order[..k] + order[k + 1..]
  {
    var rest := order[1..];
    if k == 0 {
      WithoutAbsent(rest, order[0]);
    } else {
      WithoutCutsOne(rest, k - 1);
      calc {
        Without(order, order[k]);
        [order[0]] + Without(rest, rest[k - 1]);
        [order[0]] + (rest[..k - 1] + rest[k..]);
        order[..k] + order[k + 1..];
      }
    }
  }

  lemma WithoutAbsent(order: seq<uint64>, addr: uint64)
    requires addr !in order
    ensures Without(order, addr) == order
  {}

  // ---------------------------------------------------------------- the linked list

  class Element {
    const addr: uint64
    var prev: Element?
    var next: Element?

    constructor (addr: uint64)
      ensures this.addr == addr
    {
      this.addr := addr;
    }
  }

  ghost function Addrs(nodes: seq<Element>): (r: seq<uint64>)
    ensures |r| == |nodes| && forall i :: 0 <= i < |r| ==> r[i] == nodes[i].addr
  {
    seq(|nodes|, i requires 0 <= i < |nodes| => nodes[i].addr)
  }

  /** Map and list agree: each listed element is the one its address maps to, and nothing else is mapped. */
  ghost predicate Indexed(items: map<uint64, Element>, nodes: seq<Element>) {
    && (forall i :: 0 <= i < |nodes| ==> nodes[i].addr in items && items[nodes[i].addr] == nodes[i])
    && (forall a :: a in items ==> items[a] in nodes && items[a].addr == a)
  }

  predicate Unique(nodes: seq<Element>) {
    forall i, j :: 0 <= i < j < |nodes| ==> nodes[i] != nodes[j]
  }

  function Cut(nodes: seq<Element>, k: nat): seq<Element>
    requires k < |nodes|
  {
    nodes[..k] + nodes[k + 1..]
  }

  lemma IndexedMeansAgreement(items: map<uint64, Element>, nodes: seq<Element>)
    requires Indexed(items, nodes) && Unique(nodes)
    ensures Distinct(Addrs(nodes))
    ensures forall a :: a in items <==> a in Addrs(nodes)
  {
    forall i, j | 0 <= i < j < |nodes| ensures nodes[i].addr != nodes[j].addr {
      assert items[nodes[i].addr] == nodes[i] && items[nodes[j].addr] == nodes[j];
    }
    forall a | a in items ensures a in Addrs(nodes) {
      var k :| 0 <= k < |nodes| && nodes[k] == items[a];
      assert Addrs(nodes)[k] == a;
    }
  }

  lemma IndexedCut(items: map<uint64, Element>, nodes: seq<Element>, k: nat)
    requires Indexed(items, nodes) && Unique(nodes) && k < |nodes|
    ensures Indexed(items - {nodes[k].addr}, Cut(nodes, k))
  {
    var rest := Cut(nodes, k);
    forall a | a in items && a != nodes[k].addr ensures items[a] in rest {
      var j :| 0 <= j < |nodes| && nodes[j] == items[a];
      assert rest[if j < k then j else j - 1] == items[a];
    }
    forall i | 0 <= i < |rest|
      ensures rest[i].addr in items && items[rest[i].addr] == rest[i] && rest[i].addr != nodes[k].addr {
      assert rest[i] == nodes[if i < k then i else i + 1];
    }
  }

  lemma IndexedPush(items: map<uint64, Element>, nodes: seq<Element>, el: Element)
    requires Indexed(items, nodes) && el.addr !in items
    ensures Indexed(items[el.addr := el], [el] + nodes)
  {
    var more := [el] + nodes;
    assert more[0] == el;
    forall a | a in items ensures items[a] in more {
      var j :| 0 <= j < |nodes| && nodes[j] == items[a];
      assert more[j + 1] == items[a];
    }
  }

  /** Finding the element of a tracked address, and what taking it out or moving it to the front does. */
  lemma Find(items: map<uint64, Element>, nodes: seq<Element>, addr: uint64) returns (k: nat)
    requires Indexed(items, nodes) && Unique(nodes) && addr in items
    ensures k < |nodes| && nodes[k] == items[addr]
    ensures Indexed(items - {addr}, Cut(nodes, k))
    ensures Addrs(Cut(nodes, k)) == Without(Addrs(nodes), addr)
  {
    hide Without, Unique, Cut;
    k :| 0 <= k < |nodes| && nodes[k] == items[addr];
    IndexedMeansAgreement(items, nodes);
    AddrsOfCut(nodes, k);
    IndexedCut(items, nodes, k);
  }

  lemma AddrsOfCut(nodes: seq<Element>, k: nat)
    requires k < |nodes| && Distinct(Addrs(nodes))
    ensures Addrs(Cut(nodes, k)) == Without(Addrs(nodes), nodes[k].addr)
  {
    hide Without, Distinct;
    WithoutCutsOne(Addrs(nodes), k);
  }

  lemma Untracked(items: map<uint64, Element>, nodes: seq<Element>, addr: uint64)
    requires Indexed(items, nodes) && Unique(nodes) && addr !in items
    ensures Without(Addrs(nodes), addr) == Addrs(nodes)
  {
    IndexedMeansAgreement(items, nodes);
    WithoutAbsent(Addrs(nodes), addr);
  }

  lemma AddrsPush(el: Element, nodes: seq<Element>)
    ensures Addrs([el] + nodes) == [el.addr] + Addrs(nodes)
  {}

  lemma CutWithin(nodes: seq<Element>, k: nat)
    requires k < |nodes|
    ensures forall n :: n in Cut(nodes, k) ==> n in nodes
    ensures forall i :: 0 <= i < |Cut(nodes, k)| ==> Cut(nodes, k)[i] in nodes
  {}

  lemma CutLast(nodes: seq<Element>)
    requires nodes != []
    ensures var n := |nodes| - 1;
      && Addrs(Cut(nodes, n)) == Evicted(Addrs(nodes)) && nodes[n].addr == Victim(Addrs(nodes))
      && forall e :: e in Cut(nodes, n) ==> e in nodes
  {}

  lemma Moved(items: map<uint64, Element>, nodes: seq<Element>, k: nat)
    requires Indexed(items, nodes) && k < |nodes| && Indexed(items - {nodes[k].addr}, Cut(nodes, k))
    ensures Indexed(items, [nodes[k]] + Cut(nodes, k)) && nodes[k] !in Cut(nodes, k)
  {
    var el := nodes[k];
    IndexedPush(items - {el.addr}, Cut(nodes, k), el);
    assert (items - {el.addr})[el.addr := el] == items;
  }

  class LRUTracker {
    var front: Element?
    var back: Element?
    var len: nat
    var items: map<uint64, Element>
    const capacity: nat // sizes the map when it is made; nothing else reads it
    ghost var nodes: seq<Element>

    /** `front`, `back` and the elements' links spell out `nodes`. */
    ghost predicate Linked()
      reads this, nodes
    {
      && len == |nodes|
      && (nodes == [] ==> front == null && back == null)
      && (nodes != [] ==> front == nodes[0] && back == nodes[|nodes| - 1]
                          && nodes[0].prev == null && nodes[|nodes| - 1].next == null)
      && (forall i {:trigger nodes[i].prev} :: 1 <= i < |nodes| ==> nodes[i].prev == nodes[i - 1])
      && (forall i {:trigger nodes[i].next} :: 0 <= i < |nodes| - 1 ==> nodes[i].next == nodes[i + 1])
      && Unique(nodes)
    }

    ghost predicate Valid()
      reads this, nodes
    {
      Linked() && Indexed(items, nodes)
    }

    ghost function Order(): seq<uint64>
      reads this
    {
      Addrs(nodes)
    }

    constructor (capacity: nat)
      ensures Valid() && Order() == []
    {
      front, back, len, items, nodes := null, null, 0, map[], [];
      this.capacity := capacity;
    }

    method Unlink(el: Element, ghost k: nat)
      requires Linked() && k < |nodes| && nodes[k] == el
      modifies this`front, this`back, this`len, this`nodes, nodes
      ensures Linked() && nodes == Cut(old(nodes), k)
    {
      if el.prev != null { el.prev.next := el.next; } else { front := el.next; }
      if el.next != null { el.next.prev := el.prev; } else { back := el.prev; }
      len := len - 1;
      nodes := Cut(nodes, k);
    }

    method LinkFront(el: Element)
      requires Linked() && el !in nodes
      modifies this`front, this`back, this`len, this`nodes, nodes, el
      ensures Linked() && nodes == [el] + old(nodes)
    {
      el.prev, el.next := null, front;
      if front != null { front.prev := el; } else { back := el; }
      front := el;
      len := len + 1;
      nodes := [el] + nodes;
    }

    method MoveToFront(el: Element, ghost k: nat)
      requires Valid() && k < |nodes| && nodes[k] == el && Indexed(items - {el.addr}, Cut(nodes, k))
      modifies this`front, this`back, this`len, this`nodes, nodes
      ensures Valid() && nodes == [el] + Cut(old(nodes), k)
    {
      hide Indexed, Cut;
      CutWithin(nodes, k);
      Moved(items, nodes, k);
      Unlink(el, k);
      LinkFront(el);
    }

    method PushFront(el: Element)
      requires Valid() && el.addr !in items
      modifies this, nodes, el
      ensures Valid() && nodes == [el] + old(nodes)
    {
      IndexedPush(items, nodes, el);
      LinkFront(el);
      items := items[el.addr := el];
    }

    method Touch(addr: uint64)
      requires Valid()
      modifies this, nodes
      ensures Valid() && Order() == Touched(old(Order()), addr)
      ensures forall n :: n in nodes && n !in old(nodes) ==> fresh(n)
    {
      if addr in items {
        ghost var k := Find(items, nodes, addr);
        AddrsPush(items[addr], Cut(nodes, k));
        CutWithin(nodes, k);
        MoveToFront(items[addr], k);
      } else {
        Untracked(items, nodes, addr);
        var el := new Element(addr);
        AddrsPush(el, nodes);
        PushFront(el);
      }
    }

    method Forget(addr: uint64)
      requires Linked()
      modifies this`items
      ensures Linked() && items == old(items) - {addr}
    {
      items := items - {addr};
    }

    method Evict() returns (victim: uint64)
      requires Valid()
      modifies this, nodes
      ensures Valid() && victim == Victim(old(Order())) && Order() == Evicted(old(Order()))
      ensures forall n :: n in nodes ==> n in old(nodes)
    {
      if back == null {
        return 0;
      }
      var el := back;
      hide Indexed, Evicted, Victim;
      CutLast(nodes);
      IndexedCut(items, nodes, |nodes| - 1);
      Unlink(el, |nodes| - 1);
      Forget(el.addr);
      return el.addr;
    }

    method Remove(addr: uint64)
      requires Valid()
      modifies this, nodes
      ensures Valid() && Order() == Without(old(Order()), addr)
      ensures forall n :: n in nodes ==> n in old(nodes)
    {
      if addr in items {
        var el := items[addr];
        ghost var k := Find(items, nodes, addr);
        Unlink(el, k);
        Forget(addr);
      } else {
        Untracked(items, nodes, addr);
      }
    }

    method Len() returns (n: nat)
      requires Valid()
      ensures n == |Order()| == |items|
    {
      IndexedMeansAgreement(items, nodes);
      KeysAreOrder(items.Keys, Order());
      n := len;
    }
  }

  // ---------------------------------------------------------------- kernel launches

  const PAGE_SIZE: nat := 0x20_0000

  /** `addr &^ (PageSize - 1)`: clearing the low 21 bits. */
  function PageOf(addr: uint64): (page: uint64)
    ensures page % (2 * 1024 * 1024) == 0 && page <= addr < page + 2 * 1024 * 1024
  {
    addr - addr % PAGE_SIZE
  }

  function Pages(addrs: seq<uint64>): (r: seq<uint64>)
    ensures |r| == |addrs| && forall i :: 0 <= i < |r| ==> r[i] == PageOf(addrs[i])
  {
    if addrs == [] then [] else Pages(addrs[..|addrs| - 1]) + [PageOf(addrs[|addrs| - 1])]
  }

  function TouchAll(order: seq<uint64>, pages: seq<uint64>): seq<uint64> {
    if pages == [] then order
    else Touched(TouchAll(order, pages[..|pages| - 1]), pages[|pages| - 1])
  }

  method TouchPages(tracker: LRUTracker, addrs: seq<uint64>)
    requires tracker.Valid()
    modifies tracker, tracker.nodes
    ensures tracker.Valid() && tracker.Order() == TouchAll(old(tracker.Order()), Pages(addrs))
  {
    ghost var before := tracker.Order();
    for i := 0 to |addrs|
      invariant tracker.Valid()
      invariant forall n :: n in tracker.nodes && n !in old(tracker.nodes) ==> fresh(n)
      invariant tracker.Order() == TouchAll(before, Pages(addrs[..i]))
    {
      PagesExtend(addrs, i);
      tracker.Touch(PageOf(addrs[i]));
    }
    assert addrs[..|addrs|] == addrs;
  }

  lemma PagesExtend(addrs: seq<uint64>, i: nat)
    requires i < |addrs|
    ensures forall order: seq<uint64> ::
      TouchAll(order, Pages(addrs[..i + 1])) == Touched(TouchAll(order, Pages(addrs[..i])), PageOf(addrs[i]))
  {
    assert addrs[..i + 1][..i] == addrs[..i];
    var pages := Pages(addrs[..i + 1]);
    assert pages[..i] == Pages(addrs[..i]);
  }

  method OnCuLaunchKernel(tracker: LRUTracker?, addrs: seq<uint64>)
    requires tracker != null ==> tracker.Valid()
    modifies tracker, if tracker == null then [] else tracker.nodes
    ensures tracker != null ==> tracker.Valid() && tracker.Order() == TouchAll(old(tracker.Order()), Pages(addrs))
  {
    if tracker != null {
      TouchPages(tracker, addrs);
    }
  }

  lemma {:induction false} KeysAreOrder(keys: set<uint64>, order: seq<uint64>)
    requires Distinct(order) && forall a :: a in keys <==> a in order
    ensures |keys| == |order|
  {
    if order == [] {
      assert keys == {};
    } else {
      var last := order[|order| - 1];
      assert forall a :: a in order[..|order| - 1] <==> a in order && a != last;
      KeysAreOrder(keys - {last}, order[..|order| - 1]);
    }
  }
}
