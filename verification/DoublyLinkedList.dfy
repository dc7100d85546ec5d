/**
  The heap doubly linked list of src/lib/doubly_linked_list.c.  A list is known only through
  its elements; `nodes` is the ghost sequence of elements it consists of.
*/
module DoublyLinkedList {

  class Element {
    var data: int          // the identity of the data pointer
    var prev: Element?
    var next: Element?

    constructor (data: int)
      ensures this.data == data && prev == null && next == null
    {
      this.data, prev, next := data, null, null;
    }
  }

  ghost function Before(nodes: seq<Element>, i: int): Element? {
    if 0 < i <= |nodes| then nodes[i - 1] else null
  }

  ghost function Behind(nodes: seq<Element>, i: int): Element? {
    if 0 <= i < |nodes| - 1 then nodes[i + 1] else null
  }

  /** Forward and backward links describe the same sequence of distinct elements. */
  ghost predicate IsList(nodes: seq<Element>)
    reads nodes
  {
    && (forall i {:trigger nodes[i].prev} :: 0 <= i < |nodes| ==> nodes[i].prev == Before(nodes, i))
    && (forall i {:trigger nodes[i].next} :: 0 <= i < |nodes| ==> nodes[i].next == Behind(nodes, i))
    && (forall i, j :: 0 <= i < j < |nodes| ==> nodes[i] != nodes[j])
  }

  method CreateDlist() returns (e: Element)
    ensures fresh(e) && IsList([e])
  {
    e := new Element(0);
  }

  /** The links after `e` was put in front of position `k`. */
  ghost predicate PutInto(nodes: seq<Element>, e: Element, k: nat)
    requires k <= |nodes|
    reads nodes, e
  {
    && e !in nodes && (forall i, j :: 0 <= i < j < |nodes| ==> nodes[i] != nodes[j])
    && e.prev == Before(nodes, k) && e.next == (if k < |nodes| then nodes[k] else null)
    && (forall i {:trigger nodes[i].prev} :: 0 <= i < |nodes| ==>
          nodes[i].prev == if i == k then e else Before(nodes, i))
    && (forall i {:trigger nodes[i].next} :: 0 <= i < |nodes| ==>
          nodes[i].next == if i == k - 1 then e else Behind(nodes, i))
  }

  lemma PutIntoIsList(nodes: seq<Element>, e: Element, k: nat)
    requires k <= |nodes| && PutInto(nodes, e, k)
    ensures IsList(nodes[..k] + [e] + nodes[k..])
  {
    var all := nodes[..k] + [e] + nodes[k..];
    forall i | 0 <= i < |all| ensures all[i].prev == Before(all, i) && all[i].next == Behind(all, i) {
      var j := if i < k then i else i - 1;
      assert i != k ==> all[i] == nodes[j];
      assert i + 1 < |all| ==> all[i + 1] == if i + 1 < k then nodes[i + 1] else if i + 1 == k then e else nodes[i];
    }
    forall i, j | 0 <= i < j < |all| ensures all[i] != all[j] {
      assert j != k ==> all[j] == nodes[if j < k then j else j - 1];
      assert i != k ==> all[i] == nodes[if i < k then i else i - 1];
    }
  }

  method InsertBefore(element: Element, data: int, ghost nodes: seq<Element>, ghost k: nat) returns (e: Element)
    requires IsList(nodes) && k < |nodes| && nodes[k] == element
    modifies element, element.prev
    ensures fresh(e) && e.data == data
    ensures IsList(nodes[..k] + [e] + nodes[k..])
    ensures forall x :: x in nodes ==> x.data == old(x.data)
  {
    e := new Element(data);
    if element.prev != null {
      e.prev := element.prev;
      element.prev.next := e;
    }
    element.prev := e;
    e.next := element;
    PutIntoIsList(nodes, e, k);
  }

  method InsertAfter(element: Element, data: int, ghost nodes: seq<Element>, ghost k: nat) returns (e: Element)
    requires IsList(nodes) && k < |nodes| && nodes[k] == element
    modifies element, element.next
    ensures fresh(e) && e.data == data
    ensures IsList(nodes[..k + 1] + [e] + nodes[k + 1..])
    ensures forall x :: x in nodes ==> x.data == old(x.data)
  {
    e := new Element(data);
    if element.next != null {
      e.next := element.next;
      element.next.prev := e;
    }
    element.next := e;
    e.prev := element;
    PutIntoIsList(nodes, e, k + 1);
  }

  method GetFirst(element: Element, ghost nodes: seq<Element>, ghost k: nat) returns (e: Element)
    requires IsList(nodes) && k < |nodes| && nodes[k] == element
    ensures e == nodes[0]
  {
    e := element;
    ghost var i := k;
    while e.prev != null
      invariant 0 <= i < |nodes| && e == nodes[i]
      decreases i
    {
      e := e.prev;
      i := i - 1;
    }
  }

  method GetLast(element: Element, ghost nodes: seq<Element>, ghost k: nat) returns (e: Element)
    requires IsList(nodes) && k < |nodes| && nodes[k] == element
    ensures e == nodes[|nodes| - 1]
  {
    e := element;
    ghost var i := k;
    while e.next != null
      invariant 0 <= i < |nodes| && e == nodes[i]
      decreases |nodes| - i
    {
      e := e.next;
      i := i + 1;
    }
  }

  /** `e` is the match nearest to position `k`, looking forward first and then backward. */
  ghost predicate FoundFrom(nodes: seq<Element>, k: nat, data: int, e: Element?)
    requires k < |nodes|
    reads nodes
  {
    if e == null then forall i :: 0 <= i < |nodes| ==> nodes[i].data != data
    else
      || (exists m :: k <= m < |nodes| && nodes[m] == e && e.data == data
            && forall i :: k <= i < m ==> nodes[i].data != data)
      || (exists m :: 0 <= m < k && nodes[m] == e && e.data == data
            && forall i :: m < i < |nodes| ==> nodes[i].data != data)
  }

  method Find(element: Element, data: int, ghost nodes: seq<Element>, ghost k: nat) returns (e: Element?)
    requires IsList(nodes) && k < |nodes| && nodes[k] == element
    ensures FoundFrom(nodes, k, data, e)
    ensures e == null <==> forall i :: 0 <= i < |nodes| ==> nodes[i].data != data
    ensures e != null ==> e in nodes && e.data == data
  {
    e := element;
    ghost var i: int := k;
    while e != null
      invariant k <= i <= |nodes|
      invariant e == if i < |nodes| then nodes[i] else null
      invariant forall j :: k <= j < i ==> nodes[j].data != data
      decreases |nodes| - i
    {
      if e.data == data {
        return;
      }
      e := e.next;
      i := i + 1;
    }
    e := element.prev;
    i := k - 1;
    while e != null
      invariant -1 <= i < k
      invariant e == if i >= 0 then nodes[i] else null
      invariant forall j :: i < j < |nodes| ==> nodes[j].data != data
      decreases i + 1
    {
      if e.data == data {
        return;
      }
      e := e.prev;
      i := i - 1;
    }
  }

  /** The element itself is released; its neighbours are joined. */
  method DeleteElement(element: Element, ghost nodes: seq<Element>, ghost k: nat) returns (ok: bool)
    requires IsList(nodes) && k < |nodes| && nodes[k] == element
    modifies element.prev, element.next
    ensures ok
    ensures IsList(nodes[..k] + nodes[k + 1..])
    ensures forall x :: x in nodes ==> x.data == old(x.data)
  {
    if element.prev != null {
      element.prev.next := element.next;
    }
    if element.next != null {
      element.next.prev := element.prev;
    }
    ok := true;
  }

  /** What delete_dlist does to the elements while it releases them. */
  datatype Access = Read(e: Element) | Release(e: Element)

  /** Every element of the list is released, once, and none is touched after its release. */
  ghost predicate CleanRelease(trace: seq<Access>, nodes: seq<Element>) {
    && (forall k :: 0 <= k < |nodes| ==> Release(nodes[k]) in trace)
    && (forall i :: 0 <= i < |trace| ==> trace[i].e in nodes)
    && (forall i, j :: 0 <= i < j < |trace| && trace[i].Release? ==> trace[i].e != trace[j].e)
  }

  /** Read an element's link, release the element, and so on. */
  ghost function ReleaseInOrder(nodes: seq<Element>): (trace: seq<Access>)
    ensures |trace| == 2 * |nodes|
  {
    if nodes == [] then []
    else ReleaseInOrder(nodes[..|nodes| - 1]) + [Read(nodes[|nodes| - 1]), Release(nodes[|nodes| - 1])]
  }

  lemma {:induction false} AccessAt(nodes: seq<Element>, i: nat)
    requires i < 2 * |nodes|
    ensures ReleaseInOrder(nodes)[i] == if i % 2 == 0 then Read(nodes[i / 2]) else Release(nodes[i / 2])
  {
    var n := |nodes| - 1;
    if i < 2 * n { AccessAt(nodes[..n], i); }
  }

  lemma InOrderIsClean(nodes: seq<Element>)
    requires forall i, j :: 0 <= i < j < |nodes| ==> nodes[i] != nodes[j]
    ensures CleanRelease(ReleaseInOrder(nodes), nodes)
  {
    hide ReleaseInOrder;
    var trace := ReleaseInOrder(nodes);
    forall k | 0 <= k < |nodes| ensures Release(nodes[k]) in trace {
      AccessAt(nodes, 2 * k + 1);
      assert trace[2 * k + 1] == Release(nodes[k]);
    }
    forall i | 0 <= i < |trace| ensures trace[i].e in nodes {
      AccessAt(nodes, i);
    }
    forall i, j | 0 <= i < j < |trace| && trace[i].Release? ensures trace[i].e != trace[j].e {
      AccessAt(nodes, i);
      AccessAt(nodes, j);
      assert i / 2 < j / 2;
    }
  }

  /** Every element is released exactly once, first to last, and none is read after that.  The
      walk to the first element comes before any release. */
  method DeleteDlist(element: Element, ghost nodes: seq<Element>, ghost k: nat)
    returns (ok: bool, ghost trace: seq<Access>)
    requires IsList(nodes) && k < |nodes| && nodes[k] == element
    ensures ok && trace == ReleaseInOrder(nodes) && CleanRelease(trace, nodes)
  {
    var e: Element? := GetFirst(element, nodes, k);
    ghost var n := 0;
    trace := [];
    while e != null
      invariant 0 <= n <= |nodes| && trace == ReleaseInOrder(nodes[..n])
      invariant e == if n < |nodes| then nodes[n] else null
      decreases |nodes| - n
    {
      var deleteMe := e;
      trace := trace + [Read(e)];
      e := e.next;
      trace := trace + [Release(deleteMe)];
      assert nodes[..n + 1][..n] == nodes[..n];
      n := n + 1;
    }
    assert nodes[..n] == nodes;
    InOrderIsClean(nodes);
    ok := true;
  }

  // -------------------------------------------------------------- whole histories

  datatype Op = PutBefore(k: nat, data: int) | PutAfter(k: nat, data: int) | Drop(k: nat)

  predicate Legal(n: nat, op: Op) {
    op.k < n
  }

  /** The operation on the plain sequence of data. */
  function Edit(ds: seq<int>, op: Op): (r: seq<int>)
    requires Legal(|ds|, op)
    ensures |r| == if op.Drop? then |ds| - 1 else |ds| + 1
  {
    match op
    case PutBefore(k, x) => ds[..k] + [x] + ds[k..]
    case PutAfter(k, x) => ds[..k + 1] + [x] + ds[k + 1..]
    case Drop(k) => ds[..k] + ds[k + 1..]
  }

  ghost predicate Holds(nodes: seq<Element>, ds: seq<int>)
    reads nodes
  {
    |ds| == |nodes| && forall i :: 0 <= i < |nodes| ==> nodes[i].data == ds[i]
  }

  lemma Neighbours(nodes: seq<Element>, k: nat)
    requires IsList(nodes) && k < |nodes|
    ensures nodes[k].prev == null || nodes[k].prev in nodes
    ensures nodes[k].next == null || nodes[k].next in nodes
  {
  }

  lemma DataInserted(nodes: seq<Element>, ds: seq<int>, e: Element, k: nat)
    requires Holds(nodes, ds) && k <= |nodes|
    ensures Holds(nodes[..k] + [e] + nodes[k..], ds[..k] + [e.data] + ds[k..])
  {
  }

  lemma DataDropped(nodes: seq<Element>, ds: seq<int>, k: nat)
    requires Holds(nodes, ds) && k < |nodes|
    ensures Holds(nodes[..k] + nodes[k + 1..], ds[..k] + ds[k + 1..])
  {
  }

  /** The elements after an operation: all others keep their identity and their place. */
  ghost predicate Rearranged(nodes: seq<Element>, op: Op, nodes': seq<Element>)
    requires Legal(|nodes|, op)
  {
    match op
    case PutBefore(k, _) => |nodes'| == |nodes| + 1 && nodes'[..k] == nodes[..k] && nodes'[k + 1..] == nodes[k..]
    case PutAfter(k, _) => |nodes'| == |nodes| + 1 && nodes'[..k + 1] == nodes[..k + 1]
          && nodes'[k + 2..] == nodes[k + 1..]
    case Drop(k) => nodes' == nodes[..k] + nodes[k + 1..]
  }

  method PutInFront(nodes: seq<Element>, k: nat, x: int, ghost ds: seq<int>) returns (nodes': seq<Element>)
    requires IsList(nodes) && Holds(nodes, ds) && k < |nodes|
    modifies nodes
    ensures IsList(nodes') && Holds(nodes', Edit(ds, PutBefore(k, x))) && Rearranged(nodes, PutBefore(k, x), nodes')
    ensures fresh(nodes'[k])
  {
    hide IsList;
    Neighbours(nodes, k);
    var e := InsertBefore(nodes[k], x, nodes, k);
    assert Holds(nodes, ds);
    DataInserted(nodes, ds, e, k);
    nodes' := nodes[..k] + [e] + nodes[k..];
  }

  method PutBehind(nodes: seq<Element>, k: nat, x: int, ghost ds: seq<int>) returns (nodes': seq<Element>)
    requires IsList(nodes) && Holds(nodes, ds) && k < |nodes|
    modifies nodes
    ensures IsList(nodes') && Holds(nodes', Edit(ds, PutAfter(k, x))) && Rearranged(nodes, PutAfter(k, x), nodes')
    ensures fresh(nodes'[k + 1])
  {
    hide IsList;
    Neighbours(nodes, k);
    var e := InsertAfter(nodes[k], x, nodes, k);
    assert Holds(nodes, ds);
    DataInserted(nodes, ds, e, k + 1);
    nodes' := nodes[..k + 1] + [e] + nodes[k + 1..];
  }

  method TakeOut(nodes: seq<Element>, k: nat, ghost ds: seq<int>) returns (nodes': seq<Element>)
    requires IsList(nodes) && Holds(nodes, ds) && k < |nodes|
    modifies nodes
    ensures IsList(nodes') && Holds(nodes', Edit(ds, Drop(k))) && Rearranged(nodes, Drop(k), nodes')
  {
    hide IsList;
    Neighbours(nodes, k);
    var _ := DeleteElement(nodes[k], nodes, k);
    assert Holds(nodes, ds);
    DataDropped(nodes, ds, k);
    nodes' := nodes[..k] + nodes[k + 1..];
  }

  /** The place of a new element, if there is one. */
  function NewPlace(op: Op): int {
    match op
    case PutBefore(k, _) => k
    case PutAfter(k, _) => k + 1
    case Drop(_) => -1
  }

  lemma OthersAreOld(nodes: seq<Element>, op: Op, nodes': seq<Element>)
    requires Legal(|nodes|, op) && Rearranged(nodes, op, nodes')
    ensures forall i :: 0 <= i < |nodes'| && i != NewPlace(op) ==> nodes'[i] in nodes
  {
    forall i | 0 <= i < |nodes'| && i != NewPlace(op) ensures nodes'[i] in nodes {
      var p := NewPlace(op);
      if op.Drop? {
        assert nodes'[i] == nodes[if i < op.k then i else i + 1];
      } else if i < p {
        assert nodes'[i] == nodes'[..p][i] == nodes[..p][i];
      } else {
        assert nodes'[i] == nodes'[p + 1..][i - p - 1] == nodes[p..][i - p - 1];
      }
    }
  }

  /** One operation at any position edits the sequence there and nowhere else. */
  method Perform(nodes: seq<Element>, op: Op, ghost ds: seq<int>) returns (nodes': seq<Element>)
    requires IsList(nodes) && Holds(nodes, ds) && Legal(|nodes|, op)
    modifies nodes
    ensures IsList(nodes') && Holds(nodes', Edit(ds, op)) && Rearranged(nodes, op, nodes')
    ensures forall i :: 0 <= i < |nodes'| ==> nodes'[i] in nodes || fresh(nodes'[i])
  {
    hide IsList, Holds, Edit, Rearranged;
    match op {
      case PutBefore(k, x) => nodes' := PutInFront(nodes, k, x, ds);
      case PutAfter(k, x) => nodes' := PutBehind(nodes, k, x, ds);
      case Drop(k) => nodes' := TakeOut(nodes, k, ds);
    }
    OthersAreOld(nodes, op, nodes');
  }

  ghost predicate AllLegal(n: nat, ops: seq<Op>)
    decreases |ops|
  {
    ops == [] ||
    (Legal(n, ops[0]) && AllLegal(if ops[0].Drop? then n - 1 else n + 1, ops[1..]))
  }

  ghost function EditAll(ds: seq<int>, ops: seq<Op>): seq<int>
    requires AllLegal(|ds|, ops)
    decreases |ops|
  {
    if ops == [] then ds else EditAll(Edit(ds, ops[0]), ops[1..])
  }

  /** Any history of insertions and deletions leaves a well-linked list whose data is what the
      same history makes of a plain sequence. */
  method Replay(nodes: seq<Element>, ops: seq<Op>, ghost ds: seq<int>) returns (nodes': seq<Element>)
    requires IsList(nodes) && Holds(nodes, ds) && AllLegal(|nodes|, ops)
    modifies nodes
    ensures IsList(nodes') && Holds(nodes', EditAll(ds, ops))
    decreases |ops|
  {
    hide IsList, Edit;
    nodes' := nodes;
    if ops != [] {
      var edited := Perform(nodes, ops[0], ds);
      nodes' := Replay(edited, ops[1..], Edit(ds, ops[0]));
    }
  }
}
