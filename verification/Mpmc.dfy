/** The queue as the C code keeps it: a ring of preallocated items, or a doubly linked list of nodes
    with byte accounting. */
module Mpmc {
  import opened Words
  import opened QueueSpec

  // ------------------------------------------------------------ the ring

  /** Where the i-th queued item lies in a ring of `cap` cells whose head is at h. */
  function Cell(h: nat, i: nat, cap: nat): (k: nat)
    requires h < cap && i <= cap
    ensures k < cap
  {
    if h + i < cap then h + i else h + i - cap
  }

  lemma StepIndex(h: nat, cap: nat)
    requires h < cap
    ensures (h + 1) % cap == Cell(h, 1, cap)
  {
    if h + 1 == cap { DivModUnique(cap, cap, 1, 0); } else { DivModUnique(h + 1, cap, 0, h + 1); }
  }

  ghost predicate RingHas(ring: seq<QItem>, h: nat, items: seq<QItem>) {
    && h < |ring| && |items| <= |ring|
    && forall i | 0 <= i < |items| :: ring[Cell(h, i, |ring|)] == items[i]
  }

  lemma RingDropHead(ring: seq<QItem>, h: nat, items: seq<QItem>)
    requires RingHas(ring, h, items) && items != []
    ensures RingHas(ring, Cell(h, 1, |ring|), items[1..])
    ensures Cell(Cell(h, 1, |ring|), |items| - 1, |ring|) == Cell(h, |items|, |ring|)
    ensures ring[h] == items[0]
  {
    assert ring[Cell(h, 0, |ring|)] == items[0];
    forall i | 0 <= i < |items| - 1 ensures ring[Cell(Cell(h, 1, |ring|), i, |ring|)] == items[1..][i] {
      assert ring[Cell(h, i + 1, |ring|)] == items[i + 1];
    }
  }

  lemma RingAddBack(ring: seq<QItem>, h: nat, items: seq<QItem>, x: QItem)
    requires RingHas(ring, h, items) && |items| < |ring|
    ensures RingHas(ring[Cell(h, |items|, |ring|) := x], h, items + [x])
    ensures Cell(Cell(h, |items|, |ring|), 1, |ring|) == Cell(h, |items| + 1, |ring|)
  {
  }

  function Before(h: nat, cap: nat): (h': nat)
    requires h < cap
    ensures h' < cap
  {
    if h == 0 then cap - 1 else h - 1
  }

  lemma CellFromBefore(h: nat, i: nat, cap: nat)
    requires h < cap && 0 < i <= cap
    ensures Cell(Before(h, cap), i, cap) == Cell(h, i - 1, cap)
    ensures i < cap ==> Cell(Before(h, cap), i, cap) != Before(h, cap)
  {
  }

  lemma RingAddFront(ring: seq<QItem>, h: nat, items: seq<QItem>, x: QItem)
    requires RingHas(ring, h, items) && |items| < |ring|
    ensures RingHas(ring[Before(h, |ring|) := x], Before(h, |ring|), [x] + items)
    ensures Cell(Before(h, |ring|), |items| + 1, |ring|) == Cell(h, |items|, |ring|)
  {
    var h' := Before(h, |ring|);
    CellFromBefore(h, |items| + 1, |ring|);
    forall i | 0 <= i < |items| + 1 ensures ring[h' := x][Cell(h', i, |ring|)] == ([x] + items)[i] {
      if i > 0 {
        CellFromBefore(h, i, |ring|);
        assert ring[Cell(h, i - 1, |ring|)] == items[i - 1];
      }
    }
  }

  // ------------------------------------------------------------ the list

  class Node {
    const item: QItem
    const allocatedSize: nat
    var prev: Node?
    var next: Node?

    constructor (item: QItem, prev: Node?, next: Node?)
      ensures this.item == item && allocatedSize == Size(item) && this.prev == prev && this.next == next
    {
      this.item, allocatedSize, this.prev, this.next := item, Size(item), prev, next;
    }
  }

  /** The node before or after position i, null past either end. */
  ghost function At(nodes: seq<Node>, i: int): (n: Node?) {
    if 0 <= i < |nodes| then nodes[i] else null
  }

  ghost predicate Linked(nodes: seq<Node>)
    reads nodes
  {
    && (forall i, j | 0 <= i < j < |nodes| :: nodes[i] != nodes[j])
    && (forall i {:trigger nodes[i].prev} | 0 <= i < |nodes| :: nodes[i].prev == At(nodes, i - 1))
    && (forall i {:trigger nodes[i].next} | 0 <= i < |nodes| :: nodes[i].next == At(nodes, i + 1))
  }

  ghost predicate Carries(nodes: seq<Node>, items: seq<QItem>) {
    && |nodes| == |items|
    && forall i | 0 <= i < |nodes| :: nodes[i].item == items[i] && nodes[i].allocatedSize == Size(items[i])
  }

  /** With the first node gone, the second, if any, has no predecessor. */
  method DetachHead(second: Node?, ghost nodes: seq<Node>)
    requires Linked(nodes) && nodes != [] && second == At(nodes, 1)
    modifies nodes
    ensures Linked(nodes[1..])
  {
    if second != null {
      second.prev := null;
    }
  }

  /** Hang a node behind the last one. */
  method AttachBack(last: Node?, node: Node, ghost nodes: seq<Node>)
    requires Linked(nodes) && last == At(nodes, |nodes| - 1)
    requires (forall i | 0 <= i < |nodes| :: nodes[i] != node) && node.prev == last && node.next == null
    modifies nodes
    ensures Linked(nodes + [node])
  {
    if last != null {
      last.next := node;
    }
  }

  /** Hang a node before the first one. */
  method AttachFront(first: Node?, node: Node, ghost nodes: seq<Node>)
    requires Linked(nodes) && first == At(nodes, 0)
    requires (forall i | 0 <= i < |nodes| :: nodes[i] != node) && node.prev == null && node.next == first
    modifies nodes
    ensures Linked([node] + nodes)
  {
    if first != null {
      first.prev := node;
    }
  }

  // ------------------------------------------------------------ the queue

  class Mpmc {
    const store: Store
    const policy: Policy
    const ring: array<QItem>
    var head: nat
    var tail: nat
    var nodeHead: Node?
    var nodeTail: Node?
    var count: nat
    var currentBytes: nat
    var droppedCount: nat
    ghost var nodes: seq<Node>
    ghost var chained: seq<QItem>
    ghost var Repr: set<object>
    ghost var q: Queue

    ghost predicate Valid()
      reads this, Repr
    {
      && this in Repr && ring in Repr
      && Ok(q) && q.store == store && q.policy == policy
      && count == |q.items| && droppedCount == q.dropped
      && if store.Fixed? then RingValid() else ListValid()
    }

    ghost predicate ListValid()
      reads this, Repr
    {
      ChainValid() && chained == q.items && currentBytes == Bytes(q.items)
    }

    ghost predicate RingValid()
      requires store.Fixed?
      reads this, ring
    {
      && ring.Length == store.capacity
      && RingHas(ring[..], head, q.items)
      && tail == Cell(head, |q.items|, ring.Length)
    }

    /** The nodes from head to tail carry `chained`. */
    ghost predicate ChainValid()
      reads this`Repr, this`nodes, this`chained, this`nodeHead, this`nodeTail, Repr
    {
      && (forall i | 0 <= i < |nodes| :: nodes[i] in Repr)
      && Linked(nodes) && Carries(nodes, chained)
      && nodeHead == At(nodes, 0) && nodeTail == At(nodes, |nodes| - 1)
    }

    constructor (store: Store, policy: Policy, filler: QItem)
      requires store.Fixed? ==> store.capacity >= 2
      ensures Valid() && fresh(Repr) && q == Start(Sized(store), policy)
      ensures this.store == if store == Dynamic(0) then Dynamic(1048576) else store
    {
      this.store, this.policy := if store == Dynamic(0) then Dynamic(DEFAULT_MAX_BYTES) else store, policy;
      var cells := if store.Fixed? then store.capacity else 0;
      ring := new QItem[cells](_ => filler);
      head, tail, nodeHead, nodeTail, count, currentBytes, droppedCount := 0, 0, null, null, 0, 0, 0;
      nodes, chained, q := [], [], Start(Sized(store), policy);
      Repr := {this, ring};
    }

    /** In dynamic mode `current_bytes` is 32 bytes per queued item and all their payloads, never more than
        the limit. */
    lemma BytesInUse()
      requires Valid() && store.Dynamic?
      ensures currentBytes == 32 * |q.items| + PayloadTotal(q.items) <= store.maxBytes
    {
      BytesMeaning(q.items);
    }

    /** Advance the head of a non-empty ring. */
    method DropRingHead()
      requires Valid() && store.Fixed? && q.items != []
      modifies this
      ensures Valid() && Repr == old(Repr) && q == old(q).(items := old(q).items[1..])
    {
      RingDropHead(ring[..], head, q.items);
      StepIndex(head, ring.Length);
      head := (head + 1) % ring.Length;
      count := count - 1;
      q := q.(items := q.items[1..]);
    }

    /** Unlink the head node of a non-empty list. */
    method UnlinkHead()
      requires Valid() && store.Dynamic? && q.items != []
      modifies Repr
      ensures Valid() && Repr == old(Repr) && q == old(q).(items := old(q).items[1..])
    {
      var size := nodeHead.allocatedSize;
      SuffixWithin(q.store, q.items, 1);
      ChainWithoutHead();
      currentBytes := currentBytes - size;
      count := count - 1;
      q := q.(items := q.items[1..]);
    }

    method ChainWithoutHead()
      requires ChainValid() && chained != []
      modifies this`nodeHead, this`nodeTail, this`nodes, this`chained, nodes
      ensures ChainValid() && chained == old(chained)[1..]
    {
      ghost var was := nodes;
      nodeHead := nodeHead.next;
      if nodeHead == null {
        nodeTail := null;
      }
      nodes, chained := nodes[1..], chained[1..];
      DetachHead(nodeHead, was);
    }

    /** Link a new node at either end. */
    method LinkAt(x: QItem, end: End)
      requires Valid() && store.Dynamic? && Legal(x) && Within(store, q.items + [x])
      modifies Repr
      ensures Valid() && fresh(Repr - old(Repr)) && q == old(q).(items := Add(old(q).items, x, end))
    {
      ChainNew(x, end);
      Account(x, end);
    }

    /** Bytes, count and contents once the chain holds the new node. */
    method Account(x: QItem, end: End)
      requires this in Repr && ring in Repr && store.Dynamic? && Legal(x) && Within(store, q.items + [x])
      requires Ok(q) && q.store == store && q.policy == policy
      requires count == |q.items| && droppedCount == q.dropped && currentBytes == Bytes(q.items)
      requires ChainValid() && chained == Add(q.items, x, end)
      modifies this`currentBytes, this`count, this`q
      ensures Valid() && q == old(q).(items := Add(old(q).items, x, end))
    {
      AddOk(q, x, end);
      currentBytes := currentBytes + Size(x);
      count := count + 1;
      q := q.(items := Add(q.items, x, end));
    }

    method ChainNew(x: QItem, end: End)
      requires ChainValid()
      modifies this`nodeHead, this`nodeTail, this`nodes, this`chained, this`Repr, nodes
      ensures ChainValid() && fresh(Repr - old(Repr)) && old(Repr) <= Repr && chained == Add(old(chained), x, end)
    {
      match end {
        case Back => ChainBack(x);
        case Front => ChainFront(x);
      }
    }

    method ChainBack(x: QItem)
      requires ChainValid()
      modifies this`nodeHead, this`nodeTail, this`nodes, this`chained, this`Repr, nodes
      ensures ChainValid() && fresh(Repr - old(Repr)) && old(Repr) <= Repr && chained == old(chained) + [x]
    {
      ghost var was := nodes;
      var last := nodeTail;
      var node := new Node(x, last, null);
      if last == null {
        nodeHead := node;
      }
      nodeTail := node;
      nodes, chained, Repr := nodes + [node], chained + [x], Repr + {node};
      AttachBack(last, node, was);
    }

    method ChainFront(x: QItem)
      requires ChainValid()
      modifies this`nodeHead, this`nodeTail, this`nodes, this`chained, this`Repr, nodes
      ensures ChainValid() && fresh(Repr - old(Repr)) && old(Repr) <= Repr && chained == [x] + old(chained)
    {
      ghost var was := nodes;
      var first := nodeHead;
      var node := new Node(x, null, first);
      if first == null {
        nodeTail := node;
      }
      nodeHead := node;
      nodes, chained, Repr := [node] + nodes, [x] + chained, Repr + {node};
      AttachFront(first, node, was);
    }

    method PlaceBack(x: QItem)
      requires Valid() && store.Fixed? && Legal(x) && |q.items| < store.capacity
      modifies Repr
      ensures Valid() && Repr == old(Repr) && q == old(q).(items := old(q).items + [x])
    {
      AddOk(q, x, Back);
      RingAddBack(ring[..], head, q.items, x);
      StepIndex(tail, ring.Length);
      ring[tail] := x;
      tail := (tail + 1) % ring.Length;
      count := count + 1;
      q := q.(items := q.items + [x]);
    }

    method PlaceFront(x: QItem)
      requires Valid() && store.Fixed? && Legal(x) && |q.items| < store.capacity
      modifies Repr
      ensures Valid() && Repr == old(Repr) && q == old(q).(items := [x] + old(q).items)
    {
      AddOk(q, x, Front);
      RingAddFront(ring[..], head, q.items, x);
      var h := if head == 0 then ring.Length - 1 else head - 1;
      ring[h] := x;
      assert ring[..] == old(ring[..])[h := x];
      head := h;
      count := count + 1;
      q := q.(items := [x] + q.items);
    }

    /** Count one item as dropped. */
    method CountDrop()
      requires Valid()
      modifies this`droppedCount, this`q
      ensures Valid() && q == old(q).(dropped := old(q).dropped + 1)
    {
      droppedCount := droppedCount + 1;
      q := q.(dropped := q.dropped + 1);
    }

    /** Push at either end of the fixed ring. */
    method PushFixed(x: QItem, end: End) returns (ok: bool)
      requires Valid() && store.Fixed?
      modifies Repr
      ensures Valid() && Repr == old(Repr)
      ensures Pushed(q, ok) == Push(old(q), x, end, true)
    {
      if |x.data| > MAX_MSG_SIZE { return false; }
      FixedEviction(q, x);
      if count >= store.capacity {
        if policy == DropLast {
          DropRingHead();
          CountDrop();
        } else {
          CountDrop();
          return false;
        }
      }
      match end {
        case Back => PlaceBack(x);
        case Front => PlaceFront(x);
      }
      ok := true;
    }

    /** Push at either end of the list; `memory` is the fate of the allocation. */
    method PushDynamic(x: QItem, end: End, memory: bool) returns (ok: bool)
      requires Valid() && store.Dynamic?
      modifies Repr
      ensures Valid() && fresh(Repr - old(Repr))
      ensures Pushed(q, ok) == Push(old(q), x, end, memory)
    {
      if |x.data| > MAX_MSG_SIZE { return false; }
      var needed := NODE_SIZE + |x.data|;
      assert Bytes([x]) == needed by { BytesAdd([], x, Back); }
      if needed > store.maxBytes {
        CountDrop();
        return false;
      }
      var fits := EvictFor(x);
      if !fits {
        CountDrop();
        return false;
      }
      if !memory {
        CountDrop();
        return false;
      }
      LinkAt(x, end);
      ok := true;
    }

    /** The eviction loop; false when the policy forbids evicting. */
    method EvictFor(x: QItem) returns (fits: bool)
      requires Valid() && store.Dynamic? && Size(x) <= store.maxBytes
      modifies Repr
      ensures Valid() && Repr == old(Repr)
      ensures fits <==> policy == DropLast || Within(store, old(q).items + [x])
      ensures fits ==> Within(store, q.items + [x])
      ensures q == if fits then Evicted(old(q), MakeRoom(store, old(q).items, x)) else old(q)
    {
      BytesAdd(q.items, x, Back);
      while currentBytes + Size(x) > store.maxBytes
        invariant Valid() && Repr == old(Repr)
        invariant Bytes(q.items + [x]) == currentBytes + Size(x)
        invariant policy == DropNew ==> q == old(q)
        invariant EvictingFor(old(q), q, x)
        decreases |q.items|
      {
        if policy == DropLast && nodeHead != null {
          EvictStep(old(q), q, x);
          UnlinkHead();
          CountDrop();
          BytesAdd(q.items, x, Back);
        } else {
          return false;
        }
      }
      fits := true;
    }

    /** `mpmc_push_back_locked` and `mpmc_push_front_locked`. */
    method PushAt(x: QItem, end: End, memory: bool) returns (ok: bool)
      requires Valid()
      modifies Repr
      ensures Valid() && fresh(Repr - old(Repr))
      ensures Pushed(q, ok) == Push(old(q), x, end, memory)
    {
      if store.Fixed? {
        ok := PushFixed(x, end);
      } else {
        ok := PushDynamic(x, end, memory);
      }
    }

    /** `mpmc_pop_head_locked`; `x` is left at `unset` when the queue is empty. */
    method TryPop(unset: QItem) returns (ok: bool, x: QItem)
      requires Valid()
      modifies Repr
      ensures Valid() && Repr == old(Repr)
      ensures match Pop(old(q))
              case Empty => !ok && x == unset && q == old(q)
              case Got(q', x') => ok && x == x' && q == q'
    {
      if count == 0 { return false, unset; }
      if store.Fixed? {
        RingDropHead(ring[..], head, q.items);
        x := ring[head];
        DropRingHead();
      } else {
        x := nodeHead.item;
        UnlinkHead();
      }
      ok := true;
    }
  }
}
