/** The bounded queue between application and worker threads, as a double-ended sequence with a full
    policy, in its two memory modes. */
module QueueSpec {
  import opened Words

  const MAX_MSG_SIZE := 9216

  /** `sizeof(rel4u_mpmc_node_t)` on a 64-bit target. */
  const NODE_SIZE := 32

  datatype QItem = QItem(clientId: u32, mode: u8, data: seq<u8>)

  /** What an item buffer holds before anything is popped into it. */
  const UNSET := QItem(0, 0, [])

  /** `Fixed` bounds the number of items, `Dynamic` the bytes of their nodes. */
  datatype Store = Fixed(capacity: nat) | Dynamic(maxBytes: nat)

  const DEFAULT_MAX_BYTES := 1048576

  /** A byte limit of zero asks for the default. */
  function Sized(store: Store): (store': Store) {
    if store == Dynamic(0) then Dynamic(DEFAULT_MAX_BYTES) else store
  }

  datatype Policy = DropNew | DropLast

  datatype End = Front | Back

  datatype Queue = Queue(store: Store, policy: Policy, items: seq<QItem>, dropped: nat)

  datatype Pushed = Pushed(q: Queue, ok: bool)

  function Size(x: QItem): (n: nat) {
    NODE_SIZE + |x.data|
  }

  function Bytes(items: seq<QItem>): (n: nat) {
    if items == [] then 0 else Size(items[0]) + Bytes(items[1..])
  }

  predicate Legal(x: QItem) {
    |x.data| <= MAX_MSG_SIZE
  }

  /** The bound of the memory mode. */
  predicate Within(store: Store, items: seq<QItem>) {
    match store
    case Fixed(capacity) => |items| <= capacity
    case Dynamic(maxBytes) => Bytes(items) <= maxBytes
  }

  ghost predicate Ok(q: Queue) {
    && Within(q.store, q.items)
    && (q.store.Fixed? ==> q.store.capacity >= 2)
    && forall i | 0 <= i < |q.items| :: Legal(q.items[i])
  }

  function Start(store: Store, policy: Policy): (q: Queue) {
    Queue(store, policy, [], 0)
  }

  function Add<T>(items: seq<T>, x: T, end: End): (items': seq<T>) {
    match end
    case Front => [x] + items
    case Back => items + [x]
  }

  /** Items from the oldest on are evicted until x fits beside the rest. */
  function MakeRoom(store: Store, items: seq<QItem>, x: QItem): (rest: seq<QItem>)
    ensures |rest| <= |items|
  {
    if items == [] || Within(store, items + [x]) then items else MakeRoom(store, items[1..], x)
  }

  /** The queue cut down to `rest`, with the rest of its items counted as dropped. */
  function Evicted(q: Queue, rest: seq<QItem>): (q': Queue)
    requires |rest| <= |q.items|
  {
    q.(items := rest, dropped := q.dropped + |q.items| - |rest|)
  }

  /** A loop that has cut `q` down to `now` is on its way to making room for x. */
  ghost predicate EvictingFor(q: Queue, now: Queue, x: QItem) {
    && |now.items| <= |q.items| && now == Evicted(q, now.items)
    && MakeRoom(q.store, now.items, x) == MakeRoom(q.store, q.items, x)
  }

  lemma EvictStep(q: Queue, now: Queue, x: QItem)
    requires EvictingFor(q, now, x) && now.items != [] && !Within(q.store, now.items + [x])
    ensures EvictingFor(q, now.(items := now.items[1..], dropped := now.dropped + 1), x)
  {
  }

  /** A push at either end.  `memory` says whether an allocation succeeds, which matters only in the
      dynamic mode; a malloc failure comes after the evictions and loses them as well. */
  function Push(q: Queue, x: QItem, end: End, memory: bool): (p: Pushed) {
    if !Legal(x) then Pushed(q, false)
    else if !Within(q.store, [x]) then Pushed(q.(dropped := q.dropped + 1), false)
    else if q.policy == DropNew && !Within(q.store, q.items + [x]) then Pushed(q.(dropped := q.dropped + 1), false)
    else
      var q' := Evicted(q, MakeRoom(q.store, q.items, x));
      if q.store.Dynamic? && !memory then Pushed(q'.(dropped := q'.dropped + 1), false)
      else Pushed(q'.(items := Add(q'.items, x, end)), true)
  }

  datatype Popped = Empty | Got(q: Queue, x: QItem)

  function Pop(q: Queue): (p: Popped) {
    if q.items == [] then Empty else Got(q.(items := q.items[1..]), q.items[0])
  }

  // ------------------------------------------------------------ bytes

  /** The payload bytes of some items. */
  function PayloadTotal(items: seq<QItem>): (n: nat) {
    if items == [] then 0 else |items[0].data| + PayloadTotal(items[1..])
  }

  /** A node takes 32 bytes and its payload, so that is what the byte limit bounds. */
  lemma {:induction false} BytesMeaning(items: seq<QItem>)
    ensures Bytes(items) == 32 * |items| + PayloadTotal(items)
  {
    if items != [] { BytesMeaning(items[1..]); }
  }

  /** The bound of either mode in plain numbers. */
  lemma BoundMeaning(q: Queue)
    requires Ok(q)
    ensures q.store.Fixed? ==> |q.items| <= q.store.capacity
    ensures q.store.Dynamic? ==> 32 * |q.items| + PayloadTotal(q.items) <= q.store.maxBytes
    ensures forall i | 0 <= i < |q.items| :: |q.items[i].data| <= 9216
  {
    BytesMeaning(q.items);
  }

  /** Which pushes evict: with `total` bytes queued, exactly those for which the total, the node and the
      payload together exceed the limit; and a payload above 9216 bytes is refused in either mode. */
  lemma DynamicRoom(q: Queue, x: QItem, end: End, memory: bool)
    requires q.store.Dynamic?
    ensures Within(q.store, q.items + [x]) <==>
            32 * |q.items| + PayloadTotal(q.items) + 32 + |x.data| <= q.store.maxBytes
    ensures |x.data| > 9216 ==> Push(q, x, end, memory) == Pushed(q, false)
  {
    BytesMeaning(q.items);
    BytesConcat(q.items, [x]);
    BytesMeaning([x]);
  }

  lemma {:induction false} BytesConcat(a: seq<QItem>, b: seq<QItem>)
    ensures Bytes(a + b) == Bytes(a) + Bytes(b)
  {
    if a == [] {
      assert a + b == b;
    } else {
      assert (a + b)[1..] == a[1..] + b;
      BytesConcat(a[1..], b);
    }
  }

  lemma BytesAdd(items: seq<QItem>, x: QItem, end: End)
    ensures Bytes(Add(items, x, end)) == Bytes(items) + Size(x)
  {
    BytesConcat([x], items);
    BytesConcat(items, [x]);
    assert Bytes([x]) == Size(x);
  }

  lemma WithinAdd(store: Store, items: seq<QItem>, x: QItem, end: End)
    ensures Within(store, Add(items, x, end)) <==> Within(store, items + [x])
  {
    BytesAdd(items, x, end);
    BytesAdd(items, x, Back);
  }

  // ------------------------------------------------------------ eviction

  /** Eviction takes the shortest sufficient prefix of oldest items and nothing else. */
  lemma {:induction false} EvictsShortestPrefix(store: Store, items: seq<QItem>, x: QItem) returns (k: nat)
    requires Within(store, [x])
    ensures k <= |items| && MakeRoom(store, items, x) == items[k..]
    ensures Within(store, items[k..] + [x])
    ensures forall j: nat | j < k :: !Within(store, items[j..] + [x])
    decreases |items|
  {
    if items == [] {
      k := 0;
      assert [] + [x] == [x];
    } else if Within(store, items + [x]) {
      k := 0;
      assert items[0..] == items;
    } else {
      var k' := EvictsShortestPrefix(store, items[1..], x);
      k := k' + 1;
      assert items[k..] == items[1..][k'..];
      forall j: nat | j < k ensures !Within(store, items[j..] + [x]) {
        if j == 0 {
          assert items[0..] == items;
        } else {
          assert items[j..] == items[1..][j - 1..];
        }
      }
    }
  }

  /** A full fixed queue gives up exactly its head. */
  lemma FixedEviction(q: Queue, x: QItem)
    requires Ok(q) && q.store.Fixed?
    ensures MakeRoom(q.store, q.items, x) == if |q.items| < q.store.capacity then q.items else q.items[1..]
  {
    if |q.items| == q.store.capacity {
      assert Within(q.store, q.items[1..] + [x]);
    }
  }

  // ------------------------------------------------------------ one push

  lemma PushOk(q: Queue, x: QItem, end: End, memory: bool)
    requires Ok(q)
    ensures Ok(Push(q, x, end, memory).q)
  {
    if Within(q.store, [x]) {
      var k := EvictsShortestPrefix(q.store, q.items, x);
      WithinAdd(q.store, q.items[k..], x, end);
      SuffixWithin(q.store, q.items, k);
    }
  }

  lemma AddOk(q: Queue, x: QItem, end: End)
    requires Ok(q) && Legal(x) && Within(q.store, q.items + [x])
    ensures Ok(q.(items := Add(q.items, x, end)))
    ensures Bytes(Add(q.items, x, end)) == Bytes(q.items) + Size(x)
  {
    BytesAdd(q.items, x, end);
    WithinAdd(q.store, q.items, x, end);
  }

  lemma {:induction false} SuffixWithin(store: Store, items: seq<QItem>, k: nat)
    requires k <= |items| && Within(store, items)
    ensures Within(store, items[k..])
  {
    assert items == items[..k] + items[k..];
    BytesConcat(items[..k], items[k..]);
  }

  /** Conservation, one push at a time: a legal item ends up queued or counted as dropped, and so does
      everything it displaces. */
  lemma PushConserves(q: Queue, x: QItem, end: End, memory: bool)
    requires Legal(x)
    ensures var q' := Push(q, x, end, memory).q;
            |q'.items| + q'.dropped == |q.items| + q.dropped + 1
  {
  }

  /** DROP_LAST refuses a legal item only when it could never fit or memory runs out; and an accepted
      item is at the end it was pushed to. */
  lemma DropLastAccepts(q: Queue, x: QItem, end: End, memory: bool)
    requires Ok(q) && q.policy == DropLast && Legal(x)
    ensures Push(q, x, end, memory).ok <==> Within(q.store, [x]) && (q.store.Fixed? || memory)
    ensures Push(q, x, end, memory).ok ==>
              var items := Push(q, x, end, memory).q.items;
              |items| > 0 && (if end == Front then items[0] else items[|items| - 1]) == x
  {
  }

  /** An item that fits is placed without loss, under either policy. */
  lemma FittingPush(q: Queue, x: QItem, end: End)
    requires Ok(q) && Legal(x) && Within(q.store, q.items + [x])
    ensures Push(q, x, end, true) == Pushed(q.(items := Add(q.items, x, end)), true)
  {
    assert Within(q.store, [x]) by { BytesConcat(q.items, [x]); }
  }

  /** Room and memory for x beside everything queued. */
  predicate TakesOneMore(q: Queue, x: QItem, memory: bool) {
    Legal(x) && Within(q.store, q.items + [x]) && (q.store.Fixed? || memory)
  }

  /** A push makes the queue longer exactly when it displaces nothing. */
  lemma PushGrowth(q: Queue, x: QItem, end: End, memory: bool)
    ensures
      var q' := Push(q, x, end, memory).q;
      |q'.items| <= |q.items| + 1 && (|q'.items| == |q.items| + 1 <==> TakesOneMore(q, x, memory))
  {
    BytesConcat(q.items, [x]);
  }

  // ------------------------------------------------------------ runs

  datatype Op = PushOp(x: QItem, end: End, memory: bool) | PopOp

  /** A queue with the legal items offered to it and the items popped from it since it was made. */
  datatype Tally = Tally(q: Queue, offered: seq<QItem>, popped: seq<QItem>)

  function Do(t: Tally, op: Op): (t': Tally) {
    match op
    case PushOp(x, end, memory) =>
      t.(q := Push(t.q, x, end, memory).q, offered := if Legal(x) then t.offered + [x] else t.offered)
    case PopOp =>
      match Pop(t.q)
      case Empty => t
      case Got(q, x) => t.(q := q, popped := t.popped + [x])
  }

  function DoAll(t: Tally, ops: seq<Op>): (t': Tally) {
    if ops == [] then t else Do(DoAll(t, ops[..|ops| - 1]), ops[|ops| - 1])
  }

  /** Everything a new queue went through. */
  function History(store: Store, policy: Policy, ops: seq<Op>): (t: Tally) {
    DoAll(Tally(Start(store, policy), [], []), ops)
  }

  /** In every reachable state of either mode and policy: offered = popped + queued + dropped, and the
      bound of the mode holds. */
  lemma {:induction false} Conservation(store: Store, policy: Policy, ops: seq<Op>)
    requires store.Fixed? ==> store.capacity >= 2
    ensures var t := History(store, policy, ops);
            |t.offered| == |t.popped| + |t.q.items| + t.q.dropped && Ok(t.q)
    decreases |ops|
  {
    Counted(store, policy, ops);
    if ops != [] {
      Conservation(store, policy, ops[..|ops| - 1]);
      var t := History(store, policy, ops[..|ops| - 1]);
      match ops[|ops| - 1]
      case PushOp(x, end, memory) => PushOk(t.q, x, end, memory);
      case PopOp =>
        if t.q.items != [] { SuffixWithin(t.q.store, t.q.items, 1); }
    }
  }

  // ------------------------------------------------------------ order

  /** `a` is what is left of b after striking out some elements. */
  ghost predicate Subsequence(a: seq<QItem>, b: seq<QItem>) {
    exists at: seq<nat> :: Places(a, b, at)
  }

  ghost predicate Places(a: seq<QItem>, b: seq<QItem>, at: seq<nat>) {
    && |at| == |a|
    && (forall i | 0 <= i < |at| :: at[i] < |b| && b[at[i]] == a[i])
    && (forall i, j | 0 <= i < j < |at| :: at[i] < at[j])
  }

  /** Pushes at the back only, as the workers feed the application's queue. */
  ghost predicate BackOnly(ops: seq<Op>) {
    forall i | 0 <= i < |ops| :: ops[i].PushOp? ==> ops[i].end == Back
  }

  /** A push at the back keeps a suffix of what was queued, and adds the item only if it is accepted. */
  lemma PushBackKeeps(q: Queue, x: QItem, memory: bool) returns (k: nat)
    ensures
      var p := Push(q, x, Back, memory);
      && k <= |q.items| && p.q.items == q.items[k..] + (if p.ok then [x] else [])
      && (Legal(x) ==> (p.q.dropped == q.dropped <==> k == 0 && p.ok)) && p.q.dropped >= q.dropped
      && (!Legal(x) ==> p == Pushed(q, false))
  {
    k := 0;
    if Legal(x) && Within(q.store, [x]) && (q.policy == DropLast || Within(q.store, q.items + [x])) {
      k := RoomSuffix(q.store, q.items, x);
    }
  }

  lemma {:induction false} RoomSuffix(store: Store, items: seq<QItem>, x: QItem) returns (k: nat)
    ensures k <= |items| && MakeRoom(store, items, x) == items[k..]
  {
    if items == [] || Within(store, items + [x]) {
      k := 0;
    } else {
      k := RoomSuffix(store, items[1..], x);
      k := k + 1;
    }
  }

  /** Whatever the pushes displaced, what was popped and what is queued are what was offered, in its
      order, with some items struck out. */
  lemma {:induction false} NeverReordered(store: Store, policy: Policy, ops: seq<Op>) returns (at: seq<nat>)
    requires BackOnly(ops)
    ensures var t := History(store, policy, ops); Places(t.popped + t.q.items, t.offered, at)
    decreases |ops|
  {
    at := [];
    if ops != [] {
      var init, last := ops[..|ops| - 1], ops[|ops| - 1];
      at := NeverReordered(store, policy, init);
      var t := History(store, policy, init);
      match last
      case PopOp => if t.q.items != [] { assert t.popped + t.q.items == t.popped + [t.q.items[0]] + t.q.items[1..]; }
      case PushOp(x, end, memory) =>
        assert ops[|ops| - 1].end == Back;
        at := PlacesAfterPush(t, x, memory, at);
    }
  }

  lemma StrikeOut(a: seq<QItem>, items: seq<QItem>, k: nat, b: seq<QItem>, at: seq<nat>)
    requires k <= |items| && Places(a + items, b, at)
    ensures Places(a + items[k..], b, at[..|a|] + at[|a| + k..])
  {
    var n, kept := |a|, at[..|a|] + at[|a| + k..];
    forall i | 0 <= i < |kept| ensures kept[i] < |b| && b[kept[i]] == (a + items[k..])[i] {
      var j := if i < n then i else i + k;
      assert kept[i] == at[j] && (a + items[k..])[i] == (a + items)[j];
    }
  }

  lemma AddOneMore(a: seq<QItem>, b: seq<QItem>, x: QItem, at: seq<nat>)
    requires Places(a, b, at)
    ensures Places(a, b + [x], at) && Places(a + [x], b + [x], at + [|b|])
  {
  }

  lemma PlacesOneMore(a: seq<QItem>, items: seq<QItem>, b: seq<QItem>, x: QItem, at: seq<nat>, ok: bool)
    returns (at': seq<nat>)
    requires Places(a + items, b, at)
    ensures Places(a + (items + (if ok then [x] else [])), b + [x], at')
  {
    AddOneMore(a + items, b, x, at);
    Assoc(a, items, [x]);
    assert items + [] == items;
    at' := if ok then at + [|b|] else at;
  }

  lemma PlacesAfterPush(t: Tally, x: QItem, memory: bool, at: seq<nat>) returns (at': seq<nat>)
    requires Places(t.popped + t.q.items, t.offered, at)
    ensures var t' := Do(t, PushOp(x, Back, memory)); Places(t'.popped + t'.q.items, t'.offered, at')
  {
    var k := PushBackKeeps(t.q, x, memory);
    at' := at;
    if Legal(x) {
      StrikeOut(t.popped, t.q.items, k, t.offered, at);
      at' := PlacesOneMore(t.popped, t.q.items[k..], t.offered, x, at[..|t.popped|] + at[|t.popped| + k..],
                           Push(t.q, x, Back, memory).ok);
    }
  }

  /** The application gets everything that was offered, in order, exactly when nothing was dropped. */
  lemma {:induction false} NothingDroppedIff(store: Store, policy: Policy, ops: seq<Op>)
    requires BackOnly(ops)
    ensures var t := History(store, policy, ops); t.popped + t.q.items == t.offered <==> t.q.dropped == 0
    decreases |ops|
  {
    Counted(store, policy, ops);
    if ops != [] {
      var init, last := ops[..|ops| - 1], ops[|ops| - 1];
      NothingDroppedIff(store, policy, init);
      var t := History(store, policy, init);
      match last
      case PopOp => if t.q.items != [] { assert t.popped + t.q.items == t.popped + [t.q.items[0]] + t.q.items[1..]; }
      case PushOp(x, end, memory) =>
        assert ops[|ops| - 1].end == Back;
        var k := PushBackKeeps(t.q, x, memory);
        Assoc(t.popped, t.q.items, [x]);
    }
  }

  /** Every legal item offered found room and memory in the queue as it was then. */
  ghost predicate AlwaysRoom(store: Store, policy: Policy, ops: seq<Op>) {
    forall i | 0 <= i < |ops| :: RoomFor(store, policy, ops, i)
  }

  ghost predicate RoomFor(store: Store, policy: Policy, ops: seq<Op>, i: nat)
    requires i < |ops|
  {
    ops[i].PushOp? && Legal(ops[i].x) ==> TakesOneMore(History(store, policy, ops[..i]).q, ops[i].x, ops[i].memory)
  }

  lemma RoomForInit(store: Store, policy: Policy, ops: seq<Op>)
    requires ops != []
    ensures AlwaysRoom(store, policy, ops) <==>
            AlwaysRoom(store, policy, ops[..|ops| - 1]) && RoomFor(store, policy, ops, |ops| - 1)
  {
    var init := ops[..|ops| - 1];
    forall i | 0 <= i < |init| ensures RoomFor(store, policy, ops, i) <==> RoomFor(store, policy, init, i) {
      assert init[..i] == ops[..i];
    }
    if AlwaysRoom(store, policy, init) && RoomFor(store, policy, ops, |ops| - 1) {
      forall i | 0 <= i < |ops| ensures RoomFor(store, policy, ops, i) {
        if i < |init| { assert RoomFor(store, policy, init, i); }
      }
    }
    if AlwaysRoom(store, policy, ops) {
      forall i | 0 <= i < |init| ensures RoomFor(store, policy, init, i) {
        assert RoomFor(store, policy, ops, i);
      }
    }
  }

  /** A push drops nothing exactly when the item finds room and memory, which can be seen beforehand. */
  lemma PushDrops(q: Queue, x: QItem, end: End, memory: bool)
    ensures
      var q' := Push(q, x, end, memory).q;
      q'.dropped >= q.dropped && (q'.dropped == q.dropped <==> !Legal(x) || TakesOneMore(q, x, memory))
  {
    PushGrowth(q, x, end, memory);
    if Legal(x) { PushConserves(q, x, end, memory); }
  }

  /** The drop count is zero exactly when every push found room. */
  lemma {:induction false} NothingDroppedIffRoom(store: Store, policy: Policy, ops: seq<Op>)
    ensures History(store, policy, ops).q.dropped == 0 <==> AlwaysRoom(store, policy, ops)
    decreases |ops|
  {
    if ops != [] {
      var init, last := ops[..|ops| - 1], ops[|ops| - 1];
      NothingDroppedIffRoom(store, policy, init);
      RoomForInit(store, policy, ops);
      if last.PushOp? { PushDrops(History(store, policy, init).q, last.x, last.end, last.memory); }
    }
  }

  lemma {:induction false} Counted(store: Store, policy: Policy, ops: seq<Op>)
    ensures var t := History(store, policy, ops); |t.offered| == |t.popped| + |t.q.items| + t.q.dropped
    decreases |ops|
  {
    if ops != [] {
      Counted(store, policy, ops[..|ops| - 1]);
      var t := History(store, policy, ops[..|ops| - 1]);
      match ops[|ops| - 1]
      case PushOp(x, end, memory) => if Legal(x) { PushConserves(t.q, x, end, memory); }
      case PopOp =>
    }
  }
}
