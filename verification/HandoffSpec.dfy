/** Messages moving between the send queue and the send window: the drain into the window and the
    reconnect-time reclaim out of it. */
module HandoffSpec {
  import opened Words
  import opened SeqNum
  import S = SendSpec
  import Q = QueueSpec

  // ------------------------------------------------------------ drain

  /** The window, its unreliable counter, the queue and the packets sent so far. */
  datatype Draining = Draining(snd: S.Sender, unrel: u32, q: Q.Queue, sent: seq<(u32, S.Msg)>)

  function MsgOf(x: Q.QItem): (m: S.Msg) {
    S.Msg(x.mode, x.data)
  }

  /** One round: the head of the queue is numbered and sent. */
  function DrainOne(d: Draining, now: u64): (d': Draining)
    requires d.q.items != []
  {
    var x := d.q.items[0];
    var q' := d.q.(items := d.q.items[1..]);
    if S.Reliable(x.mode)
    then Draining(S.Push(d.snd, MsgOf(x), now), d.unrel, q', d.sent + [(Wire(d.snd.isn, |d.snd.log|), MsgOf(x))])
    else Draining(d.snd, Wrap(d.unrel + 1), q', d.sent + [(d.unrel, MsgOf(x))])
  }

  /** The drain loop; `clock(k)` is the time read when k items are left. */
  function Drain(d: Draining, clock: nat -> u64): (d': Draining)
    decreases |d.q.items|
  {
    if S.CanSend(d.snd) && d.q.items != [] then Drain(DrainOne(d, clock(|d.q.items|)), clock) else d
  }

  /** The reliable messages among some queue items, in order. */
  function ReliableOf(items: seq<Q.QItem>): (msgs: seq<S.Msg>) {
    if items == [] then []
    else (if S.Reliable(items[0].mode) then [MsgOf(items[0])] else []) + ReliableOf(items[1..])
  }

  function MsgsFrom(s: S.Sender, n: nat): (msgs: seq<S.Msg>)
    requires n <= |s.log|
    ensures |msgs| == |s.log| - n
    ensures forall i | 0 <= i < |msgs| :: msgs[i] == s.log[n + i].msg
  {
    seq(|s.log| - n, i requires 0 <= i < |s.log| - n => s.log[n + i].msg)
  }

  /** d' took the first k items off d's queue and numbered the reliable ones consecutively. */
  ghost predicate TookFirst(d: Draining, d': Draining, k: nat) {
    && k <= |d.q.items|
    && d'.q == d.q.(items := d.q.items[k..])
    && |d.snd.log| <= |d'.snd.log|
    && d'.snd == d.snd.(log := d'.snd.log)
    && d'.snd.log[..|d.snd.log|] == d.snd.log
    && MsgsFrom(d'.snd, |d.snd.log|) == ReliableOf(d.q.items[..k])
  }

  /** The packets that carry some queue items: the reliable ones numbered on from n, the others with the
      unreliable counter, which starts at `unrel`. */
  function Numbered(isn: int, n: nat, unrel: u32, items: seq<Q.QItem>): (packets: seq<(u32, S.Msg)>)
    decreases |items|
  {
    if items == [] then []
    else if S.Reliable(items[0].mode)
    then [(Wire(isn, n), MsgOf(items[0]))] + Numbered(isn, n + 1, unrel, items[1..])
    else [(unrel, MsgOf(items[0]))] + Numbered(isn, n, Wrap(unrel + 1), items[1..])
  }

  function UnrelAfter(unrel: u32, items: seq<Q.QItem>): (unrel': u32)
    decreases |items|
  {
    if items == [] then unrel
    else UnrelAfter(if S.Reliable(items[0].mode) then unrel else Wrap(unrel + 1), items[1..])
  }

  lemma {:induction false} NumberedConcat(isn: int, n: nat, unrel: u32, a: seq<Q.QItem>, b: seq<Q.QItem>)
    ensures UnrelAfter(unrel, a + b) == UnrelAfter(UnrelAfter(unrel, a), b)
    ensures Numbered(isn, n, unrel, a + b) ==
            Numbered(isn, n, unrel, a) + Numbered(isn, n + |ReliableOf(a)|, UnrelAfter(unrel, a), b)
    decreases |a|
  {
    if a == [] {
      assert a + b == b;
    } else {
      assert (a + b)[1..] == a[1..] + b;
      if S.Reliable(a[0].mode) {
        NumberedConcat(isn, n + 1, unrel, a[1..], b);
      } else {
        NumberedConcat(isn, n, Wrap(unrel + 1), a[1..], b);
      }
    }
  }

  /** The packets sent between d and d' carry the first k items under the numbers assigned to them. */
  ghost predicate SentFirst(d: Draining, d': Draining, k: nat) {
    && k <= |d.q.items|
    && d'.unrel == UnrelAfter(d.unrel, d.q.items[..k])
    && d'.sent == d.sent + Numbered(d.snd.isn, |d.snd.log|, d.unrel, d.q.items[..k])
  }

  lemma DrainOneSends(d: Draining, now: u64)
    requires d.q.items != []
    ensures SentFirst(d, DrainOne(d, now), 1)
  {
    var items := d.q.items[..1];
    assert items[1..] == [];
  }

  lemma SentTrans(d: Draining, e: Draining, f: Draining, j: nat, k: nat)
    requires TookFirst(d, e, j) && SentFirst(d, e, j) && SentFirst(e, f, k)
    ensures SentFirst(d, f, j + k)
  {
    var a, b, isn, n := d.q.items[..j], e.q.items[..k], d.snd.isn, |d.snd.log|;
    var n' := n + |ReliableOf(a)|;
    assert d.q.items[..j + k] == a + b;
    assert |e.snd.log| == n' && e.snd.isn == isn;
    NumberedConcat(isn, n, d.unrel, a, b);
    Assoc(d.sent, Numbered(isn, n, d.unrel, a), Numbered(isn, n', e.unrel, b));
  }

  lemma DrainOneTakes(d: Draining, now: u64)
    requires d.q.items != []
    ensures TookFirst(d, DrainOne(d, now), 1)
  {
    var items := d.q.items[..1];
    assert items[1..] == [];
    assert ReliableOf(items) == if S.Reliable(items[0].mode) then [MsgOf(items[0])] else [];
  }

  lemma TookTrans(d: Draining, e: Draining, f: Draining, j: nat, k: nat)
    requires TookFirst(d, e, j) && TookFirst(e, f, k)
    ensures TookFirst(d, f, j + k)
  {
    assert e.q.items[k..] == d.q.items[j + k..];
    assert d.q.items[..j + k] == d.q.items[..j] + e.q.items[..k];
    ReliableConcat(d.q.items[..j], e.q.items[..k]);
    var a, b := |d.snd.log|, |e.snd.log|;
    assert f.snd.log[..a] == f.snd.log[..b][..a];
    forall i | a <= i < b ensures f.snd.log[i] == e.snd.log[i] {
      assert f.snd.log[..b][i] == e.snd.log[i];
    }
    assert MsgsFrom(f.snd, a) == MsgsFrom(e.snd, a) + MsgsFrom(f.snd, b);
  }

  lemma {:induction false} ReliableConcat(a: seq<Q.QItem>, b: seq<Q.QItem>)
    ensures ReliableOf(a + b) == ReliableOf(a) + ReliableOf(b)
  {
    if a == [] {
      assert a + b == b;
    } else {
      assert (a + b)[1..] == a[1..] + b;
      ReliableConcat(a[1..], b);
      var first := if S.Reliable(a[0].mode) then [MsgOf(a[0])] else [];
      assert first + (ReliableOf(a[1..]) + ReliableOf(b)) == (first + ReliableOf(a[1..])) + ReliableOf(b);
    }
  }

  lemma {:induction false} DrainKeepsOk(d: Draining, clock: nat -> u64)
    requires S.Ok(d.snd)
    ensures S.Ok(Drain(d, clock).snd)
    decreases |d.q.items|
  {
    if S.CanSend(d.snd) && d.q.items != [] { DrainKeepsOk(DrainOne(d, clock(|d.q.items|)), clock); }
  }

  /** Draining takes a prefix of the queue, numbers its reliable messages consecutively in FIFO order and
      sends each item once under its number; it stops only at an empty queue or a full window. */
  lemma {:induction false} DrainInOrder(d: Draining, clock: nat -> u64) returns (k: nat)
    ensures TookFirst(d, Drain(d, clock), k) && SentFirst(d, Drain(d, clock), k)
    ensures k == |d.q.items| || |Drain(d, clock).snd.log| >= d.snd.head + d.snd.cap
    decreases |d.q.items|
  {
    if S.CanSend(d.snd) && d.q.items != [] {
      var e := DrainOne(d, clock(|d.q.items|));
      DrainOneTakes(d, clock(|d.q.items|));
      DrainOneSends(d, clock(|d.q.items|));
      var k' := DrainInOrder(e, clock);
      TookTrans(d, e, Drain(d, clock), 1, k');
      SentTrans(d, e, Drain(d, clock), 1, k');
      k := k' + 1;
    } else {
      k := 0;
      assert d.q.items[..0] == [];
    }
  }

  // ------------------------------------------------------------ reclaim

  /** The queue item a window slot is turned back into. */
  function ItemOf(m: S.Msg): (x: Q.QItem) {
    Q.QItem(0, m.mode, m.payload)
  }

  /** The un-acked messages numbered below n, in sequence order. */
  function UnackedItems(s: S.Sender, n: nat): (items: seq<Q.QItem>)
    requires n <= |s.log|
  {
    if n <= s.head then []
    else UnackedItems(s, n - 1) + (if n - 1 in s.acked then [] else [ItemOf(s.log[n - 1].msg)])
  }

  datatype Reclaimed = Reclaimed(q: Q.Queue, count: nat)

  /** Message n goes back to the front of the queue. */
  function PutBack(s: S.Sender, n: nat, r: Reclaimed, memory: u32 -> bool): (r': Reclaimed)
    requires n < |s.log|
  {
    var p := Q.Push(r.q, ItemOf(s.log[n].msg), Q.Front, memory(Wire(s.isn, n)));
    Reclaimed(p.q, r.count + if p.ok then 1 else 0)
  }

  /** The reclaim loop from number n down: each un-acked message goes back to the front.  `memory(w)` is the
      fate of the allocation made for word w, which matters only in the dynamic mode. */
  function Reclaim(s: S.Sender, n: nat, r: Reclaimed, memory: u32 -> bool): (r': Reclaimed)
    requires n <= |s.log|
    decreases n
  {
    if n <= s.head then r
    else Reclaim(s, n - 1, if n - 1 in s.acked then r else PutBack(s, n - 1, r, memory), memory)
  }

  /** `in_flight` counts exactly the messages reclaim considers. */
  lemma {:induction false} UnackedItemsCount(s: S.Sender, n: nat)
    requires s.head <= n <= |s.log|
    ensures |UnackedItems(s, n)| == |set m: nat | s.head <= m < n && m !in s.acked|
    decreases n
  {
    var u := set m: nat | s.head <= m < n && m !in s.acked;
    if n == s.head {
      assert u == {};
    } else {
      UnackedItemsCount(s, n - 1);
      var u' := set m: nat | s.head <= m < n - 1 && m !in s.acked;
      assert u == if n - 1 in s.acked then u' else u' + {n - 1};
    }
  }

  ghost predicate AlwaysMemory(memory: u32 -> bool) {
    forall w: u32 :: memory(w)
  }

  /** Every message in the window is short enough to be queued; `SendWindow.RingHolds` keeps it so. */
  ghost predicate LegalLog(s: S.Sender) {
    forall n | s.head <= n < |s.log| :: |s.log[n].msg.payload| <= Q.MAX_MSG_SIZE
  }

  /** With room, reclaim puts the un-acked messages, in sequence order, before the old contents. */
  lemma {:induction false} ReclaimWithRoom(s: S.Sender, n: nat, r: Reclaimed, memory: u32 -> bool)
    requires n <= |s.log| && LegalLog(s) && AlwaysMemory(memory)
    requires Q.Ok(r.q) && Q.Within(r.q.store, UnackedItems(s, n) + r.q.items)
    ensures Reclaim(s, n, r, memory)
            == Reclaimed(r.q.(items := UnackedItems(s, n) + r.q.items), r.count + |UnackedItems(s, n)|)
    decreases n
  {
    if n > s.head {
      var older := UnackedItems(s, n - 1);
      if n - 1 in s.acked {
        assert UnackedItems(s, n) == older;
        ReclaimWithRoom(s, n - 1, r, memory);
      } else {
        var x := ItemOf(s.log[n - 1].msg);
        var q' := r.q.(items := [x] + r.q.items);
        assert UnackedItems(s, n) + r.q.items == older + q'.items;
        RoomForNext(r.q, x, older);
        assert memory(Wire(s.isn, n - 1));
        ReclaimWithRoom(s, n - 1, Reclaimed(q', r.count + 1), memory);
      }
    } else {
      assert [] + r.q.items == r.q.items;
    }
  }

  /** Room for a whole list before the contents is room for its last item alone. */
  lemma RoomForNext(q: Q.Queue, x: Q.QItem, older: seq<Q.QItem>)
    requires Q.Ok(q) && Q.Legal(x) && Q.Within(q.store, older + ([x] + q.items))
    ensures Q.Push(q, x, Q.Front, true) == Q.Pushed(q.(items := [x] + q.items), true)
    ensures Q.Ok(q.(items := [x] + q.items))
  {
    Q.BytesConcat(older, [x] + q.items);
    Q.WithinAdd(q.store, q.items, x, Q.Front);
    Q.FittingPush(q, x, Q.Front);
    Q.AddOk(q, x, Q.Front);
  }

  lemma {:induction false} ReclaimOk(s: S.Sender, n: nat, r: Reclaimed, memory: u32 -> bool)
    requires n <= |s.log| && Q.Ok(r.q)
    ensures Q.Ok(Reclaim(s, n, r, memory).q) && Reclaim(s, n, r, memory).q.store == r.q.store
    decreases n
  {
    if n > s.head {
      if n - 1 in s.acked {
        ReclaimOk(s, n - 1, r, memory);
      } else {
        var x := ItemOf(s.log[n - 1].msg);
        Q.PushOk(r.q, x, Q.Front, memory(Wire(s.isn, n - 1)));
        var p := Q.Push(r.q, x, Q.Front, memory(Wire(s.isn, n - 1)));
        ReclaimOk(s, n - 1, Reclaimed(p.q, r.count + if p.ok then 1 else 0), memory);
      }
    }
  }

  /** Room is exactly what it takes: reclaim keeps everything if and only if the bound of the queue
      admits the un-acked messages beside the old contents. */
  lemma ReclaimKeepsAllIff(s: S.Sender, q: Q.Queue, memory: u32 -> bool)
    requires S.Ok(s) && LegalLog(s) && AlwaysMemory(memory) && Q.Ok(q)
    ensures
      var all := UnackedItems(s, |s.log|) + q.items;
      Reclaim(s, |s.log|, Reclaimed(q, 0), memory).q.items == all <==> Q.Within(q.store, all)
  {
    ReclaimOk(s, |s.log|, Reclaimed(q, 0), memory);
    if Q.Within(q.store, UnackedItems(s, |s.log|) + q.items) {
      ReclaimWithRoom(s, |s.log|, Reclaimed(q, 0), memory);
    }
  }

  // ------------------------------------------------------------ reclaim without room

  /** Pushing xs to the front of a bounded DROP_LAST ring, last first: a full ring gives up its head,
      which is the item pushed just before. */
  function FrontAll(items: seq<Q.QItem>, xs: seq<Q.QItem>, cap: nat): (r: seq<Q.QItem>) {
    if xs == [] then items
    else
      var rest := FrontAll(items, xs[1..], cap);
      [xs[0]] + (if |rest| < cap || rest == [] then rest else rest[1..])
  }

  lemma {:induction false} FrontAllSplit(items: seq<Q.QItem>, xs: seq<Q.QItem>, x: Q.QItem, cap: nat)
    ensures FrontAll(items, xs + [x], cap) == FrontAll(FrontAll(items, [x], cap), xs, cap)
    decreases |xs|
  {
    if xs == [] {
      assert [] + [x] == [x];
    } else {
      assert (xs + [x])[1..] == xs[1..] + [x];
      FrontAllSplit(items, xs[1..], x, cap);
    }
  }

  ghost predicate DropLastRing(q: Q.Queue) {
    Q.Ok(q) && q.store.Fixed? && q.policy == Q.DropLast
  }

  /** Reclaim from number n down is a matter of pushing the un-acked messages to the front. */
  ghost predicate IsFrontAll(s: S.Sender, n: nat, r: Reclaimed, memory: u32 -> bool) {
    && n <= |s.log| && DropLastRing(r.q)
    && Reclaim(s, n, r, memory).q.items == FrontAll(r.q.items, UnackedItems(s, n), r.q.store.capacity)
  }

  lemma {:induction false} ReclaimIsFrontAll(s: S.Sender, n: nat, r: Reclaimed, memory: u32 -> bool)
    requires n <= |s.log| && LegalLog(s) && DropLastRing(r.q)
    ensures IsFrontAll(s, n, r, memory)
    decreases n
  {
    if n > s.head {
      if n - 1 in s.acked {
        assert UnackedItems(s, n) == UnackedItems(s, n - 1);
        ReclaimIsFrontAll(s, n - 1, r, memory);
      } else {
        var r' := PutBack(s, n - 1, r, memory);
        PushIsFrontAll(r.q, ItemOf(s.log[n - 1].msg), memory(Wire(s.isn, n - 1)));
        ReclaimIsFrontAll(s, n - 1, r', memory);
        FrontAllStep(s, n, r, memory);
      }
    }
  }

  lemma FrontAllStep(s: S.Sender, n: nat, r: Reclaimed, memory: u32 -> bool)
    requires s.head < n <= |s.log| && n - 1 !in s.acked && LegalLog(s) && DropLastRing(r.q)
    ensures IsFrontAll(s, n - 1, PutBack(s, n - 1, r, memory), memory) ==> IsFrontAll(s, n, r, memory)
  {
    var x := ItemOf(s.log[n - 1].msg);
    PushIsFrontAll(r.q, x, memory(Wire(s.isn, n - 1)));
    FrontAllSplit(r.q.items, UnackedItems(s, n - 1), x, r.q.store.capacity);
  }

  lemma PushIsFrontAll(q: Q.Queue, x: Q.QItem, memory: bool)
    requires DropLastRing(q) && Q.Legal(x)
    ensures
      var q' := Q.Push(q, x, Q.Front, memory).q;
      && DropLastRing(q') && q'.store == q.store
      && q'.items == FrontAll(q.items, [x], q.store.capacity)
  {
    Q.FixedEviction(q, x);
    Q.PushOk(q, x, Q.Front, memory);
    assert [x][1..] == [];
  }

  /** Short of room, the ring ends up with the oldest of xs and then only the newest that fitted: what
      lies between was evicted by the very messages that follow it in the queue. */
  lemma {:induction false} FrontAllOverflow(items: seq<Q.QItem>, xs: seq<Q.QItem>, cap: nat)
    requires cap >= 1 && |items| <= cap
    ensures |xs| + |items| <= cap ==> FrontAll(items, xs, cap) == xs + items
    ensures |xs| + |items| > cap ==>
              FrontAll(items, xs, cap) == [xs[0]] + (xs + items)[|xs| + |items| - cap + 1..]
    decreases |xs|
  {
    if xs == [] {
      assert xs + items == items;
    } else {
      FrontAllOverflow(items, xs[1..], cap);
      assert xs + items == [xs[0]] + (xs[1..] + items);
      var excess := |xs| + |items| - cap;
      if excess >= 1 {
        assert (xs + items)[excess + 1..] == (xs[1..] + items)[excess..];
      }
    }
  }

  /** What a reclaim into a DROP_LAST ring that lacks room leaves: the oldest un-acked message in front
      of the newest part of `un-acked messages followed by old contents` that fits. */
  lemma ReclaimOverflow(s: S.Sender, q: Q.Queue, memory: u32 -> bool)
    requires S.Ok(s) && LegalLog(s) && Q.Ok(q) && q.store.Fixed? && q.policy == Q.DropLast
    requires |UnackedItems(s, |s.log|)| + |q.items| > q.store.capacity
    ensures
      var u := UnackedItems(s, |s.log|);
      Reclaim(s, |s.log|, Reclaimed(q, 0), memory).q.items
      == [u[0]] + (u + q.items)[|u| + |q.items| - q.store.capacity + 1..]
  {
    ReclaimIsFrontAll(s, |s.log|, Reclaimed(q, 0), memory);
    FrontAllOverflow(q.items, UnackedItems(s, |s.log|), q.store.capacity);
  }

  // ------------------------------------------------------------ drain, then reclaim

  /** What comes back of some queue items: the reliable ones, in order, with the client id cleared. */
  function Returned(items: seq<Q.QItem>): (back: seq<Q.QItem>)
    ensures |back| <= |items|
  {
    if items == [] then []
    else (if S.Reliable(items[0].mode) then [ItemOf(MsgOf(items[0]))] else []) + Returned(items[1..])
  }

  lemma {:induction false} ReturnedBytes(items: seq<Q.QItem>)
    ensures Q.Bytes(Returned(items)) <= Q.Bytes(items)
  {
    if items != [] {
      ReturnedBytes(items[1..]);
      Q.BytesConcat(if S.Reliable(items[0].mode) then [ItemOf(MsgOf(items[0]))] else [], Returned(items[1..]));
    }
  }

  lemma {:induction false} ReturnedIdentity(items: seq<Q.QItem>)
    requires forall i | 0 <= i < |items| :: S.Reliable(items[i].mode) && items[i].clientId == 0
    ensures Returned(items) == items
  {
    if items != [] {
      assert S.Reliable(items[0].mode);
      ReturnedIdentity(items[1..]);
    }
  }

  lemma {:induction false} ReturnedOfReliable(items: seq<Q.QItem>, i: nat)
    requires i < |ReliableOf(items)|
    ensures |Returned(items)| == |ReliableOf(items)| && Returned(items)[i] == ItemOf(ReliableOf(items)[i])
    decreases |items|
  {
    var first := if S.Reliable(items[0].mode) then 1 else 0;
    if i >= first {
      ReturnedOfReliable(items[1..], i - first);
    } else {
      ReturnedLength(items[1..]);
    }
  }

  lemma {:induction false} ReturnedLength(items: seq<Q.QItem>)
    ensures |Returned(items)| == |ReliableOf(items)|
  {
    if items != [] { ReturnedLength(items[1..]); }
  }

  /** With nothing acked, what reclaim considers is the tail of the log. */
  lemma {:induction false} UnackedItemsPlain(s: S.Sender, n: nat)
    requires s.head <= n <= |s.log| && s.acked == {}
    ensures |UnackedItems(s, n)| == n - s.head
    ensures forall i | 0 <= i < n - s.head :: UnackedItems(s, n)[i] == ItemOf(s.log[s.head + i].msg)
    decreases n
  {
    if n > s.head { UnackedItemsPlain(s, n - 1); }
  }

  lemma ReturnedIsUnacked(d: Draining, d': Draining, k: nat)
    requires TookFirst(d, d', k) && d.snd.head == |d.snd.log| && d.snd.acked == {}
    ensures UnackedItems(d'.snd, |d'.snd.log|) == Returned(d.q.items[..k])
  {
    var s, items := d'.snd, d.q.items[..k];
    UnackedItemsPlain(s, |s.log|);
    ReturnedLength(items);
    forall i | 0 <= i < |ReliableOf(items)| ensures UnackedItems(s, |s.log|)[i] == Returned(items)[i] {
      ReturnedOfReliable(items, i);
      assert MsgsFrom(s, s.head)[i] == s.log[s.head + i].msg;
    }
  }

  /** Drain and reclaim undo each other: from an empty window, draining and then reclaiming before any
      ack leaves the queue as it was, less the unreliable messages sent in between. */
  lemma DrainThenReclaim(d: Draining, d': Draining, k: nat, memory: u32 -> bool)
    requires TookFirst(d, d', k) && d.snd.head == |d.snd.log| && d.snd.acked == {}
    requires Q.Ok(d.q) && LegalLog(d'.snd) && AlwaysMemory(memory)
    ensures
      var r := Reclaim(d'.snd, |d'.snd.log|, Reclaimed(d'.q, 0), memory);
      && r.q == d.q.(items := Returned(d.q.items[..k]) + d.q.items[k..])
      && r.count == |d'.snd.log| - |d.snd.log|
      && ((forall i | 0 <= i < k :: S.Reliable(d.q.items[i].mode) && d.q.items[i].clientId == 0) ==> r.q == d.q)
  {
    ReturnedIsUnacked(d, d', k);
    UnackedItemsPlain(d'.snd, |d'.snd.log|);
    ReturnedFits(d.q, k);
    ReclaimWithRoom(d'.snd, |d'.snd.log|, Reclaimed(d'.q, 0), memory);
    if forall i | 0 <= i < k :: S.Reliable(d.q.items[i].mode) && d.q.items[i].clientId == 0 {
      ReturnedIdentity(d.q.items[..k]);
      assert d.q.items[..k] + d.q.items[k..] == d.q.items;
    }
  }

  lemma ReturnedFits(q: Q.Queue, k: nat)
    requires Q.Ok(q) && k <= |q.items|
    ensures Q.Within(q.store, Returned(q.items[..k]) + q.items[k..])
    ensures Q.Ok(q.(items := q.items[k..]))
  {
    assert q.items == q.items[..k] + q.items[k..];
    Q.BytesConcat(q.items[..k], q.items[k..]);
    Q.BytesConcat(Returned(q.items[..k]), q.items[k..]);
    ReturnedBytes(q.items[..k]);
    Q.SuffixWithin(q.store, q.items, k);
  }
}
