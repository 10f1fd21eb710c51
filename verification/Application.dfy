/** From the receive window to the application: what is handed up is pushed to a bounded queue, whose result
    the workers ignore, and the application pops from there. */
module Application {
  import opened Words
  import opened SeqNum
  import opened SendSpec
  import opened RecvSpec
  import opened AckTheory
  import opened Link
  import opened LinkProofs
  import opened Scenarios
  import Q = QueueSpec

  /** A message handed up as the queue stores it. */
  function Entry(item: Item, clientId: u32): (x: Q.QItem) {
    Q.QItem(clientId, item.msg.mode, item.msg.payload)
  }

  function Entries(items: seq<Item>, clientId: u32): (xs: seq<Q.QItem>)
    ensures |xs| == |items| && forall i | 0 <= i < |xs| :: xs[i] == Entry(items[i], clientId)
  {
    seq(|items|, i requires 0 <= i < |items| => Entry(items[i], clientId))
  }

  /** The reliable items of one client, in order; the queue carries other clients and unreliable items too. */
  function ReliableOf(xs: seq<Q.QItem>, clientId: u32): (sel: seq<Q.QItem>) {
    if xs == [] then []
    else
      var last := xs[|xs| - 1];
      ReliableOf(xs[..|xs| - 1], clientId) + (if last.clientId == clientId && Reliable(last.mode) then [last] else [])
  }

  /** The reliable-ordered ones, in order. */
  function Ordered(xs: seq<Q.QItem>): (sel: seq<Q.QItem>) {
    if xs == [] then []
    else Ordered(xs[..|xs| - 1]) + (if xs[|xs| - 1].mode == RELIABLE_ORDERED then [xs[|xs| - 1]] else [])
  }

  lemma {:induction false} OrderedEntries(items: seq<Item>, clientId: u32)
    ensures Ordered(Entries(items, clientId)) == Entries(OfMode(items, RELIABLE_ORDERED), clientId)
    decreases |items|
  {
    if items != [] {
      var init := items[..|items| - 1];
      OrderedEntries(init, clientId);
      assert Entries(items, clientId)[..|items| - 1] == Entries(init, clientId);
    }
  }

  // ------------------------------------------------------------ every entry is legal

  ghost predicate FromLog(items: seq<Item>, log: seq<Sent>) {
    forall i | 0 <= i < |items| :: items[i].num < |log| && items[i].msg == log[items[i].num].msg
  }

  lemma {:induction false} OrderedBelowFromLog(log: seq<Sent>, k: nat)
    requires k <= |log|
    ensures FromLog(OrderedBelow(log, k), log)
  {
    if k > 0 { OrderedBelowFromLog(log, k - 1); }
  }

  lemma DrainedFromLog(r: Receiver, log: seq<Sent>)
    requires Consistent(r, log)
    ensures FromLog(Drain(r).items, log)
  {
    DrainHandsUpOrdered(r, log);
    var d := Drain(r);
    OrderedBelowFromLog(log, d.rcv.expected);
    var before := |OrderedBelow(log, r.expected)|;
    forall i | 0 <= i < |d.items| ensures d.items[i].num < |log| && d.items[i].msg == log[d.items[i].num].msg {
      assert OrderedBelow(log, d.rcv.expected)[before + i] == d.items[i];
    }
  }

  lemma DeliveryFromLog(r: Receiver, log: seq<Sent>, n: nat)
    requires Consistent(r, log) && Quiet(r) && n < |log| && Reliable(log[n].msg.mode)
    requires -0x1_0000_0000 + r.cap <= n - r.expected < 0x8000_0000
    ensures FromLog(Deliver(r, Wire(r.isn, n), log[n].msg).items, log)
  {
    DeliverMeaning(r, n, log[n].msg);
    if !Accepted(r, n) && n < r.expected + r.cap {
      var r1 := Admit(r, n, log[n].msg);
      assert Consistent(r1, log);
      DrainedFromLog(r1, log);
    }
  }

  lemma DataStepFromLog(s: State, p: Packet)
    requires Inv(s) && Enabled(s, DeliverData(p)) && FromLog(s.handed, s.tx.snd.log)
    ensures FromLog(Apply(s, DeliverData(p)).handed, s.tx.snd.log)
  {
    DeliveryFromLog(s.rcv, s.tx.snd.log, p.num);
  }

  lemma AckStepFromLog(s: State, k: AckPacket, at: u64)
    requires Enabled(s, DeliverAck(k, at)) && FromLog(s.handed, s.tx.snd.log)
    ensures FromLog(s.handed, Apply(s, DeliverAck(k, at)).tx.snd.log)
  {
    OnAckWindow(s.tx, k.ackNum, k.mask, at);
  }

  lemma StepFromLog(s: State, step: Step)
    requires Inv(s) && Enabled(s, step) && FromLog(s.handed, s.tx.snd.log)
    ensures FromLog(Apply(s, step).handed, Apply(s, step).tx.snd.log)
  {
    match step
    case DeliverData(p) => DataStepFromLog(s, p);
    case DeliverAck(k, at) => AckStepFromLog(s, k, at);
    case _ =>
  }

  lemma NextFromLog(s: State, s': State)
    ensures Inv(s) && Next(s, s') && FromLog(s.handed, s.tx.snd.log) ==> FromLog(s'.handed, s'.tx.snd.log)
  {
    if Inv(s) && Next(s, s') && FromLog(s.handed, s.tx.snd.log) {
      var step :| Enabled(s, step) && s' == Apply(s, step);
      StepFromLog(s, step);
    }
  }

  ghost predicate HandsUpLog(s: State) {
    Inv(s) && FromLog(s.handed, s.tx.snd.log)
  }

  lemma NextHandsUpLog(s: State, s': State)
    ensures HandsUpLog(s) && Next(s, s') ==> HandsUpLog(s')
  {
    NextFromLog(s, s');
    NextInv(s, s');
  }

  lemma {:induction false} PathHandsUpLog(path: seq<State>, i: nat)
    requires IsPath(path) && i < |path|
    ensures HandsUpLog(path[0]) ==> HandsUpLog(path[i])
  {
    if i > 0 {
      PathHandsUpLog(path, i - 1);
      PathStep(path, i);
      NextHandsUpLog(path[i - 1], path[i]);
    }
  }

  lemma HandedFromLog(run: seq<State>, i: nat)
    requires IsRun(run) && i < |run|
    ensures HandsUpLog(run[i])
  {
    InitialInv(run[0]);
    PathHandsUpLog(run, i);
  }

  /** So the queue never refuses a message handed up for its size. */
  lemma HandedIsLegal(run: seq<State>, i: nat, clientId: u32)
    requires IsRun(run) && i < |run|
    ensures forall j | 0 <= j < |run[i].handed| :: Q.Legal(Entry(run[i].handed[j], clientId))
  {
    HandedFromLog(run, i);
    var s := run[i];
    forall j | 0 <= j < |s.handed| ensures Q.Legal(Entry(s.handed[j], clientId)) {
      assert Storable(s.tx.snd.log[s.handed[j].num].msg);
    }
  }

  // ------------------------------------------------------------ what the application gets

  /** Between its start and now the session offered the queue what it handed up, in that order.  `since` items
      had been offered when it started and `until` when it last did; around and between them lies the traffic
      of other clients, of earlier and later sessions under the same id, and unreliable items. */
  ghost predicate Feeds(s: State, clientId: u32, t: Q.Tally, since: nat, until: nat) {
    && since <= until <= |t.offered|
    && ReliableOf(t.offered[since..until], clientId) == Entries(s.handed, clientId)
  }

  /** End to end.  In every reachable state, whatever was displaced, the application has popped, and has yet
      to pop, a selection of what was offered, in order.  Everything is there exactly when every push found
      room; and then the reliable messages of the session reach the application as they were handed up: the
      ordered ones exactly once each and in the order they were sent. */
  lemma ApplicationGets(
    run: seq<State>, i: nat, clientId: u32, store: Q.Store, policy: Q.Policy, ops: seq<Q.Op>, since: nat, until: nat)
    requires IsRun(run) && i < |run| && Q.BackOnly(ops)
    requires Feeds(run[i], clientId, Q.History(store, policy, ops), since, until)
    ensures
      var s, t := run[i], Q.History(store, policy, ops);
      var got := t.popped + t.q.items;
      && Inv(s) && Q.Subsequence(got, t.offered)
      && (got == t.offered <==> Q.AlwaysRoom(store, policy, ops))
      && (Q.AlwaysRoom(store, policy, ops) ==>
            var mine := ReliableOf(got[since..until], clientId);
            && mine == Entries(s.handed, clientId) && |mine| == |s.handed|
            && (forall j | 0 <= j < |mine| ::
                  mine[j] == Q.QItem(clientId, s.handed[j].msg.mode, s.handed[j].msg.payload))
            && Ordered(mine) == Entries(OrderedBelow(s.tx.snd.log, s.rcv.expected), clientId))
  {
    RunInv(run, i);
    var s, t := run[i], Q.History(store, policy, ops);
    var at := Q.NeverReordered(store, policy, ops);
    Q.NothingDroppedIff(store, policy, ops);
    Q.NothingDroppedIffRoom(store, policy, ops);
    OrderedEntries(s.handed, clientId);
    EntriesCarry(s.handed, clientId);
  }

  lemma EntriesCarry(items: seq<Item>, clientId: u32)
    ensures |Entries(items, clientId)| == |items|
    ensures forall j | 0 <= j < |items| ::
              Entries(items, clientId)[j] == Q.QItem(clientId, items[j].msg.mode, items[j].msg.payload)
  {
  }

  // ------------------------------------------------------------ an input that loses

  /** Two items and a message offered to a queue of two: the last is refused under DROP_NEW. */
  lemma RefusedWhenFull(x: Q.QItem, y: Q.QItem) returns (ops: seq<Q.Op>)
    requires Q.Legal(x) && Q.Legal(y)
    ensures Q.BackOnly(ops) && |ops| == 3 && ops[2] == Q.PushOp(y, Q.Back, true)
    ensures Q.History(Q.Fixed(2), Q.DropNew, ops) == Q.Tally(Q.Queue(Q.Fixed(2), Q.DropNew, [x, x], 1), [x, x, y], [])
  {
    var p := Q.PushOp(x, Q.Back, true);
    ops := [p, p, Q.PushOp(y, Q.Back, true)];
    var t0 := Q.Tally(Q.Start(Q.Fixed(2), Q.DropNew), [], []);
    assert ops[..2] == [p, p] && [p, p][..1] == [p] && [p][..0] == [];
    assert Q.DoAll(t0, [p]) == Q.Do(t0, p);
    assert Q.DoAll(t0, [p, p]) == Q.Do(Q.Do(t0, p), p);
    assert Q.DoAll(t0, ops) == Q.Do(Q.Do(Q.Do(t0, p), p), ops[2]);
  }

  /** The same message followed by two items: it is evicted under DROP_LAST. */
  lemma EvictedWhenFull(x: Q.QItem, y: Q.QItem) returns (ops: seq<Q.Op>)
    requires Q.Legal(x) && Q.Legal(y)
    ensures Q.BackOnly(ops) && |ops| == 3 && ops[0] == Q.PushOp(y, Q.Back, true)
    ensures Q.History(Q.Fixed(2), Q.DropLast, ops) == Q.Tally(Q.Queue(Q.Fixed(2), Q.DropLast, [x, x], 1), [y, x, x], [])
  {
    var p, first := Q.PushOp(x, Q.Back, true), Q.PushOp(y, Q.Back, true);
    ops := [first, p, p];
    var t0 := Q.Tally(Q.Start(Q.Fixed(2), Q.DropLast), [], []);
    assert ops[..2] == [first, p] && [first, p][..1] == [first] && [first][..0] == [];
    assert Q.DoAll(t0, [first]) == Q.Do(t0, first);
    var t2 := Q.Do(Q.Do(t0, first), p);
    assert Q.DoAll(t0, [first, p]) == t2 && t2.q.items == [y, x];
    assert Q.DoAll(t0, ops) == Q.Do(t2, p);
    assert [y, x][1..] == [x] && Q.MakeRoom(Q.Fixed(2), [y, x], x) == [x];
  }

  /** An acked message the application never gets: the sender has retired it, the session has handed it up,
      and under either policy a queue that was short of room does not hold it. */
  lemma AckedButDropped(start: State, msg: Msg, clientId: u32, other: Q.QItem, policy: Q.Policy)
    returns (run: seq<State>, ops: seq<Q.Op>)
    requires Initial(start) && Storable(msg) && Q.Legal(other) && other != Entry(Item(0, msg), clientId)
    ensures IsRun(run) && run[0] == start && Q.BackOnly(ops)
    ensures
      var s, t := run[|run| - 1], Q.History(Q.Fixed(2), policy, ops);
      && |s.tx.snd.log| == s.tx.snd.head == 1 && s.handed == [Item(0, msg)]
      && Entry(Item(0, msg), clientId) in t.offered
      && Entry(Item(0, msg), clientId) !in t.popped + t.q.items
  {
    run := FirstAcked(start, msg);
    var y := Entry(Item(0, msg), clientId);
    match policy {
      case DropNew => ops := RefusedWhenFull(other, y);
      case DropLast => ops := EvictedWhenFull(other, y);
    }
  }
}
