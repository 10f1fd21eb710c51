/** The server's drain loop on its table and queue. */
module ServerDrain {
  import opened Words
  import opened SessionSpec
  import opened OutboundSpec
  import S = SendSpec
  import Q = QueueSpec
  import M = Mpmc
  import Server

  /** The item taken off the queue but not yet sent. */
  datatype Pending = None | Some(x: Q.QItem)

  function Backlog(pending: Pending, q: Q.Queue): (items: seq<Q.QItem>) {
    match pending
    case None => q.items
    case Some(x) => [x] + q.items
  }

  /** The worker's drain loop, with the packets it sends. */
  method DrainServerQueue(table: Server.SessionTable, queue: M.Mpmc, pending: Pending, clock: nat -> u64)
    returns (pending': Pending, sent: seq<Outgoing>)
    requires table.Valid() && queue.Valid() && table !in queue.Repr && table.sessions !in queue.Repr
    modifies table.sessions, queue.Repr
    ensures table.Valid() && queue.Valid() && queue.Repr == old(queue.Repr)
    ensures Progress(table.View(), Backlog(pending', queue.q), sent)
            == DrainBacklog(Progress(old(table.View()), Backlog(pending, old(queue.q)), []), clock)
  {
    pending', sent := pending, [];
    ghost var start := Progress(table.View(), Backlog(pending, queue.q), []);
    ghost var goal := DrainBacklog(start, clock);
    DrainBacklogOk(start, clock);
    var again := true;
    while again
      invariant queue.Valid() && queue.Repr == old(queue.Repr)
      invariant DrainBacklog(Progress(table.View(), Backlog(pending', queue.q), sent), clock) == goal
      invariant !again ==> Progress(table.View(), Backlog(pending', queue.q), sent) == goal
      decreases |Backlog(pending', queue.q)|, again
    {
      pending', sent, again := DrainRound(table, queue, pending', sent, clock);
    }
  }

  /** One round of the loop; false when it stops. */
  method DrainRound(
    table: Server.SessionTable, queue: M.Mpmc, pending: Pending, sent: seq<Outgoing>, clock: nat -> u64)
    returns (pending': Pending, sent': seq<Outgoing>, again: bool)
    requires queue.Valid() && table !in queue.Repr && table.sessions !in queue.Repr
    modifies table.sessions, queue.Repr
    ensures queue.Valid() && queue.Repr == old(queue.Repr)
    ensures RoundTo(Progress(old(table.View()), Backlog(pending, old(queue.q)), sent),
                    Progress(table.View(), Backlog(pending', queue.q), sent'), clock, again)
  {
    again, sent' := false, sent;
    pending' := TakePending(queue, pending);
    if pending' == None { return; }
    again, sent' := RoundInHand(table, queue, pending'.x, sent, clock);
    if again { pending' := None; }
  }

  /** A round with the next item already taken off the queue. */
  method RoundInHand(
    table: Server.SessionTable, queue: M.Mpmc, x: Q.QItem, sent: seq<Outgoing>, clock: nat -> u64)
    returns (again: bool, sent': seq<Outgoing>)
    requires queue.Valid() && table !in queue.Repr && table.sessions !in queue.Repr
    modifies table.sessions
    ensures queue.Valid() && queue.Repr == old(queue.Repr) && queue.q == old(queue.q)
    ensures RoundTo(Progress(old(table.View()), [x] + queue.q.items, sent),
                    Progress(table.View(), if again then queue.q.items else [x] + queue.q.items, sent'), clock, again)
  {
    again, sent' := SendHead(table, x, queue.q.items, sent, clock, clock(queue.count + 1));
  }

  /** The item in hand is sent, discarded or held; true if it is out of hand. */
  method SendHead(table: Server.SessionTable, x: Q.QItem, ghost rest: seq<Q.QItem>, sent: seq<Outgoing>,
                  ghost clock: nat -> u64, now: u64)
    returns (again: bool, sent': seq<Outgoing>)
    requires now == clock(|rest| + 1)
    modifies table.sessions
    ensures RoundTo(Progress(old(table.View()), [x] + rest, sent),
                    Progress(table.View(), if again then rest else [x] + rest, sent'), clock, again)
  {
    OneRound(table.View(), x, rest, sent, clock);
    var blocked, packets := SendOrHold(table, x, now);
    again, sent' := !blocked, sent + packets;
    assert sent + [] == sent;
  }

  /** A round leads from p to p' on the way to the same end; without another round, p' is that end. */
  ghost predicate RoundTo(p: Progress, p': Progress, clock: nat -> u64, again: bool) {
    && DrainBacklog(p', clock) == DrainBacklog(p, clock)
    && (again ==> |p'.rest| < |p.rest|)
    && (!again ==> p' == DrainBacklog(p, clock) && p' == p)
  }

  /** The table and the packets after one item that is not blocked. */
  function Sending(t: Table, x: Q.QItem, now: u64): (p: Progress) {
    SendFirst(Progress(t, [x], []), now)
  }

  lemma OneRound(t: Table, x: Q.QItem, rest: seq<Q.QItem>, sent: seq<Outgoing>, clock: nat -> u64)
    ensures
      var p, now := Progress(t, [x] + rest, sent), clock(|rest| + 1);
      if Blocked(t, x) then RoundTo(p, p, clock, false)
      else RoundTo(p, Progress(Sending(t, x, now).t, rest, sent + Sending(t, x, now).sent), clock, true)
  {
    var p, now := Progress(t, [x] + rest, sent), clock(|rest| + 1);
    assert ([x] + rest)[1..] == rest;
    assert sent + [] == sent;
    assert SendFirst(p, now) == Progress(Sending(t, x, now).t, rest, sent + Sending(t, x, now).sent);
  }

  /** Make sure an item is in hand, unless nothing is waiting. */
  method TakePending(queue: M.Mpmc, pending: Pending) returns (pending': Pending)
    requires queue.Valid()
    modifies queue.Repr
    ensures queue.Valid() && queue.Repr == old(queue.Repr)
    ensures Backlog(pending', queue.q) == Backlog(pending, old(queue.q))
    ensures pending' == None <==> Backlog(pending, old(queue.q)) == []
  {
    pending' := pending;
    if pending == None {
      var ok, x := queue.TryPop(Q.UNSET);
      if ok { pending' := Some(x); }
    }
  }

  /** Send or discard one item; no change when its window is full. */
  method SendOrHold(table: Server.SessionTable, x: Q.QItem, now: u64)
    returns (blocked: bool, packets: seq<Outgoing>)
    modifies table.sessions
    ensures blocked <==> Blocked(old(table.View()), x)
    ensures blocked ==> table.View() == old(table.View()) && packets == []
    ensures !blocked ==>
              var p := Sending(old(table.View()), x, now); table.View() == p.t && packets == p.sent
  {
    blocked, packets := false, [];
    if x.clientId < table.sessions.Length && table.sessions[x.clientId].state == Connected {
      var s := table.sessions[x.clientId];
      if S.CanSend(s.snd) {
        if |x.data| <= S.MAX_PAYLOAD_SIZE {
          packets := [Outgoing(x.clientId, WordFor(s, x), S.Msg(x.mode, x.data))];
          table.sessions[x.clientId] := NumberItem(s, x, now);
        }
      } else {
        blocked := true;
      }
    }
  }
}
