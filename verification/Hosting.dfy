/** A session inside the server's table is one end of two links: the receiver of what its client sends and
    the sender of what its client receives.  So long as the session lives, every step of the server moves
    the two links by steps of their own, and all that holds of links holds inside the table. */
module Hosting {
  import opened Words
  import opened SeqNum
  import opened SessionSpec
  import opened ServerSpec
  import S = SendSpec
  import R = RecvSpec
  import Q = QueueSpec
  import H = HandoffSpec
  import O = OutboundSpec
  import L = Link
  import P = LinkProofs
  import Rounds
  import Rtt

  /** The server's halves of the links are the session's windows and estimator. */
  ghost predicate Hosts(x: Session, up: L.State, down: L.State) {
    up.rcv == x.rcv && down.tx == S.Acking(x.snd, x.rtt)
  }

  /** The packet's ack, and its message if it carries a reliable one, come from the networks of the links. */
  ghost predicate FromLinks(p: Packet, up: L.State, down: L.State) {
    && (exists k :: k in down.acks && AckIn(p, down, k))
    && (p.kind == PKT_DATA && S.Reliable(p.msg.mode) ==> exists d :: d in up.data && DataIn(p, up, d))
  }

  ghost predicate AckIn(p: Packet, down: L.State, k: L.AckPacket) {
    k.ackNum == p.ackNum && k.mask == p.sackMask && L.FreshAck(down, k)
  }

  ghost predicate DataIn(p: Packet, up: L.State, d: L.Packet) {
    p.seqNum == Wire(up.rcv.isn, d.num) && p.msg == d.msg && L.FreshData(up, d)
  }

  /** A packet that reaches the session is one of its client's. */
  ghost predicate Honest(step: Step, x: Session, up: L.State, down: L.State) {
    step.Incoming? && step.from == x.addr && step.packet.sessionId == x.sessionId ==> FromLinks(step.packet, up, down)
  }

  /** The links moved by steps of the server's halves only, and handed up `items` on the way. */
  ghost predicate Moved(up: L.State, down: L.State, up': L.State, down': L.State, items: seq<R.Item>) {
    && L.Reaches(up, up') && up'.tx == up.tx && up'.handed == up.handed + items
    && L.Reaches(down, down') && down'.rcv == down.rcv && down'.handed == down.handed
  }

  lemma NotMoved(up: L.State, down: L.State)
    ensures Moved(up, down, up, down, [])
  {
    P.ReachesItself(up);
    P.ReachesItself(down);
  }

  // ------------------------------------------------------------ incoming packets

  lemma AckMoves(down: L.State, p: Packet, now: u64) returns (down': L.State)
    requires S.Ok(down.tx.snd) && exists k :: k in down.acks && AckIn(p, down, k)
    ensures L.Reaches(down, down') && down' == down.(tx := S.OnAck(down.tx, p.ackNum, p.sackMask, now))
  {
    var k :| k in down.acks && AckIn(p, down, k);
    down' := L.Apply(down, L.DeliverAck(k, now));
    P.ReachesItself(down);
    P.ReachesStep(down, down, L.DeliverAck(k, now));
  }

  lemma DataMoves(up: L.State, p: Packet) returns (up': L.State)
    requires S.Reliable(p.msg.mode) && exists d :: d in up.data && DataIn(p, up, d)
    ensures
      var o := R.Deliver(up.rcv, p.seqNum, p.msg);
      L.Reaches(up, up') && up' == up.(rcv := o.rcv, handed := up.handed + o.items)
  {
    var d :| d in up.data && DataIn(p, up, d);
    up' := L.Apply(up, L.DeliverData(d));
    P.ReachesItself(up);
    P.ReachesStep(up, up, L.DeliverData(d));
  }

  lemma PacketMoves(x: Session, p: Packet, now: u64, up: L.State, down: L.State)
    returns (up': L.State, down': L.State)
    requires S.Ok(x.snd) && Hosts(x, up, down) && FromLinks(p, up, down)
    ensures
      var y := Acked(x, p, now);
      var o := Received(y, p);
      Hosts(y.(rcv := o.rcv), up', down') && Moved(up, down, up', down', o.items)
  {
    down' := AckMoves(down, p, now);
    up' := up;
    P.ReachesItself(up);
    if p.kind == PKT_DATA && S.Reliable(p.msg.mode) {
      up' := DataMoves(up, p);
    } else {
      assert up.handed + [] == up.handed;
    }
  }

  // ------------------------------------------------------------ sending

  lemma SendMoves(down: L.State, x: Q.QItem, now: u64) returns (down': L.State)
    requires S.Ok(down.tx.snd) && S.CanSend(down.tx.snd) && S.Reliable(x.mode) && Q.Legal(x)
    ensures L.Reaches(down, down') && down'.rcv == down.rcv && down'.handed == down.handed
    ensures down'.tx == down.tx.(snd := S.Push(down.tx.snd, H.MsgOf(x), now))
  {
    down' := L.Apply(down, L.Send(H.MsgOf(x), now));
    P.ReachesItself(down);
    P.ReachesStep(down, down, L.Send(H.MsgOf(x), now));
  }

  /** Draining numbers each item of the client in a step of its own. */
  lemma {:induction false} DrainMoves(p: O.Progress, clock: nat -> u64, k: nat, down: L.State)
    returns (down': L.State)
    requires Ok(p.t) && k < |p.t.sessions| && down.tx == S.Acking(p.t.sessions[k].snd, p.t.sessions[k].rtt)
    ensures
      var p' := O.DrainBacklog(p, clock);
      && |p'.t.sessions| == |p.t.sessions| && p'.t.sessions[k].rcv == p.t.sessions[k].rcv
      && down'.tx == S.Acking(p'.t.sessions[k].snd, p'.t.sessions[k].rtt)
      && L.Reaches(down, down') && down'.rcv == down.rcv && down'.handed == down.handed
    decreases |p.rest|
  {
    if p.rest == [] || O.Blocked(p.t, p.rest[0]) {
      down' := down;
      P.ReachesItself(down);
    } else {
      var now := clock(|p.rest|);
      O.SendFirstOk(p, now);
      var mid := FirstMoves(p, now, k, down);
      down' := DrainMoves(O.SendFirst(p, now), clock, k, mid);
      P.ReachesTrans(down, mid, down');
    }
  }

  lemma FirstMoves(p: O.Progress, now: u64, k: nat, down: L.State) returns (down': L.State)
    requires Ok(p.t) && k < |p.t.sessions| && down.tx == S.Acking(p.t.sessions[k].snd, p.t.sessions[k].rtt)
    requires p.rest != [] && !O.Blocked(p.t, p.rest[0])
    ensures
      var p' := O.SendFirst(p, now);
      && |p'.t.sessions| == |p.t.sessions| && p'.t.sessions[k].rcv == p.t.sessions[k].rcv
      && down'.tx == S.Acking(p'.t.sessions[k].snd, p'.t.sessions[k].rtt)
      && L.Reaches(down, down') && down'.rcv == down.rcv && down'.handed == down.handed
  {
    var x := p.rest[0];
    assert SlotOk(p.t.sessions[k], k);
    down' := down;
    P.ReachesItself(down);
    if x.clientId == k && O.Reachable(p.t, x) && Q.Legal(x) && S.Reliable(x.mode) {
      down' := SendMoves(down, x, now);
    }
  }

  /** The timer of a connected session backs off and sends again in steps of the link. */
  lemma TimerMoves(x: Session, now: u64, up: L.State, down: L.State) returns (down': L.State)
    requires S.Ok(x.snd) && Hosts(x, up, down)
    ensures Hosts(Retransmitted(x, now), up, down') && Moved(up, down, up, down', [])
  {
    down' := Rounds.Fired(down, now, MAX_EXPIRED);
    Rounds.FiredReaches(down, now, MAX_EXPIRED);
    P.ReachesItself(up);
  }

  // ------------------------------------------------------------ every step

  /** The session of slot k is the same one before and after. */
  ghost predicate Continues(t: Table, t': Table, k: nat) {
    && k < |t.sessions| == |t'.sessions| && Live(t.sessions[k]) && Live(t'.sessions[k])
    && t'.sessions[k].addr == t.sessions[k].addr
  }

  lemma ConnectMoves(t: Table, from: NetAddr, raw: u32, now: u64, k: nat, up: L.State, down: L.State)
    requires Ok(t) && Continues(t, OnConnect(t, from, raw, now).t, k) && Hosts(t.sessions[k], up, down)
    ensures Hosts(OnConnect(t, from, raw, now).t.sessions[k], up, down)
  {
  }

  lemma IncomingMoves(t: Table, from: NetAddr, p: Packet, now: u64, k: nat, up: L.State, down: L.State)
    returns (up': L.State, down': L.State, items: seq<R.Item>)
    requires Ok(t) && Continues(t, OnSessionPacket(t, from, p, now).t, k) && Hosts(t.sessions[k], up, down)
    requires Honest(Incoming(from, p, now), t.sessions[k], up, down)
    ensures Hosts(OnSessionPacket(t, from, p, now).t.sessions[k], up', down') && Moved(up, down, up', down', items)
    ensures items == if from == t.sessions[k].addr then OnSessionPacket(t, from, p, now).items else []
  {
    var x := t.sessions[k];
    up', down', items := up, down, [];
    NotMoved(up, down);
    assert SlotOk(x, k);
    if from == x.addr {
      FindsTheOnly(t, k);
      if x.sessionId == p.sessionId && p.kind != PKT_CONNECT_ACK && p.kind != PKT_DISCONNECT {
        up', down' := PacketMoves(Touch(x, now), p, now, up, down);
        items := OnSessionPacket(t, from, p, now).items;
      }
    }
  }

  lemma SweepMoves(t: Table, now: u64, timeoutMs: u32, k: nat, up: L.State, down: L.State) returns (down': L.State)
    requires Ok(t) && Continues(t, SweepFrom(t, 0, now, timeoutMs), k) && Hosts(t.sessions[k], up, down)
    ensures Hosts(SweepFrom(t, 0, now, timeoutMs).sessions[k], up, down') && Moved(up, down, up, down', [])
  {
    SweepMeaning(t, 0, now, timeoutMs);
    assert SlotOk(t.sessions[k], k);
    down' := down;
    NotMoved(up, down);
    if t.sessions[k].state == Connected {
      down' := TimerMoves(t.sessions[k], now, up, down);
    }
  }

  /** What a step hands up for the session of slot k. */
  ghost function ItemsFor(t: Table, step: Step, k: nat): (items: seq<R.Item>)
    requires Ok(t) && k < |t.sessions|
  {
    if step.Incoming? && step.from == t.sessions[k].addr then Do(t, step).items else []
  }

  /** Whatever the server does, a session that goes on is moved by steps of its two links, and hands up what
      its link hands up. */
  lemma SlotFollowsLinks(t: Table, step: Step, k: nat, up: L.State, down: L.State)
    returns (up': L.State, down': L.State)
    requires Ok(t) && Continues(t, Do(t, step).t, k)
    requires Hosts(t.sessions[k], up, down) && Honest(step, t.sessions[k], up, down)
    ensures Hosts(Do(t, step).t.sessions[k], up', down') && Moved(up, down, up', down', ItemsFor(t, step, k))
  {
    up', down' := up, down;
    NotMoved(up, down);
    match step {
      case Connect(from, raw, now) => ConnectMoves(t, from, raw, now, k, up, down);
      case Incoming(from, packet, now) =>
        var items;
        up', down', items := IncomingMoves(t, from, packet, now, k, up, down);
      case KickClient(clientId) =>
      case Sweep(now, timeoutMs) => down' := SweepMoves(t, now, timeoutMs, k, up, down);
      case Drain(backlog, clock) => down' := DrainMoves(O.Progress(t, backlog, []), clock, k, down);
    }
  }

  // ------------------------------------------------------------ whole lives of a session

  /** The server's table, and the links of the session in slot k. */
  datatype Joint = Joint(t: Table, up: L.State, down: L.State)

  ghost predicate Serves(j: Joint, j': Joint, k: nat, step: Step)
    requires Ok(j.t)
  {
    && j'.t == Do(j.t, step).t && Continues(j.t, j'.t, k)
    && Honest(step, j.t.sessions[k], j.up, j.down)
    && Hosts(j'.t.sessions[k], j'.up, j'.down)
    && Moved(j.up, j.down, j'.up, j'.down, ItemsFor(j.t, step, k))
  }

  /** The server takes a step that the session survives. */
  ghost predicate ServerTurn(j: Joint, j': Joint, k: nat) {
    Ok(j.t) && exists step :: Serves(j, j', k, step)
  }

  /** The client or the network takes steps: they touch neither the table nor the server's halves. */
  ghost predicate PeerTurn(j: Joint, j': Joint) {
    && j'.t == j.t && j'.up.rcv == j.up.rcv && j'.down.tx == j.down.tx
    && L.Reaches(j.up, j'.up) && L.Reaches(j.down, j'.down)
  }

  /** A session just allocated, with a client that has just started over. */
  ghost predicate Starts(j: Joint, k: nat) {
    && Ok(j.t) && k < |j.t.sessions| && Live(j.t.sessions[k])
    && Hosts(j.t.sessions[k], j.up, j.down) && L.Initial(j.up) && L.Initial(j.down)
  }

  ghost predicate IsLife(life: seq<Joint>, k: nat) {
    GoesOn(life, k) && Starts(life[0], k)
  }

  ghost predicate GoesOn(life: seq<Joint>, k: nat) {
    |life| > 0 && forall i | 0 < i < |life| :: TurnInto(life, i, k)
  }

  ghost predicate TurnInto(life: seq<Joint>, i: nat, k: nat)
    requires 0 < i < |life|
  {
    Turn(life[i - 1], life[i], k)
  }

  ghost predicate Turn(j: Joint, j': Joint, k: nat) {
    ServerTurn(j, j', k) || PeerTurn(j, j')
  }

  ghost predicate Hosted(j: Joint, k: nat) {
    && Ok(j.t) && k < |j.t.sessions| && Live(j.t.sessions[k])
    && Hosts(j.t.sessions[k], j.up, j.down) && L.Inv(j.up) && L.Inv(j.down)
  }

  lemma ServerTurnHosted(j: Joint, j': Joint, k: nat)
    ensures Hosted(j, k) && ServerTurn(j, j', k) ==> Hosted(j', k)
  {
    if Hosted(j, k) && ServerTurn(j, j', k) {
      var step :| Serves(j, j', k, step);
      StepOk(j.t, step);
      P.ReachesInv(j.up, j'.up);
      P.ReachesInv(j.down, j'.down);
    }
  }

  lemma PeerTurnHosted(j: Joint, j': Joint, k: nat)
    ensures Hosted(j, k) && PeerTurn(j, j') ==> Hosted(j', k)
  {
    P.ReachesInv(j.up, j'.up);
    P.ReachesInv(j.down, j'.down);
  }

  lemma StartHosted(j: Joint, k: nat)
    ensures Starts(j, k) ==> Hosted(j, k)
  {
    if Starts(j, k) {
      P.InitialInv(j.up);
      P.InitialInv(j.down);
    }
  }

  lemma TurnHosted(j: Joint, j': Joint, k: nat)
    ensures Hosted(j, k) && Turn(j, j', k) ==> Hosted(j', k)
  {
    ServerTurnHosted(j, j', k);
    PeerTurnHosted(j, j', k);
  }

  lemma NextTurn(life: seq<Joint>, i: nat, k: nat)
    ensures GoesOn(life, k) && 0 < i < |life| ==> Turn(life[i - 1], life[i], k)
  {
    if GoesOn(life, k) && 0 < i < |life| { assert TurnInto(life, i, k); }
  }

  lemma NextHosted(life: seq<Joint>, i: nat, k: nat)
    requires GoesOn(life, k) && 0 < i < |life|
    ensures Hosted(life[i - 1], k) ==> Hosted(life[i], k)
  {
    NextTurn(life, i, k);
    TurnHosted(life[i - 1], life[i], k);
  }

  lemma {:induction false} StaysHosted(life: seq<Joint>, i: nat, k: nat)
    requires GoesOn(life, k) && i < |life|
    ensures Hosted(life[0], k) ==> Hosted(life[i], k)
  {
    if i > 0 {
      StaysHosted(life, i - 1, k);
      NextHosted(life, i, k);
    }
  }

  lemma LifeHosted(life: seq<Joint>, i: nat, k: nat)
    requires IsLife(life, k) && i < |life|
    ensures Hosted(life[i], k)
  {
    StartHosted(life[0], k);
    StaysHosted(life, i, k);
  }

  /** The guarantees of a link, inside the table.  At every moment of a session's life, among whatever other
      clients do: the ordered messages handed up for it are exactly those of its client below the session's
      `expected`, in order and once each, the unordered ones are exactly those accepted, and all that the
      session's send window holds acked its client has accepted. */
  lemma SessionGuarantees(life: seq<Joint>, i: nat, k: nat)
    requires IsLife(life, k) && i < |life|
    ensures
      var j := life[i];
      k < |j.t.sessions| && var x := j.t.sessions[k];
      && Live(x) && x.rcv.expected <= |j.up.tx.snd.log|
      && L.OfMode(j.up.handed, S.RELIABLE_ORDERED) == L.OrderedBelow(j.up.tx.snd.log, x.rcv.expected)
      && L.OnceEach(L.OfMode(j.up.handed, S.RELIABLE_UNORDERED), j.up.tx.snd.log, x.rcv)
      && x.snd.head <= j.down.rcv.expected <= |x.snd.log|
      && forall n: nat | n < x.snd.head || n in x.snd.acked :: R.Accepted(j.down.rcv, n)
  {
    LifeHosted(life, i, k);
  }

  /** Every server step a session survives is such a turn. */
  lemma EveryStepIsATurn(j: Joint, step: Step, k: nat) returns (j': Joint)
    requires Hosted(j, k) && Continues(j.t, Do(j.t, step).t, k)
    requires Honest(step, j.t.sessions[k], j.up, j.down)
    ensures ServerTurn(j, j', k) && j'.t == Do(j.t, step).t
  {
    var up', down' := SlotFollowsLinks(j.t, step, k, j.up, j.down);
    j' := Joint(Do(j.t, step).t, up', down');
    assert Serves(j, j', k, step);
  }

  /** And every session begins as `Starts` says: a newcomer's connect request that is answered leaves a
      session with fresh windows, for a client whose windows, of any capacity, are fresh as well. */
  lemma AllocationStarts(t: Table, from: NetAddr, raw: u32, now: u64, clientCap: nat, rtt: Rtt.Estimate)
    returns (j: Joint, k: nat)
    requires Ok(t) && FindAddr(t.sessions, from, 0) == |t.sessions| && Capacity(clientCap)
    requires OnConnect(t, from, raw, now).reply.ConnectResp?
    ensures j.t == OnConnect(t, from, raw, now).t && Starts(j, k) && j.t.sessions[k].addr == from
  {
    ConnectOk(t, from, raw, now);
    k := Place(t);
    var t' := OnConnect(t, from, raw, now).t;
    var x := t'.sessions[k];
    assert SlotOk(t.sessions[k], k);
    j := Joint(t',
               L.State(S.Acking(S.Start(clientCap, 1), rtt), x.rcv, {}, {}, []),
               L.State(S.Acking(x.snd, x.rtt), R.StartRecv(clientCap, 1), {}, {}, []));
  }
}
