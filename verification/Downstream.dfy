/** A reconnect seen from the server's own traffic.  The client starts its receive window over; the server
    either sends on from where its window was, or has forgotten the session and its un-acked messages. */
module Downstream {
  import opened Words
  import opened SeqNum
  import opened SendSpec
  import opened RecvSpec
  import opened AckTheory
  import opened Link
  import opened LinkProofs
  import SS = SessionSpec
  import V = ServerSpec

  // ------------------------------------------------------------ a session the server forgot

  /** The new session of a client whose old one was closed or evicted starts with an empty window: of what
      the server had sent and not seen acked, and of all its numbering, nothing is carried over. */
  lemma ForgottenSessionDiscards(t: SS.Table, from: SS.NetAddr, raw: u32, now: u64)
    requires SS.Ok(t) && SS.FindAddr(t.sessions, from, 0) == |t.sessions|
    ensures
      var e := V.OnConnect(t, from, raw, now);
      e.reply.ConnectResp? ==>
        var k := SS.FindAddr(e.t.sessions, from, 0);
        k < |e.t.sessions| && e.t.sessions[k].snd.log == [] && Unacked(e.t.sessions[k].snd) == {}
  {
    var e := V.OnConnect(t, from, raw, now);
    if e.reply.ConnectResp? {
      V.ConnectOk(t, from, raw, now);
      V.FindsTheOnly(e.t, SS.Place(t));
    }
  }

  // ------------------------------------------------------------ a session the server kept

  /** The server's window with a client that expects number 0 again and nothing in flight. */
  ghost predicate Restarting(s: State) {
    && Ok(s.tx.snd) && Capacity(s.rcv.cap) && s.rcv == StartRecv(s.rcv.cap, s.tx.snd.isn)
    && (forall n | 0 <= n < |s.tx.snd.log| :: Storable(s.tx.snd.log[n].msg))
    && s.data == {} && s.acks == {} && s.handed == []
  }

  /** Number g is done with at the sender. */
  predicate Retired(snd: Sender, g: nat) {
    g < |snd.log| && (g < snd.head || g in snd.acked)
  }

  lemma {:induction false} DrainStopsAt(r: Receiver, g: nat)
    requires RecvOk(r) && r.expected <= g && g !in r.buf
    ensures
      var d := Drain(r);
      && RecvOk(d.rcv) && d.rcv.expected <= g && g !in d.rcv.buf && d.rcv.isn == r.isn && Quiet(d.rcv)
      && forall i | 0 <= i < |d.items| :: d.items[i].num < g
    decreases |r.buf|
  {
    if r.expected in r.buf { DrainStopsAt(Advance(r), g); }
  }

  /** The receiver is still short of g. */
  ghost predicate ShortOf(r: Receiver, g: nat) {
    RecvOk(r) && Quiet(r) && r.expected <= g && g !in r.buf
  }

  ghost predicate HandedBelow(items: seq<Item>, g: nat) {
    forall i | 0 <= i < |items| :: items[i].msg.mode == RELIABLE_ORDERED ==> items[i].num < g
  }

  /** The sender is done with g; its head stays at or below `top`. */
  ghost predicate DoneWith(snd: Sender, g: nat, top: nat) {
    && Ok(snd) && Retired(snd, g) && snd.head <= top && g <= top
    && top + snd.cap <= 0x8000_0000
    && forall n | 0 <= n < |snd.log| :: Storable(snd.log[n].msg)
  }

  /** The receiver is short of g, and nothing in flight can help it over. */
  ghost predicate StuckBefore(s: State, g: nat, top: nat) {
    && DoneWith(s.tx.snd, g, top) && s.tx.snd.isn == s.rcv.isn && ShortOf(s.rcv, g) && HandedBelow(s.handed, g)
    && (forall p | p in s.data :: p.num < |s.tx.snd.log| && p.num != g && Storable(p.msg))
    && (forall k | k in s.acks :: k.expected <= g && k.ackNum == Wire(s.rcv.isn, k.expected - 1))
  }

  lemma DeliveryShort(r: Receiver, g: nat, n: nat, msg: Msg)
    requires ShortOf(r, g) && Reliable(msg.mode) && n != g && n < 0x8000_0000 && g <= 0x8000_0000
    ensures
      var o := Deliver(r, Wire(r.isn, n), msg);
      ShortOf(o.rcv, g) && o.rcv.isn == r.isn && HandedBelow(o.items, g)
  {
    DeliverMeaning(r, n, msg);
    if !Accepted(r, n) && n < r.expected + r.cap {
      DrainStopsAt(Admit(r, n, msg), g);
    }
  }

  lemma DeliveryStuck(s: State, g: nat, top: nat, p: Packet)
    requires StuckBefore(s, g, top) && Enabled(s, DeliverData(p))
    ensures StuckBefore(Apply(s, DeliverData(p)), g, top)
  {
    DeliveryShort(s.rcv, g, p.num, p.msg);
  }

  lemma AckDone(a: Acking, g: nat, top: nat, k: AckPacket, at: u64)
    requires DoneWith(a.snd, g, top) && k.expected <= g && k.ackNum == Wire(a.snd.isn, k.expected - 1)
    requires a.snd.head - (k.expected - 1) < 0x8000_0000
    ensures
      var snd := OnAck(a, k.ackNum, k.mask, at).snd;
      DoneWith(snd, g, top) && snd.isn == a.snd.isn && snd.log == a.snd.log
  {
    OnAckWindow(a, k.ackNum, k.mask, at);
    HeadOfSoundAck(a.snd, k);
  }

  lemma AckStuck(s: State, g: nat, top: nat, k: AckPacket, at: u64)
    requires StuckBefore(s, g, top) && Enabled(s, DeliverAck(k, at))
    ensures StuckBefore(Apply(s, DeliverAck(k, at)), g, top)
  {
    AckDone(s.tx, g, top, k, at);
  }

  lemma SendStuck(s: State, g: nat, top: nat, msg: Msg, at: u64)
    requires StuckBefore(s, g, top) && Enabled(s, Send(msg, at))
    ensures StuckBefore(Apply(s, Send(msg, at)), g, top)
  {
  }

  lemma RetransmitStuck(s: State, g: nat, top: nat, n: nat, at: u64)
    requires StuckBefore(s, g, top) && Enabled(s, Retransmit(n, at))
    ensures StuckBefore(Apply(s, Retransmit(n, at)), g, top)
  {
  }

  lemma StepStuck(s: State, step: Step, g: nat, top: nat)
    requires StuckBefore(s, g, top) && Enabled(s, step)
    ensures StuckBefore(Apply(s, step), g, top)
  {
    match step
    case Send(msg, at) => SendStuck(s, g, top, msg, at);
    case Retransmit(n, at) => RetransmitStuck(s, g, top, n, at);
    case Backoff =>
    case DeliverData(p) => DeliveryStuck(s, g, top, p);
    case EmitAck =>
    case DeliverAck(k, at) => AckStuck(s, g, top, k, at);
    case Lose(_, _) =>
  }

  lemma NextStuck(s: State, s': State, g: nat, top: nat)
    ensures StuckBefore(s, g, top) && Next(s, s') ==> StuckBefore(s', g, top)
  {
    if StuckBefore(s, g, top) && Next(s, s') {
      var step :| Enabled(s, step) && s' == Apply(s, step);
      StepStuck(s, step, g, top);
    }
  }

  lemma {:induction false} PathStuck(path: seq<State>, i: nat, g: nat, top: nat)
    requires IsPath(path) && i < |path|
    ensures StuckBefore(path[0], g, top) ==> StuckBefore(path[i], g, top)
  {
    if i > 0 {
      PathStuck(path, i - 1, g, top);
      PathStep(path, i);
      NextStuck(path[i - 1], path[i], g, top);
    }
  }

  /** A number the server no longer sends is one the client waits for in vain: whatever is sent, delivered,
      lost and acked from then on, `expected` never passes it and no ordered message from it on is handed
      up.  With any ack in effect there is such a number, so ordered traffic to the client stops. */
  lemma KeptSessionStalls(path: seq<State>, i: nat, g: nat)
    requires IsPath(path) && i < |path| && Restarting(path[0]) && Retired(path[0].tx.snd, g)
    requires |path[0].tx.snd.log| + path[0].tx.snd.cap <= 0x8000_0000
    ensures path[i].rcv.expected <= g
    ensures HandedBelow(path[i].handed, g)
  {
    PathStuck(path, i, g, |path[0].tx.snd.log|);
  }

  /** With no ack in effect nothing is retired, and the session goes on from its first message. */
  lemma KeptSessionStartsOver(s: State)
    requires Restarting(s)
    ensures Inv(s) <==> s.tx.snd.head == 0 && s.tx.snd.acked == {}
    ensures (forall g: nat :: !Retired(s.tx.snd, g)) <==> s.tx.snd.head == 0 && s.tx.snd.acked == {}
  {
    if s.tx.snd.head > 0 {
      assert Retired(s.tx.snd, 0);
    } else if s.tx.snd.acked != {} {
      var g :| g in s.tx.snd.acked;
      assert Retired(s.tx.snd, g) && !Accepted(s.rcv, g);
    }
  }
}
