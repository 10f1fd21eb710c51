/** What the server's steps mean to a client, in terms of what it sends and gets. */
module ServerMeaning {
  import opened Words
  import opened SeqNum
  import opened SessionSpec
  import opened ServerSpec
  import S = SendSpec
  import R = RecvSpec
  import O = OutboundSpec
  import Rtt

  /** Slot k holds the live session of the address and token a packet carries. */
  ghost predicate Addressed(t: Table, k: nat, from: NetAddr, p: Packet) {
    && Ok(t) && k < |t.sessions| && Live(t.sessions[k])
    && t.sessions[k].addr == from && t.sessions[k].sessionId == p.sessionId
  }

  // ------------------------------------------------------------ packets of a session

  /** A reliable data packet goes through the receive window: what the window hands up is handed up, and the
      window is kept. */
  lemma DataArrives(t: Table, k: nat, from: NetAddr, p: Packet, now: u64)
    requires Addressed(t, k, from, p) && p.kind == 4 && S.Reliable(p.msg.mode)
    ensures
      var e, o := OnSessionPacket(t, from, p, now), R.Deliver(t.sessions[k].rcv, p.seqNum, p.msg);
      && |e.t.sessions| == |t.sessions|
      && e.items == o.items && e.t.sessions[k].rcv == o.rcv
  {
    FindsTheOnly(t, k);
  }

  /** Any other packet hands up no reliable message and leaves the receive window alone. */
  lemma OthersBringNothing(t: Table, k: nat, from: NetAddr, p: Packet, now: u64)
    requires Addressed(t, k, from, p) && (p.kind != 4 || !S.Reliable(p.msg.mode))
    ensures
      var e := OnSessionPacket(t, from, p, now);
      |e.t.sessions| == |t.sessions| && e.items == [] && e.t.sessions[k].rcv == t.sessions[k].rcv
  {
    FindsTheOnly(t, k);
  }

  lemma NextIsNew(r: R.Receiver, msg: S.Msg)
    requires R.RecvOk(r) && R.Quiet(r) && S.Reliable(msg.mode)
    ensures
      var o := R.Deliver(r, Wire(r.isn, r.expected), msg);
      o.rcv.expected > r.expected && |o.items| > 0 && o.items[0] == R.Item(r.expected, msg)
  {
    var r1 := R.Admit(r, r.expected, msg);
    R.DrainOk(R.Advance(r1));
    assert R.Drain(r1).items == R.Passing(r1) + R.Drain(R.Advance(r1)).items;
  }

  /** The packet a session waits for is handed up first and moves it on. */
  lemma NextArrives(t: Table, k: nat, from: NetAddr, p: Packet, now: u64)
    requires Addressed(t, k, from, p) && p.kind == 4 && S.Reliable(p.msg.mode)
    requires p.seqNum == Wire(t.sessions[k].rcv.isn, t.sessions[k].rcv.expected)
    ensures
      var e, was := OnSessionPacket(t, from, p, now), t.sessions[k].rcv;
      && |e.t.sessions| == |t.sessions| && e.t.sessions[k].rcv.expected > was.expected
      && |e.items| > 0 && e.items[0] == R.Item(was.expected, p.msg)
  {
    assert SlotOk(t.sessions[k], k);
    DataArrives(t, k, from, p, now);
    NextIsNew(t.sessions[k].rcv, p.msg);
  }

  /** The ack fields of every packet but a handshake completion and a disconnect reach the send window and the
      estimator. */
  lemma AckArrives(t: Table, k: nat, from: NetAddr, p: Packet, now: u64)
    requires Addressed(t, k, from, p)
    ensures
      var e, was := OnSessionPacket(t, from, p, now), t.sessions[k];
      && |e.t.sessions| == |t.sessions| && SlotOk(was, k)
      && (p.kind != 3 && p.kind != 8 ==>
            S.Acking(e.t.sessions[k].snd, e.t.sessions[k].rtt)
              == S.OnAck(S.Acking(was.snd, was.rtt), p.ackNum, p.sackMask, now))
      && (p.kind == 3 || p.kind == 8 ==> e.t.sessions[k].snd == was.snd && e.t.sessions[k].rtt == was.rtt)
  {
    FindsTheOnly(t, k);
  }

  /** Every packet counts as activity.  All but a disconnect complete the handshake; a disconnect closes the
      session; only a heartbeat is answered. */
  lemma PacketTouches(t: Table, k: nat, from: NetAddr, p: Packet, now: u64)
    requires Addressed(t, k, from, p)
    ensures
      var e, was := OnSessionPacket(t, from, p, now), t.sessions[k];
      && |e.t.sessions| == |t.sessions| && e.t.sessions[k].lastActivity == now
      && (p.kind != 8 ==>
            && Live(e.t.sessions[k]) && e.t.active == t.active && e.t.sessions[k].sessionId == was.sessionId
            && e.t.sessions[k].state == if was.state == Connecting then Connected else was.state)
      && (p.kind == 8 ==> e.t.sessions[k].state == Disconnected && e.t.active == t.active - 1)
      && e.reply == if p.kind == 6 then HeartbeatAck else Silent
  {
    FindsTheOnly(t, k);
    assert k in LiveSet(t.sessions);
  }

  /** A packet without a session of its address and token changes nothing and is answered by a reset, unless
      it is itself a reset, a disconnect or a reject. */
  lemma StrangerIsReset(t: Table, from: NetAddr, p: Packet, now: u64)
    requires Ok(t) && forall k: nat :: !Addressed(t, k, from, p)
    ensures
      var e := OnSessionPacket(t, from, p, now);
      && e.t == t && e.items == [] && !e.heard
      && e.reply == if p.kind == 8 || p.kind == 9 || p.kind == 10 then Silent else ResetFor(p.sessionId, p.seqNum)
  {
    var k := FindAddr(t.sessions, from, 0);
    assert !Addressed(t, k, from, p);
  }

  // ------------------------------------------------------------ coming and going

  /** A newcomer gets a session that is connecting, under a token that is not zero, with both windows empty
      and starting at 1, the unreliable counter at 1 and the estimator at its defaults. */
  lemma Newcomer(t: Table, from: NetAddr, raw: u32, now: u64) returns (k: nat)
    requires Ok(t) && FindAddr(t.sessions, from, 0) == |t.sessions|
    requires OnConnect(t, from, raw, now).reply.ConnectResp?
    ensures
      var e := OnConnect(t, from, raw, now);
      k < |t.sessions| == |e.t.sessions| && var was, x := t.sessions[k], e.t.sessions[k];
      && e.reply == ConnectResp(if raw == 0 then 1 else raw) && x.sessionId == (if raw == 0 then 1 else raw)
      && x.clientId == k && x.addr == from && x.state == Connecting && x.lastActivity == now
      && x.snd == S.Sender(was.snd.cap, 1, 0, [], {}) && x.unrel == 1
      && x.rcv == R.Receiver(was.rcv.cap, 1, 0, map[])
      && x.rtt == Rtt.Estimate(0, 0, 200, 20, 2000, false)
      && forall j | 0 <= j < |t.sessions| && j != k :: e.t.sessions[j] == t.sessions[j]
  {
    k := Place(t);
    assert SlotOk(t.sessions[k], k);
  }

  /** A kick closes the session of a live client, takes its token away and touches no other. */
  lemma KickCloses(t: Table, clientId: nat)
    requires Ok(t) && clientId < |t.sessions|
    ensures
      var t' := Kick(t, clientId);
      && |t'.sessions| == |t.sessions| && t'.sessions[clientId].state == Disconnected
      && (Live(t.sessions[clientId]) ==> t'.active == t.active - 1 && t'.sessions[clientId].sessionId == 0)
      && (!Live(t.sessions[clientId]) ==> t' == t)
      && forall j | 0 <= j < |t.sessions| && j != clientId :: t'.sessions[j] == t.sessions[j]
  {
    assert Live(t.sessions[clientId]) ==> clientId in LiveSet(t.sessions);
  }

  /** Idle means idle for the timeout in milliseconds, on a clock of nanoseconds; a session heard in the future
      counts as idle for nearly 2^64 of them. */
  lemma IdleMeaning(s: Session, now: u64, timeoutMs: u32)
    ensures now >= s.lastActivity ==> (TimedOut(s, now, timeoutMs) <==> now - s.lastActivity >= timeoutMs * 1000000)
    ensures now < s.lastActivity ==>
              (TimedOut(s, now, timeoutMs) <==> s.lastActivity - now <= 0x1_0000_0000_0000_0000 - timeoutMs * 1000000)
  {
  }

  // ------------------------------------------------------------ the timer pass

  /** The packets that carry some numbers of a window. */
  ghost predicate Carry(packets: seq<(u32, S.Msg)>, snd: S.Sender, due: seq<nat>) {
    && |packets| == |due|
    && forall i | 0 <= i < |due| :: due[i] < |snd.log| && packets[i] == (Wire(snd.isn, due[i]), snd.log[due[i]].msg)
  }

  lemma {:induction false} NoneFromOthers(ss: seq<Session>, i: nat, k: nat, now: u64, timeoutMs: u32)
    requires i <= |ss| && (forall j | i <= j < |ss| :: ss[j].clientId != k)
    ensures O.SentTo(TimerPackets(ss, i, now, timeoutMs), k) == []
    decreases |ss| - i
  {
    if i < |ss| {
      NoneFromOthers(ss, i + 1, k, now, timeoutMs);
      O.SentToBoth(SlotSends(ss[i], now, timeoutMs), TimerPackets(ss, i + 1, now, timeoutMs), k);
      SlotSendsMeaning(ss[i], now, timeoutMs, k);
    }
  }

  lemma SlotSendsMeaning(s: Session, now: u64, timeoutMs: u32, k: nat)
    ensures
      var packets := O.SentTo(SlotSends(s, now, timeoutMs), k);
      if k == s.clientId && s.state == Connected && !TimedOut(s, now, timeoutMs)
      then Carry(packets, s.snd, S.Expired(s.snd, s.snd.head, now, s.rtt.rto, 16))
      else packets == []
  {
    var due := S.Expired(s.snd, s.snd.head, now, s.rtt.rto, 16);
    O.AddressedMeaning(s.clientId, S.PacketsFirst(s.snd, due, |due|), k);
  }

  lemma {:induction false} TimerSends(ss: seq<Session>, i: nat, k: nat, now: u64, timeoutMs: u32)
    requires i <= k < |ss| && (forall j | 0 <= j < |ss| :: ss[j].clientId == j)
    ensures O.SentTo(TimerPackets(ss, i, now, timeoutMs), k) == O.SentTo(SlotSends(ss[k], now, timeoutMs), k)
    decreases k - i
  {
    O.SentToBoth(SlotSends(ss[i], now, timeoutMs), TimerPackets(ss, i + 1, now, timeoutMs), k);
    if i == k {
      NoneFromOthers(ss, i + 1, k, now, timeoutMs);
    } else {
      SlotSendsMeaning(ss[i], now, timeoutMs, k);
      TimerSends(ss, i + 1, k, now, timeoutMs);
    }
  }

  lemma IdsAreSlots(t: Table)
    requires Ok(t)
    ensures forall j | 0 <= j < |t.sessions| :: t.sessions[j].clientId == j
  {
    forall j | 0 <= j < |t.sessions| ensures t.sessions[j].clientId == j {
      assert SlotOk(t.sessions[j], j);
    }
  }

  /** In the timer pass a client is sent its due messages, at most 16 and oldest first, under their own numbers,
      if it is connected and not idle, and nothing otherwise. */
  lemma TimerSendsDue(t: Table, k: nat, now: u64, timeoutMs: u32)
    requires Ok(t) && k < |t.sessions|
    ensures
      var x, packets := t.sessions[k], O.SentTo(Do(t, Sweep(now, timeoutMs)).sent, k);
      if x.state == Connected && !TimedOut(x, now, timeoutMs)
      then Carry(packets, x.snd, S.Expired(x.snd, x.snd.head, now, x.rtt.rto, 16))
      else packets == []
  {
    IdsAreSlots(t);
    TimerSends(t.sessions, 0, k, now, timeoutMs);
    SlotSendsMeaning(t.sessions[k], now, timeoutMs, k);
  }
}
