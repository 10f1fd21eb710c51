/** The server worker's steps on the session table, and what holds over all their runs. */
module ServerSpec {
  import opened Words
  import opened SessionSpec
  import S = SendSpec
  import R = RecvSpec
  import Q = QueueSpec
  import O = OutboundSpec

  /** How many messages one retransmission round sends again at most. */
  const MAX_EXPIRED := 16

  const PKT_CONNECT_ACK: u8 := 3
  const PKT_DATA: u8 := 4
  const PKT_HEARTBEAT: u8 := 6
  const PKT_DISCONNECT: u8 := 8
  const PKT_REJECT: u8 := 9
  const PKT_RESET: u8 := 10

  /** The parts of a decoded datagram that the worker looks at. */
  datatype Packet = Packet(kind: u8, sessionId: u32, seqNum: u32, ackNum: u32, sackMask: u32, msg: S.Msg)

  datatype Reply =
    Silent | ConnectResp(sessionId: u32) | Rejected | ResetFor(sessionId: u32, seqNum: u32) | HeartbeatAck

  /** A step's effect: the table, the packet sent back, the reliable messages handed up, whether the sender's
      address was heard, that is its connect request or its packet was accepted, and the data packets sent. */
  datatype Effect = Effect(t: Table, reply: Reply, items: seq<R.Item>, heard: bool, sent: seq<O.Outgoing>)

  // ------------------------------------------------------------ steps

  function OnConnect(t: Table, from: NetAddr, raw: u32, now: u64): (e: Effect) {
    var k := FindAddr(t.sessions, from, 0);
    if k < |t.sessions| then
      var s := t.sessions[k];
      Effect(Replace(t, k, s.(lastActivity := now)), ConnectResp(s.sessionId), [], true, [])
    else if Place(t) < 0 then Effect(t, Rejected, [], false, [])
    else
      var token := if raw == 0 then 1 else raw;
      var t' := Allocate(t, from, token);
      var slot := Place(t);
      Effect(Replace(t', slot, t'.sessions[slot].(lastActivity := now)), ConnectResp(token), [], true, [])
  }

  /** A packet of a session past the token check: any one promotes a connecting session. */
  function Touch(s: Session, now: u64): (s': Session) {
    s.(lastActivity := now, state := if s.state == Connecting then Connected else s.state)
  }

  function Acked(s: Session, p: Packet, now: u64): (s': Session)
    requires S.Ok(s.snd)
  {
    var a := S.OnAck(S.Acking(s.snd, s.rtt), p.ackNum, p.sackMask, now);
    s.(snd := a.snd, rtt := a.rtt)
  }

  /** The reliable receive window after a packet, and the reliable messages it hands up. */
  function Received(s: Session, p: Packet): (o: R.Outcome) {
    if p.kind == PKT_DATA && S.Reliable(p.msg.mode) then R.Deliver(s.rcv, p.seqNum, p.msg)
    else R.Outcome(0, s.rcv, [])
  }

  function OnSessionPacket(t: Table, from: NetAddr, p: Packet, now: u64): (e: Effect)
    requires Ok(t)
  {
    var k := FindAddr(t.sessions, from, 0);
    if k == |t.sessions| || t.sessions[k].sessionId != p.sessionId then
      var silent := p.kind in {PKT_RESET, PKT_DISCONNECT, PKT_REJECT};
      Effect(t, if silent then Silent else ResetFor(p.sessionId, p.seqNum), [], false, [])
    else
      assert SlotOk(t.sessions[k], k);
      var s := Touch(t.sessions[k], now);
      if p.kind == PKT_CONNECT_ACK then Effect(Replace(t, k, s), Silent, [], true, [])
      else if p.kind == PKT_DISCONNECT then Effect(Free(Replace(t, k, s), k), Silent, [], true, [])
      else
        var s' := Acked(s, p, now);
        var o := Received(s', p);
        Effect(Replace(t, k, s'.(rcv := o.rcv)), if p.kind == PKT_HEARTBEAT then HeartbeatAck else Silent, o.items, true, [])
  }

  /** Idle for at least the timeout, in 64-bit arithmetic. */
  predicate TimedOut(s: Session, now: u64, timeoutMs: u32) {
    (now - s.lastActivity) % 0x1_0000_0000_0000_0000 >= timeoutMs * 1000000
  }

  /** The retransmission timer of one session. */
  function Retransmitted(s: Session, now: u64): (s': Session) {
    var a := S.OnTimer(S.Acking(s.snd, s.rtt), now, MAX_EXPIRED);
    s.(snd := a.snd, rtt := a.rtt)
  }

  /** The packets a slot sends again in the timer pass. */
  function SlotSends(s: Session, now: u64, timeoutMs: u32): (sent: seq<O.Outgoing>) {
    if s.state != Connected || TimedOut(s, now, timeoutMs) then []
    else
      var due := S.Expired(s.snd, s.snd.head, now, s.rtt.rto, MAX_EXPIRED);
      O.AddressedTo(s.clientId, S.PacketsFirst(s.snd, due, |due|))
  }

  /** All of them, from slot i on. */
  function TimerPackets(ss: seq<Session>, i: nat, now: u64, timeoutMs: u32): (sent: seq<O.Outgoing>)
    requires i <= |ss|
    decreases |ss| - i
  {
    if i == |ss| then [] else SlotSends(ss[i], now, timeoutMs) + TimerPackets(ss, i + 1, now, timeoutMs)
  }

  /** The timer pass over one slot: an idle session is closed, a connected one retransmits. */
  function SweepOne(t: Table, i: nat, now: u64, timeoutMs: u32): (t': Table)
    requires i < |t.sessions|
  {
    var s := t.sessions[i];
    if Live(s) && TimedOut(s, now, timeoutMs) then Free(t, i)
    else if s.state == Connected then Replace(t, i, Retransmitted(s, now))
    else t
  }

  /** The timer pass from slot i on. */
  function SweepFrom(t: Table, i: nat, now: u64, timeoutMs: u32): (t': Table)
    requires i <= |t.sessions|
    decreases |t.sessions| - i
  {
    if i == |t.sessions| then t else SweepFrom(SweepOne(t, i, now, timeoutMs), i + 1, now, timeoutMs)
  }

  /** The disconnect call for a client id. */
  function Kick(t: Table, clientId: nat): (t': Table) {
    if clientId < |t.sessions| then Free(t, clientId) else t
  }

  datatype Step =
    | Connect(from: NetAddr, raw: u32, now: u64)
    | Incoming(from: NetAddr, packet: Packet, now: u64)
    | KickClient(clientId: nat)
    | Sweep(now: u64, timeoutMs: u32)
    | Drain(backlog: seq<Q.QItem>, clock: nat -> u64)

  function Do(t: Table, step: Step): (e: Effect)
    requires Ok(t)
  {
    match step
    case Connect(from, raw, now) => OnConnect(t, from, raw, now)
    case Incoming(from, packet, now) => OnSessionPacket(t, from, packet, now)
    case KickClient(clientId) => Effect(Kick(t, clientId), Silent, [], false, [])
    case Sweep(now, timeoutMs) =>
      Effect(SweepFrom(t, 0, now, timeoutMs), Silent, [], false, TimerPackets(t.sessions, 0, now, timeoutMs))
    case Drain(backlog, clock) =>
      var p := O.DrainBacklog(O.Progress(t, backlog, []), clock);
      Effect(p.t, Silent, [], false, p.sent)
  }

  // ------------------------------------------------------------ the invariant

  lemma ConnectOk(t: Table, from: NetAddr, raw: u32, now: u64)
    requires Ok(t)
    ensures Ok(OnConnect(t, from, raw, now).t)
  {
    var k := FindAddr(t.sessions, from, 0);
    if k < |t.sessions| {
      UpdateOk(t, k, t.sessions[k].(lastActivity := now));
    } else if Place(t) >= 0 {
      var token, slot := if raw == 0 then 1 else raw, Place(t);
      AllocateOk(t, from, token);
      var t' := Allocate(t, from, token);
      assert SlotOk(t'.sessions[slot], slot);
      UpdateOk(t', slot, t'.sessions[slot].(lastActivity := now));
    }
  }

  lemma ReceivedOk(s: Session, p: Packet)
    requires R.RecvOk(s.rcv) && R.Quiet(s.rcv)
    ensures R.RecvOk(Received(s, p).rcv) && R.Quiet(Received(s, p).rcv)
  {
    if p.kind == PKT_DATA && S.Reliable(p.msg.mode) {
      R.DrainOk(s.rcv);
      var r := s.rcv;
      if R.Verdict(r, p.seqNum) == 0 {
        R.DrainOk(R.Admit(r, R.Number(r, p.seqNum), p.msg));
      }
    }
  }

  lemma IncomingOk(t: Table, from: NetAddr, p: Packet, now: u64)
    requires Ok(t)
    ensures Ok(OnSessionPacket(t, from, p, now).t)
  {
    var k := FindAddr(t.sessions, from, 0);
    if k < |t.sessions| && t.sessions[k].sessionId == p.sessionId {
      assert SlotOk(t.sessions[k], k);
      var s := Touch(t.sessions[k], now);
      UpdateOk(t, k, s);
      if p.kind == PKT_DISCONNECT {
        FreeOk(Replace(t, k, s), k);
      } else if p.kind != PKT_CONNECT_ACK {
        var s' := Acked(s, p, now);
        ReceivedOk(s', p);
        UpdateOk(t, k, s'.(rcv := Received(s', p).rcv));
      }
    }
  }

  lemma SweepOneOk(t: Table, i: nat, now: u64, timeoutMs: u32)
    requires Ok(t) && i < |t.sessions|
    ensures Ok(SweepOne(t, i, now, timeoutMs))
  {
    FreeOk(t, i);
    var s := t.sessions[i];
    assert SlotOk(s, i);
    if s.state == Connected {
      S.OnTimerKeeps(S.Acking(s.snd, s.rtt), now, MAX_EXPIRED);
      UpdateOk(t, i, Retransmitted(s, now));
    }
  }

  lemma {:induction false} SweepOk(t: Table, i: nat, now: u64, timeoutMs: u32)
    requires Ok(t) && i <= |t.sessions|
    ensures Ok(SweepFrom(t, i, now, timeoutMs))
    decreases |t.sessions| - i
  {
    if i < |t.sessions| {
      SweepOneOk(t, i, now, timeoutMs);
      SweepOk(SweepOne(t, i, now, timeoutMs), i + 1, now, timeoutMs);
    }
  }

  /** Every server step keeps the table invariant. */
  lemma StepOk(t: Table, step: Step)
    requires Ok(t)
    ensures Ok(Do(t, step).t)
  {
    match step
    case Connect(from, raw, now) => ConnectOk(t, from, raw, now);
    case Incoming(from, packet, now) => IncomingOk(t, from, packet, now);
    case KickClient(clientId) => if clientId < |t.sessions| { FreeOk(t, clientId); }
    case Sweep(now, timeoutMs) => SweepOk(t, 0, now, timeoutMs);
    case Drain(backlog, clock) => O.DrainBacklogOk(O.Progress(t, backlog, []), clock);
  }

  /** The timer pass closes exactly the live sessions that have been idle too long, and the connected ones
      among the rest retransmit. */
  lemma {:induction false} SweepMeaning(t: Table, i: nat, now: u64, timeoutMs: u32)
    requires i <= |t.sessions|
    ensures
      var t' := SweepFrom(t, i, now, timeoutMs);
      && |t'.sessions| == |t.sessions| && t'.policy == t.policy
      && forall j | 0 <= j < |t.sessions| ::
           t'.sessions[j] ==
             if j < i then t.sessions[j]
             else if Live(t.sessions[j]) && TimedOut(t.sessions[j], now, timeoutMs) then Closed(t.sessions[j])
             else if t.sessions[j].state == Connected then Retransmitted(t.sessions[j], now)
             else t.sessions[j]
    decreases |t.sessions| - i
  {
    if i < |t.sessions| {
      SweepMeaning(SweepOne(t, i, now, timeoutMs), i + 1, now, timeoutMs);
    }
  }

  // ------------------------------------------------------------ single steps

  /** A connect request from an address with a live session is answered with that session's token, and
      touches nothing but its activity time: repeated requests reuse one slot, token and window pair. */
  lemma RepeatedConnect(t: Table, k: nat, raw: u32, now: u64)
    requires Ok(t) && k < |t.sessions| && Live(t.sessions[k])
    ensures
      var e := OnConnect(t, t.sessions[k].addr, raw, now);
      && e.reply == ConnectResp(t.sessions[k].sessionId)
      && e.t == Replace(t, k, t.sessions[k].(lastActivity := now))
  {
    OthersDiffer(t, k);
  }

  /** A connect request that was answered is answered the same way again, by the same slot. */
  lemma ConnectTwice(t: Table, from: NetAddr, raw: u32, now: u64, raw2: u32, now2: u64)
    requires Ok(t) && OnConnect(t, from, raw, now).reply.ConnectResp?
    ensures
      var e := OnConnect(t, from, raw, now);
      var e2 := OnConnect(e.t, from, raw2, now2);
      && e2.reply == e.reply && LiveSet(e2.t.sessions) == LiveSet(e.t.sessions)
      && FindAddr(e2.t.sessions, from, 0) == FindAddr(e.t.sessions, from, 0) < |t.sessions|
  {
    var k := ConnectFinds(t, from, raw, now);
    var e := OnConnect(t, from, raw, now);
    RepeatedConnect(e.t, k, raw2, now2);
    ConnectOk(e.t, from, raw2, now2);
    FindsTheOnly(OnConnect(e.t, from, raw2, now2).t, k);
  }

  /** An answered request leaves a live session of that address, which is found again. */
  lemma ConnectFinds(t: Table, from: NetAddr, raw: u32, now: u64) returns (k: nat)
    requires Ok(t) && OnConnect(t, from, raw, now).reply.ConnectResp?
    ensures
      var e := OnConnect(t, from, raw, now);
      && Ok(e.t) && k < |e.t.sessions| == |t.sessions|
      && Live(e.t.sessions[k]) && e.t.sessions[k].addr == from && FindAddr(e.t.sessions, from, 0) == k
      && e.reply == ConnectResp(e.t.sessions[k].sessionId)
  {
    ConnectOk(t, from, raw, now);
    k := if FindAddr(t.sessions, from, 0) < |t.sessions| then FindAddr(t.sessions, from, 0) else Place(t);
    FindsTheOnly(OnConnect(t, from, raw, now).t, k);
  }

  lemma FindsTheOnly(t: Table, k: nat)
    requires Ok(t) && k < |t.sessions| && Live(t.sessions[k])
    ensures FindAddr(t.sessions, t.sessions[k].addr, 0) == k
  {
    OthersDiffer(t, k);
  }

  /** A packet touches no session but the one of the address it came from. */
  lemma Isolation(t: Table, from: NetAddr, p: Packet, now: u64, j: nat)
    requires Ok(t) && j < |t.sessions|
    ensures
      var e := OnSessionPacket(t, from, p, now);
      && |e.t.sessions| == |t.sessions|
      && (e.t.sessions[j] != t.sessions[j] ==>
            Live(t.sessions[j]) && t.sessions[j].addr == from && t.sessions[j].sessionId == p.sessionId)
  {
  }

  // ------------------------------------------------------------ runs

  /** When an address was last heard, and by which step. */
  datatype Heard = Heard(at: u64, event: nat)

  /** The table with the history kept beside it: the clock, the number of steps taken, and when each
      address was last heard. */
  datatype Sys = Sys(t: Table, clock: u64, events: nat, seen: map<NetAddr, Heard>)

  function Time(s: Sys, step: Step): (now: u64) {
    match step
    case Connect(_, _, now) => now
    case Incoming(_, _, now) => now
    case KickClient(_) => s.clock
    case Sweep(now, _) => now
    case Drain(_, _) => s.clock
  }

  function Apply(s: Sys, step: Step): (s': Sys)
    requires Ok(s.t)
  {
    var e := Do(s.t, step);
    Sys(e.t, Time(s, step), s.events + 1,
        if e.heard && (step.Connect? || step.Incoming?) then s.seen[step.from := Heard(step.now, s.events)] else s.seen)
  }

  ghost predicate Initial(s: Sys) {
    && Ok(s.t) && (forall i | 0 <= i < |s.t.sessions| :: !Live(s.t.sessions[i]))
    && s.events == 0 && s.seen == map[]
  }

  /** One step under a clock that does not run backwards. */
  ghost predicate Next(s: Sys, s': Sys) {
    Ok(s.t) && exists step :: Time(s, step) >= s.clock && s' == Apply(s, step)
  }

  ghost predicate IsRun(run: seq<Sys>) {
    && |run| > 0 && Initial(run[0])
    && forall i | 0 < i < |run| :: StepInto(run, i)
  }

  ghost predicate StepInto(run: seq<Sys>, i: nat)
    requires 0 < i < |run|
  {
    Next(run[i - 1], run[i])
  }

  /** The activity times in the table are the times the addresses were last heard. */
  ghost predicate TimesAgree(ss: seq<Session>, seen: map<NetAddr, Heard>) {
    forall i | 0 <= i < |ss| && Live(ss[i]) ::
      ss[i].addr in seen && ss[i].lastActivity == seen[ss[i].addr].at
  }

  ghost predicate HistoryOk(s: Sys) {
    && (forall a | a in s.seen :: s.seen[a].at <= s.clock && s.seen[a].event < s.events)
    && (forall a, b | a in s.seen && b in s.seen && s.seen[a].event < s.seen[b].event :: s.seen[a].at <= s.seen[b].at)
  }

  ghost predicate Inv(s: Sys) {
    Ok(s.t) && TimesAgree(s.t.sessions, s.seen) && HistoryOk(s)
  }

  lemma StepTimes(s: Sys, step: Step)
    requires Inv(s)
    ensures TimesAgree(Apply(s, step).t.sessions, Apply(s, step).seen)
  {
    match step
    case Connect(from, raw, now) => ConnectTimes(s, from, raw, now);
    case Incoming(from, packet, now) => IncomingTimes(s, from, packet, now);
    case KickClient(clientId) =>
    case Sweep(now, timeoutMs) => SweepMeaning(s.t, 0, now, timeoutMs);
    case Drain(backlog, clock) => DrainTimes(s, backlog, clock);
  }

  lemma DrainTimes(s: Sys, backlog: seq<Q.QItem>, clock: nat -> u64)
    requires Inv(s)
    ensures TimesAgree(O.DrainBacklog(O.Progress(s.t, backlog, []), clock).t.sessions, s.seen)
  {
    var p := O.Progress(s.t, backlog, []);
    var t' := O.DrainBacklog(p, clock).t;
    O.DrainBacklogOk(p, clock);
    var taken := O.ServerDrainInOrder(p, clock, 0);
    forall k | 0 <= k < |t'.sessions| && Live(t'.sessions[k])
      ensures t'.sessions[k].addr in s.seen && t'.sessions[k].lastActivity == s.seen[t'.sessions[k].addr].at
    {
      var more := O.ServerDrainInOrder(p, clock, k);
    }
  }

  lemma ConnectTimes(s: Sys, from: NetAddr, raw: u32, now: u64)
    requires Inv(s)
    ensures TimesAgree(Apply(s, Connect(from, raw, now)).t.sessions, Apply(s, Connect(from, raw, now)).seen)
  {
    var k := FindAddr(s.t.sessions, from, 0);
    if k < |s.t.sessions| { OthersDiffer(s.t, k); }
  }

  /** The packet was heard exactly if its address has a live session with its token, and then that session,
      unless the packet closed it, carries the time and nothing else of what the history speaks of. */
  lemma HeardSlot(t: Table, from: NetAddr, p: Packet, now: u64)
    requires Ok(t)
    ensures
      var e, k := OnSessionPacket(t, from, p, now), FindAddr(t.sessions, from, 0);
      && (e.heard <==> k < |t.sessions| && t.sessions[k].sessionId == p.sessionId)
      && (!e.heard ==> e.t == t)
      && (e.heard ==> e.t.sessions == t.sessions[k := e.t.sessions[k]]
                      && e.t.sessions[k].addr == from && e.t.sessions[k].lastActivity == now)
  {
  }

  lemma IncomingTimes(s: Sys, from: NetAddr, p: Packet, now: u64)
    requires Inv(s)
    ensures TimesAgree(Apply(s, Incoming(from, p, now)).t.sessions, Apply(s, Incoming(from, p, now)).seen)
  {
    HeardSlot(s.t, from, p, now);
    var k := FindAddr(s.t.sessions, from, 0);
    if k < |s.t.sessions| { OthersDiffer(s.t, k); }
    HeardTimes(s.t.sessions, OnSessionPacket(s.t, from, p, now).t.sessions, s.seen, k, from, Heard(now, s.events));
  }

  lemma HeardTimes(ss: seq<Session>, ss': seq<Session>, seen: map<NetAddr, Heard>, k: nat, from: NetAddr, h: Heard)
    requires TimesAgree(ss, seen) && |ss'| == |ss|
    ensures k < |ss| && ss' == ss[k := ss'[k]] && ss'[k].addr == from && ss'[k].lastActivity == h.at
            && (forall j | 0 <= j < |ss| && j != k && Live(ss[j]) :: ss[j].addr != from)
            ==> TimesAgree(ss', seen[from := h])
  {
  }

  lemma NextInv(s: Sys, s': Sys)
    ensures Inv(s) && Next(s, s') ==> Inv(s')
  {
    if Inv(s) && Next(s, s') {
      var step :| Time(s, step) >= s.clock && s' == Apply(s, step);
      StepOk(s.t, step);
      StepTimes(s, step);
    }
  }

  lemma RunStep(run: seq<Sys>, i: nat)
    ensures IsRun(run) && 0 < i < |run| ==> Next(run[i - 1], run[i])
  {
    if IsRun(run) && 0 < i < |run| { assert StepInto(run, i); }
  }

  /** In every reachable state of the server: the live count is right, ids are slot numbers, live tokens
      are non-zero, no address has two live sessions, and activity times are true. */
  lemma {:induction false} RunInv(run: seq<Sys>, i: nat)
    requires IsRun(run) && i < |run|
    ensures Inv(run[i])
  {
    if i > 0 {
      RunInv(run, i - 1);
      RunStep(run, i);
      NextInv(run[i - 1], run[i]);
    }
  }

  /** Under DROP_OLD a newcomer to a full table takes the slot of the session heard least recently, the
      lowest on ties, and every other session stays as it was. */
  lemma EvictsLeastRecent(run: seq<Sys>, i: nat, from: NetAddr, raw: u32, now: u64)
    requires IsRun(run) && i < |run| && Ok(run[i].t)
    requires var t := run[i].t;
             && t.active == |t.sessions| && t.policy == DropOld
             && FindAddr(t.sessions, from, 0) == |t.sessions| && Place(t) >= 0
    ensures
      var s, k := run[i], Place(run[i].t);
      var e, was := OnConnect(s.t, from, raw, now), s.t.sessions;
      && e.reply.ConnectResp? && e.t.sessions == was[k := e.t.sessions[k]] && e.t.active == s.t.active
      && e.t.sessions[k].addr == from && e.t.sessions[k].snd == S.Start(was[k].snd.cap, 1)
      && Live(was[k])
      && (forall j | 0 <= j < |was| && j != k ::
            Live(was[j]) && was[k].addr in s.seen && was[j].addr in s.seen
            && s.seen[was[k].addr].at <= s.seen[was[j].addr].at
            && (j < k ==> s.seen[was[k].addr].at < s.seen[was[j].addr].at)
            && (s.seen[was[j].addr].event < s.seen[was[k].addr].event ==>
                  s.seen[was[j].addr].at == s.seen[was[k].addr].at))
  {
    RunInv(run, i);
    PlaceMeaning(run[i].t);
    LiveAtMostAll(run[i].t.sessions);
  }

  /** The DROP_OLD scan comes up empty, and the newcomer is rejected, only when every live session was
      last heard at the largest representable time. */
  lemma RejectedIff(t: Table, from: NetAddr, raw: u32, now: u64)
    requires Ok(t) && FindAddr(t.sessions, from, 0) == |t.sessions|
    ensures
      OnConnect(t, from, raw, now).reply == Rejected <==>
        t.active == |t.sessions| &&
        (t.policy == Reject || forall j | 0 <= j < |t.sessions| :: t.sessions[j].lastActivity == UINT64_MAX)
    ensures OnConnect(t, from, raw, now).reply == Rejected ==> OnConnect(t, from, raw, now).t == t
  {
    PlaceMeaning(t);
    LruScan(t.sessions);
    LiveAtMostAll(t.sessions);
  }
}
