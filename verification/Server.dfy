/** The session table as the C code keeps it, an array scanned and updated in place, and the worker steps
    on it.  A slot's windows and estimator are held as values; their in-place forms are the window classes. */
module Server {
  import opened Words
  import opened SeqNum
  import opened SessionSpec
  import opened ServerSpec
  import R = RecvSpec
  import O = OutboundSpec

  /** A timer pass over `was` that has handled the slots before i. */
  ghost predicate TimersAt(was: Table, t: Table, sent: seq<O.Outgoing>, i: nat, now: u64, timeoutMs: u32) {
    && i <= |t.sessions| == |was.sessions| && t.sessions[i..] == was.sessions[i..]
    && SweepFrom(t, i, now, timeoutMs) == SweepFrom(was, 0, now, timeoutMs)
    && sent + TimerPackets(was.sessions, i, now, timeoutMs) == TimerPackets(was.sessions, 0, now, timeoutMs)
  }

  lemma TimersDone(was: Table, t: Table, sent: seq<O.Outgoing>, now: u64, timeoutMs: u32)
    ensures TimersAt(was, t, sent, |t.sessions|, now, timeoutMs) ==>
              t == SweepFrom(was, 0, now, timeoutMs) && sent == TimerPackets(was.sessions, 0, now, timeoutMs)
  {
    assert sent + [] == sent;
  }

  lemma TimersNext(was: Table, t: Table, sent: seq<O.Outgoing>, i: nat, now: u64, timeoutMs: u32)
    requires i < |t.sessions|
    ensures TimersAt(was, t, sent, i, now, timeoutMs) ==>
              TimersAt(was, SweepOne(t, i, now, timeoutMs), sent + SlotSends(t.sessions[i], now, timeoutMs), i + 1,
                       now, timeoutMs)
  {
    if TimersAt(was, t, sent, i, now, timeoutMs) {
      TimersStep(was, t, sent, i, now, timeoutMs);
    }
  }

  lemma TimersStep(was: Table, t: Table, sent: seq<O.Outgoing>, i: nat, now: u64, timeoutMs: u32)
    requires TimersAt(was, t, sent, i, now, timeoutMs) && i < |t.sessions|
    ensures TimersAt(was, SweepOne(t, i, now, timeoutMs), sent + SlotSends(t.sessions[i], now, timeoutMs), i + 1,
                     now, timeoutMs)
  {
    var t', packets := SweepOne(t, i, now, timeoutMs), SlotSends(t.sessions[i], now, timeoutMs);
    assert t.sessions[i] == t.sessions[i..][0] == was.sessions[i..][0];
    forall j | i < j < |t.sessions| ensures t'.sessions[j] == was.sessions[j] {
      assert t.sessions[j] == t.sessions[i..][j - i] == was.sessions[i..][j - i];
    }
    Assoc(sent, packets, TimerPackets(was.sessions, i + 1, now, timeoutMs));
  }

  class SessionTable {
    const sessions: array<Session>
    const policy: Policy
    var activeCount: nat

    ghost function View(): (t: Table)
      reads this, sessions
    {
      Table(sessions[..], activeCount, policy)
    }

    ghost predicate Valid()
      reads this, sessions
    {
      Ok(View())
    }

    /** `rel4u_session_table_init`, for a window size the window constructors accept. */
    constructor (maxClients: nat, policy: Policy, windowSize: u32)
      requires 1 <= maxClients < 0x8000_0000 && Capacity(windowSize)
      ensures Valid() && fresh(sessions)
      ensures activeCount == 0 && sessions.Length == maxClients && this.policy == policy
      ensures forall i | 0 <= i < maxClients :: sessions[i] == Blank(i, windowSize)
    {
      sessions := new Session[maxClients](_ => Blank(0, windowSize));
      this.policy := policy;
      activeCount := 0;
      new;
      forall i | 0 <= i < maxClients { sessions[i] := Blank(i, windowSize); }
      assert LiveSet(sessions[..]) == {};
    }

    method FindByAddr(addr: NetAddr) returns (k: int)
      requires Valid()
      ensures var f := FindAddr(sessions[..], addr, 0); k == if f < sessions.Length then f else -1
    {
      for i := 0 to sessions.Length
        invariant FindAddr(sessions[..], addr, 0) == FindAddr(sessions[..], addr, i)
      {
        if sessions[i].state != Disconnected && sessions[i].addr == addr { return i; }
      }
      k := -1;
    }

    method FindFreeSlot() returns (k: int)
      requires Valid()
      ensures var f := FindFree(sessions[..], 0); k == if f < sessions.Length then f else -1
    {
      for i := 0 to sessions.Length
        invariant FindFree(sessions[..], 0) == FindFree(sessions[..], i)
      {
        if sessions[i].state == Disconnected { return i; }
      }
      k := -1;
    }

    method FindOldest() returns (k: int)
      requires Valid()
      ensures k == OldestIn(sessions[..], sessions.Length).slot
    {
      k := -1;
      var oldestTime: u64 := UINT64_MAX;
      for i := 0 to sessions.Length
        invariant Scan(k, oldestTime) == OldestIn(sessions[..], i)
      {
        if sessions[i].state != Disconnected {
          if sessions[i].lastActivity < oldestTime {
            oldestTime, k := sessions[i].lastActivity, i;
          }
        }
      }
    }

    /** `rel4u_session_allocate`: the slot taken, or -1; and whether a live session was evicted for it. */
    method AllocateSlot(addr: NetAddr, token: u32) returns (k: int, evicted: bool)
      requires Valid()
      modifies this, sessions
      ensures k == Place(old(View()))
      ensures k == -1 ==> View() == old(View()) && !evicted
      ensures k >= 0 ==> View() == Allocate(old(View()), addr, token) && evicted == Live(old(sessions[..])[k])
    {
      PlaceMeaning(View());
      evicted := false;
      if activeCount < sessions.Length {
        k := FindFreeSlot();
      } else {
        if policy == Reject { return -1, false; }
        k := FindOldest();
        if k != -1 {
          evicted := true;
          activeCount := activeCount - 1;
        }
      }
      if k == -1 { return; }
      sessions[k] := Fresh(sessions[k], addr, token);
      activeCount := activeCount + 1;
    }

    method FreeSlot(k: nat)
      requires k < sessions.Length
      modifies this, sessions
      ensures View() == Free(old(View()), k)
    {
      if sessions[k].state == Disconnected { return; }
      sessions[k] := Closed(sessions[k]);
      if activeCount > 0 { activeCount := activeCount - 1; }
    }

    method HandleConnect(from: NetAddr, raw: u32, now: u64) returns (reply: Reply)
      requires Valid()
      modifies this, sessions
      ensures var e := OnConnect(old(View()), from, raw, now); View() == e.t && reply == e.reply
      ensures Valid()
    {
      ConnectOk(View(), from, raw, now);
      var k := FindByAddr(from);
      if k == -1 {
        var token := if raw == 0 then 1 else raw;
        var evicted;
        k, evicted := AllocateSlot(from, token);
        if k == -1 { return Rejected; }
      }
      sessions[k] := sessions[k].(lastActivity := now);
      reply := ConnectResp(sessions[k].sessionId);
    }

    /** Any packet but a connect request: token check, touch and promotion, then by packet type. */
    method HandlePacket(from: NetAddr, p: Packet, now: u64) returns (reply: Reply, items: seq<R.Item>)
      requires Valid()
      modifies this, sessions
      ensures var e := OnSessionPacket(old(View()), from, p, now);
              View() == e.t && reply == e.reply && items == e.items
      ensures Valid()
    {
      IncomingOk(View(), from, p, now);
      reply, items := Silent, [];
      var k := FindByAddr(from);
      if k == -1 || sessions[k].sessionId != p.sessionId {
        if p.kind != PKT_RESET && p.kind != PKT_DISCONNECT && p.kind != PKT_REJECT {
          reply := ResetFor(p.sessionId, p.seqNum);
        }
        return;
      }
      assert SlotOk(View().sessions[k], k);
      sessions[k] := Touch(sessions[k], now);
      if p.kind == PKT_CONNECT_ACK { return; }
      if p.kind == PKT_DISCONNECT {
        FreeSlot(k);
        return;
      }
      var s := Acked(sessions[k], p, now);
      if p.kind == PKT_HEARTBEAT { reply := HeartbeatAck; }
      var o := Received(s, p);
      sessions[k] := s.(rcv := o.rcv);
      items := o.items;
    }

    method DisconnectClient(clientId: nat) returns (found: bool)
      requires Valid()
      modifies this, sessions
      ensures Valid() && View() == Kick(old(View()), clientId)
      ensures found <==> clientId < sessions.Length && Live(old(sessions[..])[clientId])
    {
      if clientId >= sessions.Length || sessions[clientId].state == Disconnected { return false; }
      FreeOk(View(), clientId);
      FreeSlot(clientId);
      found := true;
    }

    /** The timer pass over all slots: idle sessions are closed, connected ones retransmit. */
    method RunTimers(now: u64, timeoutMs: u32) returns (sent: seq<O.Outgoing>)
      requires Valid()
      modifies this, sessions
      ensures Valid() && View() == SweepFrom(old(View()), 0, now, timeoutMs)
      ensures sent == TimerPackets(old(sessions[..]), 0, now, timeoutMs)
    {
      sent := TimerLoop(now, timeoutMs);
      SweepOk(old(View()), 0, now, timeoutMs);
    }

    method TimerLoop(now: u64, timeoutMs: u32) returns (sent: seq<O.Outgoing>)
      modifies this, sessions
      ensures View() == SweepFrom(old(View()), 0, now, timeoutMs)
      ensures sent == TimerPackets(old(sessions[..]), 0, now, timeoutMs)
    {
      sent := [];
      ghost var was := View();
      for i := 0 to sessions.Length
        invariant TimersAt(was, View(), sent, i, now, timeoutMs)
      {
        TimersNext(was, View(), sent, i, now, timeoutMs);
        var packets := TimerOf(i, now, timeoutMs);
        sent := sent + packets;
      }
      TimersDone(was, View(), sent, now, timeoutMs);
    }

    /** The timer pass over one slot. */
    method TimerOf(i: nat, now: u64, timeoutMs: u32) returns (packets: seq<O.Outgoing>)
      requires i < sessions.Length
      modifies this, sessions
      ensures View() == SweepOne(old(View()), i, now, timeoutMs)
      ensures packets == SlotSends(old(sessions[i]), now, timeoutMs)
    {
      packets := [];
      if sessions[i].state != Disconnected {
        if (now - sessions[i].lastActivity) % 0x1_0000_0000_0000_0000 >= timeoutMs * 1000000 {
          FreeSlot(i);
        } else if sessions[i].state == Connected {
          packets := SlotSends(sessions[i], now, timeoutMs);
          sessions[i] := Retransmitted(sessions[i], now);
        }
      }
    }
  }
}
