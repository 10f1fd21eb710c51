/** The server's outbound traffic: its send queue drained into the windows of many clients, with one pending
    item in hand, head-of-line blocking on a full window, and items for absent clients discarded. */
module OutboundSpec {
  import opened Words
  import opened SeqNum
  import opened SessionSpec
  import S = SendSpec
  import Q = QueueSpec
  import H = HandoffSpec

  /** A data packet to a client. */
  datatype Outgoing = Outgoing(clientId: nat, word: u32, msg: S.Msg)

  /** The table, the items still waiting and the packets sent so far. */
  datatype Progress = Progress(t: Table, rest: seq<Q.QItem>, sent: seq<Outgoing>)

  function AddressedTo(clientId: nat, packets: seq<(u32, S.Msg)>): (sent: seq<Outgoing>)
    ensures |sent| == |packets|
  {
    seq(|packets|, i requires 0 <= i < |packets| => Outgoing(clientId, packets[i].0, packets[i].1))
  }

  /** The session an item can be sent on now. */
  predicate Reachable(t: Table, x: Q.QItem) {
    x.clientId < |t.sessions| && t.sessions[x.clientId].state == Connected
  }

  /** The item's client is connected but its window is full. */
  predicate Blocked(t: Table, x: Q.QItem) {
    Reachable(t, x) && !S.CanSend(t.sessions[x.clientId].snd)
  }

  /** A session after numbering an item: a reliable one takes the next number of the window. */
  function NumberItem(s: Session, x: Q.QItem, now: u64): (s': Session) {
    if S.Reliable(x.mode) then s.(snd := S.Push(s.snd, H.MsgOf(x), now)) else s.(unrel := Wrap(s.unrel + 1))
  }

  function WordFor(s: Session, x: Q.QItem): (w: u32) {
    if S.Reliable(x.mode) then Wire(s.snd.isn, |s.snd.log|) else s.unrel
  }

  /** The first item leaves: it is numbered and sent if its client is connected and it is not oversized,
      and discarded otherwise. */
  function SendFirst(p: Progress, now: u64): (p': Progress)
    requires p.rest != []
  {
    var x := p.rest[0];
    if Reachable(p.t, x) && Q.Legal(x) then
      var s := p.t.sessions[x.clientId];
      Progress(Replace(p.t, x.clientId, NumberItem(s, x, now)), p.rest[1..],
               p.sent + [Outgoing(x.clientId, WordFor(s, x), H.MsgOf(x))])
    else p.(rest := p.rest[1..])
  }

  /** The drain over everything waiting, the pending item first; `clock(k)` is the time read when k items
      are left. */
  function DrainBacklog(p: Progress, clock: nat -> u64): (p': Progress)
    decreases |p.rest|
  {
    if p.rest == [] || Blocked(p.t, p.rest[0]) then p else DrainBacklog(SendFirst(p, clock(|p.rest|)), clock)
  }

  // ------------------------------------------------------------ the table stays sound

  lemma SendFirstOk(p: Progress, now: u64)
    requires p.rest != [] && !Blocked(p.t, p.rest[0])
    ensures Ok(p.t) ==> Ok(SendFirst(p, now).t)
  {
    var x := p.rest[0];
    if Ok(p.t) && Reachable(p.t, x) && Q.Legal(x) {
      assert SlotOk(p.t.sessions[x.clientId], x.clientId);
      UpdateOk(p.t, x.clientId, NumberItem(p.t.sessions[x.clientId], x, now));
    }
  }

  lemma {:induction false} DrainBacklogOk(p: Progress, clock: nat -> u64)
    requires Ok(p.t)
    ensures Ok(DrainBacklog(p, clock).t)
    decreases |p.rest|
  {
    if p.rest != [] && !Blocked(p.t, p.rest[0]) {
      SendFirstOk(p, clock(|p.rest|));
      DrainBacklogOk(SendFirst(p, clock(|p.rest|)), clock);
    }
  }

  // ------------------------------------------------------------ what each client gets

  /** The items for client k, in order. */
  function ItemsFor(items: seq<Q.QItem>, k: nat): (sel: seq<Q.QItem>) {
    if items == [] then []
    else if items[0].clientId == k && Q.Legal(items[0]) then [items[0]] + ItemsFor(items[1..], k)
    else ItemsFor(items[1..], k)
  }

  /** The packets to client k, in order. */
  function SentTo(sent: seq<Outgoing>, k: nat): (packets: seq<(u32, S.Msg)>) {
    if sent == [] then []
    else
      var last := sent[|sent| - 1];
      SentTo(sent[..|sent| - 1], k) + (if last.clientId == k then [(last.word, last.msg)] else [])
  }

  /** Client k's window numbered `items` consecutively in their order, and nothing else changed in its
      session. */
  ghost predicate Gained(s: Session, s': Session, items: seq<Q.QItem>) {
    && |s.snd.log| <= |s'.snd.log| && s'.snd.log[..|s.snd.log|] == s.snd.log
    && s' == s.(snd := s.snd.(log := s'.snd.log), unrel := s'.unrel)
    && H.MsgsFrom(s'.snd, |s.snd.log|) == H.ReliableOf(items)
    && s'.unrel == H.UnrelAfter(s.unrel, items)
  }

  /** The packets sent to it in between carry them under the numbers assigned. */
  ghost predicate Sent(s: Session, sent: seq<(u32, S.Msg)>, sent': seq<(u32, S.Msg)>, items: seq<Q.QItem>) {
    sent' == sent + H.Numbered(s.snd.isn, |s.snd.log|, s.unrel, items)
  }

  lemma GainedBoth(a: Session, b: Session, c: Session, x: seq<Q.QItem>, y: seq<Q.QItem>)
    requires Gained(a, b, x) && Gained(b, c, y)
    ensures Gained(a, c, x + y)
  {
    var m, n := |a.snd.log|, |b.snd.log|;
    assert c.snd.log[..m] == c.snd.log[..n][..m];
    forall i | m <= i < n ensures c.snd.log[i] == b.snd.log[i] {
      assert c.snd.log[..n][i] == b.snd.log[i];
    }
    H.ReliableConcat(x, y);
    H.NumberedConcat(0, 0, a.unrel, x, y);
    assert H.MsgsFrom(c.snd, m) == H.MsgsFrom(b.snd, m) + H.MsgsFrom(c.snd, n);
  }

  lemma SentBoth(a: Session, b: Session, p: seq<(u32, S.Msg)>, q: seq<(u32, S.Msg)>, r: seq<(u32, S.Msg)>,
                 x: seq<Q.QItem>, y: seq<Q.QItem>)
    requires Gained(a, b, x) && Sent(a, p, q, x) && Sent(b, q, r, y)
    ensures Sent(a, p, r, x + y)
  {
    var isn, n := a.snd.isn, |a.snd.log|;
    assert |b.snd.log| == n + |H.ReliableOf(x)|;
    H.NumberedConcat(isn, n, a.unrel, x, y);
    Assoc(p, H.Numbered(isn, n, a.unrel, x), H.Numbered(isn, |b.snd.log|, b.unrel, y));
  }

  /** What client k gets of some items: everything for it if it is connected, else nothing. */
  function Share(s: Session, items: seq<Q.QItem>, k: nat): (sel: seq<Q.QItem>) {
    if s.state == Connected then ItemsFor(items, k) else []
  }

  lemma SendFirstGains(p: Progress, now: u64, k: nat)
    requires p.rest != [] && k < |p.t.sessions|
    ensures
      var s, p' := p.t.sessions[k], SendFirst(p, now);
      && |p'.t.sessions| == |p.t.sessions|
      && Gained(s, p'.t.sessions[k], Share(s, p.rest[..1], k))
      && Sent(s, SentTo(p.sent, k), SentTo(p'.sent, k), Share(s, p.rest[..1], k))
  {
    var s, x := p.t.sessions[k], p.rest[0];
    FirstShare(s, p.rest, k);
    if Reachable(p.t, x) && Q.Legal(x) {
      SentToLast(p.sent, Outgoing(x.clientId, WordFor(p.t.sessions[x.clientId], x), H.MsgOf(x)), k);
      if x.clientId == k { OneItem(s, x, now); }
    }
  }

  lemma FirstShare(s: Session, items: seq<Q.QItem>, k: nat)
    requires items != []
    ensures Share(s, items[..1], k) ==
            if s.state == Connected && items[0].clientId == k && Q.Legal(items[0]) then [items[0]] else []
  {
    var x := items[0];
    assert items[..1] == [x] && [x][1..] == [];
    assert ItemsFor([x], k) == if x.clientId == k && Q.Legal(x) then [x] else [];
  }

  lemma SentToLast(sent: seq<Outgoing>, out: Outgoing, k: nat)
    ensures SentTo(sent + [out], k) == SentTo(sent, k) + (if out.clientId == k then [(out.word, out.msg)] else [])
  {
    assert (sent + [out])[..|sent|] == sent;
  }

  lemma {:induction false} SentToBoth(a: seq<Outgoing>, b: seq<Outgoing>, k: nat)
    ensures SentTo(a + b, k) == SentTo(a, k) + SentTo(b, k)
    decreases |b|
  {
    if b == [] {
      assert a + b == a;
    } else {
      var init, last := b[..|b| - 1], b[|b| - 1];
      assert a + b == (a + init) + [last] && b == init + [last];
      SentToBoth(a, init, k);
      SentToLast(a + init, last, k);
      SentToLast(init, last, k);
      Assoc(SentTo(a, k), SentTo(init, k), if last.clientId == k then [(last.word, last.msg)] else []);
    }
  }

  /** Packets addressed to one client reach it, as they are, and nobody else. */
  lemma {:induction false} AddressedMeaning(clientId: nat, packets: seq<(u32, S.Msg)>, k: nat)
    ensures SentTo(AddressedTo(clientId, packets), k) == if k == clientId then packets else []
    decreases |packets|
  {
    if packets != [] {
      var init, last := packets[..|packets| - 1], packets[|packets| - 1];
      AddressedMeaning(clientId, init, k);
      assert AddressedTo(clientId, packets) == AddressedTo(clientId, init) + [Outgoing(clientId, last.0, last.1)];
      SentToLast(AddressedTo(clientId, init), Outgoing(clientId, last.0, last.1), k);
      assert packets == init + [last];
    }
  }

  lemma OneItem(s: Session, x: Q.QItem, now: u64)
    ensures Gained(s, NumberItem(s, x, now), [x])
    ensures H.Numbered(s.snd.isn, |s.snd.log|, s.unrel, [x]) == [(WordFor(s, x), H.MsgOf(x))]
  {
    assert [x][1..] == [];
    assert H.ReliableOf([x]) == if S.Reliable(x.mode) then [H.MsgOf(x)] else [];
  }

  /** The backlog loses a prefix and nothing else.  Every connected client's window numbers exactly the
      items for it in that prefix, in order, and each is sent to it once under its number; no other
      session changes.  The drain stops only at an empty backlog or at an item whose own window is full. */
  lemma {:induction false} ServerDrainInOrder(p: Progress, clock: nat -> u64, k: nat) returns (taken: nat)
    requires k < |p.t.sessions|
    ensures
      var p' := DrainBacklog(p, clock);
      && taken <= |p.rest| && p'.rest == p.rest[taken..]
      && |p'.t.sessions| == |p.t.sessions|
      && Gained(p.t.sessions[k], p'.t.sessions[k], Share(p.t.sessions[k], p.rest[..taken], k))
      && Sent(p.t.sessions[k], SentTo(p.sent, k), SentTo(p'.sent, k), Share(p.t.sessions[k], p.rest[..taken], k))
      && (p'.rest == [] || Blocked(p'.t, p'.rest[0]))
      && (p'.rest != [] ==>
            var c := p'.rest[0].clientId;
            && c < |p'.t.sessions| && p'.t.sessions[c].state == Connected
            && |p'.t.sessions[c].snd.log| >= p'.t.sessions[c].snd.head + p'.t.sessions[c].snd.cap)
    decreases |p.rest|
  {
    if p.rest == [] || Blocked(p.t, p.rest[0]) {
      taken := 0;
      assert p.rest[..0] == [];
    } else {
      var now := clock(|p.rest|);
      var next := SendFirst(p, now);
      SendFirstGains(p, now, k);
      var more := ServerDrainInOrder(next, clock, k);
      taken := more + 1;
      var s, b, c := p.t.sessions[k], next.t.sessions[k], DrainBacklog(p, clock).t.sessions[k];
      ShareSplit(p.rest, taken, s, k);
      var x, y := Share(s, p.rest[..1], k), Share(b, next.rest[..more], k);
      GainedBoth(s, b, c, x, y);
      SentBoth(s, b, SentTo(p.sent, k), SentTo(next.sent, k), SentTo(DrainBacklog(p, clock).sent, k), x, y);
    }
  }

  lemma ShareSplit(items: seq<Q.QItem>, taken: nat, s: Session, k: nat)
    requires 1 <= taken <= |items|
    ensures Share(s, items[..taken], k) == Share(s, items[..1], k) + Share(s, items[1..][..taken - 1], k)
  {
    var rest := ItemsFor(items[1..][..taken - 1], k);
    assert items[..taken][1..] == items[1..][..taken - 1];
    FirstShare(s, items, k);
    assert [] + rest == rest;
  }
}
