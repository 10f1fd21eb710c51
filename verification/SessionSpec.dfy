/** The server's session table and the worker steps that drive it. */
module SessionSpec {
  import opened Words
  import S = SendSpec
  import R = RecvSpec
  import Rtt

  datatype NetAddr = NetAddr(host: seq<u8>, port: u16)

  datatype ConnState = Disconnected | Connecting | Connected | Disconnecting

  datatype Policy = Reject | DropOld

  /** `unrel` is the window's counter for unreliable messages. */
  datatype Session = Session(
    clientId: nat, sessionId: u32, addr: NetAddr, state: ConnState, lastActivity: u64,
    snd: S.Sender, unrel: u32, rcv: R.Receiver, rtt: Rtt.Estimate)

  datatype Table = Table(sessions: seq<Session>, active: nat, policy: Policy)

  /** A slot as the table is created with. */
  function Blank(i: nat, windowSize: nat): (s: Session) {
    Session(i, 0, NetAddr([], 0), Disconnected, 0, S.Start(windowSize, 1), 1, R.StartRecv(windowSize, 1),
            Rtt.Init(Rtt.DEFAULT_RTO_MS, Rtt.MIN_RTO_MS, Rtt.MAX_RTO_MS))
  }

  predicate Live(s: Session) {
    s.state != Disconnected
  }

  function LiveSet(ss: seq<Session>): (live: set<nat>) {
    set i: nat | i < |ss| && Live(ss[i])
  }

  /** The invariant every server step keeps. */
  ghost predicate Ok(t: Table) {
    && 1 <= |t.sessions| < 0x8000_0000
    && t.active == |LiveSet(t.sessions)|
    && (forall i | 0 <= i < |t.sessions| :: SlotOk(t.sessions[i], i))
    && DistinctAddrs(t.sessions)
  }

  ghost predicate SlotOk(s: Session, i: nat) {
    && s.clientId == i
    && (Live(s) ==> s.sessionId != 0)
    && S.Ok(s.snd) && R.RecvOk(s.rcv) && R.Quiet(s.rcv)
  }

  ghost predicate DistinctAddrs(ss: seq<Session>) {
    forall i, j | 0 <= i < j < |ss| && Live(ss[i]) && Live(ss[j]) :: ss[i].addr != ss[j].addr
  }

  // ------------------------------------------------------------ scans

  /** The first live session for an address from index i on, or the table size. */
  function FindAddr(ss: seq<Session>, addr: NetAddr, i: nat): (k: nat)
    requires i <= |ss|
    ensures i <= k <= |ss|
    ensures k < |ss| ==> Live(ss[k]) && ss[k].addr == addr
    ensures forall j | i <= j < k :: !(Live(ss[j]) && ss[j].addr == addr)
    decreases |ss| - i
  {
    if i == |ss| || (Live(ss[i]) && ss[i].addr == addr) then i else FindAddr(ss, addr, i + 1)
  }

  /** The first free slot from index i on, or the table size. */
  function FindFree(ss: seq<Session>, i: nat): (k: nat)
    requires i <= |ss|
    ensures i <= k <= |ss|
    ensures k < |ss| ==> !Live(ss[k])
    ensures forall j | i <= j < k :: Live(ss[j])
    decreases |ss| - i
  {
    if i == |ss| || !Live(ss[i]) then i else FindFree(ss, i + 1)
  }

  /** Session k is live, its activity is the oldest of all live sessions, and no earlier one ties. */
  ghost predicate LeastRecent(ss: seq<Session>, k: nat) {
    && k < |ss| && Live(ss[k])
    && (forall j | 0 <= j < |ss| && Live(ss[j]) :: ss[k].lastActivity <= ss[j].lastActivity)
    && (forall j | 0 <= j < k && Live(ss[j]) :: ss[k].lastActivity < ss[j].lastActivity)
  }

  /** The LRU scan after the first n slots: the best index so far, -1 for none, and its time. */
  datatype Scan = Scan(slot: int, oldest: u64)

  function OldestIn(ss: seq<Session>, n: nat): (r: Scan)
    requires n <= |ss|
    ensures -1 <= r.slot < n
  {
    if n == 0 then Scan(-1, UINT64_MAX)
    else
      var r := OldestIn(ss, n - 1);
      if Live(ss[n - 1]) && ss[n - 1].lastActivity < r.oldest then Scan(n - 1, ss[n - 1].lastActivity) else r
  }

  lemma {:induction false} OldestInMeaning(ss: seq<Session>, n: nat)
    requires n <= |ss|
    ensures
      var r := OldestIn(ss, n);
      && (r.slot == -1 ==> r.oldest == UINT64_MAX)
      && (r.slot >= 0 ==> Live(ss[r.slot]) && ss[r.slot].lastActivity == r.oldest < UINT64_MAX)
      && (forall j | 0 <= j < n && Live(ss[j]) :: r.oldest <= ss[j].lastActivity)
      && (forall j | 0 <= j < r.slot && Live(ss[j]) :: r.oldest < ss[j].lastActivity)
  {
    if n > 0 { OldestInMeaning(ss, n - 1); }
  }

  /** The scan finds the least recently active session, lowest index on ties; it fails only when every
      live session carries the time UINT64_MAX. */
  lemma LruScan(ss: seq<Session>)
    ensures
      var k := OldestIn(ss, |ss|).slot;
      && (k >= 0 ==> LeastRecent(ss, k))
      && (k == -1 <==> forall j | 0 <= j < |ss| && Live(ss[j]) :: ss[j].lastActivity == UINT64_MAX)
  {
    OldestInMeaning(ss, |ss|);
  }

  // ------------------------------------------------------------ table operations

  function Fresh(s: Session, addr: NetAddr, token: u32): (s': Session) {
    s.(sessionId := token, addr := addr, state := Connecting,
       snd := S.Start(s.snd.cap, 1), unrel := 1, rcv := R.StartRecv(s.rcv.cap, 1),
       rtt := Rtt.Init(Rtt.DEFAULT_RTO_MS, Rtt.MIN_RTO_MS, Rtt.MAX_RTO_MS))
  }

  /** Where a new session goes: a free slot, else under DROP_OLD the least recent one, else nowhere. */
  function Place(t: Table): (k: int)
    ensures -1 <= k < |t.sessions|
  {
    if t.active < |t.sessions| then
      var k := FindFree(t.sessions, 0);
      if k < |t.sessions| then k else -1
    else if t.policy == Reject then -1
    else OldestIn(t.sessions, |t.sessions|).slot
  }

  function Allocate(t: Table, addr: NetAddr, token: u32): (t': Table)
    requires Place(t) >= 0
  {
    var k := Place(t);
    Table(t.sessions[k := Fresh(t.sessions[k], addr, token)],
          if t.active < |t.sessions| then t.active + 1 else t.active, t.policy)
  }

  function Closed(s: Session): (s': Session) {
    s.(state := Disconnected, sessionId := 0)
  }

  function Free(t: Table, k: nat): (t': Table)
    requires k < |t.sessions|
  {
    if !Live(t.sessions[k]) then t
    else Table(t.sessions[k := Closed(t.sessions[k])], if t.active > 0 then t.active - 1 else 0, t.policy)
  }

  function Replace(t: Table, k: nat, s: Session): (t': Table)
    requires k < |t.sessions|
  {
    t.(sessions := t.sessions[k := s])
  }

  // ------------------------------------------------------------ counting

  lemma LiveAtMostAll(ss: seq<Session>)
    ensures |LiveSet(ss)| <= |ss|
    ensures |LiveSet(ss)| == |ss| <==> forall i | 0 <= i < |ss| :: Live(ss[i])
  {
    var all := Below(|ss|);
    SubsetSize(LiveSet(ss), all);
    if exists i :: 0 <= i < |ss| && !Live(ss[i]) {
      var i: nat :| i < |ss| && !Live(ss[i]);
      SubsetSize(LiveSet(ss), all - {i});
    } else {
      assert LiveSet(ss) == all;
    }
  }

  /** Replacing a session moves the live count by what it changes. */
  lemma LiveAfterReplace(ss: seq<Session>, k: nat, s: Session)
    requires k < |ss|
    ensures |LiveSet(ss[k := s])|
            == |LiveSet(ss)| - (if Live(ss[k]) then 1 else 0) + (if Live(s) then 1 else 0)
  {
    var live, live' := LiveSet(ss), LiveSet(ss[k := s]);
    assert live' == if Live(s) then live + {k} else live - {k};
  }

  // ------------------------------------------------------------ what the operations keep

  /** A table that is not full always yields a free slot; a full one yields the least recent session
      under DROP_OLD and none under REJECT. */
  lemma PlaceMeaning(t: Table)
    requires Ok(t)
    ensures t.active <= |t.sessions|
    ensures t.active < |t.sessions| ==> Place(t) >= 0 && !Live(t.sessions[Place(t)])
    ensures t.active == |t.sessions| && t.policy == Reject ==> Place(t) == -1
    ensures t.active == |t.sessions| && t.policy == DropOld && Place(t) >= 0 ==> LeastRecent(t.sessions, Place(t))
    ensures Place(t) == -1 ==> t.active == |t.sessions|
  {
    LiveAtMostAll(t.sessions);
    LruScan(t.sessions);
  }

  /** Replacing a session by one that is fine, is live no more than before, and keeps or newly claims an
      address keeps the invariant. */
  lemma ReplaceOk(t: Table, k: nat, s: Session, active: nat)
    requires Ok(t) && k < |t.sessions| && SlotOk(s, k)
    requires active == t.active - (if Live(t.sessions[k]) then 1 else 0) + (if Live(s) then 1 else 0)
    requires Live(s) ==> forall j | 0 <= j < |t.sessions| && j != k && Live(t.sessions[j]) :: t.sessions[j].addr != s.addr
    ensures Ok(Table(t.sessions[k := s], active, t.policy))
  {
    LiveAfterReplace(t.sessions, k, s);
  }

  lemma OthersDiffer(t: Table, k: nat)
    requires Ok(t) && k < |t.sessions| && Live(t.sessions[k])
    ensures forall j | 0 <= j < |t.sessions| && j != k && Live(t.sessions[j]) :: t.sessions[j].addr != t.sessions[k].addr
  {
  }

  lemma AllocateOk(t: Table, addr: NetAddr, token: u32)
    requires Ok(t) && Place(t) >= 0 && token != 0 && FindAddr(t.sessions, addr, 0) == |t.sessions|
    ensures Ok(Allocate(t, addr, token))
  {
    var k := Place(t);
    PlaceMeaning(t);
    LiveAtMostAll(t.sessions);
    ReplaceOk(t, k, Fresh(t.sessions[k], addr, token), Allocate(t, addr, token).active);
  }

  lemma FreeOk(t: Table, k: nat)
    requires Ok(t) && k < |t.sessions|
    ensures Ok(Free(t, k))
  {
    if Live(t.sessions[k]) {
      assert k in LiveSet(t.sessions);
      ReplaceOk(t, k, Closed(t.sessions[k]), t.active - 1);
    }
  }

  /** An update that keeps identity, address and liveness of a live session. */
  lemma UpdateOk(t: Table, k: nat, s: Session)
    requires Ok(t) && k < |t.sessions| && Live(t.sessions[k]) && Live(s) && SlotOk(s, k)
    requires s.addr == t.sessions[k].addr
    ensures Ok(Replace(t, k, s))
  {
    OthersDiffer(t, k);
    ReplaceOk(t, k, s, t.active);
  }
}
