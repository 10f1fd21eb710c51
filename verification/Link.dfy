/** One session over a network that loses, duplicates, delays and reorders: a sender's window, a
    receiver's window and everything in flight between them, as a step system.  Each step applies the
    function that a method of the window classes is proved to compute: `PushMsg`, `ResendSlot`,
    `DeliverData`, `GetAckInfo` and `OnAckPacket`. */
module Link {
  import opened Words
  import opened SeqNum
  import opened SendSpec
  import opened RecvSpec
  import Rtt

  /** A data packet in flight; on the wire its number is the word `Wire(isn, num)`. */
  datatype Packet = Packet(num: nat, msg: Msg)

  /** An ack in flight, made when the receiver expected number `expected`. */
  datatype AckPacket = AckPacket(expected: nat, ackNum: u32, mask: u32)

  /** `data` and `acks` are whatever the network may still deliver, any number of times. */
  datatype State = State(
    tx: Acking, rcv: Receiver, data: set<Packet>, acks: set<AckPacket>, handed: seq<Item>)

  datatype Step =
    | Send(msg: Msg, at: u64)
    | Retransmit(num: nat, at: u64)
    | Backoff
    | DeliverData(packet: Packet)
    | EmitAck
    | DeliverAck(ack: AckPacket, at: u64)
    | Lose(lostData: set<Packet>, lostAcks: set<AckPacket>)

  ghost predicate Initial(s: State) {
    && Capacity(s.tx.snd.cap) && Capacity(s.rcv.cap)
    && s.tx.snd == Start(s.tx.snd.cap, s.tx.snd.isn)
    && s.rcv == StartRecv(s.rcv.cap, s.tx.snd.isn)
    && s.data == {} && s.acks == {} && s.handed == []
  }

  /** How old a packet or an ack the network may still deliver.  Both limits are the exact ones: see
      `StaleDataLimit` and `StaleAckLimit`. */
  predicate FreshData(s: State, p: Packet) {
    s.rcv.expected - p.num <= 0x1_0000_0000 - s.rcv.cap
  }

  predicate FreshAck(s: State, k: AckPacket) {
    s.tx.snd.head - (k.expected - 1) < 0x8000_0000
  }

  ghost predicate Enabled(s: State, step: Step) {
    match step
    case Send(msg, _) => Ok(s.tx.snd) && CanSend(s.tx.snd) && Storable(msg)
    case Retransmit(n, _) => n in Unacked(s.tx.snd)
    case Backoff => true
    case DeliverData(p) => p in s.data && Reliable(p.msg.mode) && FreshData(s, p)
    case EmitAck => true
    case DeliverAck(k, _) => k in s.acks && FreshAck(s, k) && Ok(s.tx.snd)
    case Lose(_, _) => true
  }

  ghost function Apply(s: State, step: Step): (s': State)
    requires Enabled(s, step)
  {
    match step
    case Send(msg, at) =>
      s.(tx := s.tx.(snd := Push(s.tx.snd, msg, at)), data := s.data + {Packet(|s.tx.snd.log|, msg)})
    case Retransmit(n, at) =>
      s.(tx := s.tx.(snd := Resend(s.tx.snd, n, at)), data := s.data + {Packet(n, s.tx.snd.log[n].msg)})
    case Backoff => s.(tx := s.tx.(rtt := Rtt.Timeout(s.tx.rtt)))
    case DeliverData(p) =>
      var o := Deliver(s.rcv, Wire(s.rcv.isn, p.num), p.msg);
      s.(rcv := o.rcv, handed := s.handed + o.items)
    case EmitAck =>
      s.(acks := s.acks + {AckPacket(s.rcv.expected, AckNum(s.rcv), SackMask(s.rcv))})
    case DeliverAck(k, at) =>
      s.(tx := OnAck(s.tx, k.ackNum, k.mask, at))
    case Lose(lostData, lostAcks) =>
      s.(data := s.data - lostData, acks := s.acks - lostAcks)
  }

  ghost predicate Next(s: State, s': State) {
    exists step :: Enabled(s, step) && s' == Apply(s, step)
  }

  ghost predicate IsPath(path: seq<State>) {
    |path| > 0 && forall i | 0 < i < |path| :: StepInto(path, i)
  }

  ghost predicate IsRun(run: seq<State>) {
    IsPath(run) && Initial(run[0])
  }

  /** Some steps lead from s to s'. */
  ghost predicate Reaches(s: State, s': State) {
    exists path :: IsPath(path) && path[0] == s && path[|path| - 1] == s'
  }

  ghost predicate StepInto(run: seq<State>, i: nat)
    requires 0 < i < |run|
  {
    Next(run[i - 1], run[i])
  }

  // ------------------------------------------------------------ what was handed up

  function OfMode(items: seq<Item>, mode: u8): (sel: seq<Item>) {
    if items == [] then []
    else OfMode(items[..|items| - 1], mode) +
         (if items[|items| - 1].msg.mode == mode then [items[|items| - 1]] else [])
  }

  /** The ordered-mode messages numbered below k, in order. */
  function OrderedBelow(log: seq<Sent>, k: nat): (items: seq<Item>)
    requires k <= |log|
  {
    if k == 0 then []
    else OrderedBelow(log, k - 1) +
         (if log[k - 1].msg.mode == RELIABLE_ORDERED then [Item(k - 1, log[k - 1].msg)] else [])
  }

  /** `u` lists exactly the accepted unordered messages, each once and unaltered. */
  ghost predicate OnceEach(u: seq<Item>, log: seq<Sent>, r: Receiver) {
    && (forall i, j | 0 <= i < j < |u| :: u[i].num != u[j].num)
    && (forall i | 0 <= i < |u| :: IsUnordered(log, r, u[i]))
    && (forall n: nat | n < |log| && Accepted(r, n) && log[n].msg.mode == RELIABLE_UNORDERED ::
          Item(n, log[n].msg) in u)
  }

  ghost predicate IsUnordered(log: seq<Sent>, r: Receiver, item: Item) {
    item.num < |log| && item.msg == log[item.num].msg && Accepted(r, item.num)
  }

  // ------------------------------------------------------------ the invariant

  /** A buffered entry agrees with the message sent under its number. */
  ghost predicate Agrees(e: Entry, msg: Msg) {
    match e
    case Held(p) => msg == Msg(RELIABLE_ORDERED, p)
    case HandedUp => msg.mode == RELIABLE_UNORDERED
  }

  ghost predicate Consistent(r: Receiver, log: seq<Sent>) {
    && RecvOk(r)
    && r.expected <= |log|
    && forall n | n in r.buf :: n < |log| && Agrees(r.buf[n], log[n].msg)
  }

  ghost predicate SoundAck(k: AckPacket, r: Receiver) {
    && k.expected <= r.expected
    && k.ackNum == Wire(r.isn, k.expected - 1)
    && forall i: nat | i < 32 && Bit(k.mask, i) :: Accepted(r, k.expected + i)
  }

  ghost predicate WindowsAgree(s: State) {
    var snd, r := s.tx.snd, s.rcv;
    && Ok(snd) && Consistent(r, snd.log) && Quiet(r)
    && snd.isn == r.isn
    && snd.head <= r.expected
    && (forall n | 0 <= n < |snd.log| :: Storable(snd.log[n].msg))
    && (forall n | n in snd.acked :: Accepted(r, n))
  }

  ghost predicate NetworkHonest(s: State) {
    && (forall p | p in s.data :: p.num < |s.tx.snd.log| && p.msg == s.tx.snd.log[p.num].msg)
    && (forall k | k in s.acks :: SoundAck(k, s.rcv))
  }

  ghost predicate Inv(s: State) {
    && WindowsAgree(s)
    && NetworkHonest(s)
    && OfMode(s.handed, RELIABLE_ORDERED) == OrderedBelow(s.tx.snd.log, s.rcv.expected)
    && OnceEach(OfMode(s.handed, RELIABLE_UNORDERED), s.tx.snd.log, s.rcv)
  }
}
