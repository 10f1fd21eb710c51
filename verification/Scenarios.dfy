/** Small runs of the link that theorems elsewhere use as inputs. */
module Scenarios {
  import opened Words
  import opened SeqNum
  import opened SendSpec
  import opened RecvSpec
  import opened Link
  import opened LinkProofs

  lemma Extend(run: seq<State>, step: Step) returns (longer: seq<State>)
    requires IsRun(run) && Enabled(run[|run| - 1], step)
    ensures IsRun(longer) && |longer| == |run| + 1
    ensures longer[..|run|] == run && longer[|run|] == Apply(run[|run| - 1], step)
  {
    longer := run + [Apply(run[|run| - 1], step)];
    assert Next(longer[|run| - 1], longer[|run|]);
    forall i | 0 < i < |longer| ensures StepInto(longer, i) {
      if i < |run| { assert StepInto(run, i); }
    }
  }

  lemma FirstArrives(r: Receiver, msg: Msg)
    requires RecvOk(r) && r == StartRecv(r.cap, r.isn) && Reliable(msg.mode)
    ensures
      var o := Deliver(r, Wire(r.isn, 0), msg);
      o.rcv == r.(expected := 1) && o.items == [Item(0, msg)]
  {
    DeliverMeaning(r, 0, msg);
    var r1 := Admit(r, 0, msg);
    assert Advance(r1) == r.(expected := 1);
    assert Drain(Advance(r1)) == Drained(Advance(r1), []);
    assert Passing(r1) + [] == Passing(r1);
  }

  /** One message sent, delivered and acked. */
  lemma FirstAcked(start: State, m0: Msg) returns (run: seq<State>)
    requires Initial(start) && Storable(m0)
    ensures IsRun(run) && run[0] == start
    ensures
      var s := run[|run| - 1];
      && s.tx.snd == Push(start.tx.snd, m0, 0).(head := 1)
      && s.rcv == start.rcv.(expected := 1) && s.handed == [Item(0, m0)]
  {
    run := [start];
    run := Extend(run, Send(m0, 0));
    FirstArrives(start.rcv, m0);
    run := Extend(run, DeliverData(Packet(0, m0)));
    var s := run[|run| - 1];
    run := Extend(run, EmitAck);
    OwnAckEffect(s.tx, s.rcv, 0);
    assert OnAck(s.tx, AckNum(s.rcv), SackMask(s.rcv), 0).snd.acked == {};
    run := Extend(run, DeliverAck(AckPacket(1, AckNum(s.rcv), SackMask(s.rcv)), 0));
  }

  /** Two messages sent and the second one delivered. */
  lemma SecondArrives(start: State, m0: Msg, m1: Msg) returns (run: seq<State>)
    requires Initial(start) && Storable(m0) && Storable(m1)
    requires m0.mode == RELIABLE_ORDERED && m1.mode == RELIABLE_ORDERED
    ensures IsRun(run) && run[0] == start
    ensures
      var s := run[|run| - 1];
      && s.tx.snd == Push(Push(start.tx.snd, m0, 0), m1, 0)
      && s.rcv == start.rcv.(buf := map[1 := Held(m1.payload)])
  {
    run := [start];
    run := Extend(run, Send(m0, 0));
    run := Extend(run, Send(m1, 0));
    var s := run[|run| - 1];
    var p := Packet(1, m1);
    DeliverMeaning(s.rcv, 1, m1);
    run := Extend(run, DeliverData(p));
  }

  lemma AckOfTheSecond(a: Acking, r: Receiver)
    requires Ok(a.snd) && a.snd.head == 0 && |a.snd.log| == 2 && a.snd.acked == {}
    requires r.isn == a.snd.isn && r.expected == 0 && r.buf.Keys == {1}
    ensures
      var s := OnAck(a, AckNum(r), SackMask(r), 0).snd;
      |s.log| == 2 && 1 in s.acked && Unacked(s) == {0}
  {
    OwnAckEffect(a, r, 0);
  }
}
