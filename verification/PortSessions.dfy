/** Whole sessions on the device: the reads and writes of an application, the pool they leave behind
    and the bytes they leave alone. */
module PortSessions {
  import opened CapiWire
  import opened CapiMessages
  import opened BufferPool
  import opened PoolRuns
  import opened StdModule
  import opened StdPort

  /** What an application does: it asks for a message, or hands one over. */
  datatype Action = Receive(incoming: Incoming) | Send(msg: seq<Byte>, designated: seq<Byte>)

  predicate WellFormed(a: Action, size: nat) {
    match a
    case Receive(incoming) => Acceptable(incoming, size)
    case Send(msg, designated) => Formed(msg, designated)
  }

  function EventsOf(a: Action, size: nat): seq<Event>
    requires WellFormed(a, size)
  {
    match a
    case Receive(incoming) => [EventOf(incoming, size)]
    case Send(msg, _) => PutEvents(msg)
  }

  predicate AllWellFormed(actions: seq<Action>, size: nat) {
    forall i :: 0 <= i < |actions| ==> WellFormed(actions[i], size)
  }

  /** The events of a session that the actions amount to. */
  function Events(actions: seq<Action>, size: nat): seq<Event>
    requires AllWellFormed(actions, size)
  {
    if actions == [] then [] else EventsOf(actions[0], size) + Events(actions[1..], size)
  }

  /** A run in two parts. */
  lemma {:induction false} RunSplits(s: Session, es: seq<Event>, fs: seq<Event>, n: nat, b: nat, c: nat)
    requires LegalRun(s, es + fs, n, b, c)
    ensures LegalRun(s, es, n, b, c) && LegalRun(Run(s, es, n), fs, n, b, c)
    ensures Run(s, es + fs, n) == Run(Run(s, es, n), fs, n)
    ensures Overwritten(s, es + fs, n) == Overwritten(s, es, n) + Overwritten(Run(s, es, n), fs, n)
    decreases |es|
  {
    hide Legal, Step, Reads;
    if es == [] {
      assert es + fs == fs;
    } else {
      assert (es + fs)[1..] == es[1..] + fs;
      RunSplits(Step(s, es[0], n), es[1..], fs, n, b, c);
    }
  }

  /** The port is at a moment of a session that keeps the window. */
  ghost predicate InSession(port: Port, s: Session, b: nat, c: nat)
    reads port, port.app, port.app.buffers
  {
    && port.Valid() && port.app.Valid()
    && port.app.View() == s.pool
    && Reachable(s, port.app.maxbufs, b, c)
  }

  /** A session starts with the pool of a new registration. */
  lemma FreshInSession(port: Port, b: nat, c: nat)
    requires port.Valid() && port.app.Valid() && port.app.maxbufs == 2 + c * (b + 1)
    requires port.app.View() == Pool(seq(port.app.maxbufs, i => i), map[])
    ensures InSession(port, Start(port.app.maxbufs), b, c)
  {
    var n := port.app.maxbufs;
    assert LegalRun(Start(n), [], n, b, c) && Start(n) == Run(Start(n), [], n);
  }

  lemma OneEvent(s: Session, e: Event, n: nat, b: nat, c: nat)
    ensures LegalRun(s, [e], n, b, c) <==> Legal(s, e, b, c)
    ensures Run(s, [e], n) == Step(s, e, n)
    ensures Overwritten(s, [e], n) == if Reads(e) && s.pool.free != [] then {s.pool.free[0]} else {}
  {
    hide Legal, Step, Reads;
    assert [e][1..] == [];
  }

  /** Reading a message is one event of the session: the preconditions of the read hold, and only the
      buffer taken changes. */
  method ActReceive(port: Port, incoming: Incoming, ghost s: Session, ghost b: nat, ghost c: nat)
    returns (r: GetResult)
    requires InSession(port, s, b, c) && Acceptable(incoming, port.size)
    requires Legal(s, EventOf(incoming, port.size), b, c)
    modifies port.app, port.app.buffers, port.bufs
    ensures InSession(port, Step(s, EventOf(incoming, port.size), port.app.maxbufs), b, c)
    ensures s.pool.free != [] && s.pool.free[0] < |port.bufs|
    ensures r == match incoming
                 case NothingQueued => QueueEmpty
                 case ReadFailed => DeviceError
                 case Bytes(_) => Got(s.pool.free[0])
    ensures incoming.Bytes? ==> port.Holds(s.pool.free[0], incoming.data)
    ensures forall i :: 0 <= i < |port.bufs| && i != s.pool.free[0] ==> port.bufs[i][..] == old(port.bufs[i][..])
  {
    ghost var e := EventOf(incoming, port.size);
    hide Reachable, Consistent, WindowKept, Legal, Step, EventOf, Acceptable, Linked, BusyMap, Delivered, ReadIn, Num;
    ReachableSafe(s, port.app.maxbufs, b, c);
    ReachableStep(s, e, port.app.maxbufs, b, c);
    PoolAlone(s, e, port.app.maxbufs);
    r := port.GetMessage(incoming);
  }

  /** Handing over a message is at most one event of the session, and touches no receive buffer. */
  method ActSend(port: Port, msg: array<Byte>, designated: seq<Byte>, ghost s: Session, ghost b: nat, ghost c: nat)
    returns (length: nat)
    requires InSession(port, s, b, c) && Formed(msg[..], designated)
    requires LegalRun(s, PutEvents(msg[..]), port.app.maxbufs, b, c)
    requires msg !in port.bufs
    modifies port.app, port.app.buffers, msg
    ensures InSession(port, Run(s, PutEvents(old(msg[..])), port.app.maxbufs), b, c)
    ensures Outgoing(old(msg[..]), designated, s.pool)
    ensures !Refused(old(msg[..])) ==>
              length <= msg.Length && msg[..][..length] == BytesSent(old(msg[..]), designated, s.pool)
  {
    ghost var m := msg[..];
    MayPut(port, m, designated, s, b, c);
    PutKeepsSession(m, s, port.app.maxbufs, b, c);
    hide Reachable, LegalRun, Run, Formed, Outgoing, PutEvents, Linked, BusyMap, AfterPut, Answer, Refused, BytesSent;
    length := port.ProcessMessage(msg, designated);
  }

  lemma MayPut(port: Port, m: seq<Byte>, designated: seq<Byte>, s: Session, b: nat, c: nat)
    requires InSession(port, s, b, c) && Formed(m, designated)
    requires LegalRun(s, PutEvents(m), port.app.maxbufs, b, c)
    ensures Outgoing(m, designated, s.pool) && port.app.Free != []
  {
    hide Reachable, WindowKept, Linked, BusyMap, DataRequest, Num;
    ReachableSafe(s, port.app.maxbufs, b, c);
  }

  lemma PutKeepsSession(m: seq<Byte>, s: Session, n: nat, b: nat, c: nat)
    requires Reachable(s, n, b, c) && 8 <= |m|
    requires IsCommand(m, DATA_B3, RESP) ==> 14 <= |m|
    requires IsCommand(m, DISCONNECT_B3, RESP) ==> 12 <= |m|
    requires LegalRun(s, PutEvents(m), n, b, c)
    ensures Reachable(Run(s, PutEvents(m), n), n, b, c)
    ensures Run(s, PutEvents(m), n).pool == AfterPut(s.pool, m, n)
  {
    hide Reachable, Legal, Num, Step;
    if PutEvents(m) != [] {
      var e := PutEvents(m)[0];
      assert PutEvents(m) == [e];
      OneEvent(s, e, n, b, c);
      ReachableStep(s, e, n, b, c);
      PoolAlone(s, e, n);
    }
  }

  /** One action of the application. */
  method Act(port: Port, a: Action, ghost s: Session, ghost b: nat, ghost c: nat)
    requires InSession(port, s, b, c) && WellFormed(a, port.size)
    requires LegalRun(s, EventsOf(a, port.size), port.app.maxbufs, b, c)
    modifies port.app, port.app.buffers, port.bufs
    ensures InSession(port, Run(s, EventsOf(a, port.size), port.app.maxbufs), b, c)
    ensures Untouched(port, old(Contents(port)), Overwritten(s, EventsOf(a, port.size), port.app.maxbufs))
  {
    hide InSession, Legal, Run, LegalRun, Overwritten, Formed, Acceptable, EventOf, PutEvents, Step, Reads, Outgoing,
         BytesSent, Refused;
    match a {
      case Receive(incoming) =>
        OneEvent(s, EventOf(incoming, port.size), port.app.maxbufs, b, c);
        ReceiveReads(incoming, port.size);
        var _ := ActReceive(port, incoming, s, b, c);
      case Send(m, designated) =>
        var msg := new Byte[|m|](i requires 0 <= i < |m| => m[i]);
        assert msg[..] == m;
        var _ := ActSend(port, msg, designated, s, b, c);
    }
  }

  /** The contents of all receive buffers. */
  ghost function Contents(port: Port): seq<seq<Byte>>
    reads port, port.bufs
  {
    seq(|port.bufs|, i requires 0 <= i < |port.bufs| reads port, port.bufs => port.bufs[i][..])
  }

  /** Only the buffers in `written` may hold anything else than before. */
  ghost predicate Untouched(port: Port, before: seq<seq<Byte>>, written: set<nat>)
    reads port, port.bufs
  {
    && |before| == |port.bufs|
    && forall i: nat :: i < |port.bufs| && i !in written ==> port.bufs[i][..] == before[i]
  }

  lemma ReceiveReads(incoming: Incoming, size: nat)
    requires Acceptable(incoming, size)
    ensures Reads(EventOf(incoming, size))
  {
  }

  /** Any number of actions, as long as driver and application keep to the protocol: the port follows
      the session, and a buffer that the session does not write to keeps every byte. */
  method Serve(port: Port, actions: seq<Action>, ghost s: Session, ghost b: nat, ghost c: nat)
    requires InSession(port, s, b, c) && AllWellFormed(actions, port.size)
    requires LegalRun(s, Events(actions, port.size), port.app.maxbufs, b, c)
    modifies port.app, port.app.buffers, port.bufs
    ensures InSession(port, Run(s, Events(actions, port.size), port.app.maxbufs), b, c)
    ensures Untouched(port, old(Contents(port)), Overwritten(s, Events(actions, port.size), port.app.maxbufs))
    decreases |actions|
  {
    hide InSession, Legal, WellFormed, EventsOf;
    if actions != [] {
      ghost var es, fs := EventsOf(actions[0], port.size), Events(actions[1..], port.size);
      RunSplits(s, es, fs, port.app.maxbufs, b, c);
      hide Run, LegalRun, Overwritten;
      Act(port, actions[0], s, b, c);
      Serve(port, actions[1..], Run(s, es, port.app.maxbufs), b, c);
    }
  }

  /** A message other than a data indication is read, and the application looks at it while it goes
      on: until `c + 1` further messages were read the buffer holds every byte it held, so the message
      and what the decoder's pointers designate in it are still there. */
  method MessageIntact(port: Port, incoming: Incoming, later: seq<Action>, ghost s: Session, ghost b: nat, ghost c: nat)
    returns (slot: nat, seen: seq<Byte>)
    requires InSession(port, s, b, c)
    requires incoming.Bytes? && Acceptable(incoming, port.size) && !IsIndication(incoming)
    requires AllWellFormed(later, port.size)
    requires
      var after := Step(s, EventOf(incoming, port.size), port.app.maxbufs);
      LegalRun(after, Events(later, port.size), port.app.maxbufs, b, c)
    requires ReadCount(Events(later, port.size)) <= c + 1
    modifies port.app, port.app.buffers, port.bufs
    ensures slot < |port.bufs| && port.bufs[slot][..] == seen
    ensures ReadIn(seen, port.applId, incoming.data)
  {
    ghost var e := EventOf(incoming, port.size);
    MessageIsFree(port, incoming, later, s, b, c);
    hide InSession, Legal, Step, LegalRun, ReadCount, Overwritten, Events, AllWellFormed, ReadIn, Acceptable, EventOf,
         Run;
    var r := ActReceive(port, incoming, s, b, c);
    slot := r.slot;
    seen := port.bufs[slot][..];
    ServeBuffer(port, later, slot, Step(s, e, port.app.maxbufs), b, c);
  }

  lemma MessageIsFree(port: Port, incoming: Incoming, later: seq<Action>, s: Session, b: nat, c: nat)
    requires InSession(port, s, b, c)
    requires incoming.Bytes? && Acceptable(incoming, port.size) && !IsIndication(incoming)
    requires AllWellFormed(later, port.size)
    requires
      var after := Step(s, EventOf(incoming, port.size), port.app.maxbufs);
      LegalRun(after, Events(later, port.size), port.app.maxbufs, b, c)
    requires ReadCount(Events(later, port.size)) <= c + 1
    ensures Legal(s, EventOf(incoming, port.size), b, c)
    ensures
      var after := Step(s, EventOf(incoming, port.size), port.app.maxbufs);
      s.pool.free != [] && s.pool.free[0] !in Overwritten(after, Events(later, port.size), port.app.maxbufs)
  {
    hide Reachable, Step, LegalRun, ReadCount, Overwritten, Events, AllWellFormed, Num;
    MessageSurvives(s, EventOf(incoming, port.size), Events(later, port.size), port.app.maxbufs, b, c);
  }

  /** A data indication is read and waits while anything else goes on: its buffer holds every byte it
      held, however long it takes. */
  method IndicationIntact(port: Port, data: seq<Byte>, later: seq<Action>, ghost s: Session, ghost b: nat, ghost c: nat)
    returns (slot: nat, seen: seq<Byte>)
    requires InSession(port, s, b, c) && s.pool.free != []
    requires DataIndication(data, port.size) && Acceptable(Bytes(data), port.size)
    requires AllWellFormed(later, port.size)
    requires Pending(s, data, s.pool.free[0], Events(later, port.size), port.app.maxbufs, b, c)
    modifies port.app, port.app.buffers, port.bufs
    ensures slot == s.pool.free[0] && slot < |port.bufs| && port.bufs[slot][..] == seen
    ensures Delivered(data, port.size, port.applId, slot, port.Address(slot)) <= seen
    ensures
      var after := Step(s, Indicated(data), port.app.maxbufs);
      InSession(port, Run(after, Events(later, port.size), port.app.maxbufs), b, c)
  {
    IndicationPends(s, data, s.pool.free[0], Events(later, port.size), port.app.maxbufs, b, c, port.size);
    hide *;
    var r := ActReceive(port, Bytes(data), s, b, c);
    slot := r.slot;
    seen := port.bufs[slot][..];
    IndicationHeld(port, slot, data, seen);
    ghost var after := Step(s, Indicated(data), port.app.maxbufs);
    ServeBuffer(port, later, slot, after, b, c);
  }

  /** Serving, seen from one buffer that is not written to. */
  method ServeBuffer(port: Port, actions: seq<Action>, slot: nat, ghost s: Session, ghost b: nat, ghost c: nat)
    requires InSession(port, s, b, c) && AllWellFormed(actions, port.size)
    requires LegalRun(s, Events(actions, port.size), port.app.maxbufs, b, c)
    requires slot < |port.bufs| && slot !in Overwritten(s, Events(actions, port.size), port.app.maxbufs)
    modifies port.app, port.app.buffers, port.bufs
    ensures InSession(port, Run(s, Events(actions, port.size), port.app.maxbufs), b, c)
    ensures port.bufs[slot][..] == old(port.bufs[slot][..])
  {
    hide InSession, AllWellFormed, LegalRun, Events, Overwritten, Run;
    Serve(port, actions, s, b, c);
  }

  /** A data indication is read, waits while anything else goes on, and is answered as it stands in its
      buffer then: the driver gets an answer with the handle it had sent. */
  method AnswerIndication(port: Port, data: seq<Byte>, later: seq<Action>, ghost s: Session, ghost b: nat, ghost c: nat)
    returns (sent: seq<Byte>)
    requires InSession(port, s, b, c) && s.pool.free != []
    requires DataIndication(data, port.size) && Acceptable(Bytes(data), port.size)
    requires port.Address(s.pool.free[0]) + port.size < Pow256(8)
    requires AllWellFormed(later, port.size)
    requires Pending(s, data, s.pool.free[0], Events(later, port.size), port.app.maxbufs, b, c)
    modifies port.app, port.app.buffers, port.bufs
    ensures |sent| >= 14 && sent[12..14] == data[18..20]
    ensures exists t :: InSession(port, t, b, c)
  {
    ghost var es, n := Events(later, port.size), port.app.maxbufs;
    ghost var t := Run(Step(s, Indicated(data), n), es, n);
    hide *;
    var slot, seen := IndicationIntact(port, data, later, s, b, c);
    ReplySends(s, es, n, b, c, data, port.size, port.applId, slot, port.Address(slot), seen);
    sent := SendReply(port, ToBytes(Reply(FromBytes(port.bufs[slot][..]).value.msg)), data[18..20], t, b, c);
  }

  method SendReply(port: Port, m: seq<Byte>, ghost handle: seq<Byte>, ghost t: Session, ghost b: nat, ghost c: nat)
    returns (sent: seq<Byte>)
    requires InSession(port, t, b, c) && SendsHandle(m, t.pool, handle)
    modifies port.app, port.app.buffers
    ensures |sent| >= 14 && sent[12..14] == handle
    ensures exists after :: InSession(port, after, b, c)
  {
    ReplyLegal(port, m, handle, t, b, c);
    hide *;
    var msg := new Byte[|m|](i requires 0 <= i < |m| => m[i]);
    assert msg[..] == m;
    var length := ActSend(port, msg, [], t, b, c);
    sent := msg[..][..length];
  }

  lemma IndicationPends(s: Session, data: seq<Byte>, slot: nat, later: seq<Event>, n: nat, b: nat, c: nat, size: nat)
    requires DataIndication(data, size) && Acceptable(Bytes(data), size) && Pending(s, data, slot, later, n, b, c)
    ensures EventOf(Bytes(data), size) == Indicated(data) && Legal(s, Indicated(data), b, c)
    ensures LegalRun(Step(s, Indicated(data), n), later, n, b, c)
    ensures slot !in Overwritten(Step(s, Indicated(data), n), later, n)
  {
    hide Num, Legal, Step, LegalRun, Overwritten;
    PendingStays(s, data, slot, later, n, b, c);
  }

  lemma IndicationHeld(port: Port, slot: nat, data: seq<Byte>, seen: seq<Byte>)
    requires slot < |port.bufs| && port.bufs[slot][..] == seen
    requires DataIndication(data, port.size) && port.Holds(slot, data)
    ensures Delivered(data, port.size, port.applId, slot, port.Address(slot)) <= seen
  {
    hide Delivered, ReadIn;
  }

  lemma ReplySends(s: Session, later: seq<Event>, n: nat, b: nat, c: nat, data: seq<Byte>, size: nat,
                   applId: nat, slot: nat, address: nat, seen: seq<Byte>)
    requires DataIndication(data, size) && address + size < Pow256(8)
    requires Pending(s, data, slot, later, n, b, c)
    requires Delivered(data, size, applId, slot, address) <= seen
    ensures FromBytes(seen).Some?
    ensures
      var reply := Reply(FromBytes(seen).value.msg);
      && Sendable(reply)
      && SendsHandle(ToBytes(reply), Run(Step(s, Indicated(data), n), later, n).pool, data[18..20])
  {
    hide DataIndication, Pending, Delivered, FromBytes, Reply, ToBytes, SendsHandle, Sendable, Run, Step, Pow256;
    SlotFits(s, data, slot, later, n, b, c, size);
    ReplyAnswers(data, size, applId, slot, address, seen);
    HandleRoundTrip(s, later, n, b, c, data, size, applId, slot, address, seen, Reply(FromBytes(seen).value.msg));
  }

  lemma SlotFits(s: Session, data: seq<Byte>, slot: nat, later: seq<Event>, n: nat, b: nat, c: nat, size: nat)
    requires DataIndication(data, size) && Pending(s, data, slot, later, n, b, c)
    ensures |data| >= 22 && slot < 0x1_0000
  {
    hide Pending;
    PendingStays(s, data, slot, later, n, b, c);
  }

  lemma ReplyLegal(port: Port, m: seq<Byte>, handle: seq<Byte>, t: Session, b: nat, c: nat)
    requires InSession(port, t, b, c) && SendsHandle(m, t.pool, handle)
    ensures Formed(m, []) && !Refused(m)
    ensures LegalRun(t, PutEvents(m), port.app.maxbufs, b, c)
    ensures Outgoing(m, [], t.pool)
    ensures |BytesSent(m, [], t.pool)| >= 14 && BytesSent(m, [], t.pool)[12..14] == handle
  {
    hide Reachable, Num, Step, Linked, BusyMap, BytesSent;
    ReachableSafe(t, port.app.maxbufs, b, c);
    OneEvent(t, DataResp(Num(m[12..14])), port.app.maxbufs, b, c);
  }
}
