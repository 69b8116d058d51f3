/** One registered application on the kernel device: its pool, the memory of its buffers, and the
    two operations that move messages. */
module StdPort {
  import opened CapiDescriptor
  import opened CapiWire
  import opened CapiTable
  import opened CapiMessages
  import opened BufferPool
  import opened PoolRuns
  import opened StdModule

  /** What a read from the device yields. */
  datatype Incoming = NothingQueued | ReadFailed | Bytes(data: seq<Byte>)

  datatype GetResult = NoBuffer | QueueEmpty | DeviceError | Got(slot: nat)

  const CAPI_MSG_OS_RESOURCE_ERR := 0x1108

  predicate IsDataInd(data: seq<Byte>)
    requires |data| >= 6
  {
    data[4] as nat == DATA_B3 && data[5] as nat == IND
  }

  predicate IsDisconnectInd(data: seq<Byte>)
    requires |data| >= 6
  {
    data[4] as nat == DISCONNECT && data[5] as nat == IND
  }

  /** What a driver that follows the standard may hand out: at least the bytes that are looked at. */
  predicate Acceptable(incoming: Incoming, size: nat) {
    incoming.Bytes? ==>
      && 6 <= |incoming.data| <= size
      && (IsDisconnectInd(incoming.data) ==> 12 <= |incoming.data|)
      && (IsDataInd(incoming.data) ==> DataIndication(incoming.data, size) && Num(incoming.data[8..12]) != 0)
  }

  /** The session event a read amounts to. */
  function EventOf(incoming: Incoming, size: nat): Event
    requires Acceptable(incoming, size)
  {
    if incoming.Bytes? && IsDataInd(incoming.data) then
      DataInd(Num(incoming.data[18..20]), Num(incoming.data[8..12]))
    else if incoming.Bytes? && IsDisconnectInd(incoming.data) then
      DisconnectInd(Num(incoming.data[8..12]))
    else OtherMessage
  }

  /** An event that takes the last buffer of the list and gives it back at once. */
  predicate LosesList(free: seq<nat>, e: Event) { |free| == 1 && LeavesMessage(e) }

  /** The pool after an event of a session. */
  function PoolAfter(p: Pool, e: Event, n: nat): Pool { Step(Session(p, map[]), e, n).pool }

  /** The pool after the buffer of a message other than a data indication is given back; to an empty
      list it does not get back. */
  function Released(p: Pool, slot: nat, data: seq<Byte>, n: nat): Pool
    requires 6 <= |data| && (IsDisconnectInd(data) ==> 12 <= |data|)
  {
    var back := GiveBack(p, slot);
    var after := if IsDisconnectInd(data) then Cleanup(back, ByPlci(Num(data[8..12])), n) else back;
    if p.free == [] then Pool([], after.busy) else after
  }

  predicate IsIndication(incoming: Incoming) {
    incoming.Bytes? && 6 <= |incoming.data| && IsDataInd(incoming.data)
  }

  /** What the code makes of the pool once buffer `slot` was taken for a read. */
  function ReadInto(taken: Pool, slot: nat, incoming: Incoming, size: nat, n: nat): Pool
    requires Acceptable(incoming, size)
  {
    if IsIndication(incoming) then
      Save(taken, slot, Num(incoming.data[18..20]), Num(incoming.data[8..12]))
    else if incoming.Bytes? then
      Released(taken, slot, incoming.data, n)
    else
      Pool(if taken.free == [] then [] else taken.free + [slot], taken.busy - {slot})
  }

  lemma ReadIsEvent(p: Pool, incoming: Incoming, size: nat, n: nat)
    requires Acceptable(incoming, size)
    ensures
      var e := EventOf(incoming, size);
      var after := PoolAfter(p, e, n);
      if p.free == [] then after == p
      else
        ReadInto(Take(p), p.free[0], incoming, size, n) ==
          if LosesList(p.free, e) then Pool([], after.busy) else after
    ensures LosesList(p.free, EventOf(incoming, size)) <==> |p.free| == 1 && !IsIndication(incoming)
  {
    hide Num, Cleanup;
  }

  lemma KeepsAllData(busy: map<nat, Lent>, slot: nat, handle: nat, ncci: nat)
    requires AllData(busy - {slot})
    ensures AllData(busy[slot := Data(handle, ncci)])
  {
    forall i | i in busy && i != slot
      ensures busy[i].Data?
    {
      assert i in busy - {slot};
    }
  }

  class Port {
    const app: ApplInfo
    const applId: nat
    const size: nat
    const start: nat
    const bufs: seq<array<Byte>>

    ghost predicate Valid()
      reads this, app, app.buffers
    {
      && (app.Valid() || app.Broken())
      && |bufs| == app.maxbufs <= 0x1_0000
      && 2048 <= size
      && (forall i :: 0 <= i < |bufs| ==> bufs[i].Length == size)
      && (forall i, j :: 0 <= i < j < |bufs| ==> bufs[i] != bufs[j])
      && AllData(app.View().busy)
    }

    constructor (app: ApplInfo, applId: nat, size: nat, start: nat, bufs: seq<array<Byte>>)
      requires app.Valid() && app.View().busy == map[]
      requires |bufs| == app.maxbufs <= 0x1_0000 && 2048 <= size
      requires forall i :: 0 <= i < |bufs| ==> bufs[i].Length == size
      requires forall i, j :: 0 <= i < j < |bufs| ==> bufs[i] != bufs[j]
      ensures Valid() && this.app == app && this.bufs == bufs && this.size == size
    {
      this.app, this.applId, this.size, this.start, this.bufs := app, applId, size, start, bufs;
    }

    /** Where buffer `slot` lies in memory. */
    function Address(slot: nat): nat { start + size * slot }

    /** Reads a message into the next free buffer, if there is one.  Only that buffer is written to;
        the pool changes as the event of the session says, except that the list is lost when its last
        buffer is taken and at once given back. */
    method GetMessage(incoming: Incoming) returns (r: GetResult)
      requires Valid() && Acceptable(incoming, size)
      modifies app, app.buffers, bufs
      ensures Valid()
      ensures
        var after := PoolAfter(old(app.View()), EventOf(incoming, size), app.maxbufs);
        if LosesList(old(app.Free), EventOf(incoming, size))
        then app.Broken() && app.View() == Pool([], after.busy)
        else old(app.Valid()) ==> app.Valid() && app.View() == after
      ensures old(app.Broken()) ==> app.Broken() && app.View() == old(app.View())
      ensures old(app.Free) == [] ==> r == NoBuffer && forall i :: 0 <= i < |bufs| ==> bufs[i][..] == old(bufs[i][..])
      ensures old(app.Free) != [] ==>
                r == match incoming
                     case NothingQueued => QueueEmpty
                     case ReadFailed => DeviceError
                     case Bytes(_) => Got(old(app.Free)[0])
      ensures old(app.Free) != [] ==> old(app.Free)[0] < |bufs|
      ensures old(app.Free) != [] ==>
                forall i :: 0 <= i < |bufs| && i != old(app.Free)[0] ==> bufs[i][..] == old(bufs[i][..])
      ensures old(app.Free) != [] && incoming.Bytes? ==>
                Holds(old(app.Free)[0], incoming.data)
    {
      hide Linked, BusyMap, Relinked, Holds, PoolAfter, EventOf, ReadInto, Acceptable, LosesList, IsIndication, Take;
      ReadIsEvent(app.View(), incoming, size, app.maxbufs);
      Taking();
      var got := app.GetBuffer();
      if got.None? {
        return NoBuffer;
      }
      r := Fill(got.value, incoming);
    }

    lemma Taking()
      requires Valid()
      ensures app.Free != [] ==> app.Valid()
      ensures app.Free != [] ==>
        var slot, taken := app.Free[0], Take(app.View());
        taken.free == app.Free[1..] && slot in taken.busy && AllData(taken.busy - {slot})
    {
      if app.Free != [] {
        app.FirstNotLent();
      }
    }

    /** The read into buffer `slot`, which was just taken. */
    method Fill(slot: nat, incoming: Incoming) returns (r: GetResult)
      requires app.Valid() && slot in app.View().busy && slot < |bufs| && bufs[slot].Length == size
      requires Acceptable(incoming, size) && AllData(app.View().busy - {slot})
      requires app.Free == [] ==> app.lastfree == Some(slot)
      modifies app, app.buffers, bufs[slot]
      ensures AllData(app.View().busy)
      ensures app.View() == ReadInto(old(app.View()), slot, incoming, size, app.maxbufs)
      ensures if old(app.Free) == [] && !IsIndication(incoming) then app.Broken() else app.Valid()
      ensures incoming.Bytes? ==> Holds(slot, incoming.data)
      ensures
        r == match incoming
             case NothingQueued => QueueEmpty
             case ReadFailed => DeviceError
             case Bytes(_) => Got(slot)
    {
      hide Linked, BusyMap, Relinked, Holds, Released;
      if incoming.Bytes? {
        TakeMessage(slot, incoming.data);
        return Got(slot);
      }
      app.InUse(slot);
      var _ := app.ReturnBuffer(slot);
      return if incoming.NothingQueued? then QueueEmpty else DeviceError;
    }

    /** What becomes of a message that was read into buffer `slot`. */
    method TakeMessage(slot: nat, data: seq<Byte>)
      requires app.Valid() && slot in app.View().busy && slot < |bufs| && bufs[slot].Length == size
      requires Acceptable(Bytes(data), size) && AllData(app.View().busy - {slot})
      requires app.Free == [] ==> app.lastfree == Some(slot)
      modifies app, app.buffers, bufs[slot]
      ensures AllData(app.View().busy) && Holds(slot, data)
      ensures if old(app.Free) == [] && !IsDataInd(data) then app.Broken() else app.Valid()
      ensures
        app.View() == if IsDataInd(data)
                      then Save(old(app.View()), slot, Num(data[18..20]), Num(data[8..12]))
                      else Released(old(app.View()), slot, data, app.maxbufs)
    {
      hide Delivered, ReadIn, Linked, BusyMap, Cleanup, Num, Relinked;
      ReadMessage(bufs[slot], data);
      if IsDataInd(data) {
        KeepsAllData(app.View().busy, slot, Num(data[18..20]), Num(data[8..12]));
        KeepIndication(slot, data);
      } else {
        ReleaseMessage(slot, data);
      }
    }

    /** Buffer `slot` holds the message as the application is to get it. */
    ghost predicate Holds(slot: nat, data: seq<Byte>)
      requires slot < |bufs|
      reads bufs[slot]
    {
      if |data| >= 6 && IsDataInd(data)
      then DataIndication(data, size) && Delivered(data, size, applId, slot, Address(slot)) <= bufs[slot][..]
      else ReadIn(bufs[slot][..], applId, data)
    }

    /** A data indication stays in its buffer until it is answered. */
    method KeepIndication(slot: nat, data: seq<Byte>)
      requires app.Valid() && slot in app.View().busy && slot < |bufs| && bufs[slot].Length == size
      requires DataIndication(data, size) && Num(data[8..12]) != 0 && ReadIn(bufs[slot][..], applId, data)
      modifies app.buffers, bufs[slot]
      ensures app.Valid()
      ensures app.View() == Save(old(app.View()), slot, Num(data[18..20]), Num(data[8..12]))
      ensures Delivered(data, size, applId, slot, Address(slot)) <= bufs[slot][..]
    {
      hide Delivered, ReadIn;
      app.SaveDataHandle(slot, Num(data[18..20]), Num(data[8..12]));
      PatchDataInd(bufs[slot], applId, slot, Address(slot), data);
    }

    /** Any other message is left to the caller in a buffer that is free again. */
    method ReleaseMessage(slot: nat, data: seq<Byte>)
      requires app.Valid() && slot in app.View().busy && 6 <= |data|
      requires app.Free == [] ==> app.lastfree == Some(slot)
      requires IsDisconnectInd(data) ==> 12 <= |data|
      requires AllData(app.View().busy - {slot})
      modifies app, app.buffers
      ensures if old(app.Free) == [] then app.Broken() else app.Valid()
      ensures app.View() == Released(old(app.View()), slot, data, app.maxbufs)
      ensures AllData(app.View().busy)
    {
      ghost var bs := app.buffers[..];
      app.InUse(slot);
      var _ := app.ReturnBuffer(slot);
      if IsDisconnectInd(data) {
        CleanupKeepsOthers(app.View(), ByPlci(Num(data[8..12])), app.maxbufs);
        if app.Broken() {
          app.AllReturnable(bs, slot, ByPlci(Num(data[8..12])));
        }
        app.CleanupBuffers(ByPlci(Num(data[8..12])));
      }
    }

    /** The read itself, and the application id set in the message. */
    method ReadMessage(buf: array<Byte>, data: seq<Byte>)
      requires 6 <= |data| <= buf.Length
      modifies buf
      ensures ReadIn(buf[..], applId, data)
    {
      SetBytes(buf, 0, data);
      SetU16(buf, 2, applId);
    }

    /** Prepares a message for the driver: appends the data of a request, puts the driver's handle
        into an answer, and frees what a closed connection left behind.  `designated` is the data
        block the message's data address designates.  A data request that is too long is refused: an
        error code comes back in place of a length, and nothing has changed. */
    method ProcessMessage(msg: array<Byte>, designated: seq<Byte>) returns (length: nat)
      requires Valid() && Outgoing(msg[..], designated, app.View())
      requires Answer(msg[..]) ==> app.Free != []
      modifies app, app.buffers, msg
      ensures Valid()
      ensures app.View() == AfterPut(old(app.View()), old(msg[..]), app.maxbufs)
      ensures old(app.Valid()) ==> app.Valid()
      ensures Refused(old(msg[..])) ==> length == CAPI_MSG_OS_RESOURCE_ERR && msg[..] == old(msg[..])
      ensures !Refused(old(msg[..])) ==>
                && length <= msg.Length
                && msg[..][..length] == BytesSent(old(msg[..]), designated, old(app.View()))
    {
      hide Le, Linked, BusyMap, Cleanup, Num, Splice, DataOf, HasPointer, Relinked, PoolAfter, TooLong, AllData;
      length := GetU16(msg, 0);
      assert msg[0..2] == msg[..][0..2];
      if msg[4] as nat == DATA_B3 && msg[5] as nat == REQ {
        length := AppendData(msg, length, designated);
      } else if msg[4] as nat == DATA_B3 && msg[5] as nat == RESP {
        GiveHandle(msg, length);
      } else if msg[4] as nat == DISCONNECT_B3 && msg[5] as nat == RESP {
        ForgetConnection(msg);
      }
    }

    /** Puts the driver's handle into an answer and gives the buffer back. */
    method GiveHandle(msg: array<Byte>, ghost length: nat)
      requires Valid() && app.Free != [] && 14 <= length <= msg.Length
      requires Num(msg[..][12..14]) in app.View().busy && app.View().busy[Num(msg[..][12..14])].Data?
      modifies app, app.buffers, msg
      ensures Valid() && app.Valid()
      ensures app.View() == PoolAfter(old(app.View()), DataResp(Num(old(msg[..])[12..14])), app.maxbufs)
      ensures msg[..][..length] == old(msg[..])[..12]
                                   + Le(old(app.View()).busy[Num(old(msg[..])[12..14])].handle, 2)
                                   + old(msg[..])[14..length]
    {
      hide Le, Linked, BusyMap, Cleanup, Num, Splice, Relinked;
      var slot := GetU16(msg, 12);
      assert msg[12..14] == msg[..][12..14];
      app.InUse(slot);
      var handle := app.ReturnBuffer(slot);
      SpliceHead(msg[..], Le(handle, 2), length);
      SetU16(msg, 12, handle);
    }

    /** Gives back the buffers of a connection that has ended. */
    method ForgetConnection(msg: array<Byte>)
      requires Valid() && app.Free != [] && 12 <= msg.Length
      modifies app, app.buffers
      ensures Valid() && app.Valid()
      ensures app.View() == PoolAfter(old(app.View()), DisconnectB3Resp(Num(msg[..][8..12])), app.maxbufs)
    {
      hide Linked, BusyMap, Cleanup, Num, Relinked;
      var ncci := GetU32(msg, 8);
      assert msg[8..12] == msg[..][8..12];
      CleanupKeepsOthers(app.View(), ByNcci(ncci), app.maxbufs);
      app.CleanupBuffers(ByNcci(ncci));
    }

    /** Copies the data block behind the message: from the 64-bit data address if there is one, else
        it is behind the message already. */
    method AppendData(msg: array<Byte>, length: nat, designated: seq<Byte>) returns (total: nat)
      requires DataRequest(msg[..], designated) && length == Num(msg[..][0..2])
      modifies msg
      ensures TooLong(old(msg[..])) ==> total == CAPI_MSG_OS_RESOURCE_ERR && msg[..] == old(msg[..])
      ensures !TooLong(old(msg[..])) ==>
                total <= msg.Length && msg[..][..total] == old(msg[..])[..length] + DataOf(old(msg[..]), designated)
    {
      var dataLen := GetU16(msg, 16);
      assert msg[16..18] == msg[..][16..18];
      if length + dataLen > SEND_BUFSIZ {
        return CAPI_MSG_OS_RESOURCE_ERR;
      }
      total := length + dataLen;
      if length >= 30 && HasPointer(msg[..]) {
        SetBytes(msg, length, designated);
      } else {
        Move(msg, length, length, dataLen);
      }
    }
  }

  lemma SpliceHead(m: seq<Byte>, h: seq<Byte>, length: nat)
    requires 14 <= length <= |m| && |h| == 2
    ensures Splice(m, 12, h)[..length] == m[..12] + h + m[14..length]
  {
  }

  predicate HasPointer(m: seq<Byte>)
    requires |m| >= 30
  {
    Num(m[22..30]) != 0
  }

  /** The source's limit for a request and its data together. */
  predicate TooLong(m: seq<Byte>)
    requires |m| >= 18
  {
    Num(m[0..2]) + Num(m[16..18]) > SEND_BUFSIZ
  }

  /** A data request.  Unless it is too long its buffer has room for the data, and the data block its
      address designates has the length it names. */
  predicate DataRequest(m: seq<Byte>, designated: seq<Byte>) {
    && 18 <= |m| && 18 <= Num(m[0..2]) <= |m|
    && (!TooLong(m) ==> Num(m[0..2]) + Num(m[16..18]) <= |m|)
    && (Num(m[0..2]) >= 30 && HasPointer(m) ==> |designated| == Num(m[16..18]))
  }

  function DataOf(m: seq<Byte>, designated: seq<Byte>): seq<Byte>
    requires DataRequest(m, designated) && !TooLong(m)
  {
    var length := Num(m[0..2]);
    if length >= 30 && HasPointer(m) then designated else m[length..length + Num(m[16..18])]
  }

  predicate IsCommand(m: seq<Byte>, command: nat, subcommand: nat)
    requires |m| >= 6
  {
    m[4] as nat == command && m[5] as nat == subcommand
  }

  /** A message as the application may hand it over. */
  predicate Formed(m: seq<Byte>, designated: seq<Byte>) {
    && 8 <= |m| && Num(m[0..2]) <= |m|
    && (IsCommand(m, DATA_B3, REQ) ==> DataRequest(m, designated))
    && (IsCommand(m, DATA_B3, RESP) ==> 14 <= Num(m[0..2]))
    && (IsCommand(m, DISCONNECT_B3, RESP) ==> 12 <= Num(m[0..2]))
  }

  /** A response that gives buffers back. */
  predicate Answer(m: seq<Byte>) {
    |m| >= 6 && (IsCommand(m, DATA_B3, RESP) || IsCommand(m, DISCONNECT_B3, RESP))
  }

  /** An answer names an indication that was not answered. */
  predicate Outgoing(m: seq<Byte>, designated: seq<Byte>, p: Pool) {
    && Formed(m, designated)
    && (IsCommand(m, DATA_B3, RESP) ==> Num(m[12..14]) in p.busy && p.busy[Num(m[12..14])].Data?)
  }

  predicate Refused(m: seq<Byte>) {
    |m| >= 18 && IsCommand(m, DATA_B3, REQ) && TooLong(m)
  }

  /** The bytes the driver is given. */
  function BytesSent(m: seq<Byte>, designated: seq<Byte>, p: Pool): seq<Byte>
    requires Outgoing(m, designated, p) && !Refused(m)
  {
    var length := Num(m[0..2]);
    if IsCommand(m, DATA_B3, REQ) then m[..length] + DataOf(m, designated)
    else if IsCommand(m, DATA_B3, RESP) then m[..12] + Le(p.busy[Num(m[12..14])].handle, 2) + m[14..length]
    else m[..length]
  }

  /** The session events a message that is handed over amounts to. */
  function PutEvents(m: seq<Byte>): seq<Event>
    requires 8 <= |m|
    requires IsCommand(m, DATA_B3, RESP) ==> 14 <= |m|
    requires IsCommand(m, DISCONNECT_B3, RESP) ==> 12 <= |m|
  {
    if IsCommand(m, DATA_B3, RESP) then [DataResp(Num(m[12..14]))]
    else if IsCommand(m, DISCONNECT_B3, RESP) then [DisconnectB3Resp(Num(m[8..12]))]
    else []
  }

  function AfterPut(p: Pool, m: seq<Byte>, n: nat): Pool
    requires 8 <= |m|
    requires IsCommand(m, DATA_B3, RESP) ==> 14 <= |m|
    requires IsCommand(m, DISCONNECT_B3, RESP) ==> 12 <= |m|
  {
    var events := PutEvents(m);
    if events == [] then p else PoolAfter(p, events[0], n)
  }

  // ---- which bytes make which event ----

  function At2(s: seq<Byte>, at: nat): nat
    requires at + 2 <= |s|
  {
    s[at] as nat + 0x100 * s[at + 1] as nat
  }

  function At4(s: seq<Byte>, at: nat): nat
    requires at + 4 <= |s|
  {
    s[at] as nat + 0x100 * s[at + 1] as nat + 0x1_0000 * s[at + 2] as nat + 0x100_0000 * s[at + 3] as nat
  }

  lemma NumberAt(s: seq<Byte>, at: nat)
    ensures at + 2 <= |s| ==> Num(s[at..at + 2]) == At2(s, at)
    ensures at + 4 <= |s| ==> Num(s[at..at + 4]) == At4(s, at)
  {
    if at + 2 <= |s| {
      TwoBytes(s[at..at + 2]);
    }
    if at + 4 <= |s| {
      var t := s[at..at + 4];
      TwoBytes(t[2..]);
      assert t[1..][1..] == t[2..];
      assert Num(t[1..]) == t[1] as nat + 256 * Num(t[2..]);
    }
  }

  /** A message read is a data indication, the end of a physical connection, or any other. */
  lemma EventByBytes(incoming: Incoming, size: nat)
    requires Acceptable(incoming, size)
    ensures
      EventOf(incoming, size) ==
      if incoming.Bytes? && incoming.data[4] == 0x86 && incoming.data[5] == 0x82 then
        DataInd(At2(incoming.data, 18), At4(incoming.data, 8))
      else if incoming.Bytes? && incoming.data[4] == 0x04 && incoming.data[5] == 0x82 then
        DisconnectInd(At4(incoming.data, 8))
      else OtherMessage
  {
    hide Num;
    if incoming.Bytes? {
      NumberAt(incoming.data, 18);
      NumberAt(incoming.data, 8);
    }
  }

  /** The header of a delivered indication: the application's own id, the driver's message number, and
      a length of thirty bytes or the length it had. */
  lemma IndicationHeader(data: seq<Byte>, size: nat, applId: nat, slot: nat, address: nat, buf: seq<Byte>)
    requires DataIndication(data, size) && Delivered(data, size, applId, slot, address) <= buf
    ensures |buf| >= 30 && buf[4] == 0x86 && buf[5] == 0x82
    ensures applId < 0x1_0000 ==> At2(buf, 2) == applId
    ensures At2(buf, 6) == At2(data, 6)
    ensures At2(buf, 0) == if At2(data, 0) < 30 then 30 else At2(data, 0)
  {
    DeliveredParts(data, size, applId, slot, address, buf);
    DeliveredHead(data, size, applId, slot, address, buf);
    hide Le, Num, Delivered;
    NumberAt(buf, 0);
    NumberAt(buf, 2);
    NumberAt(data, 0);
    SixteenBits();
    LeOfNum(data[0..2]);
    NumOfLe(LongHeaderLen(data), 2);
    if applId < 0x1_0000 {
      NumOfLe(applId, 2);
    }
  }

  lemma DeliveredHead(data: seq<Byte>, size: nat, applId: nat, slot: nat, address: nat, buf: seq<Byte>)
    requires DataIndication(data, size) && Delivered(data, size, applId, slot, address) <= buf
    ensures |buf| >= 8 && buf[2..4] == Le(applId, 2) && buf[6] == data[6] && buf[7] == data[7]
  {
    hide Le, Num, AfterHeader;
    var d := Delivered(data, size, applId, slot, address);
    assert d[2..4] == Le(applId, 2) && d[6] == data[6] && d[7] == data[7];
  }

  /** A message handed over is the answer to an indication, the end of a logical connection, or of no
      concern to the buffers. */
  lemma PutByBytes(m: seq<Byte>)
    requires 8 <= |m|
    requires IsCommand(m, DATA_B3, RESP) ==> 14 <= |m|
    requires IsCommand(m, DISCONNECT_B3, RESP) ==> 12 <= |m|
    ensures
      PutEvents(m) ==
      if m[4] == 0x86 && m[5] == 0x83 then [DataResp(At2(m, 12))]
      else if m[4] == 0x84 && m[5] == 0x83 then [DisconnectB3Resp(At4(m, 8))]
      else []
  {
    hide Num;
    NumberAt(m, 12);
    NumberAt(m, 8);
  }

  /** The buffers of an application do not overlap in memory. */
  lemma AddressesApart(port: Port, i: nat, j: nat)
    requires i < j
    ensures port.Address(i) + port.size <= port.Address(j)
  {
    MultiplesApart(port.size, i, j);
  }

  lemma {:induction false} MultiplesApart(size: nat, i: nat, j: nat)
    requires i < j
    ensures size * i + size <= size * j
    decreases j
  {
    if i + 1 < j {
      MultiplesApart(size, i, j - 1);
      assert size * j == size * (j - 1) + size;
    } else {
      assert size * j == size * i + size;
    }
  }

  // ---- a handle's way through the library ----

  /** The application neither answers the indication numbered `slot` nor has its connection closed. */
  predicate LeavesOpen(e: Event, slot: nat, ncci: nat) {
    match e
    case DataResp(i) => i != slot
    case DisconnectInd(plci) => ncci % 0x1_0000 != plci
    case DisconnectB3Resp(closed) => ncci != closed
    case _ => true
  }

  lemma LedgerStep(s: Session, e: Event, n: nat, slot: nat, handle: nat, ncci: nat)
    requires Consistent(s, n) && slot in s.open && s.open[slot] == Data(handle, ncci) && LeavesOpen(e, slot, ncci)
    ensures slot in Step(s, e, n).open && Step(s, e, n).open[slot] == Data(handle, ncci)
  {
    if e.DataInd? && s.pool.free != [] {
      assert s.pool.free[0] !in s.open;
    }
  }

  /** None of the events answers the indication or ends its connection. */
  predicate Waits(later: seq<Event>, slot: nat, ncci: nat) {
    forall i :: 0 <= i < |later| ==> LeavesOpen(later[i], slot, ncci)
  }

  lemma {:induction false} LedgerStays(s: Session, later: seq<Event>, n: nat, b: nat, c: nat,
                                       slot: nat, handle: nat, ncci: nat)
    requires Consistent(s, n) && WindowKept(s.open, b, c) && n == 2 + c * (b + 1)
    requires LegalRun(s, later, n, b, c) && Waits(later, slot, ncci)
    requires slot in s.open && s.open[slot] == Data(handle, ncci)
    ensures
      var t := Run(s, later, n);
      slot in t.open && t.open[slot] == Data(handle, ncci) && slot in t.pool.busy && t.pool.busy[slot] == t.open[slot]
    ensures StaysOpen(s, later, n, slot)
    decreases |later|
  {
    hide WindowKept, Legal, Step, LeavesOpen;
    if later != [] {
      LedgerStep(s, later[0], n, slot, handle, ncci);
      StepKeepsInvariant(s, later[0], n, b, c);
      LedgerStays(Step(s, later[0], n), later[1..], n, b, c, slot, handle, ncci);
    }
  }

  /** `answer` is a DATA_B3_RESP with the handle that decoding the indication in `buf` gave. */
  predicate Answers(answer: Message, buf: seq<Byte>) {
    && Sendable(answer) && answer.command == DATA_B3 && answer.subcommand == RESP
    && FromBytes(buf).Some?
    && DATA_HANDLE in answer.fields && DATA_HANDLE in FromBytes(buf).value.msg.fields
    && answer.fields[DATA_HANDLE] == FromBytes(buf).value.msg.fields[DATA_HANDLE]
  }

  /** capi_cmsg_answer: the indication itself, as a response. */
  function Reply(received: Message): Message {
    received.(subcommand := RESP)
  }

  /** Every delivered indication can be answered. */
  lemma ReplyAnswers(data: seq<Byte>, size: nat, applId: nat, slot: nat, address: nat, buf: seq<Byte>)
    requires DataIndication(data, size) && Delivered(data, size, applId, slot, address) <= buf
    requires slot < 0x1_0000 && address + size < Pow256(8)
    ensures FromBytes(buf).Some?
    ensures var m := FromBytes(buf).value.msg;
            m.command == DATA_B3 && m.subcommand == IND && Answers(Reply(m), buf)
  {
    hide FromBytes, Sendable, Delivered, Num, Le, Pow256;
    IndicationArrives(data, size, applId, slot, address, buf);
    DeliveredParts(data, size, applId, slot, address, buf);
    HeaderRead(buf);
    LeOfNum(data[8..12]);
    SixteenBits();
    Respondable(Reply(FromBytes(buf).value.msg), Num(data[8..12]), slot);
  }

  lemma SixteenBits()
    ensures Pow256(2) == 0x1_0000
  {
  }

  lemma HeaderRead(buf: seq<Byte>)
    requires FromBytes(buf).Some?
    ensures |buf| >= 8
    ensures var m := FromBytes(buf).value.msg;
            m.command == buf[4] as nat && m.subcommand == buf[5] as nat && m.applId < 0x1_0000 && m.number < 0x1_0000
  {
    hide Num, Le, Parse, Tree, CommandIndex, Zeroed;
    LeOfNum(buf[2..4]);
    LeOfNum(buf[6..8]);
    SixteenBits();
  }

  lemma Respondable(msg: Message, adr: nat, slot: nat)
    requires msg.command == DATA_B3 && msg.subcommand == RESP && msg.applId < 0x1_0000 && msg.number < 0x1_0000
    requires {0x03, DATA_HANDLE} <= msg.fields.Keys
    requires msg.fields[0x03] == Number(adr) && msg.fields[DATA_HANDLE] == Number(slot)
    requires adr < Pow256(4) && slot < Pow256(2)
    ensures Sendable(msg)
  {
    hide Tree, CommandIndex, Plains;
    RespTree();
    RespItems();
    DataSizes();
    var last := Plain(DATA_HANDLE, Nil);
    assert Covers(last, msg.fields);
    assert Covers(Plain(0x03, last), msg.fields);
  }

  /** Handing over the answer `m` gives the driver a DATA_B3_RESP with `handle` in its place. */
  predicate SendsHandle(m: seq<Byte>, p: Pool, handle: seq<Byte>) {
    && Outgoing(m, [], p) && !Refused(m) && IsCommand(m, DATA_B3, RESP)
    && |BytesSent(m, [], p)| >= 14 && BytesSent(m, [], p)[12..14] == handle
  }

  function Indicated(data: seq<Byte>): Event
    requires |data| >= 20
  {
    DataInd(Num(data[18..20]), Num(data[8..12]))
  }

  /** A data indication arrives at a moment of a session that keeps the window, and what follows
      neither answers it nor ends its connection. */
  ghost predicate Pending(s: Session, data: seq<Byte>, slot: nat, later: seq<Event>, n: nat, b: nat, c: nat)
    requires |data| >= 20
  {
    && Reachable(s, n, b, c) && n <= 0x1_0000
    && Legal(s, Indicated(data), b, c) && s.pool.free != [] && slot == s.pool.free[0]
    && LegalRun(Step(s, Indicated(data), n), later, n, b, c)
    && Waits(later, slot, Num(data[8..12]))
  }

  lemma PendingStays(s: Session, data: seq<Byte>, slot: nat, later: seq<Event>, n: nat, b: nat, c: nat)
    requires |data| >= 20 && Pending(s, data, slot, later, n, b, c)
    ensures slot < 0x1_0000
    ensures
      var t := Run(Step(s, Indicated(data), n), later, n);
      slot in t.pool.busy && t.pool.busy[slot] == Data(Num(data[18..20]), Num(data[8..12]))
    ensures StaysOpen(Step(s, Indicated(data), n), later, n, slot)
    ensures slot !in Overwritten(Step(s, Indicated(data), n), later, n)
  {
    hide Num, WindowKept, Legal, LeavesOpen;
    ReachableSafe(s, n, b, c);
    StepKeepsInvariant(s, Indicated(data), n, b, c);
    LedgerStays(Step(s, Indicated(data), n), later, n, b, c, slot, Num(data[18..20]), Num(data[8..12]));
    IndicationSurvives(Step(s, Indicated(data), n), later, n, b, c, slot);
  }

  /** In every session that keeps the window: a data indication is delivered to a buffer; the
      application decodes it, keeps it for any length of time, and answers with the handle it was
      told.  The driver is then given the handle it sent. */
  lemma HandleRoundTrip(s: Session, later: seq<Event>, n: nat, b: nat, c: nat, data: seq<Byte>, size: nat,
                        applId: nat, slot: nat, address: nat, buf: seq<Byte>, answer: Message)
    requires DataIndication(data, size) && address + size < Pow256(8)
    requires Pending(s, data, slot, later, n, b, c)
    requires Delivered(data, size, applId, slot, address) <= buf && Answers(answer, buf)
    ensures SendsHandle(ToBytes(answer), Run(Step(s, Indicated(data), n), later, n).pool, data[18..20])
  {
    hide FromBytes, Sendable, ToBytes, Num, Le, Delivered, Pending, Pow256, Run, Step, SendsHandle;
    PendingStays(s, data, slot, later, n, b, c);
    IndicationArrives(data, size, applId, slot, address, buf);
    AnswerCarriesNumber(answer, slot);
    AnswerLength(answer);
    AnswerSent(ToBytes(answer), slot, Run(Step(s, Indicated(data), n), later, n).pool, data[18..20], Num(data[8..12]));
  }

  lemma AnswerSent(m: seq<Byte>, slot: nat, p: Pool, handle: seq<Byte>, ncci: nat)
    requires |m| == 14 && Num(m[0..2]) == 14 && IsCommand(m, DATA_B3, RESP) && Num(m[12..14]) == slot
    requires |handle| == 2 && slot in p.busy && p.busy[slot] == Data(Num(handle), ncci)
    ensures SendsHandle(m, p, handle)
  {
    hide Num, Le;
    LeOfNum(handle);
  }

  lemma AnswerLength(msg: Message)
    requires Sendable(msg) && |ToBytes(msg)| == 14
    ensures Num(ToBytes(msg)[0..2]) == 14
  {
    hide Le, Num, Written, Covers, Tree, CommandIndex;
    assert Pow256(2) == 0x1_0000;
    NumOfLe(14, 2);
    assert ToBytes(msg)[0..2] == Le(14, 2);
  }
}
