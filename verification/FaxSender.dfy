/** The fax sender: a ring of eight blocks between a file and a controller that confirms the blocks
    in the order it got them. */
module FaxSender {
  type Byte = bv8

  const QUEUE_SIZE: nat := 8
  const MAX_OUTSTANDING: nat := 7
  const SEND_BLOCK_SIZE: nat := 2048

  datatype Element = Element(data: seq<Byte>, sent: bool)

  /** One DATA_B3_REQ as the controller sees it. */
  datatype Block = Block(handle: nat, data: seq<Byte>)

  // What the controller is meant to get

  /** The part of a file the sender transmits: a file of four bytes or less is not sent at all. */
  function Transmitted(file: seq<Byte>): seq<Byte> {
    if |file| <= 4 then [] else file
  }

  /** The slot of the ring that the `k`-th block of a transfer occupies. */
  function Slot(k: nat): (t: nat)
    ensures t < QUEUE_SIZE
  {
    k % QUEUE_SIZE
  }

  /** A file cut into full blocks and a rest, the first of them being block `k` of the transfer. */
  function Cut(file: seq<Byte>, k: nat): seq<Block>
    decreases |file|
  {
    if file == [] then []
    else if |file| <= SEND_BLOCK_SIZE then [Block(Slot(k), file)]
    else [Block(Slot(k), file[..SEND_BLOCK_SIZE])] + Cut(file[SEND_BLOCK_SIZE..], k + 1)
  }

  function Concat(blocks: seq<Block>): seq<Byte> {
    if blocks == [] then [] else blocks[0].data + Concat(blocks[1..])
  }

  /** The blocks of a file carry exactly the file. */
  lemma {:induction false} CutLosesNothing(file: seq<Byte>, k: nat)
    ensures Concat(Cut(file, k)) == file
    decreases |file|
  {
    if |file| > SEND_BLOCK_SIZE {
      var rest := Cut(file[SEND_BLOCK_SIZE..], k + 1);
      assert Cut(file, k)[1..] == rest;
      CutLosesNothing(file[SEND_BLOCK_SIZE..], k + 1);
    } else if file != [] {
      assert Cut(file, k)[1..] == [];
    }
  }

  /** Block `i` of a file has its 2048 bytes from place 2048 * i on, or what is left of them, and the
      handle `i` modulo 8. */
  lemma {:induction false} CutBlocks(file: seq<Byte>, k: nat, i: nat)
    requires 2048 * i < |file|
    ensures i < |Cut(file, k)|
    ensures Cut(file, k)[i].handle == (k + i) % 8
    ensures Cut(file, k)[i].data
         == if 2048 * i + 2048 <= |file| then file[2048 * i..2048 * i + 2048] else file[2048 * i..]
    ensures |file| <= 2048 * |Cut(file, k)| < |file| + 2048
    decreases |file|
  {
    if |file| > SEND_BLOCK_SIZE {
      var rest := file[SEND_BLOCK_SIZE..];
      CutBlocks(rest, k + 1, if i == 0 then 0 else i - 1);
      if i > 0 {
        assert rest[2048 * (i - 1)..] == file[2048 * i..];
      }
    }
  }

  /** A file that holds a full block begins with it. */
  lemma CutFirst(file: seq<Byte>, k: nat)
    requires |file| >= SEND_BLOCK_SIZE
    ensures Cut(file, k) == [Block(Slot(k), file[..SEND_BLOCK_SIZE])] + Cut(file[SEND_BLOCK_SIZE..], k + 1)
  {
    if |file| == SEND_BLOCK_SIZE {
      assert file[..SEND_BLOCK_SIZE] == file && file[SEND_BLOCK_SIZE..] == [];
    }
  }

  lemma CutShort(file: seq<Byte>, k: nat)
    requires 0 < |file| <= SEND_BLOCK_SIZE
    ensures Cut(file, k) == [Block(Slot(k), file)] && Cut([], k) == []
  {
  }

  lemma Halves(file: seq<Byte>, more: seq<Byte>)
    requires |file| % SEND_BLOCK_SIZE == 0 && file != []
    ensures |file| >= SEND_BLOCK_SIZE && |file[SEND_BLOCK_SIZE..]| % SEND_BLOCK_SIZE == 0
    ensures (file + more)[..SEND_BLOCK_SIZE] == file[..SEND_BLOCK_SIZE]
    ensures (file + more)[SEND_BLOCK_SIZE..] == file[SEND_BLOCK_SIZE..] + more
  {
  }

  /** A file that ends on a block border is cut on as if the next block began a new file. */
  lemma {:induction false} CutAppend(file: seq<Byte>, more: seq<Byte>, k: nat)
    requires |file| % SEND_BLOCK_SIZE == 0 && 0 < |more| <= SEND_BLOCK_SIZE
    ensures Cut(file + more, k) == Cut(file, k) + [Block(Slot(k + |Cut(file, k)|), more)]
    decreases |file|
  {
    hide Cut, Slot;
    if file == [] {
      assert file + more == more;
      CutShort(more, k);
    } else {
      Halves(file, more);
      CutFirst(file, k);
      CutFirst(file + more, k);
      CutAppend(file[SEND_BLOCK_SIZE..], more, k + 1);
    }
  }

  lemma {:induction false} CutExtends(file: seq<Byte>, more: seq<Byte>, k: nat)
    requires |file| % SEND_BLOCK_SIZE == 0
    ensures Cut(file, k) <= Cut(file + more, k)
    decreases |file|
  {
    if file != [] {
      hide Cut, Slot;
      Halves(file, more);
      CutFirst(file, k);
      CutFirst(file + more, k);
      CutExtends(file[SEND_BLOCK_SIZE..], more, k + 1);
    }
  }

  /** The blocks of a file arrive whole exactly when the file is empty or longer than four bytes. */
  lemma WholeFileSent(file: seq<Byte>)
    ensures Concat(Cut(Transmitted(file), 0)) == file <==> file == [] || |file| > 4
  {
    CutLosesNothing(Transmitted(file), 0);
  }

  // The ring

  lemma SlotsDiffer(j: nat, k: nat)
    requires j < k < j + QUEUE_SIZE
    ensures Slot(j) != Slot(k)
  {
  }

  lemma NextSlot(k: nat)
    ensures Slot(k + 1) == if Slot(k) + 1 >= QUEUE_SIZE then 0 else Slot(k) + 1
    ensures Slot(k + QUEUE_SIZE) == Slot(k)
  {
  }

  /** `ring` holds the blocks from `confirmed` on, and those below `sent` are marked as sent. */
  ghost predicate Holds(ring: seq<Element>, blocks: seq<Block>, confirmed: nat, sent: nat) {
    && |ring| == QUEUE_SIZE
    && confirmed <= sent <= |blocks| <= confirmed + MAX_OUTSTANDING
    && (forall k: nat :: confirmed <= k < confirmed + QUEUE_SIZE ==> ring[Slot(k)].sent == (k < sent))
    && (forall k: nat :: confirmed <= k < |blocks| ==> ring[Slot(k)].data == blocks[k].data)
    && (forall k: nat :: k < |blocks| ==> blocks[k].handle == Slot(k))
  }

  lemma PutKeeps(ring: seq<Element>, blocks: seq<Block>, confirmed: nat, sent: nat, data: seq<Byte>)
    requires Holds(ring, blocks, confirmed, sent) && |blocks| < confirmed + MAX_OUTSTANDING
    ensures var t := Slot(|blocks|);
            Holds(ring[t := ring[t].(data := data)], blocks + [Block(t, data)], confirmed, sent)
  {
    var n := |blocks|;
    forall k: nat | confirmed <= k < n ensures Slot(k) != Slot(n) {
      SlotsDiffer(k, n);
    }
  }

  lemma SendKeeps(ring: seq<Element>, blocks: seq<Block>, confirmed: nat, sent: nat)
    requires Holds(ring, blocks, confirmed, sent) && sent < |blocks|
    ensures var t := Slot(sent);
            Holds(ring[t := ring[t].(sent := true)], blocks, confirmed, sent + 1)
  {
    forall k: nat | confirmed <= k < confirmed + QUEUE_SIZE && k != sent ensures Slot(k) != Slot(sent) {
      if k < sent {
        SlotsDiffer(k, sent);
      } else {
        SlotsDiffer(sent, k);
      }
    }
  }

  lemma ConfirmKeeps(ring: seq<Element>, blocks: seq<Block>, confirmed: nat, sent: nat)
    requires Holds(ring, blocks, confirmed, sent) && confirmed < sent
    ensures var t := Slot(confirmed);
            Holds(ring[t := ring[t].(sent := false)], blocks, confirmed + 1, sent)
  {
    NextSlot(confirmed);
    forall k: nat | confirmed < k < confirmed + QUEUE_SIZE ensures Slot(k) != Slot(confirmed) {
      SlotsDiffer(confirmed, k);
    }
  }

  /** One pass of the sender's loop: whether the connection still stands, how many sends the
      library takes before it refuses one, and whether a confirmation comes in. */
  datatype Turn = Turn(connected: bool, accepts: nat, confirms: bool)

  /** A pass in which nothing goes wrong. */
  predicate Smooth(turn: Turn) {
    turn.connected && turn.accepts >= MAX_OUTSTANDING
  }

  class Sender {
    // The queue
    const element: array<Element>
    var head: nat
    var tail: nat
    var fill: nat
    var fileTransfer: bool

    // The file, read through `fread` and `feof`
    const file: seq<Byte>
    var pos: nat
    var eof: bool

    // The controller: everything handed to it, and how much of that it has confirmed
    var wire: seq<Block>
    var confirmed: nat

    /** Every block that was put into the ring. */
    ghost var blocks: seq<Block>

    ghost predicate Valid()
      reads this, element
    {
      && Holds(element[..], blocks, confirmed, |wire|)
      && wire == blocks[..|wire|]
      && fill == |blocks| - confirmed
      && head == Slot(|blocks|)
      && tail == Slot(confirmed)
    }

    /** The ring holds the file up to the reading position, cut into blocks. */
    ghost predicate InStep()
      reads this, element
    {
      && Valid()
      && pos <= |file|
      && (eof ==> pos == |file|)
      && (!eof ==> pos == 4 || pos % SEND_BLOCK_SIZE == 0 < pos)
      && blocks == Cut(Transmitted(file[..pos]), 0)
    }

    constructor (file: seq<Byte>)
      ensures fresh(element) && element.Length == QUEUE_SIZE
      ensures this.file == file && pos == 0 && !eof && wire == []
    {
      element := new Element[QUEUE_SIZE](i => Element([], false));
      head, tail, fill, fileTransfer := 0, 0, 0, false;
      this.file, pos, eof := file, 0, false;
      wire, confirmed, blocks := [], 0, [];
    }

    /** The empty queue of a new connection. */
    method InitQueue()
      requires element.Length == QUEUE_SIZE
      modifies this, element
      ensures Valid() && fill == 0 && wire == [] && blocks == []
      ensures pos == old(pos) && eof == old(eof)
    {
      for x := 0 to QUEUE_SIZE
        invariant forall y :: 0 <= y < x ==> !element[y].sent
        invariant pos == old(pos) && eof == old(eof)
      {
        element[x] := element[x].(sent := false);
      }
      head, tail, fill := 0, 0, 0;
      wire, confirmed, blocks := [], 0, [];
    }

    /** `fread`: at most `n` bytes; a short read sets the end-of-file mark. */
    method Read(n: nat) returns (bytes: seq<Byte>)
      requires pos <= |file|
      modifies this`pos, this`eof
      ensures pos == if old(pos) + n <= |file| then old(pos) + n else |file|
      ensures bytes == file[old(pos)..pos]
      ensures eof == (old(eof) || |bytes| < n)
    {
      var end := if pos + n <= |file| then pos + n else |file|;
      bytes := file[pos..end];
      eof := eof || |bytes| < n;
      pos := end;
    }

    /** Puts a block at the head. */
    method Put(data: seq<Byte>)
      requires Valid() && fill < MAX_OUTSTANDING
      modifies this`head, this`fill, this`blocks, element
      ensures Valid()
      ensures blocks == old(blocks) + [Block(Slot(|old(blocks)|), data)]
    {
      hide Holds, Slot;
      NextSlot(|blocks|);
      PutKeeps(element[..], blocks, confirmed, |wire|, data);
      var ringBefore := element[..];
      RingSize();
      element[head] := element[head].(data := data);
      assert element[..] == ringBefore[head := ringBefore[head].(data := data)];
      blocks := blocks + [Block(head, data)];
      head := if head + 1 >= QUEUE_SIZE then 0 else head + 1;
      fill := fill + 1;
    }

    lemma RingSize()
      requires Valid()
      ensures element.Length == QUEUE_SIZE
      ensures confirmed <= |wire| <= |blocks| <= confirmed + MAX_OUTSTANDING
      ensures fill == |blocks| - confirmed && head == Slot(|blocks|) && tail == Slot(confirmed)
    {
    }

    /** The mark and the data of the block `k` of the transfer. */
    lemma RingAt(k: nat)
      requires Valid() && confirmed <= k < |blocks|
      ensures element.Length == QUEUE_SIZE
      ensures element[Slot(k)].sent == (k < |wire|)
      ensures Block(Slot(k), element[Slot(k)].data) == blocks[k]
    {
      assert element[..][Slot(k)] == element[Slot(k)];
    }

    /** The scan is back at the head exactly when it has passed the last block. */
    lemma AtHead(k: nat)
      requires Valid() && confirmed < k <= |blocks|
      ensures Slot(k) == head <==> k == |blocks|
    {
      if k < |blocks| {
        SlotsDiffer(k, |blocks|);
      }
    }

    /** Hands the block in slot `t` to the controller and marks it. */
    method SendData(t: nat)
      requires Valid() && |wire| < |blocks| && t == Slot(|wire|)
      modifies this`wire, element
      ensures Valid()
      ensures |wire| == |old(wire)| + 1
    {
      RingAt(|wire|);
      hide Holds, Slot;
      SendKeeps(element[..], blocks, confirmed, |wire|);
      var ringBefore := element[..];
      wire := wire + [Block(t, element[t].data)];
      element[t] := element[t].(sent := true);
      assert element[..] == ringBefore[t := ringBefore[t].(sent := true)];
    }

    /** Sends the blocks that were not sent yet, oldest first, until one is refused. */
    method TransferData(accepts: nat)
      requires Valid()
      modifies this`wire, element
      ensures Valid()
      ensures |wire| == if |blocks| - |old(wire)| <= accepts then |blocks| else |old(wire)| + accepts
    {
      hide *;
      RingSize();
      if fill > 0 {
        var t, left := tail, accepts;
        ghost var k := confirmed;
        while true
          invariant Valid()
          invariant confirmed <= k < |blocks| && t == Slot(k)
          invariant |old(wire)| <= |wire| <= |blocks| && k <= |wire|
          invariant k > |old(wire)| ==> |wire| == k
          invariant k <= |old(wire)| ==> |wire| == |old(wire)|
          invariant left == accepts - (|wire| - |old(wire)|)
          decreases |blocks| - k
        {
          RingAt(k);
          if !element[t].sent {
            if left == 0 {
              break;
            }
            SendData(t);
            left := left - 1;
          }
          NextSlot(k);
          t := if t + 1 >= QUEUE_SIZE then 0 else t + 1;
          k := k + 1;
          AtHead(k);
          if t == head {
            break;
          }
        }
      }
    }

    /** A confirmation: the block at the tail leaves the ring, unless the controller reports an
        error. The controller names the oldest block it has not confirmed yet. */
    method MainDataConf(dataHandle: nat, info: nat)
      requires Valid() && fileTransfer
      requires confirmed < |wire| && dataHandle == wire[confirmed].handle
      modifies this`tail, this`fill, this`confirmed, element
      ensures info == 0 ==> Valid() && confirmed == old(confirmed) + 1
      ensures info != 0 ==> unchanged(this) && unchanged(element)
    {
      if info != 0 {
        return;
      }
      RingAt(confirmed);
      assert dataHandle == tail;
      hide Holds, Slot;
      NextSlot(confirmed);
      ConfirmKeeps(element[..], blocks, confirmed, |wire|);
      var ringBefore := element[..];
      element[tail] := element[tail].(sent := false);
      assert element[..] == ringBefore[tail := ringBefore[tail].(sent := false)];
      tail := if tail + 1 >= QUEUE_SIZE then 0 else tail + 1;
      fill := fill - 1;
      confirmed := confirmed + 1;
    }

    /** Of the blocks that wait for their confirmation, the one at the tail is the oldest alone: after
        a confirmation that was dropped for its error, no later one names the tail. */
    lemma OnlyOldestIsTail(later: nat)
      requires Valid() && confirmed <= later < |wire|
      ensures wire[later].handle == tail <==> later == confirmed
    {
      if confirmed < later {
        SlotsDiffer(confirmed, later);
      }
    }

    /** What one reading adds to the file read so far. */
    lemma Grows(before: nat, bytes: seq<Byte>)
      requires before <= pos <= |file| && bytes == file[before..pos]
      requires before % SEND_BLOCK_SIZE == 0 < before && |bytes| <= SEND_BLOCK_SIZE
      requires blocks == Cut(Transmitted(file[..before]), 0)
      ensures Cut(Transmitted(file[..pos]), 0)
           == if bytes == [] then blocks else blocks + [Block(Slot(|blocks|), bytes)]
    {
      assert file[..pos] == file[..before] + bytes;
      if bytes != [] {
        CutAppend(file[..before], bytes, 0);
      }
    }

    /** The first block begins with the four bytes that were read to tell the format. */
    method ReadFirst(mbuf: seq<Byte>)
      requires InStep() && !eof && blocks == [] && pos == 4 && mbuf == file[..4]
      modifies this`pos, this`eof, this`head, this`fill, this`blocks, element
      ensures InStep() && fill <= 1
      ensures !eof ==> pos == SEND_BLOCK_SIZE
    {
      hide Holds, Slot;
      RingSize();
      var bytes := Read(SEND_BLOCK_SIZE - 4);
      assert mbuf + bytes == file[..pos];
      if |bytes| > 0 {
        Put(mbuf + bytes);
      }
    }

    /** Any other block is read into the ring as it stands in the file. */
    method ReadNext()
      requires InStep() && !eof && fill < MAX_OUTSTANDING && pos % SEND_BLOCK_SIZE == 0
      modifies this`pos, this`eof, this`head, this`fill, this`blocks, element
      ensures InStep() && fill <= old(fill) + 1
      ensures !eof ==> pos == old(pos) + SEND_BLOCK_SIZE
    {
      hide Holds, Slot, Cut, Transmitted;
      var bytes := Read(SEND_BLOCK_SIZE);
      Grows(old(pos), bytes);
      if |bytes| > 0 {
        Put(bytes);
      }
    }

    /** What a confirmation, if one comes in, does to a transfer: the controller confirms the oldest
        block it has, if it has one. */
    method HandleConfirmation(confirms: bool)
      requires Valid() && fileTransfer
      modifies this`tail, this`fill, this`confirmed, element
      ensures Valid()
      ensures confirmed == old(confirmed) + if confirms && old(confirmed) < |wire| then 1 else 0
    {
      hide *;
      RingSize();
      if confirms && confirmed < |wire| {
        MainDataConf(wire[confirmed].handle, 0);
      }
    }

    /** Where the reading stands between two passes. */
    ghost predicate Between(first: bool)
      reads this, element
    {
      && InStep()
      && fileTransfer
      && (!eof ==> if first then pos == 4 else pos % SEND_BLOCK_SIZE == 0)
    }

    /** Before the first pass the ring is empty. */
    lemma RingEmpty()
      requires InStep() && pos == 4
      ensures blocks == [] && fill == 0
    {
    }

    /** One pass of the loop. */
    method Pass(first: bool, mbuf: seq<Byte>, turn: Turn) returns (stillFirst: bool)
      requires Between(first) && !eof && (first ==> mbuf == file[..4])
      modifies this`pos, this`eof, this`head, this`tail, this`fill, this`blocks, this`wire, this`confirmed, element
      ensures !stillFirst && Between(false)
      ensures Smooth(turn) ==> |wire| == |blocks|
      ensures Smooth(turn) && turn.confirms && old(fill) == 0 ==> fill == 0
      ensures !eof && old(fill) < 7 ==>
                pos == if first then SEND_BLOCK_SIZE else old(pos) + SEND_BLOCK_SIZE
    {
      hide Holds, Slot, Cut;
      RingSize();
      if first {
        RingEmpty();
      }
      stillFirst := first;
      if fill < MAX_OUTSTANDING {
        if first {
          ReadFirst(mbuf);
        } else {
          ReadNext();
        }
        stillFirst := false;
      }
      RingSize();
      if turn.connected {
        TransferData(turn.accepts);
        HandleConfirmation(turn.confirms);
        RingSize();
      }
    }

    /** What the controller has got is a beginning of the file, and all of it when the reading is
        over and no block is left unsent. */
    lemma WireCorrect(first: bool)
      requires Between(first)
      ensures wire <= Cut(Transmitted(file), 0)
      ensures confirmed <= |wire| <= confirmed + MAX_OUTSTANDING
      ensures eof && |wire| == |blocks| ==> wire == Cut(Transmitted(file), 0)
    {
      RingSize();
      if eof {
        assert file[..pos] == file;
      } else if pos > 4 {
        assert file[..pos] + file[pos..] == file;
        CutExtends(file[..pos], file[pos..], 0);
      }
    }

    /** What happens before the loop. */
    method Begin() returns (mbuf: seq<Byte>)
      requires element.Length == QUEUE_SIZE && pos == 0 && !eof
      modifies this, element
      ensures Between(true) && fill == 0 && |wire| == |blocks|
      ensures !eof ==> 4 <= |file| && mbuf == file[..4]
    {
      hide Holds, Slot;
      mbuf := Read(4);
      InitQueue();
      fileTransfer := true;
    }

    /** The transfer, watched for as many passes of its loop as `turns` tells about.

        At every point of every run the controller has got a beginning of the file, cut into blocks
        whose handles count around the ring, and at most seven blocks wait for their confirmation.
        A run that reaches the end of the file and whose last pass is smooth has sent all of it, and
        with prompt confirmations it gets there with one pass more than the file has full blocks. */
    method SendFax(turns: seq<Turn>) returns (passes: nat)
      requires element.Length == QUEUE_SIZE && pos == 0 && !eof
      modifies this, element
      ensures wire <= Cut(Transmitted(file), 0)
      ensures confirmed <= |wire| <= confirmed + 7
      ensures passes <= |turns| && (passes < |turns| && !eof ==> passes > 0 && !turns[passes - 1].connected)
      ensures
        eof && (passes > 0 ==> Smooth(turns[passes - 1])) ==>
          && wire == Cut(Transmitted(file), 0)
          && (Concat(wire) == file <==> file == [] || |file| > 4)
      ensures (forall turn <- turns :: Smooth(turn) && turn.confirms) && |turns| > |file| / SEND_BLOCK_SIZE ==> eof
    {
      hide Holds, Slot, Cut, Transmitted, Concat, Valid;
      var mbuf := Begin();
      var first := true;
      passes := 0;
      var connected := true;
      while connected && !eof && passes < |turns|
        invariant passes <= |turns| && (first <==> passes == 0)
        invariant connected || (passes > 0 && !turns[passes - 1].connected)
        invariant Between(first) && (!eof ==> 4 <= |file| && mbuf == file[..4])
        invariant eof && (passes > 0 ==> Smooth(turns[passes - 1])) ==> |wire| == |blocks|
        invariant (forall turn <- turns :: Smooth(turn) && turn.confirms) ==>
                    connected && fill == 0 && (!eof && passes > 0 ==> pos == passes * SEND_BLOCK_SIZE)
        decreases |turns| - passes
      {
        connected := turns[passes].connected;
        first := Pass(first, mbuf, turns[passes]);
        passes := passes + 1;
      }
      WireCorrect(first);
      WholeFileSent(file);
    }
  }
}
