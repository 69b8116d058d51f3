/** The receive buffers of one registered application: an array of buffers whose free ones form a
    first-in first-out list threaded through the array. */
module BufferPool {
  import opened CapiDescriptor

  /** One buffer's bookkeeping.  `ncci` is 0 until a data indication is stored in the buffer. */
  datatype RecvBuffer = RecvBuffer(next: Option<nat>, datahandle: nat, used: bool, ncci: nat)

  // ---- the pool seen from outside ----

  /** What a buffer that is not free holds: a message just read, or a data indication with the
      driver's handle for it. */
  datatype Lent = Reading | Data(handle: nat, ncci: nat)

  datatype Pool = Pool(free: seq<nat>, busy: map<nat, Lent>)

  function Take(p: Pool): Pool
    requires p.free != []
  {
    Pool(p.free[1..], p.busy[p.free[0] := Reading])
  }

  function Save(p: Pool, slot: nat, handle: nat, ncci: nat): Pool {
    p.(busy := p.busy[slot := Data(handle, ncci)])
  }

  function GiveBack(p: Pool, slot: nat): Pool {
    Pool(p.free + [slot], p.busy - {slot})
  }

  /** Every lent buffer holds a data indication: no message is being read. */
  ghost predicate AllData(busy: map<nat, Lent>) {
    forall i :: i in busy ==> busy[i].Data?
  }

  /** The buffers a cleanup is for: those of one NCCI, or those of one PLCI, its low 16 bits. */
  datatype Selector = ByNcci(id: nat) | ByPlci(id: nat) {
    predicate Picks(lent: Lent) {
      lent.Data? && (if ByNcci? then lent.ncci == id else lent.ncci % 0x1_0000 == id)
    }
  }

  /** The picked buffers below `n`, in index order. */
  function Picked(busy: map<nat, Lent>, sel: Selector, n: nat): (s: seq<nat>)
    ensures forall i :: i in s <==> i < n && i in busy && sel.Picks(busy[i])
  {
    if n == 0 then []
    else Picked(busy, sel, n - 1) + if n - 1 in busy && sel.Picks(busy[n - 1]) then [n - 1] else []
  }

  function Cleanup(p: Pool, sel: Selector, n: nat): Pool {
    Pool(p.free + Picked(p.busy, sel, n), p.busy - set i | i in Picked(p.busy, sel, n))
  }

  lemma CleanupKeepsOthers(p: Pool, sel: Selector, n: nat)
    ensures forall i :: i in Cleanup(p, sel, n).busy ==> i in p.busy && Cleanup(p, sel, n).busy[i] == p.busy[i]
  {
  }

  /** A cleanup frees the buffers whose NCCI is the given one, or has the given PLCI as its low 16 bits,
      and no others; it puts them behind the free ones in rising order. */
  lemma CleanupExact(p: Pool, sel: Selector, n: nat, i: nat)
    requires i < n && i in p.busy
    ensures
      var after := Cleanup(p, sel, n);
      var freed := after.free[|p.free|..];
      && p.free <= after.free
      && (forall j, k :: 0 <= j < k < |freed| ==> freed[j] < freed[k])
      && (i in freed <==> i !in after.busy)
      && (sel.ByNcci? ==> (i in freed <==> p.busy[i].Data? && p.busy[i].ncci == sel.id))
      && (sel.ByPlci? ==> (i in freed <==> p.busy[i].Data? && p.busy[i].ncci % 0x1_0000 == sel.id))
  {
    PickedRises(p.busy, sel, n);
    assert Cleanup(p, sel, n).free[|p.free|..] == Picked(p.busy, sel, n);
  }

  lemma {:induction false} PickedRises(busy: map<nat, Lent>, sel: Selector, n: nat)
    ensures forall j, k :: 0 <= j < k < |Picked(busy, sel, n)| ==> Picked(busy, sel, n)[j] < Picked(busy, sel, n)[k]
  {
    if n > 0 {
      PickedRises(busy, sel, n - 1);
      var before := Picked(busy, sel, n - 1);
      forall j | 0 <= j < |before|
        ensures before[j] < n - 1
      {
        assert before[j] in before;
      }
    }
  }

  lemma CleanupStep(p: Pool, sel: Selector, i: nat)
    ensures Cleanup(p, sel, i + 1) ==
              if i in p.busy && sel.Picks(p.busy[i]) then GiveBack(Cleanup(p, sel, i), i) else Cleanup(p, sel, i)
    ensures i in Cleanup(p, sel, i).busy <==> i in p.busy
    ensures i in p.busy ==> Cleanup(p, sel, i).busy[i] == p.busy[i]
  {
  }

  // ---- the linked list in the array ----

  ghost predicate NoDup(s: seq<nat>) {
    forall i, j :: 0 <= i < j < |s| ==> s[i] != s[j]
  }

  function LinkAfter(free: seq<nat>, k: nat): Option<nat> {
    if k + 1 < |free| then Some(free[k + 1]) else None
  }

  ghost predicate OnList(bs: seq<RecvBuffer>, free: seq<nat>, k: nat)
    requires k < |free|
  {
    free[k] < |bs| && bs[free[k]] == RecvBuffer(LinkAfter(free, k), bs[free[k]].datahandle, false, 0)
  }

  /** The unused buffers are exactly those on the list `free`, linked in its order; a buffer in use
      links to nothing. */
  ghost predicate Linked(bs: seq<RecvBuffer>, free: seq<nat>) {
    && NoDup(free)
    && (forall k :: 0 <= k < |free| ==> OnList(bs, free, k))
    && (forall i :: 0 <= i < |bs| ==> if bs[i].used then bs[i].next == None else i in free)
  }

  function Holding(b: RecvBuffer): Lent {
    if b.ncci == 0 then Reading else Data(b.datahandle, b.ncci)
  }

  function BusyMap(bs: seq<RecvBuffer>): map<nat, Lent> {
    map i: nat | i < |bs| && bs[i].used :: Holding(bs[i])
  }

  lemma FreshLinked(bs: seq<RecvBuffer>, free: seq<nat>)
    requires |free| == |bs| && forall i :: 0 <= i < |bs| ==> free[i] == i
    requires forall i :: 0 <= i < |bs| ==> bs[i] == RecvBuffer(if i + 1 < |bs| then Some(i + 1) else None, 0, false, 0)
    ensures Linked(bs, free) && BusyMap(bs) == map[]
  {
    forall i | 0 <= i < |bs|
      ensures i in free
    {
      assert free[i] == i;
    }
  }

  lemma GetKeepsLinked(bs: seq<RecvBuffer>, free: seq<nat>, after: seq<RecvBuffer>)
    requires Linked(bs, free) && free != []
    requires OnList(bs, free, 0) && after == bs[free[0] := bs[free[0]].(next := None, used := true)]
    ensures Linked(after, free[1..])
    ensures BusyMap(after) == BusyMap(bs)[free[0] := Reading]
  {
    var rest := free[1..];
    forall k | 0 <= k < |rest|
      ensures OnList(after, rest, k)
    {
      assert OnList(bs, free, k + 1) && rest[k] == free[k + 1] != free[0];
    }
    forall i | 0 <= i < |after| && !after[i].used
      ensures i in rest
    {
      assert i in free && i != free[0];
      var k :| 0 <= k < |free| && free[k] == i;
      assert rest[k - 1] == i;
    }
  }

  /** The buffers after `slot` is linked behind `last` and no longer in use. */
  function Relinked(bs: seq<RecvBuffer>, last: nat, slot: nat): (after: seq<RecvBuffer>)
    requires last < |bs| && slot < |bs|
    ensures |after| == |bs|
    ensures forall i :: 0 <= i < |bs| && i != last ==> after[i].next == bs[i].next
  {
    var linked := bs[last := bs[last].(next := Some(slot))];
    linked[slot := linked[slot].(used := false, ncci := 0)]
  }

  lemma ReturnKeepsLinked(bs: seq<RecvBuffer>, free: seq<nat>, slot: nat, last: nat)
    requires Linked(bs, free) && free != [] && slot < |bs| && bs[slot].used
    requires last == free[|free| - 1] && OnList(bs, free, |free| - 1)
    ensures Linked(Relinked(bs, last, slot), free + [slot])
  {
    var after, longer := Relinked(bs, last, slot), free + [slot];
    forall k | 0 <= k < |free|
      ensures OnList(after, longer, k) && free[k] != slot
    {
      assert OnList(bs, free, k);
      if k < |free| - 1 {
        assert free[k] != free[|free| - 1];
      }
    }
    assert longer[|free|] == slot && OnList(after, longer, |free|);
    forall i | 0 <= i < |after| && !after[i].used
      ensures i in longer
    {
      if i != slot {
        assert i in free;
      }
    }
  }

  /** Whatever the links: one buffer less is in use. */
  lemma ReturnFrees(bs: seq<RecvBuffer>, last: nat, slot: nat)
    requires slot < |bs| && last < |bs| && bs[slot].used
    ensures BusyMap(Relinked(bs, last, slot)) == BusyMap(bs) - {slot}
    ensures |BusyMap(Relinked(bs, last, slot))| == |BusyMap(bs)| - 1
  {
    var after := Relinked(bs, last, slot);
    forall i | 0 <= i < |bs|
      ensures i != slot ==> after[i].used == bs[i].used && Holding(after[i]) == Holding(bs[i])
    {
    }
    assert !after[slot].used;
    hide Relinked, Holding;
    assert BusyMap(after).Keys == BusyMap(bs).Keys - {slot};
  }

  lemma SaveChangesOne(bs: seq<RecvBuffer>, slot: nat, b: RecvBuffer)
    requires slot < |bs| && bs[slot].used && b.used
    ensures BusyMap(bs[slot := b]) == BusyMap(bs)[slot := Holding(b)]
    ensures |BusyMap(bs[slot := b])| == |BusyMap(bs)|
  {
    assert BusyMap(bs[slot := b]).Keys == BusyMap(bs).Keys;
  }

  function Below(n: nat): set<nat> { if n == 0 then {} else Below(n - 1) + {n - 1} }

  lemma {:induction false} BelowSize(n: nat)
    ensures |Below(n)| == n && forall i: nat :: i in Below(n) <==> i < n
  {
    if n > 0 {
      BelowSize(n - 1);
    }
  }

  /** When no buffer is free all are in use. */
  lemma AllUsed(bs: seq<RecvBuffer>)
    requires Linked(bs, [])
    ensures |BusyMap(bs)| == |bs|
  {
    BelowSize(|bs|);
    assert BusyMap(bs).Keys == Below(|bs|);
  }

  lemma SaveKeepsLinked(bs: seq<RecvBuffer>, free: seq<nat>, slot: nat, b: RecvBuffer)
    requires Linked(bs, free) && slot < |bs| && bs[slot].used && b.used && b.next == None
    ensures Linked(bs[slot := b], free)
    ensures BusyMap(bs[slot := b]) == BusyMap(bs)[slot := Holding(b)]
  {
    var after := bs[slot := b];
    forall k | 0 <= k < |free|
      ensures OnList(after, free, k)
    {
      assert OnList(bs, free, k);
    }
  }

  /** Distinct numbers below `n` are at most `n`. */
  lemma {:induction false} Pigeonhole(s: seq<nat>, n: nat)
    requires NoDup(s) && forall k :: 0 <= k < |s| ==> s[k] < n
    ensures |s| <= n
    decreases n
  {
    if s != [] {
      assert s[0] < n;
    }
    if n > 0 && n - 1 in s {
      var k :| 0 <= k < |s| && s[k] == n - 1;
      Pigeonhole(s[..k] + s[k + 1..], n - 1);
    } else if n > 0 {
      Pigeonhole(s, n - 1);
    }
  }

  /** In a broken pool the source's assertion that a returned buffer links to nothing can fail: for
      the buffer that `lastfree` names, once another was returned.  Here it does not fail for any
      buffer from `from` on that a cleanup picks. */
  ghost predicate Returnable(bs: seq<RecvBuffer>, lastfree: Option<nat>, busy: map<nat, Lent>, sel: Selector,
                             from: nat)
  {
    forall i :: from <= i < |bs| && i in busy && sel.Picks(busy[i]) ==>
      bs[i].next == None && (lastfree == Some(i) ==> Picked(busy, sel, i) == [])
  }

  lemma StillReturnable(bs: seq<RecvBuffer>, lastfree: Option<nat>, busy: map<nat, Lent>, sel: Selector, i: nat)
    requires Returnable(bs, lastfree, busy, sel, i) && i < |bs| && i in busy && sel.Picks(busy[i])
    requires lastfree.Some? && lastfree.value < |bs|
    ensures Returnable(Relinked(bs, lastfree.value, i), Some(i), busy, sel, i + 1)
  {
    forall j | i < j
      ensures Picked(busy, sel, j) != []
    {
      assert i in Picked(busy, sel, j);
    }
  }

  // ---- the code ----

  class ApplInfo {
    const maxbufs: nat
    var nbufs: nat
    const buffers: array<RecvBuffer>
    var firstfree: Option<nat>
    var lastfree: Option<nat>
    ghost var Free: seq<nat>

    /** `Free` is the list that starts at `firstfree`.  Once it is empty, `lastfree` still names a
        buffer that has been handed out. */
    ghost predicate Valid()
      reads this, buffers
    {
      && buffers.Length == maxbufs
      && nbufs + |Free| == maxbufs
      && Linked(buffers[..], Free)
      && firstfree == (if Free == [] then None else Some(Free[0]))
      && lastfree.Some?
      && (Free != [] ==> lastfree == Some(Free[|Free| - 1]))
      && (Free == [] ==> lastfree.value < maxbufs)
    }

    /** The list has run empty and a buffer was returned to it, or will be: `firstfree` names nothing
        and no operation makes it name a buffer again. */
    ghost predicate Broken()
      reads this, buffers
    {
      && buffers.Length == maxbufs
      && Free == []
      && firstfree == None
      && lastfree.Some? && lastfree.value < maxbufs
      && nbufs == |View().busy|
    }

    lemma EmptyIsBroken()
      requires Valid() && Free == []
      ensures Broken()
    {
      AllUsed(buffers[..]);
    }

    ghost function View(): Pool
      reads this, buffers
    {
      Pool(Free, BusyMap(buffers[..]))
    }

    /** alloc_buffers: room for one buffer more than each connection's window, and two to spare. */
    constructor (maxB3Connection: nat, maxB3Blks: nat)
      ensures Valid() && fresh(buffers)
      ensures maxbufs == 2 + maxB3Connection * (maxB3Blks + 1)
      ensures View() == Pool(seq(maxbufs, i => i), map[])
    {
      var n: nat := 2 + maxB3Connection * (maxB3Blks + 1);
      maxbufs := n;
      nbufs := 0;
      buffers := new RecvBuffer[n](i requires 0 <= i < n =>
        RecvBuffer(if i + 1 < n then Some(i + 1) else None, 0, false, 0));
      firstfree := Some(0);
      lastfree := Some(n - 1);
      Free := seq(n, i => i);
      new;
      FreshLinked(buffers[..], Free);
    }

    /** Hands out the oldest free buffer. */
    method GetBuffer() returns (slot: Option<nat>)
      requires Valid() || Broken()
      modifies this, buffers
      ensures old(Valid()) ==> Valid()
      ensures old(Broken()) ==> Broken()
      ensures slot == if old(Free) == [] then None else Some(old(Free)[0])
      ensures slot.Some? ==> slot.value < maxbufs
      ensures lastfree == old(lastfree)
      ensures View() == if old(Free) == [] then old(View()) else Take(old(View()))
    {
      if firstfree.None? {
        return None;
      }
      var b := firstfree.value;
      ghost var bs := buffers[..];
      assert OnList(bs, Free, 0);
      firstfree := buffers[b].next;
      buffers[b] := buffers[b].(next := None, used := true);
      nbufs := nbufs + 1;
      GetKeepsLinked(bs, Free, buffers[..]);
      Free := Free[1..];
      slot := Some(b);
    }

    /** Notes the driver's handle for the data indication stored in buffer `slot`. */
    method SaveDataHandle(slot: nat, datahandle: nat, ncci: nat)
      requires (Valid() || Broken()) && slot in View().busy && ncci != 0
      modifies buffers
      ensures old(Valid()) ==> Valid()
      ensures old(Broken()) ==> Broken()
      ensures View() == Save(old(View()), slot, datahandle, ncci)
    {
      ghost var b := buffers[slot].(datahandle := datahandle, ncci := ncci);
      SaveChangesOne(buffers[..], slot, b);
      if Valid() {
        SaveKeepsLinked(buffers[..], Free, slot, b);
      }
      buffers[slot] := buffers[slot].(datahandle := datahandle, ncci := ncci);
    }

    lemma SomethingLent(slot: nat)
      requires Valid() && slot in View().busy
      ensures nbufs > 0
    {
      forall k | 0 <= k < |Free|
        ensures Free[k] < maxbufs && Free[k] != slot
      {
        assert OnList(buffers[..], Free, k);
      }
      Pigeonhole(Free + [slot], maxbufs);
    }

    /** Puts a buffer back at the end of the list and returns the handle noted for it.  When the
        list has run empty the buffer does not get onto it: it is neither lent nor free. */
    method ReturnBuffer(slot: nat) returns (datahandle: nat)
      requires Valid() || Broken()
      requires slot in View().busy && buffers[slot].next == None
      modifies this, buffers
      ensures firstfree == old(firstfree) && lastfree == Some(slot)
      ensures old(Valid()) && old(Free) != [] ==> Valid() && View() == GiveBack(old(View()), slot)
      ensures old(Free) == [] ==> Broken() && View() == Pool([], old(View()).busy - {slot})
      ensures old(View()).busy[slot].Data? ==> datahandle == old(View()).busy[slot].handle
      ensures
        && old(lastfree).Some? && old(lastfree).value < |old(buffers[..])| && slot < |old(buffers[..])|
        && buffers[..] == Relinked(old(buffers[..]), old(lastfree).value, slot)
    {
      BeforeReturn(slot);
      hide Linked, BusyMap, OnList, Relinked, NoDup;
      datahandle := Append(slot);
      if Free != [] {
        Free := Free + [slot];
      }
    }

    /** What the assignments of a return will lead to. */
    lemma BeforeReturn(slot: nat)
      requires (Valid() || Broken()) && slot in View().busy
      ensures slot < |buffers[..]| && lastfree.Some? && lastfree.value < |buffers[..]| && nbufs > 0
      ensures View().busy[slot] == Holding(buffers[slot])
      ensures
        var after := Relinked(buffers[..], lastfree.value, slot);
        && BusyMap(after) == View().busy - {slot}
        && (Free != [] ==> Linked(after, Free + [slot]))
        && (Free == [] ==> |BusyMap(after)| == nbufs - 1)
    {
      InUse(slot);
      if Free != [] {
        LastFree();
        SomethingLent(slot);
        ReturnKeepsLinked(buffers[..], Free, slot, lastfree.value);
      } else if Valid() {
        EmptyIsBroken();
      }
      ReturnFrees(buffers[..], lastfree.value, slot);
    }

    /** The assignments of a return. */
    method Append(slot: nat) returns (datahandle: nat)
      requires slot < buffers.Length && lastfree.Some? && lastfree.value < buffers.Length && nbufs > 0
      modifies this`lastfree, this`nbufs, buffers
      ensures buffers[..] == Relinked(old(buffers[..]), old(lastfree.value), slot)
      ensures lastfree == Some(slot) && nbufs == old(nbufs) - 1
      ensures datahandle == old(buffers[slot].datahandle)
    {
      datahandle := buffers[slot].datahandle;
      var last := lastfree.value;
      buffers[last] := buffers[last].(next := Some(slot));
      lastfree := Some(slot);
      buffers[slot] := buffers[slot].(used := false, ncci := 0);
      nbufs := nbufs - 1;
    }

    lemma InUse(slot: nat)
      requires (Valid() || Broken()) && slot in View().busy
      ensures slot < maxbufs && buffers[slot].used && View().busy[slot] == Holding(buffers[slot])
      ensures Valid() ==> buffers[slot].next == None
    {
      assert buffers[..][slot] == buffers[slot];
    }

    lemma FirstNotLent()
      requires Valid() && Free != []
      ensures View().busy[Free[0] := Reading] - {Free[0]} == View().busy
    {
      assert OnList(buffers[..], Free, 0);
    }

    lemma LastFree()
      requires Valid() && Free != []
      ensures lastfree.value < maxbufs && !buffers[lastfree.value].used && OnList(buffers[..], Free, |Free| - 1)
    {
      assert OnList(buffers[..], Free, |Free| - 1);
    }

    /** Right after the return of the last buffer that was taken every lent buffer can be returned. */
    lemma AllReturnable(bs: seq<RecvBuffer>, slot: nat, sel: Selector)
      requires Linked(bs, []) && slot < |bs| && Broken() && lastfree == Some(slot)
      requires buffers[..] == Relinked(bs, slot, slot)
      ensures Returnable(buffers[..], lastfree, View().busy, sel, 0)
    {
    }

    /** cleanup_buffers_for_ncci and cleanup_buffers_for_plci: gives back every buffer that holds a
        data indication of the connection. */
    method CleanupBuffers(sel: Selector)
      requires (Valid() && Free != []) || (Broken() && Returnable(buffers[..], lastfree, View().busy, sel, 0))
      requires AllData(View().busy)
      modifies this, buffers
      ensures old(Free) != [] ==> Valid() && View() == Cleanup(old(View()), sel, maxbufs)
      ensures old(Free) == [] ==> Broken() && View() == Pool([], Cleanup(old(View()), sel, maxbufs).busy)
    {
      hide *;
      ghost var p := View();
      CleaningStarts(sel);
      for i := 0 to maxbufs
        invariant Cleaning(p, sel, i)
      {
        CleanupOne(p, sel, i);
      }
      CleaningEnds(p, sel);
    }

    lemma CleaningStarts(sel: Selector)
      requires (Valid() && Free != []) || (Broken() && Returnable(buffers[..], lastfree, View().busy, sel, 0))
      requires AllData(View().busy)
      ensures Cleaning(View(), sel, 0) && View().free == Free
    {
      hide Linked, BusyMap, Returnable;
      assert Cleanup(View(), sel, 0) == View();
    }

    lemma CleaningEnds(p: Pool, sel: Selector)
      requires Cleaning(p, sel, maxbufs)
      ensures p.free != [] ==> Valid() && View() == Cleanup(p, sel, maxbufs)
      ensures p.free == [] ==> Broken() && View() == Pool([], Cleanup(p, sel, maxbufs).busy)
    {
      hide Linked, BusyMap, Cleanup, Returnable;
    }

    /** The buffers below `i` are dealt with. */
    ghost predicate Cleaning(p: Pool, sel: Selector, i: nat)
      reads this, buffers
    {
      AllData(p.busy) &&
      if p.free != [] then
        Valid() && Free != [] && View() == Cleanup(p, sel, i)
      else
        Broken() && View() == Pool([], Cleanup(p, sel, i).busy) && Returnable(buffers[..], lastfree, p.busy, sel, i)
    }

    method CleanupOne(ghost p: Pool, sel: Selector, i: nat)
      requires i < maxbufs && Cleaning(p, sel, i)
      modifies this, buffers
      ensures Cleaning(p, sel, i + 1)
    {
      Inspect(p, sel, i);
      PassBy(p, sel, i);
      hide *;
      var b := buffers[i];
      if b.used && (if sel.ByNcci? then b.ncci == sel.id else b.ncci % 0x1_0000 == sel.id) {
        CleanupReturn(p, sel, i);
      }
    }

    ghost predicate Picks(p: Pool, sel: Selector, i: nat) {
      i in p.busy && sel.Picks(p.busy[i])
    }

    method CleanupReturn(ghost p: Pool, sel: Selector, i: nat)
      requires i < maxbufs && Cleaning(p, sel, i) && Picks(p, sel, i)
      requires i in View().busy && buffers[i].next == None
      modifies this, buffers
      ensures Cleaning(p, sel, i + 1)
    {
      CleanupStep(p, sel, i);
      ghost var bs := buffers[..];
      if p.free == [] {
        StillReturnable(bs, lastfree, p.busy, sel, i);
      }
      hide Linked, Cleanup, BusyMap, Picked, OnList, Returnable, Selector.Picks, Picks, NoDup, Relinked;
      var _ := ReturnBuffer(i);
    }

    lemma PassBy(p: Pool, sel: Selector, i: nat)
      requires i < maxbufs && Cleaning(p, sel, i)
      ensures !Picks(p, sel, i) ==> Cleaning(p, sel, i + 1)
    {
      CleanupStep(p, sel, i);
      hide Linked, Cleanup, BusyMap, Picked, OnList;
    }

    /** The buffer looked at is one that is to be given back exactly when it was one from the start,
        and it can be given back. */
    lemma Inspect(p: Pool, sel: Selector, i: nat)
      requires i < maxbufs && Cleaning(p, sel, i)
      ensures var b := buffers[i];
              && (b.used <==> i in p.busy)
              && (b.used ==>
                    && i in View().busy && p.busy[i] == Data(b.datahandle, b.ncci) && b.ncci != 0
                    && (sel.Picks(p.busy[i]) ==> buffers[i].next == None))
      ensures Picks(p, sel, i) <==>
                && buffers[i].used
                && (if sel.ByNcci? then buffers[i].ncci == sel.id else buffers[i].ncci % 0x1_0000 == sel.id)
    {
      CleanupStep(p, sel, i);
      hide Cleanup;
      if i in View().busy {
        InUse(i);
      } else {
        assert !buffers[..][i].used;
      }
    }
  }

  /** Reading a message and giving its buffer back leaves a working list exactly when at least two
      buffers were free: taking the last one breaks the list for good. */
  method GetAndReturn(app: ApplInfo)
    requires app.Valid() && app.Free != []
    modifies app, app.buffers
    ensures app.firstfree.Some? <==> |old(app.Free)| >= 2
    ensures |old(app.Free)| >= 2 ==>
              app.Valid() && app.View() == GiveBack(Take(old(app.View())), old(app.Free)[0])
    ensures |old(app.Free)| < 2 ==>
              app.Broken() && app.View() == Pool([], old(app.View()).busy)
  {
    app.FirstNotLent();
    hide Linked, BusyMap, Relinked;
    var slot := app.GetBuffer();
    app.InUse(slot.value);
    var _ := app.ReturnBuffer(slot.value);
  }

  /** A driver that does not keep the window can bring any pool there: it sends data indications
      until one buffer is left, and then any other message. */
  method PastWindow(maxB3Connection: nat, maxB3Blks: nat) returns (app: ApplInfo)
    ensures app.Broken() && app.maxbufs == 2 + maxB3Connection * (maxB3Blks + 1)
    ensures AllData(app.View().busy)
  {
    app := new ApplInfo(maxB3Connection, maxB3Blks);
    hide Linked, BusyMap;
    for i := 1 to app.maxbufs
      invariant fresh(app) && fresh(app.buffers) && app.maxbufs == 2 + maxB3Connection * (maxB3Blks + 1)
      invariant Unanswered(app, i - 1)
    {
      ReadIndication(app, i - 1);
    }
    GetAndReturn(app);
  }

  /** `n` data indications have been read and none has been answered. */
  ghost predicate Unanswered(app: ApplInfo, n: nat)
    reads app, app.buffers
  {
    && app.Valid()
    && |app.Free| == app.maxbufs - n
    && AllData(app.View().busy)
  }

  method ReadIndication(app: ApplInfo, ghost n: nat)
    requires Unanswered(app, n) && app.Free != []
    modifies app, app.buffers
    ensures Unanswered(app, n + 1)
  {
    hide Linked, BusyMap;
    var slot := app.GetBuffer();
    app.SaveDataHandle(slot.value, 0, 1);
  }
}
